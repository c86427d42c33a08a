/**
 * The java.lang.String operations the core relies on: Locale.ROOT
 * lowercasing (ASCII letters), isBlank, equalsIgnoreCase, startsWith,
 * endsWith, contains, String.join, String.split and the decimal
 * conversions of Long and Boolean.
 */
module Text {
  import opened Wrappers

  predicate IsUpper(c: char) { 'A' <= c <= 'Z' }

  function LowerChar(c: char): char
  {
    if IsUpper(c) then (c as int + 32) as char else c
  }

  /** toLowerCase(Locale.ROOT), on the ASCII letters. */
  function Lower(s: string): (r: string)
    ensures |r| == |s|
    ensures forall i :: 0 <= i < |s| ==> r[i] == LowerChar(s[i])
  {
    seq(|s|, i requires 0 <= i < |s| => LowerChar(s[i]))
  }

  /** No upper-case letter occurs in `s`. */
  predicate IsLowerCase(s: string)
  {
    forall i :: 0 <= i < |s| ==> !IsUpper(s[i])
  }

  /** Lowercasing leaves a lower-case string and is idempotent. */
  lemma LowerIsLowerCase(s: string)
    ensures IsLowerCase(Lower(s))
    ensures Lower(Lower(s)) == Lower(s)
  {
  }

  /** A lower-case string is its own lowercase. */
  lemma LowerOfLowerCase(s: string)
    requires IsLowerCase(s)
    ensures Lower(s) == s
  {
  }

  /** String.equalsIgnoreCase, on the ASCII letters. */
  predicate EqualsIgnoreCase(a: string, b: string)
  {
    |a| == |b| && forall i :: 0 <= i < |a| ==> LowerChar(a[i]) == LowerChar(b[i])
  }

  /** Character.isWhitespace. */
  predicate IsWhitespace(c: char)
  {
    var u := c as int;
    || (0x09 <= u <= 0x0D) || (0x1C <= u <= 0x20)
    || u == 0x1680 || (0x2000 <= u <= 0x2006) || (0x2008 <= u <= 0x200A)
    || u == 0x2028 || u == 0x2029 || u == 0x205F || u == 0x3000
  }

  /** String.isBlank: empty or whitespace only. */
  predicate IsBlank(s: string)
  {
    forall i :: 0 <= i < |s| ==> IsWhitespace(s[i])
  }

  /** Lowercasing neither creates nor removes blankness. */
  lemma LowerPreservesBlank(s: string)
    ensures IsBlank(Lower(s)) <==> IsBlank(s)
  {
    assert forall i :: 0 <= i < |s| ==> (IsWhitespace(Lower(s)[i]) <==> IsWhitespace(s[i]));
  }

  predicate StartsWith(s: string, p: string)
  {
    |p| <= |s| && s[..|p|] == p
  }

  predicate EndsWith(s: string, p: string)
  {
    |p| <= |s| && s[|s| - |p|..] == p
  }

  /** `p` occurs in `s` starting at index `i`. */
  predicate OccursAt(s: string, p: string, i: int)
  {
    0 <= i && i + |p| <= |s| && s[i..i + |p|] == p
  }

  /** String.contains. */
  predicate Contains(s: string, p: string)
  {
    exists i :: 0 <= i <= |s| && OccursAt(s, p, i)
  }

  /** String.join(sep, xs). */
  function Join(sep: char, xs: seq<string>): string
  {
    if xs == [] then "" else if |xs| == 1 then xs[0] else xs[0] + [sep] + Join(sep, xs[1..])
  }

  /** Cuts `s` at every `sep`, keeping empty pieces: the inverse of Join. */
  function SplitOn(s: string, sep: char): (parts: seq<string>)
    ensures |parts| >= 1
    decreases |s|
  {
    if s == [] then [""]
    else if s[0] == sep then [""] + SplitOn(s[1..], sep)
    else var rest := SplitOn(s[1..], sep); [[s[0]] + rest[0]] + rest[1..]
  }

  lemma {:induction false} SplitOnNoSep(s: string, sep: char)
    requires sep !in s
    ensures SplitOn(s, sep) == [s]
  {
    if s != [] {
      assert sep !in s[1..];
      SplitOnNoSep(s[1..], sep);
      assert [s[0]] + s[1..] == s;
    }
  }

  lemma {:induction false} SplitOnAppend(a: string, sep: char, b: string)
    requires sep !in a
    ensures SplitOn(a + [sep] + b, sep) == [a] + SplitOn(b, sep)
  {
    var s := a + [sep] + b;
    if a == [] {
      assert s == [sep] + b;
      assert s[1..] == b;
    } else {
      assert s[0] == a[0] && s[0] != sep;
      assert s[1..] == a[1..] + [sep] + b;
      assert sep !in a[1..];
      SplitOnAppend(a[1..], sep, b);
      assert [a[0]] + a[1..] == a;
    }
  }

  /** Splitting a join gives back the pieces, when no piece holds the separator. */
  lemma {:induction false} SplitJoin(xs: seq<string>, sep: char)
    requires xs != []
    requires forall i :: 0 <= i < |xs| ==> sep !in xs[i]
    ensures SplitOn(Join(sep, xs), sep) == xs
  {
    if |xs| == 1 {
      SplitOnNoSep(xs[0], sep);
    } else {
      SplitOnAppend(xs[0], sep, Join(sep, xs[1..]));
      SplitJoin(xs[1..], sep);
    }
  }

  function DropTrailingEmpty(parts: seq<string>): (r: seq<string>)
    ensures |r| <= |parts|
  {
    if parts == [] || parts[|parts| - 1] != "" then parts else DropTrailingEmpty(parts[..|parts| - 1])
  }

  /**
   * String.split on a one-character separator: the whole string when the
   * separator does not occur, otherwise the pieces without trailing empty ones.
   */
  function JavaSplit(s: string, sep: char): seq<string>
  {
    if sep !in s then [s] else DropTrailingEmpty(SplitOn(s, sep))
  }

  predicate IsDigit(c: char) { '0' <= c <= '9' }

  predicate AllDigits(s: string)
  {
    forall i :: 0 <= i < |s| ==> IsDigit(s[i])
  }

  function DigitChar(d: nat): char
    requires d < 10
  {
    ('0' as int + d) as char
  }

  function DigitValue(c: char): nat
    requires IsDigit(c)
  {
    c as int - '0' as int
  }

  /** The decimal digits of `n`, without leading zeros. */
  function Digits(n: nat): (s: string)
    ensures s != [] && AllDigits(s)
  {
    if n < 10 then [DigitChar(n)] else Digits(n / 10) + [DigitChar(n % 10)]
  }

  /** The value of a string of decimal digits. */
  function DigitsValue(s: string): nat
    requires AllDigits(s)
  {
    if s == [] then 0 else DigitsValue(s[..|s| - 1]) * 10 + DigitValue(s[|s| - 1])
  }

  lemma {:induction false} DigitsRoundTrip(n: nat)
    ensures DigitsValue(Digits(n)) == n
  {
    if n >= 10 {
      var s := Digits(n);
      assert s[..|s| - 1] == Digits(n / 10);
      DigitsRoundTrip(n / 10);
    }
  }

  /** String.valueOf(long). */
  function LongToString(v: int): string
  {
    if v < 0 then "-" + Digits(-v) else Digits(v)
  }

  const MIN_LONG: int := -0x8000_0000_0000_0000
  const MAX_LONG: int := 0x7FFF_FFFF_FFFF_FFFF

  /**
   * Long.parseLong: an optional sign, at least one decimal digit, and a
   * value within the range of a long.
   */
  function ParseLong(s: string): Option<int>
  {
    if s != [] && s[0] == '-' then ParseMagnitude(s[1..], true)
    else if s != [] && s[0] == '+' then ParseMagnitude(s[1..], false)
    else ParseMagnitude(s, false)
  }

  function ParseMagnitude(body: string, negative: bool): Option<int>
  {
    if body == [] || !AllDigits(body) then None
    else
      var m: int := DigitsValue(body);
      var v := if negative then -m else m;
      if MIN_LONG <= v <= MAX_LONG then Some(v) else None
  }

  /** Parsing reads back the decimal text of every long. */
  lemma ParseLongToString(v: int)
    requires MIN_LONG <= v <= MAX_LONG
    ensures ParseLong(LongToString(v)) == Some(v)
  {
    var t := LongToString(v);
    if v < 0 {
      DigitsRoundTrip(-v);
      assert t[0] == '-' && t[1..] == Digits(-v);
    } else {
      DigitsRoundTrip(v);
      assert IsDigit(t[0]);
    }
  }

  /** Boolean.parseBoolean: true iff the text is "true", ignoring case. */
  function ParseBoolean(s: string): bool
  {
    EqualsIgnoreCase(s, "true")
  }

  function Pow10(n: nat): (p: nat)
    ensures p >= 1
  {
    if n == 0 then 1 else 10 * Pow10(n - 1)
  }

  /**
   * Double.parseDouble on plain decimal notation: an optional sign and
   * digits with at most one decimal point, at least one digit in all.
   */
  function ParseDouble(s: string): Option<real>
  {
    if s != [] && s[0] == '-' then
      match ParseUnsignedDecimal(s[1..])
      case Some(m) => Some(-m)
      case None => None
    else if s != [] && s[0] == '+' then ParseUnsignedDecimal(s[1..])
    else ParseUnsignedDecimal(s)
  }

  function ParseUnsignedDecimal(body: string): Option<real>
  {
    var intPart := TakeDigits(body);
    var rest := body[|intPart|..];
    if rest == [] then
      if intPart == [] then None else Some(DigitsValue(intPart) as real)
    else if rest[0] != '.' then None
    else
      var fracPart := TakeDigits(rest[1..]);
      if |fracPart| + 1 != |rest| || |intPart| + |fracPart| == 0 then None
      else Some(DigitsValue(intPart) as real + DigitsValue(fracPart) as real / Pow10(|fracPart|) as real)
  }

  /** The longest prefix of `s` made of decimal digits. */
  function TakeDigits(s: string): (d: string)
    ensures |d| <= |s| && d == s[..|d|]
    ensures AllDigits(d)
    ensures |d| < |s| ==> !IsDigit(s[|d|])
  {
    if s == [] || !IsDigit(s[0]) then "" else [s[0]] + TakeDigits(s[1..])
  }
}
