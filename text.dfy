/** ASCII string helpers used by the slope engine: lower-casing, suffix tests, the
    pretty-printing of summary keys (underscores to spaces, then title case) and the
    decimal rendering of counts and two-decimal percentages. */
module Text {

  predicate IsUpper(c: char) { 'A' <= c <= 'Z' }

  predicate IsLowerCase(c: char) { 'a' <= c <= 'z' }

  /** A cased character in the sense of Python's `str.title` (ASCII letters). */
  predicate IsCased(c: char) { IsUpper(c) || IsLowerCase(c) }

  function LowerChar(c: char): (r: char)
    ensures IsUpper(c) ==> IsLowerCase(r) && r as int == c as int + 32
    ensures !IsUpper(c) ==> r == c
  {
    if IsUpper(c) then (c as int + 32) as char else c
  }

  function UpperChar(c: char): (r: char)
    ensures IsLowerCase(c) ==> IsUpper(r) && r as int + 32 == c as int
    ensures !IsLowerCase(c) ==> r == c
  {
    if IsLowerCase(c) then (c as int - 32) as char else c
  }

  /** Python's `str.lower` on ASCII text. */
  function Lower(s: string): string {
    seq(|s|, i requires 0 <= i < |s| => LowerChar(s[i]))
  }

  /** Lower-cased text holds no upper-case letters and lower-casing it again changes
      nothing. */
  lemma LowerIdempotent(s: string)
    ensures forall i :: 0 <= i < |Lower(s)| ==> !IsUpper(Lower(s)[i])
    ensures Lower(Lower(s)) == Lower(s)
  {
  }

  /** Lower-casing commutes with taking a suffix. */
  lemma LowerSuffix(s: string, k: nat)
    requires k <= |s|
    ensures Lower(s)[k..] == Lower(s[k..])
  {
  }

  /** `axis.lower() == "x"` holds exactly for "x" and "X". */
  lemma LowerIsX(s: string)
    ensures Lower(s) == "x" <==> s == "x" || s == "X"
  {
    if Lower(s) == "x" {
      assert |s| == 1 && Lower(s)[0] == 'x';
      assert LowerChar(s[0]) == 'x';
      assert s == [s[0]];
    }
  }

  /** Python's `s.endswith(suffix)`. */
  predicate EndsWith(s: string, suffix: string) {
    |suffix| <= |s| && s[|s| - |suffix|..] == suffix
  }

  lemma EndsWithAppend(s: string, suffix: string)
    ensures EndsWith(s + suffix, suffix)
  {
    assert (s + suffix)[|s|..] == suffix;
  }

  /** Python's `s.replace(from, to)` for single characters: every occurrence of `from`
      becomes `to` and every other character is kept. */
  function ReplaceChar(s: string, from: char, to: char): (r: string)
    ensures |r| == |s|
    ensures forall i :: 0 <= i < |s| ==> r[i] == (if s[i] == from then to else s[i])
  {
    if s == [] then [] else [if s[0] == from then to else s[0]] + ReplaceChar(s[1..], from, to)
  }

  /** One character of Python's `str.title`, given whether the previous character was
      cased: a letter after a cased character is lower-cased, any other letter is
      upper-cased, and every other character is kept. */
  function TitleChar(c: char, previousCased: bool): char {
    if !IsCased(c) then c else if previousCased then LowerChar(c) else UpperChar(c)
  }

  /** Python's `str.title` on ASCII text, continuing after a character that was cased
      or not. */
  function TitleFrom(s: string, previousCased: bool): string {
    if s == [] then [] else [TitleChar(s[0], previousCased)] + TitleFrom(s[1..], IsCased(s[0]))
  }

  function Title(s: string): string {
    TitleFrom(s, false)
  }

  lemma {:induction false} TitleFromSpec(s: string, previousCased: bool)
    ensures |TitleFrom(s, previousCased)| == |s|
    ensures forall i :: 0 <= i < |s| ==>
      TitleFrom(s, previousCased)[i] == TitleChar(s[i], if i == 0 then previousCased else IsCased(s[i - 1]))
  {
    if s != [] {
      TitleFromSpec(s[1..], IsCased(s[0]));
      var rest := TitleFrom(s[1..], IsCased(s[0]));
      var t := TitleFrom(s, previousCased);
      assert t[0] == TitleChar(s[0], previousCased);
      forall i | 1 <= i < |s|
        ensures t[i] == TitleChar(s[i], IsCased(s[i - 1]))
      {
        assert t[i] == rest[i - 1];
        assert s[1..][i - 1] == s[i];
        if i > 1 {
          assert s[1..][i - 2] == s[i - 1];
        }
      }
    }
  }

  /** The title-cased summary key: for each character, a letter is upper-cased exactly
      when it starts a word (the string's start or after a non-letter); all other
      characters are kept. */
  lemma TitleSpec(s: string)
    ensures |Title(s)| == |s|
    ensures forall i :: 0 <= i < |s| && IsCased(s[i]) && (i == 0 || !IsCased(s[i - 1])) ==>
      Title(s)[i] == UpperChar(s[i])
    ensures forall i :: 0 <= i < |s| && IsCased(s[i]) && i > 0 && IsCased(s[i - 1]) ==>
      Title(s)[i] == LowerChar(s[i])
    ensures forall i :: 0 <= i < |s| && !IsCased(s[i]) ==> Title(s)[i] == s[i]
  {
    TitleFromSpec(s, false);
    forall i | 0 <= i < |s|
      ensures Title(s)[i] == TitleChar(s[i], if i == 0 then false else IsCased(s[i - 1]))
      ensures !IsCased(s[i]) ==> Title(s)[i] == s[i]
    {
    }
  }

  /** The decimal digits of a natural number, without leading zeros. */
  function NatToString(n: nat): (r: string)
    ensures |r| >= 1
    ensures forall i :: 0 <= i < |r| ==> '0' <= r[i] <= '9'
    decreases n
  {
    if n < 10 then [DigitChar(n)] else NatToString(n / 10) + [DigitChar(n % 10)]
  }

  function DigitChar(d: nat): (r: char)
    requires d < 10
    ensures '0' <= r <= '9'
  {
    ('0' as int + d) as char
  }

  /** The value of a string of decimal digits. */
  function DigitsValue(s: string): nat
    requires forall i :: 0 <= i < |s| ==> '0' <= s[i] <= '9'
  {
    if s == [] then 0 else 10 * DigitsValue(s[..|s| - 1]) + (s[|s| - 1] as int - '0' as int)
  }

  /** Reading back the digits of n gives n. */
  lemma {:induction false} NatToStringRoundTrip(n: nat)
    ensures DigitsValue(NatToString(n)) == n
    decreases n
  {
    var r := NatToString(n);
    if n >= 10 {
      NatToStringRoundTrip(n / 10);
      assert r[..|r| - 1] == NatToString(n / 10);
    }
  }

  /** Python's rendering of the float k/100 (k >= 0), as produced by `round(x, 2)`:
      the integer part, a point, then one digit when the hundredths digit is 0 and two
      otherwise (50 renders "0.5", 5 renders "0.05", 10000 renders "100.0"). */
  function FormatHundredths(k: nat): string {
    var whole := k / 100;
    var frac := k % 100;
    NatToString(whole) + "." +
      (if frac % 10 == 0 then [DigitChar(frac / 10)]
       else [DigitChar(frac / 10), DigitChar(frac % 10)])
  }

  /** The rendering of k/100 reads back as k/100: its integer part is k / 100 and its
      fraction digits, padded to two places, are k % 100. */
  lemma FormatHundredthsRoundTrip(k: nat)
    ensures var s := FormatHundredths(k);
      var w := NatToString(k / 100);
      var f := s[|w| + 1..];
      s[..|w|] == w && s[|w|] == '.' && 1 <= |f| <= 2 &&
      (forall i :: 0 <= i < |f| ==> '0' <= f[i] <= '9') &&
      DigitsValue(w) == k / 100 &&
      (if |f| == 1 then 10 * DigitsValue(f) else DigitsValue(f)) == k % 100
  {
    NatToStringRoundTrip(k / 100);
    var s := FormatHundredths(k);
    var w := NatToString(k / 100);
    var f := s[|w| + 1..];
    var frac := k % 100;
    if frac % 10 == 0 {
      assert f == [DigitChar(frac / 10)];
      assert DigitsValue(f) == 10 * DigitsValue(f[..0]) + frac / 10;
    } else {
      assert f == [DigitChar(frac / 10), DigitChar(frac % 10)];
      assert f[..1] == [DigitChar(frac / 10)];
      assert DigitsValue(f[..1]) == 10 * DigitsValue(f[..0]) + frac / 10;
    }
  }

  /** Joins the lines with `sep` between consecutive ones (Python's `sep.join`). */
  function Join(lines: seq<string>, sep: string): string {
    if |lines| == 0 then ""
    else if |lines| == 1 then lines[0]
    else Join(lines[..|lines| - 1], sep) + sep + lines[|lines| - 1]
  }
}
