/** The compliance summary of scripts/summarize_slope_data.py: counts over the
    `ada_compliant` column of a segment file, the two-decimal compliance percentage,
    and the Markdown table and JSON object written from them. */
module ComplianceReport {
  import opened Numerics
  import opened Text

  /** `gdf["ada_compliant"].sum()`: the number of compliant segments. */
  function CountTrue(flags: seq<bool>): (n: nat)
    ensures n <= |flags|
    ensures n == |flags| <==> forall i :: 0 <= i < |flags| ==> flags[i]
    ensures n == 0 <==> forall i :: 0 <= i < |flags| ==> !flags[i]
  {
    if flags == [] then 0
    else
      var init := flags[..|flags| - 1];
      assert forall i :: 0 <= i < |init| ==> init[i] == flags[i];
      CountTrue(init) + (if flags[|flags| - 1] then 1 else 0)
  }

  /** The summary dictionary. `compliance_percentage` is `round(x, 2)`, a multiple of
      1/100, and is held here as its number of hundredths. */
  datatype Summary = Summary(totalSegments: nat, adaCompliantSegments: nat,
                             nonCompliantSegments: nat, complianceHundredths: nat)

  function CompliancePercentage(s: Summary): real {
    s.complianceHundredths as real / 100.0
  }

  /** The share of compliant segments, in percent, before rounding. */
  function CompliantShare(flags: seq<bool>): real
    requires |flags| > 0
  {
    CountTrue(flags) as real / |flags| as real * 100.0
  }

  /** The summary of a non-empty segment file (the source divides by the segment count
      without a guard). The compliant and non-compliant counts partition the total, and
      the percentage is the share rounded to two decimals, inside [0, 100]. */
  function Summarize(flags: seq<bool>): (s: Summary)
    requires |flags| > 0
    ensures s.totalSegments == |flags|
    ensures s.adaCompliantSegments == CountTrue(flags)
    ensures s.adaCompliantSegments + s.nonCompliantSegments == s.totalSegments
    ensures CompliancePercentage(s) == RoundTo(CompliantShare(flags), 2)
    ensures 0.0 <= CompliancePercentage(s) <= 100.0
  {
    var c := CountTrue(flags);
    var x := CompliantShare(flags);
    ShareWithin(c, |flags|);
    RoundToWithin(x, 2, 0, 100);
    assert Pow10(2) == 100;
    var k := RoundHalfEven(x * 100.0);
    assert RoundTo(x, 2) == k as real / 100.0;
    assert k >= 0;
    Summary(|flags|, c, |flags| - c, k)
  }

  lemma ShareWithin(c: nat, t: nat)
    requires 0 < t && c <= t
    ensures 0.0 <= c as real / t as real * 100.0 <= 100.0
  {
    assert c as real / t as real <= t as real / t as real;
  }

  /** All compliant gives 100 percent, none compliant gives 0. */
  lemma SummarizeExtremes(flags: seq<bool>)
    requires |flags| > 0
    ensures (forall i :: 0 <= i < |flags| ==> flags[i]) ==>
      CompliancePercentage(Summarize(flags)) == 100.0 && Summarize(flags).nonCompliantSegments == 0
    ensures (forall i :: 0 <= i < |flags| ==> !flags[i]) ==>
      CompliancePercentage(Summarize(flags)) == 0.0 && Summarize(flags).adaCompliantSegments == 0
  {
    var t := |flags| as real;
    if forall i :: 0 <= i < |flags| ==> flags[i] {
      assert CompliantShare(flags) == t / t * 100.0 == 100.0;
      RoundToInt(100, 2);
    }
    if forall i :: 0 <= i < |flags| ==> !flags[i] {
      assert CompliantShare(flags) == 0.0;
      RoundToInt(0, 2);
    }
  }

  /** Two compliant segments out of three: 66.67 percent. */
  lemma TwoOfThree()
    ensures Summarize([true, false, true]) == Summary(3, 2, 1, 6667)
  {
    var flags := [true, false, true];
    assert flags[..2] == [true, false] && flags[..2][..1] == [true] && flags[..2][..1][..0] == [];
    assert CountTrue(flags) == 2;
    assert CompliantShare(flags) * 100.0 == 20000.0 / 3.0;
    assert (20000.0 / 3.0).Floor == 6666;
  }

  // ---------------------------------------------------------------------------
  // The dictionary in order, and its rendering.

  /** The summary's keys, in insertion order. */
  const Keys: seq<string> := ["total_segments", "ada_compliant_segments", "non_compliant_segments",
                              "compliance_percentage"]

  /** `f"{value}"` of each entry: decimal integers, and Python's rendering of the
      rounded percentage. */
  function Values(s: Summary): seq<string> {
    [NatToString(s.totalSegments), NatToString(s.adaCompliantSegments),
     NatToString(s.nonCompliantSegments), FormatHundredths(s.complianceHundredths)]
  }

  /** The rendered values read back as the summary: the three counts as decimal
      integers, the percentage as its integer part and hundredths. */
  lemma ValuesReadBack(s: Summary)
    ensures |Values(s)| == |Keys| == 4
    ensures DigitsValue(Values(s)[0]) == s.totalSegments
    ensures DigitsValue(Values(s)[1]) == s.adaCompliantSegments
    ensures DigitsValue(Values(s)[2]) == s.nonCompliantSegments
    ensures var v := Values(s)[3];
      var w := NatToString(s.complianceHundredths / 100);
      var f := v[|w| + 1..];
      v[..|w|] == w && v[|w|] == '.' && 1 <= |f| <= 2 &&
      (forall i :: 0 <= i < |f| ==> '0' <= f[i] <= '9') &&
      DigitsValue(w) as real + (if |f| == 1 then 10 * DigitsValue(f) else DigitsValue(f)) as real / 100.0
        == CompliancePercentage(s)
  {
    NatToStringRoundTrip(s.totalSegments);
    NatToStringRoundTrip(s.adaCompliantSegments);
    NatToStringRoundTrip(s.nonCompliantSegments);
    var k := s.complianceHundredths;
    FormatHundredthsRoundTrip(k);
    assert (k / 100) as real + (k % 100) as real / 100.0 == k as real / 100.0 by {
      assert k == (k / 100) * 100 + k % 100;
    }
  }

  /** `key.replace("_", " ").title()`. */
  function PrettyKey(key: string): string {
    Title(ReplaceChar(key, '_', ' '))
  }

  /** The pretty key has the key's length; underscores become spaces; a letter that
      starts a word (at the start, or after a non-letter) is upper-cased and every other
      letter is lower-cased. */
  lemma PrettyKeySpec(key: string)
    ensures |PrettyKey(key)| == |key|
    ensures forall i :: 0 <= i < |key| && key[i] == '_' ==> PrettyKey(key)[i] == ' '
    ensures forall i :: 0 <= i < |key| && IsCased(key[i]) && (i == 0 || !IsCased(key[i - 1])) ==>
      PrettyKey(key)[i] == UpperChar(key[i])
    ensures forall i :: 0 <= i < |key| && IsCased(key[i]) && i > 0 && IsCased(key[i - 1]) ==>
      PrettyKey(key)[i] == LowerChar(key[i])
    ensures forall i :: 0 <= i < |key| && !IsCased(key[i]) && key[i] != '_' ==> PrettyKey(key)[i] == key[i]
  {
    var r := ReplaceChar(key, '_', ' ');
    TitleSpec(r);
    assert forall i :: 0 <= i < |key| ==> IsCased(r[i]) == IsCased(key[i]);
  }

  /** A string without a line break. */
  predicate OneLine(s: string) {
    forall i :: 0 <= i < |s| ==> s[i] != '\n'
  }

  lemma PrettyKeyOneLine(key: string)
    requires OneLine(key)
    ensures OneLine(PrettyKey(key))
  {
    PrettyKeySpec(key);
    assert forall i :: 0 <= i < |key| ==> PrettyKey(key)[i] != '\n' by {
      forall i | 0 <= i < |key|
        ensures PrettyKey(key)[i] != '\n'
      {
        if IsCased(key[i]) {
          if i == 0 || !IsCased(key[i - 1]) {
            assert PrettyKey(key)[i] == UpperChar(key[i]);
          } else {
            assert PrettyKey(key)[i] == LowerChar(key[i]);
          }
        } else if key[i] == '_' {
          assert PrettyKey(key)[i] == ' ';
        } else {
          assert PrettyKey(key)[i] == key[i];
        }
      }
    }
  }

  lemma ValuesOneLine(s: Summary)
    ensures forall i :: 0 <= i < |Values(s)| ==> OneLine(Values(s)[i])
  {
    var v := Values(s);
    FormatHundredthsRoundTrip(s.complianceHundredths);
    var w := NatToString(s.complianceHundredths / 100);
    var f := v[3][|w| + 1..];
    assert v[3] == w + "." + f;
  }

  // ---------------------------------------------------------------------------
  // Markdown.

  const Heading: string := "# ADA Slope Compliance Summary"

  /** The three header lines; the first carries its own line break, so the written
      text has an empty line after the heading. */
  function HeaderLines(): seq<string> {
    [Heading + "\n", "| Metric | Value |", "|--------|-------|"]
  }

  /** `f"| {pretty_key} | {value} |"`. */
  function TableRow(key: string, value: string): string {
    "| " + PrettyKey(key) + " | " + value + " |"
  }

  /** The table rows, one per key in order. */
  function TableRows(keys: seq<string>, values: seq<string>): (rows: seq<string>)
    requires |keys| == |values|
    ensures |rows| == |keys|
    ensures forall i :: 0 <= i < |keys| ==> rows[i] == TableRow(keys[i], values[i])
  {
    if keys == [] then []
    else TableRows(keys[..|keys| - 1], values[..|values| - 1]) + [TableRow(keys[|keys| - 1], values[|values| - 1])]
  }

  /** The Markdown lines: the header and then one row for each entry. */
  method MarkdownLines(keys: seq<string>, values: seq<string>) returns (lines: seq<string>)
    requires |keys| == |values|
    ensures lines == HeaderLines() + TableRows(keys, values)
  {
    lines := HeaderLines();
    var i := 0;
    while i < |keys|
      invariant 0 <= i <= |keys|
      invariant lines == HeaderLines() + TableRows(keys[..i], values[..i])
    {
      assert keys[..i + 1][..i] == keys[..i];
      assert values[..i + 1][..i] == values[..i];
      lines := lines + [TableRow(keys[i], values[i])];
      i := i + 1;
    }
    assert keys[..i] == keys && values[..i] == values;
  }

  /** `"\n".join(md_lines)` for the summary. */
  function MarkdownText(s: Summary): string {
    Join(HeaderLines() + TableRows(Keys, Values(s)), "\n")
  }

  /** The Markdown text of a segment file, built as the script builds it. */
  method SummarizeMarkdown(flags: seq<bool>) returns (md: string)
    requires |flags| > 0
    ensures md == MarkdownText(Summarize(flags))
  {
    var s := Summarize(flags);
    var lines := MarkdownLines(Keys, Values(s));
    md := Join(lines, "\n");
  }

  /** Split at every line break (Python's `text.split("\n")`). */
  function Split(s: string): (lines: seq<string>)
    ensures |lines| >= 1
  {
    if |s| == 0 then [""]
    else
      var init := Split(s[..|s| - 1]);
      var c := s[|s| - 1];
      if c == '\n' then init + [""] else init[..|init| - 1] + [init[|init| - 1] + [c]]
  }

  lemma {:induction false} SplitOneLine(x: string)
    requires OneLine(x)
    ensures Split(x) == [x]
  {
    if |x| > 0 {
      SplitOneLine(x[..|x| - 1]);
      assert x[..|x| - 1] + [x[|x| - 1]] == x;
    }
  }

  lemma {:induction false} SplitAppendLine(t: string, x: string)
    requires OneLine(x)
    ensures Split(t + "\n" + x) == Split(t) + [x]
  {
    var s := t + "\n" + x;
    if |x| == 0 {
      assert s[..|s| - 1] == t;
    } else {
      var x' := x[..|x| - 1];
      assert s[..|s| - 1] == t + "\n" + x';
      SplitAppendLine(t, x');
      assert x' + [x[|x| - 1]] == x;
    }
  }

  lemma SplitTrailingBreak(t: string)
    ensures Split(t + "\n") == Split(t) + [""]
  {
    var s := t + "\n";
    assert s[..|s| - 1] == t;
  }

  /** Splitting joined lines gives the first line's own pieces and then the other lines,
      when none of the others holds a line break. */
  lemma {:induction false} SplitJoin(lines: seq<string>)
    requires |lines| >= 1
    requires forall i :: 1 <= i < |lines| ==> OneLine(lines[i])
    ensures Split(Join(lines, "\n")) == Split(lines[0]) + lines[1..]
  {
    if |lines| > 1 {
      var init := lines[..|lines| - 1];
      SplitJoin(init);
      SplitAppendLine(Join(init, "\n"), lines[|lines| - 1]);
      assert init + [lines[|lines| - 1]] == lines;
    }
  }

  lemma TableRowOneLine(key: string, value: string)
    requires OneLine(key) && OneLine(value)
    ensures OneLine(TableRow(key, value))
  {
    PrettyKeyOneLine(key);
  }

  /** A heading line ending in a line break, then one-line lines, split back into the
      heading, an empty line and the other lines. */
  lemma HeadingThenLines(heading: string, rest: seq<string>)
    requires OneLine(heading)
    requires forall i :: 0 <= i < |rest| ==> OneLine(rest[i])
    ensures Split(Join([heading + "\n"] + rest, "\n")) == [heading, ""] + rest
  {
    var lines := [heading + "\n"] + rest;
    assert forall i :: 1 <= i < |lines| ==> OneLine(lines[i]);
    SplitJoin(lines);
    SplitOneLine(heading);
    SplitTrailingBreak(heading);
    assert lines[0] == heading + "\n";
    assert Split(lines[0]) == [heading, ""];
    assert lines[1..] == rest;
    assert Split(Join(lines, "\n")) == [heading, ""] + rest;
  }

  lemma HeaderOneLine()
    ensures OneLine(Heading) && OneLine("| Metric | Value |") && OneLine("|--------|-------|")
  {
  }

  lemma KeysOneLine()
    ensures forall i :: 0 <= i < |Keys| ==> OneLine(Keys[i])
  {
    assert OneLine(Keys[0]);
    assert OneLine(Keys[1]);
    assert OneLine(Keys[2]);
    assert OneLine(Keys[3]);
  }

  /** The Markdown of any one-line keys and values splits back into the heading, an
      empty line, the two table header lines and one row per entry. */
  lemma {:induction false} MarkdownSplit(keys: seq<string>, values: seq<string>)
    requires |keys| == |values|
    requires forall i :: 0 <= i < |keys| ==> OneLine(keys[i]) && OneLine(values[i])
    ensures Split(Join(HeaderLines() + TableRows(keys, values), "\n")) ==
      [Heading, "", "| Metric | Value |", "|--------|-------|"] + TableRows(keys, values)
  {
    var rows := TableRows(keys, values);
    forall i | 0 <= i < |rows|
      ensures OneLine(rows[i])
    {
      TableRowOneLine(keys[i], values[i]);
    }
    var m1 := "| Metric | Value |";
    var m2 := "|--------|-------|";
    HeaderOneLine();
    var rest := [m1, m2] + rows;
    forall i | 0 <= i < |rest|
      ensures OneLine(rest[i])
    {
      if i >= 2 {
        assert rest[i] == rows[i - 2];
      }
    }
    HeadingThenLines(Heading, rest);
    assert HeaderLines() + rows == [Heading + "\n"] + rest;
  }

  /** The lines of the written Markdown: the heading, an empty line, the two table
      header lines, then `| Key | value |` for the four entries in order. */
  lemma MarkdownTextLines(s: Summary)
    ensures Split(MarkdownText(s)) ==
      [Heading, "", "| Metric | Value |", "|--------|-------|"] + TableRows(Keys, Values(s))
  {
    KeysOneLine();
    ValuesOneLine(s);
    MarkdownSplit(Keys, Values(s));
  }

  // ---------------------------------------------------------------------------
  // JSON.

  /** One member of `json.dump(summary, f, indent=4)`: four spaces, the quoted key, a
      colon and the value, with a comma after every member but the last. */
  function JsonMember(key: string, value: string, last: bool): string {
    "    \"" + key + "\": " + value + (if last then "" else ",")
  }

  function JsonMembers(keys: seq<string>, values: seq<string>): (ms: seq<string>)
    requires |keys| == |values|
    ensures |ms| == |keys|
    ensures forall i :: 0 <= i < |keys| ==> ms[i] == JsonMember(keys[i], values[i], i == |keys| - 1)
  {
    seq(|keys|, i requires 0 <= i < |keys| => JsonMember(keys[i], values[i], i == |keys| - 1))
  }

  /** The JSON file's text. */
  function JsonText(s: Summary): string {
    Join(["{"] + JsonMembers(Keys, Values(s)) + ["}"], "\n")
  }

  /** Braces around one-line members split back into the brace lines and the members. */
  lemma {:induction false} JsonSplit(keys: seq<string>, values: seq<string>)
    requires |keys| == |values|
    requires forall i :: 0 <= i < |keys| ==> OneLine(keys[i]) && OneLine(values[i])
    ensures Split(Join(["{"] + JsonMembers(keys, values) + ["}"], "\n")) ==
      ["{"] + JsonMembers(keys, values) + ["}"]
  {
    var ms := JsonMembers(keys, values);
    var lines := ["{"] + ms + ["}"];
    forall i | 0 <= i < |lines|
      ensures OneLine(lines[i])
    {
      if 1 <= i <= |ms| {
        var m := lines[i];
        assert m == ms[i - 1];
        assert m == "    \"" + keys[i - 1] + "\": " + values[i - 1] + (if i - 1 == |keys| - 1 then "" else ",");
      }
    }
    SplitJoin(lines);
    SplitOneLine("{");
    assert lines[1..] == ms + ["}"];
  }

  /** The lines of the written JSON: an opening brace, one member per key in order with
      commas between them, and a closing brace. */
  lemma JsonTextLines(s: Summary)
    ensures Split(JsonText(s)) == ["{"] + JsonMembers(Keys, Values(s)) + ["}"]
  {
    KeysOneLine();
    ValuesOneLine(s);
    JsonSplit(Keys, Values(s));
  }
}
