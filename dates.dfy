/** Free-text date expressions (`expand_date_range`, bot.py:62-87): the text is
    cut at commas and newlines, each trimmed non-blank part either matches the
    range pattern (a month word of ASCII letters, a number, a hyphen or en
    dash, a number, with optional whitespace between them) at its start and becomes
    one `"<month> <day>"` token per day, or is kept whole as a label. */
module DateRange {
  import opened Text
  import opened Decimal

  /** The two cases of one part: a day range, or a label the pattern did not match. */
  datatype Part = Range(month: string, first: nat, last: nat) | Label(text: string)

  /** The characters a date text is cut at: comma and line feed. */
  const PartSeparators: set<char> := {',', '\n'}

  /** The class `[–-]`: ASCII hyphen and en dash. */
  const Dashes: set<char> := {'-', '\U{2013}'}

  /** `re.match` of the range pattern against a part. The pattern is anchored
      at the start only, so whatever follows the second number is ignored. */
  function ParsePart(part: string): (p: Part)
    ensures p.Label? ==> p.text == part
    ensures p.Range? ==> 0 < |p.month| <= |part| && p.month == part[..|p.month|]
    ensures p.Range? ==> forall i :: 0 <= i < |p.month| ==> IsLetter(p.month[i])
  {
    var m := Scan(part, 0, Letter);
    var i1 := Scan(part, m, Space);
    var i2 := Scan(part, i1, Digit);
    var i3 := Scan(part, i2, Space);
    if m == 0 || i2 == i1 || i3 == |part| || part[i3] !in Dashes then Label(part)
    else
      var i4 := Scan(part, i3 + 1, Space);
      var i5 := Scan(part, i4, Digit);
      if i5 == i4 then Label(part)
      else
        DigitRun(part, i1);
        DigitRun(part, i4);
        ScanAll(part, 0, Letter);
        Range(part[..m], Value(part[i1..i2]), Value(part[i4..i5]))
  }

  /** What a scan over digits passes over is a string of digits. */
  lemma DigitRun(s: string, i: nat)
    requires i <= |s|
    ensures AllDigits(s[i..Scan(s, i, Digit)])
  {
    var j := Scan(s, i, Digit);
    ScanAll(s, i, Digit);
    assert forall t :: 0 <= t < j - i ==> s[i..j][t] == s[i + t];
  }

  /** `part` starts with the range pattern: a month word of letters over
      `[0, m)`, optional whitespace, digits over `[i1, i2)`, optional
      whitespace, a dash at `i3`, optional whitespace, and digits over
      `[i4, i5)` that the part does not continue with another digit. */
  predicate RangeShape(part: string, m: nat, i1: nat, i2: nat, i3: nat, i4: nat, i5: nat) {
    0 < m <= i1 < i2 <= i3 < i4 < i5 <= |part| &&
    (forall t :: 0 <= t < m ==> IsLetter(part[t])) &&
    (forall t :: m <= t < i1 ==> IsSpace(part[t])) &&
    AllDigits(part[i1..i2]) &&
    (forall t :: i2 <= t < i3 ==> IsSpace(part[t])) &&
    part[i3] in Dashes &&
    (forall t :: i3 < t < i4 ==> IsSpace(part[t])) &&
    AllDigits(part[i4..i5]) &&
    (i5 == |part| || !IsDigit(part[i5]))
  }

  /** The range pattern matches the start of `part`, and its three groups are
      `month` and the two numbers, read with `int()`. */
  ghost predicate MatchesRange(part: string, month: string, a: nat, b: nat) {
    exists m: nat, i1: nat, i2: nat, i3: nat, i4: nat, i5: nat :: RangeShape(part, m, i1, i2, i3, i4, i5) &&
      month == part[..m] && a == Value(part[i1..i2]) && b == Value(part[i4..i5])
  }

  /** The parser finds the range exactly when the pattern matches with those
      groups. */
  lemma ParsePartMatches(part: string, month: string, a: nat, b: nat)
    ensures ParsePart(part) == Range(month, a, b) <==> MatchesRange(part, month, a, b)
  {
    if ParsePart(part) == Range(month, a, b) {
      RangeMatches(part);
    }
    if MatchesRange(part, month, a, b) {
      MatchesRangeParses(part, month, a, b);
    }
  }

  lemma MatchesRangeParses(part: string, month: string, a: nat, b: nat)
    requires MatchesRange(part, month, a, b)
    ensures ParsePart(part) == Range(month, a, b)
  {
    var m: nat, i1: nat, i2: nat, i3: nat, i4: nat, i5: nat :| RangeShape(part, m, i1, i2, i3, i4, i5) &&
      month == part[..m] && a == Value(part[i1..i2]) && b == Value(part[i4..i5]);
    MatchParses(part, m, i1, i2, i3, i4, i5);
  }

  /** A part is kept as a label exactly when the pattern does not match it. */
  lemma ParsePartLabel(part: string)
    ensures ParsePart(part) == Label(part) <==> forall month, a, b :: !MatchesRange(part, month, a, b)
  {
    var p := ParsePart(part);
    if p.Range? {
      RangeMatches(part);
    } else {
      forall month, a, b ensures !MatchesRange(part, month, a, b) {
        ParsePartMatches(part, month, a, b);
      }
    }
  }

  /** A part parsed as a range has the shape of the pattern, with the month
      word and the values of the two numbers written there. */
  lemma RangeMatches(part: string)
    requires ParsePart(part).Range?
    ensures MatchesRange(part, ParsePart(part).month, ParsePart(part).first, ParsePart(part).last)
  {
    var m := Scan(part, 0, Letter);
    var i1 := Scan(part, m, Space);
    var i2 := Scan(part, i1, Digit);
    var i3 := Scan(part, i2, Space);
    assert i3 < |part|;
    var i4 := Scan(part, i3 + 1, Space);
    var i5 := Scan(part, i4, Digit);
    ScansShape(part, m, i1, i2, i3, i4, i5);
    assert ParsePart(part) == Range(part[..m], Value(part[i1..i2]), Value(part[i4..i5]));
  }

  /** Positions where the scans of the parser stop, with a month word, both
      numbers and the dash present, have the shape of the pattern. */
  lemma ScansShape(part: string, m: nat, i1: nat, i2: nat, i3: nat, i4: nat, i5: nat)
    requires m == Scan(part, 0, Letter) && i1 == Scan(part, m, Space) && i2 == Scan(part, i1, Digit)
    requires i3 == Scan(part, i2, Space) && i3 < |part| && i4 == Scan(part, i3 + 1, Space)
    requires i5 == Scan(part, i4, Digit)
    requires m != 0 && i2 != i1 && part[i3] in Dashes && i5 != i4
    ensures RangeShape(part, m, i1, i2, i3, i4, i5)
  {
    ScanAll(part, 0, Letter);
    ScanAll(part, m, Space);
    ScanAll(part, i2, Space);
    ScanAll(part, i3 + 1, Space);
    DigitRun(part, i1);
    DigitRun(part, i4);
  }

  /** Where the pattern matches, the parser finds the range it spells. */
  lemma MatchParses(part: string, m: nat, i1: nat, i2: nat, i3: nat, i4: nat, i5: nat)
    requires RangeShape(part, m, i1, i2, i3, i4, i5)
    ensures ParsePart(part) == Range(part[..m], Value(part[i1..i2]), Value(part[i4..i5]))
  {
    assert !IsDigit(part[i2]) by {
      if i2 < i3 { assert IsSpace(part[i2]); } else { assert part[i2] in Dashes; }
    }
    MonthAndFirstDay(part, m, i1, i2);
    DashAndLastDay(part, i2, i3, i4, i5);
    ParseAt(part, m, i1, i2, i3, i4, i5);
  }

  /** A part written as month, optional whitespace, `str(a)`, optional
      whitespace, a dash, optional whitespace and `str(b)`, not continued by
      a digit, parses to that month and those two numbers. */
  lemma ParseWrittenRange(part: string, m: nat, i1: nat, i2: nat, i3: nat, i4: nat, i5: nat,
                          a: nat, b: nat)
    requires 0 < m <= i1 <= i2 <= i3 < i4 <= i5 <= |part|
    requires forall t :: 0 <= t < m ==> IsLetter(part[t])
    requires forall t :: m <= t < i1 ==> IsSpace(part[t])
    requires part[i1..i2] == Show(a)
    requires forall t :: i2 <= t < i3 ==> IsSpace(part[t])
    requires part[i3] in Dashes
    requires forall t :: i3 < t < i4 ==> IsSpace(part[t])
    requires part[i4..i5] == Show(b)
    requires i5 == |part| || !IsDigit(part[i5])
    ensures ParsePart(part) == Range(part[..m], a, b)
  {
    assert RangeShape(part, m, i1, i2, i3, i4, i5);
    MatchParses(part, m, i1, i2, i3, i4, i5);
    ValueShow(a);
    ValueShow(b);
  }

  /** The scans over the month word, the gap and the first number stop where
      they are written. */
  lemma MonthAndFirstDay(part: string, m: nat, i1: nat, i2: nat)
    requires 0 < m <= i1 < i2 < |part|
    requires forall t :: 0 <= t < m ==> IsLetter(part[t])
    requires forall t :: m <= t < i1 ==> IsSpace(part[t])
    requires AllDigits(part[i1..i2]) && !IsDigit(part[i2])
    ensures Scan(part, 0, Letter) == m && Scan(part, m, Space) == i1 && Scan(part, i1, Digit) == i2
  {
    assert forall t :: i1 <= t < i2 ==> part[t] == part[i1..i2][t - i1];
    ScanRun(part, 0, m, Letter);
    ScanRun(part, m, i1, Space);
    ScanRun(part, i1, i2, Digit);
  }

  /** The scans over the gaps around the dash and over the last number stop
      where they are written. */
  lemma DashAndLastDay(part: string, i2: nat, i3: nat, i4: nat, i5: nat)
    requires i2 <= i3 < i4 < i5 <= |part|
    requires forall t :: i2 <= t < i3 ==> IsSpace(part[t])
    requires part[i3] in Dashes
    requires forall t :: i3 < t < i4 ==> IsSpace(part[t])
    requires AllDigits(part[i4..i5])
    requires i5 == |part| || !IsDigit(part[i5])
    ensures Scan(part, i2, Space) == i3 && Scan(part, i3 + 1, Space) == i4 && Scan(part, i4, Digit) == i5
  {
    assert forall t :: i4 <= t < i5 ==> part[t] == part[i4..i5][t - i4];
    assert !IsSpace(part[i3]);
    ScanRun(part, i2, i3, Space);
    ScanRun(part, i3 + 1, i4, Space);
    ScanRun(part, i4, i5, Digit);
  }

  /** When the scans of the range pattern stop at the given positions, the
      part is that range. */
  lemma ParseAt(part: string, m: nat, i1: nat, i2: nat, i3: nat, i4: nat, i5: nat)
    requires 0 < m <= |part| && Scan(part, 0, Letter) == m && Scan(part, m, Space) == i1
    requires i1 < i2 <= |part| && Scan(part, i1, Digit) == i2 && Scan(part, i2, Space) == i3
    requires i3 < |part| && part[i3] in Dashes && Scan(part, i3 + 1, Space) == i4
    requires i4 < i5 <= |part| && Scan(part, i4, Digit) == i5
    requires AllDigits(part[i1..i2]) && AllDigits(part[i4..i5])
    ensures ParsePart(part) == Range(part[..m], Value(part[i1..i2]), Value(part[i4..i5]))
  {
  }

  /** The token for one day: the month word, a space and the day number,
      whose digits read back as the day. */
  function Token(month: string, d: nat): (r: string)
    ensures |r| > |month| + 1 && r[..|month|] == month && r[|month|] == ' '
    ensures AllDigits(r[|month| + 1..]) && Value(r[|month| + 1..]) == d
    ensures IsCanonical(r[|month| + 1..])
  {
    ValueShow(d);
    var r := month + " " + Show(d);
    assert r[|month| + 1..] == Show(d);
    r
  }

  /** The tokens for `count` consecutive days starting at `first`. */
  function Days(month: string, first: nat, count: nat): seq<string> {
    if count == 0 then [] else Days(month, first, count - 1) + [Token(month, first + count - 1)]
  }

  /** `range(first, last + 1)` has `last - first + 1` days, or none. */
  function DayCount(first: nat, last: nat): nat {
    if first <= last then last - first + 1 else 0
  }

  /** The tokens one part contributes. */
  function PartTokens(p: Part): seq<string> {
    match p
    case Label(text) => [text]
    case Range(month, first, last) => Days(month, first, DayCount(first, last))
  }

  /** A range yields one token per day, in ascending day order, and nothing
      when the first day is after the last. */
  lemma {:induction false} RangeTokens(month: string, first: nat, count: nat)
    ensures |Days(month, first, count)| == count
    ensures forall k :: 0 <= k < count ==> Days(month, first, count)[k] == Token(month, first + k)
  {
    if count > 0 {
      RangeTokens(month, first, count - 1);
    }
  }

  /** A day's token is produced by a range exactly when the day lies in it. */
  lemma RangeMembership(month: string, first: nat, last: nat, d: nat)
    ensures Token(month, d) in PartTokens(Range(month, first, last)) <==> first <= d <= last
  {
    var r := PartTokens(Range(month, first, last));
    RangeTokens(month, first, DayCount(first, last));
    if Token(month, d) in r {
      var k :| 0 <= k < |r| && r[k] == Token(month, d);
      assert Token(month, first + k) == Token(month, d);
    }
    if first <= d <= last {
      assert r[d - first] == Token(month, d);
    }
  }

  /** The tokens of one range are pairwise different. */
  lemma RangeDistinct(month: string, first: nat, last: nat)
    ensures forall j, k :: 0 <= j < k < |PartTokens(Range(month, first, last))| ==>
              PartTokens(Range(month, first, last))[j] != PartTokens(Range(month, first, last))[k]
  {
    var r := PartTokens(Range(month, first, last));
    RangeTokens(month, first, DayCount(first, last));
    forall j, k | 0 <= j < k < |r|
      ensures r[j] != r[k]
    {
      assert Token(month, first + j) != Token(month, first + k);
    }
  }

  /** The trimmed, non-blank parts of a date text. */
  function Parts(text: string): (r: seq<string>)
    ensures forall i :: 0 <= i < |r| ==> r[i] != [] && IsStripped(r[i]) && NoneIn(r[i], PartSeparators)
  {
    var pieces := SplitOn(text, PartSeparators);
    SplitOnNoneIn(text, PartSeparators);
    NonBlankTrimmed(pieces);
    NonBlankNoneIn(pieces, PartSeparators);
    NonBlank(pieces)
  }

  /** The tokens of a list of parts, part after part. */
  function ExpandParts(parts: seq<string>): seq<string> {
    if parts == [] then []
    else ExpandParts(parts[..|parts| - 1]) + PartTokens(ParsePart(parts[|parts| - 1]))
  }

  /** What `expand_date_range(text)` returns. */
  function ExpandText(text: string): seq<string> {
    if text == "" then [] else ExpandParts(Parts(text))
  }

  /** `expand_date_range`: the loop over parts, and for a range the loop over its days. */
  method ExpandDateRange(text: string) returns (dates: seq<string>)
    ensures dates == ExpandText(text)
  {
    if text == "" {
      return [];
    }
    dates := [];
    var parts := Parts(text);
    for i := 0 to |parts|
      invariant dates == ExpandParts(parts[..i])
    {
      ExpandPartsStep(parts, i);
      dates := AppendPartTokens(dates, parts[i]);
    }
    assert parts[..|parts|] == parts;
  }

  /** One more part adds its tokens behind those of the parts before it. */
  lemma ExpandPartsStep(parts: seq<string>, i: nat)
    requires i < |parts|
    ensures ExpandParts(parts[..i + 1]) == ExpandParts(parts[..i]) + PartTokens(ParsePart(parts[i]))
  {
    assert parts[..i + 1][..i] == parts[..i];
  }

  /** One pass of the loop over parts: a range appends its days one by one,
      a label is appended whole. */
  method AppendPartTokens(dates: seq<string>, part: string) returns (r: seq<string>)
    ensures r == dates + PartTokens(ParsePart(part))
  {
    var p := ParsePart(part);
    match p
    case Range(month, first, last) =>
      r := AppendDays(dates, month, first, last);
    case Label(text) =>
      r := dates + [text];
  }

  /** The loop over the days of a range. */
  method AppendDays(dates: seq<string>, month: string, first: nat, last: nat) returns (r: seq<string>)
    ensures r == dates + Days(month, first, DayCount(first, last))
  {
    r := dates;
    if first <= last {
      for d := first to last + 1
        invariant r == dates + Days(month, first, d - first)
      {
        r := r + [Token(month, d)];
      }
    }
  }

  /** Expanding a list of parts works part by part and keeps their order. */
  lemma {:induction false} ExpandPartsAppend(a: seq<string>, b: seq<string>)
    ensures ExpandParts(a + b) == ExpandParts(a) + ExpandParts(b)
  {
    if b != [] {
      ExpandPartsAppend(a, b[..|b| - 1]);
      assert (a + b)[..|a + b| - 1] == a + b[..|b| - 1];
    } else {
      assert a + b == a;
    }
  }

  /** The early `return []` for an empty text agrees with the general case. */
  lemma ExpandTextParts(text: string)
    ensures ExpandText(text) == ExpandParts(Parts(text))
  {
    if text == "" {
      assert SplitOn(text, PartSeparators) == [""];
      assert Strip("") == "";
    }
  }

  /** Expanding `"x,y"` (or `"x\ny"`) is expanding `x` followed by expanding `y`:
      output order follows the order of the parts. */
  lemma ExpandConcat(x: string, sep: char, y: string)
    requires sep in PartSeparators
    ensures ExpandText(x + [sep] + y) == ExpandText(x) + ExpandText(y)
  {
    ExpandTextParts(x + [sep] + y);
    ExpandTextParts(x);
    ExpandTextParts(y);
    SplitAt(x, sep, y, PartSeparators);
    NonBlankAppend(SplitOn(x, PartSeparators), SplitOn(y, PartSeparators));
    ExpandPartsAppend(Parts(x), Parts(y));
  }

  /** A text without separators is one part: blank gives nothing, anything
      else gives the tokens of its trimmed self. */
  lemma ExpandOnePart(text: string)
    requires NoneIn(text, PartSeparators)
    ensures ExpandText(text) == if Strip(text) == "" then [] else PartTokens(ParsePart(Strip(text)))
  {
    ExpandTextParts(text);
    SplitNone(text, PartSeparators);
    assert Parts(text) == NonBlank([text]);
    assert [text][..0] == [];
    if Strip(text) != "" {
      assert Parts(text) == [Strip(text)];
      assert Parts(text)[..0] == [];
    }
  }

  /** A part that the range pattern does not match is emitted once, verbatim. */
  lemma LabelKept(text: string)
    requires NoneIn(text, PartSeparators) && Strip(text) != ""
    requires forall month, a, b :: !MatchesRange(Strip(text), month, a, b)
    ensures ExpandText(text) == [Strip(text)]
  {
    ParsePartLabel(Strip(text));
    ExpandOnePart(text);
  }

  /** The documented example: "Dec 20-22" expands to three days. */
  lemma ExpandExample()
    ensures ExpandText("Dec 20-22") == ["Dec 20", "Dec 21", "Dec 22"]
  {
    var text := "Dec 20-22";
    assert text[..6] == "Dec 20" && text[7..] == "22";
    SampleRange(text);
  }

  /** The first example of the docstring: an en-dash range and a single day. */
  lemma DocstringRangeAndDay()
    ensures ExpandText("Dec 20\U{2013}22, Dec 25") == ["Dec 20", "Dec 21", "Dec 22", "Dec 25"]
  {
    RangeAndDayParts();
    EnDashRange();
    DayDec25();
  }

  /** The second example of the docstring: two single days. */
  lemma DocstringTwoDays()
    ensures ExpandText("Dec 20, Dec 21") == ["Dec 20", "Dec 21"]
  {
    TwoDaysParts();
    DayDec20();
    DayDec21();
  }

  lemma RangeAndDayParts()
    ensures ExpandText("Dec 20\U{2013}22, Dec 25") == ExpandText("Dec 20\U{2013}22") + ExpandText(" Dec 25")
  {
    assert "Dec 20\U{2013}22, Dec 25" == "Dec 20\U{2013}22" + [','] + " Dec 25";
    ExpandConcat("Dec 20\U{2013}22", ',', " Dec 25");
  }

  lemma TwoDaysParts()
    ensures ExpandText("Dec 20, Dec 21") == ExpandText("Dec 20") + ExpandText(" Dec 21")
  {
    assert "Dec 20, Dec 21" == "Dec 20" + [','] + " Dec 21";
    ExpandConcat("Dec 20", ',', " Dec 21");
  }

  lemma EnDashRange()
    ensures ExpandText("Dec 20\U{2013}22") == ["Dec 20", "Dec 21", "Dec 22"]
  {
    var text := "Dec 20\U{2013}22";
    assert text[..6] == "Dec 20" && text[7..] == "22";
    SampleRange(text);
  }

  lemma DayDec20()
    ensures ExpandText("Dec 20") == ["Dec 20"]
  {
    DayAt("Dec 20", 0, 3);
    assert "Dec 20"[0..] == "Dec 20";
  }

  lemma DayDec21()
    ensures ExpandText(" Dec 21") == ["Dec 21"]
  {
    DayAt(" Dec 21", 1, 4);
    assert " Dec 21"[1..] == "Dec 21";
  }

  lemma DayDec25()
    ensures ExpandText(" Dec 25") == ["Dec 25"]
  {
    DayAt(" Dec 25", 1, 4);
    assert " Dec 25"[1..] == "Dec 25";
  }

  /** "Dec 20", a hyphen or an en dash, "22": the 20th to the 22nd. */
  lemma SampleRange(text: string)
    requires |text| == 9 && text[..6] == "Dec 20" && text[6] in Dashes && text[7..] == "22"
    ensures ExpandText(text) == ["Dec 20", "Dec 21", "Dec 22"]
  {
    SampleRangeParse(text);
    ExpandOnePart(text);
    SampleDays();
  }

  lemma SampleRangeParse(text: string)
    requires |text| == 9 && text[..6] == "Dec 20" && text[6] in Dashes && text[7..] == "22"
    ensures Strip(text) == text && NoneIn(text, PartSeparators)
    ensures ParsePart(text) == Range("Dec", 20, 22)
  {
    assert text[..3] == "Dec" && text[4..6] == "20" by {
      assert text[..3] == text[..6][..3] && text[4..6] == text[..6][4..];
    }
    assert forall t :: 0 <= t < 3 ==> text[t] == "Dec"[t];
    assert forall t :: 4 <= t < 6 ==> text[t] == "20"[t - 4];
    assert forall t :: 7 <= t < 9 ==> text[t] == "22"[t - 7];
    RangeAt(text, 3, 6);
    SampleValues(text[4..6], text[7..9]);
    StripStripped(text);
  }

  lemma SampleValues(x: string, y: string)
    requires x == "20" && y == "22"
    ensures Value(x) == 20 && Value(y) == 22
  {
    ShowSamples();
    ValueShow(20);
    ValueShow(22);
  }

  /** A part written as whitespace, a month word, one space and a number,
      such as " Dec 25", is not a range and is kept, stripped, as a label. */
  /** A single day typed as the month word, a space and the day number yields
      the same token a range produces for that day, so the two meet in the
      window. */
  lemma TypedDay(month: string, d: nat)
    requires month != [] && forall t :: 0 <= t < |month| ==> IsLetter(month[t])
    ensures ExpandText(month + " " + Show(d)) == [Token(month, d)]
  {
    var text := month + " " + Show(d);
    var m := |month|;
    assert forall t :: 0 <= t < m ==> text[t] == month[t];
    assert text[m] == ' ';
    assert forall t :: m < t < |text| ==> text[t] == Show(d)[t - m - 1];
    DayAt(text, 0, m);
    assert text[0..] == text;
  }

  lemma DayAt(text: string, p: nat, m: nat)
    requires p < m && m + 1 < |text|
    requires forall t :: 0 <= t < p ==> text[t] == ' '
    requires forall t :: p <= t < m ==> IsLetter(text[t])
    requires text[m] == ' '
    requires forall t :: m < t < |text| ==> IsDigit(text[t])
    ensures ExpandText(text) == [text[p..]]
  {
    var part := text[p..];
    DayAtStrip(text, p, m);
    forall t | 0 <= t < |part| ensures part[t] == text[p + t] { }
    DayLabel(part, m - p);
    ExpandOnePart(text);
  }

  lemma DayAtStrip(text: string, p: nat, m: nat)
    requires p < m && m + 1 < |text|
    requires forall t :: 0 <= t < p ==> text[t] == ' '
    requires forall t :: p <= t < m ==> IsLetter(text[t])
    requires text[m] == ' '
    requires forall t :: m < t < |text| ==> IsDigit(text[t])
    ensures Strip(text) == text[p..] && NoneIn(text, PartSeparators)
  {
    var part := text[p..];
    assert text == text[..p] + part + "";
    assert IsStripped(part) by {
      assert part[0] == text[p] && part[|part| - 1] == text[|text| - 1];
    }
    StripPadded(text[..p], part, "");
    forall t | 0 <= t < |text| ensures text[t] !in PartSeparators {
      if p <= t < m {
        assert IsLetter(text[t]);
      } else if m < t {
        assert IsDigit(text[t]);
      }
    }
  }

  /** A month word, one space and a number is not a range: the dash is
      missing. */
  lemma DayLabel(part: string, k: nat)
    requires 0 < k && k + 1 < |part|
    requires forall t :: 0 <= t < k ==> IsLetter(part[t])
    requires part[k] == ' '
    requires forall t :: k < t < |part| ==> IsDigit(part[t])
    ensures ParsePart(part) == Label(part)
  {
    var n := |part|;
    ScanRun(part, 0, k, Letter);
    ScanRun(part, k, k + 1, Space);
    ScanRun(part, k + 1, n, Digit);
    ScanRun(part, n, n, Space);
  }

  /** A part written as a month word, one space, a number, a dash and a
      number is the range between the two numbers; it has no separator and
      no padding. */
  lemma RangeAt(text: string, m: nat, i2: nat)
    requires 0 < m && m + 1 < i2 && i2 + 1 < |text|
    requires forall t :: 0 <= t < m ==> IsLetter(text[t])
    requires text[m] == ' ' && text[i2] in Dashes
    requires forall t :: m < t < i2 ==> IsDigit(text[t])
    requires forall t :: i2 < t < |text| ==> IsDigit(text[t])
    ensures IsStripped(text) && NoneIn(text, PartSeparators)
    ensures ParsePart(text) == Range(text[..m], Value(text[m + 1..i2]), Value(text[i2 + 1..|text|]))
  {
    RangeAtText(text, m, i2);
    RangeAtShape(text, m, i2);
    MatchParses(text, m, m + 1, i2, i2, i2 + 1, |text|);
  }

  lemma RangeAtText(text: string, m: nat, i2: nat)
    requires 0 < m && m + 1 < i2 && i2 + 1 < |text|
    requires forall t :: 0 <= t < m ==> IsLetter(text[t])
    requires text[m] == ' ' && text[i2] in Dashes
    requires forall t :: m < t < i2 ==> IsDigit(text[t])
    requires forall t :: i2 < t < |text| ==> IsDigit(text[t])
    ensures IsStripped(text) && NoneIn(text, PartSeparators)
  {
    var n := |text|;
    assert NoneIn(text, PartSeparators) by {
      forall t | 0 <= t < n ensures text[t] !in PartSeparators {
        if t < m {
          assert IsLetter(text[t]);
        } else if m < t < i2 || i2 < t {
          assert IsDigit(text[t]);
        }
      }
    }
    assert IsDigit(text[n - 1]);
  }

  lemma RangeAtShape(text: string, m: nat, i2: nat)
    requires 0 < m && m + 1 < i2 && i2 + 1 < |text|
    requires forall t :: 0 <= t < m ==> IsLetter(text[t])
    requires text[m] == ' ' && text[i2] in Dashes
    requires forall t :: m < t < i2 ==> IsDigit(text[t])
    requires forall t :: i2 < t < |text| ==> IsDigit(text[t])
    ensures RangeShape(text, m, m + 1, i2, i2, i2 + 1, |text|)
  {
    assert AllDigits(text[m + 1..i2]) && AllDigits(text[i2 + 1..|text|]);
  }

  lemma SampleDays()
    ensures Days("Dec", 20, 3) == ["Dec 20", "Dec 21", "Dec 22"]
  {
    RangeTokens("Dec", 20, 3);
    ShowSamples();
    SampleToken(20, "20", "Dec 20");
    SampleToken(21, "21", "Dec 21");
    SampleToken(22, "22", "Dec 22");
  }

  lemma SampleToken(d: nat, digits: string, token: string)
    requires Show(d) == digits && token == "Dec " + digits
    ensures Token("Dec", d) == token
  {
  }

  lemma ShowSamples()
    ensures Show(20) == "20" && Show(21) == "21" && Show(22) == "22"
  {
    assert Show(2) == "2";
    assert DigitChar(0) == '0' && DigitChar(1) == '1' && DigitChar(2) == '2';
  }
}
