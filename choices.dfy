/** Turning a participant's reply into destination names (`get_choices`,
    bot.py:244-267) and the number-prefix removal it shares with
    `safe_strip_number_prefix` (bot.py:58-60). */
module Choices {
  import opened Text
  import opened Decimal
  import Tally

  /** The marks the numbering pattern allows after the number: full stop,
      closing parenthesis and hyphen. */
  const NumberMarks: set<char> := {'.', ')', '-'}

  /** Where a suggestion's name ends: em dash, hyphen, opening parenthesis or
      semicolon (the en dash is not among them). */
  const NameEnds: set<char> := {'\U{2014}', '-', '(', ';'}

  /** After some leading whitespace the text starts with a digit, so that the
      numbering pattern matches. */
  predicate Numbered(text: string) {
    exists i :: 0 <= i < |text| && AllSpace(text[..i]) && IsDigit(text[i])
  }

  /** Removes a leading number: whitespace, one or more digits, whitespace,
      any run of number marks and whitespace. The pattern is anchored at the
      start and needs at least one digit; each part is greedy and none has to give
      anything back, so the match is found by scanning forward. */
  function StripNumberPrefix(text: string): (r: string)
    ensures |r| <= |text| && r == text[|text| - |r|..]
    ensures Numbered(text) <==> |r| < |text|
    ensures |r| < |text| ==> r == [] || !IsSpace(r[0])
  {
    var i0 := Scan(text, 0, Space);
    var i1 := Scan(text, i0, Digit);
    NumberedAt(text, i0);
    if i1 == i0 then text
    else
      var i2 := Scan(text, i1, Space);
      var i3 := Scan(text, i2, OneOf(NumberMarks));
      var i4 := Scan(text, i3, Space);
      text[i4..]
  }

  /** The digit the pattern needs can only be where the leading whitespace ends. */
  lemma NumberedAt(text: string, i0: nat)
    requires i0 == Scan(text, 0, Space)
    ensures Numbered(text) <==> i0 < |text| && IsDigit(text[i0])
  {
    if Numbered(text) {
      var i :| 0 <= i < |text| && AllSpace(text[..i]) && IsDigit(text[i]);
      assert forall t :: 0 <= t < i ==> IsSpace(text[t]) by {
        forall t | 0 <= t < i ensures IsSpace(text[t]) { assert text[..i][t] == text[t]; }
      }
      ScanRun(text, 0, i, Space);
    }
    if i0 < |text| && IsDigit(text[i0]) {
      ScanAll(text, 0, Space);
      assert AllSpace(text[..i0]);
    }
  }

  /** How the numbering pattern sees a character: whitespace, a digit, a
      number mark or anything else. */
  datatype CharKind = SpaceChar | DigitChar | MarkChar | OtherChar

  function Kind(c: char): CharKind {
    if IsSpace(c) then SpaceChar
    else if IsDigit(c) then DigitChar
    else if c in NumberMarks then MarkChar
    else OtherChar
  }

  /** Each class the numbering pattern scans is one kind. */
  lemma ClassKinds(c: char)
    ensures InClass(c, Space) ==> Kind(c) == SpaceChar
    ensures InClass(c, Digit) ==> Kind(c) == DigitChar
    ensures InClass(c, OneOf(NumberMarks)) ==> Kind(c) == MarkChar
  {
  }

  /** The states of an automaton for the numbering pattern: in the leading
      whitespace, in the digits, in the whitespace after them, in the marks,
      in the whitespace after the marks, or off the pattern. */
  datatype PrefixState = Lead | Digits | Gap | Marks | Trail | Dead

  function Step(st: PrefixState, k: CharKind): PrefixState {
    match (st, k)
    case (Lead, SpaceChar) => Lead
    case (Lead, DigitChar) => Digits
    case (Digits, DigitChar) => Digits
    case (Digits, SpaceChar) => Gap
    case (Digits, MarkChar) => Marks
    case (Gap, SpaceChar) => Gap
    case (Gap, MarkChar) => Marks
    case (Marks, MarkChar) => Marks
    case (Marks, SpaceChar) => Trail
    case (Trail, SpaceChar) => Trail
    case _ => Dead
  }

  /** The state the automaton is in after reading the first `n` characters
      of `text`. */
  function Run(text: string, n: nat): PrefixState
    requires n <= |text|
  {
    if n == 0 then Lead else Step(Run(text, n - 1), Kind(text[n - 1]))
  }

  /** `p` as a whole is matched by the numbering pattern: some whitespace,
      at least one digit, whitespace, marks, whitespace. */
  predicate IsNumberPrefix(p: string) {
    Accepting(Run(p, |p|))
  }

  /** `StripNumberPrefix` removes the longest prefix the numbering pattern
      matches, and leaves the text unchanged when no prefix matches. For this
      pattern the greedy match is the longest one. */
  lemma StripNumberPrefixLongest(text: string)
    ensures var e := |text| - |StripNumberPrefix(text)|;
      text == text[..e] + StripNumberPrefix(text) &&
      (IsNumberPrefix(text[..e]) || e == 0) &&
      forall k :: e < k <= |text| ==> !IsNumberPrefix(text[..k])
  {
    var r := StripNumberPrefix(text);
    var e := |text| - |r|;
    assert text == text[..e] + r;
    forall k | 0 <= k <= |text| ensures IsNumberPrefix(text[..k]) <==> Accepting(Run(text, k)) {
      RunAgree(text[..k], text, k);
    }
    LongestRun(text);
  }

  predicate Accepting(st: PrefixState) {
    st != Lead && st != Dead
  }

  /** The removed prefix, read as a number of characters: the automaton
      accepts there, or nothing is removed, and it accepts nowhere later. */
  lemma LongestRun(text: string)
    ensures var e := |text| - |StripNumberPrefix(text)|;
      (Accepting(Run(text, e)) || e == 0) &&
      forall k :: e < k <= |text| ==> !Accepting(Run(text, k))
  {
    if Numbered(text) {
      NumberedLongest(text);
    } else {
      Unnumbered(text);
    }
  }

  lemma NumberedLongest(text: string)
    requires Numbered(text)
    ensures var e := |text| - |StripNumberPrefix(text)|;
      Accepting(Run(text, e)) && forall k :: e < k <= |text| ==> Run(text, k) == Dead
  {
    var i0 := Scan(text, 0, Space);
    NumberedAt(text, i0);
    var i1 := Scan(text, i0, Digit);
    var i2 := Scan(text, i1, Space);
    var i3 := Scan(text, i2, OneOf(NumberMarks));
    var i4 := Scan(text, i3, Space);
    StripLength(text, i0, i1, i2, i3, i4);
    NumberPrefixEnd(text, i0, i1, i2, i3, i4);
    forall k | i4 < k <= |text| ensures Run(text, k) == Dead {
      RunStays(text, i4 + 1, k, Dead);
    }
  }

  /** On a numbered text `StripNumberPrefix` cuts where the last scan stops. */
  lemma StripLength(text: string, i0: nat, i1: nat, i2: nat, i3: nat, i4: nat)
    requires i0 == Scan(text, 0, Space) && i0 < |text| && IsDigit(text[i0])
    requires i1 == Scan(text, i0, Digit) && i2 == Scan(text, i1, Space)
    requires i3 == Scan(text, i2, OneOf(NumberMarks)) && i4 == Scan(text, i3, Space)
    ensures |text| - |StripNumberPrefix(text)| == i4
  {
  }

  /** A position where the automaton accepts and is off the pattern one
      character later is where `StripNumberPrefix` cuts. */
  lemma StripAt(text: string, n: nat)
    requires n <= |text| && Accepting(Run(text, n))
    requires n < |text| ==> Run(text, n + 1) == Dead
    ensures StripNumberPrefix(text) == text[n..]
  {
    var r := StripNumberPrefix(text);
    LongestRun(text);
    OneLongest(text, |text| - |r|, n);
  }

  /** At most one position is accepting with nothing accepting after it. */
  lemma OneLongest(text: string, e: nat, n: nat)
    requires e <= |text| && (Accepting(Run(text, e)) || e == 0)
    requires forall k :: e < k <= |text| ==> !Accepting(Run(text, k))
    requires n <= |text| && Accepting(Run(text, n))
    requires n < |text| ==> Run(text, n + 1) == Dead
    ensures e == n
  {
    if e > n {
      RunStays(text, n + 1, e, Dead);
    }
  }

  /** Any prefix the numbering pattern matches, followed by a name that the
      pattern cannot take in, is removed exactly. */
  lemma StripNumberPrefixOf(pre: string, name: string)
    requires IsNumberPrefix(pre)
    requires name != [] ==> !IsNumberPrefix(pre + [name[0]])
    ensures StripNumberPrefix(pre + name) == name
  {
    var text := pre + name;
    var n := |pre|;
    assert text[..n] == pre;
    RunAgree(pre, text, n);
    if name != [] {
      var ext := pre + [name[0]];
      assert ext[..n] == pre && text[..n + 1] == ext;
      RunAgree(ext, pre, n);
      RunAgree(ext, text, n + 1);
    }
    StripAt(text, n);
    assert text[n..] == name;
  }

  /** The numbering shapes a reply may use: marks glued to the name, a
      spaced hyphen, several marks, leading whitespace. */
  lemma NumberShapes()
    ensures StripNumberPrefix("1.Goa") == "Goa"
    ensures StripNumberPrefix("1 - Goa") == "Goa"
    ensures StripNumberPrefix("1.) Goa") == "Goa"
    ensures StripNumberPrefix(" 2) Goa") == "Goa"
  {
    GluedMark();
    SpacedHyphen();
    DoubleMark();
    LeadingSpace();
  }

  lemma GluedMark()
    ensures StripNumberPrefix("1.Goa") == "Goa"
  {
    var t := "1.Goa";
    assert Run(t, 1) == Digits;
    assert Run(t, 2) == Marks;
    assert Run(t, 3) == Dead;
    StripAt(t, 2);
  }

  lemma SpacedHyphen()
    ensures StripNumberPrefix("1 - Goa") == "Goa"
  {
    var t := "1 - Goa";
    assert Run(t, 1) == Digits;
    assert Run(t, 2) == Gap;
    assert Run(t, 3) == Marks;
    assert Run(t, 4) == Trail;
    assert Run(t, 5) == Dead;
    StripAt(t, 4);
  }

  lemma DoubleMark()
    ensures StripNumberPrefix("1.) Goa") == "Goa"
  {
    var t := "1.) Goa";
    assert Run(t, 1) == Digits;
    assert Run(t, 2) == Marks;
    assert Run(t, 3) == Marks;
    assert Run(t, 4) == Trail;
    assert Run(t, 5) == Dead;
    StripAt(t, 4);
  }

  lemma LeadingSpace()
    ensures StripNumberPrefix(" 2) Goa") == "Goa"
  {
    var t := " 2) Goa";
    assert Run(t, 1) == Lead;
    assert Run(t, 2) == Digits;
    assert Run(t, 3) == Marks;
    assert Run(t, 4) == Trail;
    assert Run(t, 5) == Dead;
    StripAt(t, 4);
  }

  /** On a numbered text the automaton accepts where the greedy scans of
      the pattern stop, and is off the pattern one character later. */
  lemma NumberPrefixEnd(text: string, i0: nat, i1: nat, i2: nat, i3: nat, i4: nat)
    requires i0 == Scan(text, 0, Space) && i0 < |text| && IsDigit(text[i0])
    requires i1 == Scan(text, i0, Digit) && i2 == Scan(text, i1, Space)
    requires i3 == Scan(text, i2, OneOf(NumberMarks)) && i4 == Scan(text, i3, Space)
    ensures Accepting(Run(text, i4)) && (i4 < |text| ==> Run(text, i4 + 1) == Dead)
  {
    DigitsEnd(text, i0);
    ScanStage(text, i1, Space, SpaceChar, Digits, Gap);
    MarksEnd(text, i2, if i2 > i1 then Gap else Digits, i3, i4);
  }

  /** The leading whitespace and the digits bring the automaton to `Digits`. */
  lemma DigitsEnd(text: string, i0: nat)
    requires i0 == Scan(text, 0, Space) && i0 < |text| && IsDigit(text[i0])
    ensures Run(text, Scan(text, i0, Digit)) == Digits
  {
    ScanStage(text, 0, Space, SpaceChar, Lead, Lead);
    ScanStage(text, i0, Digit, DigitChar, Lead, Digits);
  }

  /** From the end of the whitespace after the digits, the marks and the
      whitespace after them end in an accepting state, and the next
      character leads off the pattern. */
  lemma MarksEnd(text: string, i2: nat, s2: PrefixState, i3: nat, i4: nat)
    requires i2 <= |text| && Run(text, i2) == s2 && (s2 == Digits || s2 == Gap)
    requires i2 < |text| ==> !IsSpace(text[i2]) && (s2 == Digits ==> !IsDigit(text[i2]))
    requires i3 == Scan(text, i2, OneOf(NumberMarks)) && i4 == Scan(text, i3, Space)
    ensures Accepting(Run(text, i4)) && (i4 < |text| ==> Run(text, i4 + 1) == Dead)
  {
    ScanStage(text, i2, OneOf(NumberMarks), MarkChar, s2, Marks);
    if i3 == i2 {
      ScanRun(text, i3, i3, Space);
    } else {
      ScanStage(text, i3, Space, SpaceChar, Marks, Trail);
    }
  }

  /** Reading a greedy run of class `k`, whose characters are all of kind
      `kind`, from state `st`: the first character of the run moves the
      automaton to `next`, where the rest of the run keeps it. */
  lemma ScanStage(text: string, i: nat, k: CharClass, kind: CharKind, st: PrefixState, next: PrefixState)
    requires i <= |text| && Run(text, i) == st
    requires (k == Space && kind == SpaceChar) || (k == Digit && kind == DigitChar) ||
             (k == OneOf(NumberMarks) && kind == MarkChar)
    requires Scan(text, i, k) > i ==> Step(st, kind) == next && Step(next, kind) == next
    ensures var j := Scan(text, i, k); Run(text, j) == if j > i then next else st
  {
    var j := Scan(text, i, k);
    if j > i {
      ScanAll(text, i, k);
      forall t | i <= t < j ensures Kind(text[t]) == kind {
        ClassKinds(text[t]);
      }
      RunStays(text, i + 1, j, next);
    }
  }

  /** Without a digit after the leading whitespace no prefix matches. */
  lemma Unnumbered(text: string)
    requires !Numbered(text)
    ensures forall k :: 0 <= k <= |text| ==> Run(text, k) == Lead || Run(text, k) == Dead
  {
    var i0 := Scan(text, 0, Space);
    NumberedAt(text, i0);
    ScanAll(text, 0, Space);
    forall t | 0 <= t < i0 ensures Kind(text[t]) == SpaceChar {
      ClassKinds(text[t]);
    }
    forall k | 0 <= k <= |text| ensures Run(text, k) == Lead || Run(text, k) == Dead {
      if k <= i0 {
        RunStays(text, 0, k, Lead);
      } else {
        RunStays(text, 0, i0, Lead);
        RunStays(text, i0 + 1, k, Dead);
      }
    }
  }

  /** Characters that leave the automaton where it is keep it there. */
  lemma {:induction false} RunStays(text: string, i: nat, j: nat, st: PrefixState)
    requires i <= j <= |text| && Run(text, i) == st
    requires forall t :: i <= t < j ==> Step(st, Kind(text[t])) == st
    ensures Run(text, j) == st
    decreases j
  {
    if i < j {
      RunStays(text, i, j - 1, st);
    }
  }

  /** The automaton's state depends only on the characters it has read. */
  lemma {:induction false} RunAgree(a: string, b: string, n: nat)
    requires n <= |a| && n <= |b| && a[..n] == b[..n]
    ensures Run(a, n) == Run(b, n)
  {
    if n > 0 {
      assert a[n - 1] == a[..n][n - 1];
      assert a[..n - 1] == a[..n][..n - 1];
      RunAgree(a, b, n - 1);
    }
  }

  /** `safe_strip_number_prefix(text)`: the number prefix removed, then `.strip()`. */
  function SafeStripNumberPrefix(text: string): (r: string)
    ensures IsStripped(r)
  {
    Strip(StripNumberPrefix(text))
  }

  /** A line numbered as `"<n><mark> <name>"`. */
  function NumberedLine(n: nat, mark: char, name: string): string {
    Show(n) + [mark, ' '] + name
  }

  /** The numbering pattern takes off exactly the number, the mark and the
      space after it. */
  lemma StripNumberedLine(n: nat, mark: char, name: string)
    requires mark in NumberMarks && (name == [] || !IsSpace(name[0]))
    ensures StripNumberPrefix(NumberedLine(n, mark, name)) == name
  {
    var text := NumberedLine(n, mark, name);
    var sn := Show(n);
    var k := |sn|;
    assert text[k] == mark && text[k + 1] == ' ';
    assert forall t :: 0 <= t < k ==> text[t] == sn[t];
    assert text[k + 2..] == name;
    ScanRun(text, 0, 0, Space);
    ScanRun(text, 0, k, Digit);
    ScanRun(text, k, k, Space);
    ScanRun(text, k, k + 1, OneOf(NumberMarks));
    if name != [] {
      assert text[k + 2] == name[0];
    }
    ScanRun(text, k + 1, k + 2, Space);
  }

  /** `safe_strip_number_prefix` gives a numbered name back. */
  lemma SafeStripNumberedLine(n: nat, mark: char, name: string)
    requires mark in NumberMarks && IsStripped(name)
    ensures SafeStripNumberPrefix(NumberedLine(n, mark, name)) == name
  {
    StripNumberedLine(n, mark, name);
    StripStripped(name);
  }

  /** The name in one suggestion line: the line without its number, cut at
      the first name end, trimmed. */
  function SuggestionName(line: string): (name: string)
    ensures IsStripped(name) && NoneIn(name, NameEnds)
  {
    var head := SplitOn(StripNumberPrefix(line), NameEnds)[0];
    var name := Strip(head);
    SplitOnNoneIn(StripNumberPrefix(line), NameEnds);
    StripFrom(head);
    name
  }

  /** A suggestion as the AI service is asked to write it: `"<n>. <name> — <detail>"`. */
  function SuggestionLine(n: nat, mark: char, name: string, sep: char, detail: string): string {
    NumberedLine(n, mark, name + [' ', sep] + detail)
  }

  /** The name is read back from a suggestion line. */
  lemma SuggestionNameRoundTrip(n: nat, mark: char, name: string, sep: char, detail: string)
    requires mark in NumberMarks && sep in NameEnds
    requires name != [] && IsStripped(name) && NoneIn(name, NameEnds)
    ensures SuggestionName(SuggestionLine(n, mark, name, sep, detail)) == name
  {
    var body := name + [' ', sep] + detail;
    assert body[0] == name[0];
    StripNumberedLine(n, mark, body);
    NameBeforeSeparator(name, sep, detail);
  }

  /** The first piece of `"<name> <sep><detail>"` strips to the name. */
  lemma NameBeforeSeparator(name: string, sep: char, detail: string)
    requires sep in NameEnds && IsStripped(name) && NoneIn(name, NameEnds)
    ensures Strip(SplitOn(name + [' ', sep] + detail, NameEnds)[0]) == name
  {
    var head := name + " ";
    assert name + [' ', sep] + detail == head + [sep] + detail;
    SplitAt(head, sep, detail, NameEnds);
    assert NoneIn(head, NameEnds);
    SplitNone(head, NameEnds);
    StripPadded("", name, " ");
    assert "" + name + " " == head;
  }

  /** `suggestion_names`: one name per non-blank line of the suggestions text. */
  function SuggestionNames(suggestions: string): (names: seq<string>)
    ensures |names| == |NonBlankLines(suggestions)|
  {
    NamesOf(NonBlankLines(suggestions))
  }

  /** The name of each line, in order. */
  function NamesOf(lines: seq<string>): (names: seq<string>)
    ensures |names| == |lines|
  {
    if lines == [] then [] else NamesOf(lines[..|lines| - 1]) + [SuggestionName(lines[|lines| - 1])]
  }

  /** The `j`-th name is the name in the `j`-th line. */
  lemma {:induction false} NamesOfAt(lines: seq<string>, j: nat)
    requires j < |lines|
    ensures NamesOf(lines)[j] == SuggestionName(lines[j])
  {
    if j < |lines| - 1 {
      NamesOfAt(lines[..|lines| - 1], j);
    }
  }

  /** `suggestion_names` for the suggestion lines kept from the text. */
  method ExtractSuggestionNames(suggestions: string) returns (names: seq<string>)
    ensures names == SuggestionNames(suggestions)
  {
    var lines := NonBlankLines(suggestions);
    names := NamesOfLines(lines);
  }

  /** The loop that fills `suggestion_names`. */
  method NamesOfLines(lines: seq<string>) returns (names: seq<string>)
    ensures names == NamesOf(lines)
  {
    names := [];
    for i := 0 to |lines|
      invariant names == NamesOf(lines[..i])
    {
      var s := StripNumberPrefix(lines[i]);
      s := Strip(SplitOn(s, NameEnds)[0]);
      assert lines[..i + 1][..i] == lines[..i];
      names := names + [s];
    }
    assert lines[..|lines|] == lines;
  }

  /** What one stripped reply part selects: a number `k` picks the `k`-th
      suggestion when there is one and nothing otherwise; anything else is
      taken as typed. */
  function Choice(part: string, names: seq<string>): (r: seq<string>)
    ensures |r| <= 1 && forall x :: x in r ==> x == part || x in names
  {
    if IsNumeral(part) then
      var idx := Value(part) - 1;
      if 0 <= idx < |names| then [names[idx]] else []
    else [part]
  }

  /** `selected` after the loop over the parts of the reply. */
  function Resolve(parts: seq<string>, names: seq<string>): seq<string> {
    if parts == [] then []
    else Resolve(parts[..|parts| - 1], names) + Choice(Strip(parts[|parts| - 1]), names)
  }

  /** The destinations a reply selects. */
  function Selection(reply: string, names: seq<string>): seq<string> {
    Resolve(SplitOn(reply, {','}), names)
  }

  /** The loop over the comma-separated parts of the reply. */
  method ResolveReply(reply: string, names: seq<string>) returns (selected: seq<string>)
    ensures selected == Selection(reply, names)
  {
    var parts := SplitOn(reply, {','});
    selected := [];
    for i := 0 to |parts|
      invariant selected == Resolve(parts[..i], names)
    {
      assert parts[..i + 1][..i] == parts[..i];
      var part := Strip(parts[i]);
      if IsNumeral(part) {
        var idx := Value(part) - 1;
        if 0 <= idx < |names| {
          selected := selected + [names[idx]];
        }
      } else {
        selected := selected + [part];
      }
    }
    assert parts[..|parts|] == parts;
  }

  /** The text stored as the participant's selected destinations: the
      non-blank selected names, trimmed, joined with a comma and a space. */
  function StoredSelection(selected: seq<string>): string {
    Join(NonBlank(selected), ", ")
  }

  /** `get_choices` from the suggestions text and the reply to the stored text. */
  method GetChoices(suggestions: string, reply: string) returns (stored: string)
    ensures stored == StoredSelection(Selection(reply, SuggestionNames(suggestions)))
  {
    var names := ExtractSuggestionNames(suggestions);
    var selected := ResolveReply(reply, names);
    stored := Join(NonBlank(selected), ", ");
  }

  /** A number selects the suggestion it counts to from 1, and an out-of-range
      number (0 included) selects nothing. */
  lemma ChoiceByNumber(k: nat, names: seq<string>)
    ensures Choice(Show(k), names) == if 1 <= k <= |names| then [names[k - 1]] else []
  {
    ValueShow(k);
  }

  lemma {:induction false} ResolveAppend(a: seq<string>, b: seq<string>, names: seq<string>)
    ensures Resolve(a + b, names) == Resolve(a, names) + Resolve(b, names)
  {
    if b != [] {
      ResolveAppend(a, b[..|b| - 1], names);
      assert (a + b)[..|a + b| - 1] == a + b[..|b| - 1];
    } else {
      assert a + b == a;
    }
  }

  /** The parts of a reply are resolved one after another: the selection of
      `"x,y"` is the selection of `x` followed by that of `y`. */
  lemma SelectionConcat(x: string, y: string, names: seq<string>)
    ensures Selection(x + [','] + y, names) == Selection(x, names) + Selection(y, names)
  {
    SplitAt(x, ',', y, {','});
    ResolveAppend(SplitOn(x, {','}), SplitOn(y, {','}), names);
  }

  /** A reply without commas is one part, trimmed. */
  lemma SelectionSingle(part: string, names: seq<string>)
    requires NoneIn(part, {','})
    ensures Selection(part, names) == Choice(Strip(part), names)
  {
    SplitNone(part, {','});
    assert [part][..0] == [];
    assert Resolve([part], names) == Resolve([], names) + Choice(Strip(part), names);
  }

  /** A reply that is one typed name, not a number, selects that name, trimmed. */
  lemma TypedNameKept(part: string, names: seq<string>)
    requires NoneIn(part, {','}) && !IsNumeral(Strip(part))
    ensures Selection(part, names) == [Strip(part)]
  {
    SelectionSingle(part, names);
  }

  /** Each part of the reply selects at most one destination. */
  lemma {:induction false} ResolveAtMostOne(parts: seq<string>, names: seq<string>)
    ensures |Resolve(parts, names)| <= |parts|
  {
    if parts != [] {
      ResolveAtMostOne(parts[..|parts| - 1], names);
    }
  }

  /** What is stored reads back, in the tally, as the non-blank selected
      names, provided no name holds a comma. */
  lemma StoredReadBack(selected: seq<string>)
    requires forall i :: 0 <= i < |selected| ==> NoneIn(selected[i], {','})
    ensures Tally.Entries(StoredSelection(selected)) == NonBlank(selected)
  {
    NonBlankNoneIn(selected, {','});
    NonBlankTrimmed(selected);
    CommaListReadBack(NonBlank(selected));
  }
}
