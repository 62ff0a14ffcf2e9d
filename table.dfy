/** Reading the day-wise table out of the itinerary text
    (`parse_itinerary_table_from_ai`, bot.py:295-303; bot.py:306-314 defines
    the same function again, and that later definition is the one in effect). */
module ItineraryTable {
  import opened Text
  import opened Optional

  /** The trimmed pieces between the first and the last `|` of a line that
      holds one. */
  function Cells(line: string): (cells: seq<string>)
    requires '|' in line
    ensures |cells| == CountIn(line, {'|'}) - 1
    ensures forall i :: 0 <= i < |cells| ==> cells[i] == Strip(SplitOn(line, {'|'})[i + 1])
    ensures forall i :: 0 <= i < |cells| ==> IsStripped(cells[i]) && NoneIn(cells[i], {'|'})
  {
    var pieces := SplitOn(line, {'|'});
    PipeCounted(line);
    SplitOnNoneIn(line, {'|'});
    seq(|pieces| - 2, i requires 0 <= i < |pieces| - 2 => StripNoneIn(pieces[i + 1], {'|'}))
  }

  /** `Strip`, with the fact that it adds no character. */
  function StripNoneIn(s: string, seps: set<char>): (r: string)
    requires NoneIn(s, seps)
    ensures r == Strip(s) && NoneIn(r, seps)
  {
    StripFrom(s);
    Strip(s)
  }

  lemma {:induction false} PipeCounted(line: string)
    requires '|' in line
    ensures CountIn(line, {'|'}) >= 1
  {
    if line[0] != '|' {
      PipeCounted(line[1..]);
    }
  }

  /** The row a line contributes: its cells when it holds a `|` and has
      exactly six of them. */
  function Row(line: string): Option<seq<string>> {
    if '|' in line then
      var cells := Cells(line);
      if |cells| == 6 then Some(cells) else None
    else None
  }

  /** The rows of the lines, in order. */
  function TableRows(lines: seq<string>): seq<seq<string>> {
    if lines == [] then []
    else
      var rows := TableRows(lines[..|lines| - 1]);
      match Row(lines[|lines| - 1])
      case Some(cells) => rows + [cells]
      case None => rows
  }

  /** `parse_itinerary_table_from_ai(text)`. */
  method ParseItineraryTable(text: string) returns (rows: seq<seq<string>>)
    ensures rows == TableRows(NonBlankLines(text))
  {
    var lines := NonBlankLines(text);
    rows := [];
    for i := 0 to |lines|
      invariant rows == TableRows(lines[..i])
    {
      assert lines[..i + 1][..i] == lines[..i];
      var line := lines[i];
      if '|' in line {
        var cells := Cells(line);
        if |cells| == 6 {
          rows := rows + [cells];
        }
      }
    }
    assert lines[..|lines|] == lines;
  }

  /** Every row has exactly six cells, none with whitespace at either end
      or a `|` inside. */
  lemma {:induction false} RowsWellFormed(lines: seq<string>)
    ensures forall r :: r in TableRows(lines) ==>
              |r| == 6 && forall i :: 0 <= i < 6 ==> IsStripped(r[i]) && NoneIn(r[i], {'|'})
    ensures |TableRows(lines)| <= |lines|
  {
    if lines != [] {
      RowsWellFormed(lines[..|lines| - 1]);
    }
  }

  /** A line is a row exactly when it holds seven `|`; a line without `|`
      contributes nothing. */
  lemma RowWhenSevenPipes(line: string)
    ensures Row(line).Some? <==> CountIn(line, {'|'}) == 7
  {
    if '|' !in line {
      NoPipeCounted(line);
    }
  }

  lemma {:induction false} NoPipeCounted(line: string)
    requires '|' !in line
    ensures CountIn(line, {'|'}) == 0
  {
    if line != [] {
      assert line[1..] <= line[1..];
      assert forall c :: c in line[1..] ==> c in line;
      NoPipeCounted(line[1..]);
    }
  }

  /** A row written as a Markdown table line: `| c1 | c2 | ... |`. */
  function TableLine(cells: seq<string>): string {
    Join([""] + Padded(cells) + [""], "|")
  }

  /** Each cell with one space on either side. */
  function Padded(cells: seq<string>): (ps: seq<string>)
    ensures |ps| == |cells|
    ensures forall i :: 0 <= i < |cells| ==> ps[i] == " " + cells[i] + " "
  {
    seq(|cells|, i requires 0 <= i < |cells| => " " + cells[i] + " ")
  }

  /** Six trimmed cells without `|`, written as a table line, are read back. */
  lemma TableLineRoundTrip(cells: seq<string>)
    requires |cells| == 6
    requires forall i :: 0 <= i < 6 ==> IsStripped(cells[i]) && NoneIn(cells[i], {'|'})
    ensures Row(TableLine(cells)) == Some(cells)
  {
    var line := TableLine(cells);
    TableLinePieces(cells);
    PipeFromCount(line);
    var pieces := SplitOn(line, {'|'});
    var read := Cells(line);
    assert |read| == 6;
    forall i | 0 <= i < 6 ensures read[i] == cells[i] {
      assert pieces[i + 1] == Padded(cells)[i] == " " + cells[i] + " ";
      assert read[i] == Strip(pieces[i + 1]);
      StripPadded(" ", cells[i], " ");
    }
    assert read == cells;
  }

  /** Splitting a table line at `|` gives the padded cells between two empty ends. */
  lemma TableLinePieces(cells: seq<string>)
    requires forall i :: 0 <= i < |cells| ==> NoneIn(cells[i], {'|'})
    ensures SplitOn(TableLine(cells), {'|'}) == [""] + Padded(cells) + [""]
  {
    var pieces := [""] + Padded(cells) + [""];
    forall i | 0 <= i < |pieces| ensures NoneIn(pieces[i], {'|'}) {
      if 0 < i <= |cells| {
        assert pieces[i] == " " + cells[i - 1] + " ";
      }
    }
    SplitJoin(pieces, '|');
  }

  lemma {:induction false} PipeFromCount(line: string)
    requires CountIn(line, {'|'}) > 0
    ensures '|' in line
  {
    if line[0] != '|' {
      PipeFromCount(line[1..]);
    }
  }
}
