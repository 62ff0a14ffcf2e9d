# Family trip planner bot — verified model of its planning core

`bot.py` is a Telegram bot. It collects each family member's answers in a
conversation and appends them as a row to a Google Sheet. It then asks an AI
service for destination suggestions and, on `/final`, turns all rows into one
group itinerary PDF. Between the chat and the external services sits a small
deterministic core, and this project models that core in Dafny:

- **Dates.** `expand_date_range` reads free-text dates such as
  "Dec 20–22, Dec 25" into day tokens. Any part that is not a range is kept
  whole, trimmed.
- **Common window.** `intersect_available_minus_notfeasible` finds the dates
  every participant is available on and that nobody marked as not feasible.
  The result is sorted as strings.
- **Tally.** The destination tally of `generate_group_pdf_itinerary` counts
  selections with a `Counter`. It picks the top destination with
  `most_common(1)` and lists every destination by popularity with
  `most_common()`.
- **Choices.** `get_choices` extracts the names from the numbered suggestion
  list and resolves the participant's reply ("1,3" or typed names). It then
  stores the selection as a comma-separated text.
  `safe_strip_number_prefix` removes the same numbering.
- **Table.** `parse_itinerary_table_from_ai` reads the six-column Markdown
  table out of the AI's answer.

Modules:

- `Text` covers Python's `str.strip`, single-character splitting, `join` and
  line splitting.
- `Decimal` covers `isdigit`, `int` and `str` on naturals.
- `Order` covers string ordering and `sorted` of a set.
- `Optional` holds the option type.
- `Sheet` holds the response record.
- `DateRange`, `Window`, `Tally`, `Choices` and `ItineraryTable` model the
  five functions above.
- `Planning` models the go/no-go decision of `generate_group_pdf_itinerary`.

Each loop in the source is a method whose postcondition ties it to a
specification function. The properties are proved about those functions:
membership, ordering, uniqueness, round trips and the fold structure.

## Model

| member | source | states |
|---|---|---|
| `Text.TrimStart` | bot.py:76 | `lstrip()` never lengthens the text and leaves it starting with a non-space. |
| `Text.TrimEnd` | bot.py:76 | `rstrip()` never lengthens the text, leaves it ending with a non-space and keeps a non-space first character. |
| `Text.Strip` | bot.py:76 | The result is stripped of `IsSpace` characters (the `str.isspace` set). It is empty exactly when the input is all whitespace. |
| `Text.TrimStartAllSpace` | bot.py:76 | `lstrip()` leaves nothing exactly when the text is all whitespace. |
| `Text.StripFrom` | bot.py:76 | Every character the strip keeps comes from the input. |
| `Text.StripPadded` | bot.py:76 | A text padded on both sides with whitespace strips back to that text. |
| `Text.SplitOn` | bot.py:76 | Splitting on a set of separators gives one piece more than there are separators. |
| `Text.SplitOnNoneIn` | bot.py:76 | No piece of a split holds a separator. |
| `Text.SplitAt` | bot.py:76 | Splitting `a + sep + b` is splitting `a` followed by splitting `b`. |
| `Text.SplitJoin` | bot.py:267 | Splitting a `Join` (Python's `sep.join`) on the same character gives the parts back when no part holds that character. |
| `Text.NonBlank` | bot.py:249 | Stripping the pieces and dropping the blank ones leaves no more pieces than there were. |
| `Text.NonBlankTrimmed` | bot.py:249 | Every kept piece is non-empty and stripped. |
| `Text.NonBlankNoneIn` | bot.py:76 | Stripping adds no character: pieces free of the separators stay free of them. |
| `Text.NonBlankAppend` | bot.py:76 | Trimming and dropping blanks distributes over concatenation. |
| `Text.NonBlankKeeps` | bot.py:267 | Already trimmed, non-empty pieces pass through unchanged. |
| `Text.CommaListReadBack` | bot.py:267 | Joining trimmed, comma-free names with ", " and reading them back by splitting on commas gives the names back. |
| `Text.NonBlankLines` | bot.py:298 | Every line kept from a text is non-empty and stripped. |
| `Decimal.Show` | bot.py:84 | `str(n)` is a canonical numeral: digits only, with no leading zero. |
| `Decimal.ValueShow` | bot.py:82 | `Value` (`int()` on digits) undoes `Show`: `int(str(n)) == n`. |
| `Decimal.ShowValue` | bot.py:260-261 | `str(int(ds)) == ds` exactly for canonical numerals. |
| `Decimal.ShowInjective` | bot.py:84 | Different day numbers are written differently. |
| `Order.LessTotal` | bot.py:119 | `Less`, Python's `<` on strings, is total. |
| `Order.LessTransitive` | bot.py:119 | String order is transitive. |
| `Order.SortedSet` | bot.py:119 | `sorted(s)` is strictly ascending and holds exactly the elements of `s`. |
| `Order.SortedUnique` | bot.py:119 | Two strictly sorted sequences with the same elements are equal. |
| `Order.LexicographicNotChronological` | bot.py:119 | The window is sorted as strings, not as days: "Dec 10" comes before "Dec 9". |
| `DateRange.ParsePart` | bot.py:79-80 | A label always holds the part unchanged. A match's month is a non-empty prefix of the part made of ASCII letters. Which parts match is stated by `ParsePartMatches` and `ParsePartLabel`. |
| `DateRange.ParsePartMatches` | bot.py:79-82 | The parser returns month, `a` and `b` exactly when the part starts with the range pattern whose groups are that month word and two digit runs that `int()` reads as `a` and `b`. Leading zeros are allowed and text after the match is ignored. |
| `DateRange.MatchesRangeParses` | bot.py:79-82 | Where the pattern matches with given groups, the parser returns that range. |
| `DateRange.RangeMatches` | bot.py:79-82 | Every range the parser returns is a match of the pattern, with the returned month and numbers as its groups. |
| `DateRange.ParsePartLabel` | bot.py:79-86 | A part is kept as a label exactly when the pattern does not match it with any groups. |
| `DateRange.MatchParses` | bot.py:79-82 | A part with the shape of the pattern at given positions parses to its leading letters and the values of its two digit runs. |
| `DateRange.ParseWrittenRange` | bot.py:79-82 | A part written as month, optional whitespace, `str(a)`, optional whitespace, a hyphen or en dash, optional whitespace and `str(b)`, not followed by another digit, parses to that month, `a` and `b`. Trailing text is ignored. Other spellings of the numbers, such as leading zeros, are covered by `ParsePartMatches`. |
| `DateRange.Token` | bot.py:84 | A day token is the month, a space and the canonical numeral of the day (no leading zero, as `str(d)` writes it), which `int()` reads back as the day. Different days give different tokens. |
| `DateRange.RangeTokens` | bot.py:83-84 | `Days` over a range of `count` days gives `count` tokens, the k-th being "month first+k". |
| `DateRange.RangeMembership` | bot.py:83-84 | "month d" is among a range's `PartTokens` exactly when `first <= d <= last`. A reversed range gives none. |
| `DateRange.RangeDistinct` | bot.py:83-84 | A range's tokens are pairwise different. |
| `DateRange.Parts` | bot.py:76 | Every part is non-empty, stripped and free of commas and line feeds. |
| `DateRange.ExpandPartsStep` | bot.py:77-86 | Each further part adds its own tokens behind those of the parts before it. |
| `DateRange.ExpandDateRange` | bot.py:62-87 | The loop returns `ExpandText(text)`: the tokens of every trimmed, non-blank part, in order. An empty text gives the empty list. |
| `DateRange.AppendPartTokens` | bot.py:79-86 | One iteration appends exactly the part's tokens: the range's days, or the part itself. |
| `DateRange.AppendDays` | bot.py:83-84 | The loop over `range(first, last + 1)` appends exactly the range's `Days`: one token per day from `first` to `last`, and none when `first > last`. |
| `DateRange.ExpandTextParts` | bot.py:69-70 | The early return for an empty text agrees with expanding its parts. |
| `DateRange.ExpandPartsAppend` | bot.py:77-86 | Expanding a list of parts distributes over concatenation. |
| `DateRange.ExpandConcat` | bot.py:76-77 | Expanding two texts joined by a comma or line feed is expanding each and concatenating the results. |
| `DateRange.ExpandOnePart` | bot.py:76-86 | A separator-free text expands to the tokens of its stripped form, or to nothing when it is blank. |
| `DateRange.LabelKept` | bot.py:85-86 | A separator-free part that the pattern does not match with any groups expands to itself, stripped. |
| `DateRange.ExpandExample` | bot.py:78 | "Dec 20-22", the shape named in the comment, expands to "Dec 20", "Dec 21", "Dec 22". |
| `DateRange.DocstringRangeAndDay` | bot.py:65 | "Dec 20–22, Dec 25" expands to "Dec 20", "Dec 21", "Dec 22", "Dec 25", as the docstring says. |
| `DateRange.DocstringTwoDays` | bot.py:66 | "Dec 20, Dec 21" expands to "Dec 20", "Dec 21", as the docstring says. |
| `DateRange.TypedDay` | bot.py:76-86 | A single day typed as "month d" expands to exactly the token a range gives for that day. |
| `DateRange.DayAt` | bot.py:76-86 | Optional spaces, a word of letters, a space and digits with no dash form a single day. The part is kept as a label and expands to itself without the leading spaces. |
| `DateRange.RangeAt` | bot.py:79-84 | Letters, a space, digits, a dash and digits form a stripped, separator-free part that parses to that month and the two numbers. |
| `Window.IntersectAll` | bot.py:113 | `x` is in the intersection exactly when it is in every set. |
| `Window.UnionAll` | bot.py:118 | `x` is in the union exactly when it is in some set. The union of no sets is empty. |
| `Window.AvailableSets` | bot.py:98-107 | One available-date set per record. |
| `Window.NotFeasibleSets` | bot.py:98-107 | One not-feasible set per record. |
| `Window.RecordSetsAt` | bot.py:98-107 | Entry `i` of either list is the set of record `i`, so the order of records is kept. |
| `Window.RecordSets` | bot.py:98-107 | The loop over records builds both lists of sets. |
| `Window.SetOfMembers` | bot.py:103-104 | `set(xs)` holds exactly the elements of `xs`. |
| `Window.CommonWindow` | bot.py:90-120 | The window is strictly ascending. |
| `Window.CommonWindowMembers` | bot.py:109-119 | A date is in the window exactly when every record lists it as available and no record lists it as not feasible. |
| `Window.IntersectAvailableMinusNotFeasible` | bot.py:90-120 | The loop with its two early returns computes `CommonWindow`. |
| `Window.DateSetOf` | bot.py:100-104 | `DateSet` of a cell: no dates for a blank cell, otherwise the set of its expansion. |
| `Window.NoRecordsNoWindow` | bot.py:109-110 | No records give the empty window. |
| `Window.EmptyWhenNothingFeasible` | bot.py:114-119 | When no date is feasible for everyone, the window is empty. |
| `Window.BlankAvailabilityVetoes` | bot.py:100-115 | One participant who left availability blank empties the window. |
| `Window.NotFeasibleExcluded` | bot.py:117-119 | A date anyone marked not feasible is never in the window. |
| `Window.AddRecordNarrows` | bot.py:112-119 | Adding a response keeps a date exactly when it was in the window and suits the new response. |
| `Window.SameRecordsSameWindow` | bot.py:90-120 | The window depends only on the set of responses, not on their order or repetition. |
| `Window.RangeCellDates` | bot.py:100-104 | For a cell that the range pattern matches with a month, `first` and `last`, "month d" is an available date exactly when `first <= d <= last`. |
| `Tally.Entries` | bot.py:325 | A record's entries are non-empty and stripped. |
| `Tally.AllEntriesTrimmed` | bot.py:324-325 | Every counted entry over all records is non-empty and stripped. |
| `Tally.Distinct` | bot.py:323-326 | The counter's keys are exactly the entries, without repetition. |
| `Tally.FirstIndex` | bot.py:325-326 | An entry's first occurrence holds it, and nothing before holds it. |
| `Tally.DistinctFirstSeen` | bot.py:325-326 | Counter keys are ordered by first occurrence. |
| `Tally.DistinctSnoc` | bot.py:326 | Counting one more entry adds it as a new last key exactly when it was not yet a key. |
| `Tally.AddNamesDistinct` | bot.py:324-326 | Extending the keys of a prefix entry by entry gives the keys of the whole sequence. |
| `Tally.CountDestinations` | bot.py:323-326 | The tally loop yields the keys in first-seen order and counts every occurrence of every entry in every record. |
| `Tally.CountEntries` | bot.py:325-326 | The inner loop adds exactly the record's entries to the counts, and each new key at the end. |
| `Tally.TopIndex` | bot.py:328 | The index has the largest count, and every earlier key has a strictly smaller count. |
| `Tally.PickBestDestination` | bot.py:323-328 | The tally followed by the top pick gives `BestDestination`. |
| `Tally.BestDestinationIsMostCommon` | bot.py:327-328 | `BestDestination` is none exactly when nothing was selected. Otherwise it is a selected entry with the largest count, and ties go to the one seen first. |
| `Tally.TopBeats` | bot.py:327-328 | The top pick is a selected entry, counted at least as often as any entry, and selected no later than any entry with the same count. |
| `Tally.CountsAddUp` | bot.py:323-326 | The counts sum to the number of entries. |
| `Tally.RepeatedChoiceCountsTwice` | bot.py:325-326 | "Ooty, Ooty" in one response counts 2 for Ooty: the tally counts occurrences, not participants. |
| `Tally.RepeatedChoiceEntries` | bot.py:325 | "Ooty, Ooty" gives the entries Ooty, Ooty. |
| `Tally.InsertByCount` | bot.py:346 | Insertion by count adds exactly one key. |
| `Tally.Ranking` | bot.py:346 | The popularity order is a permutation of the keys. |
| `Tally.InsertKeepsDescending` | bot.py:346 | Inserting by count keeps the order descending by count. |
| `Tally.RankingDescending` | bot.py:346 | The popularity order is descending by count. |
| `Tally.RankingStable` | bot.py:346 | Keys with equal counts keep their first-seen order. |
| `Tally.RankingHead` | bot.py:328 | The head of the popularity order is the first key with the largest count. |
| `Tally.BestHeadsRanking` | bot.py:328 | The best destination heads the popularity list. |
| `Tally.PopularityOrderSpec` | bot.py:346 | `PopularityOrder` is a permutation of the selected destinations. It is descending by count, and stable among equal counts. |
| `Choices.StripNumberPrefix` | bot.py:253 | Removing the number leaves a suffix. Something is removed exactly when the text starts with optional whitespace and a digit. The rest then starts with a non-space. |
| `Choices.NumberedAt` | bot.py:253 | The pattern matches exactly when a digit follows the leading whitespace. |
| `Choices.StripNumberPrefixLongest` | bot.py:253 | What is removed is the longest prefix the numbering pattern matches (recognised by the automaton `IsNumberPrefix`), or nothing when no prefix matches. The rest of the text is kept. |
| `Choices.StripAt` | bot.py:253 | Where the pattern's automaton accepts after `n` characters and fails one character later, exactly the first `n` characters are removed. |
| `Choices.StripNumberPrefixOf` | bot.py:253 | A numbering prefix followed by a name whose first character cannot extend the prefix loses exactly the prefix. |
| `Choices.NumberShapes` | bot.py:59-60 | "1.Goa", "1 - Goa", "1.) Goa" and " 2) Goa" all lose their numbering and give "Goa". |
| `Choices.SafeStripNumberPrefix` | bot.py:58-60 | The result is stripped. |
| `Choices.StripNumberedLine` | bot.py:253 | "12. name" (or ")" or "-") loses exactly its number prefix. |
| `Choices.SafeStripNumberedLine` | bot.py:58-60 | A numbered stripped name comes back unchanged. |
| `Choices.SuggestionName` | bot.py:253-255 | An extracted name is stripped and holds no em dash, hyphen, "(" or ";". |
| `Choices.SuggestionNameRoundTrip` | bot.py:253-255 | A suggestion "n. name — detail" yields `name`. |
| `Choices.NameBeforeSeparator` | bot.py:255 | The name before the first name end is cut off and stripped. |
| `Choices.SuggestionNames` | bot.py:249-256 | One name per non-blank suggestion line. |
| `Choices.NamesOf` | bot.py:249-256 | One name per line. |
| `Choices.NamesOfAt` | bot.py:253-255 | Name `j` is the name extracted from line `j`. |
| `Choices.NamesOfLines` | bot.py:251-256 | The loop over the lines builds `NamesOf` of them. |
| `Choices.ExtractSuggestionNames` | bot.py:249-256 | The name extraction computes `SuggestionNames`. |
| `Choices.ResolveReply` | bot.py:258-266 | The loop computes `Selection` of the reply: `Resolve` over its comma-separated parts. |
| `Choices.Choice` | bot.py:259-266 | One reply part selects at most one destination: the typed text itself or one of the suggestions. |
| `Choices.ChoiceByNumber` | bot.py:260-263 | Reply number `k` selects suggestion `k` (1-based) when it exists and nothing otherwise. |
| `Choices.TypedNameKept` | bot.py:264-266 | A part that is not a numeral is kept, stripped. |
| `Choices.SelectionConcat` | bot.py:258 | Comma-joined replies select the concatenation of their selections. |
| `Choices.SelectionSingle` | bot.py:258-266 | A comma-free reply selects exactly its own choice. |
| `Choices.ResolveAppend` | bot.py:258-266 | Resolving parts distributes over concatenation. |
| `Choices.ResolveAtMostOne` | bot.py:258-266 | Each part selects at most one destination. |
| `Choices.GetChoices` | bot.py:244-267 | The stored text is `StoredSelection`, the joined non-blank selection of the reply against the extracted names. |
| `Choices.StoredReadBack` | bot.py:267 | The tally reads back exactly the non-blank stored names, provided no name holds a comma. |
| `ItineraryTable.Cells` | bot.py:300 | A line with k pipes has k-1 cells. Each cell is the stripped piece between two pipes. |
| `ItineraryTable.ParseItineraryTable` | bot.py:295-303 | The loop computes `TableRows` of the non-blank stripped lines. |
| `ItineraryTable.RowsWellFormed` | bot.py:298-303 | Every row of `TableRows` has six stripped, pipe-free cells. There are no more rows than lines. |
| `ItineraryTable.RowWhenSevenPipes` | bot.py:299-301 | `Row` gives a row exactly when the line holds seven pipes. |
| `ItineraryTable.TableLineRoundTrip` | bot.py:299-302 | "\| c1 \| … \| c6 \|" of six stripped, pipe-free cells parses back to those cells. |
| `ItineraryTable.TableLinePieces` | bot.py:300 | Splitting such a line on pipes gives an empty piece, the padded cells and an empty piece. |
| `Planning.ReadyWhenAgreed` | bot.py:317-332 | `PlanInputs` goes ahead exactly when something was selected and some date suits everyone. It then uses the best destination and the whole window. |
| `Planning.WindowEmptyIff` | bot.py:330-331 | The window is non-empty exactly when some date is feasible for every response. |

## Left out

- Telegram conversation handlers, the Google Sheets client, the OpenAI calls and PDF rendering are I/O and are not modelled. Sheet rows enter the model as `Sheet.Record` values, and the suggestion text and the reply enter as strings.
- Environment and credential loading are configuration, not logic.
- The budget parsing (the `k` suffix) and the people, days and budget averages are not modelled. They use float division and `int()` on free input, and they do not affect which destination or dates are chosen.
- There is no day-allocation algorithm. Lines 350-359 of bot.py only state rules in the prompt sent to the AI; the AI does the allocation.
- Digits and letters are ASCII only. Python's `\d`, `isdigit` and `int` also accept other Unicode digits, and `[A-Za-z]` is already ASCII.
- `str()` on non-string sheet cells, such as numbers the sheet returns, is not modelled: cells are strings.
- `splitlines` is modelled as splitting on its line-break characters. It differs from Python only on "\r\n", on a trailing break and on the empty text (`"".splitlines()` is `[]`, the split gives `[""]`), which give extra blank pieces, and those are dropped by the strip-and-drop-blank step that always follows.
- bot.py:306-314 redefines `parse_itinerary_table_from_ai` with the same body. The second definition is the one in effect; the model has one.
- `Counter` is modelled as a multiset of counts plus a sequence of keys in insertion order. `max()` and the stable sort inside `most_common` are library code, so they are modelled as functions (`TopIndex`, `Ranking`), not as methods.
- Counting is per occurrence, as the code does: a record that selects the same place twice counts twice (`Tally.RepeatedChoiceCountsTwice`).
- Markdown header and separator lines with seven pipes are returned as rows too. The code does not skip them, and neither does the model.
- `ItineraryTable.Cells`: requires a pipe in the line, because the caller only splits lines that hold one.
