/** The checks `generate_group_pdf_itinerary` makes before it asks for an
    itinerary (bot.py:317-332): responses must exist, some destination must
    have been selected and the common window must not be empty. */
module Planning {
  import opened Sheet
  import opened Window
  import opened Tally

  datatype Outcome =
    | NoResponses
    | NotEnoughData
    | Ready(destination: string, dates: seq<string>)

  /** What the planner goes on with, from the rows of the sheet. */
  function PlanInputs(records: seq<Record>): Outcome {
    if records == [] then NoResponses
    else
      match BestDestination(records)
      case None => NotEnoughData
      case Some(best) =>
        var window := CommonWindow(records);
        if best == "" || window == [] then NotEnoughData else Ready(best, window)
  }

  /** The planner goes ahead exactly when someone selected a destination and
      some date suits everyone; it then uses the most selected destination
      and the whole window. */
  lemma ReadyWhenAgreed(records: seq<Record>)
    ensures PlanInputs(records).Ready? <==>
              AllEntries(records) != [] && exists x :: Feasible(records, x)
    ensures PlanInputs(records).Ready? ==>
              PlanInputs(records) == Ready(BestDestination(records).value, CommonWindow(records))
  {
    BestDestinationIsMostCommon(records);
    WindowEmptyIff(records);
    AllEntriesTrimmed(records);
    if BestDestination(records).Some? {
      var best := BestDestination(records).value;
      var i :| 0 <= i < |AllEntries(records)| && AllEntries(records)[i] == best;
    }
  }

  /** The window is empty exactly when no date suits everyone. */
  lemma WindowEmptyIff(records: seq<Record>)
    ensures CommonWindow(records) != [] <==> exists x :: Feasible(records, x)
  {
    var window := CommonWindow(records);
    if window != [] {
      CommonWindowMembers(records, window[0]);
    }
    if exists x :: Feasible(records, x) {
      var x :| Feasible(records, x);
      CommonWindowMembers(records, x);
    }
  }
}
