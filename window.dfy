/** The common feasible window (`intersect_available_minus_notfeasible`,
    bot.py:90-120): the dates every participant is available on, minus every
    date anyone marked as not feasible, sorted as strings. */
module Window {
  import opened Text
  import opened Order
  import opened DateRange
  import opened Sheet

  /** The dates a cell names: none for a blank cell, otherwise the set of
      the tokens its trimmed text expands to. */
  function DateSet(cell: string): set<string> {
    var s := Strip(cell);
    if s == "" then {} else SetOf(ExpandText(s))
  }

  /** `set(xs)`: the elements of a list, as a set. */
  function SetOf(xs: seq<string>): set<string> {
    if xs == [] then {} else SetOf(xs[..|xs| - 1]) + {xs[|xs| - 1]}
  }

  lemma {:induction false} SetOfMembers(xs: seq<string>, x: string)
    ensures x in SetOf(xs) <==> x in xs
  {
    if xs != [] {
      SetOfMembers(xs[..|xs| - 1], x);
      assert xs == xs[..|xs| - 1] + [xs[|xs| - 1]];
    }
  }

  function AvailableSet(r: Record): set<string> {
    DateSet(r.available)
  }

  function NotFeasibleSet(r: Record): set<string> {
    DateSet(r.notFeasible)
  }

  /** `set.intersection(*ss)`. */
  function IntersectAll(ss: seq<set<string>>): (r: set<string>)
    requires |ss| > 0
    ensures forall x :: x in r <==> forall i :: 0 <= i < |ss| ==> x in ss[i]
  {
    if |ss| == 1 then ss[0]
    else
      var r := IntersectAll(ss[..|ss| - 1]) * ss[|ss| - 1];
      assert forall i :: 0 <= i < |ss| - 1 ==> ss[..|ss| - 1][i] == ss[i];
      r
  }

  /** `set.union(*ss)`, and the empty set for no sets at all. */
  function UnionAll(ss: seq<set<string>>): (r: set<string>)
    ensures forall x :: x in r <==> exists i :: 0 <= i < |ss| && x in ss[i]
  {
    if ss == [] then {}
    else
      var r := UnionAll(ss[..|ss| - 1]) + ss[|ss| - 1];
      assert forall i :: 0 <= i < |ss| - 1 ==> ss[..|ss| - 1][i] == ss[i];
      r
  }

  /** The availability set of each record, in record order. */
  function AvailableSets(records: seq<Record>): (ss: seq<set<string>>)
    ensures |ss| == |records|
  {
    if records == [] then []
    else AvailableSets(records[..|records| - 1]) + [AvailableSet(records[|records| - 1])]
  }

  /** The not-feasible set of each record, in record order. */
  function NotFeasibleSets(records: seq<Record>): (ss: seq<set<string>>)
    ensures |ss| == |records|
  {
    if records == [] then []
    else NotFeasibleSets(records[..|records| - 1]) + [NotFeasibleSet(records[|records| - 1])]
  }

  /** Entry `i` of either list belongs to record `i`. */
  lemma {:induction false} RecordSetsAt(records: seq<Record>, i: nat)
    requires i < |records|
    ensures AvailableSets(records)[i] == AvailableSet(records[i])
    ensures NotFeasibleSets(records)[i] == NotFeasibleSet(records[i])
  {
    if i < |records| - 1 {
      var front := records[..|records| - 1];
      RecordSetsAt(front, i);
      assert front[i] == records[i];
    }
  }

  /** A date fits the group: there is at least one participant, every one of
      them lists it as available and none lists it as not feasible. */
  predicate Feasible(records: seq<Record>, x: string) {
    |records| > 0 &&
    forall i :: 0 <= i < |records| ==> x in AvailableSet(records[i]) && x !in NotFeasibleSet(records[i])
  }

  /** What `intersect_available_minus_notfeasible(records)` returns. */
  function CommonWindow(records: seq<Record>): (window: seq<string>)
    ensures StrictlySorted(window)
  {
    if records == [] then []
    else
      var common := IntersectAll(AvailableSets(records));
      if common == {} then []
      else SortedSet(common - UnionAll(NotFeasibleSets(records)))
  }

  /** The window holds exactly the feasible dates. */
  lemma CommonWindowMembers(records: seq<Record>, x: string)
    ensures x in CommonWindow(records) <==> Feasible(records, x)
  {
    if records != [] {
      var common := IntersectAll(AvailableSets(records));
      var vetoed := UnionAll(NotFeasibleSets(records));
      forall i | 0 <= i < |records|
        ensures AvailableSets(records)[i] == AvailableSet(records[i])
        ensures NotFeasibleSets(records)[i] == NotFeasibleSet(records[i])
      {
        RecordSetsAt(records, i);
      }
      if Feasible(records, x) {
        assert x in common;
        assert x !in vetoed;
      }
      if x in CommonWindow(records) {
        assert x in common - vetoed;
        forall i | 0 <= i < |records|
          ensures x in AvailableSet(records[i]) && x !in NotFeasibleSet(records[i])
        {
        }
      }
    }
  }

  /** `intersect_available_minus_notfeasible`: the two sets of every record,
      then the set operations with their early returns, and the sort. */
  method IntersectAvailableMinusNotFeasible(records: seq<Record>) returns (window: seq<string>)
    ensures window == CommonWindow(records)
  {
    var availableSets, notFeasibleSets := RecordSets(records);
    if availableSets == [] {
      return [];
    }
    var common := IntersectAll(availableSets);
    if common == {} {
      return [];
    }
    window := SortedSet(common - UnionAll(notFeasibleSets));
  }

  /** The loop that expands every record's two cells into date sets. */
  method RecordSets(records: seq<Record>) returns (availableSets: seq<set<string>>, notFeasibleSets: seq<set<string>>)
    ensures availableSets == AvailableSets(records)
    ensures notFeasibleSets == NotFeasibleSets(records)
  {
    availableSets, notFeasibleSets := [], [];
    for i := 0 to |records|
      invariant availableSets == AvailableSets(records[..i])
      invariant notFeasibleSets == NotFeasibleSets(records[..i])
    {
      var avSet := DateSetOf(records[i].available);
      var nfSet := DateSetOf(records[i].notFeasible);
      assert records[..i + 1][..i] == records[..i];
      availableSets := availableSets + [avSet];
      notFeasibleSets := notFeasibleSets + [nfSet];
    }
    assert records[..|records|] == records;
  }

  /** One cell: strip it, and expand it unless nothing is left. */
  method DateSetOf(cell: string) returns (dates: set<string>)
    ensures dates == DateSet(cell)
  {
    var s := Strip(cell);
    if s == "" {
      return {};
    }
    var expanded := ExpandDateRange(s);
    dates := SetOf(expanded);
  }

  /** With no records there is no window. */
  lemma NoRecordsNoWindow()
    ensures CommonWindow([]) == []
  {
  }

  /** A window with no feasible date is empty. */
  lemma {:induction false} EmptyWhenNothingFeasible(records: seq<Record>)
    requires forall x :: !Feasible(records, x)
    ensures CommonWindow(records) == []
  {
    var w := CommonWindow(records);
    if w != [] {
      CommonWindowMembers(records, w[0]);
    }
  }

  /** One participant with blank availability vetoes every date. */
  lemma BlankAvailabilityVetoes(records: seq<Record>, i: nat)
    requires i < |records| && AllSpace(records[i].available)
    ensures CommonWindow(records) == []
  {
    assert AvailableSet(records[i]) == {};
    EmptyWhenNothingFeasible(records);
  }

  /** A date some participant marked not feasible is never in the window. */
  lemma NotFeasibleExcluded(records: seq<Record>, i: nat, x: string)
    requires i < |records| && x in NotFeasibleSet(records[i])
    ensures x !in CommonWindow(records)
  {
    CommonWindowMembers(records, x);
  }

  /** One more participant can only narrow the window: what is left is what
      the others agreed on and the newcomer has free. */
  lemma AddRecordNarrows(records: seq<Record>, r: Record, x: string)
    requires records != []
    ensures x in CommonWindow(records + [r]) <==>
              x in CommonWindow(records) && x in AvailableSet(r) && x !in NotFeasibleSet(r)
  {
    var more := records + [r];
    CommonWindowMembers(more, x);
    CommonWindowMembers(records, x);
    assert more[|records|] == r;
    if Feasible(records, x) && x in AvailableSet(r) && x !in NotFeasibleSet(r) {
      forall i | 0 <= i < |more|
        ensures x in AvailableSet(more[i]) && x !in NotFeasibleSet(more[i])
      {
        if i < |records| { assert more[i] == records[i]; }
      }
    }
    if Feasible(more, x) {
      forall i | 0 <= i < |records|
        ensures x in AvailableSet(records[i]) && x !in NotFeasibleSet(records[i])
      {
        assert more[i] == records[i];
      }
    }
  }

  /** The window depends on who answered, not on the order of the rows or
      on rows that were entered twice. */
  lemma SameRecordsSameWindow(a: seq<Record>, b: seq<Record>)
    requires forall r :: r in a <==> r in b
    ensures CommonWindow(a) == CommonWindow(b)
  {
    forall x
      ensures x in CommonWindow(a) <==> x in CommonWindow(b)
    {
      CommonWindowMembers(a, x);
      CommonWindowMembers(b, x);
      if Feasible(a, x) {
        assert a[0] in b;
        forall j | 0 <= j < |b|
          ensures x in AvailableSet(b[j]) && x !in NotFeasibleSet(b[j])
        {
          assert b[j] in a;
        }
      }
      if Feasible(b, x) {
        assert b[0] in a;
        forall j | 0 <= j < |a|
          ensures x in AvailableSet(a[j]) && x !in NotFeasibleSet(a[j])
        {
          assert a[j] in b;
        }
      }
    }
    SortedUnique(CommonWindow(a), CommonWindow(b));
  }

  /** A cell holding one day range stands for exactly the days of that range. */
  lemma RangeCellDates(cell: string, month: string, first: nat, last: nat, d: nat)
    requires NoneIn(cell, PartSeparators)
    requires MatchesRange(Strip(cell), month, first, last)
    ensures Token(month, d) in DateSet(cell) <==> first <= d <= last
  {
    var s := Strip(cell);
    ParsePartMatches(s, month, first, last);
    assert s != "";
    assert NoneIn(s, PartSeparators) by {
      StripFrom(cell);
    }
    StripStripped(s);
    ExpandOnePart(s);
    RangeMembership(month, first, last, d);
    SetOfMembers(ExpandText(s), Token(month, d));
  }
}
