/** The destination tally of `generate_group_pdf_itinerary` (bot.py:323-328)
    and the popularity order of `most_common()` (bot.py:346). A `Counter` is a
    multiset together with the order in which its keys were first inserted. */
module Tally {
  import opened Text
  import opened Sheet
  import opened Optional

  /** The trimmed, non-blank comma-separated entries of one record's
      selected destinations. */
  function Entries(selected: string): (entries: seq<string>)
    ensures forall i :: 0 <= i < |entries| ==> entries[i] != [] && IsStripped(entries[i])
  {
    NonBlankTrimmed(SplitOn(selected, {','}));
    NonBlank(SplitOn(selected, {','}))
  }

  /** Every entry of every record, record after record. */
  function AllEntries(records: seq<Record>): seq<string> {
    if records == [] then []
    else AllEntries(records[..|records| - 1]) + Entries(records[|records| - 1].selected)
  }

  /** No entry is blank or carries surrounding whitespace. */
  predicate Trimmed(xs: seq<string>) {
    forall i :: 0 <= i < |xs| ==> xs[i] != [] && IsStripped(xs[i])
  }

  lemma {:induction false} AllEntriesTrimmed(records: seq<Record>)
    ensures Trimmed(AllEntries(records))
  {
    if records != [] {
      var front := AllEntries(records[..|records| - 1]);
      var last := Entries(records[|records| - 1].selected);
      AllEntriesTrimmed(records[..|records| - 1]);
      TrimmedAppend(front, last);
    }
  }

  lemma TrimmedAppend(a: seq<string>, b: seq<string>)
    requires Trimmed(a) && Trimmed(b)
    ensures Trimmed(a + b)
  {
    forall i | 0 <= i < |a + b| ensures (a + b)[i] != [] && IsStripped((a + b)[i]) {
      if i < |a| {
        assert (a + b)[i] == a[i];
      } else {
        assert (a + b)[i] == b[i - |a|];
      }
    }
  }

  /** The keys of a `Counter` filled from `xs`: each name once, in the order
      of its first occurrence. */
  function Distinct(xs: seq<string>): (r: seq<string>)
    ensures forall x :: x in r <==> x in xs
    ensures forall i, j :: 0 <= i < j < |r| ==> r[i] != r[j]
  {
    if xs == [] then []
    else
      var r := Distinct(xs[..|xs| - 1]);
      var x := xs[|xs| - 1];
      assert xs == xs[..|xs| - 1] + [x];
      if x in r then r else r + [x]
  }

  /** Where `x` first occurs in `xs`. */
  function FirstIndex(xs: seq<string>, x: string): (k: nat)
    requires x in xs
    ensures k < |xs| && xs[k] == x && x !in xs[..k]
  {
    if xs[0] == x then 0
    else
      var k := FirstIndex(xs[1..], x);
      assert xs[..k + 1] == [xs[0]] + xs[1..][..k];
      k + 1
  }

  /** The first occurrence is the only index that is one. */
  lemma FirstIndexUnique(xs: seq<string>, x: string, k: nat)
    requires k < |xs| && xs[k] == x && x !in xs[..k]
    ensures FirstIndex(xs, x) == k
  {
    var f := FirstIndex(xs, x);
    forall t | 0 <= t < k ensures xs[t] != x {
      assert xs[..k][t] == xs[t] && xs[..k][t] in xs[..k];
    }
    forall t | 0 <= t < f ensures xs[t] != x {
      assert xs[..f][t] == xs[t] && xs[..f][t] in xs[..f];
    }
  }

  /** Appending does not move a first occurrence that is already there. */
  lemma FirstIndexAppend(xs: seq<string>, ys: seq<string>, x: string)
    requires x in xs
    ensures FirstIndex(xs + ys, x) == FirstIndex(xs, x)
  {
    var k := FirstIndex(xs, x);
    assert (xs + ys)[..k] == xs[..k];
    FirstIndexUnique(xs + ys, x, k);
  }

  /** The keys of the counter come in the order of their first occurrence. */
  lemma {:induction false} DistinctFirstSeen(xs: seq<string>, i: nat, j: nat)
    requires i < j < |Distinct(xs)|
    ensures FirstIndex(xs, Distinct(xs)[i]) < FirstIndex(xs, Distinct(xs)[j])
  {
    var r := Distinct(xs);
    var ys, x := xs[..|xs| - 1], xs[|xs| - 1];
    assert xs == ys + [x];
    var q := Distinct(ys);
    assert r[i] in xs && r[j] in xs;
    if x in q {
      DistinctFirstSeen(ys, i, j);
      FirstIndexAppend(ys, [x], r[i]);
      FirstIndexAppend(ys, [x], r[j]);
    } else if j < |q| {
      DistinctFirstSeen(ys, i, j);
      assert r[i] == q[i] && r[j] == q[j];
      assert q[i] in q && q[j] in q;
      FirstIndexAppend(ys, [x], r[i]);
      FirstIndexAppend(ys, [x], r[j]);
    } else {
      assert r[j] == x && r[i] == q[i];
      assert q[i] in q;
      FirstIndexAppend(ys, [x], r[i]);
      assert x !in xs[..|ys|] by { assert xs[..|ys|] == ys; }
      FirstIndexUnique(xs, x, |ys|);
    }
  }

  /** Counting one more entry adds a key only when the name is new. */
  lemma DistinctSnoc(xs: seq<string>, x: string)
    ensures Distinct(xs + [x]) == if x in xs then Distinct(xs) else Distinct(xs) + [x]
  {
    assert (xs + [x])[..|xs|] == xs;
  }

  /** The keys after inserting each of `xs` in turn into a counter whose keys are `names`. */
  function AddNames(names: seq<string>, xs: seq<string>): seq<string>
    decreases |xs|
  {
    if xs == [] then names
    else AddNames(if xs[0] in names then names else names + [xs[0]], xs[1..])
  }

  /** Inserting more entries into a counter filled from `seen` gives the
      counter filled from all of them. */
  lemma {:induction false} AddNamesDistinct(seen: seq<string>, xs: seq<string>)
    ensures AddNames(Distinct(seen), xs) == Distinct(seen + xs)
    decreases |xs|
  {
    if xs == [] {
      assert seen + xs == seen;
    } else {
      DistinctSnoc(seen, xs[0]);
      AddNamesDistinct(seen + [xs[0]], xs[1..]);
      MoveFirst(seen, xs);
    }
  }

  lemma MoveFirst(seen: seq<string>, xs: seq<string>)
    requires xs != []
    ensures (seen + [xs[0]]) + xs[1..] == seen + xs
  {
    assert xs == [xs[0]] + xs[1..];
  }

  /** The tally loop: the count of an entry goes up by one for each of its
      occurrences in every record. */
  method CountDestinations(records: seq<Record>) returns (names: seq<string>, counts: multiset<string>)
    ensures names == Distinct(AllEntries(records))
    ensures counts == multiset(AllEntries(records))
  {
    names, counts := [], multiset{};
    for i := 0 to |records|
      invariant names == Distinct(AllEntries(records[..i]))
      invariant counts == multiset(AllEntries(records[..i]))
    {
      ghost var seen := AllEntries(records[..i]);
      var entries := Entries(records[i].selected);
      assert records[..i + 1][..i] == records[..i];
      assert AllEntries(records[..i + 1]) == seen + entries;
      AddNamesDistinct(seen, entries);
      names, counts := CountEntries(names, counts, entries);
    }
    assert records[..|records|] == records;
  }

  /** The inner loop over one record's entries. */
  method CountEntries(names0: seq<string>, counts0: multiset<string>, entries: seq<string>)
    returns (names: seq<string>, counts: multiset<string>)
    requires forall x :: x in names0 <==> x in counts0
    ensures names == AddNames(names0, entries) && counts == counts0 + multiset(entries)
  {
    names, counts := names0, counts0;
    for j := 0 to |entries|
      invariant forall x :: x in names <==> x in counts
      invariant AddNames(names, entries[j..]) == AddNames(names0, entries)
      invariant counts + multiset(entries[j..]) == counts0 + multiset(entries)
    {
      var d := entries[j];
      assert entries[j..] == [d] + entries[j + 1..];
      if d !in counts {
        names := names + [d];
      }
      counts := counts[d := counts[d] + 1];
    }
  }

  /** What `max()` over the counter's items by count picks: the index of the
      first name with the largest count. */
  function TopIndex(names: seq<string>, counts: multiset<string>): (k: nat)
    requires names != []
    ensures k < |names|
    ensures forall i :: 0 <= i < |names| ==> counts[names[i]] <= counts[names[k]]
    ensures forall i :: 0 <= i < k ==> counts[names[i]] < counts[names[k]]
  {
    if |names| == 1 then 0
    else
      var k := TopIndex(names[..|names| - 1], counts);
      assert forall i :: 0 <= i < |names| - 1 ==> names[..|names| - 1][i] == names[i];
      if counts[names[|names| - 1]] > counts[names[k]] then |names| - 1 else k
  }

  /** The top pick: the first key of `most_common(1)` when the counter is not empty. */
  function BestDestination(records: seq<Record>): Option<string> {
    var entries := AllEntries(records);
    var names := Distinct(entries);
    if names == [] then None else Some(names[TopIndex(names, multiset(entries))])
  }

  /** The tally followed by the pick of the top name. */
  method PickBestDestination(records: seq<Record>) returns (best: Option<string>)
    ensures best == BestDestination(records)
  {
    var names, counts := CountDestinations(records);
    best := None;
    if |counts| > 0 {
      best := Some(names[TopIndex(names, counts)]);
    }
  }

  /** The top pick exists exactly when some record selected something; it is
      a selected name with the largest count, and among names with that count
      it is the one selected first. */
  lemma BestDestinationIsMostCommon(records: seq<Record>)
    ensures BestDestination(records).None? <==> AllEntries(records) == []
    ensures BestDestination(records).Some? ==>
              var entries, best := AllEntries(records), BestDestination(records).value;
              best in entries &&
              (forall d :: d in entries ==> multiset(entries)[d] <= multiset(entries)[best]) &&
              (forall d :: d in entries && multiset(entries)[d] == multiset(entries)[best] ==>
                 FirstIndex(entries, best) <= FirstIndex(entries, d))
  {
    var entries := AllEntries(records);
    if entries != [] {
      var names := Distinct(entries);
      assert entries[0] in names;
      var best := names[TopIndex(names, multiset(entries))];
      assert best in names;
      forall d | d in entries
        ensures multiset(entries)[d] <= multiset(entries)[best]
        ensures multiset(entries)[d] == multiset(entries)[best] ==> FirstIndex(entries, best) <= FirstIndex(entries, d)
      {
        TopBeats(entries, d);
      }
    }
  }

  /** The top pick is counted at least as often as any entry, and it was
      selected no later than any entry counted as often. */
  lemma TopBeats(entries: seq<string>, d: string)
    requires d in entries
    ensures var names := Distinct(entries);
            names != [] &&
            var best := names[TopIndex(names, multiset(entries))];
            best in entries &&
            multiset(entries)[d] <= multiset(entries)[best] &&
            (multiset(entries)[d] == multiset(entries)[best] ==> FirstIndex(entries, best) <= FirstIndex(entries, d))
  {
    var names := Distinct(entries);
    var k := TopIndex(names, multiset(entries));
    assert names[k] in names;
    assert d in names;
    var i := FirstIndex(names, d);
    if k < i {
      DistinctFirstSeen(entries, k, i);
    } else if i < k {
      assert multiset(entries)[d] < multiset(entries)[names[k]];
    } else {
      assert names[k] == d;
    }
  }

  /** The counter's counts, added up over its keys. */
  function SumOf(names: seq<string>, counts: multiset<string>): nat {
    if names == [] then 0 else SumOf(names[..|names| - 1], counts) + counts[names[|names| - 1]]
  }

  /** Every counted entry is counted once: the counts add up to the number of entries. */
  lemma {:induction false} CountsAddUp(xs: seq<string>)
    ensures SumOf(Distinct(xs), multiset(xs)) == |xs|
  {
    if xs != [] {
      var ys, x := xs[..|xs| - 1], xs[|xs| - 1];
      assert xs == ys + [x];
      CountsAddUp(ys);
      var names := Distinct(ys);
      SumBump(names, multiset(ys), x);
      if x !in ys {
        assert Distinct(xs) == names + [x];
        assert (names + [x])[..|names|] == names;
      }
    }
  }

  /** One more occurrence of `x` adds one to the sum when `x` is a key, and nothing otherwise. */
  lemma {:induction false} SumBump(names: seq<string>, counts: multiset<string>, x: string)
    requires forall i, j :: 0 <= i < j < |names| ==> names[i] != names[j]
    ensures SumOf(names, counts + multiset{x}) == SumOf(names, counts) + if x in names then 1 else 0
  {
    if names != [] {
      var front := names[..|names| - 1];
      assert forall i :: 0 <= i < |front| ==> front[i] == names[i];
      SumBump(front, counts, x);
      assert names == front + [names[|names| - 1]];
    }
  }

  /** A record listing the same place twice adds two to its count: the tally
      counts occurrences, not records. */
  lemma RepeatedChoiceCountsTwice(selected: string)
    requires selected == "Ooty, Ooty"
    ensures multiset(AllEntries([Record("", "", selected)]))["Ooty"] == 2
  {
    var recs := [Record("", "", selected)];
    RepeatedChoiceEntries(selected);
    assert recs[..0] == [];
    assert AllEntries(recs) == [] + ["Ooty", "Ooty"];
  }

  lemma RepeatedChoiceEntries(selected: string)
    requires selected == "Ooty, Ooty"
    ensures Entries(selected) == ["Ooty", "Ooty"]
  {
    var names := ["Ooty", "Ooty"];
    assert IsStripped("Ooty") && NoneIn("Ooty", {','});
    CommaListReadBack(names);
    assert names[..1] == ["Ooty"];
    assert Join(names, ", ") == selected;
  }

  /** Inserts `x` behind every name whose count is at least `x`'s: one step
      of a stable sort by descending count. */
  function InsertByCount(r: seq<string>, x: string, counts: multiset<string>): (q: seq<string>)
    ensures multiset(q) == multiset(r) + multiset{x}
  {
    if r == [] then [x]
    else if counts[r[0]] < counts[x] then [x] + r
    else
      var q := [r[0]] + InsertByCount(r[1..], x, counts);
      assert r == [r[0]] + r[1..];
      q
  }

  /** The keys in the order of `most_common()`: sorted by
      descending count, keys with equal counts kept in insertion order. */
  function Ranking(names: seq<string>, counts: multiset<string>): (r: seq<string>)
    ensures multiset(r) == multiset(names)
  {
    if names == [] then []
    else
      var front := names[..|names| - 1];
      assert names == front + [names[|names| - 1]];
      InsertByCount(Ranking(front, counts), names[|names| - 1], counts)
  }

  /** No count increases along the sequence. */
  predicate Descending(r: seq<string>, counts: multiset<string>) {
    forall i, j :: 0 <= i < j < |r| ==> counts[r[i]] >= counts[r[j]]
  }

  /** The names of `r` whose count is `c`, in their order in `r`. */
  function WithCount(r: seq<string>, counts: multiset<string>, c: nat): seq<string> {
    if r == [] then []
    else (if counts[r[0]] == c then [r[0]] else []) + WithCount(r[1..], counts, c)
  }

  lemma {:induction false} InsertKeepsDescending(r: seq<string>, x: string, counts: multiset<string>)
    requires Descending(r, counts)
    ensures Descending(InsertByCount(r, x, counts), counts)
  {
    if r != [] && counts[r[0]] >= counts[x] {
      var tail := r[1..];
      DescendingTail(r, counts);
      InsertKeepsDescending(tail, x, counts);
      var q := InsertByCount(tail, x, counts);
      forall y | y in q ensures counts[r[0]] >= counts[y] {
        assert y in multiset(q);
        if y != x {
          assert y in multiset(tail);
          HeadBound(r, counts, y);
        }
      }
      DescendingCons(r[0], q, counts);
    } else if r != [] {
      forall y | y in r ensures counts[x] >= counts[y] {
        if y != r[0] {
          assert r == [r[0]] + r[1..];
          HeadBound(r, counts, y);
        }
      }
      DescendingCons(x, r, counts);
    }
  }

  /** Dropping the first name keeps the order descending. */
  lemma DescendingTail(r: seq<string>, counts: multiset<string>)
    requires r != [] && Descending(r, counts)
    ensures Descending(r[1..], counts)
  {
    var tail := r[1..];
    forall i, j | 0 <= i < j < |tail| ensures counts[tail[i]] >= counts[tail[j]] {
      assert tail[i] == r[i + 1] && tail[j] == r[j + 1];
    }
  }

  /** The first name of a descending order has the largest count. */
  lemma HeadBound(r: seq<string>, counts: multiset<string>, y: string)
    requires r != [] && Descending(r, counts) && y in r[1..]
    ensures counts[r[0]] >= counts[y]
  {
    var k :| 0 <= k < |r| - 1 && r[1..][k] == y;
    assert r[k + 1] == y;
  }

  /** A name counted at least as often as every name of a descending order
      can go in front of it. */
  lemma DescendingCons(h: string, q: seq<string>, counts: multiset<string>)
    requires Descending(q, counts)
    requires forall y :: y in q ==> counts[h] >= counts[y]
    ensures Descending([h] + q, counts)
  {
    var p := [h] + q;
    forall i, j | 0 <= i < j < |p| ensures counts[p[i]] >= counts[p[j]] {
      if i == 0 {
        assert p[j] == q[j - 1] && p[j] in q;
      } else {
        assert p[i] == q[i - 1] && p[j] == q[j - 1];
      }
    }
  }

  /** The popularity order never puts a less selected name before a more selected one. */
  lemma {:induction false} RankingDescending(names: seq<string>, counts: multiset<string>)
    ensures Descending(Ranking(names, counts), counts)
  {
    if names != [] {
      RankingDescending(names[..|names| - 1], counts);
      InsertKeepsDescending(Ranking(names[..|names| - 1], counts), names[|names| - 1], counts);
    }
  }

  lemma {:induction false} WithCountAppend(a: seq<string>, b: seq<string>, counts: multiset<string>, c: nat)
    ensures WithCount(a + b, counts, c) == WithCount(a, counts, c) + WithCount(b, counts, c)
  {
    if a != [] {
      WithCountAppend(a[1..], b, counts, c);
      assert (a + b)[1..] == a[1..] + b;
    } else {
      assert a + b == b;
    }
  }

  lemma {:induction false} WithCountNone(r: seq<string>, counts: multiset<string>, c: nat)
    requires forall i :: 0 <= i < |r| ==> counts[r[i]] < c
    ensures WithCount(r, counts, c) == []
  {
    if r != [] {
      WithCountNone(r[1..], counts, c);
    }
  }

  /** Inserting `x` puts it behind every name with the same count. */
  lemma {:induction false} InsertWithCount(r: seq<string>, x: string, counts: multiset<string>, c: nat)
    requires Descending(r, counts)
    ensures WithCount(InsertByCount(r, x, counts), counts, c)
            == WithCount(r, counts, c) + (if counts[x] == c then [x] else [])
  {
    if r == [] {
    } else if counts[r[0]] < counts[x] {
      if counts[x] == c {
        WithCountNone(r, counts, c);
      }
    } else {
      var tail := r[1..];
      DescendingTail(r, counts);
      InsertWithCount(tail, x, counts, c);
      assert ([r[0]] + InsertByCount(tail, x, counts))[1..] == InsertByCount(tail, x, counts);
    }
  }

  lemma SplitLast(xs: seq<string>)
    requires xs != []
    ensures xs == xs[..|xs| - 1] + [xs[|xs| - 1]]
  {
  }

  /** `most_common()` sorts stably: names with the same count keep the
      order in which they were first selected. */
  lemma {:induction false} RankingStable(names: seq<string>, counts: multiset<string>, c: nat)
    ensures WithCount(Ranking(names, counts), counts, c) == WithCount(names, counts, c)
  {
    if names != [] {
      var front, x := names[..|names| - 1], names[|names| - 1];
      var r := Ranking(front, counts);
      assert Ranking(names, counts) == InsertByCount(r, x, counts);
      RankingStable(front, counts, c);
      RankingDescending(front, counts);
      InsertWithCount(r, x, counts, c);
      SplitLast(names);
      WithCountAppend(front, [x], counts, c);
      assert WithCount([x], counts, c) == if counts[x] == c then [x] else [] by {
        assert [x][1..] == [];
      }
    }
  }

  /** The first name of the popularity order is the top pick `max()` makes. */
  lemma {:induction false} RankingHead(names: seq<string>, counts: multiset<string>)
    requires names != []
    ensures Ranking(names, counts) != [] && Ranking(names, counts)[0] == names[TopIndex(names, counts)]
  {
    var front, x := names[..|names| - 1], names[|names| - 1];
    if front != [] {
      RankingHead(front, counts);
      assert front[TopIndex(front, counts)] == names[TopIndex(front, counts)];
    }
  }

  /** The single top pick of `most_common(1)` heads the list `most_common()` gives. */
  lemma BestHeadsRanking(records: seq<Record>)
    requires AllEntries(records) != []
    ensures var entries := AllEntries(records);
            BestDestination(records) == Some(Ranking(Distinct(entries), multiset(entries))[0])
  {
    var entries := AllEntries(records);
    assert entries[0] in Distinct(entries);
    RankingHead(Distinct(entries), multiset(entries));
  }

  /** The destinations in the order the itinerary prompt lists them. */
  function PopularityOrder(records: seq<Record>): seq<string> {
    var entries := AllEntries(records);
    Ranking(Distinct(entries), multiset(entries))
  }

  /** The popularity order lists every selected destination once, never puts
      a less selected one first, and keeps equally selected ones in the order
      they were first selected. */
  lemma PopularityOrderSpec(records: seq<Record>, c: nat)
    ensures var entries, order := AllEntries(records), PopularityOrder(records);
            multiset(order) == multiset(Distinct(entries)) &&
            Descending(order, multiset(entries)) &&
            WithCount(order, multiset(entries), c) == WithCount(Distinct(entries), multiset(entries), c)
  {
    var entries := AllEntries(records);
    RankingDescending(Distinct(entries), multiset(entries));
    RankingStable(Distinct(entries), multiset(entries), c);
  }
}
