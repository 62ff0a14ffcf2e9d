/** Python's ordering of `str` values (code point by code point, a proper
    prefix first) and `sorted()` of a set of strings. */
module Order {

  /** `a < b` on Python strings. */
  predicate Less(a: string, b: string) {
    if a == [] then b != []
    else if b == [] then false
    else a[0] < b[0] || (a[0] == b[0] && Less(a[1..], b[1..]))
  }

  lemma {:induction false} LessIrreflexive(a: string)
    ensures !Less(a, a)
  {
    if a != [] {
      LessIrreflexive(a[1..]);
    }
  }

  lemma {:induction false} LessAsymmetric(a: string, b: string)
    ensures !(Less(a, b) && Less(b, a))
  {
    if a != [] && b != [] && a[0] == b[0] {
      LessAsymmetric(a[1..], b[1..]);
    }
  }

  lemma {:induction false} LessTransitive(a: string, b: string, c: string)
    requires Less(a, b) && Less(b, c)
    ensures Less(a, c)
  {
    if a != [] && a[0] == b[0] && b[0] == c[0] {
      LessTransitive(a[1..], b[1..], c[1..]);
    }
  }

  lemma {:induction false} LessTotal(a: string, b: string)
    ensures a == b || Less(a, b) || Less(b, a)
  {
    if a != [] && b != [] && a[0] == b[0] {
      LessTotal(a[1..], b[1..]);
      if a[1..] == b[1..] {
        assert a == [a[0]] + a[1..] && b == [b[0]] + b[1..];
      }
    }
  }

  /** The order is on characters, not on calendar days: "Dec 10" sorts
      before "Dec 9". */
  lemma LexicographicNotChronological()
    ensures Less("Dec 10", "Dec 9") && !Less("Dec 9", "Dec 10")
  {
    assert "Dec 10"[1..] == "ec 10" && "Dec 9"[1..] == "ec 9";
    assert "ec 10"[1..] == "c 10" && "ec 9"[1..] == "c 9";
    assert "c 10"[1..] == " 10" && "c 9"[1..] == " 9";
    assert " 10"[1..] == "10" && " 9"[1..] == "9";
  }

  /** Strictly ascending, hence free of duplicates. */
  predicate StrictlySorted(r: seq<string>) {
    forall i, j :: 0 <= i < j < |r| ==> Less(r[i], r[j])
  }

  predicate IsLeast(m: string, s: set<string>) {
    m in s && forall y :: y in s && y != m ==> Less(m, y)
  }

  lemma {:induction false} LeastExists(s: set<string>)
    requires s != {}
    ensures exists m :: IsLeast(m, s)
    decreases |s|
  {
    var x :| x in s;
    if s == {x} {
      assert IsLeast(x, s);
    } else {
      var rest := s - {x};
      LeastExists(rest);
      var m :| IsLeast(m, rest);
      LessTotal(x, m);
      if Less(x, m) {
        forall y | y in s && y != x
          ensures Less(x, y)
        {
          if y != m {
            LessTransitive(x, m, y);
          }
        }
        assert IsLeast(x, s);
      } else {
        assert IsLeast(m, s);
      }
    }
  }

  lemma LeastUnique(s: set<string>)
    ensures forall a, b :: IsLeast(a, s) && IsLeast(b, s) ==> a == b
  {
    forall a, b | IsLeast(a, s) && IsLeast(b, s)
      ensures a == b
    {
      LessAsymmetric(a, b);
    }
  }

  /** `sorted(s)` for a set of strings. */
  function SortedSet(s: set<string>): (r: seq<string>)
    ensures StrictlySorted(r)
    ensures forall x :: x in r <==> x in s
    decreases |s|
  {
    if s == {} then []
    else
      LeastExists(s);
      LeastUnique(s);
      var m :| IsLeast(m, s);
      var rest := SortedSet(s - {m});
      assert forall j :: 0 <= j < |rest| ==> rest[j] in s - {m};
      [m] + rest
  }

  /** A strictly sorted sequence is determined by its elements: whatever
      produces a strictly sorted list of a set produces `sorted(s)`. */
  lemma {:induction false} SortedUnique(r1: seq<string>, r2: seq<string>)
    requires StrictlySorted(r1) && StrictlySorted(r2)
    requires forall x :: x in r1 <==> x in r2
    ensures r1 == r2
  {
    if r1 != [] { assert r1[0] in r1; }
    if r2 != [] { assert r2[0] in r2; }
    if r1 != [] && r2 != [] {
      var a, b := r1[0], r2[0];
      if a != b {
        assert b in r1;
        assert a in r2;
        var i :| 0 <= i < |r1| && r1[i] == b;
        var j :| 0 <= j < |r2| && r2[j] == a;
        LessAsymmetric(a, b);
      }
      forall x
        ensures x in r1[1..] <==> x in r2[1..]
      {
        if x in r1[1..] {
          var i :| 0 <= i < |r1| - 1 && r1[1..][i] == x;
          assert Less(a, x) by { assert r1[i + 1] == x; }
          LessIrreflexive(a);
          assert r1[i + 1] in r1;
          assert x in r2;
          var j :| 0 <= j < |r2| && r2[j] == x;
          assert j != 0;
          assert r2[1..][j - 1] == x;
        }
        if x in r2[1..] {
          var j :| 0 <= j < |r2| - 1 && r2[1..][j] == x;
          assert Less(a, x) by { assert r2[j + 1] == x; }
          LessIrreflexive(a);
          assert r2[j + 1] in r2;
          assert x in r1;
          var i :| 0 <= i < |r1| && r1[i] == x;
          assert i != 0;
          assert r1[1..][i - 1] == x;
        }
      }
      SortedUnique(r1[1..], r2[1..]);
    }
  }
}
