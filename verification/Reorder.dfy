/** Canonical reordering of combining characters (section 3.11 of the Unicode Standard). */
module Reorder {

  // The combining class of a code point; starters have class 0.
  type ClassOf = nat -> nat

  // ----- the specification -----

  // Put x in front of the first element whose class is not smaller.
  function Insert(cc: ClassOf, x: nat, s: seq<nat>): seq<nat> {
    if s == [] || cc(x) <= cc(s[0]) then [x] + s else [s[0]] + Insert(cc, x, s[1..])
  }

  function StableSort(cc: ClassOf, s: seq<nat>): (r: seq<nat>)
    decreases |s|
  {
    if s == [] then [] else Insert(cc, s[0], StableSort(cc, s[1..]))
  }

  // Length of the run of combining characters at the front of s.
  function RunLength(cc: ClassOf, s: seq<nat>): (n: nat)
    ensures n <= |s|
    ensures forall i :: 0 <= i < n ==> cc(s[i]) != 0
    ensures n < |s| ==> cc(s[n]) == 0
  {
    if s == [] || cc(s[0]) == 0 then 0 else 1 + RunLength(cc, s[1..])
  }

  function Reordered(cc: ClassOf, s: seq<nat>): seq<nat>
    decreases |s|
  {
    if s == [] then []
    else if cc(s[0]) == 0 then [s[0]] + Reordered(cc, s[1..])
    else
      var n := RunLength(cc, s);
      StableSort(cc, s[..n]) + Reordered(cc, s[n..])
  }

  // The elements of class c, in order.
  function OfClass(cc: ClassOf, s: seq<nat>, c: nat): seq<nat> {
    if s == [] then [] else (if cc(s[0]) == c then [s[0]] else []) + OfClass(cc, s[1..], c)
  }

  ghost predicate SortedByClass(cc: ClassOf, s: seq<nat>) {
    forall i, j :: 0 <= i < j < |s| ==> cc(s[i]) <= cc(s[j])
  }

  // ----- what sorting a run does -----

  lemma {:induction false} InsertElements(cc: ClassOf, x: nat, s: seq<nat>)
    ensures |Insert(cc, x, s)| == |s| + 1 && multiset(Insert(cc, x, s)) == multiset(s) + multiset{x}
  {
    if s != [] && cc(x) > cc(s[0]) {
      InsertElements(cc, x, s[1..]);
      assert s == [s[0]] + s[1..];
    }
  }

  lemma {:induction false} InsertAtLeast(cc: ClassOf, x: nat, s: seq<nat>, low: nat)
    requires low <= cc(x) && forall i :: 0 <= i < |s| ==> low <= cc(s[i])
    ensures forall i :: 0 <= i < |Insert(cc, x, s)| ==> low <= cc(Insert(cc, x, s)[i])
  {
    if s != [] && cc(x) > cc(s[0]) {
      InsertAtLeast(cc, x, s[1..], low);
    }
  }

  lemma {:induction false} InsertSorted(cc: ClassOf, x: nat, s: seq<nat>)
    requires SortedByClass(cc, s)
    ensures SortedByClass(cc, Insert(cc, x, s))
  {
    if s != [] && cc(x) > cc(s[0]) {
      InsertSorted(cc, x, s[1..]);
      InsertAtLeast(cc, x, s[1..], cc(s[0]));
    }
  }

  lemma {:induction false} InsertOfClass(cc: ClassOf, x: nat, s: seq<nat>, c: nat)
    ensures OfClass(cc, Insert(cc, x, s), c) == OfClass(cc, [x] + s, c)
  {
    assert ([x] + s)[1..] == s;
    if s != [] && cc(x) > cc(s[0]) {
      InsertOfClass(cc, x, s[1..], c);
      var t := Insert(cc, x, s[1..]);
      assert ([s[0]] + t)[1..] == t && ([x] + s[1..])[1..] == s[1..];
    }
  }

  // Sorting keeps the elements, and within each class their order.
  lemma {:induction false} SortFacts(cc: ClassOf, s: seq<nat>, c: nat)
    ensures var r := StableSort(cc, s);
      && |r| == |s| && SortedByClass(cc, r) && multiset(r) == multiset(s) && OfClass(cc, r, c) == OfClass(cc, s, c)
    decreases |s|
  {
    if s != [] {
      SortFacts(cc, s[1..], c);
      var t := StableSort(cc, s[1..]);
      InsertElements(cc, s[0], t);
      InsertSorted(cc, s[0], t);
      InsertOfClass(cc, s[0], t, c);
      assert s == [s[0]] + s[1..];
      assert ([s[0]] + StableSort(cc, s[1..]))[1..] == StableSort(cc, s[1..]);
    }
  }

  lemma {:induction false} SortSorted(cc: ClassOf, s: seq<nat>)
    requires SortedByClass(cc, s)
    ensures StableSort(cc, s) == s
    decreases |s|
  {
    if s != [] {
      SortSorted(cc, s[1..]);
      assert |s| > 1 ==> cc(s[0]) <= cc(s[1]);
    }
  }

  lemma {:induction false} OfClassConcat(cc: ClassOf, a: seq<nat>, b: seq<nat>, c: nat)
    ensures OfClass(cc, a + b, c) == OfClass(cc, a, c) + OfClass(cc, b, c)
  {
    if a == [] {
      assert a + b == b;
    } else {
      assert (a + b)[1..] == a[1..] + b;
      OfClassConcat(cc, a[1..], b, c);
    }
  }

  // The run stays a run: sorting its members does not make one a starter.
  lemma SortRun(cc: ClassOf, s: seq<nat>)
    requires forall i :: 0 <= i < |s| ==> cc(s[i]) != 0
    ensures |StableSort(cc, s)| == |s| && forall i :: 0 <= i < |s| ==> cc(StableSort(cc, s)[i]) != 0
  {
    var r := StableSort(cc, s);
    SortFacts(cc, s, 0);
    forall i | 0 <= i < |r|
      ensures cc(r[i]) != 0
    {
      assert r[i] in multiset(s);
    }
  }

  lemma {:induction false} RunLengthIs(cc: ClassOf, run: seq<nat>, rest: seq<nat>)
    requires forall i :: 0 <= i < |run| ==> cc(run[i]) != 0
    requires rest == [] || cc(rest[0]) == 0
    ensures RunLength(cc, run + rest) == |run|
    decreases |run|
  {
    if run == [] {
      assert run + rest == rest;
    } else {
      assert (run + rest)[1..] == run[1..] + rest;
      RunLengthIs(cc, run[1..], rest);
    }
  }

  // ----- the properties of the result -----

  // Starters stay in place; combining characters stay between the same starters, each maximal run
  // sorted by class, and characters of one class keep their order.
  ghost predicate Canonical(cc: ClassOf, s: seq<nat>, r: seq<nat>) {
    && |r| == |s| && multiset(r) == multiset(s)
    && (forall i :: 0 <= i < |s| ==> (cc(s[i]) == 0 || cc(r[i]) == 0 ==> r[i] == s[i]))
    && (forall i :: 0 < i < |r| && cc(r[i]) != 0 ==> cc(r[i - 1]) <= cc(r[i]))
    && (forall c :: OfClass(cc, r, c) == OfClass(cc, s, c))
  }

  lemma {:induction false} ReorderedCanonical(cc: ClassOf, s: seq<nat>)
    ensures Canonical(cc, s, Reordered(cc, s))
    decreases |s|
  {
    if s == [] {
    } else if cc(s[0]) == 0 {
      ReorderedCanonical(cc, s[1..]);
      Prefixed(cc, [s[0]], [s[0]], s[1..], Reordered(cc, s[1..]));
      assert s == [s[0]] + s[1..];
    } else {
      var n := RunLength(cc, s);
      var run, rest := s[..n], s[n..];
      assert s == run + rest;
      ReorderedCanonical(cc, rest);
      SortRun(cc, run);
      SortFacts(cc, run, 0);
      forall c: nat
        ensures OfClass(cc, StableSort(cc, run), c) == OfClass(cc, run, c)
      {
        SortFacts(cc, run, c);
      }
      Prefixed(cc, run, StableSort(cc, run), rest, Reordered(cc, rest));
    }
  }

  // A canonical front and a canonical rest that starts with a starter, joined.
  lemma Prefixed(cc: ClassOf, a: seq<nat>, a1: seq<nat>, b: seq<nat>, b1: seq<nat>)
    requires Canonical(cc, a, a1) && Canonical(cc, b, b1)
    requires b != [] ==> cc(b[0]) == 0 || (|a| == 1 && cc(a[0]) == 0)
    ensures Canonical(cc, a + b, a1 + b1)
  {
    var s, r := a + b, a1 + b1;
    forall c: nat
      ensures OfClass(cc, r, c) == OfClass(cc, s, c)
    {
      OfClassConcat(cc, a, b, c);
      OfClassConcat(cc, a1, b1, c);
    }
    forall i | 0 < i < |r| && cc(r[i]) != 0
      ensures cc(r[i - 1]) <= cc(r[i])
    {
      if i == |a1| {
        assert r[i] == b1[0];
      } else if i < |a1| {
        assert a1[i] == r[i] && a1[i - 1] == r[i - 1];
      } else {
        assert b1[i - |a1|] == r[i] && b1[i - |a1| - 1] == r[i - 1];
      }
    }
  }

  // Reordering twice is reordering once.
  lemma {:induction false} Idempotent(cc: ClassOf, s: seq<nat>)
    ensures Reordered(cc, Reordered(cc, s)) == Reordered(cc, s)
    decreases |s|
  {
    if s == [] {
    } else if cc(s[0]) == 0 {
      Idempotent(cc, s[1..]);
      var t := Reordered(cc, s[1..]);
      assert ([s[0]] + t)[1..] == t;
    } else {
      var n := RunLength(cc, s);
      var run, t := StableSort(cc, s[..n]), Reordered(cc, s[n..]);
      Idempotent(cc, s[n..]);
      SortRun(cc, s[..n]);
      SortFacts(cc, s[..n], 0);
      SortSorted(cc, run);
      ReorderedCanonical(cc, s[n..]);
      assert t == [] || cc(t[0]) == 0 by {
        if t != [] {
          assert cc(s[n..][0]) == 0;
        }
      }
      RunLengthIs(cc, run, t);
      assert (run + t)[..n] == run && (run + t)[n..] == t;
    }
  }

  // ----- the algorithm -----

  // A pending combining character: class, code point and position in the run.
  datatype Pending = Pending(cc: nat, cp: nat, pos: nat)

  // _compare_cc
  function Compare(a: Pending, b: Pending): int {
    if a.cc != b.cc then a.cc - b.cc else (if a.pos > b.pos then 1 else 0) - (if a.pos < b.pos then 1 else 0)
  }

  ghost predicate Ascending(s: seq<Pending>) {
    forall i, j :: 0 <= i < j < |s| ==> Compare(s[i], s[j]) < 0
  }

  lemma Antisymmetric(a: Pending, b: Pending)
    ensures !(Compare(a, b) < 0 && Compare(b, a) < 0)
  {
  }

  lemma SameHead(a: seq<Pending>, b: seq<Pending>)
    requires Ascending(a) && Ascending(b) && multiset(a) == multiset(b) && a != []
    ensures b != [] && a[0] == b[0]
  {
    hide Compare;
    assert a[0] in multiset(b);
    var i :| 0 <= i < |b| && b[i] == a[0];
    assert b[0] in multiset(a);
    var j :| 0 <= j < |a| && a[j] == b[0];
    Antisymmetric(a[0], b[0]);
  }

  lemma Tail(a: seq<Pending>)
    requires Ascending(a) && a != []
    ensures Ascending(a[1..]) && multiset(a[1..]) == multiset(a) - multiset{a[0]} && a == [a[0]] + a[1..]
  {
    hide Compare;
    assert a == [a[0]] + a[1..];
  }

  // There is only one way to sort distinct entries, so it does not matter how qsort works.
  lemma {:induction false} SortingUnique(a: seq<Pending>, b: seq<Pending>)
    requires Ascending(a) && Ascending(b) && multiset(a) == multiset(b)
    ensures a == b
    decreases |a|
  {
    hide Ascending;
    assert |a| == |multiset(a)| == |multiset(b)| == |b|;
    if a != [] {
      SameHead(a, b);
      Tail(a);
      Tail(b);
      SortingUnique(a[1..], b[1..]);
    }
  }

  function InsertPending(x: Pending, s: seq<Pending>): seq<Pending> {
    if s == [] || Compare(x, s[0]) < 0 then [x] + s else [s[0]] + InsertPending(x, s[1..])
  }

  lemma {:induction false} InsertPendingElements(x: Pending, s: seq<Pending>)
    ensures multiset(InsertPending(x, s)) == multiset(s) + multiset{x}
  {
    hide Compare;
    if s != [] && Compare(x, s[0]) >= 0 {
      InsertPendingElements(x, s[1..]);
      assert s == [s[0]] + s[1..];
    }
  }

  lemma {:induction false} InsertAfter(low: Pending, x: Pending, s: seq<Pending>)
    requires Compare(low, x) < 0 && forall i :: 0 <= i < |s| ==> Compare(low, s[i]) < 0
    ensures forall i :: 0 <= i < |InsertPending(x, s)| ==> Compare(low, InsertPending(x, s)[i]) < 0
  {
    hide Compare;
    if s != [] && Compare(x, s[0]) >= 0 {
      InsertAfter(low, x, s[1..]);
    }
  }

  lemma Transitive(a: Pending, b: Pending, c: Pending)
    ensures Compare(a, b) < 0 && Compare(b, c) < 0 ==> Compare(a, c) < 0
    ensures a.pos != b.pos && Compare(a, b) >= 0 ==> Compare(b, a) < 0
  {
  }

  lemma {:induction false} InsertAscending(x: Pending, s: seq<Pending>)
    requires Ascending(s) && forall i :: 0 <= i < |s| ==> s[i].pos != x.pos
    ensures Ascending(InsertPending(x, s))
    decreases |s|
  {
    hide Compare;
    if s != [] {
      Transitive(x, s[0], x);
      if Compare(x, s[0]) >= 0 {
        InsertAscending(x, s[1..]);
        InsertAfter(s[0], x, s[1..]);
      } else {
        forall i | 0 < i < |s|
          ensures Compare(x, s[i]) < 0
        {
          Transitive(x, s[0], s[i]);
        }
      }
    }
  }

  // qsort, by insertion.
  method Sort(s: seq<Pending>) returns (r: seq<Pending>)
    requires forall i, j :: 0 <= i < j < |s| ==> s[i].pos != s[j].pos
    ensures Ascending(r) && multiset(r) == multiset(s)
  {
    r := [];
    for i := 0 to |s|
      invariant Ascending(r) && multiset(r) == multiset(s[..i])
    {
      assert s[..i + 1] == s[..i] + [s[i]];
      forall k | 0 <= k < |r|
        ensures r[k].pos != s[i].pos
      {
        assert r[k] in multiset(s[..i]);
      }
      InsertAscending(s[i], r);
      InsertPendingElements(s[i], r);
      r := InsertPending(s[i], r);
    }
    assert s[..|s|] == s;
  }

  function CodePoints(s: seq<Pending>): seq<nat> { seq(|s|, i requires 0 <= i < |s| => s[i].cp) }

  // The entries of a run in the order of the specification.
  function SpecOrder(s: seq<Pending>): seq<Pending>
    decreases |s|
  {
    if s == [] then [] else InsertPending(s[0], SpecOrder(s[1..]))
  }

  ghost predicate Collected(cc: ClassOf, s: seq<Pending>) {
    && (forall i :: 0 <= i < |s| ==> s[i].cc == cc(s[i].cp))
    && (forall i, j :: 0 <= i < j < |s| ==> s[i].pos < s[j].pos)
  }

  lemma {:induction false} SpecOrderElements(s: seq<Pending>)
    ensures multiset(SpecOrder(s)) == multiset(s)
    decreases |s|
  {
    if s != [] {
      SpecOrderElements(s[1..]);
      InsertPendingElements(s[0], SpecOrder(s[1..]));
      assert s == [s[0]] + s[1..];
    }
  }

  // What holds of all entries holds of them in any order.
  lemma SpecOrderMembers(cc: ClassOf, s: seq<Pending>)
    requires Collected(cc, s) && s != []
    ensures forall i :: 0 <= i < |SpecOrder(s[1..])| ==>
      SpecOrder(s[1..])[i].pos > s[0].pos && SpecOrder(s[1..])[i].cc == cc(SpecOrder(s[1..])[i].cp)
  {
    var t := SpecOrder(s[1..]);
    SpecOrderElements(s[1..]);
    forall i | 0 <= i < |t|
      ensures t[i].pos > s[0].pos && t[i].cc == cc(t[i].cp)
    {
      assert t[i] in multiset(s[1..]);
      var j :| 0 <= j < |s[1..]| && s[1..][j] == t[i];
      assert s[j + 1] == t[i];
    }
  }

  lemma {:induction false} SpecOrderSorts(cc: ClassOf, s: seq<Pending>)
    requires Collected(cc, s)
    ensures Ascending(SpecOrder(s)) && multiset(SpecOrder(s)) == multiset(s)
    ensures CodePoints(SpecOrder(s)) == StableSort(cc, CodePoints(s))
    decreases |s|
  {
    hide Compare;
    SpecOrderElements(s);
    if s != [] {
      SpecOrderSorts(cc, s[1..]);
      SpecOrderMembers(cc, s);
      InsertAscending(s[0], SpecOrder(s[1..]));
      SameInsertion(cc, s[0], SpecOrder(s[1..]));
      assert CodePoints(s)[1..] == CodePoints(s[1..]);
    }
  }

  // With the lowest position, insertion by (class, position) is insertion before equal classes.
  lemma {:induction false} SameInsertion(cc: ClassOf, x: Pending, t: seq<Pending>)
    requires x.cc == cc(x.cp) && forall i :: 0 <= i < |t| ==> t[i].pos > x.pos && t[i].cc == cc(t[i].cp)
    ensures CodePoints(InsertPending(x, t)) == Insert(cc, x.cp, CodePoints(t))
    decreases |t|
  {
    if t != [] {
      assert CodePoints(t)[1..] == CodePoints(t[1..]);
      if Compare(x, t[0]) >= 0 {
        SameInsertion(cc, x, t[1..]);
      }
    }
  }

  // Flush a run: its code points, sorted.
  method Flush(cc: ClassOf, run: seq<Pending>) returns (out: seq<nat>)
    requires Collected(cc, run)
    ensures out == StableSort(cc, CodePoints(run))
  {
    var sorted := run;
    if |run| > 1 {
      sorted := Sort(run);
      SpecOrderSorts(cc, run);
      SortingUnique(sorted, SpecOrder(run));
    } else {
      SpecOrderSorts(cc, run);
      SortingUnique(run, SpecOrder(run));
    }
    out := [];
    for i := 0 to |sorted|
      invariant out == CodePoints(sorted[..i])
    {
      out := out + [sorted[i].cp];
      assert CodePoints(sorted[..i + 1]) == CodePoints(sorted[..i]) + [sorted[i].cp];
    }
    assert sorted[..|sorted|] == sorted;
  }

  // ----- collecting and flushing runs -----

  lemma NoCodePoints(s: seq<nat>)
    ensures CodePoints([]) == [] && CodePoints([]) + s == s && s[0..] == s
  {
  }

  lemma NoneReordered(cc: ClassOf)
    ensures Reordered(cc, []) == []
  {
  }

  lemma OneMore(run: seq<Pending>, x: Pending, rest: seq<nat>)
    ensures CodePoints(run + [x]) + rest == CodePoints(run) + ([x.cp] + rest)
  {
  }

  lemma StarterFirst(cc: ClassOf, cp: nat, rest: seq<nat>)
    requires cc(cp) == 0
    ensures Reordered(cc, [cp] + rest) == [cp] + Reordered(cc, rest)
  {
    assert ([cp] + rest)[1..] == rest;
  }

  // A run in front of a starter or the end is sorted on its own.
  lemma RunFirst(cc: ClassOf, pending: seq<Pending>, rest: seq<nat>)
    requires Collected(cc, pending) && (forall i :: 0 <= i < |pending| ==> pending[i].cc != 0)
    requires rest == [] || cc(rest[0]) == 0
    ensures Reordered(cc, CodePoints(pending) + rest) == StableSort(cc, CodePoints(pending)) + Reordered(cc, rest)
  {
    var run := CodePoints(pending);
    if run == [] {
      assert run + rest == rest;
    } else {
      RunLengthIs(cc, run, rest);
      assert (run + rest)[..|run|] == run && (run + rest)[|run|..] == rest;
    }
  }
}
