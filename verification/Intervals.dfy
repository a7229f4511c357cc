/** The values behind lib/nbbfi.c: sorted lists of line segments, and what they mean.
    A segment covers the integers from its start up to but not including its end. */
module Intervals {

  datatype Interval = Interval(start: int, end: int) {
    predicate Has(p: int) {
      start <= p < end
    }

    predicate Meets(t: Interval) {
      start < t.end && t.start < end
    }
  }

  predicate Before(s: Interval, t: Interval) {
    s.start < t.start || (s.start == t.start && s.end < t.end)
  }

  predicate Sorted(segs: seq<Interval>) {
    forall i, j :: 0 <= i < j < |segs| ==> !Before(segs[j], segs[i])
  }

  /** No segment is empty. */
  predicate Proper(segs: seq<Interval>) {
    forall i :: 0 <= i < |segs| ==> segs[i].start < segs[i].end
  }

  /** The point `p` is true. */
  ghost predicate Covers(segs: seq<Interval>, p: int) {
    exists i :: 0 <= i < |segs| && segs[i].Has(p)
  }

  /** The normal form: proper segments with a gap between any two. */
  predicate Normal(segs: seq<Interval>) {
    && Proper(segs)
    && forall i, j :: 0 <= i < j < |segs| ==> segs[i].end < segs[j].start
  }

  function Last(segs: seq<Interval>): Interval
    requires segs != []
  {
    segs[|segs| - 1]
  }

  function Init(segs: seq<Interval>): seq<Interval>
    requires segs != []
  {
    segs[..|segs| - 1]
  }

  // -------------------------------------------------------------------------------------------
  // Ordered insertion
  // -------------------------------------------------------------------------------------------

  /** Insert behind every segment that is not greater. */
  function Insert(segs: seq<Interval>, s: Interval): seq<Interval> {
    if segs == [] || !Before(s, Last(segs)) then segs + [s] else Insert(Init(segs), s) + [Last(segs)]
  }

  /** Insert one by one. */
  function InsertAll(xs: seq<Interval>): seq<Interval> {
    if xs == [] then [] else Insert(InsertAll(Init(xs)), Last(xs))
  }

  lemma {:induction false} InsertKeepsOrder(segs: seq<Interval>, s: Interval)
    requires Sorted(segs)
    ensures Sorted(Insert(segs, s))
    ensures multiset(Insert(segs, s)) == multiset(segs) + multiset{s}
    ensures |Insert(segs, s)| == |segs| + 1
  {
    if segs != [] && Before(s, Last(segs)) {
      InsertKeepsOrder(Init(segs), s);
      var r := Insert(Init(segs), s);
      assert segs == Init(segs) + [Last(segs)];
      forall i | 0 <= i < |r| ensures !Before(Last(segs), r[i]) {
        assert r[i] in multiset(r);
        assert r[i] in Init(segs) || r[i] == s;
      }
    }
  }

  lemma {:induction false} InsertAllSorts(xs: seq<Interval>)
    ensures Sorted(InsertAll(xs)) && multiset(InsertAll(xs)) == multiset(xs) && |InsertAll(xs)| == |xs|
  {
    if xs == [] {
    } else {
      InsertAllSorts(Init(xs));
      InsertKeepsOrder(InsertAll(Init(xs)), Last(xs));
      assert xs == Init(xs) + [Last(xs)];
    }
  }

  lemma LastIsGreatest(a: seq<Interval>, b: seq<Interval>)
    requires Sorted(a) && a != [] && b != [] && multiset(a) == multiset(b)
    ensures !Before(Last(a), Last(b))
  {
    assert Last(b) in multiset(b);
    assert Last(b) in a;
  }

  lemma MultisetOfInit(a: seq<Interval>)
    requires a != []
    ensures multiset(Init(a)) == multiset(a) - multiset{Last(a)}
  {
    assert a == Init(a) + [Last(a)];
  }

  /** A sorted list is determined by its segments and how often each occurs. */
  lemma {:induction false} SortedIsUnique(a: seq<Interval>, b: seq<Interval>)
    requires Sorted(a) && Sorted(b) && multiset(a) == multiset(b)
    ensures a == b
    decreases |a|
  {
    hide *;
    SameLength(a, b);
    if a == [] {
    } else {
      SameGreatest(a, b);
      InitSorted(a);
      InitSorted(b);
      MultisetOfInit(a);
      MultisetOfInit(b);
      SortedIsUnique(Init(a), Init(b));
    }
  }

  lemma SameGreatest(a: seq<Interval>, b: seq<Interval>)
    requires Sorted(a) && Sorted(b) && a != [] && b != [] && multiset(a) == multiset(b)
    ensures Last(a) == Last(b)
  {
    LastIsGreatest(a, b);
    LastIsGreatest(b, a);
  }

  lemma SameLength(a: seq<Interval>, b: seq<Interval>)
    requires multiset(a) == multiset(b)
    ensures |a| == |b|
  {
    assert |multiset(a)| == |a| && |multiset(b)| == |b|;
  }

  lemma InitSorted(a: seq<Interval>)
    requires Sorted(a) && a != []
    ensures Sorted(Init(a)) && a == Init(a) + [Last(a)] && |Init(a)| == |a| - 1
  {
  }

  lemma InsertingSorted(xs: seq<Interval>)
    requires Sorted(xs)
    ensures InsertAll(xs) == xs
  {
    InsertAllSorts(xs);
    SortedIsUnique(InsertAll(xs), xs);
  }

  lemma SameSegmentsCoverTheSame(a: seq<Interval>, b: seq<Interval>)
    requires multiset(a) == multiset(b)
    ensures forall p :: Covers(a, p) <==> Covers(b, p)
    ensures Proper(a) <==> Proper(b)
  {
    forall i | 0 <= i < |a| ensures a[i] in b {
      assert a[i] in multiset(a);
    }
    forall i | 0 <= i < |b| ensures b[i] in a {
      assert b[i] in multiset(b);
    }
  }

  // -------------------------------------------------------------------------------------------
  // Merging (bfiOr_)
  // -------------------------------------------------------------------------------------------

  /** Add the next segment of a sorted list: behind the last one if there is a gap, else by extending the last one. */
  function MergeNext(f: seq<Interval>, s: Interval): seq<Interval> {
    if f == [] || Last(f).end < s.start then Insert(f, s)
    else if Last(f).end < s.end then Init(f) + [Interval(Last(f).start, s.end)]
    else f
  }

  function Merge(segs: seq<Interval>): seq<Interval> {
    if segs == [] then [] else MergeNext(Merge(Init(segs)), Last(segs))
  }

  lemma CoversSnoc(segs: seq<Interval>, s: Interval, p: int)
    ensures Covers(segs + [s], p) <==> Covers(segs, p) || s.Has(p)
  {
    if Covers(segs, p) {
      var i :| 0 <= i < |segs| && segs[i].Has(p);
      assert (segs + [s])[i].Has(p);
    }
    if s.Has(p) {
      assert (segs + [s])[|segs|].Has(p);
    }
  }

  lemma MergeNextCovers(f: seq<Interval>, s: Interval, p: int)
    requires Normal(f) && (f != [] ==> Last(f).start <= s.start)
    ensures Covers(MergeNext(f, s), p) <==> Covers(f, p) || s.Has(p)
  {
    CoversSnoc(f, s, p);
    if f != [] {
      var l := Last(f);
      assert f == Init(f) + [l];
      CoversSnoc(Init(f), l, p);
      CoversSnoc(Init(f), Interval(l.start, s.end), p);
    }
  }

  lemma MergeNextIsNormal(f: seq<Interval>, s: Interval)
    requires Normal(f) && s.start < s.end && (f != [] ==> Last(f).start <= s.start)
    ensures Normal(MergeNext(f, s)) && MergeNext(f, s) != [] && Last(MergeNext(f, s)).start <= s.start
    ensures MergeNext(f, s)[0].start == if f == [] then s.start else f[0].start
  {
  }

  lemma {:induction false} MergeIsNormal(segs: seq<Interval>)
    requires Sorted(segs) && Proper(segs)
    ensures Normal(Merge(segs))
    ensures segs != [] ==>
      Merge(segs) != [] && Last(Merge(segs)).start <= Last(segs).start && Merge(segs)[0].start == segs[0].start
  {
    if segs == [] {
    } else {
      MergeIsNormal(Init(segs));
      MergeNextIsNormal(Merge(Init(segs)), Last(segs));
    }
  }

  /** Merging covers what the list covers. With its normal form this determines the result. */
  lemma {:induction false} MergeCovers(segs: seq<Interval>, p: int)
    requires Sorted(segs) && Proper(segs)
    ensures Covers(Merge(segs), p) <==> Covers(segs, p)
  {
    if segs == [] {
    } else {
      MergeCovers(Init(segs), p);
      MergeIsNormal(Init(segs));
      MergeNextCovers(Merge(Init(segs)), Last(segs), p);
      CoversSnoc(Init(segs), Last(segs), p);
      assert segs == Init(segs) + [Last(segs)];
    }
  }

  lemma NormalIsSorted(segs: seq<Interval>)
    requires Normal(segs)
    ensures Sorted(segs)
  {
  }

  /** Two normal forms that cover the same points are the same list. */
  lemma {:induction false} NormalFormIsUnique(a: seq<Interval>, b: seq<Interval>)
    requires Normal(a) && Normal(b)
    requires forall p :: Covers(a, p) <==> Covers(b, p)
    ensures a == b
  {
    if a == [] || b == [] {
      OnlyEmptyCoversNothing(a);
      OnlyEmptyCoversNothing(b);
    } else {
      SameLast(a, b);
      forall p ensures Covers(Init(a), p) <==> Covers(Init(b), p) {
        InitCovered(a, p);
        InitCovered(b, p);
      }
      NormalFormIsUnique(Init(a), Init(b));
      assert a == Init(a) + [Last(a)] && b == Init(b) + [Last(b)];
    }
  }

  lemma OnlyEmptyCoversNothing(a: seq<Interval>)
    requires Proper(a)
    ensures a == [] <==> forall p :: !Covers(a, p)
  {
    if a != [] {
      assert a[0].Has(a[0].start);
      assert Covers(a, a[0].start);
    }
  }

  lemma InitCovered(a: seq<Interval>, p: int)
    requires Normal(a) && a != []
    ensures Covers(Init(a), p) <==> Covers(a, p) && !Last(a).Has(p)
  {
    CoversSnoc(Init(a), Last(a), p);
    assert a == Init(a) + [Last(a)];
  }

  lemma LastCovered(a: seq<Interval>, p: int)
    requires Normal(a) && a != []
    ensures Covers(a, p) ==> p < Last(a).end
    ensures Last(a).start <= p ==> (Covers(a, p) <==> p < Last(a).end)
    ensures p == Last(a).start - 1 ==> !Covers(a, p)
  {
    if Last(a).Has(p) {
      assert a[|a| - 1].Has(p);
    }
  }

  lemma SameLast(a: seq<Interval>, b: seq<Interval>)
    requires Normal(a) && Normal(b) && a != [] && b != []
    requires forall p :: Covers(a, p) <==> Covers(b, p)
    ensures Last(a) == Last(b)
  {
    var x, y := Last(a), Last(b);
    LastCovered(a, x.end - 1);
    LastCovered(b, x.end - 1);
    LastCovered(a, y.end - 1);
    LastCovered(b, y.end - 1);
    assert x.end == y.end;
    LastCovered(a, x.start - 1);
    LastCovered(b, x.start - 1);
    LastCovered(a, y.start - 1);
    LastCovered(b, y.start - 1);
  }

  // -------------------------------------------------------------------------------------------
  // How often a point is covered
  // -------------------------------------------------------------------------------------------

  function Count(segs: seq<Interval>, p: int): nat {
    if segs == [] then 0 else Count(Init(segs), p) + if Last(segs).Has(p) then 1 else 0
  }

  lemma {:induction false} CountInsert(segs: seq<Interval>, s: Interval, p: int)
    ensures Count(Insert(segs, s), p) == Count(segs, p) + if s.Has(p) then 1 else 0
  {
    assert Init(segs + [s]) == segs;
    if segs != [] && Before(s, Last(segs)) {
      CountInsert(Init(segs), s, p);
      assert Init(Insert(Init(segs), s) + [Last(segs)]) == Insert(Init(segs), s);
    }
  }

  lemma {:induction false} CountInsertAll(xs: seq<Interval>, p: int)
    ensures Count(InsertAll(xs), p) == Count(xs, p)
  {
    if xs == [] {
    } else {
      CountInsertAll(Init(xs), p);
      CountInsert(InsertAll(Init(xs)), Last(xs), p);
    }
  }

  lemma {:induction false} CountConcat(a: seq<Interval>, b: seq<Interval>, p: int)
    ensures Count(a + b, p) == Count(a, p) + Count(b, p)
  {
    if b == [] {
      assert a + b == a;
    } else {
      CountConcat(a, Init(b), p);
      assert Init(a + b) == a + Init(b);
    }
  }

  lemma {:induction false} CountAndCovers(segs: seq<Interval>, p: int)
    ensures Count(segs, p) >= 1 <==> Covers(segs, p)
    ensures Count(segs, p) >= 2 <==> Twice(segs, p)
  {
    if segs == [] {
    } else {
      CountAndCovers(Init(segs), p);
      CoversSnoc(Init(segs), Last(segs), p);
      assert segs == Init(segs) + [Last(segs)];
      if Twice(segs, p) {
        var i, j :| 0 <= i < j < |segs| && segs[i].Has(p) && segs[j].Has(p);
        assert Init(segs)[i].Has(p);
        if j < |segs| - 1 {
          assert Init(segs)[j].Has(p);
        }
      }
      if Twice(Init(segs), p) {
        var i, j :| 0 <= i < j < |segs| - 1 && Init(segs)[i].Has(p) && Init(segs)[j].Has(p);
        assert segs[i].Has(p) && segs[j].Has(p);
      }
      if Covers(Init(segs), p) && Last(segs).Has(p) {
        var i :| 0 <= i < |segs| - 1 && Init(segs)[i].Has(p);
        assert segs[i].Has(p) && segs[|segs| - 1].Has(p);
      }
    }
  }

  lemma NormalCoversOnce(segs: seq<Interval>, p: int)
    requires Normal(segs)
    ensures Count(segs, p) == if Covers(segs, p) then 1 else 0
  {
    CountAndCovers(segs, p);
  }

  /** Two segments cover the point. */
  ghost predicate Twice(segs: seq<Interval>, p: int) {
    exists i, j :: 0 <= i < j < |segs| && segs[i].Has(p) && segs[j].Has(p)
  }

  // -------------------------------------------------------------------------------------------
  // Intersection (bfiAnd_)
  // -------------------------------------------------------------------------------------------

  /** What segment `i` shares with segment `j` and its successors, up to the first one that starts too late. */
  function Row(segs: seq<Interval>, i: nat, j: nat): seq<Interval>
    requires i < |segs|
    decreases |segs| - j
  {
    if j >= |segs| || segs[i].end <= segs[j].start then []
    else [Interval(segs[j].start, if segs[i].end < segs[j].end then segs[i].end else segs[j].end)] + Row(segs, i, j + 1)
  }

  function Rows(segs: seq<Interval>, i: nat): seq<Interval>
    decreases |segs| - i
  {
    if i + 1 >= |segs| then [] else Row(segs, i, i + 1) + Rows(segs, i + 1)
  }

  /** A segment from `j` on covers the point. */
  ghost predicate CoversFrom(segs: seq<Interval>, j: nat, p: int) {
    exists k :: j <= k < |segs| && segs[k].Has(p)
  }

  lemma CoversFromStep(segs: seq<Interval>, j: nat, p: int)
    ensures CoversFrom(segs, j, p) <==> j < |segs| && (segs[j].Has(p) || CoversFrom(segs, j + 1, p))
  {
  }

  /** What segments `i` and `j` share. */
  function Shared(segs: seq<Interval>, i: nat, j: nat): Interval
    requires i < |segs| && j < |segs|
  {
    Interval(segs[j].start, if segs[i].end < segs[j].end then segs[i].end else segs[j].end)
  }

  lemma RowStep(segs: seq<Interval>, i: nat, j: nat)
    requires i < |segs|
    ensures Row(segs, i, j) ==
      if j < |segs| && segs[j].start < segs[i].end then [Shared(segs, i, j)] + Row(segs, i, j + 1) else []
  {
  }

  lemma SharedHas(segs: seq<Interval>, i: nat, j: nat, p: int)
    requires Sorted(segs) && Proper(segs) && i < j < |segs|
    ensures Shared(segs, i, j).Has(p) <==> segs[i].Has(p) && segs[j].Has(p)
    ensures segs[j].start < segs[i].end ==> Shared(segs, i, j).start < Shared(segs, i, j).end
    ensures segs[i].end <= segs[j].start && segs[i].Has(p) ==> !CoversFrom(segs, j, p)
  {
  }

  lemma {:induction false} RowCovers(segs: seq<Interval>, i: nat, j: nat, p: int)
    requires Sorted(segs) && Proper(segs) && i < j && i < |segs|
    ensures Proper(Row(segs, i, j))
    ensures Covers(Row(segs, i, j), p) <==> segs[i].Has(p) && CoversFrom(segs, j, p)
    decreases |segs| - j
  {
    hide Row, Covers, CoversFrom, Sorted, Shared;
    RowStep(segs, i, j);
    CoversFromStep(segs, j, p);
    NothingCovers(p);
    if j >= |segs| {
    } else {
      SharedHas(segs, i, j, p);
      if segs[j].start < segs[i].end {
        RowCovers(segs, i, j + 1, p);
        CoversCons(Shared(segs, i, j), Row(segs, i, j + 1), p);
      }
    }
  }

  lemma NothingCovers(p: int)
    ensures !Covers([], p)
  {
  }

  lemma CoversCons(s: Interval, segs: seq<Interval>, p: int)
    ensures Covers([s] + segs, p) <==> s.Has(p) || Covers(segs, p)
  {
    CoversConcat([s], segs, p);
    if s.Has(p) {
      assert [s][0].Has(p);
    }
  }

  lemma CoversConcat(a: seq<Interval>, b: seq<Interval>, p: int)
    ensures Covers(a + b, p) <==> Covers(a, p) || Covers(b, p)
  {
    if Covers(a, p) {
      var i :| 0 <= i < |a| && a[i].Has(p);
      assert (a + b)[i].Has(p);
    }
    if Covers(b, p) {
      var i :| 0 <= i < |b| && b[i].Has(p);
      assert (a + b)[|a| + i].Has(p);
    }
  }

  /** Two segments from `i` on cover the point. */
  ghost predicate TwiceFrom(segs: seq<Interval>, i: nat, p: int) {
    exists a, b :: i <= a < b < |segs| && segs[a].Has(p) && segs[b].Has(p)
  }

  lemma TwiceStep(segs: seq<Interval>, i: nat, p: int)
    requires i < |segs|
    ensures TwiceFrom(segs, i, p) <==>
      (segs[i].Has(p) && CoversFrom(segs, i + 1, p)) || TwiceFrom(segs, i + 1, p)
    ensures i + 1 >= |segs| ==> !TwiceFrom(segs, i, p)
  {
  }

  lemma RowsStep(segs: seq<Interval>, i: nat)
    ensures Rows(segs, i) == if i + 1 >= |segs| then [] else Row(segs, i, i + 1) + Rows(segs, i + 1)
  {
  }

  lemma {:induction false} RowsCover(segs: seq<Interval>, i: nat, p: int)
    requires Sorted(segs) && Proper(segs)
    ensures Proper(Rows(segs, i))
    ensures Covers(Rows(segs, i), p) <==> TwiceFrom(segs, i, p)
    decreases |segs| - i
  {
    RowsStep(segs, i);
    if i + 1 >= |segs| {
    } else {
      hide Rows, Row, Covers, TwiceFrom, CoversFrom, Sorted;
      RowCovers(segs, i, i + 1, p);
      RowsCover(segs, i + 1, p);
      TwiceStep(segs, i, p);
      CoversConcat(Row(segs, i, i + 1), Rows(segs, i + 1), p);
    }
  }

  function AndOf(segs: seq<Interval>): seq<Interval> {
    Merge(InsertAll(Rows(segs, 0)))
  }

  /** bfiAnd_ is the normal form of the points that two segments share. */
  lemma AndOfCovers(segs: seq<Interval>, p: int)
    requires Sorted(segs) && Proper(segs)
    ensures Normal(AndOf(segs))
    ensures Covers(AndOf(segs), p) <==> Twice(segs, p)
  {
    var rows := Rows(segs, 0);
    RowsCover(segs, 0, p);
    InsertAllSorts(rows);
    SameSegmentsCoverTheSame(InsertAll(rows), rows);
    MergeIsNormal(InsertAll(rows));
    MergeCovers(InsertAll(rows), p);
  }

  // -------------------------------------------------------------------------------------------
  // Two functions
  // -------------------------------------------------------------------------------------------

  /** A function: its domain runs from `lo` up to but not including `hi`. */
  datatype Fun = Fun(hi: int, lo: int, segs: seq<Interval>)

  function NewFun(start: int, end: int): Fun {
    if end > start then Fun(end, start, []) else Fun(start, end, [])
  }

  /** The intersection of two domains, empty at the larger lower bound if they do not meet. */
  function Domain(g: Fun, h: Fun): Fun {
    var start := if g.lo >= h.lo then g.lo else h.lo;
    var end := if g.hi <= h.hi then g.hi else h.hi;
    NewFun(start, if end < start then start else end)
  }

  function Union(g: Fun, h: Fun): Fun {
    Domain(g, h).(segs := InsertAll(g.segs + h.segs))
  }

  function Or(g: Fun, h: Fun): Fun {
    Domain(g, h).(segs := Merge(Union(g, h).segs))
  }

  function MergeFun(g: Fun): Fun {
    NewFun(g.hi, g.lo).(segs := Merge(g.segs))
  }

  function And(g: Fun, h: Fun): Fun {
    Domain(g, h).(segs := AndOf(Union(MergeFun(g), MergeFun(h)).segs))
  }

  predicate WellFormed(g: Fun) {
    g.lo <= g.hi && Sorted(g.segs) && Proper(g.segs)
  }

  ghost predicate InDomain(g: Fun, p: int) {
    g.lo <= p < g.hi
  }

  lemma DomainIsIntersection(g: Fun, h: Fun, p: int)
    requires g.lo <= g.hi && h.lo <= h.hi
    ensures InDomain(Domain(g, h), p) <==> InDomain(g, p) && InDomain(h, p)
    ensures Domain(g, h).lo <= Domain(g, h).hi
  {
  }

  /** The domain of a new function lies between its bounds, whichever comes first. */
  lemma NewDomainIs(start: int, end: int, p: int)
    ensures InDomain(NewFun(start, end), p) <==> start <= p < end || end <= p < start
    ensures NewFun(start, end).lo <= NewFun(start, end).hi && NewFun(start, end).segs == []
  {
  }

  /** An operation on two functions is defined where both are; an operation on one function, where that is. */
  lemma OperationsKeepDomains(g: Fun, h: Fun, p: int)
    requires g.lo <= g.hi && h.lo <= h.hi
    ensures InDomain(Or(g, h), p) <==> InDomain(g, p) && InDomain(h, p)
    ensures InDomain(And(g, h), p) <==> InDomain(g, p) && InDomain(h, p)
    ensures InDomain(Union(g, h), p) <==> InDomain(g, p) && InDomain(h, p)
    ensures InDomain(Select(g, h), p) <==> InDomain(g, p) && InDomain(h, p)
    ensures InDomain(Reject(g, h), p) <==> InDomain(g, p) && (InDomain(h, p) || g.segs == [] || h.segs == [])
    ensures InDomain(Not(g), p) <==> InDomain(g, p)
    ensures InDomain(MergeFun(g), p) <==> InDomain(g, p)
    ensures forall f :: f in {Or(g, h), And(g, h), Union(g, h), Select(g, h), Reject(g, h), Not(g), MergeFun(g)} ==>
      f.lo <= f.hi
  {
    DomainIsIntersection(g, h, p);
    NewDomainIs(g.hi, g.lo, p);
    hide Merge, AndOf, InsertAll, NotOf, Selected, Rejected;
  }

  lemma UnionCounts(g: Fun, h: Fun, p: int)
    ensures Count(Union(g, h).segs, p) == Count(g.segs, p) + Count(h.segs, p)
    ensures Sorted(Union(g, h).segs)
    ensures Proper(g.segs) && Proper(h.segs) ==> Proper(Union(g, h).segs)
  {
    CountInsertAll(g.segs + h.segs, p);
    CountConcat(g.segs, h.segs, p);
    InsertAllSorts(g.segs + h.segs);
    SameSegmentsCoverTheSame(InsertAll(g.segs + h.segs), g.segs + h.segs);
  }

  /** bfiOr is pointwise disjunction, in normal form. */
  lemma OrIsUnion(g: Fun, h: Fun, p: int)
    requires WellFormed(g) && WellFormed(h)
    ensures Normal(Or(g, h).segs)
    ensures Covers(Or(g, h).segs, p) <==> Covers(g.segs, p) || Covers(h.segs, p)
  {
    var u := Union(g, h).segs;
    UnionCounts(g, h, p);
    CountAndCovers(u, p);
    CountAndCovers(g.segs, p);
    CountAndCovers(h.segs, p);
    MergeIsNormal(u);
    MergeCovers(u, p);
  }

  /** bfiAnd is pointwise conjunction, in normal form. */
  lemma AndIsIntersection(g: Fun, h: Fun, p: int)
    requires WellFormed(g) && WellFormed(h)
    ensures Normal(And(g, h).segs)
    ensures Covers(And(g, h).segs, p) <==> Covers(g.segs, p) && Covers(h.segs, p)
  {
    var u := Union(MergeFun(g), MergeFun(h));
    MergeIsNormal(g.segs);
    MergeIsNormal(h.segs);
    MergeCovers(g.segs, p);
    MergeCovers(h.segs, p);
    NormalCoversOnce(Merge(g.segs), p);
    NormalCoversOnce(Merge(h.segs), p);
    UnionCounts(MergeFun(g), MergeFun(h), p);
    CountAndCovers(u.segs, p);
    AndOfCovers(u.segs, p);
  }

  /** Whether two functions have the same domain and the same points. */
  ghost predicate SamePoints(g: Fun, h: Fun) {
    g.hi == h.hi && g.lo == h.lo && forall p :: Covers(g.segs, p) <==> Covers(h.segs, p)
  }

  /** bfiCompare says 1 when the representations are equal. On normal forms that is equality of functions. */
  lemma CompareDecidesEquality(g: Fun, h: Fun)
    requires Normal(g.segs) && Normal(h.segs)
    ensures g == h <==> SamePoints(g, h)
  {
    if SamePoints(g, h) {
      NormalFormIsUnique(g.segs, h.segs);
    }
  }

  /** Boolean laws hold as equalities of representations: any two expressions with the same points compare equal. */
  lemma AndDistributesOverOr(f: Fun, g: Fun, h: Fun)
    requires WellFormed(f) && WellFormed(g) && WellFormed(h)
    ensures And(f, Or(g, h)) == Or(And(f, g), And(f, h))
  {
    DomainsDistribute(f, g, h);
    SegmentsDistribute(f, g, h);
    hide Merge, AndOf, Domain;
  }

  function Larger(a: int, b: int): int {
    if a >= b then a else b
  }

  function Smaller(a: int, b: int): int {
    if a <= b then a else b
  }

  lemma BoundsOf(g: Fun, h: Fun)
    ensures Domain(g, h).lo == Larger(g.lo, h.lo)
    ensures Domain(g, h).hi == Larger(Larger(g.lo, h.lo), Smaller(g.hi, h.hi)) && Domain(g, h).segs == []
  {
  }

  /** The bounds come out the same, even for domains that do not meet. */
  lemma DomainsDistribute(f: Fun, g: Fun, h: Fun)
    requires f.lo <= f.hi && g.lo <= g.hi && h.lo <= h.hi
    ensures Domain(f, Or(g, h)) == Domain(And(f, g), And(f, h))
  {
    var gh, fg, fh := Or(g, h), And(f, g), And(f, h);
    assert gh.lo == Domain(g, h).lo && gh.hi == Domain(g, h).hi;
    assert fg.lo == Domain(f, g).lo && fg.hi == Domain(f, g).hi;
    assert fh.lo == Domain(f, h).lo && fh.hi == Domain(f, h).hi;
    hide Merge, AndOf, Domain, Or, And;
    BoundsOf(g, h);
    BoundsOf(f, g);
    BoundsOf(f, h);
    BoundsOf(f, gh);
    BoundsOf(fg, fh);
    hide Smaller, Larger;
    SameBounds(f.lo, f.hi, g.lo, g.hi, h.lo, h.hi);
  }

  lemma SameBounds(a: int, b: int, c: int, d: int, e: int, f: int)
    requires a <= b && c <= d && e <= f
    ensures Larger(a, Larger(c, e)) == Larger(Larger(a, c), Larger(a, e))
    ensures Larger(Larger(a, Larger(c, e)), Smaller(b, Larger(Larger(c, e), Smaller(d, f)))) ==
      Larger(Larger(Larger(a, c), Larger(a, e)),
             Smaller(Larger(Larger(a, c), Smaller(b, d)), Larger(Larger(a, e), Smaller(b, f))))
  {
  }

  lemma SegmentsDistribute(f: Fun, g: Fun, h: Fun)
    requires WellFormed(f) && WellFormed(g) && WellFormed(h)
    ensures And(f, Or(g, h)).segs == Or(And(f, g), And(f, h)).segs
  {
    var l, r := And(f, Or(g, h)), Or(And(f, g), And(f, h));
    forall p: int
      ensures Normal(Or(g, h).segs) && Normal(And(f, g).segs) && Normal(And(f, h).segs) && Normal(l.segs)
      ensures Normal(r.segs)
      ensures Covers(l.segs, p) <==> Covers(r.segs, p)
    {
      OrIsUnion(g, h, p);
      AndIsIntersection(f, g, p);
      AndIsIntersection(f, h, p);
      NormalIsSorted(Or(g, h).segs);
      NormalIsSorted(And(f, g).segs);
      NormalIsSorted(And(f, h).segs);
      AndIsIntersection(f, Or(g, h), p);
      OrIsUnion(And(f, g), And(f, h), p);
    }
    assert Normal(l.segs) && Normal(r.segs) by { assert Covers(l.segs, 0) <==> Covers(r.segs, 0); }
    NormalFormIsUnique(l.segs, r.segs);
  }

  // -------------------------------------------------------------------------------------------
  // Complement (bfiNot_)
  // -------------------------------------------------------------------------------------------

  /** The gaps behind the segments from `k` on, until one reaches the upper bound of the domain. */
  function Gaps(h: seq<Interval>, hi: int, k: nat): seq<Interval>
    decreases |h| - k
  {
    if k >= |h| || h[k].end >= hi then []
    else
      var next := if k + 1 < |h| then h[k + 1].start else hi;
      (if h[k].end < next then [Interval(h[k].end, next)] else []) + Gaps(h, hi, k + 1)
  }

  function NotOf(h: seq<Interval>, lo: int, hi: int): seq<Interval> {
    if h == [] then []
    else (if lo < h[0].start then [Interval(lo, h[0].start)] else []) + Gaps(h, hi, 0)
  }

  function Not(g: Fun): Fun {
    NewFun(g.hi, g.lo).(segs := InsertAll(NotOf(Merge(g.segs), g.lo, g.hi)))
  }

  lemma NotOfIsSorted(g: Fun)
    requires WellFormed(g)
    ensures Normal(Merge(g.segs)) && Normal(Not(g).segs) && Not(g).segs == NotOf(Merge(g.segs), g.lo, g.hi)
  {
    MergeIsNormal(g.segs);
    NotOfIsNormal(Merge(g.segs), g.lo, g.hi);
    NormalIsSorted(NotOf(Merge(g.segs), g.lo, g.hi));
    InsertingSorted(NotOf(Merge(g.segs), g.lo, g.hi));
  }

  /** A normal list that starts at `from` or later. */
  predicate NormalFrom(segs: seq<Interval>, from: int) {
    Normal(segs) && (segs != [] ==> from <= segs[0].start)
  }

  lemma NormalCons(x: Interval, rest: seq<Interval>, from: int)
    requires from <= x.start < x.end && NormalFrom(rest, x.end + 1)
    ensures NormalFrom([x] + rest, from)
  {
    var r := [x] + rest;
    assert forall i :: 1 <= i < |r| ==> r[i] == rest[i - 1];
  }

  lemma GapsStep(h: seq<Interval>, hi: int, k: nat)
    ensures Gaps(h, hi, k) ==
      if k >= |h| || h[k].end >= hi then []
      else
        (if h[k].end < NextStart(h, hi, k) then [Interval(h[k].end, NextStart(h, hi, k))] else [])
        + Gaps(h, hi, k + 1)
  {
  }

  /** Where the gap behind segment `k` ends. */
  function NextStart(h: seq<Interval>, hi: int, k: nat): int {
    if k + 1 < |h| then h[k + 1].start else hi
  }

  lemma {:induction false} GapsAreNormal(h: seq<Interval>, hi: int, k: nat)
    requires Normal(h)
    ensures k < |h| ==> NormalFrom(Gaps(h, hi, k), h[k].end)
    ensures Normal(Gaps(h, hi, k))
    decreases |h| - k
  {
    hide Gaps;
    GapsStep(h, hi, k);
    if k < |h| && h[k].end < hi {
      GapsAreNormal(h, hi, k + 1);
      GapsStep(h, hi, k + 1);
      assert k + 1 < |h| ==> NextStart(h, hi, k) + 1 <= h[k + 1].end && h[k].end < NextStart(h, hi, k);
      NormalCons(Interval(h[k].end, NextStart(h, hi, k)), Gaps(h, hi, k + 1), h[k].end);
    }
  }

  lemma {:induction false} GapsEndInside(h: seq<Interval>, hi: int, k: nat)
    requires Normal(h) && h != [] && Last(h).end <= hi
    ensures forall i :: 0 <= i < |Gaps(h, hi, k)| ==> Gaps(h, hi, k)[i].end <= hi
    decreases |h| - k
  {
    hide Gaps;
    GapsStep(h, hi, k);
    if k < |h| && h[k].end < hi {
      GapsEndInside(h, hi, k + 1);
      assert NextStart(h, hi, k) <= hi by {
        assert k + 1 < |h| ==> h[k + 1].start < h[k + 1].end <= h[|h| - 1].end;
      }
    }
  }

  lemma {:induction false} GapsCover(h: seq<Interval>, hi: int, k: nat, p: int)
    requires Normal(h) && k < |h| && h[k].end <= p < hi
    ensures Covers(Gaps(h, hi, k), p) <==> !Covers(h, p)
    decreases |h| - k
  {
    var next := if k + 1 < |h| then h[k + 1].start else hi;
    var rest := Gaps(h, hi, k + 1);
    CoversCons(Interval(h[k].end, next), rest, p);
    if k + 1 < |h| && h[k + 1].end <= p {
      GapsCover(h, hi, k + 1, p);
    } else {
      GapsAreNormal(h, hi, k + 1);
      if k + 1 < |h| && h[k + 1].start <= p {
        assert h[k + 1].Has(p);
      } else {
        assert forall i :: 0 <= i < |h| ==> !h[i].Has(p);
      }
    }
  }

  lemma NotOfIsNormal(h: seq<Interval>, lo: int, hi: int)
    requires Normal(h)
    ensures Normal(NotOf(h, lo, hi))
  {
    hide Gaps;
    if h != [] {
      GapsAreNormal(h, hi, 0);
      assert NormalFrom(Gaps(h, hi, 0), h[0].start + 1);
      if lo < h[0].start {
        NormalCons(Interval(lo, h[0].start), Gaps(h, hi, 0), lo);
        assert Normal(NotOf(h, lo, hi));
      } else {
        assert [] + Gaps(h, hi, 0) == Gaps(h, hi, 0);
      }
    }
  }

  lemma NotOfCovers(h: seq<Interval>, lo: int, hi: int, p: int)
    requires Normal(h) && h != [] && lo <= p < hi
    ensures Covers(NotOf(h, lo, hi), p) <==> !Covers(h, p)
  {
    CoversCons(Interval(lo, h[0].start), Gaps(h, hi, 0), p);
    if h[0].end <= p {
      GapsCover(h, hi, 0, p);
    } else {
      GapsAreNormal(h, hi, 0);
      if h[0].start <= p {
        assert h[0].Has(p);
      }
    }
  }

  /** bfiNot_ is complement within the domain, for a function with at least one segment. */
  lemma NotIsComplement(g: Fun, p: int)
    requires WellFormed(g) && g.segs != [] && InDomain(g, p)
    ensures Normal(Not(g).segs)
    ensures Covers(Not(g).segs, p) <==> !Covers(g.segs, p)
  {
    NotOfIsSorted(g);
    MergeIsNormal(g.segs);
    MergeCovers(g.segs, p);
    NotOfCovers(Merge(g.segs), g.lo, g.hi, p);
  }

  /** The complement of a disjunction is the conjunction of the complements, wherever both functions are defined. */
  lemma NotOfOr(g: Fun, h: Fun, p: int)
    requires WellFormed(g) && WellFormed(h) && g.segs != [] && h.segs != [] && InDomain(g, p) && InDomain(h, p)
    ensures InDomain(Not(Or(g, h)), p)
    ensures Covers(Not(Or(g, h)).segs, p) <==> Covers(And(Not(g), Not(h)).segs, p)
    ensures Covers(Not(Or(g, h)).segs, p) <==> !Covers(g.segs, p) && !Covers(h.segs, p)
  {
    hide Merge, AndOf, Covers, NotOf, Sorted;
    OperationsKeepDomains(g, h, p);
    OrHasSegments(g, h);
    OperationsKeepDomains(Or(g, h), h, p);
    NotIsComplement(Or(g, h), p);
    OrIsUnion(g, h, p);
    ComplementsAreWellFormed(g, h, p);
    AndIsIntersection(Not(g), Not(h), p);
  }

  /** The complement of a conjunction is the disjunction of the complements, exactly when the conjunction is not empty:
      the complement of a function without segments is a function without segments. */
  lemma NotOfAnd(g: Fun, h: Fun, p: int)
    requires WellFormed(g) && WellFormed(h) && g.segs != [] && h.segs != [] && InDomain(g, p) && InDomain(h, p)
    ensures InDomain(Not(And(g, h)), p)
    ensures And(g, h).segs != [] <==> (Covers(Not(And(g, h)).segs, p) <==> Covers(Or(Not(g), Not(h)).segs, p))
  {
    hide AndOf, Covers, NotOf, Sorted, Merge;
    OperationsKeepDomains(g, h, p);
    OperationsKeepDomains(And(g, h), h, p);
    AndIsIntersection(g, h, p);
    NormalIsSorted(And(g, h).segs);
    ComplementsAreWellFormed(g, h, p);
    OrIsUnion(Not(g), Not(h), p);
    if And(g, h).segs != [] {
      NotIsComplement(And(g, h), p);
    } else {
      NothingIsComplementedToNothing(And(g, h), p);
    }
  }

  lemma NothingIsComplementedToNothing(g: Fun, p: int)
    requires g.segs == []
    ensures Not(g).segs == [] && !Covers(Not(g).segs, p) && !Covers(g.segs, p)
  {
  }

  lemma OrHasSegments(g: Fun, h: Fun)
    requires WellFormed(g) && WellFormed(h) && g.segs != []
    ensures WellFormed(Or(g, h)) && Or(g, h).segs != []
  {
    var x := g.segs[0];
    assert x.Has(x.start) && Covers(g.segs, x.start);
    OrIsUnion(g, h, x.start);
    NormalIsSorted(Or(g, h).segs);
    OperationsKeepDomains(g, h, 0);
  }

  lemma ComplementsAreWellFormed(g: Fun, h: Fun, p: int)
    requires WellFormed(g) && WellFormed(h) && g.segs != [] && h.segs != [] && InDomain(g, p) && InDomain(h, p)
    ensures WellFormed(Not(g)) && WellFormed(Not(h))
    ensures Covers(Not(g).segs, p) <==> !Covers(g.segs, p)
    ensures Covers(Not(h).segs, p) <==> !Covers(h.segs, p)
  {
    NotIsComplement(g, p);
    NotIsComplement(h, p);
    NormalIsSorted(Not(g).segs);
    NormalIsSorted(Not(h).segs);
    OperationsKeepDomains(g, h, p);
    OperationsKeepDomains(h, g, p);
  }

  predicate Inside(segs: seq<Interval>, lo: int, hi: int) {
    forall i :: 0 <= i < |segs| ==> lo <= segs[i].start && segs[i].end <= hi
  }

  lemma InsideCovers(segs: seq<Interval>, lo: int, hi: int)
    requires Proper(segs)
    ensures Inside(segs, lo, hi) <==> forall p :: Covers(segs, p) ==> lo <= p < hi
  {
    if forall p :: Covers(segs, p) ==> lo <= p < hi {
      forall i | 0 <= i < |segs| ensures lo <= segs[i].start && segs[i].end <= hi {
        assert segs[i].Has(segs[i].start) && segs[i].Has(segs[i].end - 1);
        assert Covers(segs, segs[i].start) && Covers(segs, segs[i].end - 1);
      }
    }
  }

  lemma NotOfStaysInside(h: seq<Interval>, lo: int, hi: int)
    requires Normal(h) && Inside(h, lo, hi)
    ensures Inside(NotOf(h, lo, hi), lo, hi)
  {
    if h != [] {
      GapsAreNormal(h, hi, 0);
      GapsEndInside(h, hi, 0);
      var gaps, first := Gaps(h, hi, 0), if lo < h[0].start then [Interval(lo, h[0].start)] else [];
      assert NotOf(h, lo, hi) == first + gaps && lo <= h[0].end && h[0].start <= hi;
      hide NotOf, Gaps;
      NormalFromStarts(gaps, h[0].end);
    }
  }

  lemma NormalFromStarts(segs: seq<Interval>, from: int)
    requires NormalFrom(segs, from)
    ensures forall i :: 0 <= i < |segs| ==> from <= segs[i].start
  {
    forall i | 0 < i < |segs| ensures from <= segs[i].start {
      assert segs[0].end < segs[i].start;
    }
  }

  lemma NotStaysInside(g: Fun)
    requires WellFormed(g) && g.segs != [] && Inside(g.segs, g.lo, g.hi)
    ensures Normal(Merge(g.segs)) && Inside(Merge(g.segs), g.lo, g.hi)
    ensures Normal(Not(g).segs) && Inside(Not(g).segs, g.lo, g.hi)
  {
    hide Merge, Covers, Inside, NotOf, Not, Normal, Sorted, Proper;
    var h := Merge(g.segs);
    NotOfIsSorted(g);
    InsideCovers(g.segs, g.lo, g.hi);
    forall p | Covers(h, p) ensures g.lo <= p < g.hi {
      MergeCovers(g.segs, p);
    }
    NormalIsProper(h);
    InsideCovers(h, g.lo, g.hi);
    NotOfStaysInside(h, g.lo, g.hi);
  }

  lemma NormalIsProper(segs: seq<Interval>)
    requires Normal(segs)
    ensures Proper(segs)
  {
  }

  /** Complementing twice gives back the merged function, exactly when the first complement is not empty:
      the complement of a function without segments is a function without segments. */
  lemma DoubleComplement(g: Fun)
    requires WellFormed(g) && g.segs != [] && Inside(g.segs, g.lo, g.hi)
    ensures Not(Not(g)).segs == Merge(g.segs) <==> exists p :: InDomain(g, p) && !Covers(g.segs, p)
  {
    var n, h := Not(g), Merge(g.segs);
    NotStaysInside(g);
    NotOfIsSorted(g);
    MergeIsNormal(g.segs);
    if n.segs == [] {
      assert h != [];
      forall p | InDomain(g, p) ensures Covers(g.segs, p) {
        NotIsComplement(g, p);
      }
    } else {
      NormalIsSorted(n.segs);
      NotStaysInside(n);
      forall p ensures Covers(Not(n).segs, p) <==> Covers(h, p) {
        InsideCovers(h, g.lo, g.hi);
        InsideCovers(Not(n).segs, g.lo, g.hi);
        if InDomain(g, p) {
          NotIsComplement(n, p);
          NotIsComplement(g, p);
          MergeCovers(g.segs, p);
        }
      }
      NormalFormIsUnique(Not(n).segs, h);
      var p := n.segs[0].start;
      assert n.segs[0].Has(p) && Covers(n.segs, p);
      InsideCovers(n.segs, g.lo, g.hi);
      NotIsComplement(g, p);
    }
  }

  /** A function that is true on its whole domain is lost by complementing it twice. */
  lemma FullFunctionIsLost()
    ensures var g := Fun(2, 0, [Interval(0, 2)]);
      Not(g).segs == [] && Not(Not(g)).segs == [] && Merge(g.segs) == [Interval(0, 2)]
  {
    var x := Interval(0, 2);
    assert Init([x]) == [] && Merge([x]) == MergeNext([], x) == [x];
    assert Gaps([x], 2, 0) == [];
  }

  // -------------------------------------------------------------------------------------------
  // Selection (bfiSelect, bfiReject)
  // -------------------------------------------------------------------------------------------

  /** The segment shares a point with what `h` covers. */
  ghost predicate Touches(s: Interval, h: seq<Interval>) {
    exists p :: s.Has(p) && Covers(h, p)
  }

  ghost function Selected(g: seq<Interval>, h: seq<Interval>): seq<Interval> {
    if g == [] then [] else Selected(Init(g), h) + if Touches(Last(g), h) then [Last(g)] else []
  }

  ghost function Rejected(g: seq<Interval>, h: seq<Interval>): seq<Interval> {
    if g == [] then [] else Rejected(Init(g), h) + if Touches(Last(g), h) then [] else [Last(g)]
  }

  /** Selecting and rejecting split the segments, multiplicities included. */
  lemma SplitOne(a: seq<Interval>, b: seq<Interval>, g: seq<Interval>, s: Interval)
    requires multiset(a) + multiset(b) == multiset(g)
    ensures multiset(a + [s]) + multiset(b) == multiset(a) + multiset(b + [s]) == multiset(g + [s])
  {
    assert multiset(a + [s]) == multiset(a) + multiset{s} && multiset(b + [s]) == multiset(b) + multiset{s};
  }

  lemma {:induction false} SelectAndRejectSplit(g: seq<Interval>, h: seq<Interval>)
    ensures multiset(Selected(g, h)) + multiset(Rejected(g, h)) == multiset(g)
  {
    if g == [] {
    } else {
      SelectAndRejectSplit(Init(g), h);
      SelectionStep(g, h);
      SplitOne(Selected(Init(g), h), Rejected(Init(g), h), Init(g), Last(g));
      assert g == Init(g) + [Last(g)];
      hide Selected, Rejected, Touches;
      assert Selected(Init(g), h) + [] == Selected(Init(g), h) && Rejected(Init(g), h) + [] == Rejected(Init(g), h);
    }
  }

  lemma {:induction false} SelectedTouch(g: seq<Interval>, h: seq<Interval>, s: Interval)
    ensures s in Selected(g, h) <==> s in g && Touches(s, h)
    ensures s in Rejected(g, h) <==> s in g && !Touches(s, h)
  {
    if g == [] {
    } else {
      SelectedTouch(Init(g), h, s);
      assert g == Init(g) + [Last(g)];
    }
  }

  lemma SortedSnoc(f: seq<Interval>, g: seq<Interval>)
    requires Sorted(f) && Sorted(g) && g != [] && forall s :: s in f ==> s in Init(g)
    ensures Sorted(f + [Last(g)])
  {
    forall i | 0 <= i < |f| ensures !Before(Last(g), f[i]) {
      assert f[i] in Init(g);
    }
  }

  lemma {:induction false} SelectedIsSorted(g: seq<Interval>, h: seq<Interval>)
    requires Sorted(g)
    ensures Sorted(Selected(g, h)) && Sorted(Rejected(g, h))
  {
    if g == [] {
    } else {
      SelectedIsSorted(Init(g), h);
      forall s ensures s in Selected(Init(g), h) || s in Rejected(Init(g), h) ==> s in Init(g) {
        SelectedTouch(Init(g), h, s);
      }
      SortedSnoc(Selected(Init(g), h), g);
      SortedSnoc(Rejected(Init(g), h), g);
    }
  }

  /** Inserting the next segment of a sorted list appends it. */
  lemma NextGoesLast(f: seq<Interval>, g: seq<Interval>, i: nat)
    requires Sorted(g) && i < |g| && forall s :: s in f ==> s in g[..i]
    ensures Insert(f, g[i]) == f + [g[i]]
  {
    if f != [] {
      assert Last(f) in g[..i];
    }
  }

  lemma MeetsTouches(s: Interval, h: seq<Interval>, k: nat)
    requires k < |h| && s.start < s.end && h[k].start < h[k].end && s.Meets(h[k])
    ensures Touches(s, h)
  {
    var p := if s.start < h[k].start then h[k].start else s.start;
    assert s.Has(p) && h[k].Has(p);
  }

  /** What is selected depends on the points of `h` only. */
  lemma {:induction false} SelectionSeesPoints(g: seq<Interval>, h: seq<Interval>, k: seq<Interval>)
    requires forall p :: Covers(h, p) <==> Covers(k, p)
    ensures Selected(g, h) == Selected(g, k) && Rejected(g, h) == Rejected(g, k)
  {
    if g == [] {
    } else {
      SelectionSeesPoints(Init(g), h, k);
      assert Touches(Last(g), h) <==> Touches(Last(g), k);
    }
  }

  lemma MergingKeepsSelection(g: seq<Interval>, h: seq<Interval>)
    requires Sorted(h) && Proper(h)
    ensures Normal(Merge(h)) && (Merge(h) == [] <==> h == [])
    ensures Selected(g, Merge(h)) == Selected(g, h) && Rejected(g, Merge(h)) == Rejected(g, h)
  {
    MergeIsNormal(h);
    forall p ensures Covers(Merge(h), p) <==> Covers(h, p) {
      MergeCovers(h, p);
    }
    SelectionSeesPoints(g, Merge(h), h);
  }

  lemma SelectionStep(g: seq<Interval>, h: seq<Interval>)
    requires g != []
    ensures Selected(g, h) == Selected(Init(g), h) + if Touches(Last(g), h) then [Last(g)] else []
    ensures Rejected(g, h) == Rejected(Init(g), h) + if Touches(Last(g), h) then [] else [Last(g)]
    ensures h == [] ==> !Touches(Last(g), h)
  {
  }

  lemma {:induction false} NothingTouchesNothing(g: seq<Interval>, h: seq<Interval>)
    requires h == []
    ensures Selected(g, h) == [] && Rejected(g, h) == g
  {
    if g == [] {
    } else {
      NothingTouchesNothing(Init(g), h);
      SelectionStep(g, h);
      hide Selected, Rejected, Touches;
      assert g == Init(g) + [Last(g)];
    }
  }

  /** The segments of `g` that meet the points of `h`, over the common domain. */
  ghost function Select(g: Fun, h: Fun): Fun {
    Domain(g, h).(segs := Selected(g.segs, h.segs))
  }

  /** The other segments of `g`. If there is nothing to reject, or nothing to reject with, the result is
      a copy of `g`, with the domain of `g`. */
  ghost function Reject(g: Fun, h: Fun): Fun {
    if g.segs == [] || h.segs == [] then g else Domain(g, h).(segs := Rejected(g.segs, h.segs))
  }

  /** One segment of a merged function decides, if everything before it ends too early
      and it is the last one or ends late enough. */
  lemma CursorDecides(s: Interval, h: seq<Interval>, k: nat)
    requires Normal(h) && k < |h| && s.start < s.end
    requires forall m :: 0 <= m < k ==> h[m].end <= s.start
    requires s.start < h[k].end || k == |h| - 1
    ensures Touches(s, h) <==> s.Meets(h[k])
  {
    if s.Meets(h[k]) {
      MeetsTouches(s, h, k);
    }
  }

  /** bfiReject may leave its cursor anywhere: it first moves back while the segment lies before it. */
  lemma ReturningCursorDecides(s: Interval, h: seq<Interval>, back: nat, k: nat)
    requires Normal(h) && back <= k < |h| && s.start < s.end
    requires h[back].start < s.end || back == 0
    requires forall m :: back <= m < k ==> h[m].end <= s.start
    requires s.start < h[k].end || k == |h| - 1
    ensures Touches(s, h) <==> s.Meets(h[k])
  {
    if s.Meets(h[k]) {
      MeetsTouches(s, h, k);
    }
  }

  // -------------------------------------------------------------------------------------------
  // Conflict (bfiConflict_)
  // -------------------------------------------------------------------------------------------

  /** Sorted without repeats. */
  predicate StrictlySorted(segs: seq<Interval>) {
    forall i, j :: 0 <= i < j < |segs| ==> Before(segs[i], segs[j])
  }

  /** As Insert, but a segment that is already there is not inserted again. */
  function InsertUnique(segs: seq<Interval>, s: Interval): seq<Interval> {
    if segs == [] || Before(Last(segs), s) then segs + [s]
    else if s == Last(segs) then segs
    else InsertUnique(Init(segs), s) + [Last(segs)]
  }

  lemma {:induction false} InsertUniqueAdds(segs: seq<Interval>, s: Interval)
    requires StrictlySorted(segs)
    ensures StrictlySorted(InsertUnique(segs, s))
    ensures forall x :: x in InsertUnique(segs, s) <==> x in segs || x == s
  {
    if segs != [] && !Before(Last(segs), s) && s != Last(segs) {
      InsertUniqueAdds(Init(segs), s);
      assert segs == Init(segs) + [Last(segs)];
      var r := InsertUnique(Init(segs), s);
      forall i | 0 <= i < |r| ensures Before(r[i], Last(segs)) {
        assert r[i] in r;
      }
    } else if segs != [] && s != Last(segs) {
      assert segs == Init(segs) + [Last(segs)];
    }
  }

  lemma SplicedInit(segs: seq<Interval>, k: nat, x: Interval)
    requires k < |segs|
    ensures Init(segs) + [Last(segs)] == segs
    ensures Init(segs)[..k] + [x] + Init(segs)[k..] + [Last(segs)] == segs[..k] + [x] + segs[k..]
  {
  }

  /** Where bfiInsertUnique puts a segment. */
  lemma {:induction false} UniquePlace(segs: seq<Interval>, k: nat, x: Interval)
    requires Sorted(segs) && k <= |segs|
    requires k > 0 ==> !Before(x, segs[k - 1])
    requires k < |segs| ==> Before(x, segs[k])
    ensures InsertUnique(segs, x) == if k > 0 && segs[k - 1] == x then segs else segs[..k] + [x] + segs[k..]
  {
    if k < |segs| {
      assert Before(x, Last(segs)) by {
        assert k < |segs| - 1 ==> !Before(Last(segs), segs[k]);
      }
      UniquePlace(Init(segs), k, x);
      SplicedInit(segs, k, x);
    } else {
      assert segs[..k] == segs;
    }
  }

  /** bfiInsertUnique stops its search at the domain cell, and then compares with the bounds of the domain. */
  function InsertUniqueInto(f: Fun, x: Interval): Fun {
    if x == Interval(f.hi, f.lo) && (f.segs == [] || Before(x, f.segs[0])) then f
    else f.(segs := InsertUnique(f.segs, x))
  }

  function Elements(segs: seq<Interval>): set<Interval> {
    set x | x in segs
  }

  /** For a segment that is not empty the bounds of the domain do not matter. */
  lemma InsertUniqueIntoAdds(f: Fun, x: Interval)
    requires f.lo <= f.hi && StrictlySorted(f.segs) && x.start < x.end
    ensures var r := InsertUniqueInto(f, x);
      StrictlySorted(r.segs) && Elements(r.segs) == Elements(f.segs) + {x} && r == f.(segs := r.segs)
  {
    InsertUniqueAdds(f.segs, x);
  }

  /** A strictly sorted list is determined by its elements. */
  lemma {:induction false} StrictlySortedIsUnique(a: seq<Interval>, b: seq<Interval>)
    requires StrictlySorted(a) && StrictlySorted(b) && Elements(a) == Elements(b)
    ensures a == b
  {
    if a == [] || b == [] {
      assert |a| > 0 ==> Last(a) in Elements(a);
      assert |b| > 0 ==> Last(b) in Elements(b);
    } else {
      assert Last(a) in Elements(b) && Last(b) in Elements(a);
      assert Last(a) == Last(b);
      forall x ensures x in Elements(Init(a)) <==> x in Elements(Init(b)) {
        ElementsOfInit(a, x);
        ElementsOfInit(b, x);
      }
      StrictlySortedIsUnique(Init(a), Init(b));
      assert a == Init(a) + [Last(a)] && b == Init(b) + [Last(b)];
    }
  }

  lemma ElementsOfInit(a: seq<Interval>, x: Interval)
    requires StrictlySorted(a) && a != []
    ensures x in Elements(Init(a)) <==> x in Elements(a) && x != Last(a)
  {
    assert a == Init(a) + [Last(a)];
  }

  /** The overlaps that are found from segment `i` against `j` and its successors. */
  function ConflictRow(segs: seq<Interval>, i: nat, j: nat): set<Interval>
    requires i < |segs|
    decreases |segs| - j
  {
    if j >= |segs| || segs[i].end <= segs[j].start then {} else {segs[i], segs[j]} + ConflictRow(segs, i, j + 1)
  }

  function ConflictRows(segs: seq<Interval>, i: nat): set<Interval>
    decreases |segs| - i
  {
    if i + 1 >= |segs| then {} else ConflictRow(segs, i, i + 1) + ConflictRows(segs, i + 1)
  }

  lemma {:induction false} ConflictRowIsExact(segs: seq<Interval>, i: nat, j: nat, x: Interval)
    requires Sorted(segs) && Proper(segs) && i < j && i < |segs|
    ensures x in ConflictRow(segs, i, j) <==>
      exists k :: j <= k < |segs| && segs[i].Meets(segs[k]) && (x == segs[i] || x == segs[k])
    decreases |segs| - j
  {
    if j < |segs| && segs[j].start < segs[i].end {
      ConflictRowIsExact(segs, i, j + 1, x);
      assert segs[i].Meets(segs[j]);
    } else {
      assert forall k :: j <= k < |segs| ==> !segs[i].Meets(segs[k]);
    }
  }

  lemma {:induction false} ConflictRowsAreExact(segs: seq<Interval>, i: nat, x: Interval)
    requires Sorted(segs) && Proper(segs)
    ensures x in ConflictRows(segs, i) <==>
      exists a, b :: i <= a < b < |segs| && segs[a].Meets(segs[b]) && (x == segs[a] || x == segs[b])
    decreases |segs| - i
  {
    if i + 1 >= |segs| {
    } else {
      ConflictRowIsExact(segs, i, i + 1, x);
      ConflictRowsAreExact(segs, i + 1, x);
    }
  }

  /** Conflicts are exactly the segments that overlap some other segment of the list. */
  lemma ConflictIsExact(segs: seq<Interval>, x: Interval)
    requires Sorted(segs) && Proper(segs)
    ensures x in ConflictRows(segs, 0) <==>
      exists a, b :: 0 <= a < |segs| && 0 <= b < |segs| && a != b && x == segs[a] && segs[a].Meets(segs[b])
  {
    ConflictRowsAreExact(segs, 0, x);
    if a, b :| 0 <= a < |segs| && 0 <= b < |segs| && a != b && x == segs[a] && segs[a].Meets(segs[b]) {
      assert segs[b].Meets(segs[a]);
    }
  }
}
