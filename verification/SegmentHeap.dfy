/** The heap of lib/nbbfi.c: functions are circular doubly linked lists of cells, and all cells that belong
    to no function are on one free list. */
module SegmentHeap {
  import opened Intervals

  const BLOCK := 256

  class Seg {
    var prior: Seg?
    var next: Seg?
    var start: int
    var end: int
    /** The function whose circle the cell is on; null for a free cell. */
    ghost var owner: Seg?

    constructor ()
      ensures owner == null
    {
      prior, next, start, end, owner := null, null, 0, 0, null;
    }

    ghost function Segment(): Interval
      reads this`start, this`end
    {
      Interval(start, end)
    }
  }

  // -------------------------------------------------------------------------------------------
  // Linked structures
  // -------------------------------------------------------------------------------------------

  /** `free` is a chain that ends in null. */
  ghost predicate FreeChain(head: Seg?, free: seq<Seg>)
    reads free
  {
    && head == (if free == [] then null else free[0])
    && (forall i :: 0 <= i < |free| ==> free[i].owner == null)
    && (forall i, j :: 0 <= i < j < |free| ==> free[i] != free[j])
    && (forall i {:trigger free[i].next} :: 0 <= i < |free| - 1 ==> free[i].next == free[i + 1])
    && (free != [] ==> free[|free| - 1].next == null)
  }

  /** `cs` is a circle linked both ways, whose cells belong to `f`. */
  ghost predicate Ring(f: Seg, cs: seq<Seg>)
    reads cs`owner, cs`next, cs`prior
  {
    && cs != [] && cs[0] == f
    && (forall i :: 0 <= i < |cs| ==> cs[i].owner == f)
    && (forall i, j :: 0 <= i < j < |cs| ==> cs[i] != cs[j])
    && (forall i {:trigger cs[i].next} :: 0 <= i < |cs| - 1 ==> cs[i].next == cs[i + 1])
    && (forall i {:trigger cs[i].prior} :: 1 <= i < |cs| ==> cs[i].prior == cs[i - 1])
    && cs[|cs| - 1].next == f && f.prior == cs[|cs| - 1]
  }

  /** The first cell holds the domain, the others the segments, in order. */
  ghost predicate Holds(cs: seq<Seg>, fun: Fun)
    reads cs`start, cs`end
  {
    && |cs| == |fun.segs| + 1
    && cs[0].start == fun.hi && cs[0].end == fun.lo && fun.lo <= fun.hi
    && (forall i {:trigger cs[i].Segment()} {:trigger fun.segs[i - 1]} :: 1 <= i < |cs| ==>
      cs[i].Segment() == fun.segs[i - 1])
    && Sorted(fun.segs)
  }

  ghost function Spliced(segs: seq<Interval>, k: nat, x: Interval): seq<Interval>
    requires k <= |segs|
  {
    segs[..k] + [x] + segs[k..]
  }

  ghost function Linked(cs: seq<Seg>, k: nat, t: Seg): seq<Seg>
    requires k < |cs|
  {
    cs[..k + 1] + [t] + cs[k + 1..]
  }

  /** Link cell `t` in behind cell `s`, which is at position `k` of the circle of `f`. */
  method Link(f: Seg, s: Seg, t: Seg, ghost k: nat, ghost cs: seq<Seg>)
    requires Ring(f, cs) && k < |cs| && s == cs[k] && t !in cs && s.next != null
    modifies t`prior, t`next, t`owner, s`next, s.next`prior
    ensures Ring(f, Linked(cs, k, t))
  {
    ghost var n := |cs|;
    assert s.next == if k + 1 < n then cs[k + 1] else cs[0];
    t.prior := s;
    t.next := s.next;
    s.next.prior := t;
    s.next := t;
    t.owner := f;
    ghost var cs' := Linked(cs, k, t);
    assert cs'[k + 1] == t && forall i :: 0 <= i <= k ==> cs'[i] == cs[i];
    assert forall i :: k + 1 < i <= n ==> cs'[i] == cs[i - 1];
    forall i | 0 <= i < n ensures cs'[i].next == cs'[i + 1] {
      if i > k + 1 {
        assert cs'[i] == cs[i - 1] && cs'[i + 1] == cs[i];
        assert cs[i - 1].next == cs[i];
      }
    }
    forall i | 1 <= i <= n ensures cs'[i].prior == cs'[i - 1] {
      if i > k + 2 {
        assert cs'[i] == cs[i - 1] && cs'[i - 1] == cs[i - 2];
        assert cs[i - 1].prior == cs[i - 2];
      }
    }
  }

  lemma HoldsSpliced(cs: seq<Seg>, fun: Fun, k: nat, t: Seg, x: Interval)
    requires Holds(cs, fun) && k < |cs| && t.Segment() == x && Sorted(Spliced(fun.segs, k, x))
    ensures Holds(Linked(cs, k, t), fun.(segs := Spliced(fun.segs, k, x)))
  {
    var cs', segs := Linked(cs, k, t), Spliced(fun.segs, k, x);
    forall i | 1 <= i < |cs'| ensures cs'[i].Segment() == segs[i - 1] {
      if i > k + 1 {
        assert cs'[i] == cs[i - 1] && cs[i - 1].Segment() == fun.segs[i - 2] == segs[i - 1];
      } else if i <= k {
        assert cs'[i] == cs[i] && cs[i].Segment() == fun.segs[i - 1] == segs[i - 1];
      }
    }
  }

  /** Insertion, when it is known that `x` belongs before position `k` or at it. */
  ghost function InsertBelow(segs: seq<Interval>, k: nat, x: Interval): seq<Interval>
    requires k <= |segs|
  {
    Insert(segs[..k], x) + segs[k..]
  }

  lemma InsertStep(segs: seq<Interval>, k: nat, x: Interval)
    requires k <= |segs|
    ensures k == |segs| ==> Insert(segs, x) == InsertBelow(segs, k, x)
    ensures k > 0 && Before(x, segs[k - 1]) ==>
      InsertBelow(segs, k, x) == InsertBelow(segs, k - 1, x)
    ensures k == 0 || !Before(x, segs[k - 1]) ==> InsertBelow(segs, k, x) == Spliced(segs, k, x)
  {
    if k == |segs| {
      assert segs[..k] == segs;
    }
    if k > 0 {
      assert Last(segs[..k]) == segs[k - 1] && Init(segs[..k]) == segs[..k - 1];
      assert segs[k - 1..] == [segs[k - 1]] + segs[k..];
    }
  }

  /** What the links of a cell and its fields say, by its position on the circle. */
  lemma At(f: Seg, cs: seq<Seg>, fun: Fun, i: nat)
    requires Ring(f, cs) && Holds(cs, fun) && i < |cs|
    ensures |cs| == |fun.segs| + 1
    ensures cs[i] == f <==> i == 0
    ensures cs[i].next == if i + 1 < |cs| then cs[i + 1] else f
    ensures cs[i].prior == if i > 0 then cs[i - 1] else cs[|cs| - 1]
    ensures i > 0 ==> cs[i].start == fun.segs[i - 1].start && cs[i].end == fun.segs[i - 1].end
    ensures f.start == fun.hi && f.end == fun.lo && fun.lo <= fun.hi
  {
    assert i > 0 ==> cs[i].Segment() == fun.segs[i - 1];
  }

  /** Fill in cell `t` and link it in. */
  method LinkCell(f: Seg, s: Seg, t: Seg, x: Interval, ghost k: nat, ghost cs: seq<Seg>, ghost fun: Fun)
    requires Ring(f, cs) && Holds(cs, fun) && k < |cs| && s == cs[k] && t !in cs && s.next != null
    requires Sorted(Spliced(fun.segs, k, x))
    modifies t, cs
    ensures Ring(f, Linked(cs, k, t)) && Holds(Linked(cs, k, t), fun.(segs := Spliced(fun.segs, k, x)))
    ensures t.owner == f && forall c :: c in cs ==> c.owner == f
    ensures t in Linked(cs, k, t) && forall c :: c in Linked(cs, k, t) <==> c in cs || c == t
  {
    assert s.next in cs;
    t.start := x.start;
    t.end := x.end;
    Link(f, s, t, k, cs);
    HoldsSpliced(cs, fun, k, t, x);
    assert Linked(cs, k, t)[k + 1] == t;
    assert cs == cs[..k + 1] + cs[k + 1..];
  }

  /** What the search for the place of `x` sees at cell `k`. */
  lemma SearchAt(f: Seg, cs: seq<Seg>, fun: Fun, k: nat, x: Interval)
    requires Ring(f, cs) && Holds(cs, fun) && k < |cs|
    ensures |cs| == |fun.segs| + 1 && (cs[k] == f <==> k == 0) && cs[k].next != null && cs[k].prior != null
    ensures k > 0 ==> cs[k].prior == cs[k - 1]
    ensures k > 0 ==>
      (Before(x, fun.segs[k - 1]) <==> x.start < cs[k].start || (x.start == cs[k].start && x.end < cs[k].end))
    ensures k > 0 && Before(x, fun.segs[k - 1]) ==> InsertBelow(fun.segs, k, x) == InsertBelow(fun.segs, k - 1, x)
    ensures k == 0 || !Before(x, fun.segs[k - 1]) ==> InsertBelow(fun.segs, k, x) == Spliced(fun.segs, k, x)
  {
    At(f, cs, fun, k);
    hide Ring, Holds, InsertBelow, Spliced;
    InsertStep(fun.segs, k, x);
  }

  /** The place in the circle of `f` where `x` belongs: behind the last segment that is not greater. */
  method FindPlace(f: Seg, x: Interval, ghost cs: seq<Seg>, ghost fun: Fun) returns (s: Seg, ghost k: nat)
    requires Ring(f, cs) && Holds(cs, fun)
    ensures k < |cs| == |fun.segs| + 1 && s == cs[k] && s.next != null
    ensures Insert(fun.segs, x) == Spliced(fun.segs, k, x)
    ensures k > 0 ==> !Before(x, fun.segs[k - 1])
    ensures k < |fun.segs| ==> Before(x, fun.segs[k])
  {
    assert |cs| == |fun.segs| + 1;
    hide *;
    At(f, cs, fun, 0);
    k := |fun.segs|;
    SearchAt(f, cs, fun, k, x);
    InsertStep(fun.segs, k, x);
    s := f.prior;
    while s != f && (x.start < s.start || (x.start == s.start && x.end < s.end))
      invariant k < |cs| && s == cs[k] && (s == f <==> k == 0)
      invariant k < |fun.segs| ==> Before(x, fun.segs[k])
      invariant Insert(fun.segs, x) == InsertBelow(fun.segs, k, x)
      decreases k
    {
      SearchAt(f, cs, fun, k, x);
      s := s.prior;
      k := k - 1;
      SearchAt(f, cs, fun, k, x);
    }
    SearchAt(f, cs, fun, k, x);
  }

  /** A block of new cells. */
  method Block() returns (block: seq<Seg>)
    ensures |block| == BLOCK
    ensures forall i :: 0 <= i < BLOCK ==> fresh(block[i]) && block[i].owner == null
    ensures forall i, j :: 0 <= i < j < BLOCK ==> block[i] != block[j]
  {
    block := [];
    while |block| < BLOCK
      invariant |block| <= BLOCK
      invariant forall i :: 0 <= i < |block| ==> fresh(block[i]) && block[i].owner == null
      invariant forall i, j :: 0 <= i < j < |block| ==> block[i] != block[j]
    {
      var c := new Seg();
      block := block + [c];
    }
  }

  /** Chain all but the last cell of a block. */
  method ChainBlock(block: seq<Seg>)
    requires |block| == BLOCK
    requires forall i, j :: 0 <= i < j < BLOCK ==> block[i] != block[j]
    modifies block`next
    ensures forall i {:trigger block[i].next} :: 0 <= i < BLOCK - 2 ==> block[i].next == block[i + 1]
    ensures block[BLOCK - 2].next == null
  {
    var i := 0;
    while i < BLOCK - 2
      invariant 0 <= i <= BLOCK - 2
      invariant forall k {:trigger block[k].next} :: 0 <= k < i ==> block[k].next == block[k + 1]
    {
      block[i].next := block[i + 1];
      i := i + 1;
    }
    block[i].next := null;
  }

  /** Put a whole circle in front of a chain. */
  method Splice(f: Seg, head: Seg?, ghost cs: seq<Seg>, ghost free: seq<Seg>)
    requires Ring(f, cs) && FreeChain(head, free) && f.prior != null
    modifies cs
    ensures FreeChain(f, cs + free) && forall c :: c in cs ==> c.owner == null
  {
    ghost var chain := cs + free;
    assert f.prior == cs[|cs| - 1];
    f.prior.next := head;
    forall i | 0 <= i < |cs| {
      cs[i].owner := null;
    }
    forall i | 0 <= i < |chain| - 1 ensures chain[i].next == chain[i + 1] {
      if i < |cs| - 1 {
        assert chain[i] == cs[i] && chain[i + 1] == cs[i + 1] && cs[i].next == cs[i + 1];
      } else if i >= |cs| {
        assert chain[i] == free[i - |cs|] && chain[i + 1] == free[i - |cs| + 1];
        assert free[i - |cs|].next == free[i - |cs| + 1];
      }
    }
    assert free != [] ==> chain[|chain| - 1] == free[|free| - 1];
  }

  /** Move the end of the last segment. */
  method SetLast(f: Seg, end: int, ghost cs: seq<Seg>, ghost fun: Fun)
    requires Ring(f, cs) && Holds(cs, fun) && fun.segs != [] && f.prior != null
    requires Sorted(Init(fun.segs) + [Interval(Last(fun.segs).start, end)])
    modifies f.prior`end
    ensures Ring(f, cs)
    ensures Holds(cs, fun.(segs := Init(fun.segs) + [Interval(Last(fun.segs).start, end)]))
  {
    ghost var n := |cs| - 1;
    assert cs[n].Segment() == fun.segs[n - 1];
    assert forall i :: 1 <= i < n ==> cs[i].Segment() == fun.segs[i - 1];
    f.prior.end := end;
    ghost var segs := Init(fun.segs) + [Interval(Last(fun.segs).start, end)];
    forall i | 1 <= i <= n ensures cs[i].Segment() == segs[i - 1] {
    }
  }

  // -------------------------------------------------------------------------------------------
  // The store
  // -------------------------------------------------------------------------------------------

  /** What a store consists of. */
  datatype Base = Base(cells: set<Seg>, live: map<Seg, seq<Seg>>, funs: map<Seg, Fun>)

  ghost function Without(b: Base, f: Seg): Base {
    Base(b.cells, b.live - {f}, b.funs - {f})
  }

  /** The cell of segment `i` on the circle `cs` of `g`; behind the last segment it is the domain cell again. */
  ghost function Pos(g: Seg, cs: seq<Seg>, i: nat): Seg {
    if i + 1 < |cs| then cs[i + 1] else g
  }

  class Store {
    var bfifree: Seg?
    /** All cells ever allocated. */
    ghost var cells: set<Seg>
    ghost var free: seq<Seg>
    /** The circle of each live function, domain cell first. */
    ghost var live: map<Seg, seq<Seg>>
    /** What each live function stands for. */
    ghost var funs: map<Seg, Fun>

    ghost predicate Free()
      reads this, cells
    {
      (forall i :: 0 <= i < |free| ==> free[i] in cells) && FreeChain(bfifree, free)
    }

    /** The circle of a live function is in order. */
    ghost predicate Live(f: Seg)
      reads this, cells
    {
      && f in live && f in funs
      && (forall i :: 0 <= i < |live[f]| ==> live[f][i] in cells)
      && Ring(f, live[f]) && Holds(live[f], funs[f])
    }

    /** Every allocated cell is on the free list or on the circle of a live function. */
    ghost predicate Owned()
      reads this, cells
    {
      forall c :: c in cells ==> if c.owner == null then c in free else c.owner in live && c in live[c.owner]
    }

    /** The free list and the circles are in order, and partition the cells. */
    ghost predicate Valid()
      reads this, cells
    {
      Free() && live.Keys == funs.Keys && (forall f :: f in live ==> Live(f)) && Owned()
    }

    constructor ()
      ensures Valid() && cells == {} && funs == map[]
    {
      bfifree := null;
      cells, free, live, funs := {}, [], map[], map[];
    }

    /** The cell is as it was. */
    twostate predicate Same(c: Seg)
      reads c
    {
      && c.owner == old(c.owner) && c.next == old(c.next) && c.prior == old(c.prior)
      && c.start == old(c.start) && c.end == old(c.end)
    }

    /** A circle is in order as long as its own cells are. */
    twostate lemma OthersKept(new f: Seg?)
      requires old(live.Keys == funs.Keys) && forall g :: g in old(live) ==> old(Live(g))
      requires forall g :: g in live && g != f ==> g in old(live) && live[g] == old(live[g])
      requires forall g :: g in live && g != f ==> g in funs && funs[g] == old(funs[g])
      requires forall c :: c in old(cells) && old(c.owner) != null && old(c.owner) != f ==> c in cells && Same(c)
      ensures forall g :: g in live && g != f ==> Live(g)
    {
      forall g | g in live && g != f ensures Live(g) {
        assert old(Live(g));
        var cs := live[g];
        forall i | 0 <= i < |cs| ensures cs[i] in cells && Same(cs[i]) {
          assert cs[i] in old(cells) && old(cs[i].owner) == g;
        }
      }
    }

    // -----------------------------------------------------------------------------------------
    // Cells
    // -----------------------------------------------------------------------------------------

    /** Allocate a block of cells: all but the last go to the empty free list, the last one is returned. */
    method Alloc() returns (s: Seg)
      requires Valid() && bfifree == null
      modifies this`bfifree, this`free, this`cells
      ensures Valid() && s !in cells && fresh(s)
      ensures old(cells) <= cells && fresh(cells - old(cells)) && |free| == BLOCK - 1
    {
      hide Live, Ring, Holds;
      var block := Block();
      ChainBlock(block);
      bfifree := block[0];
      free := block[..BLOCK - 1];
      cells := cells + set k | 0 <= k < BLOCK - 1 :: block[k];
      s := block[BLOCK - 1];
      assert FreeChain(bfifree, free);
      OthersKept(null);
    }

    /** Take the first cell off the free list. */
    method PopFree() returns (t: Seg)
      requires Valid() && bfifree != null
      modifies this`bfifree, this`free, this`cells
      ensures Valid() && t !in cells
      ensures cells == old(cells) - {t} && t in old(cells)
    {
      hide Live, Ring, Holds;
      t := bfifree;
      assert t == free[0] && (|free| > 1 ==> t.next == free[1]);
      bfifree := t.next;
      free := free[1..];
      cells := cells - {t};
      assert FreeChain(bfifree, free);
      OthersKept(null);
    }

    /** Take a cell off the free list, or from a new block. It is on no list then. */
    method Take() returns (t: Seg)
      requires Valid()
      modifies this`bfifree, this`free, this`cells
      ensures Valid() && t !in cells
      ensures (t in old(cells) || fresh(t)) && old(cells) - {t} <= cells && fresh(cells - old(cells))
    {
      if bfifree == null {
        t := Alloc();
      } else {
        t := PopFree();
      }
    }

    // -----------------------------------------------------------------------------------------
    // Functions
    // -----------------------------------------------------------------------------------------

    /** What is known of the circle of a live function. */
    lemma LiveCells(f: Seg)
      requires Valid() && f in live
      ensures f in funs && Ring(f, live[f]) && Holds(live[f], funs[f])
      ensures forall c :: c in live[f] ==> c in cells && c.owner == f
      ensures |live[f]| == |funs[f].segs| + 1 && live[f][0] == f
    {
      assert Live(f);
    }

    lemma NotLive(t: Seg)
      requires Valid() && t !in cells
      ensures t !in live && t !in free && forall f :: f in live ==> t !in live[f]
    {
      forall f | f in live ensures t !in live[f] && f in cells {
        assert Live(f) && live[f][0] == f;
      }
    }

    /** A new function without segments. */
    method New(start: int, end: int) returns (f: Seg)
      requires Valid()
      modifies this, cells
      ensures Valid() && old(cells) <= cells && fresh(cells - old(cells))
      ensures f !in old(live) && live == old(live)[f := [f]] && funs == old(funs)[f := NewFun(start, end)]
    {
      hide *;
      f := Take();
      Adopt(f, start, end);
    }

    method Adopt(f: Seg, start: int, end: int)
      requires Valid() && f !in cells
      modifies this`cells, this`live, this`funs, f
      ensures Valid() && cells == old(cells) + {f}
      ensures f !in old(live) && live == old(live)[f := [f]] && funs == old(funs)[f := NewFun(start, end)]
    {
      NotLive(f);
      hide Ring, Holds, FreeChain, Live, Free, Owned;
      SetDomain(f, start, end);
      cells := cells + {f};
      live := live[f := [f]];
      funs := funs[f := NewFun(start, end)];
      FreeKept();
      AdoptedOwned(f);
      OthersKept(f);
      IsLive(f, f, []);
      AllLive(f);
    }

    twostate lemma AdoptedOwned(new f: Seg)
      requires old(Owned()) && f !in old(cells) && f !in old(live) && f.owner == f
      requires live == old(live)[f := [f]] && cells == old(cells) + {f} && free == old(free)
      requires forall c :: c in old(cells) ==> Same(c)
      ensures Owned()
    {
      forall c | c in old(cells) ensures if c.owner == null then c in free else c.owner in live && c in live[c.owner] {
        assert Same(c);
      }
    }

    method SetDomain(f: Seg, start: int, end: int)
      modifies f
      ensures Ring(f, [f]) && Holds([f], NewFun(start, end))
    {
      f.prior := f;
      f.next := f;
      if end > start {
        f.start := end;
        f.end := start;
      } else {
        f.start := start;
        f.end := end;
      }
      f.owner := f;
    }

    twostate lemma FreeKept()
      requires old(Free()) && free == old(free) && bfifree == old(bfifree)
      requires forall c :: c in old(cells) && old(c.owner) == null ==> c in cells && Same(c)
      ensures Free()
    {
      forall i | 0 <= i < |free| ensures free[i] in cells && Same(free[i]) {
        assert old(free[i].owner) == null;
      }
    }

    twostate lemma OwnedKept()
      requires old(Owned()) && live == old(live) && cells == old(cells) && free == old(free)
      requires forall c :: c in cells ==> c.owner == old(c.owner)
      ensures Owned()
    {
    }

    /** The circle of `f` is being rebuilt; everything else is in order. */
    ghost predicate ValidBut(f: Seg)
      reads this, cells
    {
      Free() && Owned() && live.Keys == funs.Keys && forall g :: g in live && g != f ==> Live(g)
    }

    /** The cell `t` goes into the circle of `f`, behind `s`. */
    method LinkOnly(f: Seg, s: Seg, t: Seg, x: Interval, ghost k: nat)
      requires Valid() && f in live && k < |live[f]| && s == live[f][k] && s.next != null && t !in cells
      requires Sorted(Spliced(funs[f].segs, k, x))
      modifies t, live[f]
      ensures ValidBut(f) && t.owner == f
      ensures Ring(f, Linked(live[f], k, t))
      ensures Holds(Linked(live[f], k, t), funs[f].(segs := Spliced(funs[f].segs, k, x)))
    {
      ghost var cs := live[f];
      LiveCells(f);
      NotLive(t);
      hide Ring, Holds, Live, FreeChain, Linked, Spliced;
      LinkCell(f, s, t, x, k, cs, funs[f]);
      FreeKept();
      OwnedKept();
      OthersKept(f);
    }

    /** Record that `t` has joined the circle of `f`. */
    ghost method Join(f: Seg, t: Seg, k: nat, fun: Fun)
      requires ValidBut(f) && f in live && f in cells && t !in cells && t.owner == f && k < |live[f]|
      requires forall c :: c in live[f] ==> c in cells && c.owner == f
      requires Ring(f, Linked(live[f], k, t)) && Holds(Linked(live[f], k, t), fun)
      modifies this`cells, this`live, this`funs
      ensures Valid() && cells == old(cells) + {t}
      ensures live == old(live)[f := Linked(old(live[f]), k, t)] && funs == old(funs)[f := fun]
    {
      hide Ring, Holds, FreeChain;
      ghost var cs, cs' := live[f], Linked(live[f], k, t);
      assert cs'[k + 1] == t;
      assert forall c :: c in cs' <==> c in cs || c == t by {
        assert cs == cs[..k + 1] + cs[k + 1..];
      }
      cells := cells + {t};
      live := live[f := cs'];
      funs := funs[f := fun];
      IsLive(f, t, cs);
      AllLive(f);
    }

    lemma IsLive(f: Seg, t: Seg, cs: seq<Seg>)
      requires f in live && f in funs && t in cells && forall c :: c in live[f] ==> c in cs || c == t
      requires forall c :: c in cs ==> c in cells
      requires Ring(f, live[f]) && Holds(live[f], funs[f])
      ensures Live(f)
    {
      hide Ring, Holds;
      forall i | 0 <= i < |live[f]| ensures live[f][i] in cells {
        assert live[f][i] in live[f];
      }
    }

    lemma AllLive(f: Seg)
      requires Free() && Owned() && live.Keys == funs.Keys && Live(f) && forall g :: g in live && g != f ==> Live(g)
      ensures Valid()
    {
      hide Live, Free, Owned;
    }

    /** Link the cell `t` into the circle of `f`, behind `s`. */
    method LinkIn(f: Seg, s: Seg, t: Seg, start: int, end: int, ghost k: nat)
      requires Valid() && f in live && k < |live[f]| && s == live[f][k] && s.next != null && t !in cells
      requires Sorted(Spliced(funs[f].segs, k, Interval(start, end)))
      modifies this`cells, this`live, this`funs, t, live[f]
      ensures Valid() && cells == old(cells) + {t}
      ensures live == old(live)[f := Linked(old(live[f]), k, t)]
      ensures funs == old(funs)[f := old(funs[f]).(segs := Spliced(old(funs[f]).segs, k, Interval(start, end)))]
    {
      LiveCells(f);
      hide *;
      LinkOnly(f, s, t, Interval(start, end), k);
      Join(f, t, k, funs[f].(segs := Spliced(funs[f].segs, k, Interval(start, end))));
    }

    /** Put a new cell into the circle of `f`, behind `s`. */
    method PutBehind(f: Seg, s: Seg, start: int, end: int, ghost k: nat)
      requires Valid() && f in live && f in funs && k < |live[f]| == |funs[f].segs| + 1 && s == live[f][k]
      requires s.next != null
      requires Sorted(Spliced(funs[f].segs, k, Interval(start, end)))
      modifies this, cells
      ensures Valid() && old(cells) <= cells && fresh(cells - old(cells))
      ensures f in live && live == old(live)[f := live[f]]
      ensures funs == old(funs)[f := old(funs[f]).(segs := Spliced(old(funs[f]).segs, k, Interval(start, end)))]
    {
      hide *;
      LiveCells(f);
      var t := Take();
      LinkIn(f, s, t, start, end, k);
    }

    /** Add a segment to a function, in its place. */
    method Insert(f: Seg, start: int, end: int)
      requires Valid() && f in live
      modifies this, cells
      ensures Valid() && old(cells) <= cells && fresh(cells - old(cells))
      ensures f in live && live == old(live)[f := live[f]]
      ensures funs == old(funs)[f := old(funs[f]).(segs := Intervals.Insert(old(funs[f]).segs, Interval(start, end)))]
    {
      hide *;
      LiveCells(f);
      SortedFun(f);
      var s, k := FindPlace(f, Interval(start, end), live[f], funs[f]);
      InsertKeepsOrder(funs[f].segs, Interval(start, end));
      PutBehind(f, s, start, end, k);
    }

    /** Add a segment to a function, unless it is there already (bfiInsertUnique). */
    method InsertUnique(f: Seg, start: int, end: int)
      requires Valid() && f in live
      modifies this, cells
      ensures Valid() && old(cells) <= cells && fresh(cells - old(cells))
      ensures f in live && live == old(live)[f := live[f]]
      ensures funs == old(funs)[f := InsertUniqueInto(old(funs[f]), Interval(start, end))]
    {
      hide *;
      LiveCells(f);
      SortedFun(f);
      ghost var x, fun := Interval(start, end), funs[f];
      var s, k := FindPlace(f, Interval(start, end), live[f], fun);
      InsertKeepsOrder(fun.segs, x);
      PlaceIsUnique(fun, k, x);
      At(f, live[f], fun, k);
      if start == s.start && end == s.end {
        assert live == live[f := live[f]] && funs == funs[f := fun];
        return;
      }
      PutBehind(f, s, start, end, k);
    }

    lemma PlaceIsUnique(fun: Fun, k: nat, x: Interval)
      requires Sorted(fun.segs) && k <= |fun.segs|
      requires k > 0 ==> !Before(x, fun.segs[k - 1])
      requires k < |fun.segs| ==> Before(x, fun.segs[k])
      ensures InsertUniqueInto(fun, x) ==
        if x == (if k > 0 then Interval(fun.segs[k - 1].start, fun.segs[k - 1].end) else Interval(fun.hi, fun.lo))
        then fun
        else fun.(segs := Spliced(fun.segs, k, x))
    {
      UniquePlace(fun.segs, k, x);
      hide Intervals.InsertUnique;
      if k > 0 {
        assert k > 1 ==> !Before(fun.segs[k - 1], fun.segs[0]);
        assert !Before(x, fun.segs[0]);
      }
    }

    /** A cell is on the free list, or on the circle of the one function that owns it, and nowhere else. */
    lemma CellsArePartitioned(c: Seg)
      requires Valid() && c in cells
      ensures c in free <==> c.owner == null
      ensures forall f :: f in live ==> (c in live[f] <==> c.owner == f)
      ensures c.owner != null ==> c.owner in live
    {
      forall f | f in live ensures c in live[f] <==> c.owner == f {
        LiveCells(f);
      }
    }

    lemma SortedFun(f: Seg)
      requires Valid() && f in live
      ensures Sorted(funs[f].segs) && funs[f].lo <= funs[f].hi
    {
      assert Live(f);
    }

    /** Return all cells of a function to the free list. */
    method Dispose(f: Seg)
      requires Valid() && f in live
      modifies this, cells
      ensures Valid() && cells == old(cells)
      ensures live == old(live) - {f} && funs == old(funs) - {f}
    {
      ghost var cs := live[f];
      LiveCells(f);
      At(f, cs, funs[f], 0);
      hide Ring, Holds, Live, FreeChain;
      Splice(f, bfifree, cs, free);
      bfifree := f;
      free := cs + free;
      live := live - {f};
      funs := funs - {f};
      Disposed(f, cs);
    }

    twostate lemma Disposed(new f: Seg, new cs: seq<Seg>)
      requires old(Valid()) && old(f in live && live[f] == cs) && f in old(live)
      requires live == old(live) - {f} && funs == old(funs) - {f} && cells == old(cells) && free == cs + old(free)
      requires forall c :: c in cs ==> c.owner == null && c in cells
      requires forall c :: c in old(cells) && old(c.owner) != f ==> Same(c)
      requires FreeChain(bfifree, free)
      ensures Valid()
    {
      hide Ring, Holds, Live, FreeChain;
      DisposedOwned(f, cs);
      OthersKept(f);
      assert Free() by {
        forall i | 0 <= i < |free| ensures free[i] in cells {
          assert free[i] in cs || free[i] in old(free);
        }
      }
      hide Free, Owned;
    }

    twostate lemma DisposedOwned(new f: Seg, new cs: seq<Seg>)
      requires old(Owned()) && old(f in live && live[f] == cs) && f in old(live)
      requires live == old(live) - {f} && cells == old(cells) && free == cs + old(free)
      requires forall c :: c in cs ==> c.owner == null
      requires forall c :: c in old(cells) && old(c.owner) != f ==> Same(c)
      ensures Owned()
    {
      forall c | c in old(cells) ensures if c.owner == null then c in free else c.owner in live && c in live[c.owner] {
        if old(c.owner) != f {
          assert Same(c);
        } else {
          assert c in cs;
        }
      }
    }

    /** Extend the last segment of a function. */
    method ExtendLast(f: Seg, end: int)
      requires Valid() && f in live && f in funs && funs[f].segs != []
      requires Last(funs[f].segs).end <= end
      modifies this`funs, cells
      ensures Valid()
      ensures var fun := old(funs[f]);
        funs == old(funs)[f := fun.(segs := Init(fun.segs) + [Interval(Last(fun.segs).start, end)])]
    {
      LiveCells(f);
      hide *;
      ghost var fun := funs[f].(segs := Init(funs[f].segs) + [Interval(Last(funs[f].segs).start, end)]);
      ExtendOnly(f, end, fun);
      Change(f, fun);
    }

    method ExtendOnly(f: Seg, end: int, ghost fun: Fun)
      requires Valid() && f in live && f in funs && funs[f].segs != [] && Last(funs[f].segs).end <= end
      requires fun == funs[f].(segs := Init(funs[f].segs) + [Interval(Last(funs[f].segs).start, end)])
      modifies live[f]
      ensures ValidBut(f) && Ring(f, live[f]) && Holds(live[f], fun)
      ensures forall c :: c in live[f] ==> c in cells
    {
      ghost var cs, was := live[f], funs[f];
      LiveCells(f);
      SortedFun(f);
      At(f, cs, was, 0);
      assert f.prior in cs;
      hide Ring, Holds, Live, FreeChain, Free, Owned;
      SetLast(f, end, cs, was);
      FreeKept();
      OwnedKept();
      OthersKept(f);
    }

    /** Record what the circle of `f` has come to hold. */
    ghost method Change(f: Seg, fun: Fun)
      requires ValidBut(f) && f in live && f in cells && Ring(f, live[f]) && Holds(live[f], fun)
      requires forall c :: c in live[f] ==> c in cells
      modifies this`funs
      ensures Valid() && funs == old(funs)[f := fun]
    {
      hide Ring, Holds, FreeChain;
      funs := funs[f := fun];
      IsLive(f, f, live[f]);
      AllLive(f);
    }

    // -----------------------------------------------------------------------------------------
    // Building a function
    // -----------------------------------------------------------------------------------------

    ghost function Snapshot(): Base
      reads this
    {
      Base(cells, live, funs)
    }

    /** The store is as it was before, and has one more function: `f`, which stands for `fun`.
        Every cell is accounted for. */
    ghost predicate Adds(f: Seg, before: Base, fun: Fun)
      reads this, cells
    {
      && Valid() && before.cells <= cells
      && f !in before.live && f !in before.funs && f in live && live == before.live[f := live[f]]
      && funs == before.funs[f := fun]
    }

    lemma AddsIsValid(f: Seg, before: Base, fun: Fun)
      requires Adds(f, before, fun)
      ensures Valid() && before.cells <= cells && f in live && f in funs && funs[f] == fun
      ensures f.prior != null && (fun.segs != [] ==> f.prior.end == Last(fun.segs).end)
    {
      Cursor(f, 0);
    }

    /** Return a temporary function while another one is kept. */
    method Drop(h: Seg, f: Seg, ghost before: Base, ghost fun: Fun)
      requires Adds(f, before, fun) && h in before.live && h in before.funs
      modifies this, cells
      ensures Adds(f, Without(before, h), fun) && cells == old(cells)
    {
      hide Valid, Ring, Holds, FreeChain, Sorted;
      ghost var circle := live[f];
      Dispose(h);
      Commutes(before.live, f, circle, h);
      Commutes(before.funs, f, fun, h);
    }

    static lemma Commutes<V>(m: map<Seg, V>, f: Seg, v: V, h: Seg)
      requires f != h
      ensures m[f := v] - {h} == (m - {h})[f := v]
    {
    }

    /** What was added, and dropped again, leaves no trace. */
    lemma WithoutAdded(f: Seg, before: Base, fun: Fun)
      requires Adds(f, before, fun)
      ensures f in live && f in funs && funs[f] == fun
      ensures Without(Snapshot(), f) == Base(cells, before.live, before.funs) && before.cells <= cells
    {
    }

    /** Looking back further. */
    lemma Since(f: Seg, before: Base, fun: Fun, earlier: Base)
      requires Adds(f, before, fun)
      requires earlier.cells <= before.cells && earlier.live == before.live && earlier.funs == before.funs
      ensures Adds(f, earlier, fun)
    {
    }

    /** Begin a new function. */
    method Begin(start: int, end: int) returns (f: Seg)
      requires Valid()
      modifies this, cells
      ensures Adds(f, old(Snapshot()), NewFun(start, end)) && fresh(cells - old(cells))
    {
      f := New(start, end);
    }

    /** Insert a segment into the function that is being built. */
    method Add(f: Seg, start: int, end: int, ghost before: Base, ghost fun: Fun)
      requires Adds(f, before, fun)
      modifies this, cells
      ensures Adds(f, before, fun.(segs := Intervals.Insert(fun.segs, Interval(start, end))))
      ensures fresh(cells - old(cells))
    {
      hide Valid, Ring, Holds, FreeChain, Sorted;
      Insert(f, start, end);
    }

    method Extend(f: Seg, end: int, ghost before: Base, ghost fun: Fun)
      requires Adds(f, before, fun) && fun.segs != [] && Last(fun.segs).end <= end
      modifies this, cells
      ensures Adds(f, before, fun.(segs := Init(fun.segs) + [Interval(Last(fun.segs).start, end)]))
      ensures fresh(cells - old(cells))
    {
      hide Valid, Ring, Holds, FreeChain, Sorted;
      ExtendLast(f, end);
    }

    // -----------------------------------------------------------------------------------------
    // Cursors
    // -----------------------------------------------------------------------------------------

    /** What a cursor on function `g` sees. */
    lemma Cursor(g: Seg, i: nat)
      requires Valid() && g in live && g in funs && i <= |funs[g].segs|
      ensures var s, segs := Pos(g, live[g], i), funs[g].segs;
        && (s == g <==> i == |segs|)
        && (i < |segs| ==> s.start == segs[i].start && s.end == segs[i].end && s.next == Pos(g, live[g], i + 1)
                           && s.prior == if i > 0 then Pos(g, live[g], i - 1) else g)
      ensures g.next == Pos(g, live[g], 0) && g.start == funs[g].hi && g.end == funs[g].lo && funs[g].lo <= funs[g].hi
      ensures g.prior != null && (funs[g].segs != [] ==> g.prior.end == Last(funs[g].segs).end)
    {
      LiveCells(g);
      var cs := live[g];
      At(g, cs, funs[g], 0);
      At(g, cs, funs[g], |cs| - 1);
      if i < |funs[g].segs| {
        At(g, cs, funs[g], i + 1);
      }
    }

    /** A cursor on another function is not disturbed by what is being built. */
    lemma CursorIn(f: Seg, before: Base, fun: Fun, g: Seg, i: nat)
      requires Adds(f, before, fun) && g in before.live && g in before.funs && i <= |before.funs[g].segs|
      ensures var s, segs := Pos(g, before.live[g], i), before.funs[g].segs;
        && (s == g <==> i == |segs|)
        && (i < |segs| ==> s.start == segs[i].start && s.end == segs[i].end && s.next == Pos(g, before.live[g], i + 1)
                           && s.prior == if i > 0 then Pos(g, before.live[g], i - 1) else g)
      ensures var G := before.funs[g];
        g.next == Pos(g, before.live[g], 0) && g.start == G.hi && g.end == G.lo && G.lo <= G.hi
    {
      Cursor(g, i);
    }

    // -----------------------------------------------------------------------------------------
    // Operations on one function
    // -----------------------------------------------------------------------------------------

    /** Merge overlapping and adjoining segments (bfiOr_). */
    method Or_(g: Seg) returns (f: Seg)
      requires Valid() && g in live && g in funs
      modifies this, cells
      ensures Adds(f, old(Snapshot()), MergeFun(old(funs[g]))) && fresh(cells - old(cells))
    {
      hide Adds, Valid, Ring, Holds, FreeChain, Sorted, Merge, NewFun, MergeFun;
      ghost var before, G := Snapshot(), funs[g];
      Cursor(g, 0);
      WholeMerge(G);
      var s := g.next;
      f := Begin(g.start, g.end);
      if s == g {
        return;
      }
      s := MergeFirst(f, g, s, before, G);
      ghost var i := 1;
      while s != g
        invariant 1 <= i <= |G.segs|
        invariant Adds(f, before, NewFun(G.hi, G.lo).(segs := Merge(G.segs[..i]))) && fresh(cells - old(cells))
        invariant s == Pos(g, before.live[g], i) && (s == g <==> i == |G.segs|)
        decreases |G.segs| - i
      {
        s := MergeOne(f, g, s, i, before, G);
        i := i + 1;
      }
      assert G.segs[..i] == G.segs;
    }

    /** The first segment. */
    method MergeFirst(f: Seg, g: Seg, s: Seg, ghost before: Base, ghost G: Fun) returns (s': Seg)
      requires g in before.live && g in before.funs && G == before.funs[g]
      requires Adds(f, before, NewFun(G.hi, G.lo)) && G.segs != [] && s == Pos(g, before.live[g], 0)
      modifies this, cells
      ensures Adds(f, before, NewFun(G.hi, G.lo).(segs := Merge(G.segs[..1]))) && fresh(cells - old(cells))
      ensures s' == Pos(g, before.live[g], 1) && (s' == g <==> 1 == |G.segs|)
    {
      hide Adds, Valid, Ring, Holds, FreeChain, Sorted, Merge, Intervals.Insert;
      ghost var fun := NewFun(G.hi, G.lo);
      CursorIn(f, before, fun, g, 0);
      MergePrefix(G.segs, 0);
      Add(f, s.start, s.end, before, fun);
      fun := fun.(segs := Merge(G.segs[..1]));
      CursorIn(f, before, fun, g, 0);
      CursorIn(f, before, fun, g, 1);
      s' := s.next;
    }

    /** The body of the merge loop. */
    method MergeOne(f: Seg, g: Seg, s: Seg, ghost i: nat, ghost before: Base, ghost G: Fun) returns (s': Seg)
      requires g in before.live && g in before.funs && G == before.funs[g] && 1 <= i < |G.segs|
      requires Adds(f, before, NewFun(G.hi, G.lo).(segs := Merge(G.segs[..i]))) && s == Pos(g, before.live[g], i)
      modifies this, cells
      ensures Adds(f, before, NewFun(G.hi, G.lo).(segs := Merge(G.segs[..i + 1]))) && fresh(cells - old(cells))
      ensures s' == Pos(g, before.live[g], i + 1) && (s' == g <==> i + 1 == |G.segs|)
    {
      hide Adds, Valid, Ring, Holds, FreeChain, Sorted, Merge, Intervals.Insert, NewFun;
      ghost var fun := NewFun(G.hi, G.lo).(segs := Merge(G.segs[..i]));
      AddsIsValid(f, before, fun);
      CursorIn(f, before, fun, g, i);
      MergePrefix(G.segs, i);
      if f.prior.end < s.start {
        Add(f, s.start, s.end, before, fun);
      } else if f.prior.end < s.end {
        Extend(f, s.end, before, fun);
      }
      fun := fun.(segs := Merge(G.segs[..i + 1]));
      CursorIn(f, before, fun, g, i);
      CursorIn(f, before, fun, g, i + 1);
      s' := s.next;
    }

    lemma WholeMerge(G: Fun)
      ensures MergeFun(G) == NewFun(G.hi, G.lo).(segs := Merge(G.segs))
      ensures G.segs == [] ==> MergeFun(G) == NewFun(G.hi, G.lo)
    {
    }

    lemma MergePrefix(segs: seq<Interval>, i: nat)
      requires i <= |segs|
      ensures i == |segs| ==> segs[..i] == segs
      ensures i == 0 ==> Merge(segs[..i]) == []
      ensures i == 0 < |segs| ==> Merge(segs[..1]) == Intervals.Insert([], Interval(segs[0].start, segs[0].end))
      ensures i > 0 ==> Merge(segs[..i]) != []
      ensures i < |segs| ==>
        Merge(segs[..i + 1]) == MergeNext(Merge(segs[..i]), Interval(segs[i].start, segs[i].end))
    {
      if i < |segs| {
        assert Init(segs[..i + 1]) == segs[..i] && Last(segs[..i + 1]) == segs[i];
      }
    }

    /** Insert segment `i` of function `g` into the function that is being built, and step to the next one. */
    method AddNext(f: Seg, g: Seg, s: Seg, ghost i: nat, ghost before: Base, ghost dom: Fun, ghost done: seq<Interval>)
      returns (s': Seg)
      requires g in before.live && g in before.funs && i < |before.funs[g].segs| && s == Pos(g, before.live[g], i)
      requires Adds(f, before, dom.(segs := InsertAll(done)))
      modifies this, cells
      ensures Adds(f, before, dom.(segs := InsertAll(done + [before.funs[g].segs[i]]))) && fresh(cells - old(cells))
      ensures s' == Pos(g, before.live[g], i + 1) && (s' == g <==> i + 1 == |before.funs[g].segs|)
    {
      hide Adds, Valid, Ring, Holds, FreeChain, Sorted, InsertAll, Intervals.Insert;
      ghost var G, fun := before.funs[g], dom.(segs := InsertAll(done));
      CursorIn(f, before, fun, g, i);
      InsertAllNext(done, G.segs[i]);
      Add(f, s.start, s.end, before, fun);
      fun := dom.(segs := InsertAll(done + [G.segs[i]]));
      CursorIn(f, before, fun, g, i);
      CursorIn(f, before, fun, g, i + 1);
      s' := s.next;
    }

    lemma InsertAllNext(done: seq<Interval>, x: Interval)
      ensures InsertAll(done + [x]) == Intervals.Insert(InsertAll(done), Interval(x.start, x.end))
      ensures InsertAll([]) == []
    {
      assert Init(done + [x]) == done;
    }

    lemma SameInserts(a: seq<Interval>, b: seq<Interval>)
      requires multiset(a) == multiset(b)
      ensures InsertAll(a) == InsertAll(b)
    {
      InsertAllSorts(a);
      InsertAllSorts(b);
      SortedIsUnique(InsertAll(a), InsertAll(b));
    }

    lemma NextInPrefix(segs: seq<Interval>, i: nat)
      requires i < |segs|
      ensures multiset(segs[..i + 1]) == multiset(segs[..i]) + multiset{segs[i]}
      ensures segs[..i + 1] == segs[..i] + [segs[i]]
    {
      assert segs[..i + 1] == segs[..i] + [segs[i]];
    }

    /** A copy of a function (bfiCopy). */
    method Copy(g: Seg) returns (f: Seg)
      requires Valid() && g in live && g in funs
      modifies this, cells
      ensures Adds(f, old(Snapshot()), old(funs[g])) && fresh(cells - old(cells))
    {
      hide Adds, Valid, Ring, Holds, FreeChain, Sorted, InsertAll;
      ghost var before, G := Snapshot(), funs[g];
      Cursor(g, 0);
      SortedFun(g);
      InsertingSorted(G.segs);
      f := Begin(g.start, g.end);
      ghost var dom := NewFun(G.hi, G.lo);
      InsertAllNext([], Interval(0, 0));
      CursorIn(f, before, dom, g, 0);
      var s := g.next;
      ghost var i := 0;
      while s != g
        invariant i <= |G.segs| && s == Pos(g, before.live[g], i) && (s == g <==> i == |G.segs|)
        invariant Adds(f, before, dom.(segs := InsertAll(G.segs[..i]))) && fresh(cells - old(cells))
        decreases |G.segs| - i
      {
        NextInPrefix(G.segs, i);
        s := AddNext(f, g, s, i, before, dom, G.segs[..i]);
        i := i + 1;
      }
      assert G.segs[..i] == G.segs;
    }

    /** A new function over the common domain of two (bfiDomain). */
    method NewDomain(g: Seg, h: Seg) returns (f: Seg)
      requires Valid() && g in live && g in funs && h in live && h in funs
      modifies this, cells
      ensures Adds(f, old(Snapshot()), Domain(old(funs[g]), old(funs[h]))) && fresh(cells - old(cells))
    {
      hide Adds, Valid, Ring, Holds, FreeChain, Sorted;
      Cursor(g, 0);
      Cursor(h, 0);
      var start, end;
      if g.end >= h.end { start := g.end; } else { start := h.end; }
      if g.start <= h.start { end := g.start; } else { end := h.start; }
      if end < start { end := start; }
      f := Begin(start, end);
    }

    /** Insert the segments of `g` from `i` on. */
    method AddRest(f: Seg, g: Seg, s0: Seg, ghost i0: nat, ghost before: Base, ghost dom: Fun,
                   ghost done: seq<Interval>)
      requires g in before.live && g in before.funs && i0 <= |before.funs[g].segs|
      requires s0 == Pos(g, before.live[g], i0) && (s0 == g <==> i0 == |before.funs[g].segs|)
      requires Adds(f, before, dom.(segs := InsertAll(done)))
      modifies this, cells
      ensures Adds(f, before, dom.(segs := InsertAll(done + before.funs[g].segs[i0..]))) && fresh(cells - old(cells))
    {
      hide *;
      ghost var segs := before.funs[g].segs;
      var s := s0;
      ghost var i := i0;
      assert done + segs[i0..i] == done;
      while s != g
        invariant i0 <= i <= |segs| && s == Pos(g, before.live[g], i) && (s == g <==> i == |segs|)
        invariant Adds(f, before, dom.(segs := InsertAll(done + segs[i0..i]))) && fresh(cells - old(cells))
        decreases |segs| - i
      {
        s := AddNext(f, g, s, i, before, dom, done + segs[i0..i]);
        assert done + segs[i0..i] + [segs[i]] == done + segs[i0..i + 1];
        i := i + 1;
      }
      assert segs[i0..i] == segs[i0..];
    }

    /** `done` is made of the first segments of both lists. */
    ghost predicate Taken(done: seq<Interval>, g: seq<Interval>, i: nat, h: seq<Interval>, j: nat) {
      i <= |g| && j <= |h| && multiset(done) == multiset(g[..i]) + multiset(h[..j])
    }

    lemma TakenNext(done: seq<Interval>, g: seq<Interval>, i: nat, h: seq<Interval>, j: nat)
      ensures Taken([], g, 0, h, 0)
      ensures Taken(done, g, i, h, j) && i < |g| ==> Taken(done + [g[i]], g, i + 1, h, j)
      ensures Taken(done, g, i, h, j) && j < |h| ==> Taken(done + [h[j]], g, i, h, j + 1)
    {
      if i < |g| {
        NextInPrefix(g, i);
      }
      if j < |h| {
        NextInPrefix(h, j);
      }
    }

    /** Insert from both functions, the smaller segment first, until one has no more. */
    method AddBoth(f: Seg, g: Seg, h: Seg, s0: Seg, t0: Seg, ghost before: Base, ghost dom: Fun)
      returns (s: Seg, t: Seg, ghost i: nat, ghost j: nat, ghost done: seq<Interval>)
      requires g in before.live && g in before.funs && h in before.live && h in before.funs
      requires s0 == Pos(g, before.live[g], 0) && (s0 == g <==> before.funs[g].segs == [])
      requires t0 == Pos(h, before.live[h], 0) && (t0 == h <==> before.funs[h].segs == [])
      requires Adds(f, before, dom.(segs := InsertAll([])))
      modifies this, cells
      ensures i <= |before.funs[g].segs| && s == Pos(g, before.live[g], i) && (s == g <==> i == |before.funs[g].segs|)
      ensures j <= |before.funs[h].segs| && t == Pos(h, before.live[h], j) && (t == h <==> j == |before.funs[h].segs|)
      ensures Taken(done, before.funs[g].segs, i, before.funs[h].segs, j)
      ensures Adds(f, before, dom.(segs := InsertAll(done))) && fresh(cells - old(cells))
    {
      hide *;
      ghost var G, H := before.funs[g].segs, before.funs[h].segs;
      s, t, i, j, done := s0, t0, 0, 0, [];
      TakenNext(done, G, i, H, j);
      while s != g && t != h
        invariant i <= |G| && s == Pos(g, before.live[g], i) && (s == g <==> i == |G|)
        invariant j <= |H| && t == Pos(h, before.live[h], j) && (t == h <==> j == |H|)
        invariant Taken(done, G, i, H, j)
        invariant Adds(f, before, dom.(segs := InsertAll(done))) && fresh(cells - old(cells))
        decreases |G| - i + |H| - j
      {
        TakenNext(done, G, i, H, j);
        var first := s.start < t.start || (s.start == t.start && s.end <= t.end);
        if first {
          s := AddNext(f, g, s, i, before, dom, done);
          done, i := done + [G[i]], i + 1;
        } else {
          t := AddNext(f, h, t, j, before, dom, done);
          done, j := done + [H[j]], j + 1;
        }
      }
    }

    /** All segments of both functions, in order (bfiUnion). */
    method Union(g: Seg, h: Seg) returns (f: Seg)
      requires Valid() && g in live && g in funs && h in live && h in funs
      modifies this, cells
      ensures Adds(f, old(Snapshot()), Intervals.Union(old(funs[g]), old(funs[h]))) && fresh(cells - old(cells))
    {
      hide Adds, Valid, Ring, Holds, FreeChain, Sorted, InsertAll, Domain;
      ghost var before, G, H := Snapshot(), funs[g], funs[h];
      ghost var dom := Domain(G, H);
      Cursor(g, 0);
      Cursor(h, 0);
      var s, t := g.next, h.next;
      f := NewDomain(g, h);
      DomainIsEmpty(G, H);
      InsertAllNext([], Interval(0, 0));
      ghost var i, j, done;
      s, t, i, j, done := AddBoth(f, g, h, s, t, before, dom);
      AddRest(f, g, s, i, before, dom, done);
      AddRest(f, h, t, j, before, dom, done + G.segs[i..]);
      AllTaken(G.segs, H.segs, i, j, done);
    }

    lemma AllTaken(g: seq<Interval>, h: seq<Interval>, i: nat, j: nat, done: seq<Interval>)
      requires i <= |g| && j <= |h| && Taken(done, g, i, h, j)
      ensures InsertAll(done + g[i..] + h[j..]) == InsertAll(g + h)
    {
      assert g == g[..i] + g[i..] && h == h[..j] + h[j..];
      SameInserts(done + g[i..] + h[j..], g + h);
    }

    lemma DomainIsEmpty(g: Fun, h: Fun)
      ensures Domain(g, h).segs == []
    {
    }

    /** bfiCompare answers 1 exactly when the two functions have the same domain and the same segments. */
    method Compare(g: Seg, h: Seg) returns (same: bool)
      requires Valid() && g in live && g in funs && h in live && h in funs
      ensures same <==> funs[g] == funs[h]
    {
      hide Valid, Ring, Holds, Sorted;
      ghost var G, H := funs[g], funs[h];
      Cursor(g, 0);
      Cursor(h, 0);
      var t := h.next;
      if g.start != h.start || g.end != h.end {
        return false;
      }
      var s := g.next;
      ghost var i := 0;
      while s != g
        invariant i <= |G.segs| && s == Pos(g, live[g], i) && (s == g <==> i == |G.segs|)
        invariant i <= |H.segs| && t == Pos(h, live[h], i) && (t == h <==> i == |H.segs|)
        invariant G.segs[..i] == H.segs[..i]
        decreases |G.segs| - i
      {
        Cursor(g, i);
        Cursor(h, i);
        if t == h || s.start != t.start || s.end != t.end {
          return false;
        }
        NextInPrefix(G.segs, i);
        NextInPrefix(H.segs, i);
        s, t, i := s.next, t.next, i + 1;
        Cursor(g, i);
        Cursor(h, i);
      }
      assert G.segs[..i] == G.segs;
      assert i == |H.segs| ==> H.segs[..i] == H.segs;
      return t == h;
    }

    /** The union of two functions, merged (bfiOr). */
    method Or(g: Seg, h: Seg) returns (f: Seg)
      requires Valid() && g in live && g in funs && h in live && h in funs
      modifies this, cells
      ensures Adds(f, old(Snapshot()), Intervals.Or(old(funs[g]), old(funs[h]))) && fresh(cells - old(cells))
    {
      hide Adds, Valid, Domain, InsertAll, Merge;
      ghost var b0, G, H := Snapshot(), funs[g], funs[h];
      var F := Union(g, h);
      ghost var U := Intervals.Union(G, H);
      WithoutAdded(F, b0, U);
      AddsIsValid(F, b0, U);
      ghost var b1 := Snapshot();
      f := Or_(F);
      Drop(F, f, b1, MergeFun(U));
      Since(f, Without(b1, F), MergeFun(U), b0);
      DomainAgain(G, H, U.segs);
    }

    /** Copying a domain keeps it. */
    lemma DomainAgain(g: Fun, h: Fun, segs: seq<Interval>)
      ensures var d := Domain(g, h).(segs := segs);
        NewFun(d.hi, d.lo).segs == [] && NewFun(d.hi, d.lo).(segs := segs) == d
    {
    }

    /** Every pair of overlapping segments, merged (bfiAnd_). */
    method And_(g: Seg) returns (f: Seg)
      requires Valid() && g in live && g in funs
      modifies this, cells
      ensures Adds(f, old(Snapshot()), old(AndFun(funs[g]))) && fresh(cells - old(cells))
    {
      hide Adds, Valid, Sorted, InsertAll, Merge, Row, Rows, NewFun;
      ghost var b0, G, i, done := Snapshot(), funs[g], 0, [];
      ghost var dom := NewFun(G.hi, G.lo);
      Cursor(g, 0);
      NothingYet(G);
      var h := Begin(g.start, g.end);
      CursorIn(h, b0, dom, g, 0);
      if g.next == g {
        return h;
      }
      var s := g.next;
      CursorIn(h, b0, dom, g, 1);
      while s.next != g
        invariant i < |G.segs| && s == Pos(g, b0.live[g], i) && s.next == Pos(g, b0.live[g], i + 1)
        invariant s.next == g <==> i + 1 == |G.segs|
        invariant Adds(h, b0, dom.(segs := InsertAll(done))) && fresh(cells - old(cells))
        invariant done + Rows(G.segs, i) == Rows(G.segs, 0)
        decreases |G.segs| - i
      {
        NextRow(G.segs, i);
        AndRow(h, g, s, i, b0, dom, done);
        done := done + Row(G.segs, i, i + 1);
        CursorIn(h, b0, dom.(segs := InsertAll(done)), g, i);
        CursorIn(h, b0, dom.(segs := InsertAll(done)), g, i + 1);
        CursorIn(h, b0, dom.(segs := InsertAll(done)), g, i + 2);
        s := s.next;
        i := i + 1;
      }
      LastRow(G.segs, i);
      assert done + [] == done;
      ghost var H := dom.(segs := InsertAll(done));
      WithoutAdded(h, b0, H);
      AddsIsValid(h, b0, H);
      ghost var b1 := Snapshot();
      f := Or_(h);
      Drop(h, f, b1, MergeFun(H));
      Since(f, Without(b1, h), MergeFun(H), b0);
      AndFunIs(G, H);
    }

    /** The inner loop of bfiAnd_: what segment `i` shares with the ones that follow it. */
    method AndRow(h: Seg, g: Seg, s: Seg, ghost i: nat, ghost before: Base, ghost dom: Fun, ghost done0: seq<Interval>)
      requires g in before.live && g in before.funs && i + 1 < |before.funs[g].segs|
      requires s == Pos(g, before.live[g], i)
      requires Adds(h, before, dom.(segs := InsertAll(done0)))
      modifies this, cells
      ensures Adds(h, before, dom.(segs := InsertAll(done0 + Row(before.funs[g].segs, i, i + 1))))
      ensures fresh(cells - old(cells))
    {
      hide Adds, Valid, Sorted, InsertAll, Row;
      ghost var segs, j, done := before.funs[g].segs, i + 1, done0;
      CursorIn(h, before, dom.(segs := InsertAll(done)), g, i);
      CursorIn(h, before, dom.(segs := InsertAll(done)), g, j);
      var t := s.next;
      while t != g && t.start < s.end
        invariant j <= |segs| && t == Pos(g, before.live[g], j) && (t == g <==> j == |segs|)
        invariant t != g ==> t.start == segs[j].start
        invariant s.end == segs[i].end
        invariant Adds(h, before, dom.(segs := InsertAll(done))) && fresh(cells - old(cells))
        invariant done + Row(segs, i, j) == done0 + Row(segs, i, i + 1)
        decreases |segs| - j
      {
        CursorIn(h, before, dom.(segs := InsertAll(done)), g, j);
        NextInRow(segs, i, j, done);
        var end;
        if s.end < t.end { end := s.end; } else { end := t.end; }
        ghost var x := Interval(t.start, end);
        InsertAllNext(done, x);
        Add(h, t.start, end, before, dom.(segs := InsertAll(done)));
        done := done + [x];
        CursorIn(h, before, dom.(segs := InsertAll(done)), g, i);
        CursorIn(h, before, dom.(segs := InsertAll(done)), g, j);
        CursorIn(h, before, dom.(segs := InsertAll(done)), g, j + 1);
        t := t.next;
        j := j + 1;
      }
      RowEnds(segs, i, j);
      assert done + [] == done;
    }

    lemma NextInRow(segs: seq<Interval>, i: nat, j: nat, done: seq<Interval>)
      requires i < |segs| && j < |segs| && segs[j].start < segs[i].end
      ensures var x := Interval(segs[j].start, if segs[i].end < segs[j].end then segs[i].end else segs[j].end);
        done + [x] + Row(segs, i, j + 1) == done + Row(segs, i, j)
    {
    }

    lemma RowEnds(segs: seq<Interval>, i: nat, j: nat)
      requires i < |segs| && j <= |segs| && (j < |segs| ==> segs[i].end <= segs[j].start)
      ensures Row(segs, i, j) == []
    {
    }

    lemma NextRow(segs: seq<Interval>, i: nat)
      requires i + 1 < |segs|
      ensures forall done: seq<Interval> :: done + Rows(segs, i) == done + Row(segs, i, i + 1) + Rows(segs, i + 1)
    {
    }

    lemma LastRow(segs: seq<Interval>, i: nat)
      requires i + 1 == |segs|
      ensures Rows(segs, i) == []
    {
    }

    ghost function AndFun(g: Fun): Fun {
      NewFun(g.hi, g.lo).(segs := AndOf(g.segs))
    }

    /** What bfiAnd_ adds is defined where its argument is. */
    lemma AndFunKeepsDomain(g: Fun, p: int)
      requires g.lo <= g.hi
      ensures InDomain(AndFun(g), p) <==> InDomain(g, p)
    {
      NewDomainIs(g.hi, g.lo, p);
      hide AndOf;
    }

    lemma NothingYet(g: Fun)
      ensures NewFun(g.hi, g.lo).(segs := InsertAll([])) == NewFun(g.hi, g.lo)
      ensures g.segs == [] ==> AndFun(g) == NewFun(g.hi, g.lo)
    {
    }

    lemma AndFunIs(g: Fun, h: Fun)
      requires h == NewFun(g.hi, g.lo).(segs := InsertAll(Rows(g.segs, 0)))
      ensures MergeFun(h) == AndFun(g)
    {
    }

    // -----------------------------------------------------------------------------------------
    // Operations with temporaries
    // -----------------------------------------------------------------------------------------

    /** Two functions are added and removed again, in either order. */
    static lemma BothGone(b0: Base, b1: Base, b2: Base, f: Seg, h: Seg)
      requires Without(b1, f) == Base(b1.cells, b0.live, b0.funs)
      requires Without(b2, h) == Base(b2.cells, b1.live, b1.funs)
      ensures Without(Without(b2, f), h) == Base(b2.cells, b0.live, b0.funs)
    {
      assert b2.live - {f} - {h} == b2.live - {h} - {f};
      assert b2.funs - {f} - {h} == b2.funs - {h} - {f};
    }

    /** What stays when another function is added. */
    lemma StillThere(f: Seg, before: Base, fun: Fun, g: Seg)
      requires Adds(f, before, fun) && g in before.live && g in before.funs
      ensures g != f && g in live && g in funs && funs[g] == before.funs[g] && live[g] == before.live[g]
    {
    }

    /** The order in which two functions are added does not matter. */
    lemma AddedLast(f: Seg)
      requires Valid() && f in live && f in funs
      ensures Adds(f, Without(Snapshot(), f), funs[f])
    {
      hide Valid;
      assert live == (live - {f})[f := live[f]] && funs == (funs - {f})[f := funs[f]];
    }

    /** The points of both functions, merged (bfiAnd). */
    method And(g: Seg, h: Seg) returns (f: Seg)
      requires Valid() && g in live && g in funs && h in live && h in funs
      modifies this, cells
      ensures Adds(f, old(Snapshot()), Intervals.And(old(funs[g]), old(funs[h]))) && fresh(cells - old(cells))
    {
      hide Adds, Valid, Sorted, InsertAll, Merge, MergeFun, NewFun, Intervals.Union, Intervals.And, Intervals.Not,
        AndFun;
      ghost var b0, G, H := Snapshot(), funs[g], funs[h];
      SortedFun(g);
      SortedFun(h);
      ghost var MG, MH := MergeFun(G), MergeFun(H);
      var F := UnionOfMerged(g, h);
      ghost var U := Intervals.Union(MG, MH);
      WithoutAdded(F, b0, U);
      AddsIsValid(F, b0, U);
      ghost var b1 := Snapshot();
      f := And_(F);
      Drop(F, f, b1, AndFun(U));
      Since(f, Without(b1, F), AndFun(U), b0);
      AndFunOfUnion(G, H);
    }

    lemma AndFunOfUnion(g: Fun, h: Fun)
      requires g.lo <= g.hi && h.lo <= h.hi
      ensures AndFun(Intervals.Union(MergeFun(g), MergeFun(h))) == Intervals.And(g, h)
    {
    }

    /** The union of two merged functions; both temporaries are returned. */
    method UnionOfMerged(g: Seg, h: Seg) returns (f: Seg)
      requires Valid() && g in live && g in funs && h in live && h in funs
      modifies this, cells
      ensures Adds(f, old(Snapshot()), Intervals.Union(MergeFun(old(funs[g])), MergeFun(old(funs[h]))))
      ensures fresh(cells - old(cells))
    {
      hide Adds, Valid, Sorted, InsertAll, Merge, MergeFun, NewFun, Intervals.Union, Intervals.And, Intervals.Not,
        AndFun;
      ghost var b0, MG, MH := Snapshot(), MergeFun(funs[g]), MergeFun(funs[h]);
      var G := Or_(g);
      AddsIsValid(G, b0, MG);
      WithoutAdded(G, b0, MG);
      StillThere(G, b0, MG, h);
      ghost var b1 := Snapshot();
      var H := Or_(h);
      AddsIsValid(H, b1, MH);
      WithoutAdded(H, b1, MH);
      StillThere(H, b1, MH, G);
      ghost var b2 := Snapshot();
      f := Union(G, H);
      ghost var U := Intervals.Union(MG, MH);
      Drop(G, f, b2, U);
      Drop(H, f, Without(b2, G), U);
      BothGone(b0, b1, b2, G, H);
      Since(f, Without(Without(b2, G), H), U, b0);
    }

    /** The complement within the domain (bfiNot_). */
    method Not_(g: Seg) returns (f: Seg)
      requires Valid() && g in live && g in funs
      modifies this, cells
      ensures Adds(f, old(Snapshot()), Intervals.Not(old(funs[g]))) && fresh(cells - old(cells))
    {
      hide Adds, Valid, Sorted, InsertAll, Merge, MergeFun, NewFun, Intervals.Union, Intervals.And, Intervals.Not,
        AndFun;
      ghost var b0, G, dom, M := Snapshot(), funs[g], NewFun(funs[g].hi, funs[g].lo), MergeFun(funs[g]);
      Cursor(g, 0);
      f := Begin(g.start, g.end);
      NotOfNothing(G);
      CursorIn(f, b0, dom, g, 0);
      if g.next == g {
        return;
      }
      AddsIsValid(f, b0, dom);
      WithoutAdded(f, b0, dom);
      StillThere(f, b0, dom, g);
      ghost var b1 := Snapshot();
      var h := Or_(g);
      AddsIsValid(h, b1, M);
      WithoutAdded(h, b1, M);
      StillThere(h, b1, M, f);
      ghost var b2 := Snapshot();
      AddedLast(f);
      MergeIsThere(G);
      FillGaps(f, h, Without(b2, f), dom, G);
      Drop(h, f, Without(b2, f), Intervals.Not(G));
      BothGone(b0, b1, b2, f, h);
      Since(f, Without(Without(b2, f), h), Intervals.Not(G), b0);
    }

    lemma NotOfNothing(g: Fun)
      ensures g.segs == [] ==> Intervals.Not(g) == NewFun(g.hi, g.lo)
      ensures NewFun(g.hi, g.lo) == NewFun(g.hi, g.lo).(segs := InsertAll([]))
    {
    }

    lemma MergeIsThere(g: Fun)
      requires g.lo <= g.hi && g.segs != []
      ensures MergeFun(g).segs == Merge(g.segs) != [] && MergeFun(g).hi == g.hi && MergeFun(g).lo == g.lo
    {
      MergePrefix(g.segs, |g.segs|);
    }

    /** Insert the gaps of a merged function. */
    method FillGaps(f: Seg, h: Seg, ghost before: Base, ghost dom: Fun, ghost G: Fun)
      requires Adds(f, before, dom.(segs := InsertAll([]))) && dom == NewFun(G.hi, G.lo)
      requires h in before.live && h in before.funs && before.funs[h] == MergeFun(G) && G.segs != [] && G.lo <= G.hi
      modifies this, cells
      ensures Adds(f, before, Intervals.Not(G)) && fresh(cells - old(cells))
    {
      hide *;
      MergeIsThere(G);
      ghost var segs := Merge(G.segs);
      ghost var done := FirstGap(f, h, before, dom);
      ghost var k := 0;
      CursorIn(f, before, dom.(segs := InsertAll(done)), h, 0);
      var s := h.next;
      while s != h && s.end < h.start
        invariant k <= |segs| && s == Pos(h, before.live[h], k) && (s == h <==> k == |segs|)
        invariant s != h ==> s.end == segs[k].end
        invariant h.start == G.hi
        invariant Adds(f, before, dom.(segs := InsertAll(done))) && fresh(cells - old(cells))
        invariant done + Gaps(segs, G.hi, k) == NotOf(segs, G.lo, G.hi)
        decreases |segs| - k
      {
        done, s := NextGap(f, h, s, k, before, dom, done);
        k := k + 1;
      }
      NoMoreGaps(G, k, done);
    }

    method FirstGap(f: Seg, h: Seg, ghost before: Base, ghost dom: Fun) returns (ghost done: seq<Interval>)
      requires h in before.live && h in before.funs && before.funs[h].segs != []
      requires Adds(f, before, dom.(segs := InsertAll([])))
      modifies this, cells
      ensures Adds(f, before, dom.(segs := InsertAll(done))) && fresh(cells - old(cells))
      ensures var H := before.funs[h]; done + Gaps(H.segs, H.hi, 0) == NotOf(H.segs, H.lo, H.hi)
    {
      hide Adds, Valid, Sorted, InsertAll, Intervals.Insert, Gaps;
      ghost var segs := before.funs[h].segs;
      done := [];
      CursorIn(f, before, dom.(segs := InsertAll([])), h, 0);
      assert segs != [] ==> h.next.start == segs[0].start;
      if h.end < h.next.start {
        done := [Interval(h.end, h.next.start)];
        InsertAllNext([], done[0]);
        assert [] + done == done;
        Add(f, h.end, h.next.start, before, dom.(segs := InsertAll([])));
      } else {
        assert [] + Gaps(segs, before.funs[h].hi, 0) == Gaps(segs, before.funs[h].hi, 0);
      }
    }

    /** The body of the loop in bfiNot_. */
    method NextGap(f: Seg, h: Seg, s: Seg, ghost k: nat, ghost before: Base, ghost dom: Fun, ghost done: seq<Interval>)
      returns (ghost done': seq<Interval>, s': Seg)
      requires h in before.live && h in before.funs && k < |before.funs[h].segs|
      requires before.funs[h].segs[k].end < before.funs[h].hi && s == Pos(h, before.live[h], k)
      requires Adds(f, before, dom.(segs := InsertAll(done)))
      modifies this, cells
      ensures Adds(f, before, dom.(segs := InsertAll(done'))) && fresh(cells - old(cells))
      ensures var H := before.funs[h]; done' + Gaps(H.segs, H.hi, k + 1) == done + Gaps(H.segs, H.hi, k)
      ensures s' == Pos(h, before.live[h], k + 1) && (s' == h <==> k + 1 == |before.funs[h].segs|)
      ensures s' != h ==> s'.end == before.funs[h].segs[k + 1].end
      ensures h.start == before.funs[h].hi
    {
      hide Adds, Valid, Sorted, InsertAll, Intervals.Insert, Gaps;
      ghost var fun, H := dom.(segs := InsertAll(done)), before.funs[h];
      CursorIn(f, before, fun, h, k);
      CursorIn(f, before, fun, h, k + 1);
      GapStep(H.segs, H.hi, k, done);
      done' := done;
      if s.end < s.next.start {
        done' := done + [Interval(s.end, s.next.start)];
        InsertAllNext(done, Interval(s.end, s.next.start));
        Add(f, s.end, s.next.start, before, fun);
      }
      CursorIn(f, before, dom.(segs := InsertAll(done')), h, k);
      CursorIn(f, before, dom.(segs := InsertAll(done')), h, k + 1);
      s' := s.next;
    }

    lemma GapStep(segs: seq<Interval>, hi: int, k: nat, done: seq<Interval>)
      requires k < |segs| && segs[k].end < hi
      ensures var next := if k + 1 < |segs| then segs[k + 1].start else hi;
        (if segs[k].end < next then done + [Interval(segs[k].end, next)] else done) + Gaps(segs, hi, k + 1)
        == done + Gaps(segs, hi, k)
    {
    }

    lemma NoMoreGaps(G: Fun, k: nat, done: seq<Interval>)
      requires G.lo <= G.hi && k <= |Merge(G.segs)| && (k < |Merge(G.segs)| ==> Merge(G.segs)[k].end >= G.hi)
      requires done + Gaps(Merge(G.segs), G.hi, k) == NotOf(Merge(G.segs), G.lo, G.hi)
      ensures NewFun(G.hi, G.lo).(segs := InsertAll(done)) == Intervals.Not(G)
    {
      assert done + [] == done;
    }

    // -----------------------------------------------------------------------------------------
    // Selection
    // -----------------------------------------------------------------------------------------

    lemma SelectedNext(g: seq<Interval>, h: seq<Interval>, i: nat)
      requires Sorted(g) && i < |g|
      ensures Selected(g[..i + 1], h) == Selected(g[..i], h) + if Touches(g[i], h) then [g[i]] else []
      ensures Rejected(g[..i + 1], h) == Rejected(g[..i], h) + if Touches(g[i], h) then [] else [g[i]]
    {
      assert Init(g[..i + 1]) == g[..i] && Last(g[..i + 1]) == g[i];
    }

    /** Move the cursor on `h` forward to the segment that decides about `s`. */
    method Forward(f: Seg, s: Seg, h: Seg, t0: Seg, ghost k0: nat, ghost before: Base, ghost fun: Fun)
      returns (t: Seg, ghost k: nat)
      requires Adds(f, before, fun) && h in before.live && h in before.funs && k0 < |before.funs[h].segs|
      requires t0 == Pos(h, before.live[h], k0)
      ensures k0 <= k < |before.funs[h].segs| && t == Pos(h, before.live[h], k)
      ensures t != h && t.start == before.funs[h].segs[k].start && t.end == before.funs[h].segs[k].end
      ensures s.start < t.end || k == |before.funs[h].segs| - 1
      ensures forall m :: k0 <= m < k ==> before.funs[h].segs[m].end <= s.start
    {
      hide *;
      ghost var segs := before.funs[h].segs;
      t, k := t0, k0;
      CursorIn(f, before, fun, h, k);
      CursorIn(f, before, fun, h, k + 1);
      while s.start >= t.end && t.next != h
        invariant k0 <= k < |segs| && t == Pos(h, before.live[h], k) && t != h
        invariant t.start == segs[k].start && t.end == segs[k].end && (t.next == h <==> k == |segs| - 1)
        invariant forall m :: k0 <= m < k ==> segs[m].end <= s.start
        decreases |segs| - k
      {
        CursorIn(f, before, fun, h, k);
        t, k := t.next, k + 1;
        CursorIn(f, before, fun, h, k);
        CursorIn(f, before, fun, h, k + 1);
      }
    }

    /** Move the cursor on `h` back while `s` lies before it. */
    method Back(f: Seg, s: Seg, h: Seg, t0: Seg, ghost k0: nat, ghost before: Base, ghost fun: Fun)
      returns (t: Seg, ghost k: nat)
      requires Adds(f, before, fun) && h in before.live && h in before.funs && k0 < |before.funs[h].segs|
      requires t0 == Pos(h, before.live[h], k0)
      ensures k <= k0 && t == Pos(h, before.live[h], k)
      ensures before.funs[h].segs[k].start < s.end || k == 0
    {
      hide *;
      ghost var segs := before.funs[h].segs;
      t, k := t0, k0;
      CursorIn(f, before, fun, h, k);
      if k > 0 {
        CursorIn(f, before, fun, h, k - 1);
      }
      while s.end <= t.start && t.prior != h
        invariant k <= k0 && t == Pos(h, before.live[h], k) && t != h
        invariant t.start == segs[k].start && t.prior != null && (t.prior == h <==> k == 0)
        decreases k
      {
        CursorIn(f, before, fun, h, k);
        t, k := t.prior, k - 1;
        CursorIn(f, before, fun, h, k);
        if k > 0 {
          CursorIn(f, before, fun, h, k - 1);
        }
      }
    }

    lemma GoesLast(done: seq<Interval>, g: seq<Interval>, i: nat)
      requires Sorted(g) && i < |g| && multiset(done) <= multiset(g[..i])
      ensures Intervals.Insert(done, g[i]) == done + [g[i]] && done + [] == done
      ensures multiset(done) <= multiset(g[..i + 1]) && multiset(done + [g[i]]) <= multiset(g[..i + 1])
    {
      assert g[..i + 1] == g[..i] + [g[i]];
      forall s | s in done ensures s in g[..i] {
        assert s in multiset(done);
        assert s in multiset(g[..i]);
      }
      NextGoesLast(done, g, i);
    }

    /** Take segment `i` of `g`, or leave it, and step to the next one. */
    method TakeOrLeave(take: bool, f: Seg, g: Seg, s: Seg, ghost i: nat, ghost before: Base, ghost dom: Fun,
                       ghost done: seq<Interval>) returns (ghost done': seq<Interval>, s': Seg)
      requires g in before.live && g in before.funs && i < |before.funs[g].segs| && s == Pos(g, before.live[g], i)
      requires Adds(f, before, dom.(segs := done)) && Sorted(before.funs[g].segs)
      requires multiset(done) <= multiset(before.funs[g].segs[..i])
      modifies this, cells
      ensures done' == done + if take then [before.funs[g].segs[i]] else []
      ensures Adds(f, before, dom.(segs := done')) && multiset(done') <= multiset(before.funs[g].segs[..i + 1])
      ensures fresh(cells - old(cells))
      ensures s' == Pos(g, before.live[g], i + 1) && (s' == g <==> i + 1 == |before.funs[g].segs|)
    {
      hide *;
      ghost var x := before.funs[g].segs[i];
      done' := done;
      GoesLast(done, before.funs[g].segs, i);
      CursorIn(f, before, dom.(segs := done), g, i);
      assert Interval(x.start, x.end) == x && done + [] == done;
      if take {
        Add(f, s.start, s.end, before, dom.(segs := done));
        done' := done + [x];
      }
      CursorIn(f, before, dom.(segs := done'), g, i);
      CursorIn(f, before, dom.(segs := done'), g, i + 1);
      s' := s.next;
    }

    /** What bfiSelect and bfiReject begin with: a function with the common domain, and the other one merged. */
    method DomainAndMerge(g: Seg, h: Seg) returns (f: Seg, hh: Seg)
      requires Valid() && g in live && g in funs && h in live && h in funs
      modifies this, cells
      ensures f in funs && f in live && hh in live && hh in funs && hh != f && fresh(cells - old(cells))
      ensures Adds(f, Without(Snapshot(), f), Domain(old(funs[g]), old(funs[h])))
      ensures g in live && g in funs && g != f && g != hh && funs[g] == old(funs[g])
      ensures funs[hh] == MergeFun(old(funs[h]))
      ensures Without(Without(Snapshot(), f), hh) == Base(cells, old(live), old(funs)) && old(cells) <= cells
    {
      hide Adds, Valid, Merge, MergeFun, NewFun, Domain;
      ghost var b0, dom, M := Snapshot(), Domain(funs[g], funs[h]), MergeFun(funs[h]);
      f := NewDomain(g, h);
      AddsIsValid(f, b0, dom);
      WithoutAdded(f, b0, dom);
      StillThere(f, b0, dom, g);
      StillThere(f, b0, dom, h);
      ghost var b1 := Snapshot();
      hh := Or_(h);
      AddsIsValid(hh, b1, M);
      WithoutAdded(hh, b1, M);
      StillThere(hh, b1, M, f);
      StillThere(hh, b1, M, g);
      AddedLast(f);
      BothGone(b0, b1, Snapshot(), f, hh);
    }

    /** What they end with: the merged function goes. */
    method DropMerged(hh: Seg, f: Seg, ghost b: Base, ghost fun: Fun, ghost b0: Base)
      requires Adds(f, b, fun) && hh in b.live && hh in b.funs
      requires Without(b, hh) == Base(b.cells, b0.live, b0.funs) && b0.cells <= b.cells
      modifies this, cells
      ensures Adds(f, b0, fun) && f in funs && funs[f] == fun && cells == old(cells)
    {
      hide *;
      Drop(hh, f, b, fun);
      Since(f, Without(b, hh), fun, b0);
      AddsIsValid(f, b0, fun);
    }

    /** The segments of one function that meet the points of another (bfiSelect). */
    method Select(g: Seg, h: Seg) returns (f: Seg)
      requires Valid() && g in live && g in funs && h in live && h in funs
      modifies this, cells
      ensures f in funs && fresh(cells - old(cells))
      ensures Adds(f, old(Snapshot()), Domain(old(funs[g]), old(funs[h])).(segs := funs[f].segs))
      ensures multiset(funs[f].segs) <= multiset(old(funs[g]).segs)
      ensures Proper(old(funs[g]).segs) && Proper(old(funs[h]).segs) ==>
        funs[f] == Intervals.Select(old(funs[g]), old(funs[h]))
    {
      hide Adds, Valid, Sorted, Proper, Normal, Merge, MergeFun, NewFun, Domain, Intervals.Select;
      ghost var b0, G, H, dom := Snapshot(), funs[g], funs[h], Domain(funs[g], funs[h]);
      SortedFun(g);
      SortedFun(h);
      SelectIs(G, H);
      var hh;
      f, hh := DomainAndMerge(g, h);
      ghost var b := Without(Snapshot(), f);
      ghost var segs := SelectLoop(f, g, hh, b, dom);
      DropMerged(hh, f, b, dom.(segs := segs), b0);
    }

    lemma SelectIs(g: Fun, h: Fun)
      requires Sorted(h.segs)
      ensures Domain(g, h).(segs := []) == Domain(g, h)
      ensures Proper(h.segs) ==> Normal(MergeFun(h).segs)
      ensures Proper(h.segs) ==> Domain(g, h).(segs := Selected(g.segs, MergeFun(h).segs)) == Intervals.Select(g, h)
    {
      if Proper(h.segs) {
        MergingKeepsSelection(g.segs, h.segs);
      }
    }

    method SelectLoop(f: Seg, g: Seg, h: Seg, ghost before: Base, ghost dom: Fun) returns (ghost segs: seq<Interval>)
      requires g in before.live && g in before.funs && h in before.live && h in before.funs
      requires Sorted(before.funs[g].segs) && Adds(f, before, dom.(segs := []))
      modifies this, cells
      ensures Adds(f, before, dom.(segs := segs)) && fresh(cells - old(cells))
      ensures multiset(segs) <= multiset(before.funs[g].segs)
      ensures Proper(before.funs[g].segs) && Normal(before.funs[h].segs) ==>
        segs == Selected(before.funs[g].segs, before.funs[h].segs)
    {
      hide *;
      ghost var G, H := before.funs[g].segs, before.funs[h].segs;
      ghost var i: nat, k: nat := 0, 0;
      segs := [];
      NothingSelected(G, H);
      CursorIn(f, before, dom.(segs := []), g, 0);
      CursorIn(f, before, dom.(segs := []), h, 0);
      var s, t := g.next, h.next;
      while s != g && t != h
        invariant i <= |G| && s == Pos(g, before.live[g], i) && (s == g <==> i == |G|)
        invariant t == Pos(h, before.live[h], k) && (t == h <==> H == []) && (H != [] ==> k < |H|)
        invariant i < |G| ==> forall m :: 0 <= m < k && m < |H| ==> H[m].end <= G[i].start
        invariant Adds(f, before, dom.(segs := segs)) && fresh(cells - old(cells))
        invariant multiset(segs) <= multiset(G[..i])
        invariant Proper(G) && Normal(H) ==> segs == Selected(G[..i], H)
        invariant H == [] ==> i == 0
        decreases |G| - i
      {
        CursorIn(f, before, dom.(segs := segs), g, i);
        t, k := Forward(f, s, h, t, k, before, dom.(segs := segs));
        DecidesNow(G, H, i, k);
        segs, s := TakeOrLeave(s.start < t.end && s.end > t.start, f, g, s, i, before, dom, segs);
        i := i + 1;
      }
      WholeIs(G, i);
    }

    lemma WholeIs(segs: seq<Interval>, i: nat)
      requires i <= |segs|
      ensures i == |segs| ==> segs[..i] == segs
      ensures multiset(segs[..i]) <= multiset(segs)
    {
      assert segs == segs[..i] + segs[i..];
    }

    lemma NothingSelected(g: seq<Interval>, h: seq<Interval>)
      ensures Selected(g[..0], h) == [] && Rejected(g[..0], h) == []
      ensures h == [] ==> Selected(g, h) == []
    {
      if h == [] {
        NothingTouchesNothing(g, h);
      }
    }

    lemma DecidesNow(g: seq<Interval>, h: seq<Interval>, i: nat, k: nat)
      requires Sorted(g) && i < |g| && k < |h|
      requires forall m :: 0 <= m < k ==> h[m].end <= g[i].start
      requires g[i].start < h[k].end || k == |h| - 1
      ensures Proper(g) && Normal(h) ==>
        Selected(g[..i + 1], h) == Selected(g[..i], h) + if g[i].start < h[k].end && g[i].end > h[k].start then [g[i]]
          else []
      ensures i + 1 < |g| ==> forall m :: 0 <= m < k ==> h[m].end <= g[i + 1].start
    {
      SelectedNext(g, h, i);
      if Proper(g) && Normal(h) {
        CursorDecides(g[i], h, k);
      }
      assert i + 1 < |g| ==> !Before(g[i + 1], g[i]);
    }

    /** The segments of one function that do not meet the points of another (bfiReject). */
    method Reject(g: Seg, h: Seg) returns (f: Seg)
      requires Valid() && g in live && g in funs && h in live && h in funs
      modifies this, cells
      ensures f in funs && fresh(cells - old(cells))
      ensures Adds(f, old(Snapshot()), RejectDomain(old(funs[g]), old(funs[h])).(segs := funs[f].segs))
      ensures multiset(funs[f].segs) <= multiset(old(funs[g]).segs)
      ensures Proper(old(funs[g]).segs) && Proper(old(funs[h]).segs) ==>
        funs[f] == Intervals.Reject(old(funs[g]), old(funs[h]))
    {
      hide Adds, Valid, Sorted, Proper, Normal, Merge, MergeFun, NewFun, Domain, Intervals.Reject;
      ghost var b0, G, H, dom := Snapshot(), funs[g], funs[h], Domain(funs[g], funs[h]);
      SortedFun(g);
      SortedFun(h);
      RejectIs(G, H);
      Cursor(g, 0);
      Cursor(h, 0);
      if g.next == g || h.next == h {
        f := Copy(g);
        AddsIsValid(f, b0, G);
        return;
      }
      var hh;
      f, hh := DomainAndMerge(g, h);
      ghost var b := Without(Snapshot(), f);
      ghost var segs := RejectLoop(f, g, hh, b, dom);
      DropMerged(hh, f, b, dom.(segs := segs), b0);
    }

    /** With nothing to reject, or nothing to reject with, the result is a copy with its own domain. */
    ghost function RejectDomain(g: Fun, h: Fun): Fun {
      if g.segs == [] || h.segs == [] then g else Domain(g, h)
    }

    lemma RejectIs(g: Fun, h: Fun)
      requires Sorted(h.segs)
      ensures (MergeFun(h).segs == [] <==> h.segs == []) && Domain(g, h).(segs := []) == Domain(g, h)
      ensures RejectDomain(g, h) == if g.segs == [] || h.segs == [] then g else Domain(g, h)
      ensures Proper(h.segs) ==> Normal(MergeFun(h).segs)
      ensures Proper(h.segs) ==>
        if g.segs == [] || h.segs == [] then Intervals.Reject(g, h) == g
        else Domain(g, h).(segs := Rejected(g.segs, MergeFun(h).segs)) == Intervals.Reject(g, h)
    {
      if Proper(h.segs) {
        MergingKeepsSelection(g.segs, h.segs);
      }
    }

    method RejectLoop(f: Seg, g: Seg, h: Seg, ghost before: Base, ghost dom: Fun) returns (ghost segs: seq<Interval>)
      requires g in before.live && g in before.funs && h in before.live && h in before.funs
      requires Sorted(before.funs[g].segs) && before.funs[h].segs != [] && Adds(f, before, dom.(segs := []))
      modifies this, cells
      ensures Adds(f, before, dom.(segs := segs)) && fresh(cells - old(cells))
      ensures multiset(segs) <= multiset(before.funs[g].segs)
      ensures Proper(before.funs[g].segs) && Normal(before.funs[h].segs) ==>
        segs == Rejected(before.funs[g].segs, before.funs[h].segs)
    {
      hide *;
      ghost var G, H := before.funs[g].segs, before.funs[h].segs;
      ghost var i: nat, k: nat := 0, 0;
      segs := [];
      NothingSelected(G, H);
      CursorIn(f, before, dom.(segs := []), g, 0);
      CursorIn(f, before, dom.(segs := []), h, 0);
      var s, t := g.next, h.next;
      while s != g && t != h
        invariant i <= |G| && s == Pos(g, before.live[g], i) && (s == g <==> i == |G|)
        invariant k < |H| && t == Pos(h, before.live[h], k) && t != h
        invariant Adds(f, before, dom.(segs := segs)) && fresh(cells - old(cells))
        invariant multiset(segs) <= multiset(G[..i])
        invariant Proper(G) && Normal(H) ==> segs == Rejected(G[..i], H)
        decreases |G| - i
      {
        CursorIn(f, before, dom.(segs := segs), g, i);
        ghost var back;
        t, back := Back(f, s, h, t, k, before, dom.(segs := segs));
        t, k := Forward(f, s, h, t, back, before, dom.(segs := segs));
        DecidesAnyway(G, H, i, back, k);
        segs, s := TakeOrLeave(s.start >= t.end || s.end <= t.start, f, g, s, i, before, dom, segs);
        i := i + 1;
      }
      WholeIs(G, i);
    }

    lemma DecidesAnyway(g: seq<Interval>, h: seq<Interval>, i: nat, back: nat, k: nat)
      requires Sorted(g) && i < |g| && back <= k < |h|
      requires h[back].start < g[i].end || back == 0
      requires forall m :: back <= m < k ==> h[m].end <= g[i].start
      requires g[i].start < h[k].end || k == |h| - 1
      ensures Proper(g) && Normal(h) ==>
        Rejected(g[..i + 1], h) == Rejected(g[..i], h) + if g[i].start >= h[k].end || g[i].end <= h[k].start then [g[i]]
          else []
    {
      SelectedNext(g, h, i);
      if Proper(g) && Normal(h) {
        ReturningCursorDecides(g[i], h, back, k);
      }
    }

    // -----------------------------------------------------------------------------------------
    // Conflict
    // -----------------------------------------------------------------------------------------

    /** Add a segment, unless it is there, to the function that is being built. */
    method AddUnique(f: Seg, start: int, end: int, ghost before: Base, ghost dom: Fun, ghost cur: seq<Interval>)
      returns (ghost cur': seq<Interval>)
      requires Adds(f, before, dom.(segs := cur)) && dom.lo <= dom.hi
      modifies this, cells
      ensures Adds(f, before, dom.(segs := cur')) && fresh(cells - old(cells))
      ensures StrictlySorted(cur) && start < end ==>
        StrictlySorted(cur') && Elements(cur') == Elements(cur) + {Interval(start, end)}
    {
      hide Valid, StrictlySorted, Elements;
      if StrictlySorted(cur) && start < end {
        InsertUniqueIntoAdds(dom.(segs := cur), Interval(start, end));
      }
      InsertUnique(f, start, end);
      cur' := InsertUniqueInto(dom.(segs := cur), Interval(start, end)).segs;
    }

    /** Each segment that overlaps another one, once (bfiConflict_). */
    method Conflict_(g: Seg) returns (f: Seg)
      requires Valid() && g in live && g in funs
      modifies this, cells
      ensures f in funs && fresh(cells - old(cells))
      ensures Adds(f, old(Snapshot()), old(NewFun(funs[g].hi, funs[g].lo)).(segs := funs[f].segs))
      ensures Proper(old(funs[g]).segs) ==>
        StrictlySorted(funs[f].segs) && Elements(funs[f].segs) == old(ConflictRows(funs[g].segs, 0))
    {
      hide Adds, Valid, Sorted, Proper, StrictlySorted, ConflictRow, ConflictRows;
      ghost var b0, G := Snapshot(), funs[g];
      ghost var dom := NewFun(G.hi, G.lo);
      ghost var segs: seq<Interval> := [];
      Cursor(g, 0);
      SortedFun(g);
      NoConflictYet(G);
      f := Begin(g.start, g.end);
      CursorIn(f, b0, dom, g, 0);
      if g.next == g {
        AddsIsValid(f, b0, dom.(segs := segs));
        return;
      }
      var s := g.next;
      CursorIn(f, b0, dom, g, 1);
      ghost var i: nat := 0;
      while s.next != g
        invariant i < |G.segs| && s == Pos(g, b0.live[g], i) && s.next == Pos(g, b0.live[g], i + 1)
        invariant s.next == g <==> i + 1 == |G.segs|
        invariant Adds(f, b0, dom.(segs := segs)) && fresh(cells - old(cells))
        invariant Proper(G.segs) ==>
          StrictlySorted(segs) && Elements(segs) + ConflictRows(G.segs, i) == ConflictRows(G.segs, 0)
        decreases |G.segs| - i
      {
        NextConflictRow(G.segs, i);
        segs := ConflictsOf(f, g, s, i, b0, dom, segs);
        CursorIn(f, b0, dom.(segs := segs), g, i);
        CursorIn(f, b0, dom.(segs := segs), g, i + 1);
        CursorIn(f, b0, dom.(segs := segs), g, i + 2);
        s := s.next;
        i := i + 1;
      }
      NextConflictRow(G.segs, i);
      AddsIsValid(f, b0, dom.(segs := segs));
    }

    lemma NoConflictYet(g: Fun)
      ensures NewFun(g.hi, g.lo).(segs := []) == NewFun(g.hi, g.lo)
      ensures StrictlySorted([]) && Elements([]) == {}
      ensures g.segs == [] ==> ConflictRows(g.segs, 0) == {}
      ensures g.lo <= g.hi ==> NewFun(g.hi, g.lo).lo <= NewFun(g.hi, g.lo).hi
    {
    }

    lemma NextConflictRow(segs: seq<Interval>, i: nat)
      requires i < |segs|
      ensures ConflictRows(segs, i) == if i + 1 < |segs| then ConflictRow(segs, i, i + 1) + ConflictRows(segs, i + 1)
        else {}
    {
    }

    /** Record the conflicts of segment `i` with the ones that follow it. */
    method ConflictsOf(f: Seg, g: Seg, s: Seg, ghost i: nat, ghost before: Base, ghost dom: Fun,
                       ghost cur0: seq<Interval>)
      returns (ghost cur: seq<Interval>)
      requires g in before.live && g in before.funs && i + 1 < |before.funs[g].segs|
      requires s == Pos(g, before.live[g], i) && dom.lo <= dom.hi
      requires Adds(f, before, dom.(segs := cur0))
      modifies this, cells
      ensures Adds(f, before, dom.(segs := cur)) && fresh(cells - old(cells))
      ensures Proper(before.funs[g].segs) && StrictlySorted(cur0) ==>
        StrictlySorted(cur) && Elements(cur) == Elements(cur0) + ConflictRow(before.funs[g].segs, i, i + 1)
    {
      hide Adds, Valid, StrictlySorted, Elements, ConflictRow;
      ghost var segs, j := before.funs[g].segs, i + 1;
      cur := cur0;
      CursorIn(f, before, dom.(segs := cur), g, i);
      CursorIn(f, before, dom.(segs := cur), g, j);
      NextConflict(segs, i, j);
      var t := s.next;
      if t != g && t.start < s.end {
        cur := AddUnique(f, s.start, s.end, before, dom, cur);
      }
      CursorIn(f, before, dom.(segs := cur), g, i);
      CursorIn(f, before, dom.(segs := cur), g, j);
      t := s.next;
      while t != g && t.start < s.end
        invariant i < j <= |segs| && t == Pos(g, before.live[g], j) && (t == g <==> j == |segs|)
        invariant t != g ==> t.start == segs[j].start
        invariant s.end == segs[i].end
        invariant Adds(f, before, dom.(segs := cur)) && fresh(cells - old(cells))
        invariant Proper(segs) && StrictlySorted(cur0) ==>
          && StrictlySorted(cur)
          && (segs[i] in Elements(cur) || (ConflictRow(segs, i, j) == {} && Elements(cur) == Elements(cur0)))
          && Elements(cur) + ConflictRow(segs, i, j) == Elements(cur0) + ConflictRow(segs, i, i + 1)
        decreases |segs| - j
      {
        NextConflict(segs, i, j);
        CursorIn(f, before, dom.(segs := cur), g, j);
        cur := AddUnique(f, t.start, t.end, before, dom, cur);
        CursorIn(f, before, dom.(segs := cur), g, i);
        CursorIn(f, before, dom.(segs := cur), g, j);
        CursorIn(f, before, dom.(segs := cur), g, j + 1);
        t := t.next;
        j := j + 1;
      }
      NextConflict(segs, i, j);
    }

    lemma NextConflict(segs: seq<Interval>, i: nat, j: nat)
      requires i < |segs| && j <= |segs|
      ensures ConflictRow(segs, i, j) ==
        if j < |segs| && segs[j].start < segs[i].end then {segs[i], segs[j]} + ConflictRow(segs, i, j + 1) else {}
    {
    }
  }
}
