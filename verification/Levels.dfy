/** Level repair (lib/nbcell.c). Reaction by level is sound only while every subscriber sits above its publisher. */
module Levels {
  import opened Cells

  /** A number for each cell: its level, or a rank. */
  type Numbering = map<Cell, nat>

  /** The rank grows along every subscription, so the graph has no cycle. */
  ghost predicate Acyclic(cells: set<Cell>, rank: Numbering)
    reads cells`sub
  {
    && cells <= rank.Keys
    && (forall c, i :: c in cells && 0 <= i < |c.sub| ==> c.sub[i] in cells && rank[c] < rank[c.sub[i]])
  }

  /** The cells ranked no lower than `c`. */
  ghost function Upwards(cells: set<Cell>, rank: Numbering, c: Cell): set<Cell>
    requires cells <= rank.Keys && c in cells
  {
    set x | x in cells && rank[c] <= rank[x]
  }

  ghost function LevelsOf(cells: set<Cell>): (at: Numbering)
    reads cells`level
    ensures at.Keys == cells && forall c :: c in cells ==> at[c] == c.level
  {
    map c | c in cells :: c.level
  }

  /** Every subscriber of `c` is above `c`, or is not evaluated. */
  ghost predicate Above(c: Cell, at: Numbering)
    reads c`sub
  {
    c in at && forall i :: 0 <= i < |c.sub| ==> c.sub[i] in at && (c.sub[i].isStatic || at[c] < at[c.sub[i]])
  }

  ghost predicate Ordered(cells: set<Cell>, but: set<Cell>)
    reads cells`sub, cells`level
  {
    forall c :: c in cells && c !in but ==> Above(c, LevelsOf(cells))
  }

  // -------------------------------------------------------------------------------------------
  // Repair
  // -------------------------------------------------------------------------------------------

  /** A cell is where it is because of a publisher that was raised, or is `pub`. */
  ghost predicate HasReason(c: Cell, cells: set<Cell>, pub: Cell, was: Numbering, now: Numbering)
    requires cells <= was.Keys && cells <= now.Keys && c in cells
    reads cells`sub
  {
    exists p :: p in cells && c in p.sub && (p == pub || was[p] < now[p]) && now[c] <= now[p] + 1
  }

  /** What a repair below `pub` may do: raise levels of cells ranked above `pub`, each one for a reason and so that its
      own subscribers are above it. */
  ghost predicate Raised(cells: set<Cell>, rank: Numbering, pub: Cell, was: Numbering, now: Numbering)
    requires cells <= rank.Keys && pub in cells
    reads cells`sub
  {
    && was.Keys == now.Keys == cells
    && (forall c :: c in cells ==> was[c] <= now[c])
    && (forall c :: c in cells && rank[c] <= rank[pub] ==> was[c] == now[c])
    && (forall c :: c in cells && was[c] < now[c] ==> HasReason(c, cells, pub, was, now) && Above(c, now))
  }

  lemma NothingRaised(cells: set<Cell>, rank: Numbering, pub: Cell, at: Numbering)
    requires cells <= rank.Keys && pub in cells && at.Keys == cells
    ensures Raised(cells, rank, pub, at, at)
  {
  }

  lemma RaisedKeeps(cells: set<Cell>, rank: Numbering, pub: Cell, was: Numbering, now: Numbering)
    requires cells <= rank.Keys && pub in cells && Raised(cells, rank, pub, was, now)
    ensures was.Keys == now.Keys == cells && was[pub] == now[pub] && forall c :: c in cells ==> was[c] <= now[c]
  {
  }

  lemma RaisedTwice(cells: set<Cell>, rank: Numbering, pub: Cell, was: Numbering, then': Numbering, now: Numbering)
    requires Acyclic(cells, rank) && pub in cells
    requires Raised(cells, rank, pub, was, then') && Raised(cells, rank, pub, then', now)
    ensures Raised(cells, rank, pub, was, now)
  {
    forall c | c in cells && was[c] < now[c] ensures HasReason(c, cells, pub, was, now) && Above(c, now) {
      if then'[c] < now[c] {
        var p :| p in cells && c in p.sub && (p == pub || then'[p] < now[p]) && now[c] <= now[p] + 1;
        assert was[p] <= then'[p];
      } else {
        var p :| p in cells && c in p.sub && (p == pub || was[p] < then'[p]) && then'[c] <= then'[p] + 1;
        assert now[c] <= now[p] + 1;
      }
    }
  }

  /** The levels after `sub` was put above `pub`, and repaired below. */
  lemma RaisedBelow(cells: set<Cell>, rank: Numbering, pub: Cell, sub: Cell, was: Numbering, now: Numbering)
    requires Acyclic(cells, rank) && pub in cells && sub in cells && sub in pub.sub && was.Keys == cells
    requires was[sub] <= was[pub] && Raised(cells, rank, sub, was[sub := was[pub] + 1], now) && Above(sub, now)
    ensures Raised(cells, rank, pub, was, now) && now[pub] < now[sub]
  {
    var then' := was[sub := was[pub] + 1];
    assert now[pub] == was[pub];
    forall c | c in cells && was[c] < now[c] ensures HasReason(c, cells, pub, was, now) && Above(c, now) {
      if then'[c] < now[c] {
        var p :| p in cells && c in p.sub && (p == sub || then'[p] < now[p]) && now[c] <= now[p] + 1;
        assert was[p] < now[p];
      } else {
        assert c == sub;
      }
    }
  }

  /** Raise the subscribers of `pub` that are not above it, and repair below each of them. */
  method LevelRecurse(pub: Cell, start: Cell, ghost cells: set<Cell>, ghost rank: Numbering)
    requires Acyclic(cells, rank) && pub in cells && start in cells && rank[start] < rank[pub]
    modifies cells`level
    ensures Above(pub, LevelsOf(cells)) && Raised(cells, rank, pub, old(LevelsOf(cells)), LevelsOf(cells))
    decreases Upwards(cells, rank, pub), 1
  {
    if pub == start {
      assert false;
    }
    LevelSubscribers(pub, start, cells, rank);
  }

  /** The loop over the subscribers, which the repair and its recursion share. */
  method LevelSubscribers(pub: Cell, start: Cell, ghost cells: set<Cell>, ghost rank: Numbering)
    requires Acyclic(cells, rank) && pub in cells && start in cells && rank[start] <= rank[pub]
    modifies cells`level
    ensures Above(pub, LevelsOf(cells)) && Raised(cells, rank, pub, old(LevelsOf(cells)), LevelsOf(cells))
    decreases Upwards(cells, rank, pub), 0
  {
    hide Raised;
    ghost var was := LevelsOf(cells);
    NothingRaised(cells, rank, pub, was);
    for i := 0 to |pub.sub|
      invariant Raised(cells, rank, pub, was, LevelsOf(cells))
      invariant forall k :: 0 <= k < i ==> pub.level < pub.sub[k].level
    {
      assert pub in Upwards(cells, rank, pub) && pub !in Upwards(cells, rank, pub.sub[i]);
      ghost var then' := LevelsOf(cells);
      LevelSubscriber(pub, pub.sub[i], start, cells, rank);
      RaisedKeeps(cells, rank, pub, then', LevelsOf(cells));
      RaisedTwice(cells, rank, pub, was, then', LevelsOf(cells));
    }
  }

  /** One subscriber. */
  method LevelSubscriber(pub: Cell, sub: Cell, start: Cell, ghost cells: set<Cell>, ghost rank: Numbering)
    requires Acyclic(cells, rank) && pub in cells && start in cells && rank[start] <= rank[pub]
    requires sub in pub.sub && sub in cells && rank[pub] < rank[sub]
    modifies cells`level
    ensures pub.level < sub.level && Raised(cells, rank, pub, old(LevelsOf(cells)), LevelsOf(cells))
    decreases Upwards(cells, rank, sub), 2
  {
    ghost var was := LevelsOf(cells);
    NothingRaised(cells, rank, pub, was);
    if sub.level <= pub.level {
      sub.level := pub.level + 1;
      assert LevelsOf(cells) == was[sub := was[pub] + 1];
      LevelRecurse(sub, start, cells, rank);
      RaisedBelow(cells, rank, pub, sub, was, LevelsOf(cells));
    }
  }

  /** `bound` has every subscriber above its publisher, and no cell below its level. */
  ghost predicate Bounded(cells: set<Cell>, at: Numbering, bound: Numbering)
    reads cells`sub
  {
    && cells <= at.Keys && cells <= bound.Keys
    && (forall c :: c in cells ==> at[c] <= bound[c])
    && (forall c, i :: c in cells && 0 <= i < |c.sub| ==> c.sub[i] in bound && bound[c] < bound[c.sub[i]])
  }

  /** A repair raises no cell above any order-keeping assignment that is nowhere below the old levels. */
  lemma {:induction false} RaisedIsLeast(cells: set<Cell>, rank: Numbering, pub: Cell, was: Numbering, now: Numbering,
                                         bound: Numbering, c: Cell)
    requires Acyclic(cells, rank) && pub in cells && Raised(cells, rank, pub, was, now) && Bounded(cells, was, bound)
    requires c in cells
    ensures now[c] <= bound[c]
    decreases rank[c]
  {
    if was[c] < now[c] {
      var p :| p in cells && c in p.sub && (p == pub || was[p] < now[p]) && now[c] <= now[p] + 1;
      RaisedIsLeast(cells, rank, pub, was, now, bound, p);
    }
  }

  /** Repair the levels after the subscribers of `pub` may have fallen to its level or below. Afterwards every
      subscriber is above its publisher, with the least levels that are nowhere below the old ones. */
  method Level(pub: Cell, ghost cells: set<Cell>, ghost rank: Numbering)
    requires Acyclic(cells, rank) && pub in cells
    modifies cells`level
    ensures Above(pub, LevelsOf(cells)) && Raised(cells, rank, pub, old(LevelsOf(cells)), LevelsOf(cells))
    ensures old(Ordered(cells, {pub})) ==> Ordered(cells, {})
    ensures forall bound: Numbering :: Bounded(cells, old(LevelsOf(cells)), bound) ==>
      Bounded(cells, LevelsOf(cells), bound)
  {
    ghost var was := LevelsOf(cells);
    LevelSubscribers(pub, pub, cells, rank);
    ghost var now := LevelsOf(cells);
    forall bound: Numbering | Bounded(cells, was, bound) ensures Bounded(cells, now, bound) {
      forall c | c in cells ensures now[c] <= bound[c] {
        RaisedIsLeast(cells, rank, pub, was, now, bound, c);
      }
    }
  }

  // -------------------------------------------------------------------------------------------
  // Repair and reaction
  // -------------------------------------------------------------------------------------------

  /** Nothing but levels has changed, and none has fallen. */
  twostate predicate OnlyRaised(reactor: Reactor)
    reads reactor, reactor.evalVector, reactor.cells
  {
    && unchanged(reactor, reactor.evalVector)
    && forall c :: c in reactor.cells ==>
         && c.sub == old(c.sub) && c.value == old(c.value) && c.enabled == old(c.enabled)
           && c.scheduled == old(c.scheduled)
         && old(c.level) <= c.level
  }

  /** After a repair the graph is in order again exactly when the levels have stayed below the limit. */
  twostate lemma RepairKeepsGraph(reactor: Reactor)
    requires OnlyRaised(reactor) && old(reactor.Links()) && Ordered(reactor.cells, {})
    ensures reactor.Graph() <==> forall c :: c in reactor.cells ==> c.level < MAX_LEVEL
  {
    assert forall c, i :: c in reactor.cells && 0 <= i < |c.sub| ==> c.sub[i] == old(c.sub)[i];
    forall c, i | c in reactor.cells && 0 <= i < |c.sub| && !c.sub[i].isStatic ensures c.level < c.sub[i].level {
      assert Above(c, LevelsOf(reactor.cells));
    }
  }

  /** The lists stay in order exactly when no cell was raised that is scheduled: it would be on the list of its old
      level. */
  twostate lemma RepairKeepsLists(reactor: Reactor)
    requires OnlyRaised(reactor) && old(reactor.Lists()) && forall c :: c in reactor.cells ==> old(c.level) < MAX_LEVEL
    ensures reactor.Lists() <==> forall c :: c in reactor.cells && c.scheduled ==> c.level == old(c.level)
  {
    if forall c :: c in reactor.cells && c.scheduled ==> c.level == old(c.level) {
      forall l | 0 <= l < MAX_LEVEL ensures reactor.Listed(l) {
        assert old(reactor.Listed(l));
      }
    } else {
      var c :| c in reactor.cells && c.scheduled && c.level != old(c.level);
      var l := old(c.level);
      assert old(reactor.Listed(l)) && c in reactor.evalVector[l];
      assert !reactor.Listed(l);
    }
  }

  /** What the cells agree on does not depend on levels. */
  twostate lemma RepairKeepsAgenda(reactor: Reactor)
    requires OnlyRaised(reactor) && old(reactor.Links()) && reactor.Links() && old(reactor.Agenda())
    ensures reactor.Agenda()
  {
    forall c | c in reactor.cells && c.Computed() && !c.scheduled ensures c.value == c.Eval() {
      assert c.OperandValues() == old(c.OperandValues());
    }
  }
}
