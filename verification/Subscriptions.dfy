/** Subscribing to a cell (nbAxonEnable in lib/nbaxon.c). The first subscriber turns a cell on, which makes the cell
    subscribe to its own operands, and so on down to cells that are on already. */
module Subscriptions {
  import opened Cells
  import opened Levels
  import opened Values

  /** The rank grows from operands to the cells that are computed from them. */
  ghost predicate Ranked(cells: set<Cell>, rank: Numbering) {
    && cells <= rank.Keys
    && (forall c, i :: c in cells && 0 <= i < |c.operands| ==> c.operands[i] in cells && rank[c.operands[i]] < rank[c])
  }

  /** A network of cells: which are on, or static; the subscribers and the level of each. */
  datatype Net = Net(on: set<Cell>, sub: map<Cell, set<Cell>>, level: Numbering)

  ghost predicate Shaped(cells: set<Cell>, rank: Numbering, n: Net) {
    && Ranked(cells, rank) && n.on <= cells && n.sub.Keys == n.level.Keys == cells
    && (forall c :: c in cells && c.isStatic ==> c in n.on)
    && (forall c, s :: c in cells && s in n.sub[c] ==> s in cells && rank[c] < rank[s])
  }

  ghost function OnOf(cells: set<Cell>): set<Cell>
    reads cells`enabled
  {
    set c | c in cells && (c.enabled || c.isStatic)
  }

  ghost function SubsOf(cells: set<Cell>): (sub: map<Cell, set<Cell>>)
    reads cells`sub
    ensures sub.Keys == cells && forall c :: c in cells ==> sub[c] == (set s | s in c.sub)
  {
    map c | c in cells :: (set s | s in c.sub)
  }

  ghost function NetOf(cells: set<Cell>): (n: Net)
    reads cells`enabled, cells`sub, cells`level
  {
    Net(OnOf(cells), SubsOf(cells), LevelsOf(cells))
  }

  lemma NetIsShaped(cells: set<Cell>, rank: Numbering)
    requires Ranked(cells, rank)
    ensures Acyclic(cells, rank) <==> Shaped(cells, rank, NetOf(cells))
  {
    var n := NetOf(cells);
    if Shaped(cells, rank, n) {
      forall c, i | c in cells && 0 <= i < |c.sub| ensures c.sub[i] in cells && rank[c] < rank[c.sub[i]] {
        assert c.sub[i] in n.sub[c];
      }
    }
  }

  // -------------------------------------------------------------------------------------------
  // What is turned on
  // -------------------------------------------------------------------------------------------

  /** Each cell was asked for by `root`, or by a cell among them, which has it as an operand. */
  ghost predicate Asked(turned: map<Cell, Cell>, root: Cell) {
    forall x {:trigger turned[x]} :: x in turned ==> (turned[x] == root || turned[x] in turned)
  }

  /** The operands of these cells are on, or among them. */
  ghost predicate Closed(turned: map<Cell, Cell>, on: set<Cell>) {
    forall x, i :: x in turned && 0 <= i < |x.operands| ==> x.operands[i] in on || x.operands[i] in turned
  }

  /** The cells that are turned on when `asker` asks for `c` while those in `on` are on: each with the one that asked
      first, in the order in which operands are asked for. */
  ghost function TurnedOn(cells: set<Cell>, rank: Numbering, c: Cell, asker: Cell,
                          on: set<Cell>): (turned: map<Cell, Cell>)
    requires Ranked(cells, rank) && c in cells
    ensures turned.Keys !! on && turned.Keys <= cells && Closed(turned, on) && Asked(turned, asker)
    ensures if c in on then turned == map[] else c in turned && turned[c] == asker
    ensures forall x {:trigger turned[x]} :: x in turned && x != c ==> x in turned[x].operands
    ensures forall x :: x in turned ==> rank[x] <= rank[c]
    decreases rank[c], 1, 0
  {
    if c in on then map[] else OperandsTurnedOn(cells, rank, c, |c.operands|, on)[c := asker]
  }

  /** The cells that are turned on when `c` asks for its first `n` operands. */
  ghost function OperandsTurnedOn(cells: set<Cell>, rank: Numbering, c: Cell, n: nat,
                                  on: set<Cell>): (turned: map<Cell, Cell>)
    requires Ranked(cells, rank) && c in cells && n <= |c.operands|
    ensures turned.Keys !! on && turned.Keys <= cells && Closed(turned, on) && Asked(turned, c)
    ensures forall i :: 0 <= i < n ==> c.operands[i] in on || c.operands[i] in turned
    ensures forall x {:trigger turned[x]} :: x in turned ==> x in turned[x].operands
    ensures forall x :: x in turned ==> rank[x] < rank[c]
    decreases rank[c], 0, n
  {
    if n == 0 then map[] else
      var turned := OperandsTurnedOn(cells, rank, c, n - 1, on);
      turned + TurnedOn(cells, rank, c.operands[n - 1], c, on + turned.Keys)
  }

  // -------------------------------------------------------------------------------------------
  // What becomes of a network
  // -------------------------------------------------------------------------------------------

  /** Every subscriber of `c` is above it, or is not evaluated. */
  ghost predicate Over(n: Net, c: Cell)
    requires n.sub.Keys == n.level.Keys
  {
    c in n.sub && forall s :: s in n.sub[c] ==> s in n.level && (s.isStatic || n.level[c] < n.level[s])
  }

  ghost function AskedFor(c: Cell, n: nat): set<Cell>
    requires n <= |c.operands|
  {
    set i | 0 <= i < n :: c.operands[i]
  }

  /** The new subscribers of `c`, when `root` has asked for the cells in `asked`. */
  ghost function NewSubs(c: Cell, root: Cell, asked: set<Cell>, turned: map<Cell, Cell>): set<Cell> {
    if c.isStatic then {}
    else (if c in asked then {root} else {}) + set x | x in turned && c in x.operands
  }

  /** The cells in `turned` are below `root`, and come on; each was asked for by `root` or another one of them. */
  ghost predicate Turns(cells: set<Cell>, rank: Numbering, root: Cell, turned: map<Cell, Cell>, on: set<Cell>,
                        on': set<Cell>)
    requires cells <= rank.Keys && root in cells
  {
    && turned.Keys <= cells && turned.Keys !! on && on' == on + turned.Keys
    && (forall x :: x in turned ==> rank[x] < rank[root])
    && Asked(turned, root)
  }

  ghost predicate Subscribed(cells: set<Cell>, rank: Numbering, root: Cell, turned: map<Cell, Cell>, asked: set<Cell>,
                             was: map<Cell, set<Cell>>, now: map<Cell, set<Cell>>)
    requires cells <= rank.Keys && root in cells && was.Keys == now.Keys == cells
  {
    && (forall o :: o in asked ==> o in cells && rank[o] < rank[root])
    && (forall c {:trigger now[c]} :: c in cells ==> now[c] == was[c] + NewSubs(c, root, asked, turned))
  }

  /** A cell is above those that it has turned on, and is where it was, or next to one of them. An object that is not
      evaluated need not be above. */
  ghost predicate Lifted(x: Cell, turned: map<Cell, Cell>, was: Numbering, now: Numbering)
    requires x in was && x in now && turned.Keys <= now.Keys
  {
    && was[x] <= now[x]
    && (forall o {:trigger turned[o]} :: o in turned && turned[o] == x ==> x.isStatic || now[o] < now[x])
    && (was[x] == now[x] || exists o :: o in turned && turned[o] == x && now[x] <= now[o] + 1)
  }

  /** Of the cells not above `root`, only `root` and those turned on are lifted. */
  ghost predicate AllLifted(cells: set<Cell>, rank: Numbering, root: Cell, turned: map<Cell, Cell>, was: Numbering,
                            now: Numbering)
    requires cells <= rank.Keys && root in cells && was.Keys == now.Keys == cells && turned.Keys <= cells
  {
    && (forall x :: x in turned ==> Lifted(x, turned, was, now)) && Lifted(root, turned, was, now)
    && (forall x {:trigger now[x]} :: x in cells && rank[x] <= rank[root] && x !in turned && x != root ==>
      now[x] == was[x])
  }

  /** At and above `root` levels only rise, for the reason that a publisher has risen, and the order is kept. */
  ghost predicate Risen(cells: set<Cell>, root: Cell, x: Cell, n: Net, n': Net)
    requires n.sub.Keys == n'.sub.Keys == n.level.Keys == n'.level.Keys == cells && x in cells
  {
    && n.level[x] <= n'.level[x] && (Over(n, x) || n.level[x] < n'.level[x] ==> Over(n', x))
    && (x != root && n.level[x] < n'.level[x] ==>
          exists p :: p in cells && x in n.sub[p] && n.level[p] < n'.level[p] && n'.level[x] <= n'.level[p] + 1)
  }

  ghost predicate AllRisen(cells: set<Cell>, rank: Numbering, root: Cell, n: Net, n': Net)
    requires n.sub.Keys == n'.sub.Keys == n.level.Keys == n'.level.Keys == cells <= rank.Keys && root in cells
  {
    forall x :: x in cells && (x == root || rank[root] < rank[x]) ==> Risen(cells, root, x, n, n')
  }

  /** How a network changes when `root` asks for the cells in `asked`, and those in `turned` are turned on. */
  ghost predicate Cascade(cells: set<Cell>, rank: Numbering, root: Cell, turned: map<Cell, Cell>, asked: set<Cell>,
                          n: Net, n': Net)
  {
    && Shaped(cells, rank, n) && Shaped(cells, rank, n') && root in cells
    && Turns(cells, rank, root, turned, n.on, n'.on)
    && Subscribed(cells, rank, root, turned, asked, n.sub, n'.sub)
    && AllLifted(cells, rank, root, turned, n.level, n'.level)
    && AllRisen(cells, rank, root, n, n')
  }

  lemma NothingAsked(cells: set<Cell>, rank: Numbering, root: Cell, n: Net)
    requires Shaped(cells, rank, n) && root in cells
    ensures Cascade(cells, rank, root, map[], {}, n, n)
  {
  }

  lemma Keys(cells: set<Cell>, rank: Numbering, root: Cell, turned: map<Cell, Cell>, asked: set<Cell>, n: Net, n': Net)
    requires Cascade(cells, rank, root, turned, asked, n, n')
    ensures n.sub.Keys == n.level.Keys == n'.sub.Keys == n'.level.Keys == cells <= rank.Keys && turned.Keys <= cells
    ensures root in cells
  {
  }

  lemma LevelsRise(cells: set<Cell>, rank: Numbering, root: Cell, turned: map<Cell, Cell>, asked: set<Cell>, n: Net,
                   n': Net)
    requires Cascade(cells, rank, root, turned, asked, n, n')
    ensures forall c :: c in cells ==> n.level[c] <= n'.level[c]
  {
    assert turned.Keys <= cells;
    hide Turns, Subscribed, Over, Shaped;
    forall c | c in cells ensures n.level[c] <= n'.level[c] {
      if c in turned {
        assert Lifted(c, turned, n.level, n'.level);
      } else if c == root || rank[root] < rank[c] {
        assert Risen(cells, root, c, n, n');
      }
    }
  }

  /** New subscribers are `root` and cells below it, of cells below it. */
  lemma SubsAbove(cells: set<Cell>, rank: Numbering, root: Cell, turned: map<Cell, Cell>, asked: set<Cell>,
                  was: map<Cell, set<Cell>>, now: map<Cell, set<Cell>>, c: Cell)
    requires Ranked(cells, rank) && root in cells && was.Keys == now.Keys == cells && c in cells
    requires turned.Keys <= cells && forall x :: x in turned ==> rank[x] < rank[root]
    requires Subscribed(cells, rank, root, turned, asked, was, now)
    ensures rank[root] <= rank[c] ==> now[c] == was[c]
    ensures forall s :: s in now[c] && s in cells && rank[root] < rank[s] ==> s in was[c]
  {
    NewSubsBelow(cells, rank, root, turned, asked, c);
    assert now[c] == was[c] + NewSubs(c, root, asked, turned);
    hide NewSubs, Ranked;
  }

  lemma NewSubsBelow(cells: set<Cell>, rank: Numbering, root: Cell, turned: map<Cell, Cell>, asked: set<Cell>, c: Cell)
    requires Ranked(cells, rank) && root in cells && c in cells && turned.Keys <= cells
    requires forall x :: x in turned ==> rank[x] < rank[root]
    requires forall o :: o in asked ==> o in cells && rank[o] < rank[root]
    ensures forall s :: s in NewSubs(c, root, asked, turned) ==>
      rank[c] < rank[root] && (s == root || (s in cells && rank[s] < rank[root]))
  {
    forall s | s in NewSubs(c, root, asked, turned) && s in turned ensures rank[c] < rank[root] {
      if c in s.operands {
        var i :| 0 <= i < |s.operands| && s.operands[i] == c;
        assert rank[s.operands[i]] < rank[s];
      }
    }
  }

  /** One request after another. */
  lemma CascadeTwice(cells: set<Cell>, rank: Numbering, root: Cell, a: map<Cell, Cell>, b: map<Cell, Cell>,
                     asked: set<Cell>, more: set<Cell>, n0: Net, n1: Net, n2: Net)
    requires Cascade(cells, rank, root, a, asked, n0, n1) && Cascade(cells, rank, root, b, more, n1, n2)
    ensures Cascade(cells, rank, root, a + b, asked + more, n0, n2)
  {
    assert (a + b).Keys == a.Keys + b.Keys;
    RisenTwice(cells, rank, root, a, b, asked, more, n0, n1, n2);
    hide AllRisen, Risen, Shaped, Ranked, Lifted;
    TurnsTwice(cells, rank, root, a, b, n0.on, n1.on, n2.on);
    SubscribedTwice(cells, rank, root, a, b, asked, more, n0.sub, n1.sub, n2.sub);
    LiftedTwice(cells, rank, root, a, b, n0, n1, n2);
  }

  lemma TurnsTwice(cells: set<Cell>, rank: Numbering, root: Cell, a: map<Cell, Cell>, b: map<Cell, Cell>,
                   on0: set<Cell>, on1: set<Cell>, on2: set<Cell>)
    requires cells <= rank.Keys && root in cells
    requires Turns(cells, rank, root, a, on0, on1) && Turns(cells, rank, root, b, on1, on2)
    ensures Turns(cells, rank, root, a + b, on0, on2) && a.Keys !! b.Keys
  {
  }

  lemma SubscribedTwice(cells: set<Cell>, rank: Numbering, root: Cell, a: map<Cell, Cell>, b: map<Cell, Cell>,
                        asked: set<Cell>, more: set<Cell>,
                        sub0: map<Cell, set<Cell>>, sub1: map<Cell, set<Cell>>, sub2: map<Cell, set<Cell>>)
    requires cells <= rank.Keys && root in cells && sub0.Keys == sub1.Keys == sub2.Keys == cells
    requires Subscribed(cells, rank, root, a, asked, sub0, sub1) && Subscribed(cells, rank, root, b, more, sub1, sub2)
    ensures Subscribed(cells, rank, root, a + b, asked + more, sub0, sub2)
  {
    forall c | c in cells ensures sub2[c] == sub0[c] + NewSubs(c, root, asked + more, a + b) {
      assert sub1[c] == sub0[c] + NewSubs(c, root, asked, a);
      assert NewSubs(c, root, asked + more, a + b) == NewSubs(c, root, asked, a) + NewSubs(c, root, more, b);
    }
  }

  lemma LiftedTwice(cells: set<Cell>, rank: Numbering, root: Cell, a: map<Cell, Cell>, b: map<Cell, Cell>,
                    n0: Net, n1: Net, n2: Net)
    requires cells <= rank.Keys && root in cells && n0.level.Keys == n1.level.Keys == n2.level.Keys == cells
    requires Turns(cells, rank, root, a, n0.on, n1.on) && Turns(cells, rank, root, b, n1.on, n2.on)
    requires AllLifted(cells, rank, root, a, n0.level, n1.level) && AllLifted(cells, rank, root, b, n1.level, n2.level)
    ensures (a + b).Keys <= cells && AllLifted(cells, rank, root, a + b, n0.level, n2.level)
  {
    assert forall o :: o in a ==> n2.level[o] == n1.level[o];
    assert forall o :: o in b ==> n1.level[o] == n0.level[o];
    forall x | x in a + b || x == root ensures Lifted(x, a + b, n0.level, n2.level) {
      assert x in a || x == root ==> Lifted(x, a, n0.level, n1.level);
      assert x in b || x == root ==> Lifted(x, b, n1.level, n2.level);
      LiftedOnce(a, b, n0.level, n1.level, n2.level, x, x in a, x in b);
    }
  }

  lemma LiftedOnce(a: map<Cell, Cell>, b: map<Cell, Cell>, l0: Numbering, l1: Numbering, l2: Numbering, x: Cell,
                   inA: bool, inB: bool)
    requires l0.Keys == l1.Keys == l2.Keys && a.Keys <= l0.Keys && b.Keys <= l0.Keys && x in l0 && a.Keys !! b.Keys
    requires forall o :: o in a ==> l2[o] == l1[o]
    requires inA ==> Lifted(x, a, l0, l1) && l2[x] == l1[x] && forall o {:trigger b[o]} :: o in b ==> b[o] != x
    requires inB ==> Lifted(x, b, l1, l2) && l1[x] == l0[x] && forall o {:trigger a[o]} :: o in a ==> a[o] != x
    requires !inA && !inB ==> Lifted(x, a, l0, l1) && Lifted(x, b, l1, l2)
    ensures Lifted(x, a + b, l0, l2)
  {
    if l1[x] < l2[x] {
      var o :| o in b && b[o] == x && l2[x] <= l2[o] + 1;
      assert (a + b)[o] == x;
    } else if l0[x] < l1[x] {
      var o :| o in a && a[o] == x && l1[x] <= l1[o] + 1;
      assert (a + b)[o] == x;
    }
  }

  lemma RisenTwice(cells: set<Cell>, rank: Numbering, root: Cell, a: map<Cell, Cell>, b: map<Cell, Cell>,
                   asked: set<Cell>, more: set<Cell>, n0: Net, n1: Net, n2: Net)
    requires Cascade(cells, rank, root, a, asked, n0, n1) && Cascade(cells, rank, root, b, more, n1, n2)
    ensures AllRisen(cells, rank, root, n0, n2)
  {
    LevelsRise(cells, rank, root, a, asked, n0, n1);
    LevelsRise(cells, rank, root, b, more, n1, n2);
    forall c | c in cells ensures forall s :: s in n1.sub[c] && s in cells && rank[root] < rank[s] ==> s in n0.sub[c] {
      SubsAbove(cells, rank, root, a, asked, n0.sub, n1.sub, c);
    }
    hide Turns, Subscribed, AllLifted, Ranked, Over;
    forall x | x in cells && (x == root || rank[root] < rank[x]) ensures Risen(cells, root, x, n0, n2) {
      assert Risen(cells, root, x, n0, n1) && Risen(cells, root, x, n1, n2);
      RisenOnce(cells, rank, root, n0, n1, n2, x);
    }
  }

  lemma RisenOnce(cells: set<Cell>, rank: Numbering, root: Cell, n0: Net, n1: Net, n2: Net, x: Cell)
    requires n0.sub.Keys == n0.level.Keys == n1.sub.Keys == n1.level.Keys == n2.sub.Keys == n2.level.Keys == cells
    requires cells <= rank.Keys && root in cells && x in cells && (x == root || rank[root] < rank[x])
    requires Risen(cells, root, x, n0, n1) && Risen(cells, root, x, n1, n2)
    requires forall c :: c in cells ==> n0.level[c] <= n1.level[c] <= n2.level[c]
    requires forall c :: c in cells && x in n1.sub[c] && rank[root] < rank[x] ==> x in n0.sub[c]
    ensures Risen(cells, root, x, n0, n2)
  {
    hide Over;
    if x != root && n0.level[x] < n2.level[x] {
      if n1.level[x] < n2.level[x] {
        var p :| p in cells && x in n1.sub[p] && n1.level[p] < n2.level[p] && n2.level[x] <= n2.level[p] + 1;
        assert x in n0.sub[p] && n0.level[p] < n2.level[p];
      } else {
        var p :| p in cells && x in n0.sub[p] && n0.level[p] < n1.level[p] && n1.level[x] <= n1.level[p] + 1;
        assert n0.level[p] < n2.level[p];
      }
    }
  }

  // -------------------------------------------------------------------------------------------
  // Turning one cell on
  // -------------------------------------------------------------------------------------------

  /** A cell that is off has no subscribers, but those above `root` that are being turned on. */
  ghost predicate Fresh(cells: set<Cell>, rank: Numbering, root: Cell, n: Net) {
    && cells <= rank.Keys && root in cells && n.sub.Keys == cells
    && forall c :: c in cells && c !in n.on && rank[c] < rank[root] ==> n.sub[c] == {}
  }

  /** `pub` gets the subscriber `sub`. */
  ghost function With(n: Net, pub: Cell, sub: Cell): Net
    requires pub in n.sub
  {
    n.(sub := n.sub[pub := n.sub[pub] + {sub}])
  }

  /** What a repair below `top` makes of the levels. */
  ghost predicate Repaired(cells: set<Cell>, rank: Numbering, top: Cell, sub: map<Cell, set<Cell>>, was: Numbering,
                           now: Numbering)
    requires cells <= rank.Keys && top in cells
  {
    && was.Keys == now.Keys == sub.Keys == cells
    && (forall c :: c in cells ==> was[c] <= now[c])
    && (forall c :: c in cells && rank[c] <= rank[top] ==> was[c] == now[c])
    && (forall c :: c in cells && (c == top || was[c] < now[c]) ==> Over(Net({}, sub, now), c))
    && (forall c :: c in cells && was[c] < now[c] ==>
          exists p :: p in cells && c in sub[p] && (p == top || was[p] < now[p]) && now[c] <= now[p] + 1)
  }

  lemma RaisedIsRepaired(cells: set<Cell>, rank: Numbering, top: Cell, was: Numbering)
    requires Ranked(cells, rank) && Acyclic(cells, rank) && top in cells
    requires Raised(cells, rank, top, was, LevelsOf(cells)) && Above(top, LevelsOf(cells))
    ensures Repaired(cells, rank, top, SubsOf(cells), was, LevelsOf(cells))
  {
    var n := NetOf(cells);
    forall c | c in cells && (c == top || was[c] < c.level) ensures Over(Net({}, n.sub, n.level), c) {
      assert Above(c, n.level);
    }
    forall c | c in cells && was[c] < c.level
      ensures exists p ::
        p in cells && c in n.sub[p] && (p == top || was[p] < n.level[p]) && n.level[c] <= n.level[p] + 1
    {
      var p :| p in cells && c in p.sub && (p == top || was[p] < n.level[p]) && n.level[c] <= n.level[p] + 1;
      assert c in n.sub[p];
    }
  }

  /** The levels after `sub` was put above `pub`, if it is a cell and was not there, and repaired below. */
  ghost predicate PutAbove(cells: set<Cell>, rank: Numbering, pub: Cell, sub: Cell, subs: map<Cell, set<Cell>>,
                           was: Numbering, now: Numbering)
    requires cells <= rank.Keys && pub in cells && sub in cells && was.Keys == cells
  {
    if sub.isStatic || was[pub] < was[sub] then now == was
    else Repaired(cells, rank, sub, subs, was[sub := was[pub] + 1], now)
  }

  /** The operands of `pub`, which has one subscriber, have been turned on: then a cell that has risen is `sub`, or
      above it. */
  lemma {:induction false} RisenAreAbove(cells: set<Cell>, rank: Numbering, pub: Cell, sub: Cell,
                                         turned: map<Cell, Cell>, asked: set<Cell>, n1: Net, n2: Net, x: Cell)
    requires Cascade(cells, rank, pub, turned, asked, n1, n2) && Fresh(cells, rank, pub, n1)
    requires sub in cells && rank[pub] < rank[sub] && n1.sub[pub] == {sub}
    requires x in cells && rank[pub] < rank[x] && n1.level[x] < n2.level[x]
    ensures x == sub || rank[sub] < rank[x]
    ensures x == sub ==> n2.level[sub] <= n2.level[pub] + 1
    decreases rank[x]
  {
    assert Risen(cells, pub, x, n1, n2);
    var p :| p in cells && x in n1.sub[p] && n1.level[p] < n2.level[p] && n2.level[x] <= n2.level[p] + 1;
    assert rank[p] < rank[x];
    hide Risen, Over, Subscribed;
    assert p in turned ==> p !in n1.on;
    if rank[pub] < rank[p] {
      RisenAreAbove(cells, rank, pub, sub, turned, asked, n1, n2, p);
    } else {
      assert p == pub;
    }
  }

  /** `sub` ends above `pub`, and of the other cells only those ranked above `sub` may have been raised. */
  lemma PutIs(cells: set<Cell>, rank: Numbering, pub: Cell, sub: Cell, subs: map<Cell, set<Cell>>, was: Numbering,
              now: Numbering)
    requires cells <= rank.Keys && pub in cells && sub in cells && rank[pub] < rank[sub] && was.Keys == cells
    requires PutAbove(cells, rank, pub, sub, subs, was, now)
    ensures now.Keys == cells && forall c :: c in cells ==> was[c] <= now[c]
    ensures forall c :: c in cells && rank[c] <= rank[sub] && c != sub ==> now[c] == was[c]
    ensures (sub.isStatic || now[pub] < now[sub]) && (now[sub] == was[sub] || now[sub] == now[pub] + 1)
  {
    hide Over;
  }

  /** `pub` comes on, and `sub` is put above it. */
  ghost predicate CameOn(cells: set<Cell>, rank: Numbering, pub: Cell, sub: Cell, n: Net, n': Net) {
    && cells <= rank.Keys && pub in cells && sub in cells && n.level.Keys == cells
    && n'.on == n.on + {pub} && n'.sub == n.sub
    && PutAbove(cells, rank, pub, sub, n.sub, n.level, n'.level)
  }

  /** `sub` asks for `pub`, which is off: `pub` asks for its operands, comes on, and `sub` is put above it. */
  ghost predicate Turning(cells: set<Cell>, rank: Numbering, pub: Cell, sub: Cell, turned: map<Cell, Cell>,
                          n: Net, n2: Net, n3: Net)
  {
    && Shaped(cells, rank, n) && Fresh(cells, rank, sub, n) && pub in cells && sub in cells && rank[pub] < rank[sub]
    && pub !in n.on
    && Cascade(cells, rank, pub, turned, AskedFor(pub, |pub.operands|), With(n, pub, sub), n2)
    && CameOn(cells, rank, pub, sub, n2, n3)
  }

  /** While `pub` comes on, of the cells ranked above it only `sub` and those above it may have been raised. */
  lemma TurningRaises(cells: set<Cell>, rank: Numbering, pub: Cell, sub: Cell, turned: map<Cell, Cell>, n: Net, n2: Net,
                      n3: Net)
    requires Turning(cells, rank, pub, sub, turned, n, n2, n3)
    ensures n2.level.Keys == cells && forall c :: c in cells ==> n.level[c] <= n2.level[c]
    ensures n.level[sub] < n2.level[sub] ==> n2.level[sub] <= n2.level[pub] + 1
    ensures forall c :: c in cells && rank[pub] < rank[c] && n.level[c] < n2.level[c] ==>
      c == sub || rank[sub] < rank[c]
  {
    var n1, asked := With(n, pub, sub), AskedFor(pub, |pub.operands|);
    hide Over, PutAbove, Subscribed, AllRisen, AllLifted, Turns;
    LevelsRise(cells, rank, pub, turned, asked, n1, n2);
    assert n1.sub[pub] == {sub} && Fresh(cells, rank, pub, n1);
    hide Cascade, Fresh, Shaped;
    forall c | c in cells && rank[pub] < rank[c] && n.level[c] < n2.level[c]
      ensures c == sub || rank[sub] < rank[c]
      ensures c == sub ==> n2.level[sub] <= n2.level[pub] + 1
    {
      RisenAreAbove(cells, rank, pub, sub, turned, asked, n1, n2, c);
    }
  }

  lemma TurnsOneMore(cells: set<Cell>, rank: Numbering, pub: Cell, sub: Cell, turned: map<Cell, Cell>,
                     on: set<Cell>, on': set<Cell>)
    requires cells <= rank.Keys && pub in cells && sub in cells && rank[pub] < rank[sub] && pub !in on
    requires Turns(cells, rank, pub, turned, on, on')
    ensures Turns(cells, rank, sub, turned[pub := sub], on, on' + {pub})
    ensures turned.Keys <= cells && Asked(turned, pub) && forall x :: x in turned ==> rank[x] < rank[pub]
  {
  }

  lemma SubscribesOneMore(cells: set<Cell>, rank: Numbering, pub: Cell, sub: Cell, turned: map<Cell, Cell>,
                          was: map<Cell, set<Cell>>, now: map<Cell, set<Cell>>)
    requires cells <= rank.Keys && pub in cells && sub in cells && rank[pub] < rank[sub]
    requires was.Keys == now.Keys == cells
    requires Subscribed(cells, rank, pub, turned, AskedFor(pub, |pub.operands|), was[pub := was[pub] + {sub}], now)
    requires !pub.isStatic
    ensures Subscribed(cells, rank, sub, turned[pub := sub], {pub}, was, now)
  {
    var was1, asked := was[pub := was[pub] + {sub}], AskedFor(pub, |pub.operands|);
    forall c | c in cells ensures now[c] == was[c] + NewSubs(c, sub, {pub}, turned[pub := sub]) {
      assert now[c] == was1[c] + NewSubs(c, pub, asked, turned);
      SameNewSubs(pub, sub, turned, asked, c);
    }
  }

  lemma SameNewSubs(pub: Cell, sub: Cell, turned: map<Cell, Cell>, asked: set<Cell>, c: Cell)
    requires asked == AskedFor(pub, |pub.operands|) && !pub.isStatic
    ensures NewSubs(c, sub, {pub}, turned[pub := sub]) == NewSubs(c, pub, asked, turned) + if c == pub then {sub}
      else {}
  {
    assert c in pub.operands <==> c in asked;
  }

  lemma LiftsOneMore(cells: set<Cell>, rank: Numbering, pub: Cell, sub: Cell, turned: map<Cell, Cell>,
                     l0: Numbering, l2: Numbering, l3: Numbering)
    requires cells <= rank.Keys && pub in cells && sub in cells && rank[pub] < rank[sub]
    requires l0.Keys == l2.Keys == l3.Keys == cells && turned.Keys <= cells
    requires Asked(turned, pub) && AllLifted(cells, rank, pub, turned, l0, l2)
    requires forall x :: x in turned ==> rank[x] < rank[pub]
    requires l0[sub] <= l2[sub] <= l3[sub] && (sub.isStatic || l3[pub] < l3[sub])
    requires l3[sub] == l2[sub] || l3[sub] == l3[pub] + 1
    requires l0[sub] < l2[sub] ==> l2[sub] <= l2[pub] + 1
    requires forall c :: c in cells && rank[c] <= rank[sub] && c != sub ==> l3[c] == l2[c]
    requires forall c :: c in cells && rank[pub] < rank[c] <= rank[sub] && c != sub ==> l2[c] == l0[c]
    ensures AllLifted(cells, rank, sub, turned[pub := sub], l0, l3)
  {
    assert forall o :: o in turned ==> l3[o] == l2[o];
    var now := turned[pub := sub];
    forall x | x in now ensures Lifted(x, now, l0, l3) {
      assert Lifted(x, turned, l0, l2);
      StaysLifted(pub, sub, turned, l0, l2, l3, x);
    }
    LiftedLast(pub, sub, turned, l0, l2, l3);
    hide Lifted;
  }

  lemma StaysLifted(pub: Cell, sub: Cell, turned: map<Cell, Cell>, l0: Numbering, l2: Numbering, l3: Numbering, x: Cell)
    requires l0.Keys == l2.Keys == l3.Keys && turned.Keys <= l0.Keys && pub in l0 && x in l0 && x != sub
    requires pub !in turned
    requires Lifted(x, turned, l0, l2) && l3[x] == l2[x] && forall o :: o in turned ==> l3[o] == l2[o]
    ensures Lifted(x, turned[pub := sub], l0, l3)
  {
    if l0[x] < l2[x] {
      var o :| o in turned && turned[o] == x && l2[x] <= l2[o] + 1;
      assert turned[pub := sub][o] == x;
    }
  }

  lemma LiftedLast(pub: Cell, sub: Cell, turned: map<Cell, Cell>, l0: Numbering, l2: Numbering, l3: Numbering)
    requires l0.Keys == l2.Keys == l3.Keys && turned.Keys <= l0.Keys && pub in l0 && sub in l0
    requires forall o {:trigger turned[o]} :: o in turned && o != pub ==> turned[o] != sub
    requires l0[sub] <= l2[sub] <= l3[sub] && (sub.isStatic || l3[pub] < l3[sub])
    requires l3[sub] == l2[sub] || l3[sub] == l3[pub] + 1
    requires l3[pub] == l2[pub] && (l0[sub] < l2[sub] ==> l2[sub] <= l2[pub] + 1)
    ensures Lifted(sub, turned[pub := sub], l0, l3)
  {
    assert turned[pub := sub][pub] == sub;
  }

  /** The levels of a repair, for one cell at or above its top. */
  lemma RisesOneMore(cells: set<Cell>, rank: Numbering, pub: Cell, sub: Cell, x: Cell, n: Net, n2: Net, n3: Net)
    requires cells <= rank.Keys && pub in cells && sub in cells && rank[pub] < rank[sub]
    requires n.sub.Keys == n.level.Keys == n2.sub.Keys == n2.level.Keys == n3.sub.Keys == n3.level.Keys == cells
    requires x in cells && (x == sub || rank[sub] < rank[x])
    requires n2.sub[x] == n.sub[x] == n3.sub[x]
    requires forall c :: c in cells && x in n2.sub[c] && rank[sub] < rank[x] ==> x in n.sub[c]
    requires forall c :: c in cells ==> n.level[c] <= n2.level[c] <= n3.level[c]
    requires Risen(cells, pub, x, With(n, pub, sub), n2)
    requires PutAbove(cells, rank, pub, sub, n2.sub, n2.level, n3.level) && n3.sub == n2.sub
    ensures Risen(cells, sub, x, n, n3)
  {
    OverThrough(cells, rank, pub, sub, x, n, n2, n3);
    hide Over, PutAbove;
    if x != sub && n.level[x] < n3.level[x] {
      ReasonThrough(cells, rank, pub, sub, x, n, n2, n3);
    }
  }

  lemma ReasonThrough(cells: set<Cell>, rank: Numbering, pub: Cell, sub: Cell, x: Cell, n: Net, n2: Net, n3: Net)
    requires cells <= rank.Keys && pub in cells && sub in cells && rank[pub] < rank[sub]
    requires n.sub.Keys == n.level.Keys == n2.sub.Keys == n2.level.Keys == n3.sub.Keys == n3.level.Keys == cells
    requires x in cells && rank[sub] < rank[x] && n.level[x] < n3.level[x]
    requires forall c :: c in cells && x in n2.sub[c] ==> x in n.sub[c]
    requires forall c :: c in cells ==> n.level[c] <= n2.level[c] <= n3.level[c]
    requires Risen(cells, pub, x, With(n, pub, sub), n2)
    requires PutAbove(cells, rank, pub, sub, n2.sub, n2.level, n3.level)
    ensures exists p :: p in cells && x in n.sub[p] && n.level[p] < n3.level[p] && n3.level[x] <= n3.level[p] + 1
  {
    hide Over;
    if n2.level[x] < n3.level[x] {
      var was := n2.level[sub := n2.level[pub] + 1];
      var p :| p in cells && x in n2.sub[p] && (p == sub || was[p] < n3.level[p]) && n3.level[x] <= n3.level[p] + 1;
      assert x in n.sub[p] && n.level[p] < n3.level[p];
    } else {
      var p :| p in cells && x in With(n, pub, sub).sub[p] && n.level[p] < n2.level[p]
        && n2.level[x] <= n2.level[p] + 1;
      assert x in n.sub[p] && n.level[p] < n3.level[p];
    }
  }

  lemma StaysOver(n: Net, n': Net, x: Cell)
    requires n.sub.Keys == n.level.Keys == n'.sub.Keys == n'.level.Keys && x in n.sub && n.sub[x] == n'.sub[x]
    requires n.level[x] == n'.level[x] && forall c :: c in n.level ==> n.level[c] <= n'.level[c]
    ensures Over(n, x) ==> Over(n', x)
  {
  }

  lemma OverThrough(cells: set<Cell>, rank: Numbering, pub: Cell, sub: Cell, x: Cell, n: Net, n2: Net, n3: Net)
    requires cells <= rank.Keys && pub in cells && sub in cells && rank[pub] < rank[sub]
    requires n.sub.Keys == n.level.Keys == n2.sub.Keys == n2.level.Keys == n3.sub.Keys == n3.level.Keys == cells
    requires x in cells && (x == sub || rank[sub] < rank[x]) && n2.sub[x] == n.sub[x] == n3.sub[x]
    requires forall c :: c in cells ==> n.level[c] <= n2.level[c] <= n3.level[c]
    requires Risen(cells, pub, x, With(n, pub, sub), n2)
    requires PutAbove(cells, rank, pub, sub, n2.sub, n2.level, n3.level) && n3.sub == n2.sub
    ensures Over(n, x) || n.level[x] < n3.level[x] ==> Over(n3, x)
  {
    assert Over(n, x) ==> Over(With(n, pub, sub), x);
    if n2.level[x] < n3.level[x] {
      assert Over(Net({}, n2.sub, n3.level), x);
    } else {
      StaysOver(n2, n3, x);
    }
  }

  lemma TurningRises(cells: set<Cell>, rank: Numbering, pub: Cell, sub: Cell, turned: map<Cell, Cell>, n: Net, n2: Net,
                     n3: Net)
    requires Turning(cells, rank, pub, sub, turned, n, n2, n3)
    requires n3.level.Keys == cells && forall c :: c in cells ==> n.level[c] <= n2.level[c] <= n3.level[c]
    ensures AllRisen(cells, rank, sub, n, n3)
  {
    var n1, asked := With(n, pub, sub), AskedFor(pub, |pub.operands|);
    hide Risen, PutAbove, Subscribed, AllLifted, Fresh, Asked, Over;
    assert Ranked(cells, rank) && turned.Keys <= cells && forall x :: x in turned ==> rank[x] < rank[pub];
    assert Subscribed(cells, rank, pub, turned, asked, n1.sub, n2.sub) && AllRisen(cells, rank, pub, n1, n2);
    Keys(cells, rank, pub, turned, asked, n1, n2);
    hide Ranked, Shaped, Turns, Cascade;
    forall x | x in cells && (x == sub || rank[sub] < rank[x]) ensures Risen(cells, sub, x, n, n3) {
      assert Risen(cells, pub, x, n1, n2);
      SameSubs(cells, rank, pub, sub, turned, n, n2, x);
      RisesOneMore(cells, rank, pub, sub, x, n, n2, n3);
    }
  }

  /** Above `sub` no cell gets a new subscriber, and none becomes one. */
  lemma SameSubs(cells: set<Cell>, rank: Numbering, pub: Cell, sub: Cell, turned: map<Cell, Cell>, n: Net, n2: Net,
                 x: Cell)
    requires Ranked(cells, rank) && pub in cells && sub in cells && rank[pub] < rank[sub]
    requires n.sub.Keys == n2.sub.Keys == cells && turned.Keys <= cells
    requires forall x :: x in turned ==> rank[x] < rank[pub]
    requires Subscribed(cells, rank, pub, turned, AskedFor(pub, |pub.operands|), With(n, pub, sub).sub, n2.sub)
    requires x in cells && (x == sub || rank[sub] < rank[x])
    ensures n2.sub[x] == n.sub[x]
    ensures forall c :: c in cells && x in n2.sub[c] && rank[sub] < rank[x] ==> x in n.sub[c]
  {
    var n1, asked := With(n, pub, sub), AskedFor(pub, |pub.operands|);
    hide Subscribed, Ranked;
    forall c | c in cells && x in n2.sub[c] && rank[sub] < rank[x] ensures x in n.sub[c] {
      SubsAbove(cells, rank, pub, turned, asked, n1.sub, n2.sub, c);
    }
    SubsAbove(cells, rank, pub, turned, asked, n1.sub, n2.sub, x);
  }

  lemma TurningIs(cells: set<Cell>, rank: Numbering, pub: Cell, sub: Cell, turned: map<Cell, Cell>, n: Net, n2: Net,
                  n3: Net)
    requires Shaped(cells, rank, n) && Fresh(cells, rank, sub, n) && pub in cells && sub in cells
    requires rank[pub] < rank[sub]
    requires pub !in n.on
    requires Cascade(cells, rank, pub, turned, AskedFor(pub, |pub.operands|), With(n, pub, sub), n2)
    requires CameOn(cells, rank, pub, sub, n2, n3)
    ensures Cascade(cells, rank, sub, turned[pub := sub], {pub}, n, n3) && Shaped(cells, rank, n3)
  {
    hide Turns, Subscribed, AllLifted, AllRisen, PutAbove, Fresh;
    TurningRaises(cells, rank, pub, sub, turned, n, n2, n3);
    PutIs(cells, rank, pub, sub, n2.sub, n2.level, n3.level);
    assert Shaped(cells, rank, n3) && !pub.isStatic;
    hide Shaped;
    TurningRises(cells, rank, pub, sub, turned, n, n2, n3);
    TurnsOneMore(cells, rank, pub, sub, turned, n.on, n2.on);
    SubscribesOneMore(cells, rank, pub, sub, turned, n.sub, n2.sub);
    LiftsOneMore(cells, rank, pub, sub, turned, n.level, n2.level, n3.level);
  }

  /** Everything that is still off has no subscribers still. */
  lemma StaysFresh(cells: set<Cell>, rank: Numbering, root: Cell, turned: map<Cell, Cell>, asked: set<Cell>, n: Net,
                   n': Net)
    requires Cascade(cells, rank, root, turned, asked, n, n') && Fresh(cells, rank, root, n)
    requires forall o :: o in asked ==> o in n'.on
    requires Closed(turned, n.on)
    ensures Fresh(cells, rank, root, n')
  {
    hide AllRisen, AllLifted, Asked;
    forall c | c in cells && c !in n'.on && rank[c] < rank[root] ensures n'.sub[c] == {} {
      assert n'.sub[c] == n.sub[c] + NewSubs(c, root, asked, turned);
    }
  }

  // -------------------------------------------------------------------------------------------
  // When the order survives
  // -------------------------------------------------------------------------------------------

  /** The level that `x` gets from its first `i` operands: it is put above each one that it turns on. */
  ghost function LiftedOver(cells: set<Cell>, rank: Numbering, x: Cell, i: nat, turned: map<Cell, Cell>,
                            at: Numbering): (l: nat)
    requires Ranked(cells, rank) && x in cells && i <= |x.operands| && cells <= at.Keys
    ensures at[x] <= l
    ensures forall k :: 0 <= k < i && x.operands[k] in turned && turned[x.operands[k]] == x ==>
      LevelFor(cells, rank, x.operands[k], turned, at) < l
    ensures l == at[x] || exists k ::
      && 0 <= k < i && x.operands[k] in turned && turned[x.operands[k]] == x
      && l == LevelFor(cells, rank, x.operands[k], turned, at) + 1
    decreases rank[x], 0, i
  {
    if i == 0 then at[x] else
      var l, o := LiftedOver(cells, rank, x, i - 1, turned, at), x.operands[i - 1];
      if o in turned && turned[o] == x && l <= LevelFor(cells, rank, o, turned, at)
      then LevelFor(cells, rank, o, turned, at) + 1 else l
  }

  /** The level of `x` when the cells in `turned` have been turned on. */
  ghost function LevelFor(cells: set<Cell>, rank: Numbering, x: Cell, turned: map<Cell, Cell>, at: Numbering): nat
    requires Ranked(cells, rank) && x in cells && cells <= at.Keys
    decreases rank[x], 1, 0
  {
    LiftedOver(cells, rank, x, |x.operands|, turned, at)
  }

  /** `d` subscribes to `o`, but does not turn it on, and so is not put above it. */
  ghost predicate Late(o: Cell, d: Cell, turned: map<Cell, Cell>) {
    !o.isStatic && !(o in turned && turned[o] == d)
  }

  /** The levels allow `sub` to subscribe to `pub`. If `pub` is on, it has the subscriber already or is below it. If
      not, for each cell that is turned on, the operands that it finds turned on already are below the level that it
      gets from those that it turns on itself. */
  ghost predicate Fits(cells: set<Cell>, rank: Numbering, pub: Cell, sub: Cell, n: Net)
    requires Shaped(cells, rank, n) && pub in cells && sub in cells
  {
    if pub in n.on then pub.isStatic || sub.isStatic || sub in n.sub[pub] || n.level[pub] < n.level[sub]
    else
      var turned := TurnedOn(cells, rank, pub, sub, n.on);
      forall d, i :: d in turned && 0 <= i < |d.operands| && Late(d.operands[i], d, turned) ==>
        LevelFor(cells, rank, d.operands[i], turned, n.level) < LevelFor(cells, rank, d, turned, n.level)
  }

  /** The levels below `root` can be told beforehand. */
  lemma {:induction false} LevelsAre(cells: set<Cell>, rank: Numbering, root: Cell, turned: map<Cell, Cell>,
                                     was: Numbering, now: Numbering, x: Cell)
    requires Ranked(cells, rank) && root in cells && was.Keys == now.Keys == cells && turned.Keys <= cells
    requires AllLifted(cells, rank, root, turned, was, now) && forall o :: o in turned ==> !o.isStatic
    requires forall o {:trigger turned[o]} :: o in turned && turned[o] != root ==>
      o in turned[o].operands && turned[o] in turned
    requires x in cells && rank[x] < rank[root]
    ensures now[x] == LevelFor(cells, rank, x, turned, was)
    decreases rank[x]
  {
    forall k | 0 <= k < |x.operands| ensures now[x.operands[k]] == LevelFor(cells, rank, x.operands[k], turned, was) {
      LevelsAre(cells, rank, root, turned, was, now, x.operands[k]);
    }
    if x in turned {
      assert Lifted(x, turned, was, now);
    }
  }

  /** What is needed of the cells that are turned on. */
  lemma TurnedOnBelow(cells: set<Cell>, rank: Numbering, pub: Cell, sub: Cell, n: Net)
    requires Shaped(cells, rank, n) && pub in cells && sub in cells && rank[pub] < rank[sub]
    ensures var turned := TurnedOn(cells, rank, pub, sub, n.on);
      && turned.Keys <= cells && (forall o :: o in turned ==> !o.isStatic)
      && forall o {:trigger turned[o]} :: o in turned && turned[o] != sub ==>
        o in turned[o].operands && turned[o] in turned
  {
    hide Closed;
  }

  /** Every operand that a cell finds turned on is below it. */
  ghost predicate LateBelow(turned: map<Cell, Cell>, at: Numbering)
    requires forall d, i :: d in turned && 0 <= i < |d.operands| ==> d in at && d.operands[i] in at
  {
    forall d, i :: d in turned && 0 <= i < |d.operands| && Late(d.operands[i], d, turned) ==> at[d.operands[i]] < at[d]
  }

  /** Cells at and above `root` keep their subscribers above them. */
  lemma OrderAbove(cells: set<Cell>, rank: Numbering, root: Cell, turned: map<Cell, Cell>, asked: set<Cell>,
                   n: Net, n': Net, c: Cell)
    requires Cascade(cells, rank, root, turned, asked, n, n') && c in cells && Over(n, c) && rank[root] <= rank[c]
    ensures Over(n', c)
  {
    if c == root || rank[root] < rank[c] {
      assert Risen(cells, root, c, n, n');
    } else {
      LevelsRise(cells, rank, root, turned, asked, n, n');
      SubsAbove(cells, rank, root, turned, asked, n.sub, n'.sub, c);
      assert n'.level[c] == n.level[c];
      hide AllRisen, Subscribed, Turns, Shaped;
    }
  }

  /** A cell below `root` keeps its subscriber above it, or gets it above it. */
  lemma OrderBelow(cells: set<Cell>, rank: Numbering, pub: Cell, sub: Cell, turned: map<Cell, Cell>, n: Net, n': Net,
                   c: Cell, s: Cell)
    requires Cascade(cells, rank, sub, turned, {pub}, n, n') && c in cells && Over(n, c) && rank[c] < rank[sub]
    requires Fresh(cells, rank, sub, n) && s in n'.sub[c]
    requires if pub in turned then turned[pub] == sub
      else pub.isStatic || sub.isStatic || sub in n.sub[pub] || n.level[pub] < n.level[sub]
    requires forall i :: s in turned && 0 <= i < |s.operands| && s.operands[i] == c && Late(c, s, turned) ==>
      n'.level[c] < n'.level[s]
    ensures s in cells && (s.isStatic || n'.level[c] < n'.level[s])
  {
    LevelsRise(cells, rank, sub, turned, {pub}, n, n');
    assert n'.sub[c] == n.sub[c] + NewSubs(c, sub, {pub}, turned);
    hide AllRisen, Subscribed, Asked, Ranked, NewSubs;
    if s in n.sub[c] {
      assert c !in turned;
    } else {
      NewSubsAre(c, sub, {pub}, turned, s);
      if s == sub && c == pub {
        assert pub in turned ==> Lifted(sub, turned, n.level, n'.level);
      } else {
        assert Lifted(s, turned, n.level, n'.level);
      }
    }
  }

  lemma NewSubsAre(c: Cell, root: Cell, asked: set<Cell>, turned: map<Cell, Cell>, s: Cell)
    requires s in NewSubs(c, root, asked, turned)
    ensures !c.isStatic
    ensures (c in asked && s == root) || (s in turned && exists i :: 0 <= i < |s.operands| && s.operands[i] == c)
  {
    if !(c in asked && s == root) {
      assert c in s.operands;
    }
  }

  /** After the cascade every subscriber is above its publisher if the late operands are below. */
  lemma OrderIfLateBelow(cells: set<Cell>, rank: Numbering, pub: Cell, sub: Cell, turned: map<Cell, Cell>, n: Net,
                         n': Net, c: Cell)
    requires Cascade(cells, rank, sub, turned, {pub}, n, n') && Fresh(cells, rank, sub, n) && pub in cells
    requires c in cells && Over(n, c)
    requires forall d, i :: d in turned && 0 <= i < |d.operands| ==> d in cells && d.operands[i] in cells
    requires if pub in turned then turned[pub] == sub
      else pub.isStatic || sub.isStatic || sub in n.sub[pub] || n.level[pub] < n.level[sub]
    requires LateBelow(turned, n'.level)
    ensures Over(n', c)
  {
    Keys(cells, rank, sub, turned, {pub}, n, n');
    hide Turns, AllLifted, AllRisen, Subscribed, Fresh, Shaped;
    if rank[sub] <= rank[c] {
      OrderAbove(cells, rank, sub, turned, {pub}, n, n', c);
    } else {
      forall s | s in n'.sub[c] ensures s in n'.level && (s.isStatic || n'.level[c] < n'.level[s]) {
        OrderBelow(cells, rank, pub, sub, turned, n, n', c, s);
      }
    }
  }

  /** A late operand that is not below breaks the order. */
  lemma OrderNeedsLateBelow(cells: set<Cell>, rank: Numbering, root: Cell, turned: map<Cell, Cell>, asked: set<Cell>,
                            n: Net, n': Net)
    requires Cascade(cells, rank, root, turned, asked, n, n')
    requires forall d, i :: d in turned && 0 <= i < |d.operands| ==> d in cells && d.operands[i] in cells
    requires forall d, i :: d in turned && 0 <= i < |d.operands| ==> Over(n', d.operands[i])
    ensures LateBelow(turned, n'.level)
  {
    Keys(cells, rank, root, turned, asked, n, n');
    hide Turns, AllLifted, AllRisen, Shaped;
    forall d, i | d in turned && 0 <= i < |d.operands| && Late(d.operands[i], d, turned)
      ensures n'.level[d.operands[i]] < n'.level[d]
    {
      NewSubscriber(cells, rank, root, turned, asked, n.sub, n'.sub, d, i);
    }
  }

  /** After the cascade every subscriber is above its publisher exactly when the late operands are below. */
  lemma OrderIffLateBelow(cells: set<Cell>, rank: Numbering, pub: Cell, sub: Cell, turned: map<Cell, Cell>, n: Net,
                          n': Net)
    requires Cascade(cells, rank, sub, turned, {pub}, n, n') && Fresh(cells, rank, sub, n) && pub in cells
    requires forall c :: c in cells ==> Over(n, c)
    requires forall d, i :: d in turned && 0 <= i < |d.operands| ==> d in cells && d.operands[i] in cells
    requires if pub in turned then turned[pub] == sub
      else pub.isStatic || sub.isStatic || sub in n.sub[pub] || n.level[pub] < n.level[sub]
    ensures (forall c :: c in cells ==> Over(n', c)) <==> LateBelow(turned, n'.level)
  {
    Keys(cells, rank, sub, turned, {pub}, n, n');
    hide Cascade, Fresh, LateBelow, Over;
    if LateBelow(turned, n'.level) {
      forall c | c in cells ensures Over(n', c) {
        OrderIfLateBelow(cells, rank, pub, sub, turned, n, n', c);
      }
    }
    if forall c :: c in cells ==> Over(n', c) {
      OrderNeedsLateBelow(cells, rank, sub, turned, {pub}, n, n');
    }
  }

  lemma NewSubscriber(cells: set<Cell>, rank: Numbering, root: Cell, turned: map<Cell, Cell>, asked: set<Cell>,
                      was: map<Cell, set<Cell>>, now: map<Cell, set<Cell>>, d: Cell, i: nat)
    requires cells <= rank.Keys && root in cells && was.Keys == now.Keys == cells
    requires Subscribed(cells, rank, root, turned, asked, was, now)
    requires d in turned && i < |d.operands| && d.operands[i] in cells && !d.operands[i].isStatic
    ensures d in now[d.operands[i]]
  {
    assert d.operands[i] in d.operands;
    assert d in NewSubs(d.operands[i], root, asked, turned);
  }

  /** Without a late operand, and with `pub` on, its level decides. */
  lemma OrderIfOn(cells: set<Cell>, rank: Numbering, pub: Cell, sub: Cell, n: Net, n': Net)
    requires Cascade(cells, rank, sub, map[], {pub}, n, n') && Fresh(cells, rank, sub, n) && pub in cells
    requires forall c :: c in cells ==> Over(n, c)
    ensures (forall c :: c in cells ==> Over(n', c)) <==>
      pub.isStatic || sub.isStatic || sub in n.sub[pub] || n.level[pub] < n.level[sub]
  {
    if pub.isStatic || sub.isStatic || sub in n.sub[pub] || n.level[pub] < n.level[sub] {
      OrderIffLateBelow(cells, rank, pub, sub, map[], n, n');
    } else {
      hide AllRisen, Turns, Fresh, Shaped;
      assert n'.sub[pub] == n.sub[pub] + NewSubs(pub, sub, {pub}, map[]);
      assert sub in n'.sub[pub] && Lifted(sub, map[], n.level, n'.level);
      assert !Over(n', pub);
    }
  }

  /** `sub` subscribes to `pub`, and every subscriber was above its publisher. Afterwards this is so exactly when the
      levels allow it. */
  lemma OrderSurvives(cells: set<Cell>, rank: Numbering, pub: Cell, sub: Cell, n: Net, n': Net)
    requires Shaped(cells, rank, n) && Fresh(cells, rank, sub, n) && pub in cells && sub in cells
    requires rank[pub] < rank[sub]
    requires Cascade(cells, rank, sub, TurnedOn(cells, rank, pub, sub, n.on), {pub}, n, n')
    requires forall c :: c in cells ==> Over(n, c)
    ensures (forall c :: c in cells ==> Over(n', c)) <==> Fits(cells, rank, pub, sub, n)
  {
    var turned := TurnedOn(cells, rank, pub, sub, n.on);
    if pub in n.on {
      OrderIfOn(cells, rank, pub, sub, n, n');
    } else {
      TurnedOnBelow(cells, rank, pub, sub, n);
      assert n'.level.Keys == cells && AllLifted(cells, rank, sub, turned, n.level, n'.level);
      hide Cascade, Fresh, Over, AllLifted, Closed, Asked, Fits, LateBelow;
      forall x | x in cells && rank[x] < rank[sub] ensures n'.level[x] == LevelFor(cells, rank, x, turned, n.level) {
        LevelsAre(cells, rank, sub, turned, n.level, n'.level, x);
      }
      OrderIffLateBelow(cells, rank, pub, sub, turned, n, n');
      FitsIffLateBelow(cells, rank, pub, sub, n, n'.level);
    }
  }

  lemma FitsIffLateBelow(cells: set<Cell>, rank: Numbering, pub: Cell, sub: Cell, n: Net, now: Numbering)
    requires Shaped(cells, rank, n) && pub in cells && sub in cells && rank[pub] < rank[sub] && pub !in n.on
    requires now.Keys == cells
    requires forall x :: x in cells && rank[x] < rank[sub] ==>
      now[x] == LevelFor(cells, rank, x, TurnedOn(cells, rank, pub, sub, n.on), n.level)
    ensures Fits(cells, rank, pub, sub, n) <==> LateBelow(TurnedOn(cells, rank, pub, sub, n.on), now)
  {
    hide Late, LevelFor, Asked, Closed;
  }

  /** As long as the levels of the cells that are off are up to date, subscribing to them keeps the order. */
  lemma UpToDateFits(cells: set<Cell>, rank: Numbering, pub: Cell, sub: Cell, n: Net)
    requires Shaped(cells, rank, n) && pub in cells && sub in cells && rank[pub] < rank[sub] && pub !in n.on
    requires forall d, i :: d in cells && d !in n.on && 0 <= i < |d.operands| && !d.operands[i].isStatic ==>
      n.level[d.operands[i]] < n.level[d]
    ensures Fits(cells, rank, pub, sub, n)
  {
    var turned := TurnedOn(cells, rank, pub, sub, n.on);
    hide Closed;
    forall d, i | d in turned && 0 <= i < |d.operands| && Late(d.operands[i], d, turned)
      ensures LevelFor(cells, rank, d.operands[i], turned, n.level) < LevelFor(cells, rank, d, turned, n.level)
    {
      UpToDateStays(cells, rank, sub, turned, n, d);
      UpToDateStays(cells, rank, sub, turned, n, d.operands[i]);
    }
  }

  lemma {:induction false} UpToDateStays(cells: set<Cell>, rank: Numbering, root: Cell, turned: map<Cell, Cell>, n: Net,
                                         x: Cell)
    requires Shaped(cells, rank, n) && x in cells && turned.Keys <= cells && turned.Keys !! n.on
    requires forall d, i :: d in cells && d !in n.on && 0 <= i < |d.operands| && !d.operands[i].isStatic ==>
      n.level[d.operands[i]] < n.level[d]
    requires root in cells && rank[x] < rank[root] && Asked(turned, root)
    ensures LevelFor(cells, rank, x, turned, n.level) == n.level[x]
    decreases rank[x]
  {
    forall k | 0 <= k < |x.operands| && x.operands[k] in turned && turned[x.operands[k]] == x
      ensures LevelFor(cells, rank, x.operands[k], turned, n.level) < n.level[x]
    {
      UpToDateStays(cells, rank, root, turned, n, x.operands[k]);
    }
  }

  // -------------------------------------------------------------------------------------------
  // Values
  // -------------------------------------------------------------------------------------------

  ghost function ValuesIn(cells: set<Cell>): (at: map<Cell, Value>)
    reads cells`value
    ensures at.Keys == cells && forall c :: c in cells ==> at[c] == c.value
  {
    map c | c in cells :: c.value
  }

  /** The value of a cell is its evaluation over the values of its operands. */
  ghost predicate Agrees(x: Cell, at: map<Cell, Value>) {
    x in at && (forall i :: 0 <= i < |x.operands| ==> x.operands[i] in at) && at[x] == EvalIn(x, at)
  }

  ghost function EvalIn(x: Cell, at: map<Cell, Value>): Value
    requires forall i :: 0 <= i < |x.operands| ==> x.operands[i] in at
  {
    x.eval(seq(|x.operands|, i requires 0 <= i < |x.operands| => at[x.operands[i]]))
  }

  lemma EvalIs(cells: set<Cell>, rank: Numbering, x: Cell)
    requires Ranked(cells, rank) && x in cells
    ensures x.Eval() == EvalIn(x, ValuesIn(cells)) && forall i :: 0 <= i < |x.operands| ==> x.operands[i] != x
  {
    var at := ValuesIn(cells);
    assert forall i :: 0 <= i < |x.operands| ==> rank[x.operands[i]] < rank[x];
    assert x.OperandValues() == seq(|x.operands|, i requires 0 <= i < |x.operands| => at[x.operands[i]]);
  }

  /** The cells that were turned on have been evaluated on the values that their operands have now; no other value has
      changed. */
  ghost predicate Valued(cells: set<Cell>, turned: map<Cell, Cell>, was: map<Cell, Value>, now: map<Cell, Value>) {
    && was.Keys == now.Keys == cells && turned.Keys <= cells
    && (forall x :: x in cells && x !in turned ==> now[x] == was[x])
    && (forall x :: x in turned ==> Agrees(x, now))
  }

  lemma NothingValued(cells: set<Cell>, at: map<Cell, Value>)
    requires at.Keys == cells
    ensures Valued(cells, map[], at, at)
  {
  }

  /** A cell agrees as long as its value and those of its operands stay. */
  lemma StillAgrees(x: Cell, was: map<Cell, Value>, now: map<Cell, Value>)
    requires Agrees(x, was) && was.Keys == now.Keys && now[x] == was[x]
    requires forall i :: 0 <= i < |x.operands| ==> now[x.operands[i]] == was[x.operands[i]]
    ensures Agrees(x, now)
  {
    SameEval(x, was, now);
  }

  lemma SameEval(x: Cell, was: map<Cell, Value>, now: map<Cell, Value>)
    requires forall i :: 0 <= i < |x.operands| ==> x.operands[i] in was && x.operands[i] in now
    requires forall i :: 0 <= i < |x.operands| ==> now[x.operands[i]] == was[x.operands[i]]
    ensures EvalIn(x, now) == EvalIn(x, was)
  {
    assert seq(|x.operands|, i requires 0 <= i < |x.operands| => now[x.operands[i]])
      == seq(|x.operands|, i requires 0 <= i < |x.operands| => was[x.operands[i]]);
  }

  lemma ValuedTwice(cells: set<Cell>, on: set<Cell>, a: map<Cell, Cell>, b: map<Cell, Cell>,
                    v0: map<Cell, Value>, v1: map<Cell, Value>, v2: map<Cell, Value>)
    requires Valued(cells, a, v0, v1) && Valued(cells, b, v1, v2) && Closed(a, on) && b.Keys !! on + a.Keys
    ensures Valued(cells, a + b, v0, v2)
  {
    hide Agrees;
    forall x | x in a + b ensures Agrees(x, v2) {
      if x in a {
        OperandsIn(x, v1);
        StillAgrees(x, v1, v2);
      }
    }
  }

  lemma OperandsIn(x: Cell, at: map<Cell, Value>)
    requires Agrees(x, at)
    ensures x in at && forall i :: 0 <= i < |x.operands| ==> x.operands[i] in at
  {
  }

  /** `pub` has been evaluated last. */
  ghost predicate Last(cells: set<Cell>, pub: Cell, was: map<Cell, Value>, now: map<Cell, Value>) {
    now.Keys == cells && Agrees(pub, now) && now == was[pub := now[pub]]
  }

  lemma ValuedLast(cells: set<Cell>, rank: Numbering, pub: Cell, sub: Cell, turned: map<Cell, Cell>,
                   v0: map<Cell, Value>, v1: map<Cell, Value>, v2: map<Cell, Value>)
    requires Ranked(cells, rank) && pub in cells && Valued(cells, turned, v0, v1)
    requires forall x :: x in turned ==> rank[x] < rank[pub]
    requires Last(cells, pub, v1, v2)
    ensures Valued(cells, turned[pub := sub], v0, v2)
  {
    hide Agrees;
    forall x | x in turned ensures Agrees(x, v2) {
      OperandsIn(x, v1);
      assert forall i :: 0 <= i < |x.operands| ==> rank[x.operands[i]] < rank[x];
      StillAgrees(x, v1, v2);
    }
  }

  // -------------------------------------------------------------------------------------------
  // Subscribing
  // -------------------------------------------------------------------------------------------

  /** Enter `sub` among the subscribers of `pub`. */
  method Subscribe(pub: Cell, sub: Cell, ghost cells: set<Cell>)
    requires pub in cells
    modifies pub`sub
    ensures NetOf(cells) == With(old(NetOf(cells)), pub, sub)
  {
    ghost var n := NetOf(cells);
    if sub !in pub.sub {
      pub.sub := pub.sub + [sub];
    }
    assert (set s | s in pub.sub) == n.sub[pub] + {sub};
    assert SubsOf(cells) == With(n, pub, sub).sub;
  }

  /** Put `sub` above `pub`, if it is a cell and not there. */
  method Lift(pub: Cell, sub: Cell, ghost cells: set<Cell>, ghost rank: Numbering)
    requires Ranked(cells, rank) && Acyclic(cells, rank) && pub in cells && sub in cells
    modifies cells`level
    ensures PutAbove(cells, rank, pub, sub, SubsOf(cells), old(LevelsOf(cells)), LevelsOf(cells))
  {
    assert cells <= rank.Keys;
    hide *;
    ghost var before := LevelsOf(cells);
    if !sub.isStatic && sub.level <= pub.level {
      sub.level := pub.level + 1;
      ghost var was := LevelsOf(cells);
      assert was == before[sub := before[pub] + 1];
      Level(sub, cells, rank);
      RaisedIsRepaired(cells, rank, sub, was);
    }
    PutAboveIs(cells, rank, pub, sub, SubsOf(cells), before, LevelsOf(cells));
  }

  lemma PutAboveIs(cells: set<Cell>, rank: Numbering, pub: Cell, sub: Cell, subs: map<Cell, set<Cell>>,
                   was: Numbering, now: Numbering)
    requires cells <= rank.Keys && pub in cells && sub in cells && was.Keys == cells
    requires if sub.isStatic || was[pub] < was[sub] then now == was
      else Repaired(cells, rank, sub, subs, was[sub := was[pub] + 1], now)
    ensures PutAbove(cells, rank, pub, sub, subs, was, now)
  {
  }

  /** Subscribe `sub` to `pub` (nbAxonEnable). A cell that is on already makes the call return before levels are
      compared. A cell that is off is turned on by its own enable method and evaluated, and then `sub` is put above it.
      So a network with every subscriber above its publisher stays like that exactly when the levels allow the
      subscription. */
  method Enable(pub: Cell, sub: Cell, ghost cells: set<Cell>, ghost rank: Numbering)
    requires Shaped(cells, rank, NetOf(cells)) && pub in cells && sub in cells && rank[pub] < rank[sub]
    requires Fresh(cells, rank, sub, NetOf(cells))
    modifies cells`sub, cells`level, cells`enabled, cells`value
    ensures Shaped(cells, rank, NetOf(cells))
    ensures Cascade(cells, rank, sub, TurnedOn(cells, rank, pub, sub, old(NetOf(cells)).on), {pub},
                    old(NetOf(cells)), NetOf(cells))
    ensures Valued(cells, TurnedOn(cells, rank, pub, sub, old(NetOf(cells)).on), old(ValuesIn(cells)), ValuesIn(cells))
    ensures old(Ordered(cells, {})) ==> (Ordered(cells, {}) <==> old(Fits(cells, rank, pub, sub, NetOf(cells))))
    decreases rank[pub], 2
  {
    hide *;
    ghost var n := NetOf(cells);
    WithIsShaped(cells, rank, pub, sub, n);
    if pub in n.on {
      OneSubscriber(cells, rank, pub, sub, n);
    }
    NothingValued(cells, ValuesIn(cells));
    OnIs(cells, pub);
    OrderedIs(cells);
    if !pub.isStatic {
      Subscribe(pub, sub, cells);
      if !pub.enabled {
        TurnOn(pub, sub, cells, rank, n);
      }
    }
    OrderedIs(cells);
    if forall c :: c in cells ==> Over(n, c) {
      OrderSurvives(cells, rank, pub, sub, n, NetOf(cells));
    }
  }

  lemma OnIs(cells: set<Cell>, c: Cell)
    requires c in cells
    ensures c in NetOf(cells).on <==> c.enabled || c.isStatic
  {
  }

  lemma OrderedIs(cells: set<Cell>)
    ensures NetOf(cells).sub.Keys == NetOf(cells).level.Keys == cells
    ensures Ordered(cells, {}) <==> forall c :: c in cells ==> Over(NetOf(cells), c)
  {
    var n := NetOf(cells);
    forall c | c in cells ensures Above(c, n.level) <==> Over(n, c) {
      if Over(n, c) {
        forall i | 0 <= i < |c.sub|
          ensures c.sub[i] in n.level && (c.sub[i].isStatic || n.level[c] < n.level[c.sub[i]])
        {
          assert c.sub[i] in n.sub[c];
        }
      }
    }
  }

  /** Turn `pub` on, which has got its first subscriber. */
  method TurnOn(pub: Cell, sub: Cell, ghost cells: set<Cell>, ghost rank: Numbering, ghost n: Net)
    requires Ranked(cells, rank) && Shaped(cells, rank, n) && Fresh(cells, rank, sub, n)
    requires pub in cells && sub in cells && rank[pub] < rank[sub] && pub !in n.on && NetOf(cells) == With(n, pub, sub)
    requires Shaped(cells, rank, NetOf(cells)) && Fresh(cells, rank, pub, NetOf(cells))
    modifies cells`sub, cells`level, cells`enabled, cells`value
    ensures Shaped(cells, rank, NetOf(cells))
    ensures Cascade(cells, rank, sub, TurnedOn(cells, rank, pub, sub, n.on), {pub}, n, NetOf(cells))
    ensures Valued(cells, TurnedOn(cells, rank, pub, sub, n.on), old(ValuesIn(cells)), ValuesIn(cells))
    decreases rank[pub], 1
  {
    assert With(n, pub, sub).on == n.on;
    hide *;
    ghost var v := ValuesIn(cells);
    EnableOperands(pub, cells, rank);
    ghost var n2, v2 := NetOf(cells), ValuesIn(cells);
    ComeOn(pub, sub, cells, rank);
    TurningDone(cells, rank, pub, sub, n, n2, NetOf(cells), v, v2, ValuesIn(cells));
  }

  lemma TurningDone(cells: set<Cell>, rank: Numbering, pub: Cell, sub: Cell, n: Net, n2: Net, n3: Net,
                    v: map<Cell, Value>, v2: map<Cell, Value>, v3: map<Cell, Value>)
    requires Ranked(cells, rank) && Shaped(cells, rank, n) && Fresh(cells, rank, sub, n)
    requires pub in cells && sub in cells && rank[pub] < rank[sub] && pub !in n.on
    requires Cascade(cells, rank, pub, OperandsTurnedOn(cells, rank, pub, |pub.operands|, n.on),
                     AskedFor(pub, |pub.operands|), With(n, pub, sub), n2)
    requires Valued(cells, OperandsTurnedOn(cells, rank, pub, |pub.operands|, n.on), v, v2)
    requires CameOn(cells, rank, pub, sub, n2, n3) && Last(cells, pub, v2, v3)
    ensures Shaped(cells, rank, n3)
    ensures Cascade(cells, rank, sub, TurnedOn(cells, rank, pub, sub, n.on), {pub}, n, n3)
    ensures Valued(cells, TurnedOn(cells, rank, pub, sub, n.on), v, v3)
  {
    hide *;
    TurnedOnIs(cells, rank, pub, sub, n.on);
    ValuedLast(cells, rank, pub, sub, OperandsTurnedOn(cells, rank, pub, |pub.operands|, n.on), v, v2, v3);
    TurningIs(cells, rank, pub, sub, OperandsTurnedOn(cells, rank, pub, |pub.operands|, n.on), n, n2, n3);
  }

  /** `pub` has its operands, and is on from here; `sub` is put above it. */
  method ComeOn(pub: Cell, sub: Cell, ghost cells: set<Cell>, ghost rank: Numbering)
    requires Ranked(cells, rank) && Shaped(cells, rank, NetOf(cells)) && pub in cells && sub in cells
    modifies pub`enabled, pub`value, cells`level
    ensures CameOn(cells, rank, pub, sub, old(NetOf(cells)), NetOf(cells))
    ensures Last(cells, pub, old(ValuesIn(cells)), ValuesIn(cells))
  {
    hide *;
    ghost var on, subs, at := OnOf(cells), SubsOf(cells), LevelsOf(cells);
    NetIsShaped(cells, rank);
    NetIs(cells);
    SetOn(pub, cells, rank);
    Lift(pub, sub, cells, rank);
    CameOnIs(cells, rank, pub, sub, on, subs, at, LevelsOf(cells));
    NetIs(cells);
  }

  /** Evaluate a cell that is off, which turns it on. */
  method SetOn(pub: Cell, ghost cells: set<Cell>, ghost rank: Numbering)
    requires Ranked(cells, rank) && pub in cells
    modifies pub`enabled, pub`value
    ensures OnOf(cells) == old(OnOf(cells)) + {pub}
    ensures Last(cells, pub, old(ValuesIn(cells)), ValuesIn(cells))
  {
    ghost var was := ValuesIn(cells);
    EvalIs(cells, rank, pub);
    pub.value := pub.Eval();
    pub.enabled := true;
    SameEval(pub, was, ValuesIn(cells));
  }

  lemma NetIs(cells: set<Cell>)
    ensures NetOf(cells) == Net(OnOf(cells), SubsOf(cells), LevelsOf(cells))
  {
  }

  lemma CameOnIs(cells: set<Cell>, rank: Numbering, pub: Cell, sub: Cell, on: set<Cell>, subs: map<Cell, set<Cell>>,
                 was: Numbering, now: Numbering)
    requires Ranked(cells, rank) && pub in cells && sub in cells && was.Keys == cells
    requires PutAbove(cells, rank, pub, sub, subs, was, now)
    ensures CameOn(cells, rank, pub, sub, Net(on, subs, was), Net(on + {pub}, subs, now))
  {
  }

  lemma TurnedOnIs(cells: set<Cell>, rank: Numbering, c: Cell, asker: Cell, on: set<Cell>)
    requires Ranked(cells, rank) && c in cells && c !in on
    ensures TurnedOn(cells, rank, c, asker, on) == OperandsTurnedOn(cells, rank, c, |c.operands|, on)[c := asker]
  {
  }

  lemma WithIsShaped(cells: set<Cell>, rank: Numbering, pub: Cell, sub: Cell, n: Net)
    requires Shaped(cells, rank, n) && Fresh(cells, rank, sub, n) && pub in cells && sub in cells
    requires rank[pub] < rank[sub]
    ensures Shaped(cells, rank, With(n, pub, sub)) && Fresh(cells, rank, pub, With(n, pub, sub))
    ensures Ranked(cells, rank) && (pub.isStatic ==> pub in n.on)
  {
  }

  /** A subscription to a cell that is on, or static, changes nothing else. */
  lemma OneSubscriber(cells: set<Cell>, rank: Numbering, pub: Cell, sub: Cell, n: Net)
    requires Shaped(cells, rank, n) && pub in cells && sub in cells && rank[pub] < rank[sub] && pub in n.on
    ensures TurnedOn(cells, rank, pub, sub, n.on) == map[]
    ensures Cascade(cells, rank, sub, map[], {pub}, n, if pub.isStatic then n else With(n, pub, sub))
  {
    var n' := if pub.isStatic then n else With(n, pub, sub);
    OneSubscribes(cells, rank, pub, sub, n);
    hide Shaped, AllRisen, Subscribed;
    NothingRises(cells, rank, sub, n, n');
  }

  lemma OneSubscribes(cells: set<Cell>, rank: Numbering, pub: Cell, sub: Cell, n: Net)
    requires Shaped(cells, rank, n) && pub in cells && sub in cells && rank[pub] < rank[sub]
    ensures var n' := if pub.isStatic then n else With(n, pub, sub);
      && Shaped(cells, rank, n') && n'.sub.Keys == n'.level.Keys == n.sub.Keys == n.level.Keys == cells <= rank.Keys
      && Subscribed(cells, rank, sub, map[], {pub}, n.sub, n'.sub)
      && forall c :: c in cells && rank[sub] <= rank[c] ==> n'.sub[c] == n.sub[c]
  {
  }

  lemma NothingRises(cells: set<Cell>, rank: Numbering, root: Cell, n: Net, n': Net)
    requires n.sub.Keys == n.level.Keys == n'.sub.Keys == n'.level.Keys == cells <= rank.Keys && root in cells
    requires n'.level == n.level && forall c :: c in cells && rank[root] <= rank[c] ==> n'.sub[c] == n.sub[c]
    ensures AllRisen(cells, rank, root, n, n')
  {
  }

  /** Subscribe a cell to its operands (enablePrefix, enableInfix and their like). */
  method EnableOperands(pub: Cell, ghost cells: set<Cell>, ghost rank: Numbering)
    requires Ranked(cells, rank) && pub in cells
    requires Shaped(cells, rank, NetOf(cells)) && Fresh(cells, rank, pub, NetOf(cells))
    modifies cells`sub, cells`level, cells`enabled, cells`value
    ensures Shaped(cells, rank, NetOf(cells))
    ensures Cascade(cells, rank, pub, OperandsTurnedOn(cells, rank, pub, |pub.operands|, old(NetOf(cells)).on),
                    AskedFor(pub, |pub.operands|), old(NetOf(cells)), NetOf(cells))
    ensures Valued(cells, OperandsTurnedOn(cells, rank, pub, |pub.operands|, old(NetOf(cells)).on),
                   old(ValuesIn(cells)), ValuesIn(cells))
    decreases rank[pub], 0
  {
    hide *;
    ghost var n, v := NetOf(cells), ValuesIn(cells);
    NothingAsked(cells, rank, pub, n);
    NothingValued(cells, v);
    NoOperandYet(cells, rank, pub, n.on);
    for i := 0 to |pub.operands|
      invariant Shaped(cells, rank, NetOf(cells)) && Fresh(cells, rank, pub, NetOf(cells))
      invariant Cascade(cells, rank, pub, OperandsTurnedOn(cells, rank, pub, i, n.on), AskedFor(pub, i),
                        n, NetOf(cells))
      invariant Valued(cells, OperandsTurnedOn(cells, rank, pub, i, n.on), v, ValuesIn(cells))
    {
      ghost var n1, v1 := NetOf(cells), ValuesIn(cells);
      OneOperandMore(cells, rank, pub, i, n.on);
      Enable(pub.operands[i], pub, cells, rank);
      NextOperand(cells, rank, pub, i, n, n1, NetOf(cells));
      OnAfter(cells, rank, pub, OperandsTurnedOn(cells, rank, pub, i, n.on), AskedFor(pub, i), n, n1);
      ValuedTwice(cells, n.on, OperandsTurnedOn(cells, rank, pub, i, n.on),
        TurnedOn(cells, rank, pub.operands[i], pub, n1.on), v, v1, ValuesIn(cells));
      OnAfter(cells, rank, pub, TurnedOn(cells, rank, pub.operands[i], pub, n1.on), {pub.operands[i]}, n1,
        NetOf(cells));
      StaysFresh(cells, rank, pub, TurnedOn(cells, rank, pub.operands[i], pub, n1.on), {pub.operands[i]}, n1,
        NetOf(cells));
    }
  }

  lemma NextOperand(cells: set<Cell>, rank: Numbering, pub: Cell, i: nat, n: Net, n1: Net, n2: Net)
    requires Ranked(cells, rank) && pub in cells && i < |pub.operands|
    requires Cascade(cells, rank, pub, OperandsTurnedOn(cells, rank, pub, i, n.on), AskedFor(pub, i), n, n1)
    requires Cascade(cells, rank, pub, TurnedOn(cells, rank, pub.operands[i], pub, n1.on), {pub.operands[i]}, n1, n2)
    ensures Cascade(cells, rank, pub, OperandsTurnedOn(cells, rank, pub, i + 1, n.on), AskedFor(pub, i + 1), n, n2)
  {
    hide *;
    var a := OperandsTurnedOn(cells, rank, pub, i, n.on);
    OnAfter(cells, rank, pub, a, AskedFor(pub, i), n, n1);
    OneOperandMore(cells, rank, pub, i, n.on);
    CascadeTwice(cells, rank, pub, a, TurnedOn(cells, rank, pub.operands[i], pub, n1.on), AskedFor(pub, i),
      {pub.operands[i]}, n, n1, n2);
  }

  lemma OnAfter(cells: set<Cell>, rank: Numbering, root: Cell, turned: map<Cell, Cell>, asked: set<Cell>, n: Net,
                n': Net)
    requires Cascade(cells, rank, root, turned, asked, n, n')
    ensures n'.on == n.on + turned.Keys
  {
  }

  lemma NoOperandYet(cells: set<Cell>, rank: Numbering, c: Cell, on: set<Cell>)
    requires Ranked(cells, rank) && c in cells
    ensures AskedFor(c, 0) == {} && OperandsTurnedOn(cells, rank, c, 0, on) == map[]
  {
  }

  lemma OneOperandMore(cells: set<Cell>, rank: Numbering, c: Cell, i: nat, on: set<Cell>)
    requires Ranked(cells, rank) && c in cells && i < |c.operands|
    ensures AskedFor(c, i + 1) == AskedFor(c, i) + {c.operands[i]}
    ensures c.operands[i] in cells && c in rank && c.operands[i] in rank && rank[c.operands[i]] < rank[c]
    ensures var turned := OperandsTurnedOn(cells, rank, c, i, on);
      OperandsTurnedOn(cells, rank, c, i + 1, on) == turned + TurnedOn(cells, rank, c.operands[i], c, on + turned.Keys)
  {
  }

  // -------------------------------------------------------------------------------------------
  // Subscription and reaction
  // -------------------------------------------------------------------------------------------

  /** The subscriptions are those of cells that are on to their operands, and of static objects. */
  ghost predicate ToOperands(on: set<Cell>, sub: map<Cell, set<Cell>>)
    requires on <= sub.Keys
  {
    forall c, s :: c in on && s in sub[c] ==> s in on && !c.isStatic && (s.isStatic || c in s.operands)
  }

  /** Every cell that is on is subscribed to its operands. */
  ghost predicate ToAllOperands(on: set<Cell>, sub: map<Cell, set<Cell>>)
    requires on <= sub.Keys
  {
    forall c, i :: c in on && c.Computed() && 0 <= i < |c.operands| ==>
      c.operands[i] in on && (c.operands[i].isStatic || c in sub[c.operands[i]])
  }

  /** The cells that are on subscribe to their operands, and to nothing else. */
  ghost predicate Linked(n: Net)
    requires n.on <= n.sub.Keys
  {
    ToOperands(n.on, n.sub) && ToAllOperands(n.on, n.sub)
  }

  /** Every computed cell that is on agrees with its operands. */
  ghost predicate AllAgree(on: set<Cell>, at: map<Cell, Value>) {
    forall c :: c in on && c.Computed() ==> Agrees(c, at)
  }

  lemma LinkedIs(reactor: Reactor, cells: set<Cell>)
    requires reactor.cells == OnOf(cells)
    ensures NetOf(cells).on <= NetOf(cells).sub.Keys && (reactor.Links() <==> Linked(NetOf(cells)))
  {
    if Linked(NetOf(cells)) {
      LinksIfLinked(reactor, cells);
    }
    if reactor.Links() {
      LinkedIfLinks(reactor, cells);
    }
  }

  lemma LinksIfLinked(reactor: Reactor, cells: set<Cell>)
    requires reactor.cells == OnOf(cells) && Linked(NetOf(cells))
    ensures reactor.Links()
  {
    var n := NetOf(cells);
    forall c, i | c in n.on && 0 <= i < |c.sub|
      ensures c.sub[i] in n.on && !c.isStatic && (c.sub[i].isStatic || c in c.sub[i].operands)
    {
      assert c.sub[i] in n.sub[c];
    }
    forall c, i | c in n.on && c.Computed() && 0 <= i < |c.operands|
      ensures c.operands[i] in n.on && (c.operands[i].isStatic || c in c.operands[i].sub)
    {
      assert c.operands[i].isStatic || c in n.sub[c.operands[i]];
    }
  }

  lemma LinkedIfLinks(reactor: Reactor, cells: set<Cell>)
    requires reactor.cells == OnOf(cells) && reactor.Links()
    ensures Linked(NetOf(cells))
  {
    var n := NetOf(cells);
    forall c, s | c in n.on && s in n.sub[c] ensures s in n.on && !c.isStatic && (s.isStatic || c in s.operands) {
      var i :| 0 <= i < |c.sub| && c.sub[i] == s;
    }
    forall c, i | c in n.on && c.Computed() && 0 <= i < |c.operands|
      ensures c.operands[i] in n.on && (c.operands[i].isStatic || c in n.sub[c.operands[i]])
    {
      assert c.operands[i].isStatic || c in c.operands[i].sub;
    }
  }

  lemma AllAgreeIs(reactor: Reactor, cells: set<Cell>, rank: Numbering)
    requires reactor.cells == OnOf(cells) && Ranked(cells, rank) && reactor.Links()
    ensures AllAgree(OnOf(cells), ValuesIn(cells)) <==> forall c :: c in reactor.cells && c.Computed() ==>
      c.value == c.Eval()
  {
    var at := ValuesIn(cells);
    forall c | c in OnOf(cells) && c.Computed() ensures Agrees(c, at) <==> c.value == c.Eval() {
      EvalIs(cells, rank, c);
    }
  }

  /** Of the cells that are off, none has a subscriber. */
  ghost predicate OffIsBare(n: Net) {
    forall c :: c in n.sub && c !in n.on ==> n.sub[c] == {}
  }

  /** A subscription that was there, or is new, is one of a cell to its operand, or of `root`. */
  lemma LinksStay(c: Cell, root: Cell, turned: map<Cell, Cell>, asked: set<Cell>, on: set<Cell>, on': set<Cell>,
                  was: set<Cell>, now: set<Cell>)
    requires on' == on + turned.Keys && now == was + NewSubs(c, root, asked, turned)
    requires root.isStatic && root in on && asked <= on' && Closed(turned, on)
    requires forall s :: s in was ==> c in on && s in on && !c.isStatic && (s.isStatic || c in s.operands)
    ensures forall s :: s in now ==> c in on' && s in on' && !c.isStatic && (s.isStatic || c in s.operands)
    ensures c !in on' ==> now == {}
  {
    forall s | s in now ensures c in on' && s in on' && !c.isStatic && (s.isStatic || c in s.operands) {
      if s !in was {
        NewSubsAre(c, root, asked, turned, s);
      }
    }
  }

  lemma ToOperandsStays(root: Cell, turned: map<Cell, Cell>, asked: set<Cell>, on: set<Cell>, on': set<Cell>,
                        was: map<Cell, set<Cell>>, now: map<Cell, set<Cell>>)
    requires on' == on + turned.Keys && on <= was.Keys && on' <= now.Keys == was.Keys && ToOperands(on, was)
    requires forall c :: c in was && c !in on ==> was[c] == {}
    requires forall c :: c in was ==> now[c] == was[c] + NewSubs(c, root, asked, turned)
    requires root.isStatic && root in on && asked <= on' && Closed(turned, on)
    ensures ToOperands(on', now) && forall c :: c in now && c !in on' ==> now[c] == {}
  {
    hide Closed, NewSubs;
    forall c | c in now
      ensures forall s :: s in now[c] ==> c in on' && s in on' && !c.isStatic && (s.isStatic || c in s.operands)
      ensures c !in on' ==> now[c] == {}
    {
      LinksStay(c, root, turned, asked, on, on', was[c], now[c]);
    }
  }

  lemma ToAllOperandsStays(root: Cell, turned: map<Cell, Cell>, asked: set<Cell>, on: set<Cell>,
                           was: map<Cell, set<Cell>>, now: map<Cell, set<Cell>>)
    requires on <= was.Keys && on + turned.Keys <= now.Keys == was.Keys && ToAllOperands(on, was)
    requires forall c :: c in was ==> now[c] == was[c] + NewSubs(c, root, asked, turned)
    requires Closed(turned, on)
    ensures ToAllOperands(on + turned.Keys, now)
  {
    forall c, i | c in on + turned.Keys && c.Computed() && 0 <= i < |c.operands|
      ensures c.operands[i] in on + turned.Keys && (c.operands[i].isStatic || c in now[c.operands[i]])
    {
      assert c.operands[i] in c.operands;
      assert c in turned && !c.operands[i].isStatic ==> c in NewSubs(c.operands[i], root, asked, turned);
    }
  }

  /** The cascade of a static object leaves the cells that are on linked to their operands. */
  lemma StaysLinked(cells: set<Cell>, rank: Numbering, root: Cell, turned: map<Cell, Cell>, asked: set<Cell>, n: Net,
                    n': Net)
    requires Cascade(cells, rank, root, turned, asked, n, n') && Linked(n) && OffIsBare(n)
    requires root.isStatic && root in n.on && asked <= n'.on && Closed(turned, n.on)
    ensures n'.on <= n'.sub.Keys && Linked(n') && OffIsBare(n')
  {
    OnAfter(cells, rank, root, turned, asked, n, n');
    SubsAfter(cells, rank, root, turned, asked, n, n');
    hide Closed, NewSubs, Cascade, ToOperands, ToAllOperands;
    ToOperandsStays(root, turned, asked, n.on, n'.on, n.sub, n'.sub);
    ToAllOperandsStays(root, turned, asked, n.on, n.sub, n'.sub);
  }

  lemma SubsAfter(cells: set<Cell>, rank: Numbering, root: Cell, turned: map<Cell, Cell>, asked: set<Cell>, n: Net,
                  n': Net)
    requires Cascade(cells, rank, root, turned, asked, n, n')
    ensures n.on <= cells && n'.on <= cells && n.sub.Keys == n'.sub.Keys == cells
    ensures forall c :: c in cells ==> n'.sub[c] == n.sub[c] + NewSubs(c, root, asked, turned)
  {
    hide Turns, AllLifted, AllRisen, NewSubs, Ranked;
  }

  /** Evaluating the cells that come on leaves every cell that is on in agreement with its operands. */
  lemma StaysInAgreement(cells: set<Cell>, turned: map<Cell, Cell>, n: Net, was: map<Cell, Value>,
                         now: map<Cell, Value>)
    requires n.on <= n.sub.Keys && ToAllOperands(n.on, n.sub) && n.on !! turned.Keys && n.on <= cells
    requires AllAgree(n.on, was) && Valued(cells, turned, was, now)
    ensures AllAgree(n.on + turned.Keys, now)
  {
    hide Agrees;
    forall c | c in n.on && c.Computed() ensures Agrees(c, now) {
      OperandsIn(c, was);
      StillAgrees(c, was, now);
    }
  }

  /** Cells that are off have no subscribers, so the order is that of the cells that are on. */
  lemma GraphIs(reactor: Reactor, cells: set<Cell>)
    requires reactor.cells == OnOf(cells) && reactor.Links() && OffIsBare(NetOf(cells))
    ensures reactor.Graph() <==> Ordered(cells, {}) && forall c :: c in reactor.cells ==> c.level < MAX_LEVEL
  {
    var n := NetOf(cells);
    forall c, i | c in cells && 0 <= i < |c.sub| ensures c in n.on && c.sub[i] in cells {
      assert c.sub[i] in n.sub[c];
    }
    if Ordered(cells, {}) {
      forall c | c in cells ensures Above(c, LevelsOf(cells)) {
      }
    }
  }

  /** Nothing is scheduled, and every cell that is on agrees with its operands. */
  lemma SettledIs(reactor: Reactor, cells: set<Cell>, rank: Numbering)
    requires reactor.cells == OnOf(cells) && Ranked(cells, rank)
    requires Linked(NetOf(cells)) && OffIsBare(NetOf(cells)) && AllAgree(OnOf(cells), ValuesIn(cells))
    requires reactor.evalVector.Length == MAX_LEVEL && reactor.top == 0
    requires (forall l :: 0 <= l < MAX_LEVEL ==> reactor.evalVector[l] == []) && forall c :: c in cells ==> !c.scheduled
    ensures reactor.Settled() <==> Ordered(cells, {}) && forall c :: c in reactor.cells ==> c.level < MAX_LEVEL
  {
    LinkedIs(reactor, cells);
    GraphIs(reactor, cells);
    AllAgreeIs(reactor, cells, rank);
    hide Linked, OffIsBare, AllAgree, Ranked, Ordered;
  }

  /** What a settled reactor says of the network. */
  lemma SettledHas(reactor: Reactor, cells: set<Cell>, rank: Numbering)
    requires reactor.cells == OnOf(cells) && Ranked(cells, rank) && reactor.Settled() && OffIsBare(NetOf(cells))
    ensures Linked(NetOf(cells)) && AllAgree(OnOf(cells), ValuesIn(cells)) && Ordered(cells, {})
  {
    LinkedIs(reactor, cells);
    GraphIs(reactor, cells);
    AllAgreeIs(reactor, cells, rank);
    hide Linked, OffIsBare, AllAgree, Ranked, Ordered;
  }

  lemma Attached(cells: set<Cell>, rank: Numbering, pub: Cell, sub: Cell, n: Net, n': Net,
                 was: map<Cell, Value>, now: map<Cell, Value>)
    requires Ranked(cells, rank) && pub in cells && sub.isStatic && sub in n.on && n.on <= n.sub.Keys
    requires Linked(n) && OffIsBare(n) && AllAgree(n.on, was)
    requires Cascade(cells, rank, sub, TurnedOn(cells, rank, pub, sub, n.on), {pub}, n, n')
    requires Valued(cells, TurnedOn(cells, rank, pub, sub, n.on), was, now)
    ensures n'.on <= n'.sub.Keys && Linked(n') && OffIsBare(n') && AllAgree(n'.on, now)
  {
    var turned := TurnedOn(cells, rank, pub, sub, n.on);
    OnAfter(cells, rank, sub, turned, {pub}, n, n');
    SubsAfter(cells, rank, sub, turned, {pub}, n, n');
    hide Cascade, TurnedOn, Closed, Ranked, OffIsBare, ToOperands, ToAllOperands, Valued, Asked, AllAgree;
    StaysLinked(cells, rank, sub, turned, {pub}, n, n');
    StaysInAgreement(cells, turned, n, was, now);
  }

  /** The network after such a subscription. */
  method EnableOutside(pub: Cell, sub: Cell, ghost cells: set<Cell>, ghost rank: Numbering)
    requires Shaped(cells, rank, NetOf(cells)) && pub in cells && sub in cells && rank[pub] < rank[sub] && sub.isStatic
    requires Fresh(cells, rank, sub, NetOf(cells)) && OffIsBare(NetOf(cells))
    requires Linked(NetOf(cells)) && AllAgree(OnOf(cells), ValuesIn(cells)) && Ordered(cells, {})
    modifies cells`sub, cells`level, cells`enabled, cells`value
    ensures Cascade(cells, rank, sub, TurnedOn(cells, rank, pub, sub, old(NetOf(cells)).on), {pub},
                    old(NetOf(cells)), NetOf(cells))
    ensures NetOf(cells).on <= NetOf(cells).sub.Keys && Linked(NetOf(cells)) && OffIsBare(NetOf(cells))
    ensures AllAgree(OnOf(cells), ValuesIn(cells))
    ensures Ordered(cells, {}) <==> old(Fits(cells, rank, pub, sub, NetOf(cells)))
  {
    hide *;
    StaticIsOn(cells, rank, sub, NetOf(cells));
    NetIs(cells);
    ghost var n, v := NetOf(cells), ValuesIn(cells);
    Enable(pub, sub, cells, rank);
    NetIs(cells);
    Attached(cells, rank, pub, sub, n, NetOf(cells), v, ValuesIn(cells));
  }

  lemma StaticIsOn(cells: set<Cell>, rank: Numbering, sub: Cell, n: Net)
    requires Shaped(cells, rank, n) && sub in cells && sub.isStatic
    ensures Ranked(cells, rank) && sub in n.on && n.on <= n.sub.Keys
  {
  }

  /** A static object, which is its own value, subscribes to `pub` while the cells that are on are settled. Then the
      cells that are on afterwards, with the lists as they were, are settled as well, exactly when the levels allow the
      subscription and stay below the limit: the next reaction starts from there. */
  method Attach(reactor: Reactor, pub: Cell, sub: Cell, ghost cells: set<Cell>, ghost rank: Numbering)
    returns (after: Reactor)
    requires Shaped(cells, rank, NetOf(cells)) && pub in cells && sub in cells && rank[pub] < rank[sub] && sub.isStatic
    requires Fresh(cells, rank, sub, NetOf(cells)) && OffIsBare(NetOf(cells))
    requires reactor.cells == OnOf(cells) && reactor.Settled() && forall c :: c in cells ==> !c.scheduled
    modifies cells`sub, cells`level, cells`enabled, cells`value
    ensures Cascade(cells, rank, sub, TurnedOn(cells, rank, pub, sub, old(NetOf(cells)).on), {pub},
                    old(NetOf(cells)), NetOf(cells))
    ensures after.cells == OnOf(cells)
    ensures after.Settled() <==>
      old(Fits(cells, rank, pub, sub, NetOf(cells))) && forall c :: c in after.cells ==> c.level < MAX_LEVEL
  {
    hide *;
    StaticIsOn(cells, rank, sub, NetOf(cells));
    SettledHas(reactor, cells, rank);
    EnableOutside(pub, sub, cells, rank);
    after := new Reactor(OnOf(cells));
    SettledIs(after, cells, rank);
  }

  // -------------------------------------------------------------------------------------------
  // A subscription that breaks the order
  // -------------------------------------------------------------------------------------------

  /** `x`, at level 1 and off, is computed from `o`, which is on and at level 5: the definition of `o` became deeper
      while `x` was off. The levels do not allow `s`, at level 2, to subscribe to `x`. */
  lemma StaleLevelDoesNotFit(o: Cell, x: Cell, s: Cell, n: Net)
    requires o != x && o != s && x != s && !o.isStatic && !x.isStatic && !s.isStatic
    requires o.operands == [] && x.operands == [o] && s.operands == [x]
    requires n == Net({o}, map[o := {}, x := {}, s := {}], map[o := 5, x := 1, s := 2])
    ensures var cells, rank := {o, x, s}, map[o := 0, x := 1, s := 2];
      && Shaped(cells, rank, n) && Fresh(cells, rank, s, n) && (forall c :: c in cells ==> Over(n, c))
      && !Fits(cells, rank, x, s, n)
  {
    var cells, rank := {o, x, s}, map[o := 0, x := 1, s := 2];
    assert Ranked(cells, rank);
    assert OperandsTurnedOn(cells, rank, x, 0, {o}) == map[] && TurnedOn(cells, rank, o, x, {o}) == map[];
    assert OperandsTurnedOn(cells, rank, x, 1, {o}) == map[];
    var turned := TurnedOn(cells, rank, x, s, {o});
    assert turned == map[x := s] && x in turned && Late(x.operands[0], x, turned);
    assert LevelFor(cells, rank, o, turned, n.level) == 5;
    assert LevelFor(cells, rank, x, turned, n.level) == LiftedOver(cells, rank, x, 0, turned, n.level) == 1;
  }

  lemma NetOfThree(o: Cell, x: Cell, s: Cell)
    requires o != x && o != s && x != s && !o.isStatic && !x.isStatic && !s.isStatic
    requires o.enabled && !x.enabled && !s.enabled && o.sub == [] && x.sub == [] && s.sub == []
    requires o.level == 5 && x.level == 1 && s.level == 2
    ensures NetOf({o, x, s}) == Net({o}, map[o := {}, x := {}, s := {}], map[o := 5, x := 1, s := 2])
  {
    assert OnOf({o, x, s}) == {o};
    assert forall c :: c in {o, x, s} ==> SubsOf({o, x, s})[c] == {};
    assert LevelsOf({o, x, s}) == map[o := 5, x := 1, s := 2];
  }

  method StaleCells(eval: seq<Value> -> Value) returns (o: Cell, x: Cell, s: Cell)
    ensures o != x && o != s && x != s && !o.isStatic && !x.isStatic && !s.isStatic && fresh({o, x, s})
    ensures o.operands == [] && x.operands == [o] && s.operands == [x]
    ensures o.enabled && !x.enabled && !s.enabled && o.sub == [] && x.sub == [] && s.sub == []
    ensures o.level == 5 && x.level == 1 && s.level == 2
  {
    o := new Cell(Unknown, 5, false, [], eval);
    x := new Cell(Unknown, 1, false, [o], eval);
    s := new Cell(Unknown, 2, false, [x], eval);
    o.enabled := true;
  }

  /** Subscribing to such a cell leaves a subscriber at the level of its publisher or below. */
  method StaleLevel(o: Cell, x: Cell, s: Cell)
    requires o != x && o != s && x != s && !o.isStatic && !x.isStatic && !s.isStatic
    requires o.operands == [] && x.operands == [o] && s.operands == [x]
    requires o.enabled && !x.enabled && !s.enabled && o.sub == [] && x.sub == [] && s.sub == []
    requires o.level == 5 && x.level == 1 && s.level == 2
    modifies {o, x, s}
    ensures old(Ordered({o, x, s}, {})) && !Ordered({o, x, s}, {})
  {
    hide *;
    NetOfThree(o, x, s);
    StaleLevelDoesNotFit(o, x, s, NetOf({o, x, s}));
    OrderedIs({o, x, s});
    Enable(x, s, {o, x, s}, map[o := 0, x := 1, s := 2]);
  }
}
