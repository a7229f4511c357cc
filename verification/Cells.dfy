/** Reactive evaluation (lib/nbcell.c). A cell subscribes to its operands; a changed cell alerts its
    subscribers, which are scheduled by level and re-evaluated level by level. */
module Cells {
  import opened Values

  const MAX_LEVEL := 100

  function ValuesOf(cells: seq<Cell>): (vs: seq<Value>)
    reads cells
    ensures |vs| == |cells| && forall i :: 0 <= i < |cells| ==> vs[i] == cells[i].value
  {
    if cells == [] then [] else [cells[0].value] + ValuesOf(cells[1..])
  }

  class Cell {
    var value: Value
    var level: nat
    var scheduled: bool
    /** The value is not nb_Disabled: the cell subscribes to its operands, and is evaluated. */
    var enabled: bool
    /** The subscribers, in the order the subscription tree is iterated. */
    var sub: seq<Cell>
    /** A static object: it is its own value and never publishes. */
    const isStatic: bool
    const operands: seq<Cell>
    /** The eval method of the cell's type, applied to the operands' values. */
    const eval: seq<Value> -> Value

    constructor (value: Value, level: nat, isStatic: bool, operands: seq<Cell>, eval: seq<Value> -> Value)
      ensures this.value == value && this.level == level && !scheduled && !enabled && sub == []
      ensures this.isStatic == isStatic && this.operands == operands && this.eval == eval
    {
      this.value, this.level, scheduled, enabled, sub := value, level, false, false, [];
      this.isStatic, this.operands, this.eval := isStatic, operands, eval;
    }

    /** Computed from operands, as opposed to a term that was assigned a value. */
    predicate Computed() {
      !isStatic && operands != []
    }

    function OperandValues(): (vs: seq<Value>)
      reads operands
    {
      ValuesOf(operands)
    }

    function Eval(): Value
      reads operands
    {
      eval(OperandValues())
    }
  }

  /** One evaluation: which cell, and the operand values it saw. */
  datatype Evaluation = Evaluation(cell: Cell, seen: seq<Value>)

  /** A reaction as it proceeds: the values and schedule it began with, what it evaluated so far. */
  datatype Reaction = Reaction(value0: map<Cell, Value>, scheduled0: set<Cell>, done: set<Cell>, run: seq<Evaluation>) {
    function Then(e: Evaluation): (r: Reaction)
      ensures r.run == run + [e] && r.value0 == value0 && r.scheduled0 == scheduled0
    {
      this.(done := done + {e.cell}, run := run + [e])
    }
  }

  class Reactor {
    /** The cells to evaluate, one list per level. */
    const evalVector: array<seq<Cell>>
    var top: nat
    ghost const cells: set<Cell>
    ghost var history: seq<Evaluation>
    ghost var reaction: Reaction

    constructor (ghost cells: set<Cell>)
      ensures this.cells == cells && fresh(evalVector) && evalVector.Length == MAX_LEVEL
      ensures top == 0 && history == [] && forall l :: 0 <= l < MAX_LEVEL ==> evalVector[l] == []
    {
      evalVector := new seq<Cell>[MAX_LEVEL](_ => []);
      top := 0;
      this.cells := cells;
      history := [];
      reaction := Reaction(map[], {}, {}, []);
    }

    // -----------------------------------------------------------------------------------------
    // Invariants
    // -----------------------------------------------------------------------------------------

    /** The cells are enabled, and subscriptions mirror operands. */
    ghost predicate Links()
      reads cells`sub, cells`enabled
    {
      && (forall c :: c in cells ==> c.enabled || c.isStatic)
      && (forall c, i :: c in cells && 0 <= i < |c.sub| ==> c.sub[i] in cells && !c.isStatic)
      && (forall c, i :: c in cells && 0 <= i < |c.sub| && !c.sub[i].isStatic ==> c in c.sub[i].operands)
      && (forall c, i :: c in cells && c.Computed() && 0 <= i < |c.operands| ==>
            c.operands[i] in cells && (c.operands[i].isStatic || c in c.operands[i].sub))
    }

    /** Subscriptions lead to strictly higher levels, so the graph has no cycle. */
    ghost predicate Graph()
      reads cells`sub, cells`level, cells`enabled
      ensures Graph() ==> Links()
    {
      && Links()
      && (forall c, i :: c in cells && 0 <= i < |c.sub| && !c.sub[i].isStatic ==> c.level < c.sub[i].level)
      && (forall c :: c in cells ==> c.level < MAX_LEVEL)
    }

    /** The list of level `l` holds the scheduled cells of that level, each once. */
    ghost predicate Listed(l: nat)
      requires evalVector.Length == MAX_LEVEL && l < MAX_LEVEL
      reads evalVector, cells`scheduled, cells`level
    {
      && (forall c :: c in evalVector[l] ==> c in cells && c.scheduled && c.level == l && c.Computed())
      && (forall c :: c in cells && c.scheduled && c.level == l ==> c in evalVector[l])
      && (forall i, j :: 0 <= i < j < |evalVector[l]| ==> evalVector[l][i] != evalVector[l][j])
    }

    /** Every list but the one of level `busy` is in order; no list above `top` is in use. */
    ghost predicate ListsExcept(busy: int)
      reads this`top, evalVector, cells`scheduled, cells`level
    {
      && evalVector.Length == MAX_LEVEL
      && top < MAX_LEVEL
      && (forall l :: 0 <= l < MAX_LEVEL && l != busy ==> Listed(l))
      && (forall l :: top < l < MAX_LEVEL ==> evalVector[l] == [])
    }

    ghost predicate Lists()
      reads this`top, evalVector, cells`scheduled, cells`level
    {
      ListsExcept(-1)
    }

    /** A cell that is not scheduled agrees with its operands. */
    ghost predicate Agenda()
      requires Links()
      reads cells
    {
      forall c :: c in cells && c.Computed() && !c.scheduled ==> c.value == c.Eval()
    }

    ghost predicate Valid()
      reads this, evalVector, cells
    {
      Graph() && Lists() && Agenda()
    }

    /** Every computed cell has the value its operands give it, and nothing waits for evaluation. */
    ghost predicate Settled()
      reads this, evalVector, cells
    {
      && Valid()
      && (forall c :: c in cells ==> !c.scheduled && (c.Computed() ==> c.value == c.Eval()))
      && (forall l :: 0 <= l < MAX_LEVEL ==> evalVector[l] == [])
      && top == 0
    }

    // -----------------------------------------------------------------------------------------
    // Scheduling
    // -----------------------------------------------------------------------------------------

    /** Schedule a subscriber, unless it is a static object or already scheduled. */
    method Alert(subscriber: Cell, ghost busy: int)
      requires Graph() && ListsExcept(busy)
      requires subscriber in cells
      requires !subscriber.isStatic ==> subscriber.Computed() && busy < subscriber.level
      modifies evalVector, this`top, subscriber`scheduled
      ensures ListsExcept(busy) && old(top) <= top
      ensures subscriber.scheduled == (old(subscriber.scheduled) || !subscriber.isStatic)
      ensures var l, isNew := subscriber.level, !subscriber.isStatic && !old(subscriber.scheduled);
        && (isNew ==> evalVector[l] == [subscriber] + old(evalVector[l]))
        && (forall k :: 0 <= k < MAX_LEVEL && (k != l || !isNew) ==> evalVector[k] == old(evalVector[k]))
        && top == if isNew && old(top) < l then l else old(top)
      ensures forall l :: 0 <= l <= busy && l < MAX_LEVEL ==> evalVector[l] == old(evalVector[l])
    {
      if subscriber.isStatic {
        return;
      }
      if subscriber.scheduled {
        return;
      }
      var l := subscriber.level;
      if top < l {
        top := l;
      }
      subscriber.scheduled := true;
      evalVector[l] := [subscriber] + evalVector[l];
      assert Listed(l) by {
        assert old(Listed(l)) && subscriber == evalVector[l][0];
        assert forall c :: c in old(evalVector[l]) ==> c in evalVector[l];
      }
      forall k | 0 <= k < MAX_LEVEL && k != l && k != busy ensures Listed(k) {
        assert old(Listed(k)) && evalVector[k] == old(evalVector[k]);
      }
    }

    /** Alert every subscriber. */
    method Publish(pub: Cell, ghost busy: int)
      requires Graph() && ListsExcept(busy) && pub in cells && busy <= pub.level
      modifies evalVector, this`top, cells`scheduled
      ensures ListsExcept(busy) && old(top) <= top
      ensures forall c :: c in cells ==>
        (c.scheduled <==> old(c.scheduled) || (c in pub.sub && !c.isStatic))
      ensures forall l :: 0 <= l <= busy && l < MAX_LEVEL ==> evalVector[l] == old(evalVector[l])
    {
      if pub.isStatic {
        return;
      }
      for i := 0 to |pub.sub|
        invariant ListsExcept(busy) && old(top) <= top
        invariant forall c :: c in cells ==>
          (c.scheduled <==> old(c.scheduled) || (c in pub.sub[..i] && !c.isStatic))
        invariant forall l :: 0 <= l <= busy && l < MAX_LEVEL ==> evalVector[l] == old(evalVector[l])
      {
        assert pub.sub[i] in pub.sub;
        Alert(pub.sub[i], busy);
        assert pub.sub[..i + 1] == pub.sub[..i] + [pub.sub[i]];
      }
      assert pub.sub[..|pub.sub|] == pub.sub;
    }

    // -----------------------------------------------------------------------------------------
    // Reaction
    // -----------------------------------------------------------------------------------------

    /** The run evaluated each done cell once, and each saw the values its operands hold now. */
    ghost predicate Final(r: Reaction)
      reads cells`value
    {
      && r.done <= cells
      && (forall i :: 0 <= i < |r.run| ==> r.run[i].cell in r.done)
      && (forall c :: c in r.done ==> exists i :: 0 <= i < |r.run| && r.run[i].cell == c)
      && (forall i, j :: 0 <= i < j < |r.run| ==> r.run[i].cell != r.run[j].cell)
      && (forall i, k :: 0 <= i < |r.run| && 0 <= k < |r.run[i].cell.operands| && r.run[i].cell.operands[k] in cells ==>
            |r.run[i].seen| == |r.run[i].cell.operands| && r.run[i].seen[k] == r.run[i].cell.operands[k].value)
    }

    /** Something gave `c` a reason to be evaluated: it was scheduled to begin with, or an operand changed. */
    ghost predicate Moved(c: Cell, r: Reaction)
      reads r.value0.Keys
    {
      c in r.scheduled0 || exists o :: o in c.operands && o in r.value0 && o.value != r.value0[o]
    }

    /** How far the reaction is when it works on level `v`. */
    ghost predicate Progress(v: nat, r: Reaction)
      reads cells
    {
      && r.done <= cells == r.value0.Keys
      && (forall c :: c in r.done ==> c.Computed() && !c.scheduled && c.level <= v)
      && (forall c :: c in cells && c.scheduled ==> v <= c.level)
      && (forall c :: c in cells && c !in r.done ==> c.value == r.value0[c])
      && (forall c :: c in cells && c in r.scheduled0 ==> c.scheduled || c in r.done)
      && (forall c :: c in cells && c.Computed() && (c.scheduled || c in r.done) ==> Moved(c, r))
    }

    /** The cell at the head of its list was evaluated: its value, the flags and the lists moved as they should. */
    twostate predicate Evaluated(c: Cell)
      requires old(Graph()) && evalVector.Length == MAX_LEVEL && c in cells
      reads this, evalVector, cells
    {
      && Graph() && Lists()
      && (forall l :: 0 <= l < c.level ==> evalVector[l] == old(evalVector[l]))
      && old(evalVector[c.level]) == [c] + evalVector[c.level]
      && old(c.scheduled) && c.Computed() && !c.isStatic
      && (forall x :: x in cells ==> x.level == old(x.level) && x.sub == old(x.sub))
      && c.value == old(c.Eval())
      && (forall x :: x in cells && x != c ==> x.value == old(x.value))
      && (forall x :: x in cells ==>
            (x.scheduled <==> (x != c && old(x.scheduled)) || (c.value != old(c.value) && x in c.sub && !x.isStatic)))
    }

    /** Turn off the scheduled flag of a cell that is still on its list. */
    method Unschedule(c: Cell)
      requires Lists() && c in cells && c.level < MAX_LEVEL
      modifies c`scheduled
      ensures !c.scheduled && ListsExcept(c.level)
    {
      c.scheduled := false;
      forall l | 0 <= l < MAX_LEVEL && l != c.level ensures Listed(l) {
        assert old(Listed(l));
      }
    }

    /** Give a cell a new value, and publish if that is a change. */
    method Assign(c: Cell, value: Value, ghost busy: int)
      requires Graph() && ListsExcept(busy) && c in cells && busy <= c.level
      modifies evalVector, this`top, c`value, cells`scheduled
      ensures c.value == value
      ensures ListsExcept(busy) && old(top) <= top
      ensures forall x :: x in cells ==>
        (x.scheduled <==> old(x.scheduled) || (value != old(c.value) && x in c.sub && !x.isStatic))
      ensures forall l :: 0 <= l <= busy && l < MAX_LEVEL ==> evalVector[l] == old(evalVector[l])
    {
      if value != c.value {
        c.value := value;
        Publish(c, busy);
      }
    }

    /** Take the head off the list of level `v` once it was evaluated. */
    method Unlink(v: nat, list: seq<Cell>)
      requires ListsExcept(v) && v < MAX_LEVEL
      requires list != [] && evalVector[v] == list && list[0] in cells && !list[0].scheduled
      requires forall c :: c in list[1..] ==> c in cells && c.scheduled && c.level == v && c.Computed()
      requires forall c :: c in cells && c.scheduled && c.level == v ==> c in list
      requires forall i, j :: 0 <= i < j < |list| ==> list[i] != list[j]
      modifies evalVector
      ensures Lists()
      ensures evalVector[v] == list[1..]
      ensures forall l :: 0 <= l < MAX_LEVEL && l != v ==> evalVector[l] == old(evalVector[l])
    {
      evalVector[v] := list[1..];
      assert list == [list[0]] + list[1..];
      assert Listed(v);
      forall l | 0 <= l < MAX_LEVEL && l != v ensures Listed(l) {
        assert old(Listed(l));
      }
    }

    /** What is on the list of a level, and first on it. */
    lemma Head(v: nat)
      requires Lists() && v < MAX_LEVEL && evalVector[v] != []
      ensures var list := evalVector[v];
        && list == [list[0]] + list[1..]
        && list[0] in cells && list[0].scheduled && list[0].level == v && list[0].Computed()
        && (forall c :: c in list[1..] ==> c in cells && c.scheduled && c.level == v && c.Computed() && c != list[0])
        && (forall c :: c in cells && c.scheduled && c.level == v ==> c in list)
        && (forall i, j :: 0 <= i < j < |list| ==> list[i] != list[j])
      ensures ListsExcept(-1) && ListsExcept(v) && evalVector.Length == MAX_LEVEL
    {
      assert Listed(v);
      assert evalVector[v][0] in evalVector[v];
      assert forall c :: c in evalVector[v][1..] ==> c in evalVector[v];
    }

    /** Evaluate the first cell on the list of level `v`, and publish if its value changed. */
    method Evaluate(v: nat) returns (ghost c: Cell)
      requires Graph() && Lists() && v < MAX_LEVEL && evalVector[v] != []
      modifies this`top, this`history, evalVector, cells`value, cells`scheduled
      ensures c in cells && c.level == v && Evaluated(c) && Graph() && Lists() && old(top) <= top
      ensures evalVector[v] == old(evalVector[v])[1..]
      ensures forall l :: 0 <= l < v ==> evalVector[l] == old(evalVector[l])
      ensures history == old(history) + [Evaluation(c, old(c.OperandValues()))]
    {
      Head(v);
      hide Graph, Lists, ListsExcept, Listed;
      var list := evalVector[v];
      var cell := list[0];
      c := cell;
      var value := cell.Eval();
      history := history + [Evaluation(c, c.OperandValues())];
      Unschedule(cell);
      Assign(cell, value, v);
      Unlink(v, list);
    }

    twostate lemma EvaluatedKeepsAgenda(c: Cell)
      requires old(Graph()) && evalVector.Length == MAX_LEVEL && c in cells && Evaluated(c)
      requires old(Agenda())
      ensures Agenda()
    {
      forall x | x in cells && x.Computed() && !x.scheduled ensures x.value == x.Eval() {
        if c in x.operands {
          assert x in c.sub;
          assert c.value == old(c.value);
        }
        assert x.OperandValues() == old(x.OperandValues());
      }
    }

    twostate lemma EvaluatedKeepsProgress(c: Cell)
      requires old(Graph()) && evalVector.Length == MAX_LEVEL && c in cells && Evaluated(c)
      requires reaction == old(reaction) && old(Progress(c.level, reaction))
      ensures forall x :: x in reaction.done ==> x.Computed() && x.level <= c.level
      ensures c !in reaction.done && Progress(c.level, reaction.Then(Evaluation(c, old(c.OperandValues()))))
    {
      var r := reaction.Then(Evaluation(c, old(c.OperandValues())));
      forall x | x in cells && x.Computed() && (x.scheduled || x in r.done) ensures Moved(x, r) {
        if old(x.scheduled) || x in reaction.done {
          assert old(Moved(x, reaction));
          if o :| o in x.operands && o in reaction.value0 && old(o.value) != reaction.value0[o] {
            assert o in reaction.done;
          }
        } else {
          assert c in x.operands;
        }
      }
    }

    twostate lemma EvaluatedKeepsFinal(c: Cell)
      requires old(Graph()) && evalVector.Length == MAX_LEVEL && c in cells && Evaluated(c)
      requires reaction == old(reaction) && old(Final(reaction)) && c !in reaction.done
      requires forall x :: x in reaction.done ==> x.Computed() && x.level <= c.level
      ensures Final(reaction.Then(Evaluation(c, old(c.OperandValues()))))
    {
      RunCovers(reaction.done, reaction.run, Evaluation(c, old(c.OperandValues())));
    }

    static lemma RunCovers(done: set<Cell>, run: seq<Evaluation>, e: Evaluation)
      requires forall c :: c in done ==> exists i :: 0 <= i < |run| && run[i].cell == c
      ensures forall c :: c in done + {e.cell} ==> exists i :: 0 <= i < |run + [e]| && (run + [e])[i].cell == c
    {
      forall c | c in done + {e.cell} ensures exists i :: 0 <= i < |run + [e]| && (run + [e])[i].cell == c {
        if c in done {
          var i :| 0 <= i < |run| && run[i].cell == c;
          assert (run + [e])[i].cell == c;
        } else {
          assert (run + [e])[|run|].cell == c;
        }
      }
    }

    /** One evaluation, as a step of the reaction in progress. */
    method Step(v: nat)
      requires evalVector.Length == MAX_LEVEL && v < MAX_LEVEL && evalVector[v] != []
      requires Graph() && Lists() && Agenda() && Final(reaction) && Progress(v, reaction)
      modifies this, evalVector, cells`value, cells`scheduled
      ensures Graph() && Lists() && Agenda() && Final(reaction) && Progress(v, reaction)
      ensures old(top) <= top
      ensures forall l :: 0 <= l < v ==> evalVector[l] == old(evalVector[l])
      ensures evalVector[v] == old(evalVector[v])[1..]
      ensures reaction.value0 == old(reaction.value0) && reaction.scheduled0 == old(reaction.scheduled0)
      ensures |history| == |old(history)| + 1 && old(history) <= history
      ensures reaction.run == old(reaction.run) + [history[|old(history)|]]
    {
      hide *;
      ghost var c := Evaluate(v);
      EvaluatedKeepsAgenda(c);
      EvaluatedKeepsProgress(c);
      EvaluatedKeepsFinal(c);
      reaction := reaction.Then(history[|old(history)|]);
    }

    /** Evaluate the cells of one level. */
    method Drain(v: nat)
      requires evalVector.Length == MAX_LEVEL && v < MAX_LEVEL
      requires Graph() && Lists() && Agenda() && Final(reaction) && Progress(v, reaction)
      modifies this, evalVector, cells`value, cells`scheduled
      ensures Graph() && Lists() && Agenda() && Final(reaction) && Progress(v, reaction)
      ensures old(top) <= top
      ensures forall l :: 0 <= l < v ==> evalVector[l] == old(evalVector[l])
      ensures evalVector[v] == []
      ensures reaction.value0 == old(reaction.value0) && reaction.scheduled0 == old(reaction.scheduled0)
      ensures old(reaction.run) <= reaction.run && history == old(history) + reaction.run[|old(reaction.run)|..]
    {
      hide *;
      while evalVector[v] != []
        invariant Graph() && Lists() && Agenda() && Final(reaction) && Progress(v, reaction)
        invariant old(top) <= top
        invariant forall l :: 0 <= l < v ==> evalVector[l] == old(evalVector[l])
        invariant reaction.value0 == old(reaction.value0) && reaction.scheduled0 == old(reaction.scheduled0)
        invariant old(reaction.run) <= reaction.run && history == old(history) + reaction.run[|old(reaction.run)|..]
        decreases |evalVector[v]|
      {
        Step(v);
      }
    }

    lemma LevelsExist()
      requires Valid()
      ensures evalVector.Length == MAX_LEVEL && top < MAX_LEVEL && Graph() && Lists() && Agenda()
    {
    }

    lemma Begins(r: Reaction)
      requires r == Reaction(map c | c in cells :: c.value, set c | c in cells && c.scheduled, {}, [])
      ensures Final(r) && Progress(0, r)
    {
    }

    lemma NextLevel(v: nat)
      requires Lists() && v < MAX_LEVEL && evalVector[v] == [] && Progress(v, reaction)
      ensures top < MAX_LEVEL && Progress(v + 1, reaction)
    {
      assert Listed(v);
    }

    /** Work through the levels; `top` may rise on the way. */
    method Sweep() returns (v: nat)
      requires evalVector.Length == MAX_LEVEL && top < MAX_LEVEL
      requires Graph() && Lists() && Agenda() && Final(reaction) && Progress(0, reaction)
      modifies this, evalVector, cells`value, cells`scheduled
      ensures Graph() && Lists() && Agenda() && Final(reaction) && Progress(v, reaction)
      ensures top < MAX_LEVEL && forall l :: 0 <= l <= top ==> evalVector[l] == []
      ensures reaction.value0 == old(reaction.value0) && reaction.scheduled0 == old(reaction.scheduled0)
      ensures old(reaction.run) <= reaction.run && history == old(history) + reaction.run[|old(reaction.run)|..]
    {
      hide *;
      v := 0;
      while v <= top
        invariant 0 <= v <= top + 1 <= MAX_LEVEL
        invariant Graph() && Lists() && Agenda() && Final(reaction) && Progress(v, reaction)
        invariant forall l :: 0 <= l < v ==> evalVector[l] == []
        invariant reaction.value0 == old(reaction.value0) && reaction.scheduled0 == old(reaction.scheduled0)
        invariant old(reaction.run) <= reaction.run && history == old(history) + reaction.run[|old(reaction.run)|..]
        decreases MAX_LEVEL - v
      {
        Drain(v);
        NextLevel(v);
        v := v + 1;
      }
    }

    lemma NothingIsLeft()
      requires Lists() && forall l :: 0 <= l <= top ==> evalVector[l] == []
      requires Graph()
      ensures forall l :: 0 <= l < MAX_LEVEL ==> Listed(l) && evalVector[l] == []
      ensures forall c :: c in cells ==> !c.scheduled
    {
      forall c | c in cells ensures !c.scheduled {
        assert Listed(c.level);
      }
    }

    lemma Ends(v: nat)
      requires Graph() && Lists() && Agenda() && Progress(v, reaction)
      requires forall c :: c in cells ==> !c.scheduled
      ensures forall c :: c in cells && c !in reaction.done ==> c.value == reaction.value0[c]
      ensures forall c :: c in cells && c in reaction.scheduled0 ==> c in reaction.done
      ensures forall c :: c in reaction.done ==> c.Computed()
      ensures forall c :: c in reaction.done && c !in reaction.scheduled0 ==>
        exists o :: o in c.operands && o in cells && o.value != reaction.value0[o]
      ensures forall c :: c in cells && c.Computed() ==> c.value == c.Eval()
    {
    }

    lemma NowSettled()
      requires evalVector.Length == MAX_LEVEL && top == 0
      requires Graph() && Lists() && Agenda()
      requires forall c :: c in cells ==> !c.scheduled && (c.Computed() ==> c.value == c.Eval())
      requires forall l :: 0 <= l < MAX_LEVEL ==> evalVector[l] == []
      ensures Settled()
    {
    }

    method Rest()
      requires evalVector.Length == MAX_LEVEL && forall l :: 0 <= l < MAX_LEVEL ==> Listed(l) && evalVector[l] == []
      modifies this`top
      ensures top == 0 && Lists()
    {
      top := 0;
    }

    // -----------------------------------------------------------------------------------------
    // Meaning
    // -----------------------------------------------------------------------------------------

    /** What a cell stands for: its expression computed from the assigned terms, ignoring cached values. */
    ghost function Meaning(c: Cell): Value
      requires Graph() && c in cells
      reads cells
      decreases c.level, |c.operands|, 1
    {
      if c.Computed() then c.eval(Meanings(c, |c.operands|)) else c.value
    }

    ghost function Meanings(c: Cell, n: nat): (vs: seq<Value>)
      requires Graph() && c in cells && c.Computed() && n <= |c.operands|
      reads cells
      ensures |vs| == n
      decreases c.level, n, 0
    {
      if n == 0 then [] else
        var o := c.operands[n - 1];
        Meanings(c, n - 1) + [if o.Computed() then Meaning(o) else o.value]
    }

    lemma {:induction false} SettledCellsHoldTheirMeaning(c: Cell)
      requires Settled() && c in cells
      ensures c.value == Meaning(c)
      decreases c.level, |c.operands|, 1
    {
      if !c.Computed() {
      } else {
        SettledOperandsHoldTheirMeaning(c, |c.operands|);
        assert ValuesOf(c.operands) == Meanings(c, |c.operands|);
      }
    }

    lemma {:induction false} SettledOperandsHoldTheirMeaning(c: Cell, n: nat)
      requires Settled() && c in cells && c.Computed() && n <= |c.operands|
      ensures forall k :: 0 <= k < n ==> Meanings(c, n)[k] == c.operands[k].value
      decreases c.level, n, 0
    {
      if n == 0 {
      } else {
        SettledOperandsHoldTheirMeaning(c, n - 1);
        if c.operands[n - 1].Computed() {
          SettledCellsHoldTheirMeaning(c.operands[n - 1]);
        }
      }
    }

    /** The assigned terms alone decide what a cell means. */
    twostate lemma {:induction false} MeaningFromTerms(c: Cell)
      requires old(Graph()) && Graph() && c in cells
      requires forall x :: x in cells ==> x.level == old(x.level)
      requires forall x :: x in cells && !x.Computed() ==> x.value == old(x.value)
      ensures Meaning(c) == old(Meaning(c))
      decreases c.level, |c.operands|, 1
    {
      if !c.Computed() {
      } else {
        MeaningsFromTerms(c, |c.operands|);
      }
    }

    twostate lemma {:induction false} MeaningsFromTerms(c: Cell, new n: nat)
      requires old(Graph()) && Graph() && c in cells && c.Computed() && n <= |c.operands|
      requires forall x :: x in cells ==> x.level == old(x.level)
      requires forall x :: x in cells && !x.Computed() ==> x.value == old(x.value)
      ensures Meanings(c, n) == old(Meanings(c, n))
      decreases c.level, n, 0
    {
      if n == 0 {
      } else {
        MeaningsFromTerms(c, n - 1);
        if c.operands[n - 1].Computed() {
          MeaningFromTerms(c.operands[n - 1]);
        }
      }
    }

    /** Re-evaluate scheduled cells, level by level, until nothing is scheduled.
        Afterwards every cell has the value its operands give it. Each evaluated cell was evaluated once, and
        saw its operands' final values; it was scheduled to begin with or had an operand that changed. */
    method React()
      requires Valid()
      modifies this, evalVector, cells`value, cells`scheduled
      ensures Settled()
      ensures forall c :: c in cells ==> c.value == Meaning(c) == old(Meaning(c))
      ensures Final(reaction) && history == old(history) + reaction.run
      ensures forall c :: c in cells && c !in reaction.done ==> c.value == old(c.value)
      ensures forall c :: c in cells && old(c.scheduled) ==> c in reaction.done
      ensures forall c :: c in reaction.done ==> c.Computed()
      ensures forall c :: c in reaction.done && !old(c.scheduled) ==>
        exists o :: o in c.operands && o in cells && o.value != old(o.value)
    {
      hide *;
      LevelsExist();
      reaction := Reaction(map c | c in cells :: c.value, set c | c in cells && c.scheduled, {}, []);
      Begins(reaction);
      var v := Sweep();
      NothingIsLeft();
      Ends(v);
      Rest();
      NowSettled();
      forall c | c in cells ensures c.value == Meaning(c) == old(Meaning(c)) {
        SettledCellsHoldTheirMeaning(c);
        MeaningFromTerms(c);
      }
    }

    /** A term can be assigned: it is neither static nor computed from operands. */
    predicate IsTerm(c: Cell) {
      !c.isStatic && c.operands == []
    }

    twostate lemma AssignedKeepsAgenda(term: Cell)
      requires old(Graph()) && Graph() && term in cells && IsTerm(term) && old(Agenda())
      requires forall x :: x in cells ==> x.sub == old(x.sub)
      requires forall x :: x in cells && x != term ==> x.value == old(x.value)
      requires forall x :: x in cells ==>
        (x.scheduled <==> old(x.scheduled) || (term.value != old(term.value) && x in term.sub && !x.isStatic))
      ensures Agenda()
    {
      forall x | x in cells && x.Computed() && !x.scheduled ensures x.value == x.Eval() {
        assert term in x.operands ==> x in term.sub;
        assert ValuesOf(x.operands) == old(ValuesOf(x.operands));
      }
    }

    /** A term with a constant value is at level zero. */
    method Lower(term: Cell)
      requires Graph() && Lists() && term in cells && IsTerm(term)
      modifies term`level
      ensures term.level == 0 && Graph() && Lists()
    {
      assert Listed(term.level) && !term.scheduled;
      term.level := 0;
      assert forall c :: c in cells ==>
        c.sub == old(c.sub) && c.level <= old(c.level) && (c != term ==> c.level == old(c.level));
      assert Graph() by {
        forall c, i | c in cells && 0 <= i < |c.sub|
          ensures c.sub[i] in cells && !c.isStatic
          ensures !c.sub[i].isStatic ==> c in c.sub[i].operands && c.level < c.sub[i].level
        {
          assert c.sub[i] == old(c.sub[i]);
        }
      }
      forall l | 0 <= l < MAX_LEVEL ensures Listed(l) {
        assert old(Listed(l));
      }
    }

    /** Assign a constant to a term (lib/nbterm.c), and publish, unless the term has that value. */
    method AssignTerm(term: Cell, value: Value)
      requires Graph() && Lists() && Agenda() && term in cells && IsTerm(term)
      modifies evalVector, this`top, term`value, term`level, cells`scheduled
      ensures Graph() && Lists() && Agenda() && term.value == value
      ensures old(term.value) != value ==> term.level == 0
    {
      if term.value == value {
        return;
      }
      Lower(term);
      Assign(term, value, -1);
      AssignedKeepsAgenda(term);
    }

    /** The value a term holds after a list of assignments. */
    static ghost function Assigned(term: Cell, value: Value, assertions: seq<(Cell, Value)>): Value
      decreases |assertions|
    {
      if assertions == [] then value
      else
        var (t, v) := assertions[|assertions| - 1];
        if t == term then v else Assigned(term, value, assertions[..|assertions| - 1])
    }

    /** The last assignment to a term decides; a term without one keeps its value. */
    static lemma {:induction false} LastAssignmentDecides(term: Cell, value: Value, assertions: seq<(Cell, Value)>,
                                                          k: nat)
      requires k < |assertions| ==> assertions[k].0 == term
      requires forall i :: k < i < |assertions| ==> assertions[i].0 != term
      requires k >= |assertions| ==> forall i :: 0 <= i < |assertions| ==> assertions[i].0 != term
      ensures Assigned(term, value, assertions) == if k < |assertions| then assertions[k].1 else value
      decreases |assertions|
    {
      if assertions == [] {
      } else {
        var init := assertions[..|assertions| - 1];
        if k != |init| {
          LastAssignmentDecides(term, value, init, k);
        }
      }
    }

    /** Assign any number of terms, then react once. Every cell ends with the meaning that the assigned values give it,
        however the assignments were ordered and whatever was waiting before. */
    method AssertAll(assertions: seq<(Cell, Value)>)
      requires Valid()
      requires forall i :: 0 <= i < |assertions| ==> assertions[i].0 in cells && IsTerm(assertions[i].0)
      modifies this, evalVector, cells`value, cells`level, cells`scheduled
      ensures Settled()
      ensures forall c :: c in cells && !c.Computed() ==> c.value == Assigned(c, old(c.value), assertions)
      ensures forall c :: c in cells ==> c.value == Meaning(c)
    {
      for i := 0 to |assertions|
        invariant Graph() && Lists() && Agenda()
        invariant forall c :: c in cells && !c.Computed() ==> c.value == Assigned(c, old(c.value), assertions[..i])
      {
        AssignTerm(assertions[i].0, assertions[i].1);
        assert assertions[..i + 1][..i] == assertions[..i];
      }
      assert assertions[..|assertions|] == assertions;
      React();
    }
  }
}
