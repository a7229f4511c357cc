/** The timer queue of lib/nbclock.c, a linked list with a free list beside it. */
module Timers {

  /** Cell `cell` is to be alerted at `time`. */
  datatype Event = Event(time: int, cell: nat)

  // -------------------------------------------------------------------------------------------
  // Lists of events
  // -------------------------------------------------------------------------------------------

  predicate Sorted(es: seq<Event>) {
    forall i, j :: 0 <= i < j < |es| ==> es[i].time <= es[j].time
  }

  predicate OnePerCell(es: seq<Event>) {
    forall i, j :: 0 <= i < j < |es| ==> es[i].cell != es[j].cell
  }

  /** Without the event of a cell. */
  function Cancelled(es: seq<Event>, cell: nat): seq<Event> {
    if es == [] then [] else if es[0].cell == cell then es[1..] else [es[0]] + Cancelled(es[1..], cell)
  }

  /** Behind every event that is not later. */
  function Placed(es: seq<Event>, e: Event): seq<Event> {
    if es == [] || e.time < es[0].time then [e] + es else [es[0]] + Placed(es[1..], e)
  }

  /** Setting a timer replaces the one the cell has; the time 0 only cancels it. */
  function AfterSet(es: seq<Event>, time: int, cell: nat): seq<Event> {
    if time == 0 then Cancelled(es, cell) else Placed(Cancelled(es, cell), Event(time, cell))
  }

  lemma {:induction false} CancelledIs(es: seq<Event>, k: nat, cell: nat)
    requires k <= |es| && (forall i :: 0 <= i < k ==> es[i].cell != cell) && (k < |es| ==> es[k].cell == cell)
    ensures Cancelled(es, cell) == if k < |es| then es[..k] + es[k + 1..] else es
  {
    if es != [] && k > 0 {
      CancelledIs(es[1..], k - 1, cell);
      assert k < |es| ==> es[..k] == [es[0]] + es[1..][..k - 1] && es[1..][k..] == es[k + 1..];
      assert es == [es[0]] + es[1..];
    }
  }

  lemma {:induction false} PlacedIs(es: seq<Event>, k: nat, e: Event)
    requires k <= |es| && (forall i :: 0 <= i < k ==> es[i].time <= e.time) && (k < |es| ==> e.time < es[k].time)
    ensures Placed(es, e) == es[..k] + [e] + es[k..]
  {
    if k > 0 {
      PlacedIs(es[1..], k - 1, e);
      assert es[..k] == [es[0]] + es[1..][..k - 1] && es[1..][k - 1..] == es[k..];
    } else {
      assert es[..0] == [] && es[0..] == es;
    }
  }

  lemma {:induction false} IndexOf(es: seq<Event>, cell: nat) returns (k: nat)
    ensures k <= |es| && (forall i :: 0 <= i < k ==> es[i].cell != cell) && (k < |es| ==> es[k].cell == cell)
  {
    if es == [] || es[0].cell == cell {
      k := 0;
    } else {
      k := IndexOf(es[1..], cell);
      assert forall i :: 1 <= i < |es| ==> es[i] == es[1..][i - 1];
      k := k + 1;
    }
  }

  /** Cancelling takes the event of the cell out, and leaves the others in their order. */
  lemma CancelledKeepsOthers(es: seq<Event>, cell: nat)
    requires Sorted(es) && OnePerCell(es)
    ensures var r := Cancelled(es, cell);
      Sorted(r) && OnePerCell(r) && forall x :: x in r <==> x in es && x.cell != cell
  {
    var k := IndexOf(es, cell);
    CancelledIs(es, k, cell);
    if k < |es| {
      WithoutOne(es, k, Cancelled(es, cell));
    } else {
      assert forall x :: x in es ==> x.cell != cell;
    }
  }

  lemma WithoutOne(es: seq<Event>, k: nat, r: seq<Event>)
    requires Sorted(es) && OnePerCell(es) && k < |es| && r == es[..k] + es[k + 1..]
    ensures Sorted(r) && OnePerCell(r) && forall x :: x in r <==> x in es && x.cell != es[k].cell
  {
    assert es == es[..k] + [es[k]] + es[k + 1..];
    forall i | 0 <= i < |r| ensures r[i] == es[if i < k then i else i + 1] {
    }
    forall x | x in es && x.cell != es[k].cell ensures x in r {
    }
    forall i | 0 <= i < |r| ensures r[i].cell != es[k].cell {
    }
  }

  function With(es: seq<Event>, k: nat, e: Event): seq<Event>
    requires k <= |es|
  {
    es[..k] + [e] + es[k..]
  }

  lemma WithAt(es: seq<Event>, k: nat, e: Event, r: seq<Event>)
    requires k <= |es| && r == With(es, k, e)
    ensures |r| == |es| + 1
    ensures forall i :: 0 <= i < |r| ==> r[i] == if i < k then es[i] else if i == k then e else es[i - 1]
    ensures r[..k] + r[k + 1..] == es
  {
    assert r[..k] == es[..k] && r[k + 1..] == es[k..];
  }

  lemma WithIndex(es: seq<Event>, k: nat, e: Event, r: seq<Event>, i: nat)
    requires k <= |es| && r == With(es, k, e) && i < |r|
    ensures |r| == |es| + 1 && r[i] == if i < k then es[i] else if i == k then e else es[i - 1]
  {
  }

  lemma WithIsSorted(es: seq<Event>, k: nat, e: Event, r: seq<Event>)
    requires Sorted(es) && k <= |es| && (forall i :: 0 <= i < k ==> es[i].time <= e.time)
    requires r == With(es, k, e) && forall i :: k <= i < |es| ==> e.time < es[i].time
    ensures Sorted(r)
  {
    hide With;
    forall i, j | 0 <= i < j < |r| ensures r[i].time <= r[j].time {
      var a, b := if i < k then i else i - 1, if j < k then j else j - 1;
      WithIndex(es, k, e, r, i);
      WithIndex(es, k, e, r, j);
      if i == k {
        assert e.time < es[b].time;
      } else if j == k {
        assert es[a].time <= e.time;
      } else {
        assert es[a].time <= es[b].time;
      }
    }
  }

  lemma WithIsOnePerCell(es: seq<Event>, k: nat, e: Event, r: seq<Event>)
    requires OnePerCell(es) && k <= |es| && r == With(es, k, e) && forall i :: 0 <= i < |es| ==> es[i].cell != e.cell
    ensures OnePerCell(r)
  {
    hide With;
    forall i, j | 0 <= i < j < |r| ensures r[i].cell != r[j].cell {
      var a, b := if i < k then i else i - 1, if j < k then j else j - 1;
      WithIndex(es, k, e, r, i);
      WithIndex(es, k, e, r, j);
      if i == k {
        assert es[b].cell != e.cell;
      } else if j == k {
        assert es[a].cell != e.cell;
      } else {
        assert es[a].cell != es[b].cell;
      }
    }
  }

  lemma WithMembers(es: seq<Event>, k: nat, e: Event, r: seq<Event>)
    requires k <= |es| && r == With(es, k, e) && forall i :: 0 <= i < |es| ==> es[i].cell != e.cell
    ensures Cancelled(r, e.cell) == es && forall x :: x in r <==> x in es || x == e
  {
    WithAt(es, k, e, r);
    assert es == es[..k] + es[k..];
    hide With;
    CancelledIs(r, k, e.cell);
  }

  /** The queue stays sorted, with one event for each cell at most. The new event is the last one of its time, and
      the others stay in their order: events of the same time come in the order in which they were set. */
  lemma PlacedInOrder(es: seq<Event>, e: Event)
    requires Sorted(es) && OnePerCell(es) && forall i :: 0 <= i < |es| ==> es[i].cell != e.cell
    ensures var r := Placed(es, e);
      && Sorted(r) && OnePerCell(r) && (forall x :: x in r <==> x in es || x == e)
      && Cancelled(r, e.cell) == es
      && exists k :: 0 <= k < |r| && r[k] == e && (forall i :: 0 <= i < k ==> r[i].time <= e.time)
                     && forall i :: k < i < |r| ==> e.time < r[i].time
  {
    hide *;
    var k := PlaceOf(es, e.time);
    PlacedIs(es, k, e);
    var r := With(es, k, e);
    WithIs(es, k, e);
    WithAt(es, k, e, r);
    WithIsSorted(es, k, e, r);
    WithIsOnePerCell(es, k, e, r);
    WithMembers(es, k, e, r);
    assert 0 <= k < |r| && r[k] == e;
  }

  lemma WithIs(es: seq<Event>, k: nat, e: Event)
    requires k <= |es|
    ensures With(es, k, e) == es[..k] + [e] + es[k..]
  {
  }

  /** What is in the queue after a timer has been set or cancelled. */
  lemma AfterSetHas(es: seq<Event>, time: int, cell: nat)
    requires Sorted(es) && OnePerCell(es)
    ensures forall x :: x in AfterSet(es, time, cell) <==>
      (x in es && x.cell != cell) || (time != 0 && x == Event(time, cell))
  {
    CancelledKeepsOthers(es, cell);
    var r := Cancelled(es, cell);
    forall i | 0 <= i < |r| ensures r[i].cell != cell {
      assert r[i] in r;
    }
    if time != 0 {
      PlacedInOrder(r, Event(time, cell));
    }
  }

  lemma {:induction false} PlaceOf(es: seq<Event>, time: int) returns (k: nat)
    requires Sorted(es)
    ensures k <= |es| && (forall i :: 0 <= i < k ==> es[i].time <= time)
    ensures forall i :: k <= i < |es| ==> time < es[i].time
  {
    if es == [] || time < es[0].time {
      k := 0;
    } else {
      k := PlaceOf(es[1..], time);
      assert forall i :: 1 <= i < |es| ==> es[i] == es[1..][i - 1];
      k := k + 1;
    }
  }

  // -------------------------------------------------------------------------------------------
  // The linked queue
  // -------------------------------------------------------------------------------------------

  class Timer {
    var next: Timer?
    var time: int
    var cell: nat

    constructor ()
    {
      next, time, cell := null, 0, 0;
    }
  }

  ghost predicate Linked(head: Timer?, ts: seq<Timer>)
    reads ts`next
  {
    && head == (if ts == [] then null else ts[0])
    && (forall i {:trigger ts[i].next} :: 0 <= i < |ts| - 1 ==> ts[i].next == ts[i + 1])
    && (ts != [] ==> ts[|ts| - 1].next == null)
  }

  ghost predicate Distinct(ts: seq<Timer>) {
    forall i, j :: 0 <= i < j < |ts| ==> ts[i] != ts[j]
  }

  ghost predicate Shows(ts: seq<Timer>, es: seq<Event>)
    reads ts`time, ts`cell
  {
    |ts| == |es| && forall i :: 0 <= i < |ts| ==> ts[i].time == es[i].time && ts[i].cell == es[i].cell
  }

  /** Take a node out of a list. */
  method LinkOut(head: Timer?, prior: Timer?, t: Timer, ghost k: nat, ghost ts: seq<Timer>) returns (head': Timer?)
    requires Linked(head, ts) && Distinct(ts) && k < |ts| && t == ts[k]
    requires prior == (if k > 0 then ts[k - 1] else null)
    modifies (if prior == null then {} else {prior})`next
    ensures Linked(head', ts[..k] + ts[k + 1..])
  {
    ghost var r := ts[..k] + ts[k + 1..];
    assert forall i :: 0 <= i < k ==> r[i] == ts[i];
    assert forall i :: k <= i < |r| ==> r[i] == ts[i + 1];
    assert t.next == if k + 1 < |ts| then ts[k + 1] else null;
    if prior == null {
      head' := t.next;
    } else {
      head' := head;
      prior.next := t.next;
    }
    forall i {:trigger r[i].next} | 0 <= i < |r| - 1 ensures r[i].next == r[i + 1] {
      if i < k - 1 {
        assert ts[i].next == ts[i + 1];
      } else if i >= k {
        assert ts[i + 1].next == ts[i + 2];
      }
    }
  }

  /** Link a node in; its own link is set already. */
  method LinkIn(head: Timer?, prior: Timer?, t: Timer, ghost k: nat, ghost ts: seq<Timer>) returns (head': Timer?)
    requires Linked(head, ts) && Distinct(ts) && k <= |ts| && t !in ts
    requires prior == (if k > 0 then ts[k - 1] else null) && t.next == (if k < |ts| then ts[k] else null)
    modifies (if prior == null then {} else {prior})`next
    ensures Linked(head', ts[..k] + [t] + ts[k..])
  {
    ghost var r := ts[..k] + [t] + ts[k..];
    assert forall i :: 0 <= i < k ==> r[i] == ts[i];
    assert forall i :: k < i < |r| ==> r[i] == ts[i - 1];
    if prior == null {
      head' := t;
    } else {
      head' := head;
      prior.next := t;
    }
    forall i {:trigger r[i].next} | 0 <= i < |r| - 1 ensures r[i].next == r[i + 1] {
      if i < k - 1 {
        assert ts[i].next == ts[i + 1];
      } else if i > k {
        assert ts[i - 1].next == ts[i];
      }
    }
  }

  /** A cursor on a list, and the node before it. */
  ghost predicate Cursor(prior: Timer?, t: Timer?, k: nat, ts: seq<Timer>) {
    && k <= |ts|
    && prior == (if k > 0 then ts[k - 1] else null) && t == (if k < |ts| then ts[k] else null)
  }

  lemma CursorMoves(head: Timer?, prior: Timer?, t: Timer?, k: nat, ts: seq<Timer>)
    requires Linked(head, ts) && Cursor(prior, t, k, ts) && t != null
    ensures k < |ts| && t == ts[k] && Cursor(t, t.next, k + 1, ts)
  {
  }

  lemma CursorIs(prior: Timer?, t: Timer?, k: nat, ts: seq<Timer>)
    requires Cursor(prior, t, k, ts)
    ensures k <= |ts| && prior == (if k > 0 then ts[k - 1] else null) && t == (if k < |ts| then ts[k] else null)
  {
  }

  lemma CursorStarts(head: Timer?, ts: seq<Timer>)
    requires Linked(head, ts)
    ensures Cursor(null, head, 0, ts)
  {
  }

  /** Find the node of a cell. */
  method FindCell(head: Timer?, cell: nat, ghost ts: seq<Timer>, ghost es: seq<Event>)
    returns (prior: Timer?, t: Timer?, ghost k: nat)
    requires Linked(head, ts) && Shows(ts, es)
    ensures Cursor(prior, t, k, ts) && (forall i :: 0 <= i < k ==> es[i].cell != cell)
    ensures (k < |es| ==> es[k].cell == cell)
  {
    hide Linked;
    CursorStarts(head, ts);
    prior, t, k := null, head, 0;
    while t != null && t.cell != cell
      invariant Cursor(prior, t, k, ts) && forall i :: 0 <= i < k ==> es[i].cell != cell
      decreases |ts| - k
    {
      CursorMoves(head, prior, t, k, ts);
      prior, t, k := t, t.next, k + 1;
    }
  }

  /** Find the first node that is later. */
  method FindLater(head: Timer?, time: int, ghost ts: seq<Timer>, ghost es: seq<Event>)
    returns (prior: Timer?, t: Timer?, ghost k: nat)
    requires Linked(head, ts) && Shows(ts, es)
    ensures Cursor(prior, t, k, ts) && (forall i :: 0 <= i < k ==> es[i].time <= time)
    ensures (k < |es| ==> time < es[k].time)
  {
    hide Linked;
    CursorStarts(head, ts);
    prior, t, k := null, head, 0;
    while t != null && time >= t.time
      invariant Cursor(prior, t, k, ts) && forall i :: 0 <= i < k ==> es[i].time <= time
      decreases |ts| - k
    {
      CursorMoves(head, prior, t, k, ts);
      prior, t, k := t, t.next, k + 1;
    }
  }

  /** The nodes in the queue, and the free ones. */
  ghost predicate Apart(ts: seq<Timer>, spare: seq<Timer>) {
    Distinct(ts) && Distinct(spare) && forall i :: 0 <= i < |ts| ==> ts[i] !in spare
  }

  lemma ApartOut(ts: seq<Timer>, spare: seq<Timer>, k: nat)
    requires Apart(ts, spare) && k < |ts|
    ensures Apart(ts[..k] + ts[k + 1..], [ts[k]] + spare) && ts[k] !in ts[..k] + ts[k + 1..]
  {
    var r := ts[..k] + ts[k + 1..];
    assert forall i :: 0 <= i < |r| ==> r[i] == if i < k then ts[i] else ts[i + 1];
  }

  lemma ApartIn(ts: seq<Timer>, spare: seq<Timer>, k: nat, t: Timer)
    requires Apart(ts, spare) && k <= |ts| && t !in ts && t !in spare
    ensures Apart(ts[..k] + [t] + ts[k..], spare)
  {
    var r := ts[..k] + [t] + ts[k..];
    assert forall i :: 0 <= i < |r| ==> r[i] == if i < k then ts[i] else if i == k then t else ts[i - 1];
  }

  lemma ShowsOut(ts: seq<Timer>, es: seq<Event>, k: nat)
    requires Shows(ts, es) && k < |ts|
    ensures Shows(ts[..k] + ts[k + 1..], es[..k] + es[k + 1..])
  {
  }

  lemma ShowsIn(ts: seq<Timer>, es: seq<Event>, k: nat, t: Timer, e: Event)
    requires Shows(ts, es) && k <= |ts| && t.time == e.time && t.cell == e.cell
    ensures Shows(ts[..k] + [t] + ts[k..], es[..k] + [e] + es[k..])
  {
  }

  /** Put a node in front of the free ones. */
  method Push(t: Timer, head: Timer?, ghost spare: seq<Timer>)
    requires Linked(head, spare) && t !in spare
    modifies t`next
    ensures Linked(t, [t] + spare)
  {
    t.next := head;
  }

  ghost function Elements(ts: seq<Timer>): set<Timer> {
    set t | t in ts
  }

  lemma ElementsOut(ts: seq<Timer>, spare: seq<Timer>, k: nat)
    requires k < |ts|
    ensures Elements(ts[..k] + ts[k + 1..]) + Elements([ts[k]] + spare) == Elements(ts) + Elements(spare)
  {
    assert ts == ts[..k] + [ts[k]] + ts[k + 1..];
  }

  lemma ElementsIn(ts: seq<Timer>, k: nat, t: Timer)
    requires k <= |ts|
    ensures Elements(ts[..k] + [t] + ts[k..]) == Elements(ts) + {t}
  {
    assert ts == ts[..k] + ts[k..];
  }

  class Clock {
    var queue: Timer?
    var free: Timer?
    ghost var timers: seq<Timer>
    ghost var spare: seq<Timer>
    /** What the queue stands for. */
    ghost var events: seq<Event>

    /** All nodes. */
    ghost function All(): set<Timer>
      reads this`timers, this`spare
    {
      Elements(timers) + Elements(spare)
    }

    /** The nodes are in order: the queue, and the free nodes. */
    ghost predicate Nodes()
      reads this, timers, spare
    {
      Linked(queue, timers) && Linked(free, spare) && Apart(timers, spare) && Shows(timers, events)
    }

    ghost predicate Valid()
      reads this, timers, spare
    {
      Nodes() && Sorted(events) && OnePerCell(events)
    }

    constructor ()
      ensures Valid() && events == [] && timers == [] && spare == []
    {
      queue, free, timers, spare, events := null, null, [], [], [];
    }

    /** Take node `k` off the queue. */
    method Unlink(prior: Timer?, t: Timer, ghost k: nat)
      requires Nodes() && Cursor(prior, t, k, timers)
      modifies this, timers`next
      ensures Nodes() && events == old(events[..k] + events[k + 1..])
      ensures All() == old(All())
    {
      hide Linked, Apart, Shows, Nodes, Cursor, Elements;
      Parts();
      CursorIs(prior, t, k, timers);
      ApartOut(timers, spare, k);
      ShowsOut(timers, events, k);
      ElementsOut(timers, spare, k);
      ghost var ts, es := timers[..k] + timers[k + 1..], events[..k] + events[k + 1..];
      queue := LinkOut(queue, prior, t, k, timers);
      Push(t, free, spare);
      free := t;
      timers, events, spare := ts, es, [t] + spare;
      Whole();
    }

    lemma Parts()
      requires Nodes()
      ensures Linked(queue, timers) && Linked(free, spare) && Apart(timers, spare) && Shows(timers, events)
      ensures |timers| == |events| && Distinct(timers) && forall i :: 0 <= i < |timers| ==> timers[i] !in spare
    {
    }

    lemma Whole()
      requires Linked(queue, timers) && Linked(free, spare) && Apart(timers, spare) && Shows(timers, events)
      ensures Nodes()
    {
    }

    /** A free node, or a new one. It is in no list then. */
    method Take() returns (t: Timer)
      requires Nodes()
      modifies this`free, this`spare
      ensures Nodes() && t !in timers && t !in spare
      ensures if old(spare) == [] then fresh(t) && spare == [] else t == old(spare)[0] && spare == old(spare)[1..]
    {
      Parts();
      Ends();
      if free == null {
        t := new Timer();
      } else {
        t := free;
        hide Linked, Apart, Shows;
        free := t.next;
        spare := spare[1..];
      }
      Whole();
    }

    lemma Ends()
      requires Linked(free, spare) && Apart(timers, spare)
      ensures free == null <==> spare == []
      ensures spare != [] ==>
        && free == spare[0] && Linked(free.next, spare[1..]) && Apart(timers, spare[1..])
        && spare[0] !in timers && spare[0] !in spare[1..]
    {
      if spare != [] {
        forall i {:trigger spare[1..][i].next} | 0 <= i < |spare| - 2 ensures spare[1..][i].next == spare[1..][i + 1] {
          assert spare[i + 1].next == spare[i + 2];
        }
      }
    }

    /** Fill in a node that is in no list. */
    method Fill(t: Timer, next: Timer?, time: int, cell: nat)
      requires Nodes() && t !in timers && t !in spare
      modifies t
      ensures Nodes() && t.time == time && t.cell == cell && t.next == next
    {
      hide *;
      t.time := time;
      t.cell := cell;
      t.next := next;
    }

    /** Put a node into the queue, at place `k`. */
    method LinkAt(prior: Timer?, t: Timer, ghost k: nat)
      requires Nodes() && Cursor(prior, t.next, k, timers) && t !in timers && t !in spare
      modifies this`queue, this`timers, this`events, timers`next
      ensures Nodes() && events == old(events[..k] + [Event(t.time, t.cell)] + events[k..])
      ensures timers == old(timers[..k] + [t] + timers[k..])
    {
      hide *;
      Parts();
      CursorIs(prior, t.next, k, timers);
      ApartIn(timers, spare, k, t);
      ShowsIn(timers, events, k, t, Event(t.time, t.cell));
      ghost var ts, es := timers[..k] + [t] + timers[k..], events[..k] + [Event(t.time, t.cell)] + events[k..];
      queue := LinkIn(queue, prior, t, k, timers);
      timers, events := ts, es;
      Whole();
    }

    /** Take the event of a cell off the queue, if there is one. */
    method Cancel(cell: nat)
      requires Valid()
      modifies this, All()
      ensures Valid() && events == Cancelled(old(events), cell)
      ensures All() == old(All())
    {
      hide *;
      Opened();
      CancelledKeepsOthers(events, cell);
      CancelOpen(cell);
      Closed();
    }

    method CancelOpen(cell: nat)
      requires Nodes() && Linked(queue, timers) && Shows(timers, events) && |timers| == |events|
      modifies this, All()
      ensures Nodes() && events == Cancelled(old(events), cell) && All() == old(All())
    {
      hide *;
      InAll();
      var prior, t;
      ghost var k;
      prior, t, k := FindCell(queue, cell, timers, events);
      CursorIs(prior, t, k, timers);
      CancelledIs(events, k, cell);
      if t != null {
        Unlink(prior, t, k);
      }
    }

    lemma Opened()
      requires Valid()
      ensures Nodes() && Sorted(events) && OnePerCell(events)
      ensures Linked(queue, timers) && Linked(free, spare) && Shows(timers, events) && |timers| == |events|
    {
    }

    lemma Closed()
      requires Nodes() && Sorted(events) && OnePerCell(events)
      ensures Valid()
    {
    }

    /** Put a new event behind all that are not later. */
    method Place(time: int, cell: nat)
      requires Valid() && forall i :: 0 <= i < |events| ==> events[i].cell != cell
      modifies this, All()
      ensures Valid() && events == Placed(old(events), Event(time, cell))
      ensures fresh(All() - old(All()))
    {
      PlacedInOrder(events, Event(time, cell));
      hide *;
      Opened();
      var t := Add(time, cell);
      Closed();
    }

    lemma InAll()
      ensures forall t :: t in timers || t in spare ==> t in All()
    {
    }

    method Add(time: int, cell: nat) returns (t: Timer)
      requires Nodes() && Linked(queue, timers) && Shows(timers, events)
      modifies this, All()
      ensures Nodes() && events == Placed(old(events), Event(time, cell))
      ensures fresh(All() - old(All()))
    {
      hide Nodes, Linked, Shows, Placed, Cursor;
      Parts();
      InAll();
      t := Take();
      Parts();
      var prior, next;
      ghost var k;
      prior, next, k := FindLater(queue, time, timers, events);
      CursorIs(prior, next, k, timers);
      PlacedIs(events, k, Event(time, cell));
      ElementsIn(timers, k, t);
      Fill(t, next, time, cell);
      LinkAt(prior, t, k);
    }

    /** Set the timer of a cell, or cancel it (nbClockSetTimer). */
    method SetTimer(time: int, cell: nat)
      requires Valid()
      modifies this, All()
      ensures Valid() && events == AfterSet(old(events), time, cell)
      ensures fresh(All() - old(All()))
    {
      NoneLeft(events, cell);
      hide *;
      Opened();
      SetIs(events, time, cell);
      Cancel(cell);
      ghost var all := All();
      assert all == old(All());
      if time != 0 {
        Place(time, cell);
        assert fresh(All() - all);
      }
    }

    static lemma SetIs(es: seq<Event>, time: int, cell: nat)
      ensures AfterSet(es, time, cell) ==
        if time == 0 then Cancelled(es, cell) else Placed(Cancelled(es, cell), Event(time, cell))
    {
    }

    static lemma NoneLeft(es: seq<Event>, cell: nat)
      requires Sorted(es) && OnePerCell(es)
      ensures var r := Cancelled(es, cell); forall i :: 0 <= i < |r| ==> r[i].cell != cell
    {
      CancelledKeepsOthers(es, cell);
      var r := Cancelled(es, cell);
      forall i | 0 <= i < |r| ensures r[i].cell != cell {
        assert r[i] in r;
      }
    }

    /** Take the first event off the queue. */
    method Pop() returns (e: Event)
      requires Valid() && events != []
      modifies this, All()
      ensures Valid() && e == old(events)[0] && events == old(events)[1..] && All() == old(All())
    {
      hide *;
      First();
      Opened();
      InAll();
      CursorStarts(queue, timers);
      FirstOut(events);
      e := Event(queue.time, queue.cell);
      Unlink(null, queue, 0);
      Closed();
    }

    static lemma FirstOut(es: seq<Event>)
      requires es != []
      ensures es[..0] + es[0 + 1..] == es[1..]
    {
    }

    lemma First()
      requires Valid() && events != []
      ensures queue != null && queue.time == events[0].time && queue.cell == events[0].cell && Linked(queue, timers)
      ensures Sorted(events[1..]) && OnePerCell(events[1..])
    {
    }
  }
}
