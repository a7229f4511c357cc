/** Delay cells of lib/nbcondition.c: conditions that follow their operand only after it has stayed in a state
    for some time. They share the timer queue with time conditions, rules and the objects of modules. */
module Delays {
  import opened Timers
  import opened Values

  /** `~^`, `~^!` and `~^?`: the state of the operand that has to last. Leaving it is followed at once. */
  datatype Kind = WhenTrue | WhenFalse | WhenUnknown

  predicate Waits(kind: Kind, v: Value) {
    match kind
    case WhenTrue => IsTrue(v)
    case WhenFalse => v == False
    case WhenUnknown => v == Unknown
  }

  /** What each kind waits for: a true value, the constant false, the unknown value. */
  lemma WaitsFor(kind: Kind, v: Value)
    ensures kind == WhenTrue ==> (Waits(kind, v) <==> v != False && v != Unknown)
    ensures kind == WhenFalse ==> (Waits(kind, v) <==> v == False)
    ensures kind == WhenUnknown ==> (Waits(kind, v) <==> v == Unknown)
  {
  }

  /** The operand of a delay cell is another delay cell, or any other cell. */
  datatype Operand = Input | Cell(cell: nat)

  /** The delay cells, numbered by level: an operand comes before the cells that subscribe to it. */
  datatype Wiring = Wiring(kind: seq<Kind>, duration: seq<nat>, left: seq<Operand>) {
    predicate Acyclic() {
      && |kind| == |duration| == |left|
      && forall c :: 0 <= c < |left| ==> left[c].Cell? ==> left[c].cell < c
    }
  }

  /** What has happened: a cell was evaluated, or alerted by its timer; another object was alerted by its timer, and has
      published the operands of these cells; or a reaction has ended, with these operands. */
  datatype Step =
    | Evaluated(cell: nat, operand: Value, before: Value, after: Value, now: int)
    | Alarmed(cell: nat, operand: Value, before: Value, after: Value, now: int)
    | Stirred(published: map<nat, Value>, now: int)
    | Reacted(operands: seq<Value>, now: int)

  // -------------------------------------------------------------------------------------------
  // States
  // -------------------------------------------------------------------------------------------

  /** The delay cells with their TIMER and SCHEDULED flags, the values of their other operands, the timer queue, what
      has happened, and the last evaluation of each cell. */
  datatype State = State(value: seq<Value>, timer: seq<bool>, scheduled: seq<bool>, input: seq<Value>,
                         events: seq<Event>, history: seq<Step>, evaluated: seq<nat>)

  predicate Shaped(w: Wiring, st: State) {
    && w.Acyclic()
    && |w.kind| == |st.value| == |st.timer| == |st.scheduled| == |st.input| == |st.evaluated|
  }

  function OperandOf(w: Wiring, st: State, c: nat): Value
    requires Shaped(w, st) && c < |w.kind|
  {
    match w.left[c]
    case Input => st.input[c]
    case Cell(d) => st.value[d]
  }

  function Operands(w: Wiring, st: State): seq<Value>
    requires Shaped(w, st)
  {
    seq(|w.kind|, c requires 0 <= c < |w.kind| => OperandOf(w, st, c))
  }

  /** The schedule after cell `c` was published. */
  function Published(w: Wiring, scheduled: seq<bool>, c: nat): seq<bool>
    requires |w.left| == |scheduled|
  {
    seq(|scheduled|, d requires 0 <= d < |scheduled| => scheduled[d] || w.left[d] == Cell(c))
  }

  /** Evaluating a cell: the operand is followed out of the state that has to last; in it the timer is set anew and the
      value kept. A change is published. */
  function AfterEvaluation(w: Wiring, st: State, c: nat, now: int): State
    requires Shaped(w, st) && c < |w.kind|
  {
    var v := OperandOf(w, st, c);
    var waits := Waits(w.kind[c], v);
    var r := if waits then st.value[c] else v;
    var scheduled := st.scheduled[c := false];
    State(st.value[c := r], st.timer[c := waits],
      if r != st.value[c] then Published(w, scheduled, c) else scheduled, st.input,
      AfterSet(st.events, if waits then now + w.duration[c] else 0, c),
      st.history + [Evaluated(c, v, st.value[c], r, now)], st.evaluated[c := |st.history|])
  }

  /** The alarm of the first timer: its cell follows the operand and publishes. */
  function AfterAlarm(w: Wiring, st: State, now: int): State
    requires Shaped(w, st) && st.events != [] && st.events[0].cell < |w.kind|
  {
    var c := st.events[0].cell;
    var v := OperandOf(w, st, c);
    State(st.value[c := v], st.timer[c := false], Published(w, st.scheduled, c), st.input, st.events[1..],
      st.history + [Alarmed(c, v, st.value[c], v, now)], st.evaluated)
  }

  /** The operand of cell `c`, which is not a delay cell, is published with value `v`. */
  function AfterFeed(w: Wiring, st: State, c: nat, v: Value): State
    requires Shaped(w, st) && c < |w.kind|
  {
    st.(input := st.input[c := v], scheduled := st.scheduled[c := true])
  }

  /** What an object that is not a delay cell may publish. */
  ghost predicate Inputs(w: Wiring, published: map<nat, Value>) {
    forall c :: c in published ==> c < |w.left| && w.left[c].Input?
  }

  /** The operands and the schedule after these values were published. */
  function Fed(input: seq<Value>, published: map<nat, Value>): seq<Value> {
    seq(|input|, c requires 0 <= c < |input| => if c in published then published[c] else input[c])
  }

  function Woken(scheduled: seq<bool>, published: map<nat, Value>): seq<bool> {
    seq(|scheduled|, c requires 0 <= c < |scheduled| => scheduled[c] || c in published)
  }

  /** The first timer is that of another object, which is alerted and publishes. */
  function AfterStir(w: Wiring, st: State, published: map<nat, Value>, now: int): State
    requires Shaped(w, st) && st.events != []
  {
    st.(input := Fed(st.input, published), scheduled := Woken(st.scheduled, published), events := st.events[1..],
        history := st.history + [Stirred(published, now)])
  }

  function AfterReaction(w: Wiring, st: State, now: int): State
    requires Shaped(w, st)
  {
    st.(history := st.history + [Reacted(Operands(w, st), now)])
  }

  // -------------------------------------------------------------------------------------------
  // Soundness
  // -------------------------------------------------------------------------------------------

  predicate OfCell(s: Step) {
    s.Evaluated? || s.Alarmed?
  }

  predicate Of(s: Step, c: nat) {
    OfCell(s) && s.cell == c
  }

  /** Step `j` was the last one of cell `c`; it has set a timer, and at the end of every reaction since then the operand
      had the value that it had seen. */
  ghost predicate Lasted(w: Wiring, past: seq<Step>, c: nat, j: nat) {
    && c < |w.kind| && j < |past| && past[j].Evaluated? && past[j].cell == c
    && Waits(w.kind[c], past[j].operand) && past[j].now > 0
    && (forall k :: j < k < |past| ==> !Of(past[k], c))
    && (forall k :: j < k < |past| && past[k].Reacted? ==>
      c < |past[k].operands| && past[k].operands[c] == past[j].operand)
  }

  /** The last reaction ended with step `r`; since then there have been alarms only. */
  ghost predicate LastReaction(past: seq<Step>, r: nat) {
    r < |past| && past[r].Reacted? && forall k :: r < k < |past| ==> past[k].Alarmed? || past[k].Stirred?
  }

  /** The step was the alarm of the operand of cell `c`, or of an object that has published it. */
  predicate Moves(w: Wiring, s: Step, c: nat) {
    c < |w.left| && match w.left[c] case Cell(d) => Of(s, d) case Input => s.Stirred? && c in s.published
  }

  /** The operand of cell `c` was alerted, or published by an alarm, after step `r`. */
  ghost predicate MovedSince(w: Wiring, past: seq<Step>, r: nat, c: nat) {
    exists k :: r < k < |past| && Moves(w, past[k], c)
  }

  /** The timer that step `j` has set for cell `c` may go off at `now`, when the operand is `v`: a reaction has ended
      since, the operand has lasted, and it can be another one now only by an alarm of the same cycle. */
  ghost predicate Due(w: Wiring, past: seq<Step>, c: nat, v: Value, now: int, j: nat, r: nat)
    requires w.Acyclic()
  {
    && Lasted(w, past, c, j) && LastReaction(past, r) && j < r
    && past[j].now + w.duration[c] <= now
    && (v == past[j].operand || MovedSince(w, past, r, c))
  }

  /** An evaluation follows the operand only out of the state that has to last. An alarm follows it into any state, but
      comes only when it is due. */
  ghost predicate Sound(w: Wiring, past: seq<Step>, s: Step)
    requires w.Acyclic()
  {
    match s
    case Evaluated(c, operand, before, after, _) =>
      c < |w.kind| && after == if Waits(w.kind[c], operand) then before else operand
    case Alarmed(c, operand, _, after, now) =>
      c < |w.kind| && after == operand && exists j: nat, r: nat :: Due(w, past, c, operand, now, j, r)
    case Stirred(published, _) => Inputs(w, published)
    case Reacted(operands, _) => |operands| == |w.kind|
  }

  /** Every step was sound when it came. */
  ghost predicate AllSound(w: Wiring, history: seq<Step>)
    requires w.Acyclic()
  {
    forall i :: 0 <= i < |history| ==> Sound(w, history[..i], history[i])
  }

  lemma SoundWith(w: Wiring, history: seq<Step>, s: Step)
    requires w.Acyclic() && AllSound(w, history) && Sound(w, history, s)
    ensures AllSound(w, history + [s])
  {
    var h := history + [s];
    assert h[..|history|] == history;
    forall i | 0 <= i < |h| ensures Sound(w, h[..i], h[i]) {
      if i < |history| {
        assert h[..i] == history[..i];
      }
    }
  }

  // -------------------------------------------------------------------------------------------
  // The invariant
  // -------------------------------------------------------------------------------------------

  /** The timer of cell `c` goes off when the duration has passed since the evaluation that has set it, and the operand
      has lasted since then. */
  ghost predicate HasTimer(w: Wiring, st: State, c: nat)
    requires Shaped(w, st) && c < |w.kind|
  {
    Lasted(w, st.history, c, st.evaluated[c]) && Event(st.history[st.evaluated[c]].now + w.duration[c], c) in st.events
  }

  /** A cell has a timer in the queue exactly when its flag is set; a timer that was cancelled is not there. */
  ghost predicate Timed(w: Wiring, st: State)
    requires Shaped(w, st)
  {
    && (forall c :: 0 <= c < |w.kind| && st.timer[c] ==> HasTimer(w, st, c))
    && (forall e :: e in st.events && e.cell < |w.kind| ==> st.timer[e.cell])
    && (forall e :: e in st.events ==> e.time != 0)
  }

  /** A cell that is not scheduled has seen its operand as it is, and has its value, unless it has a timer. */
  ghost predicate Current(w: Wiring, st: State, c: nat)
    requires Shaped(w, st) && c < |w.kind|
  {
    !st.scheduled[c] ==>
      && st.evaluated[c] < |st.history| && st.history[st.evaluated[c]].Evaluated?
      && st.history[st.evaluated[c]].operand == OperandOf(w, st, c)
      && (st.timer[c] || st.value[c] == OperandOf(w, st, c))
  }

  ghost predicate InOrder(w: Wiring, st: State) {
    && Shaped(w, st) && Sorted(st.events) && OnePerCell(st.events)
    && Timed(w, st) && (forall c :: 0 <= c < |w.kind| ==> Current(w, st, c)) && AllSound(w, st.history)
  }

  /** A reaction has just ended: nothing is scheduled, and every cell has been evaluated before. */
  ghost predicate Settled(w: Wiring, st: State) {
    && Shaped(w, st)
    && (forall c :: 0 <= c < |w.kind| ==> !st.scheduled[c] && st.evaluated[c] < |st.history| - 1)
    && st.history != [] && st.history[|st.history| - 1].Reacted?
  }

  /** After a reaction, which ended with step `r`, nothing has happened but alarms. */
  ghost predicate Alarming(w: Wiring, st: State, r: nat) {
    && Shaped(w, st)
    && LastReaction(st.history, r)
    && (forall c :: 0 <= c < |w.kind| ==> st.evaluated[c] < r && (st.scheduled[c] ==> MovedSince(w, st.history, r, c)))
  }

  /** In a settled state a cell has its operand's value, or has a timer for an operand in the state that has to last. */
  lemma SettledCellsFollow(w: Wiring, st: State, c: nat)
    requires InOrder(w, st) && Settled(w, st) && c < |w.kind|
    ensures var operand := match w.left[c] case Input => st.input[c] case Cell(d) => st.value[d];
      && (!st.timer[c] ==> st.value[c] == operand)
      && (st.timer[c] && w.kind[c] == WhenTrue ==> operand != False && operand != Unknown)
      && (st.timer[c] && w.kind[c] == WhenFalse ==> operand == False)
      && (st.timer[c] && w.kind[c] == WhenUnknown ==> operand == Unknown)
  {
    assert Current(w, st, c);
  }

  /** What has lasted goes on lasting when another cell steps. */
  lemma StillLasted(w: Wiring, past: seq<Step>, s: Step, c: nat, j: nat)
    requires Lasted(w, past, c, j) && !Of(s, c)
    requires s.Reacted? ==> c < |s.operands| && s.operands[c] == past[j].operand
    ensures Lasted(w, past + [s], c, j) && (past + [s])[j] == past[j]
  {
    var h := past + [s];
    assert forall k :: 0 <= k < |past| ==> h[k] == past[k];
  }

  lemma NowLasts(w: Wiring, past: seq<Step>, s: Step, c: nat)
    requires s.Evaluated? && s.cell == c < |w.kind| && Waits(w.kind[c], s.operand) && s.now > 0
    ensures Lasted(w, past + [s], c, |past|)
  {
  }

  lemma FeedIsGood(w: Wiring, st: State, c: nat, v: Value)
    requires InOrder(w, st) && c < |w.kind| && w.left[c].Input?
    ensures InOrder(w, AfterFeed(w, st, c, v))
  {
    var st' := AfterFeed(w, st, c, v);
    forall d | 0 <= d < |w.kind| ensures Current(w, st', d) {
      assert Current(w, st, d);
    }
  }

  lemma EvaluationIsGood(w: Wiring, st: State, c: nat, now: int)
    requires InOrder(w, st) && c < |w.kind| && now > 0
    ensures InOrder(w, AfterEvaluation(w, st, c, now))
  {
    hide Shaped, Sorted, OnePerCell, Waits, AllSound, Sound, Current, Timed, OperandOf, Published, AfterEvaluation;
    EvaluationIsSound(w, st, c, now);
    EvaluationKeepsTimers(w, st, c, now);
    EvaluationKeepsValues(w, st, c, now);
  }

  lemma EvaluationIsSound(w: Wiring, st: State, c: nat, now: int)
    requires InOrder(w, st) && c < |w.kind|
    ensures var st' := AfterEvaluation(w, st, c, now);
      Shaped(w, st') && Sorted(st'.events) && OnePerCell(st'.events) && AllSound(w, st'.history)
  {
    var s := AfterEvaluation(w, st, c, now).history[|st.history|];
    assert Sound(w, st.history, s);
    hide Sorted, OnePerCell, AfterSet, Waits, AllSound, Sound, Current, Timed, OperandOf;
    AfterSetInOrder(st.events, if Waits(w.kind[c], s.operand) then now + w.duration[c] else 0, c);
    SoundWith(w, st.history, s);
  }

  /** A step of cell `c` that has its own timer in order leaves the timers of the other cells in order. */
  lemma StepKeepsTimers(w: Wiring, st: State, st': State, s: Step, c: nat)
    requires Shaped(w, st) && Shaped(w, st') && Timed(w, st) && c < |w.kind| && Of(s, c)
    requires st'.history == st.history + [s]
    requires st'.timer == st.timer[c := st'.timer[c]] && st'.evaluated == st.evaluated[c := st'.evaluated[c]]
    requires forall e :: e in st'.events && e.cell != c <==> e in st.events && e.cell != c
    requires forall e :: e in st'.events && e.cell == c ==> st'.timer[c] && e.time != 0
    requires st'.timer[c] ==> HasTimer(w, st', c)
    ensures Timed(w, st')
  {
    hide Lasted;
    forall d | 0 <= d < |w.kind| && st'.timer[d] ensures HasTimer(w, st', d) {
      if d != c {
        assert HasTimer(w, st, d);
        StillLasted(w, st.history, s, d, st.evaluated[d]);
      }
    }
  }

  lemma EvaluationKeepsTimers(w: Wiring, st: State, c: nat, now: int)
    requires InOrder(w, st) && c < |w.kind| && now > 0
    ensures Shaped(w, AfterEvaluation(w, st, c, now)) && Timed(w, AfterEvaluation(w, st, c, now))
  {
    var st' := AfterEvaluation(w, st, c, now);
    var s := st'.history[|st.history|];
    AfterSetHas(st.events, if Waits(w.kind[c], s.operand) then now + w.duration[c] else 0, c);
    if st'.timer[c] {
      NowLasts(w, st.history, s, c);
    }
    hide Sorted, OnePerCell, AfterSet, AllSound, Current, OperandOf, Published, Lasted, Waits, Timed;
    StepKeepsTimers(w, st, st', s, c);
  }

  lemma EvaluationKeepsValues(w: Wiring, st: State, c: nat, now: int)
    requires InOrder(w, st) && c < |w.kind|
    ensures Shaped(w, AfterEvaluation(w, st, c, now))
    ensures forall d :: 0 <= d < |w.kind| ==> Current(w, AfterEvaluation(w, st, c, now), d)
  {
    var st' := AfterEvaluation(w, st, c, now);
    hide Sorted, OnePerCell, AfterSet, Waits, AllSound, Timed;
    forall d | 0 <= d < |w.kind| ensures Current(w, st', d) {
      assert Current(w, st, d);
    }
  }

  lemma ReactionIsGood(w: Wiring, st: State, now: int)
    requires InOrder(w, st) && forall c :: 0 <= c < |w.kind| ==> !st.scheduled[c]
    ensures InOrder(w, AfterReaction(w, st, now)) && Settled(w, AfterReaction(w, st, now))
  {
    var st' := AfterReaction(w, st, now);
    var s := st'.history[|st.history|];
    SoundWith(w, st.history, s);
    hide Sorted, OnePerCell, Waits, AllSound;
    forall c | 0 <= c < |w.kind|
      ensures Current(w, st', c) && st'.evaluated[c] < |st.history|
      ensures st.timer[c] ==> HasTimer(w, st', c)
    {
      assert Current(w, st, c);
      if st.timer[c] {
        StillLasted(w, st.history, s, c, st.evaluated[c]);
      }
    }
  }

  /** The first timer, while nothing but alarms has happened since the last reaction, is due when its time has come. */
  lemma FirstIsDue(w: Wiring, st: State, now: int, r: nat)
    requires InOrder(w, st) && Alarming(w, st, r) && st.events != [] && st.events[0].time <= now
    requires st.events[0].cell < |w.kind|
    ensures var c := st.events[0].cell; Due(w, st.history, c, OperandOf(w, st, c), now, st.evaluated[c], r)
  {
    assert st.events[0] in st.events;
    var c := st.events[0].cell;
    assert HasTimer(w, st, c) && Current(w, st, c);
    assert Event(st.history[st.evaluated[c]].now + w.duration[c], c) == st.events[0];
  }

  lemma AlarmIsGood(w: Wiring, st: State, now: int, r: nat)
    requires InOrder(w, st) && Alarming(w, st, r) && st.events != [] && st.events[0].time <= now
    requires st.events[0].cell < |w.kind|
    ensures InOrder(w, AfterAlarm(w, st, now)) && Alarming(w, AfterAlarm(w, st, now), r)
  {
    FirstIsDue(w, st, now, r);
    var st', c := AfterAlarm(w, st, now), st.events[0].cell;
    SoundWith(w, st.history, st'.history[|st.history|]);
    AlarmKeepsTimers(w, st, now);
    AlarmKeepsValues(w, st, now);
    AlarmKeepsAlarming(w, st, now, r);
  }

  lemma FirstOff(es: seq<Event>)
    requires es != [] && OnePerCell(es)
    ensures forall e :: e in es[1..] <==> e in es && e.cell != es[0].cell
  {
    assert es == [es[0]] + es[1..];
  }

  lemma AlarmKeepsTimers(w: Wiring, st: State, now: int)
    requires InOrder(w, st) && st.events != [] && st.events[0].cell < |w.kind|
    ensures Timed(w, AfterAlarm(w, st, now))
  {
    FirstOff(st.events);
    hide Sorted, OnePerCell, Waits, AllSound, Current, OperandOf, Published, Timed;
    var st' := AfterAlarm(w, st, now);
    StepKeepsTimers(w, st, st', st'.history[|st.history|], st.events[0].cell);
  }

  lemma AlarmKeepsValues(w: Wiring, st: State, now: int)
    requires InOrder(w, st) && st.events != [] && st.events[0].cell < |w.kind|
    ensures forall d :: 0 <= d < |w.kind| ==> Current(w, AfterAlarm(w, st, now), d)
  {
    var st' := AfterAlarm(w, st, now);
    hide Sorted, OnePerCell, Waits, AllSound, Timed;
    forall d | 0 <= d < |w.kind| ensures Current(w, st', d) {
      assert Current(w, st, d);
    }
  }

  lemma AlarmKeepsAlarming(w: Wiring, st: State, now: int, r: nat)
    requires Shaped(w, st) && Alarming(w, st, r) && st.events != [] && st.events[0].cell < |w.kind|
    ensures Alarming(w, AfterAlarm(w, st, now), r)
  {
    var st' := AfterAlarm(w, st, now);
    var s := st'.history[|st.history|];
    assert forall k :: 0 <= k < |st.history| ==> st'.history[k] == st.history[k];
    forall d | 0 <= d < |w.kind| && st'.scheduled[d] ensures MovedSince(w, st'.history, r, d) {
      if st.scheduled[d] {
        StillMoved(w, st.history, s, r, d);
      } else {
        assert Moves(w, st'.history[|st.history|], d);
      }
    }
  }

  lemma StillMoved(w: Wiring, past: seq<Step>, s: Step, r: nat, c: nat)
    requires MovedSince(w, past, r, c)
    ensures MovedSince(w, past + [s], r, c)
  {
    var k :| r < k < |past| && Moves(w, past[k], c);
    assert Moves(w, (past + [s])[k], c);
  }

  /** Another object is alerted. */
  lemma StirIsGood(w: Wiring, st: State, published: map<nat, Value>, now: int, r: nat)
    requires InOrder(w, st) && Alarming(w, st, r) && st.events != [] && st.events[0].cell >= |w.kind|
    requires Inputs(w, published)
    ensures InOrder(w, AfterStir(w, st, published, now)) && Alarming(w, AfterStir(w, st, published, now), r)
  {
    SoundWith(w, st.history, Stirred(published, now));
    StirKeepsTimers(w, st, published, now);
    StirKeepsValues(w, st, published, now);
    StirKeepsAlarming(w, st, published, now, r);
  }

  lemma StirKeepsTimers(w: Wiring, st: State, published: map<nat, Value>, now: int)
    requires InOrder(w, st) && st.events != [] && st.events[0].cell >= |w.kind|
    ensures Timed(w, AfterStir(w, st, published, now))
  {
    FirstOff(st.events);
    hide Sorted, OnePerCell, Waits, AllSound, Current, OperandOf, Lasted;
    var st' := AfterStir(w, st, published, now);
    forall d | 0 <= d < |w.kind| && st'.timer[d] ensures HasTimer(w, st', d) {
      assert HasTimer(w, st, d);
      StillLasted(w, st.history, Stirred(published, now), d, st.evaluated[d]);
    }
  }

  lemma StirKeepsValues(w: Wiring, st: State, published: map<nat, Value>, now: int)
    requires InOrder(w, st) && st.events != []
    ensures forall d :: 0 <= d < |w.kind| ==> Current(w, AfterStir(w, st, published, now), d)
  {
    var st' := AfterStir(w, st, published, now);
    hide Sorted, OnePerCell, Waits, AllSound, Timed;
    forall d | 0 <= d < |w.kind| ensures Current(w, st', d) {
      assert Current(w, st, d);
    }
  }

  lemma StirKeepsAlarming(w: Wiring, st: State, published: map<nat, Value>, now: int, r: nat)
    requires Shaped(w, st) && Alarming(w, st, r) && st.events != [] && Inputs(w, published)
    ensures Alarming(w, AfterStir(w, st, published, now), r)
  {
    var st', s := AfterStir(w, st, published, now), Stirred(published, now);
    assert forall k :: 0 <= k < |st.history| ==> st'.history[k] == st.history[k];
    forall d | 0 <= d < |w.kind| && st'.scheduled[d] ensures MovedSince(w, st'.history, r, d) {
      if st.scheduled[d] {
        StillMoved(w, st.history, s, r, d);
      } else {
        assert Moves(w, st'.history[|st.history|], d);
      }
    }
  }

  /** Another object sets its timer, or cancels it. */
  lemma SettingIsGood(w: Wiring, st: State, time: int, cell: nat)
    requires InOrder(w, st) && cell >= |w.kind|
    ensures InOrder(w, st.(events := AfterSet(st.events, time, cell)))
  {
    var st' := st.(events := AfterSet(st.events, time, cell));
    AfterSetHas(st.events, time, cell);
    AfterSetInOrder(st.events, time, cell);
    hide Sorted, OnePerCell, AfterSet, Waits, AllSound, Lasted;
    forall d | 0 <= d < |w.kind| ensures Current(w, st', d) && (st'.timer[d] ==> HasTimer(w, st', d)) {
      assert Current(w, st, d) && (st.timer[d] ==> HasTimer(w, st, d));
    }
  }

  lemma AfterSetInOrder(es: seq<Event>, time: int, cell: nat)
    requires Sorted(es) && OnePerCell(es)
    ensures Sorted(AfterSet(es, time, cell)) && OnePerCell(AfterSet(es, time, cell))
  {
    CancelledKeepsOthers(es, cell);
    if time != 0 {
      PlacedInOrder(Cancelled(es, cell), Event(time, cell));
    }
  }

  // -------------------------------------------------------------------------------------------
  // Runs
  // -------------------------------------------------------------------------------------------

  /** What the engine does, and what the world does to it: another cell publishes, a delay cell is evaluated, a reaction
      ends, or the first timer goes off, which is that of a delay cell or of another object; another object sets its
      timer. */
  datatype Action =
    | Feed(cell: nat, value: Value)
    | Evaluate(cell: nat, now: int)
    | EndReaction(now: int)
    | Alarm(now: int)
    | Stir(published: map<nat, Value>, now: int)
    | SetTimer(time: int, cell: nat)

  /** A reaction ends when nothing is scheduled. Alarms follow a reaction, and one another: what was published by
      anything but an alarm is evaluated before the next alarm. */
  ghost predicate Possible(w: Wiring, st: State, a: Action) {
    Shaped(w, st) &&
    match a
    case Feed(c, _) => c < |w.kind| && w.left[c].Input?
    case Evaluate(c, now) => c < |w.kind| && now > 0
    case EndReaction(_) => forall c :: 0 <= c < |w.kind| ==> !st.scheduled[c]
    case Alarm(now) =>
      && st.events != [] && st.events[0].cell < |w.kind| && st.events[0].time <= now
      && exists r :: Alarming(w, st, r)
    case Stir(published, now) =>
      && st.events != [] && st.events[0].cell >= |w.kind| && st.events[0].time <= now && Inputs(w, published)
      && exists r :: Alarming(w, st, r)
    case SetTimer(_, cell) => cell >= |w.kind|
  }

  ghost function Next(w: Wiring, st: State, a: Action): State
    requires Possible(w, st, a)
  {
    match a
    case Feed(c, v) => AfterFeed(w, st, c, v)
    case Evaluate(c, now) => AfterEvaluation(w, st, c, now)
    case EndReaction(now) => AfterReaction(w, st, now)
    case Alarm(now) => AfterAlarm(w, st, now)
    case Stir(published, now) => AfterStir(w, st, published, now)
    case SetTimer(time, cell) => st.(events := AfterSet(st.events, time, cell))
  }

  /** The run leads from one state to another. */
  ghost predicate Runs(w: Wiring, st: State, run: seq<Action>, st': State)
    decreases |run|
  {
    if run == [] then st == st' else Possible(w, st, run[0]) && Runs(w, Next(w, st, run[0]), run[1..], st')
  }

  /** New cells, which wait for their first evaluation. */
  function Start(w: Wiring): State
    requires w.Acyclic()
  {
    var n := |w.kind|;
    State(seq(n, c => Unknown), seq(n, c => false), seq(n, c => true), seq(n, c => Unknown), [], [], seq(n, c => 0))
  }

  lemma NextIsGood(w: Wiring, st: State, a: Action)
    requires InOrder(w, st) && Possible(w, st, a)
    ensures InOrder(w, Next(w, st, a))
  {
    hide InOrder, AfterFeed, AfterEvaluation, AfterReaction, AfterAlarm, AfterStir, AfterSet, Alarming, Inputs;
    match a
    case Feed(c, v) => FeedIsGood(w, st, c, v);
    case Evaluate(c, now) => EvaluationIsGood(w, st, c, now);
    case EndReaction(now) => ReactionIsGood(w, st, now);
    case Alarm(now) =>
      var r :| Alarming(w, st, r);
      AlarmIsGood(w, st, now, r);
    case Stir(published, now) =>
      var r :| Alarming(w, st, r);
      StirIsGood(w, st, published, now, r);
    case SetTimer(time, cell) => SettingIsGood(w, st, time, cell);
  }

  lemma {:induction false} RunIsGood(w: Wiring, st: State, run: seq<Action>, st': State)
    requires InOrder(w, st) && Runs(w, st, run, st')
    ensures InOrder(w, st')
    decreases |run|
  {
    hide InOrder, Possible, Next;
    if run == [] {
    } else {
      NextIsGood(w, st, run[0]);
      RunIsGood(w, Next(w, st, run[0]), run[1..], st');
    }
  }

  /** Step `i` is an alarm of a cell, whose operand is in the given state; the cell was last evaluated with the operand
      in that state, at least the duration ago; and the operand was in it at the end of every reaction since then, of
      which there is one at least. */
  ghost predicate EntersWhile(w: Wiring, history: seq<Step>, i: nat, holds: Value -> bool)
    requires i < |history| && OfCell(history[i]) && w.Acyclic() && history[i].cell < |w.kind|
  {
    var s := history[i];
    && s.Alarmed? && holds(s.operand)
    && exists j: nat ::
         && j < i && history[j].Evaluated? && history[j].cell == s.cell && holds(history[j].operand)
         && history[j].now + w.duration[s.cell] <= s.now
         && (forall k :: j < k < i ==> !Of(history[k], s.cell))
         && (forall k :: j < k < i && history[k].Reacted? ==>
               s.cell < |history[k].operands| && holds(history[k].operands[s.cell]))
         && (exists k :: j < k < i && history[k].Reacted?)
  }

  /** The cell comes into the state that it waits for. */
  ghost predicate EntersInTurn(w: Wiring, history: seq<Step>, i: nat)
    requires i < |history| && OfCell(history[i]) && w.Acyclic() && history[i].cell < |w.kind|
  {
    EntersWhile(w, history, i, v => Waits(w.kind[history[i].cell], v))
  }

  lemma SoundEntersInTurn(w: Wiring, history: seq<Step>, i: nat)
    requires i < |history| && OfCell(history[i]) && w.Acyclic() && history[i].cell < |w.kind|
    requires Sound(w, history[..i], history[i])
    requires !Waits(w.kind[history[i].cell], history[i].before) && Waits(w.kind[history[i].cell], history[i].after)
    ensures EntersInTurn(w, history, i)
  {
    var past, s := history[..i], history[i];
    var j: nat, r: nat :| Due(w, past, s.cell, s.operand, s.now, j, r);
    assert forall k :: 0 <= k < i ==> past[k] == history[k];
    assert history[r].Reacted?;
  }

  /** In every run, a delay cell comes into the state that it waits for in turn only. */
  lemma EntersByAlarmOnly(w: Wiring, run: seq<Action>, st: State, i: nat)
    requires w.Acyclic() && Runs(w, Start(w), run, st)
    requires i < |st.history| && OfCell(st.history[i]) && st.history[i].cell < |w.kind|
    requires !Waits(w.kind[st.history[i].cell], st.history[i].before)
    requires Waits(w.kind[st.history[i].cell], st.history[i].after)
    ensures EntersInTurn(w, st.history, i)
  {
    RunIsGood(w, Start(w), run, st);
    SoundEntersInTurn(w, st.history, i);
  }

  lemma EntersWhileAlike(w: Wiring, history: seq<Step>, i: nat, f: Value -> bool, g: Value -> bool)
    requires i < |history| && OfCell(history[i]) && w.Acyclic() && history[i].cell < |w.kind|
    requires EntersWhile(w, history, i, f) && forall v :: f(v) == g(v)
    ensures EntersWhile(w, history, i, g)
  {
    var s := history[i];
    var j: nat :|
      && j < i && history[j].Evaluated? && history[j].cell == s.cell && f(history[j].operand)
      && history[j].now + w.duration[s.cell] <= s.now
      && (forall k :: j < k < i ==> !Of(history[k], s.cell))
      && (forall k :: j < k < i && history[k].Reacted? ==>
            s.cell < |history[k].operands| && f(history[k].operands[s.cell]))
      && (exists k :: j < k < i && history[k].Reacted?);
    assert g(history[j].operand);
  }

  /** Operator by operator, in every run. `~^`: from false or unknown to a true value by an alarm only, while the
      operand was true; a false or unknown operand is followed at once. The others in the same way. */
  lemma EachKindInTurn(w: Wiring, run: seq<Action>, st: State, i: nat)
    requires w.Acyclic() && Runs(w, Start(w), run, st)
    requires i < |st.history| && OfCell(st.history[i]) && st.history[i].cell < |w.kind|
    ensures var s, kind := st.history[i], w.kind[st.history[i].cell];
      && (kind == WhenTrue && (s.before == False || s.before == Unknown) && s.after != False && s.after != Unknown ==>
            EntersWhile(w, st.history, i, v => v != False && v != Unknown))
      && (kind == WhenFalse && s.before != False && s.after == False ==>
            EntersWhile(w, st.history, i, v => v == False))
      && (kind == WhenUnknown && s.before != Unknown && s.after == Unknown ==>
            EntersWhile(w, st.history, i, v => v == Unknown))
    ensures var s, kind := st.history[i], w.kind[st.history[i].cell];
      s.Evaluated? ==>
        && (kind == WhenTrue ==> s.after == if s.operand == False || s.operand == Unknown then s.operand else s.before)
        && (kind == WhenFalse ==> s.after == if s.operand == False then s.before else s.operand)
        && (kind == WhenUnknown ==> s.after == if s.operand == Unknown then s.before else s.operand)
  {
    RunIsGood(w, Start(w), run, st);
    var s, kind := st.history[i], w.kind[st.history[i].cell];
    assert Sound(w, st.history[..i], s);
    forall v ensures kind == WhenTrue ==> (Waits(kind, v) <==> v != False && v != Unknown)
      ensures kind == WhenFalse ==> (Waits(kind, v) <==> v == False)
      ensures kind == WhenUnknown ==> (Waits(kind, v) <==> v == Unknown)
    {
      WaitsFor(kind, v);
    }
    hide Waits, InOrder, EntersWhile;
    if !Waits(kind, s.before) && Waits(kind, s.after) {
      SoundEntersInTurn(w, st.history, i);
      var waits := v => Waits(kind, v);
      match kind
      case WhenTrue => EntersWhileAlike(w, st.history, i, waits, v => v != False && v != Unknown);
      case WhenFalse => EntersWhileAlike(w, st.history, i, waits, v => v == False);
      case WhenUnknown => EntersWhileAlike(w, st.history, i, waits, v => v == Unknown);
    }
  }

  /** And it comes there in time: when a reaction has ended and its timer is not due, a cell that was last evaluated at
      least the duration ago has its operand's value. */
  lemma EntersInTime(w: Wiring, run: seq<Action>, st: State, now: int, c: nat)
    requires w.Acyclic() && Runs(w, Start(w), run, st) && Settled(w, st) && c < |w.kind|
    requires forall e :: e in st.events && e.cell == c ==> e.time > now
    requires st.history[st.evaluated[c]].now + w.duration[c] <= now
    ensures st.value[c] == OperandOf(w, st, c)
  {
    RunIsGood(w, Start(w), run, st);
    assert Current(w, st, c);
    TimerOf(w, st, c);
  }

  lemma TimerOf(w: Wiring, st: State, c: nat)
    requires InOrder(w, st) && c < |w.kind|
    ensures st.timer[c] ==>
      && st.evaluated[c] < |st.history| && st.history[st.evaluated[c]].Evaluated?
      && Event(st.history[st.evaluated[c]].now + w.duration[c], c) in st.events
  {
    if st.timer[c] {
      assert HasTimer(w, st, c);
    }
  }

  // -------------------------------------------------------------------------------------------
  // The cells
  // -------------------------------------------------------------------------------------------

  /** The alarm of an object: a delay cell, or another one, which publishes what is given for it. */
  ghost predicate AlarmOf(s: Step, other: nat, cells: nat, published: nat -> map<nat, Value>) {
    if other < cells then s.Alarmed? && s.cell == other else s.Stirred? && s.published == published(other)
  }

  /** From step `n` on, the objects are alerted in this order, and nothing else happens. */
  ghost predicate AlarmsOf(history: seq<Step>, n: nat, alerted: seq<nat>, cells: nat,
                           published: nat -> map<nat, Value>) {
    && |history| == n + |alerted|
    && forall i :: n <= i < |history| ==> AlarmOf(history[i], alerted[i - n], cells, published)
  }

  lemma NextAlarm(history: seq<Step>, n: nat, alerted: seq<nat>, cells: nat, published: nat -> map<nat, Value>, s: Step,
                  other: nat)
    requires AlarmsOf(history, n, alerted, cells, published) && AlarmOf(s, other, cells, published)
    ensures AlarmsOf(history + [s], n, alerted + [other], cells, published)
  {
    hide AlarmOf;
    assert forall i :: 0 <= i < |history| ==> (history + [s])[i] == history[i];
  }

  /** From step `n` on, cells numbered below `c` are evaluated, each at most once and in their order. */
  ghost predicate EvaluationsBelow(history: seq<Step>, n: nat, c: nat) {
    && n <= |history|
    && (forall i :: n <= i < |history| ==> history[i].Evaluated? && history[i].cell < c)
    && (forall i, j :: n <= i < j < |history| ==> history[i].cell < history[j].cell)
  }

  lemma NextEvaluation(history: seq<Step>, n: nat, s: Step)
    requires s.Evaluated? && EvaluationsBelow(history, n, s.cell)
    ensures EvaluationsBelow(history + [s], n, s.cell + 1)
  {
    assert forall i :: 0 <= i < |history| ==> (history + [s])[i] == history[i];
  }

  class Network {
    const clock: Clock
    const wiring: Wiring
    var value: seq<Value>
    var input: seq<Value>
    /** The TIMER flags. */
    var timer: seq<bool>
    /** The SCHEDULED flags. */
    var scheduled: seq<bool>
    var now: int
    ghost var history: seq<Step>
    /** The last evaluation of each cell. */
    ghost var evaluated: seq<nat>

    ghost function View(): State
      reads this, clock
    {
      State(value, timer, scheduled, input, clock.events, history, evaluated)
    }

    ghost predicate Valid()
      reads this, clock, clock.timers, clock.spare
    {
      clock.Valid() && InOrder(wiring, View()) && now > 0
    }

    /** Everything that was published has been evaluated. */
    ghost predicate IsSettled()
      reads this, clock, clock.timers, clock.spare
    {
      Valid() && Settled(wiring, View())
    }

    constructor (clock: Clock, wiring: Wiring, now: int)
      requires clock.Valid() && clock.events == [] && wiring.Acyclic() && now > 0
      ensures Valid() && View() == Start(wiring) && this.clock == clock && this.wiring == wiring && this.now == now
    {
      this.clock, this.wiring, this.now := clock, wiring, now;
      var n := |wiring.kind|;
      value, input := seq(n, i => Unknown), seq(n, i => Unknown);
      timer, scheduled := seq(n, i => false), seq(n, i => true);
      history, evaluated := [], seq(n, i => 0);
    }

    /** Whatever was done to the cells, they have come into the state that they wait for in turn only. */
    lemma HasEnteredInTurn(i: nat)
      requires Valid() && i < |history| && OfCell(history[i]) && history[i].cell < |wiring.kind|
      requires !Waits(wiring.kind[history[i].cell], history[i].before)
      requires Waits(wiring.kind[history[i].cell], history[i].after)
      ensures EntersInTurn(wiring, history, i)
    {
      SoundEntersInTurn(wiring, history, i);
    }

    /** In every reachable state a cell has its flag exactly when it has a timer, and then just one, and the timers
        are in order. */
    lemma FlagMeansTimer(c: nat)
      requires Valid() && c < |timer|
      ensures timer[c] <==> exists e :: e in clock.events && e.cell == c
      ensures forall i, j :: 0 <= i < j < |clock.events| ==>
        clock.events[i].time <= clock.events[j].time && clock.events[i].cell != clock.events[j].cell
    {
      if timer[c] {
        assert HasTimer(wiring, View(), c);
        var e := Event(history[evaluated[c]].now + wiring.duration[c], c);
        assert e in clock.events && e.cell == c;
      }
    }

    lemma Opened()
      requires Valid()
      ensures clock.Valid() && now > 0 && InOrder(wiring, View()) && Shaped(wiring, View())
      ensures Sorted(clock.events) && OnePerCell(clock.events)
      ensures |wiring.kind| == |wiring.duration| == |wiring.left| == |value| == |timer| == |scheduled| == |input|
      ensures |wiring.kind| == |evaluated|
    {
    }

    /** The clock is read. */
    method Tick(now: int)
      requires Valid() && now > 0
      modifies this`now
      ensures Valid() && this.now == now && View() == old(View())
    {
      hide InOrder;
      this.now := now;
    }

    /** The operand of cell `c`, which is not a delay cell, is published. */
    method Feed(c: nat, v: Value)
      requires Valid() && c < |wiring.left| && wiring.left[c].Input?
      modifies this`input, this`scheduled
      ensures Valid() && View() == AfterFeed(wiring, old(View()), c, v)
      ensures input == old(input)[c := v] && scheduled == old(scheduled)[c := true]
    {
      FeedIsGood(wiring, View(), c, v);
      hide InOrder;
      input := input[c := v];
      scheduled := scheduled[c := true];
    }

    function Operand(c: nat): (v: Value)
      requires Shaped(wiring, View()) && c < |wiring.kind|
      reads this, clock
      ensures v == OperandOf(wiring, View(), c)
    {
      match wiring.left[c]
      case Input => input[c]
      case Cell(d) => value[d]
    }

    /** Schedule the subscribers of a cell. */
    method Publish(c: nat)
      requires |wiring.left| == |scheduled|
      modifies this`scheduled
      ensures scheduled == Published(wiring, old(scheduled), c)
    {
      for d := 0 to |wiring.left|
        invariant |scheduled| == |old(scheduled)|
        invariant forall k :: 0 <= k < d ==> scheduled[k] == (old(scheduled)[k] || wiring.left[k] == Cell(c))
        invariant forall k :: d <= k < |scheduled| ==> scheduled[k] == old(scheduled)[k]
      {
        if wiring.left[d] == Cell(c) {
          scheduled := scheduled[d := true];
        }
      }
    }

    lemma NotQueued(c: nat)
      requires Valid() && c < |timer|
      ensures !timer[c] ==> AfterSet(clock.events, 0, c) == clock.events
    {
      if !timer[c] {
        CancelledIs(clock.events, |clock.events|, c);
      }
    }

    /** The new value of a cell; its timer is set or cancelled (evalDelayTrue, evalDelayFalse, evalDelayUnknown). */
    method EvalDelay(c: nat) returns (r: Value, ghost v: Value)
      requires Valid() && c < |wiring.kind| == |value| == |timer| == |wiring.duration| && Shaped(wiring, View())
      modifies this`timer, clock, clock.All()
      ensures v == old(OperandOf(wiring, View(), c))
      ensures clock.Valid() && r == if Waits(wiring.kind[c], v) then value[c] else v
      ensures timer == old(timer)[c := Waits(wiring.kind[c], v)]
      ensures clock.events ==
        AfterSet(old(clock.events), if Waits(wiring.kind[c], v) then now + wiring.duration[c] else 0, c)
      ensures wiring.kind[c] == WhenTrue ==>
        if v == False || v == Unknown then r == v && !timer[c] else r == value[c] && timer[c]
      ensures wiring.kind[c] == WhenFalse ==> if v == False then r == value[c] && timer[c] else r == v && !timer[c]
      ensures wiring.kind[c] == WhenUnknown ==> if v == Unknown then r == value[c] && timer[c] else r == v && !timer[c]
      ensures timer[c] <==> Event(now + wiring.duration[c], c) in clock.events
      ensures fresh(clock.All() - old(clock.All()))
    {
      hide *;
      Opened();
      NotQueued(c);
      var operand := Operand(c);
      v := operand;
      WaitsFor(wiring.kind[c], v);
      AfterSetHas(clock.events, if Waits(wiring.kind[c], v) then now + wiring.duration[c] else 0, c);
      ghost var all := clock.All();
      if !Waits(wiring.kind[c], operand) {
        if timer[c] {
          clock.SetTimer(0, c);
          assert fresh(clock.All() - all);
          timer := timer[c := false];
        } else {
          assert clock.All() - all == {};
          assert timer == timer[c := false];
        }
        r := operand;
      } else {
        clock.SetTimer(now + wiring.duration[c], c);
        assert fresh(clock.All() - all);
        timer := timer[c := true];
        r := value[c];
      }
    }

    /** The fields make up this state. */
    lemma Closed(st: State)
      requires clock.Valid() && InOrder(wiring, st) && now > 0
      requires value == st.value && timer == st.timer && scheduled == st.scheduled && input == st.input
      requires clock.events == st.events && history == st.history && evaluated == st.evaluated
      ensures Valid() && View() == st
    {
    }

    lemma EvaluationIs(c: nat)
      requires Valid() && c < |wiring.kind| == |value| == |timer| == |wiring.duration| && Shaped(wiring, View())
      ensures var v := OperandOf(wiring, View(), c);
        var waits := Waits(wiring.kind[c], v);
        var r, st := if waits then value[c] else v, AfterEvaluation(wiring, View(), c, now);
        && InOrder(wiring, st) && st.value == value[c := r] && st.timer == timer[c := waits] && st.input == input
        && |wiring.left| == |scheduled| == |wiring.kind| && |st.evaluated| == |evaluated|
        && st.scheduled
          == (if r != value[c] then Published(wiring, scheduled[c := false], c) else scheduled[c := false])
        && st.events == AfterSet(clock.events, if waits then now + wiring.duration[c] else 0, c)
    {
      EvaluationIsGood(wiring, View(), c, now);
    }

    /** Evaluate a cell that is scheduled (one round of the loop in nbCellReact). */
    method Evaluate(c: nat)
      requires Valid() && c < |wiring.kind|
      modifies this`timer, this`value, this`scheduled, this`history, this`evaluated, clock, clock.All()
      ensures Valid() && View() == AfterEvaluation(wiring, old(View()), c, now)
      ensures fresh(clock.All() - old(clock.All()))
    {
      hide *;
      Opened();
      EvaluationIs(c);
      ghost var st := AfterEvaluation(wiring, View(), c, now);
      ghost var v;
      var r;
      r, v := EvalDelay(c);
      scheduled := scheduled[c := false];
      if r != value[c] {
        value := value[c := r];
        Publish(c);
      }
      history, evaluated := st.history, st.evaluated;
      Closed(st);
    }

    /** The turn of cell `c` in a reaction: its operand, if that is not a delay cell, may have been published. */
    method Turn(c: nat, published: map<nat, Value>, ghost n: nat)
      requires Valid() && c < |wiring.kind| == |wiring.left| == |input| == |scheduled| && Inputs(wiring, published)
      requires (forall d :: 0 <= d < c ==> !scheduled[d]) && EvaluationsBelow(history, n, c)
      modifies this`timer, this`value, this`input, this`scheduled, this`history, this`evaluated, clock, clock.All()
      ensures Valid() && |scheduled| == |wiring.kind| && (forall d :: 0 <= d <= c ==> !scheduled[d])
      ensures EvaluationsBelow(history, n, c + 1) && old(history) <= history
      ensures input == if c in published then old(input)[c := published[c]] else old(input)
      ensures forall t :: t in clock.All() ==> t in old(clock.All()) || fresh(t)
    {
      hide InOrder, Sorted, OnePerCell, AfterSet, Waits, OperandOf;
      if c in published {
        Feed(c, published[c]);
      }
      Opened();
      ghost var st := View();
      if scheduled[c] {
        Evaluate(c);
        NextEvaluation(st.history, n, history[|history| - 1]);
      }
    }

    /** A reaction: the cells that are scheduled are evaluated by level, and each when its operand is final. The other
        operands that change in this reaction are `published`. */
    method React(published: map<nat, Value>)
      requires Valid() && Inputs(wiring, published)
      modifies this`timer, this`value, this`input, this`scheduled, this`history, this`evaluated, clock, clock.All()
      ensures IsSettled() && fresh(clock.All() - old(clock.All()))
      ensures old(history) <= history && history[|history| - 1] == Reacted(Operands(wiring, View()), now)
      ensures EvaluationsBelow(history[..|history| - 1], |old(history)|, |wiring.kind|)
      ensures |input| == |old(input)|
      ensures forall c :: 0 <= c < |input| ==> input[c] == if c in published then published[c] else old(input)[c]
    {
      hide *;
      Opened();
      NoEvaluations(history);
      for c := 0 to |wiring.kind|
        invariant Valid() && forall t :: t in clock.All() ==> t in old(clock.All()) || fresh(t)
        invariant |scheduled| == |wiring.kind| && forall d :: 0 <= d < c ==> !scheduled[d]
        invariant EvaluationsBelow(history, |old(history)|, c) && old(history) <= history
        invariant |input| == |old(input)| && forall d :: c <= d < |input| ==> input[d] == old(input)[d]
        invariant forall d :: 0 <= d < c ==> input[d] == if d in published then published[d] else old(input)[d]
      {
        Opened();
        Turn(c, published, |old(history)|);
      }
      Opened();
      ghost var st := ReactionIs();
      history := st.history;
      Closed(st);
      SettledNow();
    }

    lemma NoEvaluations(history: seq<Step>)
      ensures EvaluationsBelow(history, |history|, 0)
    {
    }

    lemma ReactionIs() returns (st: State)
      requires Valid() && |scheduled| == |wiring.kind| && forall d :: 0 <= d < |scheduled| ==> !scheduled[d]
      ensures Shaped(wiring, st) && InOrder(wiring, st) && Settled(wiring, st) && st == View().(history := st.history)
      ensures st.history == history + [Reacted(Operands(wiring, st), now)]
      ensures st.value == value && st.timer == timer && st.scheduled == scheduled && st.input == input
      ensures st.events == clock.events && st.evaluated == evaluated
    {
      ReactionIsGood(wiring, View(), now);
      st := AfterReaction(wiring, View(), now);
      assert Operands(wiring, st) == Operands(wiring, View());
    }

    lemma SettledNow()
      requires Valid() && Shaped(wiring, View()) && Settled(wiring, View())
      ensures IsSettled()
    {
    }

    /** Alert a cell (alarmDelay). */
    method AlarmDelay(c: nat)
      requires Shaped(wiring, View()) && c < |wiring.kind| == |value| == |timer| == |scheduled| == |wiring.left|
      modifies this`timer, this`value, this`scheduled
      ensures value == old(value)[c := old(OperandOf(wiring, View(), c))] && timer == old(timer)[c := false]
      ensures scheduled == Published(wiring, old(scheduled), c)
    {
      value := value[c := Operand(c)];
      Publish(c);
      timer := timer[c := false];
    }

    lemma AlarmIs(r: nat)
      requires Valid() && Alarming(wiring, View(), r) && clock.events != [] && clock.events[0].time <= now
      requires |wiring.kind| == |value| == |timer| == |scheduled| == |wiring.left|
      requires clock.events[0].cell < |wiring.kind|
      ensures var c, st := clock.events[0].cell, AfterAlarm(wiring, View(), now);
        && InOrder(wiring, st) && Alarming(wiring, st, r) && st.input == input && st.evaluated == evaluated
        && st.value == value[c := OperandOf(wiring, View(), c)] && st.timer == timer[c := false]
        && st.scheduled == Published(wiring, scheduled, c) && st.events == clock.events[1..]
        && st.history == history + [Alarmed(c, st.value[c], value[c], st.value[c], now)]
    {
      AlarmIsGood(wiring, View(), now, r);
    }

    /** What an alarm adds to the history. */
    lemma AlarmAppends(st: State, published: map<nat, Value>, c: nat) returns (s: Step)
      requires Shaped(wiring, st) && st.events != [] && c == st.events[0].cell
      requires View() == if c < |wiring.kind| then AfterAlarm(wiring, st, now)
        else AfterStir(wiring, st, published, now)
      ensures clock.events == st.events[1..] && history == st.history + [s] && st.history <= history
      ensures if c < |wiring.kind| then s.Alarmed? && s.cell == c else s.Stirred? && s.published == published
    {
      s := View().history[|st.history|];
    }

    lemma StirIs(published: map<nat, Value>, r: nat)
      requires Valid() && Alarming(wiring, View(), r) && clock.events != [] && clock.events[0].cell >= |wiring.kind|
      requires Shaped(wiring, View()) && Inputs(wiring, published)
      ensures var st := AfterStir(wiring, View(), published, now);
        && InOrder(wiring, st) && Alarming(wiring, st, r) && st.value == value && st.timer == timer
        && st.input == Fed(input, published) && st.scheduled == Woken(scheduled, published)
        && st.events == clock.events[1..] && st.evaluated == evaluated
        && st.history == history + [Stirred(published, now)]
    {
      StirIsGood(wiring, View(), published, now, r);
    }

    /** Another object publishes. */
    method Take(published: map<nat, Value>)
      requires |input| == |scheduled|
      modifies this`input, this`scheduled
      ensures input == Fed(old(input), published) && scheduled == Woken(old(scheduled), published)
    {
      for c := 0 to |input|
        invariant |input| == |old(input)| && |scheduled| == |old(scheduled)|
        invariant forall d :: 0 <= d < c ==> input[d] == Fed(old(input), published)[d]
        invariant forall d :: 0 <= d < c ==> scheduled[d] == Woken(old(scheduled), published)[d]
        invariant forall d :: c <= d < |input| ==> input[d] == old(input)[d] && scheduled[d] == old(scheduled)[d]
      {
        if c in published {
          input, scheduled := input[c := published[c]], scheduled[c := true];
        }
      }
    }

    lemma NoneCancelled()
      requires Valid() && clock.events != []
      ensures clock.events[0].time != 0
    {
      assert clock.events[0] in clock.events;
    }

    /** The first timer goes off (one round of the inner loop of nbClockAlert). If it is that of an object that is not a
        delay cell, `published` is what that object publishes. */
    method Alarm(published: map<nat, Value>, ghost r: nat) returns (c: nat)
      requires Valid() && Alarming(wiring, View(), r) && clock.events != [] && clock.events[0].time <= now
      requires Inputs(wiring, published) && Shaped(wiring, View())
      modifies this`timer, this`value, this`input, this`scheduled, this`history, clock, clock.All()
      ensures c == old(clock.events)[0].cell && Valid() && Alarming(wiring, View(), r)
      ensures View() == if c < |wiring.kind| then AfterAlarm(wiring, old(View()), now)
                        else AfterStir(wiring, old(View()), published, now)
      ensures clock.All() == old(clock.All())
    {
      hide Valid, InOrder, Alarming, AfterAlarm, AfterStir, Published, Fed, Woken, Clock.Valid;
      Opened();
      NoneCancelled();
      ghost var st;
      if clock.events[0].cell < |wiring.kind| {
        AlarmIs(r);
        st := AfterAlarm(wiring, View(), now);
      } else {
        StirIs(published, r);
        st := AfterStir(wiring, View(), published, now);
      }
      var e := clock.Pop();
      c := e.cell;
      if e.time != 0 {
        if c < |wiring.kind| {
          AlarmDelay(c);
        } else {
          Take(published);
        }
      }
      history := st.history;
      Closed(st);
    }

    /** Another object sets its timer, or cancels it. */
    method SetTimer(time: int, cell: nat)
      requires Valid() && cell >= |wiring.kind|
      modifies clock, clock.All()
      ensures Valid() && View() == old(View()).(events := AfterSet(old(clock.events), time, cell))
      ensures fresh(clock.All() - old(clock.All()))
    {
      SettingIsGood(wiring, View(), time, cell);
      hide InOrder, AfterSet;
      clock.SetTimer(time, cell);
    }

    /** Alert the objects whose timers go off in the same second as the first one, in the order in which they were set
        (the inner loop of nbClockAlert); `published` is what each object publishes that is not a delay cell. A cycle
        begins when everything published has been evaluated. */
    method Cycle(published: nat -> map<nat, Value>) returns (alerted: seq<nat>)
      requires IsSettled() && clock.events != [] && clock.events[0].time <= now
      requires forall other :: Inputs(wiring, published(other))
      modifies this`timer, this`value, this`input, this`scheduled, this`history, clock, clock.All()
      ensures Valid() && 0 < |alerted| <= |old(clock.events)| && clock.events == old(clock.events)[|alerted|..]
      ensures forall i :: 0 <= i < |alerted| ==>
        old(clock.events)[i] == Event(old(clock.events)[0].time, alerted[i])
      ensures clock.events != [] ==> clock.events[0].time > old(clock.events)[0].time
      ensures old(history) <= history && AlarmsOf(history, |old(history)|, alerted, |wiring.kind|, published)
      ensures clock.All() == old(clock.All())
    {
      hide *;
      ghost var es := clock.events;
      ghost var r := Begins();
      QueueShows();
      var cycleTime := clock.queue.time;
      alerted := [];
      NoAlarms(history, |wiring.kind|, published);
      assert es[0..] == es;
      while clock.queue != null && clock.queue.time == cycleTime
        invariant Valid() && Alarming(wiring, View(), r) && |alerted| <= |es| && clock.events == es[|alerted|..]
        invariant forall i :: 0 <= i < |alerted| ==> es[i] == Event(cycleTime, alerted[i])
        invariant clock.queue == null <==> clock.events == []
        invariant clock.queue != null ==> clock.queue.time == clock.events[0].time
        invariant alerted == [] ==> clock.queue != null
        invariant AlarmsOf(history, |old(history)|, alerted, |wiring.kind|, published) && old(history) <= history
        invariant clock.All() == old(clock.All())
        decreases |clock.events|
      {
        alerted := AlarmNext(alerted, published, es, |old(history)|, r);
      }
      Later(es, |alerted|);
    }

    lemma Begins() returns (r: nat)
      requires IsSettled()
      ensures Valid() && Alarming(wiring, View(), r) && Sorted(clock.events)
    {
      r := |history| - 1;
    }

    lemma NoAlarms(history: seq<Step>, cells: nat, published: nat -> map<nat, Value>)
      ensures AlarmsOf(history, |history|, [], cells, published)
    {
    }

    lemma Later(es: seq<Event>, n: nat)
      requires Valid() && n <= |es| && clock.events == es[n..] && es != [] && Sorted(es)
      ensures clock.events != [] ==> clock.events[0].time >= es[0].time
    {
    }

    method AlarmNext(alerted: seq<nat>, published: nat -> map<nat, Value>, ghost es: seq<Event>, ghost n: nat,
                     ghost r: nat)
      returns (alerted': seq<nat>)
      requires Valid() && Alarming(wiring, View(), r) && forall other :: Inputs(wiring, published(other))
      requires |alerted| < |es| && clock.events == es[|alerted|..] && es[|alerted|].time <= now
      requires AlarmsOf(history, n, alerted, |wiring.kind|, published)
      modifies this`timer, this`value, this`input, this`scheduled, this`history, clock, clock.All()
      ensures Valid() && Alarming(wiring, View(), r)
      ensures alerted' == alerted + [es[|alerted|].cell] && clock.events == es[|alerted'|..]
      ensures AlarmsOf(history, n, alerted', |wiring.kind|, published) && old(history) <= history
      ensures clock.queue == null <==> clock.events == []
      ensures clock.queue != null ==> clock.queue.time == clock.events[0].time
      ensures clock.All() == old(clock.All())
    {
      hide *;
      Opened();
      QueueShows();
      ViewShows();
      ghost var st := View();
      var c := Alarm(published(clock.queue.cell), r);
      ghost var s := AlarmAppends(st, published(c), c);
      AlarmOfIs(s, c, |wiring.kind|, published);
      NextAlarm(st.history, n, alerted, |wiring.kind|, published, s, c);
      assert es[|alerted|..][1..] == es[|alerted| + 1..];
      alerted' := alerted + [c];
      QueueShows();
    }

    lemma ViewShows()
      ensures View().events == clock.events && View().history == history
    {
    }

    lemma QueueShows()
      requires Valid()
      ensures clock.queue == null <==> clock.events == []
      ensures clock.events != [] ==>
        clock.queue.time == clock.events[0].time && clock.queue.cell == clock.events[0].cell
    {
    }

    lemma AlarmOfIs(s: Step, c: nat, cells: nat, published: nat -> map<nat, Value>)
      requires if c < cells then s.Alarmed? && s.cell == c else s.Stirred? && s.published == published(c)
      ensures AlarmOf(s, c, cells, published)
    {
    }

    lemma AlarmsAre(history: seq<Step>, n: nat, alerted: seq<nat>, cells: nat, published: nat -> map<nat, Value>)
      requires AlarmsOf(history, n, alerted, cells, published)
      ensures |history| == n + |alerted|
    {
    }

    lemma EvaluationsAre(history: seq<Step>, n: nat, c: nat)
      requires EvaluationsBelow(history, n, c)
      ensures n <= |history|
    {
    }

    /** One round of nbClockAlert: a cycle of alarms, then the clock is read, and the engine reacts to what the alarms
        have published. */
    method Round(now: int, stirred: nat -> map<nat, Value>, published: map<nat, Value>) returns (alerted: seq<nat>)
      requires IsSettled() && clock.events != [] && clock.events[0].time <= this.now && now > 0
      requires (forall other :: Inputs(wiring, stirred(other))) && Inputs(wiring, published)
      modifies this`timer, this`value, this`input, this`scheduled, this`history, this`evaluated, this`now, clock,
        clock.All()
      ensures IsSettled() && this.now == now && 0 < |alerted| <= |old(clock.events)|
      ensures forall i :: 0 <= i < |alerted| ==> old(clock.events)[i] == Event(old(clock.events)[0].time, alerted[i])
      ensures old(history) <= history && |old(history)| + |alerted| < |history|
      ensures AlarmsOf(history[..|old(history)| + |alerted|], |old(history)|, alerted, |wiring.kind|, stirred)
      ensures EvaluationsBelow(history[..|history| - 1], |old(history)| + |alerted|, |wiring.kind|)
      ensures history[|history| - 1] == Reacted(Operands(wiring, View()), now)
    {
      hide *;
      alerted := Cycle(stirred);
      ghost var h := history;
      AlarmsAre(h, |old(history)|, alerted, |wiring.kind|, stirred);
      Tick(now);
      React(published);
      EvaluationsAre(history[..|history| - 1], |h|, |wiring.kind|);
      assert history[..|h|] == h;
    }
  }
}
