/** Axon accelerators (lib/nbaxon.c): a search tree of relational conditions that share their left operand.
    When the operand changes, only the conditions whose outcome changes are touched. */
module Axons {
  import opened Values
  import opened Conditions

  /** A relational condition with a constant right operand. */
  class Cond {
    const op: RelOp
    const right: Value
    var value: Value
    var scheduled: bool

    constructor (op: RelOp, right: Value)
      ensures this.op == op && this.right == right && value == Unknown && !scheduled
    {
      this.op, this.right, value, scheduled := op, right, Unknown, false;
    }

    /** The condition has the value that plain evaluation gives it for left operand `v`. */
    predicate Agrees(v: Value)
      reads this`value
    {
      value == EvalRel(op, v, right)
    }
  }

  datatype Tree = Leaf | Node(left: Tree, key: Cond, right: Tree)

  function Keys(t: Tree): set<Cond> {
    match t
    case Leaf => {}
    case Node(l, k, r) => Keys(l) + {k} + Keys(r)
  }

  function Height(t: Tree): nat {
    match t
    case Leaf => 0
    case Node(l, _, r) => 1 + if Height(l) < Height(r) then Height(r) else Height(l)
  }

  function Size(t: Tree): nat {
    match t
    case Leaf => 0
    case Node(l, _, r) => 1 + Size(l) + Size(r)
  }

  // -------------------------------------------------------------------------------------------
  // Order of constants
  // -------------------------------------------------------------------------------------------

  predicate IsConstant(v: Value) {
    v.Real? || v.Text?
  }

  /** How a range axon compares two constants of its type: numerically, or with `strcmp`. */
  predicate Less(v: Value, w: Value) {
    match (v, w)
    case (Real(x), Real(y)) => x < y
    case (Text(s), Text(t)) => Compare(s, t) < 0
    case _ => false
  }

  lemma LessIsAStrictTotalOrder(u: Value, v: Value, w: Value)
    requires IsConstant(u) && SameType(u, v) && SameType(v, w)
    ensures Less(u, v) && Less(v, w) ==> Less(u, w)
    ensures !(Less(u, v) && Less(v, u))
    ensures Less(u, v) || u == v || Less(v, u)
  {
    if u.Text? {
      CompareIsAntisymmetric(u.text, v.text);
      CompareIsAntisymmetric(v.text, w.text);
      CompareIsAntisymmetric(u.text, w.text);
      if Compare(u.text, v.text) <= 0 && Compare(v.text, w.text) <= 0 {
        CompareIsTransitive(u.text, v.text, w.text);
      }
    }
  }

  /** A search tree whose constants all have the type of `sample`. */
  ghost predicate Sorted(t: Tree, sample: Value) {
    match t
    case Leaf => true
    case Node(l, k, r) =>
      && Sorted(l, sample) && Sorted(r, sample)
      && IsConstant(k.right) && SameType(k.right, sample)
      && (forall c :: c in Keys(l) ==> Less(c.right, k.right))
      && (forall c :: c in Keys(r) ==> Less(k.right, c.right))
  }

  // -------------------------------------------------------------------------------------------
  // The sweep
  // -------------------------------------------------------------------------------------------

  /** The part of the crossed range that has changed sides, and which of its two edges belongs to it. */
  datatype Range = Range(min: Value, max: Value, upper: bool) {
    predicate Low(k: Value) {
      Less(min, k) || (k == min && !upper)
    }
    predicate High(k: Value) {
      Less(k, max) || (k == max && upper)
    }
    /** The constants the sweep stops at. With equal bounds the lower edge is still one of them. */
    predicate Hits(k: Value) {
      if k == min then !upper else Less(min, k) && High(k)
    }
  }

  ghost function Hits(t: Tree, range: Range): set<Cond> {
    set c | c in Keys(t) && range.Hits(c.right)
  }

  /** What is still to do for one stack entry: its own condition, then the hits to its right. */
  ghost function Owed(t: Tree, range: Range): set<Cond> {
    if t.Leaf? then {} else {t.key} + Hits(t.right, range)
  }

  ghost predicate Entry(t: Tree, root: Tree, range: Range) {
    && t.Node? && Keys(t) <= Keys(root) && Sorted(t, range.min)
    && range.Hits(t.key.right)
    && forall c :: c in Keys(t.right) ==> Less(range.min, c.right)
  }

  ghost predicate Stack(stack: seq<Tree>, root: Tree, range: Range) {
    forall i :: 0 <= i < |stack| ==> Entry(stack[i], root, range) && Height(stack[i]) + i <= Height(root)
  }

  ghost function Pending(stack: seq<Tree>, range: Range): set<Cond> {
    if stack == [] then {} else Pending(stack[..|stack| - 1], range) + Owed(stack[|stack| - 1], range)
  }

  ghost function Weight(stack: seq<Tree>): nat {
    if stack == [] then 0
    else
      var t := stack[|stack| - 1];
      Weight(stack[..|stack| - 1]) + 1 + if t.Node? then Size(t.right) else 0
  }

  lemma AfterPush(stack: seq<Tree>, t: Tree, range: Range)
    requires t.Node?
    ensures Weight(stack + [t]) == Weight(stack) + 1 + Size(t.right)
    ensures Pending(stack + [t], range) == Pending(stack, range) + Owed(t, range)
  {
    assert (stack + [t])[..|stack|] == stack;
  }

  lemma StillStack(stack: seq<Tree>, t: Tree, root: Tree, range: Range)
    requires Stack(stack, root, range) && Entry(t, root, range) && Height(t) + |stack| <= Height(root)
    ensures Stack(stack + [t], root, range) && t.Node?
    ensures Height(t) > 0
  {
  }

  /** Only the type of the sample matters. */
  lemma {:induction false} SortedFor(t: Tree, sample: Value, sample': Value)
    requires Sorted(t, sample) && SameType(sample, sample')
    ensures Sorted(t, sample')
  {
    if t.Leaf? {
    } else {
      SortedFor(t.left, sample, sample');
      SortedFor(t.right, sample, sample');
    }
  }

  const STACK_SIZE := 32

  /** The call this sweep needs: a search tree over one type of constant, no higher than the stack, and ordered
      bounds. */
  ghost predicate Sweepable(root: Tree, range: Range) {
    && IsConstant(range.min) && SameType(range.max, range.min) && !Less(range.max, range.min)
    && Sorted(root, range.min) && Height(root) <= STACK_SIZE
  }

  /** Where the hits of a subtree are, by how its key compares with the lower bound. */
  lemma HitsBelow(t: Tree, root: Tree, range: Range)
    requires t.Node? && Sorted(t, range.min) && Sweepable(root, range)
    ensures Less(range.min, t.key.right) ==>
      && t.key.right != range.min
      && (forall c :: c in Keys(t.right) ==> Less(range.min, c.right))
      && Hits(t, range) <= Hits(t.left, range) + if range.High(t.key.right) then Owed(t, range) else {}
    ensures t.key.right == range.min ==> forall c :: c in Keys(t.right) ==> Less(range.min, c.right)
    ensures t.key.right == range.min && !range.upper ==> Hits(t, range) <= Owed(t, range) + Hits(t.right, range)
    ensures !Less(range.min, t.key.right) && !(t.key.right == range.min && !range.upper) ==>
      Hits(t, range) <= Hits(t.right, range)
  {
    SortedKeys(t, range.min);
    LessIsAStrictTotalOrder(range.min, t.key.right, t.key.right);
    forall c | c in Keys(t)
      ensures Less(range.min, t.key.right) && c in Keys(t.right) ==> Less(range.min, c.right)
      ensures range.Hits(c.right) ==>
        if Less(range.min, t.key.right) then
          c in Keys(t.left) || (range.High(t.key.right) && c in Owed(t, range))
        else if t.key.right == range.min && !range.upper then c in Owed(t, range)
        else c in Keys(t.right)
    {
      LessIsAStrictTotalOrder(range.min, t.key.right, c.right);
      LessIsAStrictTotalOrder(range.min, c.right, t.key.right);
      LessIsAStrictTotalOrder(t.key.right, c.right, range.max);
      LessIsAStrictTotalOrder(c.right, t.key.right, range.min);
      LessIsAStrictTotalOrder(range.min, range.max, c.right);
    }
  }

  lemma {:induction false} SortedKeys(t: Tree, sample: Value)
    requires Sorted(t, sample)
    ensures forall c :: c in Keys(t) ==> IsConstant(c.right) && SameType(c.right, sample)
  {
    if t.Leaf? {
    } else {
      SortedKeys(t.left, sample);
      SortedKeys(t.right, sample);
    }
  }

  /** The parts of a subtree. */
  lemma Parts(t: Tree, range: Range)
    requires t.Node? && Sorted(t, range.min)
    ensures Keys(t.left) <= Keys(t) && Keys(t.right) <= Keys(t) && t.key in Keys(t)
    ensures Sorted(t.left, range.min) && Sorted(t.right, range.min)
    ensures Height(t.left) < Height(t) && Height(t.right) < Height(t)
    ensures Size(t) == 1 + Size(t.left) + Size(t.right)
    ensures t.key.right == range.min && !range.upper ==> range.Hits(t.key.right)
    ensures t.key.right != range.min && Less(range.min, t.key.right) && range.High(t.key.right) ==>
      range.Hits(t.key.right)
  {
  }

  lemma IsEntry(t: Tree, root: Tree, range: Range)
    requires t.Node? && Keys(t) <= Keys(root) && Sorted(t, range.min) && range.Hits(t.key.right)
    requires forall c :: c in Keys(t.right) ==> Less(range.min, c.right)
    ensures Entry(t, root, range)
  {
  }

  method Push(root: Tree, node: Tree, range: Range, stack: array<Tree>, s: nat)
    requires stack.Length == STACK_SIZE && Sweepable(root, range) && s <= STACK_SIZE
    requires Stack(stack[..s], root, range) && Entry(node, root, range) && Height(node) + s <= Height(root)
    modifies stack
    ensures s < STACK_SIZE && stack[..s + 1] == old(stack[..s]) + [node]
    ensures Stack(stack[..s + 1], root, range)
    ensures Pending(stack[..s + 1], range) == Pending(old(stack[..s]), range) + Owed(node, range)
    ensures Weight(stack[..s + 1]) == Weight(old(stack[..s])) + 1 + Size(node.right)
  {
    hide Stack, Pending, Weight, Entry, Height, Size, Owed;
    ghost var before := stack[..s];
    StillStack(before, node, root, range);
    AfterPush(before, node, range);
    stack[s] := node;
    assert stack[..s + 1] == before + [node];
  }

  lemma Start(root: Tree, range: Range, stack: seq<Tree>)
    requires stack == [] && Sweepable(root, range)
    ensures Stack(stack, root, range) && Sorted(root, range.min)
    ensures Hits(Leaf, range) == {}
  {
  }

  /** The path towards the smallest hit; the hits passed on the way are stacked. */
  method Descend(root: Tree, range: Range, stack: array<Tree>) returns (s: nat)
    requires Sweepable(root, range) && stack.Length == STACK_SIZE
    modifies stack
    ensures s <= STACK_SIZE && Stack(stack[..s], root, range)
    ensures Hits(root, range) <= Pending(stack[..s], range)
  {
    hide *;
    var node := root;
    s := 0;
    Start(root, range, stack[..0]);
    while node != Leaf
      invariant s <= STACK_SIZE && Stack(stack[..s], root, range)
      invariant Keys(node) <= Keys(root) && Sorted(node, range.min) && Height(node) + s <= Height(root)
      invariant Hits(root, range) <= Hits(node, range) + Pending(stack[..s], range)
      decreases node
    {
      Parts(node, range);
      HitsBelow(node, root, range);
      if Less(range.min, node.key.right) {
        if range.High(node.key.right) {
          IsEntry(node, root, range);
          Push(root, node, range, stack, s);
          s := s + 1;
        }
        node := node.left;
      } else if node.key.right == range.min && !range.upper {
        IsEntry(node, root, range);
        Push(root, node, range, stack, s);
        s := s + 1;
        node := node.right;
      } else {
        node := node.right;
      }
    }
  }

  /** The left spine of a subtree whose constants are all above the lower bound. */
  method Spine(root: Tree, start: Tree, range: Range, stack: array<Tree>, depth: nat) returns (s: nat)
    requires Sweepable(root, range) && stack.Length == STACK_SIZE && depth <= STACK_SIZE
    requires Stack(stack[..depth], root, range)
    requires Keys(start) <= Keys(root) && Sorted(start, range.min) && Height(start) + depth <= Height(root)
    requires forall c :: c in Keys(start) ==> Less(range.min, c.right)
    modifies stack
    ensures s <= STACK_SIZE && Stack(stack[..s], root, range)
    ensures Pending(old(stack[..depth]), range) + Hits(start, range) <= Pending(stack[..s], range)
    ensures Weight(stack[..s]) <= Weight(old(stack[..depth])) + Size(start)
  {
    hide *;
    var node := start;
    s := depth;
    Start(root, range, stack[..0]);
    while node != Leaf
      invariant s <= STACK_SIZE && Stack(stack[..s], root, range)
      invariant Keys(node) <= Keys(start) && Sorted(node, range.min) && Height(node) + s <= Height(root)
      invariant Pending(old(stack[..depth]), range) <= Pending(stack[..s], range)
      invariant Hits(start, range) <= Hits(node, range) + Pending(stack[..s], range)
      invariant Weight(stack[..s]) + Size(node) <= Weight(old(stack[..depth])) + Size(start)
      decreases node
    {
      Parts(node, range);
      HitsBelow(node, root, range);
      if range.High(node.key.right) {
        IsEntry(node, root, range);
        Push(root, node, range, stack, s);
        s := s + 1;
      }
      node := node.left;
    }
  }

  /** What an entry promises when it is taken off the stack. */
  lemma Popped(stack: seq<Tree>, root: Tree, range: Range)
    requires stack != [] && Stack(stack, root, range) && Sweepable(root, range)
    ensures var t, rest := stack[|stack| - 1], stack[..|stack| - 1];
            && t.Node? && t.key in Keys(root) && t.key in Hits(root, range)
            && Stack(rest, root, range)
            && Pending(stack, range) == Pending(rest, range) + {t.key} + Hits(t.right, range)
            && Weight(stack) == Weight(rest) + 1 + Size(t.right)
            && Keys(t.right) <= Keys(root) && Sorted(t.right, range.min)
            && Height(t.right) + |rest| <= Height(root)
            && forall c :: c in Keys(t.right) ==> Less(range.min, c.right)
  {
  }

  lemma NothingPending(stack: seq<Tree>, range: Range)
    requires stack == []
    ensures Pending(stack, range) == {}
  {
  }

  /** Take the top entry at index `top` off the stack, and stack the left spine of its right subtree in its place. */
  method Pop(root: Tree, range: Range, stack: array<Tree>, top: nat) returns (key: Cond, s: nat)
    requires Sweepable(root, range) && top < stack.Length == STACK_SIZE && Stack(stack[..top + 1], root, range)
    modifies stack
    ensures s <= STACK_SIZE && Stack(stack[..s], root, range)
    ensures key in Hits(root, range) && key in Keys(root)
    ensures Pending(old(stack[..top + 1]), range) <= {key} + Pending(stack[..s], range)
    ensures Weight(stack[..s]) < Weight(old(stack[..top + 1]))
  {
    hide *;
    Popped(stack[..top + 1], root, range);
    assert stack[..top + 1][..top] == stack[..top];
    var node := stack[top];
    key := node.key;
    s := Spine(root, node.right, range, stack, top);
  }

  /** Give every condition still pending the new value, and publish it. */
  method Unwind(root: Tree, range: Range, newValue: Value, stack: array<Tree>, depth: nat, ghost keys: set<Cond>)
    returns (ghost published: set<Cond>)
    requires Sweepable(root, range) && depth <= stack.Length == STACK_SIZE
    requires Stack(stack[..depth], root, range) && keys == Keys(root)
    modifies stack, keys`value
    ensures Pending(old(stack[..depth]), range) <= published <= Hits(root, range)
    ensures forall c :: c in published ==> c.value == newValue
    ensures forall c :: c in keys && c !in published ==> c.value == old(c.value)
  {
    hide *;
    var s := depth;
    published := {};
    while s > 0
      invariant 0 <= s <= STACK_SIZE && Stack(stack[..s], root, range)
      invariant published <= Hits(root, range)
      invariant Pending(old(stack[..depth]), range) <= published + Pending(stack[..s], range)
      invariant forall c :: c in published ==> c.value == newValue
      invariant forall c :: c in keys && c !in published ==> c.value == old(c.value)
      decreases Weight(stack[..s])
    {
      s := s - 1;
      var node := stack[s];
      Popped(stack[..s + 1], root, range);
      assert stack[..s + 1][..s] == stack[..s];
      node.key.value := newValue;
      published := published + {node.key};
      s := Spine(root, node.right, range, stack, s);
    }
    NothingPending(stack[..s], range);
  }

  /** Give every condition the range hits the new value, and publish it. No other condition is touched,
      although the subtree to the right of an included lower bound is stacked twice. */
  method Sweep(root: Tree, range: Range, newValue: Value, ghost keys: set<Cond>) returns (ghost published: set<Cond>)
    requires Sweepable(root, range) && keys == Keys(root)
    modifies keys`value
    ensures published == Hits(root, range)
    ensures forall c :: c in keys ==> c.value == if c in published then newValue else old(c.value)
  {
    assert STACK_SIZE == 32;
    hide *;
    var stack := new Tree[STACK_SIZE];
    var s := Descend(root, range, stack);
    published := Unwind(root, range, newValue, stack, s, keys);
  }

  // -------------------------------------------------------------------------------------------
  // Range operators
  // -------------------------------------------------------------------------------------------

  predicate IsRange(op: RelOp) {
    op == LT || op == LE || op == GT || op == GE
  }

  /** The outcome the crossed conditions get, and whether the upper edge is crossed, when the operand rises. */
  function Rising(op: RelOp): (bool, bool) {
    match op
    case GT => (true, false)
    case GE => (true, true)
    case LE => (false, false)
    case _ => (false, true)
  }

  function Falling(op: RelOp): (bool, bool) {
    match op
    case LT => (true, true)
    case LE => (true, false)
    case GE => (false, true)
    case _ => (false, false)
  }

  function Truth(b: bool): Value {
    if b then True else False
  }

  /** For a number the table of edges is right: the hits get the outcome plain evaluation gives them, the rest keep
      theirs. When the operand really changed, the hits are exactly the conditions whose outcome changes. */
  lemma EdgesAreRight(op: RelOp, old': real, new': real, k: real)
    requires IsRange(op)
    ensures var (outcome, upper) := if old' < new' then Rising(op) else Falling(op);
            var range := if old' < new' then Range(Real(old'), Real(new'), upper)
              else Range(Real(new'), Real(old'), upper);
            && EvalRel(op, Real(new'), Real(k)) ==
                 (if range.Hits(Real(k)) then Truth(outcome) else EvalRel(op, Real(old'), Real(k)))
            && (old' != new' ==>
              (range.Hits(Real(k)) <==> EvalRel(op, Real(old'), Real(k)) != EvalRel(op, Real(new'), Real(k))))
  {
  }

  lemma HitsAreKeys(root: Tree, range: Range)
    ensures Hits(root, range) <= Keys(root)
  {
  }

  /** What the string axons pass to their sweep: the outcome when the operand rises, when it falls, and the edge. */
  function StringEdges(op: RelOp): (bool, bool, bool) {
    match op
    case GT => (true, false, false)
    case GE => (true, false, true)
    case LE => (false, true, true)
    case _ => (false, true, false)
  }

  /** The constants a string sweep from `old'` to `new'` misjudges. For > these are exactly the constants equal to a
      string that is published again unchanged: a list of assertions that assigns another string first, or an alarm,
      has the axon evaluated with the string it has. The edges of < and <= are the wrong way round. */
  predicate EdgeTrouble(op: RelOp, old': string, new': string, k: Value) {
    match op
    case GT => old' == new' && k == Text(new')
    case GE => false
    case LE => old' != new' && (k == Text(new') || (k == Text(old') && Compare(old', new') < 0))
    case _ => old' != new' && (k == Text(new') || (k == Text(old') && Compare(old', new') > 0))
  }

  function StringOutcome(op: RelOp, old': string, new': string): bool {
    if Compare(old', new') < 1 then StringEdges(op).0 else StringEdges(op).1
  }

  function StringRange(op: RelOp, old': string, new': string): Range {
    if Compare(old', new') < 1 then Range(Text(old'), Text(new'), StringEdges(op).2)
    else Range(Text(new'), Text(old'), StringEdges(op).2)
  }

  lemma StringEdgesVerdict(op: RelOp, old': string, new': string, k: string)
    requires IsRange(op)
    ensures (if StringRange(op, old', new').Hits(Text(k)) then Truth(StringOutcome(op, old', new'))
      else EvalRel(op, Text(old'), Text(k)))
            == EvalRel(op, Text(new'), Text(k))
            <==> !EdgeTrouble(op, old', new', Text(k))
  {
    CompareIsAntisymmetric(old', new');
    CompareIsAntisymmetric(old', k);
    CompareIsAntisymmetric(new', k);
    if Compare(old', k) <= 0 && Compare(k, new') <= 0 {
      CompareIsTransitive(old', k, new');
    }
    if Compare(new', k) <= 0 && Compare(k, old') <= 0 {
      CompareIsTransitive(new', k, old');
    }
    if Compare(old', new') <= 0 && Compare(new', k) <= 0 {
      CompareIsTransitive(old', new', k);
    }
    if Compare(new', old') <= 0 && Compare(old', k) <= 0 {
      CompareIsTransitive(new', old', k);
    }
    if Compare(k, old') <= 0 && Compare(old', new') <= 0 {
      CompareIsTransitive(k, old', new');
    }
    if Compare(k, new') <= 0 && Compare(new', old') <= 0 {
      CompareIsTransitive(k, new', old');
    }
  }

  /** When the operand of `x < "b"` rises from "a" to "b", the sweep leaves the condition true. */
  lemma StringLessMisjudges()
    ensures EvalRel(LT, Text("a"), Text("b")) == True && EvalRel(LT, Text("b"), Text("b")) == False
    ensures !StringRange(LT, "a", "b").Hits(Text("b")) && EdgeTrouble(LT, "a", "b", Text("b"))
  {
    assert Compare("a", "b") == -1 && Compare("b", "b") == Compare("b"[1..], "b"[1..]) == 0;
  }

  /** When the operand of `x <= "b"` rises from "a" to "b", the sweep makes the condition false. */
  lemma StringLessOrEqualMisjudges()
    ensures EvalRel(LE, Text("a"), Text("b")) == True && EvalRel(LE, Text("b"), Text("b")) == True
    ensures StringRange(LE, "a", "b").Hits(Text("b")) && !StringOutcome(LE, "a", "b")
    ensures EdgeTrouble(LE, "a", "b", Text("b"))
  {
    assert Compare("a", "b") == -1 && Compare("b", "b") == Compare("b"[1..], "b"[1..]) == 0;
  }

  /** When "a" is published again to `x > "a"`, the sweep makes the condition true. */
  lemma StringGreaterMisjudges()
    ensures EvalRel(GT, Text("a"), Text("a")) == False
    ensures StringRange(GT, "a", "a").Hits(Text("a")) && StringOutcome(GT, "a", "a")
    ensures EdgeTrouble(GT, "a", "a", Text("a"))
  {
    assert Compare("a", "a") == Compare("a"[1..], "a"[1..]) == 0;
  }

  method AlertAll(t: Tree, ghost keys: set<Cond>)
    requires keys == Keys(t)
    modifies keys`scheduled
    ensures forall c :: c in keys ==> c.scheduled
  {
    if t.Node? {
      ghost var left, right := Keys(t.left), Keys(t.right);
      t.key.scheduled := true;
      AlertAll(t.left, left);
      AlertAll(t.right, right);
    }
  }

  method SetAll(t: Tree, value: Value, ghost keys: set<Cond>)
    requires keys == Keys(t)
    modifies keys`value
    ensures forall c :: c in keys ==> c.value == value
  {
    if t.Node? {
      ghost var left, right := Keys(t.left), Keys(t.right);
      t.key.value := value;
      SetAll(t.left, value, left);
      SetAll(t.right, value, right);
    }
  }

  class RangeAxon {
    const op: RelOp
    /** A constant of the type this axon is for: a number or a string. */
    const sample: Value
    var sub: Tree
    /** The subscribers. */
    ghost var keys: set<Cond>
    /** The operand's value at the last evaluation, kept only when it has the axon's type. */
    var prior: Value
    /** The conditions published by the last evaluation. */
    ghost var published: set<Cond>

    /** A search tree of conditions on this operator with constants of the axon's type. */
    ghost predicate Shape()
      reads this
    {
      && IsRange(op) && keys == Keys(sub) && Sorted(sub, sample) && IsConstant(sample) && Height(sub) <= STACK_SIZE
      && (forall c :: c in keys ==> c.op == op)
      && (prior == Unknown || SameType(prior, sample))
    }

    /** Every subscriber has the value plain evaluation gives it, or waits to be evaluated. */
    ghost predicate Follows(v: Value)
      reads this, keys
    {
      && (prior == if SameType(v, sample) then v else Unknown)
      && forall c :: c in keys ==> c.scheduled || c.Agrees(v)
    }

    lemma SweepFollows(old': real, new': real, range: Range, outcome: bool)
      requires Shape() && sample.Real?
      requires outcome == (if old' < new' then Rising(op) else Falling(op)).0
      requires range == (if old' < new' then Range(Real(old'), Real(new'), Rising(op).1)
                         else Range(Real(new'), Real(old'), Falling(op).1))
      ensures Sweepable(sub, range)
      ensures forall c :: c in keys ==>
        EvalRel(op, Real(new'), c.right) == if c in Hits(sub, range) then Truth(outcome)
          else EvalRel(op, Real(old'), c.right)
      ensures old' != new' ==>
        Hits(sub, range) == set c | c in keys && EvalRel(op, Real(old'), c.right) != EvalRel(op, Real(new'), c.right)
    {
      SortedKeys(sub, sample);
      forall c | c in keys
        ensures c.right.Real?
        ensures EvalRel(op, Real(new'), c.right) ==
          if c in Hits(sub, range) then Truth(outcome) else EvalRel(op, Real(old'), c.right)
        ensures old' != new' ==> (c in Hits(sub, range) <==>
          EvalRel(op, Real(old'), c.right) != EvalRel(op, Real(new'), c.right))
      {
        EdgesAreRight(op, old', new', c.right.number);
      }
      SortedFor(sub, sample, range.min);
    }

    /** A value of another type leaves no comparison with an outcome. */
    lemma OtherTypeIsUnknown(v: Value)
      requires Shape() && !SameType(v, sample)
      ensures forall c :: c in keys ==> EvalRel(op, v, c.right) == Unknown
    {
      SortedKeys(sub, sample);
    }

    /** From one number to another: sweep the constants in between. */
    method Cross(value: Value)
      requires Shape() && prior.Real? && value.Real? && sample.Real?
      requires forall c :: c in keys ==> c.Agrees(prior)
      modifies this`published, keys`value
      ensures Shape() && published <= keys && forall c :: c in keys ==> c.Agrees(value)
      ensures value != prior ==>
        published == set c | c in keys && EvalRel(op, prior, c.right) != EvalRel(op, value, c.right)
      ensures forall c :: c in keys && c !in published ==> c.value == old(c.value)
    {
      var range, outcome;
      if prior.number < value.number {
        var (o, upper) := Rising(op);
        outcome := o;
        range := Range(prior, value, upper);
      } else {
        var (o, upper) := Falling(op);
        outcome := o;
        range := Range(value, prior, upper);
      }
      SweepFollows(prior.number, value.number, range, outcome);
      HitsAreKeys(sub, range);
      hide EvalRel, Hits, Sorted, Keys, Height, Rising, Falling;
      published := Sweep(sub, range, Truth(outcome), keys);
    }

    /** React to a new value of the operand, for numbers (evalAxonRelReal). */
    method EvalReal(value: Value, ghost was: Value)
      requires Shape() && sample.Real? && forall c :: c in keys ==> !c.scheduled
      requires Follows(was)
      modifies this`prior, this`published, keys`value, keys`scheduled
      ensures Shape() && Follows(value)
      ensures old(prior).Real? && value.Real? && value != old(prior) ==>
        published == set c | c in keys && EvalRel(op, old(prior), c.right) != EvalRel(op, value, c.right)
      ensures forall c :: c in keys && c !in published ==> c.value == old(c.value)
      ensures old(prior).Real? && value.Real? ==> forall c :: c in keys ==> !c.scheduled
    {
      hide EvalRel, EdgeTrouble, Hits, Sorted, Keys, Height, Compare, Less;
      if value.Real? {
        if prior == Unknown {
          AlertAll(sub, keys);
          prior := value;
          published := {};
          return;
        }
        Cross(value);
        prior := value;
      } else {
        published := {};
        OtherTypeIsUnknown(value);
        if prior == Unknown {
          OtherTypeIsUnknown(was);
        } else {
          SetAll(sub, Unknown, keys);
          published := keys;
          prior := Unknown;
        }
      }
    }

    lemma StringSweepFollows(old': string, new': string, range: Range, outcome: bool)
      requires Shape() && sample.Text?
      requires outcome == StringOutcome(op, old', new') && range == StringRange(op, old', new')
      ensures Sweepable(sub, range)
      ensures forall c :: c in keys ==>
        ((if c in Hits(sub, range) then Truth(outcome) else EvalRel(op, Text(old'), c.right))
          == EvalRel(op, Text(new'), c.right)
         <==> !EdgeTrouble(op, old', new', c.right))
    {
      hide EdgeTrouble, EvalRel, Compare, Less;
      SortedKeys(sub, sample);
      SortedFor(sub, sample, range.min);
      LessIsAStrictTotalOrder(range.min, range.max, range.max);
      BoundsInOrder(op, old', new');
      forall c | c in keys
        ensures
          ((if c in Hits(sub, range) then Truth(outcome) else EvalRel(op, Text(old'), c.right))
            == EvalRel(op, Text(new'), c.right))
          <==> !EdgeTrouble(op, old', new', c.right)
      {
        StringEdgesVerdict(op, old', new', c.right.text);
      }
    }

    lemma BoundsInOrder(op: RelOp, old': string, new': string)
      ensures var range := StringRange(op, old', new'); !Less(range.max, range.min)
    {
      CompareIsAntisymmetric(old', new');
    }

    /** From one string to another: sweep the constants in between. */
    method CrossString(value: Value)
      requires Shape() && prior.Text? && value.Text? && sample.Text?
      requires forall c :: c in keys ==> c.Agrees(prior)
      modifies this`published, keys`value
      ensures Shape()
      ensures forall c :: c in keys ==> (c.Agrees(value) <==> !EdgeTrouble(op, prior.text, value.text, c.right))
    {
      var range, outcome;
      var (up, down, upper) := StringEdges(op);
      if Compare(prior.text, value.text) < 1 {
        outcome := up;
        range := Range(prior, value, upper);
      } else {
        outcome := down;
        range := Range(value, prior, upper);
      }
      StringSweepFollows(prior.text, value.text, range, outcome);
      hide EvalRel, EdgeTrouble, Hits, Sorted, Keys, Height, Compare, StringEdges;
      published := Sweep(sub, range, Truth(outcome), keys);
    }

    /** React to a new value of the operand, for strings (nbAxonRelStringSweep and its callers). A change between
        strings leaves a subscriber with the right value exactly when its constant is not one the edge misjudges. */
    method EvalString(value: Value, ghost was: Value)
      requires Shape() && sample.Text? && forall c :: c in keys ==> !c.scheduled
      requires Follows(was)
      modifies this`prior, this`published, keys`value, keys`scheduled
      ensures Shape() && prior == if value.Text? then value else Unknown
      ensures !(old(prior).Text? && value.Text?) ==> Follows(value)
      ensures old(prior).Text? && value.Text? ==>
        forall c :: c in keys ==>
          !c.scheduled && (c.Agrees(value) <==> !EdgeTrouble(op, old(prior).text, value.text, c.right))
    {
      hide EvalRel, EdgeTrouble, Hits, Sorted, Keys, Height, Compare, Less;
      if value.Text? {
        if prior == Unknown {
          AlertAll(sub, keys);
          prior := value;
          published := {};
          return;
        }
        CrossString(value);
        prior := value;
      } else {
        published := {};
        OtherTypeIsUnknown(value);
        if prior == Unknown {
          OtherTypeIsUnknown(was);
        } else {
          SetAll(sub, Unknown, keys);
          published := keys;
          prior := Unknown;
        }
      }
    }
  }

  // -------------------------------------------------------------------------------------------
  // Equality
  // -------------------------------------------------------------------------------------------

  /** What the axon knows: NULL, the Unknown object, or the one condition whose constant is the operand's value. */
  datatype Mark = Null | Unsure | Marked(cond: Cond)

  /** The tree is ordered by the address of the constant. */
  ghost predicate ByAddress(t: Tree, addr: Value -> int) {
    match t
    case Leaf => true
    case Node(l, k, r) =>
      && ByAddress(l, addr) && ByAddress(r, addr)
      && (forall c :: c in Keys(l) ==> addr(c.right) < addr(k.right))
      && (forall c :: c in Keys(r) ==> addr(k.right) < addr(c.right))
  }

  /** The constants of the conditions in the tree. */
  function Constants(t: Tree): set<Value> {
    set c | c in Keys(t) :: c.right
  }

  /** Constants are hash-consed: the addresses tell the values that are in use apart. */
  ghost predicate Injective(addr: Value -> int, live: set<Value>) {
    forall v, w :: v in live && w in live && addr(v) == addr(w) ==> v == w
  }

  /** No two of the conditions have the same constant. */
  ghost predicate Distinct(conds: set<Cond>) {
    forall c, d :: c in conds && d in conds && c.right == d.right ==> c == d
  }

  /** Look for the condition with constant `right`. */
  method Find(t: Tree, right: Value, addr: Value -> int) returns (node: Tree)
    requires ByAddress(t, addr)
    requires Injective(addr, Constants(t) + {right})
    ensures node.Node? ==> node.key in Keys(t) && node.key.right == right
    ensures node.Leaf? ==> forall c :: c in Keys(t) ==> c.right != right
  {
    node := t;
    while node != Leaf
      invariant ByAddress(node, addr) && Keys(node) <= Keys(t)
      invariant forall c :: c in Keys(t) && c.right == right ==> c in Keys(node)
      decreases node
    {
      assert node.key in Keys(t) && node.key.right in Constants(t);
      if addr(right) < addr(node.key.right) {
        node := node.left;
      } else if addr(right) > addr(node.key.right) {
        node := node.right;
      } else {
        break;
      }
    }
  }

  class EqualityAxon {
    /** EQ or NE. */
    const op: RelOp
    const addr: Value -> int
    /** The published value of the shared left operand. */
    var operand: Value
    var sub: Tree
    ghost var keys: set<Cond>
    /** trueCell for an EQ axon, falseCell for an NE axon. */
    var mark: Mark
    /** The conditions set directly by the last evaluation. */
    ghost var published: set<Cond>

    ghost predicate Shape()
      reads this
    {
      && (op == EQ || op == NE)
      && Injective(addr, Constants(sub) + {operand})
      && keys == Keys(sub) && ByAddress(sub, addr)
      && (forall c :: c in keys ==> c.op == op && c.right != Unknown)
      && Distinct(keys)
    }

    /** `m` is the one condition with constant `v`, if there is one. */
    ghost predicate Points(m: Mark, v: Value)
      reads this`keys
    {
      match m
      case Unsure => false
      case Null => forall c :: c in keys ==> c.right != v
      case Marked(d) => d in keys && forall c :: c in keys ==> (c.right == v <==> c == d)
    }

    /** The mark is right for operand value `v`. */
    ghost predicate MarkedFor(v: Value)
      reads this
    {
      if keys == {} then mark == Null
      else if v == Unknown then mark == Unsure
      else Points(mark, v)
    }

    ghost predicate Settled(v: Value)
      reads this, keys
    {
      forall c :: c in keys ==> !c.scheduled && c.Agrees(v)
    }

    ghost predicate Valid()
      reads this, keys
    {
      Shape() && MarkedFor(operand) && Settled(operand)
    }

    constructor (op: RelOp, addr: Value -> int, operand: Value)
      requires op == EQ || op == NE
      ensures Valid() && keys == {} && this.operand == operand && this.op == op && this.addr == addr
    {
      this.op, this.addr, this.operand := op, addr, operand;
      sub, keys, mark, published := Leaf, {}, Null, {};
    }

    /** The outcome of the one marked condition, and of all the others. */
    function Hit(): Value {
      if op == EQ then True else False
    }

    function Miss(): Value {
      if op == EQ then False else True
    }

    /** React to the operand's new value (evalAxonRelEq, evalAxonRelNe): when both values are known, at most two
        conditions are touched. */
    method Eval(ghost was: Value)
      requires Shape() && keys != {} && MarkedFor(was) && Settled(was)
      modifies this`mark, this`published, keys`value, keys`scheduled
      ensures Shape() && MarkedFor(operand)
      ensures forall c :: c in keys ==> c.scheduled || c.Agrees(operand)
      ensures was != Unknown && operand != Unknown ==>
        && (forall c :: c in keys ==> !c.scheduled)
        && (forall c :: c in keys && c !in published ==> c.value == old(c.value))
        && |published| <= 2
    {
      hide EvalRel, ByAddress, Keys, Injective, Constants, Distinct;
      published := {};
      if operand == Unknown {
        AlertAll(sub, keys);
        mark := Unsure;
      } else if mark == Unsure {
        AlertAll(sub, keys);
        mark := FindMarked();
      } else {
        Change(was);
      }
    }

    /** From one known value to another. */
    method Change(ghost was: Value)
      requires Shape() && keys != {} && was != Unknown && operand != Unknown && Points(mark, was) && Settled(was)
      modifies this`mark, this`published, keys`value
      ensures Shape() && Points(mark, operand)
      ensures forall c :: c in keys ==> c.Agrees(operand)
      ensures (forall c :: c in keys && c !in published ==> c.value == old(c.value)) && |published| <= 2
    {
      OutcomeIsEvaluation(was);
      OutcomeIsEvaluation(operand);
      hide EvalRel, ByAddress, Keys, Hit, Miss, Injective, Distinct, Outcome;
      var found := FindMarked();
      Move(found, was);
    }

    /** The outcome of a condition with constant `k`, for a known operand value `v`. */
    function Outcome(v: Value, k: Value): Value {
      if k == v then Hit() else Miss()
    }

    lemma OutcomeIsEvaluation(v: Value)
      requires op == EQ || op == NE
      ensures Hit() != Miss()
      ensures forall k :: k != Unknown && v != Unknown ==> EvalRel(op, v, k) == Outcome(v, k)
      ensures forall k :: k != Unknown && v == Unknown ==> EvalRel(op, v, k) == Unknown
    {
    }

    /** Look for the condition to mark. */
    method FindMarked() returns (found: Mark)
      requires Shape()
      ensures Points(found, operand)
    {
      var node := Find(sub, operand, addr);
      found := if node.Node? then Marked(node.key) else Null;
    }

    /** From one known value to another: at most two conditions change sides. */
    method Move(found: Mark, ghost was: Value)
      requires Points(mark, was) && Points(found, operand)
      requires forall c :: c in keys ==> c.value == Outcome(was, c.right)
      modifies this`mark, this`published, keys`value
      ensures Points(mark, operand) && forall c :: c in keys ==> c.value == Outcome(operand, c.right)
      ensures (forall c :: c in keys && c !in published ==> c.value == old(c.value)) && |published| <= 2
    {
      published := {};
      if found.Marked? {
        if found != mark {
          found.cond.value := Hit();
          published := {found.cond};
          if mark.Marked? {
            mark.cond.value := Miss();
            published := published + {mark.cond};
          }
          mark := found;
        }
      } else if mark.Marked? {
        mark.cond.value := Miss();
        published := {mark.cond};
        mark := Null;
      }
    }

    /** Evaluate the subscribers that wait for it. */
    method React(t: Tree, ghost conds: set<Cond>)
      requires conds == Keys(t)
      requires forall c :: c in conds ==> c.scheduled || c.Agrees(operand)
      modifies conds`value, conds`scheduled
      ensures forall c :: c in conds ==> !c.scheduled && c.Agrees(operand)
    {
      if t.Node? {
        ghost var left, right := Keys(t.left), Keys(t.right);
        if t.key.scheduled {
          t.key.value := EvalRel(t.key.op, operand, t.key.right);
          t.key.scheduled := false;
        }
        React(t.left, left);
        React(t.right, right);
      }
    }

    /** The operand publishes a value, and the reaction runs to its end. */
    method Publish(value: Value)
      requires Valid() && Injective(addr, Constants(sub) + {value})
      modifies this, keys
      ensures Valid() && operand == value && keys == old(keys)
    {
      hide EvalRel, ByAddress, Keys, Injective, Constants, Distinct, Points;
      NoKeys();
      ghost var was := operand;
      operand := value;
      if sub != Leaf {
        Respond(was);
      }
    }

    /** Evaluate the axon, and then the subscribers that it has scheduled. */
    method Respond(ghost was: Value)
      requires Shape() && keys != {} && MarkedFor(was) && Settled(was)
      modifies this`mark, this`published, keys`value, keys`scheduled
      ensures Shape() && MarkedFor(operand) && Settled(operand)
    {
      hide EvalRel, ByAddress, Injective, Constants, Distinct, Points;
      Eval(was);
      React(sub, keys);
    }

    /** Evaluate a new subscriber, and mark it if it is the one. */
    method Admit(cond: Cond)
      requires (op == EQ || op == NE) && MarkedFor(operand) && cond.op == op && cond.right != Unknown
      requires forall c :: c in keys && c.right == cond.right ==> c == cond
      modifies this`keys, this`mark, cond`value
      ensures MarkedFor(operand) && keys == old(keys) + {cond} && cond.Agrees(operand)
    {
      OutcomeIsEvaluation(operand);
      hide EvalRel;
      keys := keys + {cond};
      cond.value := EvalRel(op, operand, cond.right);
      if operand == Unknown {
        mark := Unsure;
      } else if cond.value == Hit() {
        mark := Marked(cond);
      }
    }

    /** Subscribe a condition. `after` is what inserting it into the tree gives; the tree code is not modelled. */
    method Enable(cond: Cond, after: Tree)
      requires Valid() && cond.op == op && cond.right != Unknown && !cond.scheduled
      requires forall c :: c in keys && c.right == cond.right ==> c == cond
      requires Keys(after) == Keys(sub) + {cond} && ByAddress(after, addr)
      requires Injective(addr, Constants(after) + {operand})
      modifies this, cond`value
      ensures Valid() && keys == old(keys) + {cond} && operand == old(operand)
    {
      hide EvalRel, ByAddress, Keys, Points, Injective, Hit, Miss;
      assert MarkedFor(operand);
      Admit(cond);
      sub := after;
    }

    lemma NoKeys()
      requires Shape()
      ensures keys == Keys(sub) && (sub == Leaf <==> keys == {})
    {
      assert sub != Leaf ==> sub.key in keys;
    }

    /** With fewer constants the addresses still tell them apart. */
    lemma FewerConstants(after: Tree, gone: set<Cond>)
      requires Shape() && Keys(after) == Keys(sub) - gone
      ensures Injective(addr, Constants(after) + {operand})
      ensures after == Leaf <==> Keys(after) == {}
    {
      hide ByAddress, Distinct;
      assert Constants(after) <= Constants(sub);
      assert after != Leaf ==> after.key in Keys(after);
    }

    /** Cancel a subscription. The axon is destroyed with its last subscriber, and starts over with no mark. */
    method Disable(cond: Cond, after: Tree)
      requires Valid() && cond in keys
      requires Keys(after) == Keys(sub) - {cond} && ByAddress(after, addr)
      modifies this
      ensures Valid() && keys == old(keys) - {cond} && operand == old(operand)
    {
      hide EvalRel, ByAddress, Injective, Constants, Keys, Points;
      FewerConstants(after, {cond});
      Unmark(cond);
      sub := after;
      if sub == Leaf {
        mark := Null;
      }
    }

    /** A condition goes, and its mark with it. */
    method Unmark(cond: Cond)
      requires cond in keys && MarkedFor(operand)
      modifies this`keys, this`mark
      ensures keys == old(keys) - {cond} && (keys != {} ==> MarkedFor(operand))
    {
      if mark == Marked(cond) {
        mark := Null;
      }
      keys := keys - {cond};
    }
  }

  /** An axon with one condition. */
  method OneSubscriber(a: Cond, b: Cond) returns (axon: EqualityAxon)
    requires a.op == EQ && a.right == Text("aa") && !a.scheduled && b.right == Text("b")
    modifies a
    ensures axon.Valid() && axon.op == EQ && axon.keys == {a} && axon.addr == SomeAddress && axon.operand == Unknown
    ensures fresh(axon)
  {
    axon := new EqualityAxon(EQ, SomeAddress, Unknown);
    InSomeOrder(a, b, Node(Leaf, a, Leaf), Node(Node(Leaf, b, Leaf), a, Leaf));
    SameKeys(axon);
    hide *;
    axon.Enable(a, Node(Leaf, a, Leaf));
  }

  /** An axon with two conditions on the same operand. */
  method TwoSubscribers() returns (axon: EqualityAxon, a: Cond, b: Cond)
    ensures axon.Valid() && axon.op == EQ && axon.keys == {a, b} && axon.addr == SomeAddress && fresh({a, b})
    ensures fresh(axon)
    ensures a.right == Text("aa") && b.right == Text("b")
  {
    a := new Cond(EQ, Text("aa"));
    b := new Cond(EQ, Text("b"));
    axon := OneSubscriber(a, b);
    InSomeOrder(a, b, Node(Leaf, a, Leaf), Node(Node(Leaf, b, Leaf), a, Leaf));
    SameKeys(axon);
    hide *;
    axon.Enable(b, Node(Node(Leaf, b, Leaf), a, Leaf));
  }

  /** The axon at work: the condition whose constant is published is true, and marked. */
  method OneIsTrue() returns (axon: EqualityAxon, a: Cond, b: Cond)
    ensures axon.Valid() && axon.keys == {a, b} && axon.operand == Text("b")
    ensures axon.mark == Marked(b) && a.value == False && b.value == True
  {
    hide *;
    axon, a, b := TwoSubscribers();
    InUse(axon, a, b);
    axon.Publish(Text("b"));
    Outcomes(axon, a, b);
  }

  lemma SameKeys(axon: EqualityAxon)
    requires axon.Valid()
    ensures axon.keys == Keys(axon.sub)
  {
  }

  lemma InUse(axon: EqualityAxon, a: Cond, b: Cond)
    requires axon.Valid() && axon.keys == {a, b} && axon.addr == SomeAddress && a.right == Text("aa")
    requires b.right == Text("b")
    ensures Injective(SomeAddress, Constants(axon.sub) + {Text("b")})
  {
    assert Constants(axon.sub) == {Text("aa"), Text("b")};
  }

  lemma Outcomes(axon: EqualityAxon, a: Cond, b: Cond)
    requires axon.Valid() && axon.op == EQ && axon.keys == {a, b} && axon.operand == Text("b")
    requires a.right == Text("aa") && b.right == Text("b")
    ensures axon.mark == Marked(b) && a.value == False && b.value == True
  {
  }

  function SomeAddress(v: Value): int {
    match v
    case Text(t) => |t|
    case Real(_) => 0
    case True => -1
    case False => -2
    case Unknown => -3
  }

  lemma InSomeOrder(a: Cond, b: Cond, one: Tree, two: Tree)
    requires a.right == Text("aa") && b.right == Text("b") && one == Node(Leaf, a, Leaf)
    requires two == Node(Node(Leaf, b, Leaf), a, Leaf)
    ensures Keys(Leaf) == {} && Keys(one) == {a} && Keys(two) == {a} + {b}
    ensures ByAddress(one, SomeAddress) && ByAddress(two, SomeAddress)
    ensures Injective(SomeAddress, Constants(one) + {Unknown}) && Injective(SomeAddress, Constants(two) + {Unknown})
    ensures Injective(SomeAddress, Constants(two) + {Text("b")})
  {
    assert Keys(Node(Leaf, b, Leaf)) == {b} && ByAddress(Node(Leaf, b, Leaf), SomeAddress);
    assert Constants(one) == {Text("aa")};
    assert Constants(two) == {Text("aa"), Text("b")};
  }
}
