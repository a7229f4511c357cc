/** Hash-consed lists: lib/nblist.c on the hash tables of lib/nbhash.c. Objects stand for their addresses;
    a list is in the table once for each sequence of members. */
module HashLists {

  type Address = nat

  const LONG := 0x1_0000_0000_0000_0000
  const WORD := 0x1_0000_0000

  /** The hash code of a list (hashList): a sum in an unsigned long, cut to 32 bits. */
  function HashSum(members: seq<Address>, h: nat): nat {
    if members == [] then h else HashSum(members[1..], (h * 8 + members[0]) % LONG)
  }

  function HashCode(members: seq<Address>): nat {
    HashSum(members, 0) % WORD
  }

  /** The members as the digits of a number, to the base of eight. */
  function Digits(members: seq<Address>): nat {
    if members == [] then 0 else Digits(members[..|members| - 1]) * 8 + members[|members| - 1]
  }

  /** The hash code is that number, cut to 32 bits: the cut to 64 bits on the way does not matter. */
  lemma HashCodeIs(members: seq<Address>)
    ensures HashCode(members) == Digits(members) % WORD
  {
    HashSumIs(members);
    CutTwice(Digits(members));
  }

  lemma {:induction false} HashSumIs(members: seq<Address>)
    ensures HashSum(members, 0) == Digits(members) % LONG
  {
    if members == [] {
    } else {
      var init, last := members[..|members| - 1], members[|members| - 1];
      HashSumIs(init);
      HashSumSnoc(init, last, 0);
      assert init + [last] == members;
      CutOnTheWay(Digits(init), last);
    }
  }

  lemma {:induction false} HashSumSnoc(members: seq<Address>, last: Address, h: nat)
    ensures HashSum(members + [last], h) == (HashSum(members, h) * 8 + last) % LONG
  {
    if members == [] {
      assert HashSum([last], h) == HashSum([last][1..], (h * 8 + last) % LONG);
    } else {
      HashSumSnoc(members[1..], last, (h * 8 + members[0]) % LONG);
      assert (members + [last])[1..] == members[1..] + [last];
    }
  }

  lemma CutOnTheWay(x: nat, last: nat)
    ensures (x % LONG * 8 + last) % LONG == (x * 8 + last) % LONG
  {
    var q, r := x / LONG, x % LONG;
    assert x * 8 + last == q * 8 * LONG + (r * 8 + last);
    Multiples(q * 8, r * 8 + last, LONG);
  }

  lemma Multiples(q: nat, y: nat, n: nat)
    requires n > 0
    ensures (q * n + y) % n == y % n
  {
    var k, r := Division(y, n);
    assert q * n + y == (q + k) * n + r;
    Remainder(q * n + y, n, q + k, r);
    Remainder(y, n, k, r);
  }

  lemma CutTwice(x: nat)
    ensures x % LONG % WORD == x % WORD
  {
    var q, r := x / LONG, x % LONG;
    assert x == q * WORD * WORD + r;
    Multiples(q * WORD, r, WORD);
  }

  class ListCell {
    var next: ListCell?
    const hashcode: nat
    const members: seq<Address>

    constructor (hashcode: nat, members: seq<Address>, next: ListCell?)
      ensures this.hashcode == hashcode && this.members == members && this.next == next
    {
      this.hashcode, this.members, this.next := hashcode, members, next;
    }
  }

  /** The slot of a hash code: what is left of it by the mask, see MaskIsSlot. */
  function Slot(hashcode: nat, slots: nat): nat
    requires slots > 0
  {
    hashcode % slots
  }

  predicate PowerOfTwo(n: nat) {
    n == 1 || (n > 0 && n % 2 == 0 && PowerOfTwo(n / 2))
  }

  function BitAnd(x: nat, y: nat): nat {
    if x == 0 || y == 0 then 0 else (if x % 2 == 1 && y % 2 == 1 then 1 else 0) + 2 * BitAnd(x / 2, y / 2)
  }

  /** The number of slots is a power of two, so masking a hash code is taking a remainder. */
  lemma {:induction false} MaskIsSlot(hashcode: nat, slots: nat)
    requires PowerOfTwo(slots)
    ensures BitAnd(hashcode, slots - 1) == Slot(hashcode, slots)
    decreases slots
  {
    if slots == 1 {
    } else {
      hide Slot;
      var half := slots / 2;
      MaskIsSlot(hashcode / 2, half);
      assert slots == 2 * half && (slots - 1) / 2 == half - 1 && (slots - 1) % 2 == 1;
      HalfSlot(hashcode, half);
      ZeroSlot(half);
    }
  }

  lemma HalfSlot(x: nat, half: nat)
    requires half > 0
    ensures Slot(x, 2 * half) == x % 2 + 2 * Slot(x / 2, half)
  {
    var q, r := Division(x / 2, half);
    assert q * (2 * half) == 2 * (q * half);
    Remainder(x, 2 * half, q, x % 2 + 2 * r);
  }

  lemma ZeroSlot(slots: nat)
    requires slots > 0
    ensures Slot(0, slots) == 0
  {
  }

  /** A chain that starts at `head`. */
  ghost predicate Linked(head: ListCell?, cs: seq<ListCell>)
    reads cs`next
  {
    && head == (if cs == [] then null else cs[0])
    && (forall i {:trigger cs[i].next} :: 0 <= i < |cs| - 1 ==> cs[i].next == cs[i + 1])
    && (cs != [] ==> cs[|cs| - 1].next == null)
  }

  ghost predicate CellOk(c: ListCell) {
    c.members != [] && c.hashcode == HashCode(c.members)
  }

  /** The lists of a slot: sorted by their first member, and no two with the same members. */
  ghost predicate ChainOk(cs: seq<ListCell>, v: nat, slots: nat)
    requires slots > 0
  {
    && (forall i :: 0 <= i < |cs| ==> CellOk(cs[i]) && Slot(cs[i].hashcode, slots) == v)
    && (forall i, j :: 0 <= i < j < |cs| ==> cs[i].members[0] <= cs[j].members[0] && cs[i].members != cs[j].members)
  }

  /** The cells of a chain that go to slot `v` of a larger table, in order. */
  ghost function Kept(cs: seq<ListCell>, v: nat, slots: nat): seq<ListCell>
    requires slots > 0
  {
    if cs == [] then []
    else Kept(cs[..|cs| - 1], v, slots) + if Slot(cs[|cs| - 1].hashcode, slots) == v then [cs[|cs| - 1]] else []
  }

  lemma {:induction false} KeptOk(cs: seq<ListCell>, v: nat, slots: nat, c: ListCell)
    requires slots > 0
    ensures c in Kept(cs, v, slots) <==> c in cs && Slot(c.hashcode, slots) == v
  {
    if cs == [] {
    } else {
      KeptOk(cs[..|cs| - 1], v, slots, c);
      assert cs == cs[..|cs| - 1] + [cs[|cs| - 1]];
    }
  }

  /** Splitting a chain keeps its order. */
  lemma {:induction false} KeptIsSorted(cs: seq<ListCell>, u: nat, fewer: nat, v: nat, slots: nat)
    requires fewer > 0 && slots > 0 && ChainOk(cs, u, fewer)
    ensures ChainOk(Kept(cs, v, slots), v, slots)
  {
    if cs == [] {
    } else {
      var init, last := cs[..|cs| - 1], cs[|cs| - 1];
      KeptIsSorted(init, u, fewer, v, slots);
      var r := Kept(init, v, slots);
      forall i | 0 <= i < |r|
        ensures CellOk(r[i]) && r[i].members[0] <= last.members[0] && r[i].members != last.members
      {
        KeptOk(init, v, slots, r[i]);
        assert r[i] in init;
        var k :| 0 <= k < |init| && init[k] == r[i];
        assert cs[k] == r[i];
      }
    }
  }

  /** The two slots that a chain is split into. */
  lemma TwoSlots(hashcode: nat, v: nat, slots: nat)
    requires slots > 0 && Slot(hashcode, slots) == v
    ensures Slot(hashcode, 2 * slots) == v || Slot(hashcode, 2 * slots) == v + slots
    ensures Slot(Slot(hashcode, 2 * slots), slots) == v
  {
    hide Slot;
    var q, r := Division(hashcode, 2 * slots);
    Halves(hashcode, slots, q, r);
    Halves(r, slots, 0, r);
  }

  lemma Division(x: nat, d: nat) returns (q: nat, r: nat)
    requires d > 0
    ensures x == q * d + r && r < d && r == Slot(x, d)
  {
    q, r := x / d, x % d;
  }

  lemma Halves(x: nat, m: nat, q: nat, r: nat)
    requires m > 0 && r < 2 * m && x == q * (2 * m) + r
    ensures Slot(x, m) == if r < m then r else r - m
  {
    if r < m {
      assert x == (2 * q) * m + r;
      Remainder(x, m, 2 * q, r);
    } else {
      assert x == (2 * q + 1) * m + (r - m);
      Remainder(x, m, 2 * q + 1, r - m);
    }
  }

  /** The remainder is determined. */
  lemma Remainder(x: nat, m: nat, q: nat, r: nat)
    requires r < m && x == q * m + r
    ensures x % m == r
  {
    var p := x / m;
    assert x == p * m + x % m;
    AtLeast(p - q, m);
    AtLeast(q - p, m);
    assert (p - q) * m == p * m - q * m && (q - p) * m == q * m - p * m;
  }

  lemma AtLeast(a: int, m: nat)
    ensures a > 0 ==> a * m >= m
  {
  }

  // -------------------------------------------------------------------------------------------
  // Splitting a chain
  // -------------------------------------------------------------------------------------------

  /** The links of a chain whose last link is still to be set. */
  ghost predicate Open(head: ListCell?, tail: ListCell?, cs: seq<ListCell>)
    reads cs`next
  {
    && head == (if cs == [] then null else cs[0])
    && tail == (if cs == [] then null else cs[|cs| - 1])
    && (forall i {:trigger cs[i].next} :: 0 <= i < |cs| - 1 ==> cs[i].next == cs[i + 1])
  }

  ghost predicate Distinct(cs: seq<ListCell>) {
    forall i, j :: 0 <= i < j < |cs| ==> cs[i] != cs[j]
  }

  /** Put a cell behind the last one, while another chain and what follows stay as they are. */
  method Append(head: ListCell?, tail: ListCell?, c: ListCell, ghost cs: seq<ListCell>,
                ghost head2: ListCell?, ghost tail2: ListCell?, ghost other: seq<ListCell>,
                ghost next: ListCell?, ghost rest: seq<ListCell>) returns (head': ListCell?)
    requires Open(head, tail, cs) && Distinct(cs) && c !in cs
    requires Open(head2, tail2, other) && Linked(next, rest) && forall x :: x in cs ==> x !in other && x !in rest
    modifies (if tail == null then {} else {tail})`next
    ensures Open(head', c, cs + [c]) && Open(head2, tail2, other) && Linked(next, rest)
  {
    if tail == null {
      head' := c;
    } else {
      Tail(head, tail, cs);
      head' := head;
      tail.next := c;
    }
  }

  /** End a chain. */
  method Close(head: ListCell?, tail: ListCell?, ghost cs: seq<ListCell>)
    requires Open(head, tail, cs) && Distinct(cs)
    modifies (if tail == null then {} else {tail})`next
    ensures Linked(head, cs)
  {
    if tail != null {
      tail.next := null;
    }
  }

  /** The cells kept of a prefix are cells of it, in order; the next cell is added, or left out. */
  lemma {:induction false} KeptOfPrefix(cs: seq<ListCell>, i: nat, v: nat, slots: nat)
    requires slots > 0 && i <= |cs| && Distinct(cs)
    ensures Distinct(Kept(cs[..i], v, slots))
    ensures forall c :: c in Kept(cs[..i], v, slots) ==> c in cs
    ensures forall c :: c in Kept(cs[..i], v, slots) ==> Slot(c.hashcode, slots) == v
    ensures forall j :: i <= j < |cs| ==> cs[j] !in Kept(cs[..i], v, slots)
    ensures i < |cs| ==>
      Kept(cs[..i + 1], v, slots) ==
      if Slot(cs[i].hashcode, slots) == v then Kept(cs[..i], v, slots) + [cs[i]] else Kept(cs[..i], v, slots)
    ensures i == |cs| ==> cs[..i] == cs
    decreases i
  {
    if i < |cs| {
      assert cs[..i + 1][..i] == cs[..i];
    }
    if i > 0 {
      KeptOfPrefix(cs, i - 1, v, slots);
    }
  }

  /** Split the chain of slot `v` in two, by the next bit of the hash codes. */
  method SplitChain(head: ListCell?, v: nat, slots: nat, ghost cs: seq<ListCell>)
    returns (low: ListCell?, high: ListCell?)
    requires slots > 0 && v < slots && Linked(head, cs) && Distinct(cs)
    requires forall c :: c in cs ==> Slot(c.hashcode, slots) == v
    modifies cs`next
    ensures Linked(low, Kept(cs, v, 2 * slots)) && Linked(high, Kept(cs, v + slots, 2 * slots))
  {
    hide Kept, Slot, Open, Linked;
    low, high := null, null;
    var cell, lowTail: ListCell?, highTail: ListCell?, i := head, null, null, 0;
    ghost var a, b := [], [];
    Begins(cs, v, 2 * slots);
    Begins(cs, v + slots, 2 * slots);
    while cell != null
      invariant 0 <= i <= |cs| && a == Kept(cs[..i], v, 2 * slots) && b == Kept(cs[..i], v + slots, 2 * slots)
      invariant Open(low, lowTail, a) && Open(high, highTail, b)
      invariant Linked(cell, cs[i..])
      decreases |cs| - i
    {
      Ended(cell, cs[i..]);
      low, high, lowTail, highTail, cell := SplitOne(low, high, lowTail, highTail, cell, v, slots, cs, i, a, b);
      i := i + 1;
      a, b := Kept(cs[..i], v, 2 * slots), Kept(cs[..i], v + slots, 2 * slots);
    }
    Ended(cell, cs[i..]);
    KeptOfPrefix(cs, i, v, 2 * slots);
    KeptOfPrefix(cs, i, v + slots, 2 * slots);
    Apart(cs, i, v, slots);
    Tail(low, lowTail, a);
    Tail(high, highTail, b);
    Close(low, lowTail, a);
    Close(high, highTail, b);
  }

  lemma Tail(head: ListCell?, tail: ListCell?, cs: seq<ListCell>)
    requires Open(head, tail, cs)
    ensures tail != null ==> tail in cs
  {
  }

  /** A cell goes to one of the two chains only. */
  lemma Apart(cs: seq<ListCell>, i: nat, v: nat, slots: nat)
    requires slots > 0 && i <= |cs| && Distinct(cs)
    ensures forall c :: c in Kept(cs[..i], v, 2 * slots) ==>
      c in cs && c !in Kept(cs[..i], v + slots, 2 * slots) && c !in cs[i..]
    ensures forall c :: c in Kept(cs[..i], v + slots, 2 * slots) ==> c in cs && c !in cs[i..]
  {
    hide *;
    KeptOfPrefix(cs, i, v, 2 * slots);
    KeptOfPrefix(cs, i, v + slots, 2 * slots);
  }

  lemma Begins(cs: seq<ListCell>, v: nat, slots: nat)
    requires slots > 0
    ensures Kept(cs[..0], v, slots) == [] && cs[0..] == cs && Open(null, null, [])
  {
  }

  lemma Ended(head: ListCell?, cs: seq<ListCell>)
    requires Linked(head, cs)
    ensures head == null <==> cs == []
  {
  }

  method SplitOne(low0: ListCell?, high0: ListCell?, lowTail0: ListCell?, highTail0: ListCell?, cell: ListCell,
                  v: nat, slots: nat, ghost cs: seq<ListCell>, ghost i: nat, ghost a: seq<ListCell>,
                  ghost b: seq<ListCell>)
    returns (low: ListCell?, high: ListCell?, lowTail: ListCell?, highTail: ListCell?, next: ListCell?)
    requires slots > 0 && v < slots && i < |cs| && Distinct(cs) && forall c :: c in cs ==> Slot(c.hashcode, slots) == v
    requires a == Kept(cs[..i], v, 2 * slots) && b == Kept(cs[..i], v + slots, 2 * slots)
    requires Open(low0, lowTail0, a) && Open(high0, highTail0, b) && Linked(cell, cs[i..])
    modifies cs`next
    ensures Open(low, lowTail, Kept(cs[..i + 1], v, 2 * slots))
    ensures Open(high, highTail, Kept(cs[..i + 1], v + slots, 2 * slots))
    ensures Linked(next, cs[i + 1..])
  {
    hide *;
    ghost var rest := cs[i + 1..];
    KeptOfPrefix(cs, i, v, 2 * slots);
    KeptOfPrefix(cs, i, v + slots, 2 * slots);
    TwoSlots(cs[i].hashcode, v, slots);
    NextOf(cell, cs, i);
    Disjoint(cs, i, v, slots, a, b, rest);
    Tail(low0, lowTail0, a);
    Tail(high0, highTail0, b);
    next := cell.next;
    low, high, lowTail, highTail := low0, high0, lowTail0, highTail0;
    if Slot(cell.hashcode, 2 * slots) == v {
      low := Append(low, lowTail, cell, a, high, highTail, b, next, rest);
      lowTail := cell;
    } else {
      high := Append(high, highTail, cell, b, low, lowTail, a, next, rest);
      highTail := cell;
    }
  }

  lemma Disjoint(cs: seq<ListCell>, i: nat, v: nat, slots: nat, a: seq<ListCell>, b: seq<ListCell>, rest: seq<ListCell>)
    requires slots > 0 && i < |cs| && Distinct(cs) && rest == cs[i + 1..]
    requires a == Kept(cs[..i], v, 2 * slots) && b == Kept(cs[..i], v + slots, 2 * slots)
    ensures Distinct(a) && cs[i] !in a && forall x :: x in a ==> x in cs && x !in b && x !in rest
    ensures Distinct(b) && cs[i] !in b && forall x :: x in b ==> x in cs && x !in a && x !in rest
  {
    hide Kept;
    Apart(cs, i, v, slots);
    KeptOfPrefix(cs, i, v, 2 * slots);
    KeptOfPrefix(cs, i, v + slots, 2 * slots);
    assert cs[i..] == [cs[i]] + rest;
  }

  lemma NextOf(cell: ListCell, cs: seq<ListCell>, i: nat)
    requires i < |cs| && Linked(cell, cs[i..])
    ensures cell == cs[i] && Linked(cell.next, cs[i + 1..])
  {
    var rest := cs[i..];
    assert rest[1..] == cs[i + 1..];
    forall j {:trigger cs[i + 1..][j].next} | 0 <= j < |rest| - 2 ensures cs[i + 1..][j].next == cs[i + 1..][j + 1] {
      assert rest[j + 1].next == rest[j + 2];
    }
  }

  // -------------------------------------------------------------------------------------------
  // The table
  // -------------------------------------------------------------------------------------------

  lemma ChainIsDistinct(cs: seq<ListCell>, v: nat, slots: nat)
    requires slots > 0 && ChainOk(cs, v, slots)
    ensures Distinct(cs) && forall c :: c in cs ==> Slot(c.hashcode, slots) == v
  {
  }

  /** All slots of a table are in order. */
  ghost predicate Slotted(chains: seq<seq<ListCell>>) {
    forall v :: 0 <= v < |chains| ==> ChainOk(chains[v], v, |chains|)
  }

  /** The table holds the lists of the set, each in the chain of its slot. */
  ghost predicate Tabled(chains: seq<seq<ListCell>>, lists: set<ListCell>)
    requires |chains| > 0
  {
    && (forall c :: c in lists ==> c in chains[Slot(c.hashcode, |chains|)])
    && (forall v, i :: 0 <= v < |chains| && 0 <= i < |chains[v]| ==> chains[v][i] in lists)
  }

  /** The table after doubling: each slot keeps, in order, the cells that belong to it. */
  ghost function Doubled(chains: seq<seq<ListCell>>): seq<seq<ListCell>> {
    seq(2 * |chains|, v requires 0 <= v < 2 * |chains| =>
      Kept(chains[if v < |chains| then v else v - |chains|], v, 2 * |chains|))
  }

  /** Nothing is lost by doubling, and everything is where it is looked for. */
  lemma DoubledOk(chains: seq<seq<ListCell>>, lists: set<ListCell>)
    requires |chains| > 0 && Slotted(chains) && Tabled(chains, lists)
    ensures Slotted(Doubled(chains)) && Tabled(Doubled(chains), lists)
  {
    var n, d := |chains|, Doubled(chains);
    forall v | 0 <= v < |d| ensures ChainOk(d[v], v, |d|) {
      var u := if v < n then v else v - n;
      KeptIsSorted(chains[u], u, n, v, 2 * n);
    }
    DoubledTabled(chains, lists);
    hide ChainOk, Tabled, Kept;
  }

  lemma DoubledTabled(chains: seq<seq<ListCell>>, lists: set<ListCell>)
    requires |chains| > 0 && Tabled(chains, lists)
    ensures Tabled(Doubled(chains), lists)
  {
    var n, d := |chains|, Doubled(chains);
    forall c | c in lists ensures c in d[Slot(c.hashcode, |d|)] {
      var u := Slot(c.hashcode, n);
      TwoSlots(c.hashcode, u, n);
      KeptOk(chains[u], Slot(c.hashcode, |d|), 2 * n, c);
    }
    forall v, i | 0 <= v < |d| && 0 <= i < |d[v]| ensures d[v][i] in lists {
      var u := if v < n then v else v - n;
      KeptOk(chains[u], v, 2 * n, d[v][i]);
      assert d[v][i] in chains[u];
    }
  }

  ghost predicate NoneIn(cs: seq<ListCell>, others: seq<ListCell>) {
    forall i :: 0 <= i < |cs| ==> cs[i] !in others
  }

  lemma {:induction false} KeptNotIn(cs: seq<ListCell>, v: nat, slots: nat, others: seq<ListCell>)
    requires slots > 0 && NoneIn(cs, others)
    ensures NoneIn(Kept(cs, v, slots), others)
  {
    if cs == [] {
    } else {
      KeptNotIn(cs[..|cs| - 1], v, slots, others);
    }
  }

  ghost function With(cs: seq<ListCell>, k: nat, c: ListCell): seq<ListCell>
    requires k <= |cs|
  {
    cs[..k] + [c] + cs[k..]
  }

  ghost function Without(cs: seq<ListCell>, k: nat): seq<ListCell>
    requires k < |cs|
  {
    cs[..k] + cs[k + 1..]
  }

  /** The place where a list with these members belongs, and that it is not there yet. */
  ghost predicate PlaceFor(cs: seq<ListCell>, k: nat, members: seq<Address>) {
    && k <= |cs| && members != [] && (forall i :: 0 <= i < |cs| ==> cs[i].members != [])
    && (forall i :: 0 <= i < k ==> cs[i].members[0] <= members[0] && cs[i].members != members)
    && (forall i :: k <= i < |cs| ==> members[0] < cs[i].members[0])
  }

  lemma WithKeepsOrder(cs: seq<ListCell>, v: nat, slots: nat, k: nat, c: ListCell)
    requires slots > 0 && ChainOk(cs, v, slots) && PlaceFor(cs, k, c.members)
    requires CellOk(c) && Slot(c.hashcode, slots) == v
    ensures ChainOk(With(cs, k, c), v, slots)
  {
    var r := With(cs, k, c);
    assert forall i :: 0 <= i < k ==> r[i] == cs[i];
    assert forall i :: k < i < |r| ==> r[i] == cs[i - 1];
    hide CellOk, Slot;
  }

  lemma WithoutKeepsOrder(cs: seq<ListCell>, v: nat, slots: nat, k: nat)
    requires slots > 0 && ChainOk(cs, v, slots) && k < |cs|
    ensures ChainOk(Without(cs, k), v, slots)
  {
    var r := Without(cs, k);
    assert forall i :: 0 <= i < k ==> r[i] == cs[i];
    assert forall i :: k <= i < |r| ==> r[i] == cs[i + 1];
    hide CellOk, Slot;
  }

  /** The table with another list, or with one list less. */
  lemma SlottedWith(chains: seq<seq<ListCell>>, lists: set<ListCell>, v: nat, k: nat, c: ListCell)
    requires |chains| > 0 && Slotted(chains) && Tabled(chains, lists)
    requires CellOk(c) && v < |chains| && v == Slot(c.hashcode, |chains|) && PlaceFor(chains[v], k, c.members)
    ensures var r := chains[v := With(chains[v], k, c)]; Slotted(r) && Tabled(r, lists + {c})
  {
    WithKeepsOrder(chains[v], v, |chains|, k, c);
    TabledWith(chains, lists, v, k, c);
    hide ChainOk, CellOk, Slot, PlaceFor, Tabled, With;
  }

  lemma TabledWith(chains: seq<seq<ListCell>>, lists: set<ListCell>, v: nat, k: nat, c: ListCell)
    requires |chains| > 0 && Tabled(chains, lists) && v < |chains| && v == Slot(c.hashcode, |chains|)
    requires k <= |chains[v]|
    ensures Tabled(chains[v := With(chains[v], k, c)], lists + {c})
  {
    var cs, r := chains[v], chains[v := With(chains[v], k, c)];
    assert cs == cs[..k] + cs[k..] && With(cs, k, c)[k] == c;
    forall x | x in lists + {c} ensures x in r[Slot(x.hashcode, |r|)] {
      assert x != c ==> x in chains[Slot(x.hashcode, |chains|)];
    }
    forall w, i | 0 <= w < |r| && 0 <= i < |r[w]| ensures r[w][i] in lists + {c} {
      if w == v {
        assert r[w][i] == if i < k then cs[i] else if i == k then c else cs[i - 1];
      }
    }
  }

  lemma SlottedWithout(chains: seq<seq<ListCell>>, lists: set<ListCell>, v: nat, k: nat)
    requires v < |chains| && Slotted(chains) && Tabled(chains, lists) && k < |chains[v]|
    ensures var r := chains[v := Without(chains[v], k)]; Slotted(r) && Tabled(r, lists - {chains[v][k]})
  {
    WithoutKeepsOrder(chains[v], v, |chains|, k);
    TabledWithout(chains, lists, v, k);
    hide ChainOk, CellOk, Slot, Tabled, Without;
  }

  lemma TabledWithout(chains: seq<seq<ListCell>>, lists: set<ListCell>, v: nat, k: nat)
    requires v < |chains| && Slotted(chains) && Tabled(chains, lists) && k < |chains[v]|
    ensures Tabled(chains[v := Without(chains[v], k)], lists - {chains[v][k]})
  {
    var cs, r, c := chains[v], chains[v := Without(chains[v], k)], chains[v][k];
    ChainIsDistinct(cs, v, |chains|);
    hide ChainOk, CellOk, Slot;
    assert cs == cs[..k] + [c] + cs[k + 1..];
    forall x | x in lists - {c} ensures x in r[Slot(x.hashcode, |r|)] {
      assert x in chains[Slot(x.hashcode, |chains|)];
    }
    forall w, i | 0 <= w < |r| && 0 <= i < |r[w]| ensures r[w][i] in lists - {c} {
      if w == v {
        assert r[w][i] == if i < k then cs[i] else cs[i + 1];
      } else {
        ChainIsDistinct(chains[w], w, |chains|);
        assert Slot(r[w][i].hashcode, |chains|) == w;
      }
    }
  }

  /** Link a cell in between two neighbours; its own link is set already. */
  method LinkIn(head: ListCell?, prior: ListCell?, c: ListCell, ghost k: nat, ghost cs: seq<ListCell>)
    returns (head': ListCell?)
    requires Linked(head, cs) && Distinct(cs) && k <= |cs| && c !in cs
    requires prior == (if k > 0 then cs[k - 1] else null) && c.next == (if k < |cs| then cs[k] else null)
    modifies (if prior == null then {} else {prior})`next
    ensures Linked(head', With(cs, k, c))
  {
    ghost var r := With(cs, k, c);
    assert forall i :: 0 <= i < k ==> r[i] == cs[i];
    assert forall i :: k < i < |r| ==> r[i] == cs[i - 1];
    if prior == null {
      head' := c;
    } else {
      head' := head;
      prior.next := c;
    }
    forall i {:trigger r[i].next} | 0 <= i < |r| - 1 ensures r[i].next == r[i + 1] {
      if i < k - 1 {
        assert cs[i].next == cs[i + 1];
      } else if i > k {
        assert cs[i - 1].next == cs[i];
      }
    }
  }

  /** Take a cell out. */
  method LinkOut(head: ListCell?, prior: ListCell?, c: ListCell, ghost k: nat, ghost cs: seq<ListCell>)
    returns (head': ListCell?)
    requires Linked(head, cs) && Distinct(cs) && k < |cs| && c == cs[k]
    requires prior == (if k > 0 then cs[k - 1] else null)
    modifies (if prior == null then {} else {prior})`next
    ensures Linked(head', Without(cs, k))
  {
    ghost var r := Without(cs, k);
    assert forall i :: 0 <= i < k ==> r[i] == cs[i];
    assert forall i :: k <= i < |r| ==> r[i] == cs[i + 1];
    assert c.next == if k + 1 < |cs| then cs[k + 1] else null;
    if prior == null {
      head' := c.next;
    } else {
      head' := head;
      prior.next := c.next;
    }
    forall i {:trigger r[i].next} | 0 <= i < |r| - 1 ensures r[i].next == r[i + 1] {
      if i < k - 1 {
        assert cs[i].next == cs[i + 1];
      } else if i >= k {
        assert cs[i + 1].next == cs[i + 2];
      }
    }
  }

  /** Compare two lists member by member. */
  method SameMembers(a: seq<Address>, b: seq<Address>) returns (same: bool)
    requires a != [] && b != [] && a[0] == b[0]
    ensures same <==> a == b
  {
    var i := 1;
    while i < |a| && i < |b| && a[i] == b[i]
      invariant 1 <= i <= |a| && i <= |b| && a[..i] == b[..i]
    {
      i := i + 1;
    }
    same := i == |a| && i == |b|;
    assert same ==> a[..i] == a && b[..i] == b;
    assert a == b ==> |a| == |b|;
  }

  /** Lists with members, sorted by the first one. */
  ghost predicate Ascending(cs: seq<ListCell>) {
    && (forall i :: 0 <= i < |cs| ==> cs[i].members != [])
    && forall i, j :: 0 <= i < j < |cs| ==> cs[i].members[0] <= cs[j].members[0]
  }

  /** A cursor on a chain, and the cell before it. */
  ghost predicate Cursor(prior: ListCell?, cell: ListCell?, k: nat, cs: seq<ListCell>) {
    && k <= |cs|
    && prior == (if k > 0 then cs[k - 1] else null) && cell == (if k < |cs| then cs[k] else null)
  }

  lemma CursorMoves(head: ListCell?, prior: ListCell?, cell: ListCell?, k: nat, cs: seq<ListCell>)
    requires Linked(head, cs) && Cursor(prior, cell, k, cs) && cell != null
    ensures k < |cs| && cell == cs[k] && Cursor(cell, cell.next, k + 1, cs)
  {
  }

  /** Pass the lists with smaller first members. */
  method PassSmaller(head: ListCell?, members: seq<Address>, ghost cs: seq<ListCell>)
    returns (prior: ListCell?, cell: ListCell?, ghost k: nat)
    requires Linked(head, cs) && Ascending(cs) && members != []
    ensures Cursor(prior, cell, k, cs) && forall i :: 0 <= i < k ==> cs[i].members[0] < members[0]
    ensures cell != null ==> k < |cs| && cs[k].members[0] >= members[0]
  {
    prior, cell, k := null, head, 0;
    hide Linked;
    while cell != null && cell.members[0] < members[0]
      invariant Cursor(prior, cell, k, cs) && forall i :: 0 <= i < k ==> cs[i].members[0] < members[0]
      decreases |cs| - k
    {
      CursorMoves(head, prior, cell, k, cs);
      prior, cell, k := cell, cell.next, k + 1;
    }
  }

  /** Search a chain for a list with these members (the two loops of useList). The search ends early: the chain is
      sorted by the first member. */
  method Search(head: ListCell?, members: seq<Address>, ghost cs: seq<ListCell>)
    returns (found: ListCell?, prior: ListCell?, cell: ListCell?, ghost k: nat)
    requires Linked(head, cs) && Ascending(cs) && members != []
    ensures found != null ==> found in cs && found.members == members
    ensures found == null ==> Cursor(prior, cell, k, cs) && PlaceFor(cs, k, members)
  {
    found := null;
    prior, cell, k := PassSmaller(head, members, cs);
    hide Linked;
    while cell != null && cell.members[0] == members[0]
      invariant Cursor(prior, cell, k, cs)
      invariant forall i :: 0 <= i < k ==> cs[i].members[0] <= members[0] && cs[i].members != members
      invariant cell != null ==> cs[k].members[0] >= members[0]
      decreases |cs| - k
    {
      CursorMoves(head, prior, cell, k, cs);
      var same := SameMembers(cell.members, members);
      if same {
        found := cell;
        return;
      }
      prior, cell, k := cell, cell.next, k + 1;
    }
  }

  class Table {
    var vect: array<ListCell?>
    var mask: nat
    var objects: nat
    var limit: nat
    /** The list without members; it is not in the table. */
    const nullList: ListCell
    ghost var chains: seq<seq<ListCell>>
    ghost var lists: set<ListCell>

    ghost predicate Shape()
      reads this`vect, this`mask, this`chains, this`lists
    {
      && vect.Length == mask + 1 == |chains| && PowerOfTwo(|chains|)
      && Slotted(chains) && Tabled(chains, lists) && nullList !in lists && nullList.members == []
    }

    ghost predicate Valid()
      reads this`vect, this`mask, this`chains, this`lists, vect, lists`next
    {
      Shape() && forall v :: 0 <= v < |chains| ==> Linked(vect[v], chains[v])
    }

    /** A table with a number of slots, 8 if none is given (nbHashNew). It grows when it is 75 percent full. */
    constructor (modulo: nat)
      requires modulo == 0 || PowerOfTwo(modulo)
      ensures Valid() && lists == {} && objects == 0 && fresh(vect)
      ensures mask + 1 == if modulo == 0 then 8 else modulo
      ensures limit == (mask + 1) * 3 / 4
    {
      var slots := if modulo == 0 then 8 else modulo;
      vect := new ListCell?[slots](i => null);
      mask := slots - 1;
      objects := 0;
      limit := slots * 3 / 4;
      nullList := new ListCell(0, [], null);
      chains := seq(slots, i => []);
      lists := {};
    }

    /** Lists with the same members are the same list. */
    lemma Canonical(c: ListCell, d: ListCell)
      requires Valid() && c in lists && d in lists && c.members == d.members
      ensures c == d
    {
      var v := Slot(c.hashcode, |chains|);
      assert CellOk(c) && CellOk(d) by {
        Placed(c);
        Placed(d);
      }
      assert c in chains[v] && d in chains[v];
    }

    lemma Placed(c: ListCell)
      requires Shape() && c in lists
      ensures CellOk(c) && Slot(c.hashcode, |chains|) < |chains| && c in chains[Slot(c.hashcode, |chains|)]
    {
      var v := Slot(c.hashcode, |chains|);
      assert ChainOk(chains[v], v, |chains|);
    }

    ghost predicate Todo(now: array<ListCell?>, w: nat)
      requires w < |chains| <= vect.Length && now.Length == 2 * |chains|
      reads this`vect, this`chains, vect, now, chains[w]`next
    {
      Linked(vect[w], chains[w]) && now[w] == null && now[w + |chains|] == null
    }

    static ghost predicate Done(now: array<ListCell?>, goal: seq<seq<ListCell>>, w: nat)
      requires now.Length == |goal| && 2 * w < |goal| && |goal| % 2 == 0
      reads now, goal[w]`next, goal[w + |goal| / 2]`next
    {
      Linked(now[w], goal[w]) && Linked(now[w + |goal| / 2], goal[w + |goal| / 2])
    }

    /** The chains of different slots have no cell in common. */
    lemma OtherSlot(v: nat, w: nat, goal: seq<seq<ListCell>>)
      requires Shape() && v < |chains| && w < |chains| && v != w && goal == Doubled(chains)
      ensures NoneIn(chains[w], chains[v])
      ensures NoneIn(goal[w], chains[v]) && NoneIn(goal[w + |chains|], chains[v])
    {
      SlotIsOk(v);
      SlotIsOk(w);
      hide Slotted, Tabled, Kept, ChainOk, Distinct;
      KeptNotIn(chains[w], w, 2 * |chains|, chains[v]);
      KeptNotIn(chains[w], w + |chains|, 2 * |chains|, chains[v]);
    }

    lemma NothingKept(v: nat, slots: nat)
      requires slots > 0
      ensures Kept([], v, slots) == []
    {
    }

    /** Split the chain of one slot. The chains of the other slots, old and new, stay as they are. */
    method SplitSlot(now: array<ListCell?>, v: nat, slots: nat, ghost goal: seq<seq<ListCell>>)
      returns (low: ListCell?, high: ListCell?)
      requires Shape() && slots == |chains| && v < slots && now.Length == 2 * slots && goal == Doubled(chains)
      requires forall w :: v <= w < slots ==> Todo(now, w)
      requires forall w :: 0 <= w < v ==> Done(now, goal, w)
      modifies chains[v]`next
      ensures Linked(low, goal[v]) && Linked(high, goal[v + slots])
      ensures forall w :: v < w < slots ==> Todo(now, w)
      ensures forall w :: 0 <= w < v ==> Done(now, goal, w)
    {
      hide Kept, Slotted, Tabled, Slot, ChainOk, Distinct, Linked, Doubled, Shape, Todo, Done, CellOk;
      InShape();
      DoubledAt(chains);
      SlotIsOk(v);
      Starts(now, v);
      low, high := SplitChain(vect[v], v, slots, chains[v]);
      forall w | v < w < slots ensures Todo(now, w) {
        assert old(Todo(now, w));
        OtherSlot(v, w, goal);
      }
      forall w | 0 <= w < v ensures Done(now, goal, w) {
        assert old(Done(now, goal, w));
        OtherSlot(v, w, goal);
      }
    }

    /** One step of the growth. */
    method GrowSlot(now: array<ListCell?>, v: nat, slots: nat, ghost goal: seq<seq<ListCell>>)
      requires Shape() && slots == |chains| && v < slots && now.Length == 2 * slots && now != vect
      requires goal == Doubled(chains)
      requires forall w :: v <= w < slots ==> Todo(now, w)
      requires forall w :: 0 <= w < v ==> Done(now, goal, w)
      modifies now, chains[v]`next
      ensures forall w :: v < w < slots ==> Todo(now, w)
      ensures forall w :: 0 <= w <= v ==> Done(now, goal, w)
    {
      hide Kept, Slotted, Tabled, Doubled, Linked, Shape, Todo, Done;
      InShape();
      DoubledAt(chains);
      Starts(now, v);
      NothingKept(v, 2 * slots);
      NothingKept(v + slots, 2 * slots);
      if vect[v] != null {
        var low, high := SplitSlot(now, v, slots, goal);
        Record(now, v, slots, low, high, goal);
      } else {
        EmptyIsDone(now, goal, v);
      }
    }

    static lemma EmptyIsDone(now: array<ListCell?>, goal: seq<seq<ListCell>>, v: nat)
      requires now.Length == |goal| && 2 * v < |goal| && |goal| % 2 == 0
      requires now[v] == null && now[v + |goal| / 2] == null && goal[v] == [] == goal[v + |goal| / 2]
      ensures Done(now, goal, v)
    {
    }

    method Record(now: array<ListCell?>, v: nat, slots: nat, low: ListCell?, high: ListCell?,
                  ghost goal: seq<seq<ListCell>>)
      requires slots == |chains| <= vect.Length && v < slots && now.Length == 2 * slots == |goal| && now != vect
      requires Linked(low, goal[v]) && Linked(high, goal[v + slots])
      requires forall w :: v < w < slots ==> Todo(now, w)
      requires forall w :: 0 <= w < v ==> Done(now, goal, w)
      modifies now
      ensures forall w :: v < w < slots ==> Todo(now, w)
      ensures forall w :: 0 <= w <= v ==> Done(now, goal, w)
    {
      hide Linked;
      now[v] := low;
      now[v + slots] := high;
      forall w | v < w < slots ensures Todo(now, w) {
        assert old(Todo(now, w));
      }
      forall w | 0 <= w < v ensures Done(now, goal, w) {
        assert old(Done(now, goal, w));
      }
    }

    lemma InShape()
      requires Shape()
      ensures vect.Length == |chains| > 0
    {
    }

    lemma InTable(v: nat)
      requires Shape() && v < |chains|
      ensures forall c :: c in chains[v] ==> c in lists
    {
    }

    lemma SlotIsOk(v: nat)
      requires Shape() && v < |chains|
      ensures ChainOk(chains[v], v, |chains|) && Distinct(chains[v])
      ensures forall c :: c in chains[v] ==> Slot(c.hashcode, |chains|) == v
    {
      ChainIsDistinct(chains[v], v, |chains|);
    }

    lemma Starts(now: array<ListCell?>, v: nat)
      requires v < |chains| <= vect.Length && now.Length == 2 * |chains| && Todo(now, v)
      ensures Linked(vect[v], chains[v]) && now[v] == null && now[v + |chains|] == null
      ensures vect[v] == null ==> chains[v] == []
      ensures Linked(null, [])
    {
    }

    /** Double the table (nbHashGrow). */
    method Grow()
      requires Valid()
      modifies this`vect, this`mask, this`limit, this`chains, lists`next
      ensures Valid() && fresh(vect) && chains == Doubled(old(chains)) && limit == (mask + 1) * 3 / 4
      ensures mask + 1 == 2 * (old(mask) + 1)
    {
      hide Slotted, Tabled, Kept, Linked, Doubled, Todo, Done;
      Facts();
      ghost var goal := Doubled(chains);
      DoubledAt(chains);
      DoubledOk(chains, lists);
      var slots := mask + 1;
      var now := new ListCell?[2 * slots](i => null);
      AllTodo(now);
      var v := 0;
      while v < slots
        invariant 0 <= v <= slots && Shape() && slots == |chains| && chains == old(chains) && now != vect
        invariant forall w :: v <= w < slots ==> Todo(now, w)
        invariant forall w :: 0 <= w < v ==> Done(now, goal, w)
      {
        InTable(v);
        GrowSlot(now, v, slots, goal);
        v := v + 1;
      }
      AllDone(now, goal);
      vect := now;
      mask := 2 * slots - 1;
      limit := 2 * slots * 3 / 4;
      chains := goal;
    }

    lemma AllTodo(now: array<ListCell?>)
      requires Valid() && now.Length == 2 * |chains| && forall k :: 0 <= k < now.Length ==> now[k] == null
      ensures forall w :: 0 <= w < |chains| ==> Todo(now, w)
    {
    }

    lemma AllDone(now: array<ListCell?>, goal: seq<seq<ListCell>>)
      requires now.Length == |goal| == 2 * |chains| && forall w :: 0 <= w < |chains| ==> Done(now, goal, w)
      ensures forall w :: 0 <= w < |goal| ==> Linked(now[w], goal[w])
    {
      forall w | 0 <= w < |goal| ensures Linked(now[w], goal[w]) {
        assert Done(now, goal, if w < |chains| then w else w - |chains|);
      }
    }

    lemma DoubledAt(chains: seq<seq<ListCell>>)
      requires |chains| > 0
      ensures |Doubled(chains)| == 2 * |chains|
      ensures forall w :: 0 <= w < 2 * |chains| ==>
        Doubled(chains)[w] == Kept(chains[if w < |chains| then w else w - |chains|], w, 2 * |chains|)
    {
    }

    ghost predicate Held(w: nat)
      requires w < |chains| <= vect.Length
      reads this`vect, this`chains, vect, chains[w]`next
    {
      Linked(vect[w], chains[w])
    }

    lemma Holding()
      requires Shape()
      ensures Valid() <==> forall w :: 0 <= w < |chains| ==> Held(w)
    {
      if forall w :: 0 <= w < |chains| ==> Held(w) {
        forall w | 0 <= w < |chains| ensures Linked(vect[w], chains[w]) {
          assert Held(w);
        }
      }
    }

    /** Everything a search of slot `v` needs. */
    lemma SlotFacts(v: nat)
      requires Valid() && v < |chains|
      ensures Linked(vect[v], chains[v]) && Ascending(chains[v]) && Distinct(chains[v])
      ensures forall c :: c in chains[v] ==> c in lists
    {
      SlotIsOk(v);
    }

    /** Chains of other slots are not touched. */
    lemma OtherChain(v: nat, w: nat)
      requires Shape() && v < |chains| && w < |chains| && v != w
      ensures NoneIn(chains[w], chains[v])
    {
      SlotIsOk(v);
      SlotIsOk(w);
    }

    /** Put a new list into its place. */
    method Enter(c: ListCell, prior: ListCell?, v: nat, ghost k: nat)
      requires Valid() && c !in lists && CellOk(c) && c != nullList && v < |chains| && v == Slot(c.hashcode, |chains|)
      requires PlaceFor(chains[v], k, c.members) && Cursor(prior, c.next, k, chains[v])
      modifies vect, (if prior == null then {} else {prior})`next, this`chains, this`lists
      ensures Valid() && lists == old(lists) + {c}
    {
      hide Slotted, Tabled, Linked, ChainOk, CellOk, Slot, PlaceFor, Shape, Valid, With;
      Facts();
      SlotFacts(v);
      SlottedWith(chains, lists, v, k, c);
      Holding();
      var head := LinkIn(vect[v], prior, c, k, chains[v]);
      vect[v] := head;
      forall w | 0 <= w < |chains| && w != v ensures Linked(vect[w], chains[w]) {
        assert old(Held(w));
        OtherChain(v, w);
      }
      chains := chains[v := With(chains[v], k, c)];
      lists := lists + {c};
      Facts'();
      Holding();
    }

    lemma Facts()
      requires Valid()
      ensures Shape() && vect.Length == mask + 1 == |chains| && Slotted(chains) && Tabled(chains, lists)
      ensures PowerOfTwo(|chains|) && PowerOfTwo(2 * |chains|)
      ensures nullList !in lists && nullList.members == []
    {
    }

    lemma Facts'()
      requires vect.Length == mask + 1 == |chains| && Slotted(chains) && Tabled(chains, lists)
      requires nullList !in lists && nullList.members == [] && PowerOfTwo(|chains|)
      ensures Shape()
    {
    }

    /** Take a list out. */
    method Remove(prior: ListCell?, c: ListCell, v: nat, ghost k: nat)
      requires Valid() && v < |chains| && k < |chains[v]| && c == chains[v][k] && Cursor(prior, c, k, chains[v])
      modifies vect, (if prior == null then {} else {prior})`next, this`chains, this`lists
      ensures Valid() && lists == old(lists) - {c}
    {
      hide Slotted, Tabled, Linked, ChainOk, CellOk, Slot, Shape, Valid, Without;
      Facts();
      SlotFacts(v);
      SlottedWithout(chains, lists, v, k);
      Holding();
      var head := LinkOut(vect[v], prior, c, k, chains[v]);
      vect[v] := head;
      forall w | 0 <= w < |chains| && w != v ensures Linked(vect[w], chains[w]) {
        assert old(Held(w));
        OtherChain(v, w);
      }
      chains := chains[v := Without(chains[v], k)];
      lists := lists - {c};
      Facts'();
      Holding();
    }

    /** The list with these members: the one in the table, or a new one (useList). */
    method UseList(members: seq<Address>) returns (list: ListCell)
      requires Valid()
      modifies this, vect, lists`next
      ensures Valid() && list.members == members
      ensures members == [] ==> list == nullList && lists == old(lists) && objects == old(objects)
      ensures members != [] ==> list in lists
      ensures if members == [] || (exists c :: c in old(lists) && c.members == members)
        then lists == old(lists) && objects == old(objects)
        else fresh(list) && lists == old(lists) + {list} && objects == old(objects) + 1
      ensures if objects > old(objects) && objects >= old(limit)
        then mask + 1 == 2 * (old(mask) + 1) && limit == (mask + 1) * 3 / 4
        else mask == old(mask) && limit == old(limit)
    {
      hide Slotted, Tabled, Linked, ChainOk, CellOk, Slot, PlaceFor, Valid, HashCode;
      Facts();
      if members == [] {
        return nullList;
      }
      var hashcode := HashCode(members);
      var v := Slot(hashcode, mask + 1);
      SlotBelow(hashcode, mask + 1);
      SlotFacts(v);
      var found, prior, cell;
      ghost var k;
      found, prior, cell, k := Search(vect[v], members, chains[v]);
      if found != null {
        return found;
      }
      NotThere(members, v, k);
      list := new ListCell(hashcode, members, cell);
      NewCellOk(list);
      Enter(list, prior, v, k);
      objects := objects + 1;
      if objects >= limit {
        Grow();
      }
    }

    lemma NewCellOk(c: ListCell)
      requires c.members != [] && c.hashcode == HashCode(c.members)
      ensures CellOk(c)
    {
    }

    lemma SlotBelow(hashcode: nat, slots: nat)
      requires slots > 0
      ensures Slot(hashcode, slots) < slots
    {
    }

    /** A search that finds nothing is right: a list with these members would be in this chain. */
    lemma NotThere(members: seq<Address>, v: nat, k: nat)
      requires Valid() && v < |chains| && v == Slot(HashCode(members), |chains|) && PlaceFor(chains[v], k, members)
      ensures forall c :: c in lists ==> c.members != members
    {
      forall c | c in lists ensures c.members != members {
        Placed(c);
        var w := Slot(c.hashcode, |chains|);
        var i :| 0 <= i < |chains[w]| && chains[w][i] == c;
        if w == v && i >= k {
          assert members[0] < c.members[0];
        }
      }
    }

    /** Take a list out of the table (destroyList). The count of objects is not reduced. */
    method Destroy(list: ListCell)
      requires Valid()
      modifies this`chains, this`lists, vect, lists`next
      ensures Valid() && lists == old(lists) - {list}
    {
      hide Slotted, Tabled, Linked, ChainOk, CellOk, Slot, Valid;
      Facts();
      var v := Slot(list.hashcode, mask + 1);
      SlotBelow(list.hashcode, mask + 1);
      SlotFacts(v);
      var prior: ListCell?, cell := null, vect[v];
      ghost var k, cs := 0, chains[v];
      Begins(vect[v], cs);
      while cell != null && cell != list
        invariant k <= |cs| && Cursor(prior, cell, k, cs) && list !in cs[..k]
        modifies {}
        decreases |cs| - k
      {
        CursorMoves(vect[v], prior, cell, k, cs);
        assert cs[..k + 1] == cs[..k] + [cs[k]];
        prior, cell, k := cell, cell.next, k + 1;
      }
      if cell != null {
        Remove(prior, list, v, k);
      } else {
        assert cs[..k] == cs;
        OnlyThere(list, v);
      }
    }

    static lemma Begins(head: ListCell?, cs: seq<ListCell>)
      requires Linked(head, cs)
      ensures Cursor(null, head, 0, cs)
    {
    }

    /** A list that is not in the chain of its slot is not in the table. */
    lemma OnlyThere(list: ListCell, v: nat)
      requires Valid() && v < |chains| && v == Slot(list.hashcode, |chains|) && list !in chains[v]
      ensures list !in lists && lists == lists - {list}
    {
    }
  }
}
