/** The line queue of lib/nbmedulla.c: bytes go in by chunks and come out by lines. The bytes are kept in a
    chain of buffers; buffers that are used up go to a free list that all queues share. */
module LineQueue {

  type Byte = b: nat | b < 256

  const NEWLINE: Byte := 10
  const BUFSIZE := 16 * 1024
  const POOL_MAX := 16

  // -------------------------------------------------------------------------------------------
  // Byte streams
  // -------------------------------------------------------------------------------------------

  /** The length of the first line: up to the first newline, or all there is. */
  function LineLength(s: seq<Byte>): (n: nat)
    ensures n <= |s| && NEWLINE !in s[..n] && (n < |s| ==> s[n] == NEWLINE)
  {
    if s == [] || s[0] == NEWLINE then 0
    else
      var n := LineLength(s[1..]);
      assert s[..n + 1] == [s[0]] + s[1..][..n];
      n + 1
  }

  /** The first newline is where it is. */
  lemma LineLengthIs(s: seq<Byte>, n: nat)
    requires n <= |s| && NEWLINE !in s[..n] && (n < |s| ==> s[n] == NEWLINE)
    ensures LineLength(s) == n
  {
    var m := LineLength(s);
    forall i | 0 <= i < n ensures s[i] != NEWLINE {
      assert s[i] == s[..n][i];
    }
    forall i | 0 <= i < m ensures s[i] != NEWLINE {
      assert s[i] == s[..m][i];
    }
  }

  function Flatten(parts: seq<seq<Byte>>): seq<Byte> {
    if parts == [] then [] else parts[0] + Flatten(parts[1..])
  }

  lemma {:induction false} FlattenConcat(a: seq<seq<Byte>>, b: seq<seq<Byte>>)
    ensures Flatten(a + b) == Flatten(a) + Flatten(b)
  {
    if a == [] {
      assert a + b == b;
    } else {
      FlattenConcat(a[1..], b);
      assert (a + b)[1..] == a[1..] + b;
      var x, y, z := a[0], Flatten(a[1..]), Flatten(b);
      assert Flatten(a + b) == x + Flatten((a + b)[1..]);
      hide Flatten;
      assert x + (y + z) == x + y + z;
    }
  }

  lemma FlattenOne(p: seq<Byte>)
    ensures Flatten([p]) == p
  {
    assert Flatten([p][1..]) == [];
  }

  /** More bytes in the last part. */
  lemma FlattenLast(parts: seq<seq<Byte>>, more: seq<Byte>)
    requires parts != []
    ensures Flatten(parts[|parts| - 1 := parts[|parts| - 1] + more]) == Flatten(parts) + more
  {
    var n := |parts| - 1;
    var init, last := parts[..n], parts[n];
    assert parts == init + [last] && parts[n := last + more] == init + [last + more];
    FlattenConcat(init, [last]);
    FlattenConcat(init, [last + more]);
    FlattenOne(last);
    FlattenOne(last + more);
  }

  lemma FlattenAt(parts: seq<seq<Byte>>, k: nat)
    requires k < |parts|
    ensures Flatten(parts[..k + 1]) == Flatten(parts[..k]) + parts[k]
    ensures Flatten(parts) == Flatten(parts[..k]) + parts[k] + Flatten(parts[k + 1..])
    ensures Flatten(parts[k..]) == parts[k] + Flatten(parts[k + 1..])
  {
    FlattenConcat(parts[..k], [parts[k]]);
    FlattenOne(parts[k]);
    assert parts[..k] + [parts[k]] == parts[..k + 1];
    FlattenConcat(parts[..k + 1], parts[k + 1..]);
    assert parts[..k + 1] + parts[k + 1..] == parts;
    assert parts[k..][1..] == parts[k + 1..];
  }

  lemma FlattenAll(parts: seq<seq<Byte>>)
    ensures parts[..|parts|] == parts && Flatten(parts[..0]) == []
  {
  }

  /** The first part with a newline tells where the first line ends. */
  lemma FirstLine(parts: seq<seq<Byte>>, k: nat, text: seq<Byte>)
    requires k < |parts| && text == Flatten(parts[..k]) && NEWLINE !in text && LineLength(parts[k]) < |parts[k]|
    ensures LineLength(Flatten(parts)) == |text| + LineLength(parts[k]) < |Flatten(parts)|
  {
    FlattenAt(parts, k);
    var s, n, d := Flatten(parts), |text| + LineLength(parts[k]), LineLength(parts[k]);
    hide Flatten, LineLength;
    assert s[..n] == text + parts[k][..d];
    LineLengthIs(s, n);
  }

  /** Taking `j` bytes from part `k`, and dropping the next one and all parts before. */
  lemma CutAt(parts: seq<seq<Byte>>, k: nat, text: seq<Byte>, j: nat)
    requires k < |parts| && text == Flatten(parts[..k]) && j < |parts[k]|
    ensures |text| + j < |Flatten(parts)| && Flatten(parts)[..|text| + j] == text + parts[k][..j]
    ensures Flatten([parts[k][j + 1..]] + parts[k + 1..]) == Flatten(parts)[|text| + j + 1..]
  {
    FlattenAt(parts, k);
    var rest := [parts[k][j + 1..]] + parts[k + 1..];
    assert rest[1..] == parts[k + 1..];
    assert Flatten(rest) == parts[k][j + 1..] + Flatten(parts[k + 1..]);
  }

  /** No line ends in the first parts. */
  lemma NoLineYet(parts: seq<seq<Byte>>, k: nat, text: seq<Byte>)
    requires k < |parts| && text == Flatten(parts[..k]) && NEWLINE !in text && LineLength(parts[k]) == |parts[k]|
    ensures NEWLINE !in text + parts[k]
    ensures LineLength(Flatten(parts)) >= |text| + |parts[k]|
  {
    FlattenAt(parts, k);
    var s, n := Flatten(parts), LineLength(Flatten(parts));
    assert parts[k][..|parts[k]|] == parts[k];
    hide Flatten;
    var p := text + parts[k];
    forall i | 0 <= i < |p| ensures s[i] != NEWLINE {
      assert s[i] == p[i];
    }
  }

  // -------------------------------------------------------------------------------------------
  // Buffers
  // -------------------------------------------------------------------------------------------

  class Buffer {
    var next: Buffer?
    const page: array<Byte>
    /** The bytes from `data` up to `free` are in the queue. */
    var data: nat
    var free: nat

    constructor ()
      ensures page.Length == BUFSIZE && fresh(page)
    {
      next, data, free := null, 0, 0;
      page := new Byte[BUFSIZE];
    }
  }

  /** The buffers have pages of their own. */
  ghost predicate Separate(bs: seq<Buffer>) {
    && (forall b :: b in bs ==> b.page.Length == BUFSIZE)
    && (forall i, j :: 0 <= i < j < |bs| ==> bs[i] != bs[j] && bs[i].page != bs[j].page)
  }

  ghost predicate Chained(head: Buffer?, bs: seq<Buffer>)
    reads bs`next
  {
    && head == (if bs == [] then null else bs[0])
    && (forall i {:trigger bs[i].next} :: 0 <= i < |bs| - 1 ==> bs[i].next == bs[i + 1])
    && (bs != [] ==> bs[|bs| - 1].next == null)
  }

  /** The free list. A buffer that does not fit in it is returned to the system. */
  class Pool {
    var freeBuffer: Buffer?
    var count: nat
    ghost var chain: seq<Buffer>
    ghost var released: set<Buffer>

    ghost predicate Valid()
      reads this, chain`next
    {
      && Chained(freeBuffer, chain) && Separate(chain) && count == |chain| <= POOL_MAX
      && forall b :: b in chain ==> b !in released
    }

    constructor ()
      ensures Valid() && chain == [] && released == {}
    {
      freeBuffer, count, chain, released := null, 0, [], {};
    }

    /** Take a buffer from the free list, or a new one (nbMedullaBufferAlloc). */
    method Alloc() returns (b: Buffer)
      requires Valid()
      modifies this`freeBuffer, this`count, this`chain, chain
      ensures Valid() && b !in chain && b !in released && b.page.Length == BUFSIZE
      ensures if old(chain) == [] then fresh(b) && fresh(b.page) && chain == []
        else b == old(chain)[0] && chain == old(chain)[1..]
      ensures forall c :: c in chain ==> c.page != b.page
      ensures b.next == null && b.data == b.free == 0 && released == old(released)
      ensures forall c :: c in old(chain) && c != b ==> unchanged(c)
    {
      if freeBuffer == null {
        b := new Buffer();
      } else {
        b := freeBuffer;
        assert b == chain[0] && (|chain| > 1 ==> b.next == chain[1]);
        freeBuffer := b.next;
        count := count - 1;
        chain := chain[1..];
      }
      b.next := null;
      b.data := 0;
      b.free := 0;
    }

    /** Give a buffer back (nbMedullaBufferFree). It must not be free already. */
    method Free(b: Buffer)
      requires Valid() && b !in chain && b !in released
      requires b.page.Length == BUFSIZE && forall c :: c in chain ==> c.page != b.page
      modifies this`freeBuffer, this`count, this`chain, this`released, b`next
      ensures Valid()
      ensures if |old(chain)| < POOL_MAX then chain == [b] + old(chain) && released == old(released)
              else chain == old(chain) && released == old(released) + {b}
    {
      if count < POOL_MAX {
        b.next := freeBuffer;
        freeBuffer := b;
        count := count + 1;
        chain := [b] + chain;
      } else {
        released := released + {b};
      }
    }
  }

  // -------------------------------------------------------------------------------------------
  // The queue
  // -------------------------------------------------------------------------------------------

  /** What a get should come to, when the queue holds `s`: the first line, or nothing if no line is complete. */
  predicate GotLine(s: seq<Byte>, r: Result, s': seq<Byte>) {
    var n := LineLength(s);
    if n == |s| then r == NoLine && s' == s else r == Line(s[..n]) && s' == s[n + 1..]
  }

  /** The number of bytes in front of the buffer in which the first line ends. */
  function InFront(parts: seq<seq<Byte>>): nat {
    if parts == [] || LineLength(parts[0]) < |parts[0]| then 0 else |parts[0]| + InFront(parts[1..])
  }

  /** What a get comes to when the buffers hold `parts`: the first line, if it is not longer than the size. A longer
      line is cut, and loses the byte at the cut, when the buffer in which it ends begins within the size.
      If it does not, the program ends. */
  predicate Got(parts: seq<seq<Byte>>, size: nat, r: Result, s': seq<Byte>) {
    var s := Flatten(parts);
    if LineLength(s) <= size then GotLine(s, r, s')
    else if LineLength(s) < |s| && InFront(parts) <= size then r == Line(s[..size]) && s' == s[size + 1..]
    else r == Fatal && s' == s
  }

  /** The first lines of the first `k` buffers are longer than the buffers. */
  lemma {:induction false} InFrontIs(parts: seq<seq<Byte>>, k: nat)
    requires k <= |parts| && forall i :: 0 <= i < k ==> LineLength(parts[i]) == |parts[i]|
    ensures InFront(parts) >= |Flatten(parts[..k])|
    ensures k < |parts| && LineLength(parts[k]) < |parts[k]| ==> InFront(parts) == |Flatten(parts[..k])|
  {
    if k == 0 {
      assert parts[..0] == [];
    } else {
      InFrontIs(parts[1..], k - 1);
      assert parts[..k][1..] == parts[1..][..k - 1];
    }
  }

  /** Exactly when a get does what it should: the first line is not longer than the size. */
  lemma LinesThatFit(parts: seq<seq<Byte>>, size: nat, r: Result, s': seq<Byte>)
    requires Got(parts, size, r, s')
    ensures LineLength(Flatten(parts)) <= size <==> GotLine(Flatten(parts), r, s')
  {
    if LineLength(Flatten(parts)) > size && r.Line? {
      assert |r.text| == size;
    }
  }

  /** The complete lines of a stream. */
  function Lines(s: seq<Byte>): seq<seq<Byte>> {
    var n := LineLength(s);
    if n == |s| then [] else [s[..n]] + Lines(s[n + 1..])
  }

  /** The lines as they stand in a stream, each with its newline. */
  function Unlines(lines: seq<seq<Byte>>): seq<Byte> {
    if lines == [] then [] else lines[0] + [NEWLINE] + Unlines(lines[1..])
  }

  /** The lines of a stream are the stream, up to what comes behind the last newline; and there is no newline within a
      line. */
  lemma {:induction false} LinesAreTheStream(s: seq<Byte>) returns (rest: seq<Byte>)
    ensures s == Unlines(Lines(s)) + rest && NEWLINE !in rest
    ensures forall i :: 0 <= i < |Lines(s)| ==> NEWLINE !in Lines(s)[i]
  {
    hide Lines, Unlines, LineLength;
    var n := LineLength(s);
    FirstOfLines(s);
    if n == |s| {
      assert s[..n] == s && [] + s == s;
      rest := s;
    } else {
      var more := s[n + 1..];
      rest := LinesAreTheStream(more);
      var line, lines := s[..n] + [NEWLINE], Lines(more);
      assert s == line + more;
      assert line + (Unlines(lines) + rest) == line + Unlines(lines) + rest;
    }
  }

  lemma FirstOfLines(s: seq<Byte>)
    ensures var n := LineLength(s);
      if n == |s| then Lines(s) == [] && Unlines(Lines(s)) == []
      else
        && Lines(s) == [s[..n]] + Lines(s[n + 1..])
        && Unlines(Lines(s)) == s[..n] + [NEWLINE] + Unlines(Lines(s[n + 1..]))
  {
    hide LineLength;
    var n := LineLength(s);
    if n < |s| {
      assert Lines(s)[1..] == Lines(s[n + 1..]);
    }
  }

  datatype Event = Puts(msg: seq<Byte>) | Gets(size: nat, r: Result)

  /** What happens at a queue that holds `s` leads to `e`, and no line is longer than the size asked for. */
  ghost predicate Happens(s: seq<Byte>, events: seq<Event>, e: seq<Byte>)
    decreases |events|
  {
    if events == [] then s == e
    else match events[0]
      case Puts(msg) => Happens(s + msg, events[1..], e)
      case Gets(size, r) =>
        LineLength(s) <= size && exists s' :: GotLine(s, r, s') && Happens(s', events[1..], e)
  }

  function Input(events: seq<Event>): seq<Byte> {
    if events == [] then [] else (if events[0].Puts? then events[0].msg else []) + Input(events[1..])
  }

  function Output(events: seq<Event>): seq<seq<Byte>> {
    if events == [] then []
    else (if events[0].Gets? && events[0].r.Line? then [events[0].r.text] else []) + Output(events[1..])
  }

  /** Bytes behind a complete line do not change it. */
  lemma LineFirst(s: seq<Byte>, more: seq<Byte>)
    requires LineLength(s) < |s|
    ensures LineLength(s + more) == LineLength(s)
    ensures (s + more)[LineLength(s) + 1..] == s[LineLength(s) + 1..] + more
    ensures Lines(s + more) == [s[..LineLength(s)]] + Lines(s[LineLength(s) + 1..] + more)
  {
    var n := LineLength(s);
    assert (s + more)[..n] == s[..n];
    LineLengthIs(s + more, n);
  }

  /** Whatever the order of puts and gets, and however the bytes are cut into chunks, the lines that come out,
      followed by those still in the queue, are the lines of what was put in. A get finds no line only when
      there is none. */
  lemma {:induction false} StreamOfLines(s: seq<Byte>, events: seq<Event>, e: seq<Byte>)
    requires Happens(s, events, e)
    ensures Lines(s + Input(events)) == Output(events) + Lines(e)
    ensures events != [] && events[0].Gets? ==> (events[0].r == NoLine <==> Lines(s) == [])
    decreases |events|
  {
    hide GotLine, Lines, LineLength;
    if events == [] {
      assert s + [] == s && [] + Lines(e) == Lines(e);
    } else {
      var rest := events[1..];
      assert [] + Input(rest) == Input(rest) && [] + Output(rest) == Output(rest);
      match events[0]
      case Puts(msg) =>
        StreamOfLines(s + msg, rest, e);
        assert s + msg + Input(rest) == s + (msg + Input(rest));
      case Gets(size, r) =>
        var s' :| GotLine(s, r, s') && Happens(s', rest, e);
        StreamOfLines(s', rest, e);
        GetStep(s, r, s', Input(rest), Output(rest), Lines(e));
    }
  }

  lemma GetStep(s: seq<Byte>, r: Result, s': seq<Byte>, more: seq<Byte>, out: seq<seq<Byte>>, left: seq<seq<Byte>>)
    requires GotLine(s, r, s') && Lines(s' + more) == out + left
    ensures Lines(s + more) == (if r.Line? then [r.text] else []) + out + left
    ensures r == NoLine <==> Lines(s) == []
  {
    hide Lines, LineLength;
    LinesBegin(s);
    if LineLength(s) < |s| {
      LineFirst(s, more);
      assert r == Line(s[..LineLength(s)]) && s' == s[LineLength(s) + 1..];
      assert [r.text] + out + left == [r.text] + (out + left);
    } else {
      assert [] + out + left == out + left;
    }
  }

  lemma LinesBegin(s: seq<Byte>)
    ensures Lines(s) == [] <==> LineLength(s) == |s|
  {
  }

  /** What a search for a newline comes to. */
  datatype Search = Missing | Here | TooLong

  /** What a caller gets: no complete line; a line; or nothing, because the line does not fit (the program ends). */
  datatype Result = NoLine | Line(text: seq<Byte>) | Fatal

  /** The bytes in each buffer; only the last buffer has space left. */
  ghost predicate Holds(bs: seq<Buffer>, parts: seq<seq<Byte>>)
    requires Separate(bs)
    reads bs`data, bs`free, set b | b in bs :: b.page
  {
    && |bs| == |parts|
    && (forall i :: 0 <= i < |bs| ==>
      bs[i].data <= bs[i].free <= BUFSIZE && bs[i].page[bs[i].data..bs[i].free] == parts[i])
    && (forall i :: 0 <= i < |bs| - 1 ==> bs[i].free == BUFSIZE)
  }

  /** Copy bytes behind the ones that are in the last buffer. */
  method CopyIn(buf: Buffer, msg: seq<Byte>, ghost bs: seq<Buffer>, ghost parts: seq<seq<Byte>>)
    requires Separate(bs) && Holds(bs, parts) && bs != [] && buf == bs[|bs| - 1] && buf.free + |msg| <= BUFSIZE
    modifies buf`free, buf.page
    ensures buf.free == old(buf.free) + |msg|
    ensures Holds(bs, parts[|bs| - 1 := parts[|bs| - 1] + msg])
  {
    var i := 0;
    while i < |msg|
      invariant 0 <= i <= |msg| && buf.free == old(buf.free)
      invariant forall k :: 0 <= k < i ==> buf.page[buf.free + k] == msg[k]
      invariant forall k :: 0 <= k < buf.free ==> buf.page[k] == old(buf.page[k])
    {
      buf.page[buf.free + i] := msg[i];
      i := i + 1;
    }
    ghost var n := |bs| - 1;
    assert buf.page[buf.data..buf.free] == parts[n];
    buf.free := buf.free + |msg|;
    assert buf.page[buf.data..buf.free] == parts[n] + msg;
  }

  lemma SeparateSnoc(bs: seq<Buffer>, b: Buffer)
    requires Separate(bs) && b !in bs && b.page.Length == BUFSIZE && forall c :: c in bs ==> c.page != b.page
    ensures Separate(bs + [b])
  {
  }

  lemma HoldsSnoc(bs: seq<Buffer>, parts: seq<seq<Byte>>, b: Buffer)
    requires Separate(bs) && Separate(bs + [b]) && Holds(bs, parts) && b.data == b.free == 0
    requires bs != [] ==> bs[|bs| - 1].free == BUFSIZE
    ensures Holds(bs + [b], parts + [[]])
  {
  }

  lemma ChainedOne(b: Buffer)
    ensures b.next == null ==> Chained(b, [] + [b])
  {
  }

  method LinkLast(head: Buffer?, last: Buffer, b: Buffer, ghost bs: seq<Buffer>)
    requires Chained(head, bs) && Separate(bs) && bs != [] && last == bs[|bs| - 1] && b !in bs && b.next == null
    modifies last`next
    ensures Chained(head, bs + [b])
  {
    last.next := b;
  }

  ghost function All(chain: seq<Buffer>, free: seq<Buffer>, released: set<Buffer>): set<Buffer> {
    (set b | b in chain) + (set b | b in free) + released
  }

  lemma MovesToFree(chain: seq<Buffer>, free: seq<Buffer>, released: set<Buffer>)
    requires chain != []
    ensures All(chain[1..], [chain[0]] + free, released) == All(chain, free, released)
    ensures All(chain[1..], free, released + {chain[0]}) == All(chain, free, released)
  {
    assert chain == [chain[0]] + chain[1..];
    assert forall b :: b in [chain[0]] + free <==> b == chain[0] || b in free;
    assert forall b :: b in chain <==> b == chain[0] || b in chain[1..];
  }

  class Queue {
    const pool: Pool
    var getbuf: Buffer?
    var putbuf: Buffer?
    ghost var chain: seq<Buffer>
    ghost var parts: seq<seq<Byte>>

    ghost predicate Own()
      reads this, chain, set b | b in chain :: b.page
    {
      && Separate(chain) && Chained(getbuf, chain) && Holds(chain, parts)
      && putbuf == (if chain == [] then null else chain[|chain| - 1])
    }

    /** The buffers in the queue are not free. */
    ghost predicate Apart()
      reads this`chain, pool`chain, pool`released
    {
      forall b :: b in chain ==>
        b !in pool.chain && b !in pool.released && forall c :: c in pool.chain ==> b.page != c.page
    }

    ghost predicate Valid()
      reads this, chain, set b | b in chain :: b.page
      reads pool, pool.chain`next
    {
      pool.Valid() && Own() && Apart()
    }

    /** The bytes in the queue. */
    ghost function Contents(): seq<Byte>
      reads this`parts
    {
      Flatten(parts)
    }

    constructor (pool: Pool)
      requires pool.Valid()
      ensures Valid() && Contents() == [] && this.pool == pool && chain == []
    {
      this.pool := pool;
      getbuf, putbuf, chain, parts := null, null, [], [];
    }

    /** Copy bytes to the free space of the last buffer. */
    method Fill(msg: seq<Byte>)
      requires Valid() && chain != [] && putbuf != null && putbuf.free + |msg| <= BUFSIZE
      modifies this`parts, putbuf`free, putbuf.page
      ensures Valid() && Contents() == old(Contents()) + msg
      ensures putbuf.free == old(putbuf.free) + |msg|
      ensures |old(parts)| == |chain| && parts == old(parts)[|chain| - 1 := old(parts)[|chain| - 1] + msg]
    {
      hide Own, Apart, Pool.Valid, Flatten;
      FillOwn(msg);
    }

    lemma Opened()
      requires Own()
      ensures Separate(chain) && Chained(getbuf, chain) && Holds(chain, parts) && |chain| == |parts|
      ensures putbuf == if chain == [] then null else chain[|chain| - 1]
    {
    }

    lemma Closed()
      requires Separate(chain) && Chained(getbuf, chain) && Holds(chain, parts)
      requires putbuf == if chain == [] then null else chain[|chain| - 1]
      ensures Own()
    {
    }

    method FillOwn(msg: seq<Byte>)
      requires Own() && chain != [] && putbuf != null && putbuf.free + |msg| <= BUFSIZE
      modifies this`parts, putbuf`free, putbuf.page
      ensures Own() && Contents() == old(Contents()) + msg
      ensures putbuf.free == old(putbuf.free) + |msg|
      ensures |old(parts)| == |chain| && parts == old(parts)[|chain| - 1 := old(parts)[|chain| - 1] + msg]
    {
      hide Own, Separate, Chained, Holds, Flatten;
      Opened();
      FlattenLast(parts, msg);
      ghost var now := parts[|chain| - 1 := parts[|chain| - 1] + msg];
      CopyIn(putbuf, msg, chain, parts);
      parts := now;
      Closed();
    }

    /** Put another buffer behind the last one, which is full. */
    method Grow()
      requires Valid() && (chain == [] || (putbuf != null && putbuf.free == BUFSIZE))
      modifies this, chain`next, pool, pool.chain
      ensures Valid() && Contents() == old(Contents()) && putbuf != null && putbuf.free == 0
      ensures parts == old(parts) + [[]]
      ensures chain == old(chain) + [putbuf] && pool.released == old(pool.released)
      ensures if old(pool.chain) == [] then fresh(putbuf) && fresh(putbuf.page) && pool.chain == []
              else putbuf == old(pool.chain)[0] && pool.chain == old(pool.chain)[1..]
    {
      assert chain != [] ==> putbuf in chain;
      hide Separate, Holds, Chained, Pool.Valid;
      var b := pool.Alloc();
      assert forall c :: c in chain ==> unchanged(c);
      Attach(b);
    }

    /** Link a buffer in behind the last one. */
    method Attach(b: Buffer)
      requires Valid() && (chain == [] || (putbuf != null && putbuf.free == BUFSIZE))
      requires b !in chain && b !in pool.chain && b !in pool.released && b.page.Length == BUFSIZE
      requires b.next == null && b.data == b.free == 0
      requires forall c :: c in chain || c in pool.chain ==> c.page != b.page
      modifies this, chain`next
      ensures Valid() && Contents() == old(Contents()) && chain == old(chain) + [b] && putbuf == b
      ensures parts == old(parts) + [[]]
    {
      hide Own, Pool.Valid, Flatten;
      assert forall c :: c in pool.chain ==> c !in chain;
      AttachOwn(b);
      assert forall c :: c in pool.chain ==> unchanged(c);
      assert unchanged(pool);
      assert forall c :: c in pool.chain ==> c.next == old(c.next);
      assert pool.Valid();
    }

    method AttachOwn(b: Buffer)
      requires Own() && (chain == [] || (putbuf != null && putbuf.free == BUFSIZE))
      requires b !in chain && b.page.Length == BUFSIZE && b.next == null && b.data == b.free == 0
      requires forall c :: c in chain ==> c.page != b.page
      modifies this, chain`next
      ensures Own() && Contents() == old(Contents()) && chain == old(chain) + [b] && putbuf == b
      ensures parts == old(parts) + [[]]
    {
      FlattenConcat(parts, [[]]);
      FlattenOne([]);
      SeparateSnoc(chain, b);
      HoldsSnoc(chain, parts, b);
      ChainedOne(b);
      hide Flatten, Holds, Separate, Chained;
      if putbuf == null {
        getbuf := b;
      } else {
        LinkLast(getbuf, putbuf, b, chain);
      }
      putbuf := b;
      chain := chain + [b];
      parts := parts + [[]];
    }

    /** All buffers that are in the queue, free, or returned to the system. */
    ghost function Buffers(): set<Buffer>
      reads this`chain, pool`chain, pool`released
    {
      All(chain, pool.chain, pool.released)
    }

    /** The buffers in the queue and the free ones. */
    ghost function Mine(): set<Buffer>
      reads this`chain, pool`chain
    {
      (set b | b in chain) + (set b | b in pool.chain)
    }

    lemma Ends()
      requires Own()
      ensures (putbuf == null <==> chain == []) && |chain| == |parts|
      ensures putbuf != null ==> putbuf in chain && putbuf.free <= BUFSIZE
    {
    }

    /** Put text into the queue (nbMedullaQueuePut). Copying would stop at a NUL byte. */
    method Put(msg: seq<Byte>) returns (size: nat)
      requires Valid() && 0 !in msg
      modifies this, pool, Mine(), set b | b in Mine() :: b.page
      ensures Valid() && Contents() == old(Contents()) + msg && size == |msg|
      ensures old(chain) == [] && |msg| <= BUFSIZE ==> parts == [msg]
      ensures old(Buffers()) <= Buffers() && fresh(Buffers() - old(Buffers()))
    {
      hide Own, Apart, Pool.Valid, Flatten;
      Ends();
      if putbuf == null {
        Grow();
      }
      Ends();
      PutInto(msg);
      assert [] + msg == msg;
      size := |msg|;
    }

    /** Put text into the last buffer, and into further ones as it gets full. */
    method PutInto(msg: seq<Byte>)
      requires Valid() && putbuf != null && putbuf in chain && putbuf.free <= BUFSIZE && |chain| == |parts|
      modifies this, pool, Mine(), set b | b in Mine() :: b.page
      ensures Valid() && Contents() == old(Contents()) + msg
      ensures |msg| <= BUFSIZE - old(putbuf.free) ==>
        parts == old(parts)[|old(parts)| - 1 := old(parts)[|old(parts)| - 1] + msg]
      ensures old(Buffers()) <= Buffers() && fresh(Buffers() - old(Buffers()))
    {
      hide Own, Apart, Pool.Valid, Flatten;
      if |msg| <= BUFSIZE - putbuf.free {
        Fill(msg);
        return;
      }
      var pos := 0;
      assert old(Contents()) + msg[..0] == old(Contents());
      while BUFSIZE - putbuf.free < |msg| - pos
        invariant Valid() && putbuf != null && putbuf in chain && putbuf.free <= BUFSIZE
        invariant pos <= |msg| && Contents() == old(Contents()) + msg[..pos]
        invariant fresh(Mine() - old(Mine())) && putbuf in Mine()
        invariant forall b :: b in Mine() ==> b in old(Mine()) || fresh(b.page)
        invariant old(Buffers()) <= Buffers() && fresh(Buffers() - old(Buffers()))
        decreases |msg| - pos, putbuf.free
      {
        pos := PutPart(msg, pos, old(Contents()));
      }
      Fill(msg[pos..]);
      assert msg == msg[..pos] + msg[pos..];
      assert old(Contents()) + msg[..pos] + msg[pos..] == old(Contents()) + msg;
    }

    /** Fill up the last buffer, and go on with a new one. */
    method PutPart(msg: seq<Byte>, pos: nat, ghost before: seq<Byte>) returns (pos': nat)
      requires Valid() && putbuf != null && putbuf in chain && putbuf.free <= BUFSIZE
      requires pos <= |msg| && BUFSIZE - putbuf.free < |msg| - pos
      requires Contents() == before + msg[..pos]
      modifies this, pool, Mine(), putbuf.page
      ensures Valid() && putbuf != null && putbuf in chain && putbuf.free == 0
      ensures pos' == pos + BUFSIZE - old(putbuf.free) && pos' <= |msg| && Contents() == before + msg[..pos']
      ensures fresh(Mine() - old(Mine())) && putbuf in Mine()
      ensures forall b :: b in Mine() ==> b in old(Mine()) || fresh(b.page)
      ensures old(Buffers()) <= Buffers() && fresh(Buffers() - old(Buffers()))
    {
      hide Own, Apart, Pool.Valid, Flatten;
      var len := BUFSIZE - putbuf.free;
      pos' := pos + len;
      assert before + msg[..pos] + msg[pos..pos'] == before + msg[..pos'];
      Fill(msg[pos..pos']);
      Grow();
    }

    /** Look for the first newline, and collect what is in front of its buffer, while it fits. */
    method Find(size: nat) returns (r: Search, buf: Buffer?, text: seq<Byte>, d: nat, ghost k: nat)
      requires Own()
      ensures r == Missing ==> NEWLINE !in Contents() && |Contents()| <= size
      ensures r != Missing ==>
        && k < |chain| == |parts| && buf == chain[k] && text == Flatten(parts[..k]) && |text| <= size
        && NEWLINE !in text && d == LineLength(parts[k])
        && forall i :: 0 <= i < k ==> LineLength(parts[i]) == |parts[i]|
      ensures r == Here ==> d < |parts[k]|
      ensures r == TooLong ==> d == |parts[k]| && |text| + |parts[k]| > size
    {
      hide Flatten, LineLength;
      buf, text, d, k := getbuf, [], 0, 0;
      FlattenAll(parts);
      if buf == null {
        return Missing, buf, text, d, k;
      }
      var len, left := buf.free - buf.data, size;
      d := LineLength(buf.page[buf.data..buf.free]);
      while d == len && len <= left
        invariant k < |chain| && buf == chain[k] && len == |parts[k]| && d == LineLength(parts[k])
        invariant text == Flatten(parts[..k]) && NEWLINE !in text && |text| + left == size && left >= 0
        invariant forall i :: 0 <= i < k ==> LineLength(parts[i]) == |parts[i]|
        decreases |chain| - k
      {
        FlattenAt(parts, k);
        NoLineYet(parts, k, text);
        text := text + buf.page[buf.data..buf.free];
        left := left - len;
        buf := buf.next;
        if buf == null {
          return Missing, buf, text, d, k;
        }
        k := k + 1;
        len := buf.free - buf.data;
        d := LineLength(buf.page[buf.data..buf.free]);
      }
      r := if d == len then TooLong else Here;
    }

    /** The first `n` bytes of buffer `k` are used up. */
    method Skip(buf: Buffer, n: nat, ghost k: nat)
      requires Own() && k < |chain| == |parts| && buf == chain[k] && n <= |parts[k]|
      modifies buf`data, this`parts
      ensures Own() && parts == old(parts)[k := old(parts)[k][n..]] && buf.data == old(buf.data) + n
    {
      assert buf.page[buf.data + n..buf.free] == buf.page[buf.data..buf.free][n..];
      buf.data := buf.data + n;
      parts := parts[k := parts[k][n..]];
    }

    /** What remains when the first buffer is taken off. */
    lemma Rest()
      requires Own() && chain != []
      ensures getbuf == chain[0] && |chain| == |parts| && chain[0] !in chain[1..] && chain[0].page.Length == BUFSIZE
      ensures Separate(chain[1..]) && Chained(chain[0].next, chain[1..]) && Holds(chain[1..], parts[1..])
      ensures putbuf == if |chain| > 1 then chain[1..][|chain| - 2] else chain[0]
      ensures |chain| > 1 ==> getbuf != putbuf
      ensures chain[0].next == if |chain| > 1 then chain[1] else null
    {
      forall i {:trigger chain[1..][i].next} | 0 <= i < |chain| - 2 ensures chain[1..][i].next == chain[1..][i + 1] {
        assert chain[i + 1].next == chain[i + 2];
      }
    }

    /** Give the first buffer back, which is not the last one. */
    method Release()
      requires Valid() && |chain| > 1 && getbuf != null
      modifies this`getbuf, this`chain, this`parts, pool, getbuf`next
      ensures Valid() && chain == old(chain)[1..] && parts == old(parts)[1..] && Buffers() == old(Buffers())
    {
      Rest();
      First();
      MovesToFree(chain, pool.chain, pool.released);
      var tmp := getbuf;
      hide Own, Separate, Chained, Holds, Pool.Valid, All;
      Unlink();
      GiveBack(tmp);
    }

    /** A buffer that is no longer in the queue becomes free. */
    method GiveBack(b: Buffer)
      requires Own() && pool.Valid() && Apart()
      requires b !in pool.chain && b !in pool.released && b.page.Length == BUFSIZE
      requires forall c :: c in pool.chain || c in chain ==> c.page != b.page && c != b
      modifies pool, b`next
      ensures Valid()
      ensures (pool.chain == [b] + old(pool.chain) && pool.released == old(pool.released))
        || (pool.chain == old(pool.chain) && pool.released == old(pool.released) + {b})
    {
      assert forall c :: c in chain ==>
        c !in pool.chain && c !in pool.released && forall d :: d in pool.chain ==> c.page != d.page;
      hide Own, Apart, Pool.Valid;
      pool.Free(b);
      StillApart(b, old(pool.chain), old(pool.released));
    }

    method Unlink()
      requires Own() && |chain| > 1 && getbuf != null
      modifies this`getbuf, this`chain, this`parts
      ensures Own() && chain == old(chain)[1..] && parts == old(parts)[1..]
    {
      Rest();
      hide Separate, Chained, Holds;
      getbuf := getbuf.next;
      chain := chain[1..];
      parts := parts[1..];
    }

    /** The first buffer has nothing in common with the others. */
    lemma First()
      requires Valid() && chain != []
      ensures chain[0] !in pool.chain && chain[0] !in pool.released
      ensures forall c :: c in pool.chain || c in chain[1..] ==> c.page != chain[0].page && c != chain[0]
    {
      assert chain[0] in chain;
    }

    lemma StillApart(b: Buffer, free: seq<Buffer>, released: set<Buffer>)
      requires forall c :: c in chain ==> c !in free && c !in released && forall d :: d in free ==> c.page != d.page
      requires forall c :: c in chain ==> c != b && c.page != b.page
      requires (pool.chain == [b] + free && pool.released == released)
        || (pool.chain == free && pool.released == released + {b})
      ensures Apart()
    {
    }

    /** Give the first buffer back, which is used up. */
    method ReleaseUsedUp()
      requires Valid() && chain != [] && getbuf != null
      modifies this`getbuf, this`putbuf, this`chain, this`parts, pool, getbuf`next
      ensures Valid() && chain == old(chain)[1..] && parts == old(parts)[1..] && Buffers() == old(Buffers())
    {
      Rest();
      First();
      MovesToFree(chain, pool.chain, pool.released);
      var tmp := getbuf;
      hide Own, Separate, Chained, Holds, Pool.Valid, All;
      UnlinkAny();
      GiveBack(tmp);
    }

    method UnlinkAny()
      requires Own() && chain != [] && getbuf != null
      modifies this`getbuf, this`putbuf, this`chain, this`parts
      ensures Own() && chain == old(chain)[1..] && parts == old(parts)[1..]
    {
      Rest();
      hide Separate, Chained, Holds;
      if getbuf == putbuf {
        putbuf := null;
      }
      getbuf := getbuf.next;
      chain := chain[1..];
      parts := parts[1..];
    }

    method Use(buf: Buffer, n: nat, ghost k: nat)
      requires Valid() && k < |chain| == |parts| && buf == chain[k] && n <= |parts[k]|
      modifies buf`data, this`parts
      ensures Valid() && parts == old(parts)[k := old(parts)[k][n..]]
    {
      hide Own, Apart, Pool.Valid;
      Skip(buf, n, k);
    }

    /** Give the buffers in front of `buf` back. */
    method ReleaseBefore(buf: Buffer, ghost k: nat)
      requires Valid() && k < |chain| == |parts| && buf == chain[k]
      modifies this`getbuf, this`chain, this`parts, pool, chain`next
      ensures Valid() && chain == old(chain)[k..] && parts == old(parts)[k..] && getbuf == buf
      ensures Buffers() == old(Buffers())
    {
      hide Own, Apart, Pool.Valid, All;
      ghost var j := 0;
      assert chain[0..] == chain && parts[0..] == parts;
      Place(k);
      while getbuf != buf
        invariant Valid() && j <= k < |old(chain)| && buf == old(chain)[k] && getbuf != null
        invariant chain == old(chain)[j..] && parts == old(parts)[j..] && getbuf == old(chain)[j]
        invariant getbuf == buf <==> j == k
        invariant Buffers() == old(Buffers())
        decreases k - j
      {
        Release();
        assert old(chain)[j..][1..] == old(chain)[j + 1..] && old(parts)[j..][1..] == old(parts)[j + 1..];
        j := j + 1;
        Place(k - j);
      }
    }

    lemma Place(k: nat)
      requires Own() && k < |chain|
      ensures getbuf == chain[0] && (chain[0] == chain[k] <==> k == 0)
    {
    }

    /** Get the first line without its newline, for a buffer of the given size (nbMedullaQueueGet). */
    method Get(size: nat) returns (r: Result)
      requires Valid()
      modifies this, chain, pool
      ensures Valid() && Buffers() == old(Buffers())
      ensures Got(old(parts), size, r, Contents())
      ensures r == NoLine || r == Fatal ==> parts == old(parts) && chain == old(chain)
    {
      hide Own, Apart, Pool.Valid, All, Flatten, LineLength;
      var found, buf, text, d;
      ghost var k, was := 0, parts;
      found, buf, text, d, k := Find(size);
      if found == Missing {
        LineLengthIs(Contents(), |Contents()|);
        assert Contents()[..|Contents()|] == Contents();
        return NoLine;
      }
      if found == TooLong {
        NoLineYet(parts, k, text);
        InFrontIs(parts, k + 1);
        FlattenAt(parts, k);
        return Fatal;
      }
      FirstLine(parts, k, text);
      InFrontIs(parts, k);
      var len := d;
      if len > size - |text| {
        len := size - |text|;
      }
      CutAt(parts, k, text, len);
      Bytes(k, len);
      text := text + buf.page[buf.data..buf.data + len];
      Use(buf, len + 1, k);
      ReleaseBefore(buf, k);
      assert parts == [was[k][len + 1..]] + was[k + 1..];
      if buf.data == buf.free {
        UsedUp();
        ReleaseUsedUp();
      }
      r := Line(text);
    }

    lemma Bytes(k: nat, n: nat)
      requires Own() && k < |chain| == |parts| && n < |parts[k]|
      ensures chain[k].data + n < chain[k].free <= chain[k].page.Length
      ensures chain[k].page[chain[k].data..chain[k].data + n] == parts[k][..n]
    {
      assert chain[k].page[chain[k].data..chain[k].free] == parts[k];
    }

    lemma UsedUp()
      requires Own() && chain != [] && chain[0].data == chain[0].free
      ensures Flatten(parts[1..]) == Flatten(parts)
    {
    }
  }

  /** The line "abc" is put into a new queue, and a get of size 1 makes "a" of it. What is left is "c": the byte at the
      cut is lost. */
  method CutLineLosesAByte() returns (q: Queue, r: Result)
    ensures q.Valid() && r == Line([97]) && q.Contents() == [99, NEWLINE]
  {
    hide Queue.Valid, Queue.Own, Queue.Apart, Pool.Valid, Flatten, LineLength, InFront;
    var pool := new Pool();
    q := new Queue(pool);
    var line := [97, 98, 99, NEWLINE];
    var _ := q.Put(line);
    CutAtOne(line);
    assert q.Buffers() == q.Mine() + pool.released;
    r := q.Get(1);
  }

  lemma CutAtOne(line: seq<Byte>)
    requires line == [97, 98, 99, NEWLINE]
    ensures Flatten([line]) == line && LineLength(line) == 3 && InFront([line]) == 0
    ensures line[..1] == [97] && line[2..] == [99, NEWLINE]
  {
    FlattenOne(line);
    LineLengthIs(line, 3);
  }
}
