/** The message cache of lib/nbmsg.c: a ring of variable-length entries in one buffer, with a cursor
    for each subscriber. An entry is a flag byte 0 and a message, which starts with its length in two bytes.
    A flag byte 0xff stands at the end of the cache, and where the entries wrap to the start of the buffer. */
module MsgCache {
  import Messages

  type Byte = b: nat | b < 256

  const STOP: Byte := 0xff
  const MAX_ENTRY := 0x1_0000
  const WORDS := 0x1_0000_0000

  type Message = m: seq<Byte> | 2 <= |m| && |m| == m[0] as int * 256 + m[1] as int witness [0, 2]

  /** What an insertion comes to: the record is not the next one (the program ends), has been seen before, or is in; or
      a message that has to leave for it was not the next one of its node (there is no place, and the program ends). */
  datatype Insertion = OutOfSequence | SeenBefore | Inserted | NoPlace

  /** What a subscriber does with a message: it may know it already, take it, or not be ready for it. */
  datatype Answer = Known | Takes | NotReady

  /** `fromLog`: the subscriber reads the message log, from file position `fileOffset`; else `cursor` is its
      place in the cache. */
  datatype Subscriber = Subscriber(fromLog: bool, paused: bool, cursor: nat, fileOffset: nat)

  function Encode(ms: seq<Message>): seq<Byte> {
    if ms == [] then [] else [0] + ms[0] + Encode(ms[1..])
  }

  /** The space the messages take in a log file. */
  function Bytes(ms: seq<Message>): nat {
    if ms == [] then 0 else Bytes(ms[..|ms| - 1]) + |ms[|ms| - 1]|
  }

  /** In a log file the messages stand behind each other: as in the cache, without the flag bytes. */
  lemma {:induction false} BytesInFile(ms: seq<Message>)
    ensures Bytes(ms) + |ms| == |Encode(ms)|
  {
    if ms == [] {
    } else {
      var init, last := ms[..|ms| - 1], ms[|ms| - 1];
      BytesInFile(init);
      EncodeConcat(init, [last]);
      EncodeOne(last);
      assert init + [last] == ms;
    }
  }

  /** Those of the first `n` messages that are taken. */
  function Taken(ms: seq<Message>, n: nat, answers: nat -> Answer): seq<Message>
    requires n <= |ms|
  {
    if n == 0 then [] else Taken(ms, n - 1, answers) + if answers(n - 1).Takes? then [ms[n - 1]] else []
  }

  /** The first message from `i` on, of `n`, that the subscriber is not ready for; or `n`. */
  function Until(i: nat, n: nat, answers: nat -> Answer): (k: nat)
    requires i <= n
    ensures i <= k <= n && (k < n ==> answers(k) == NotReady) && forall j :: i <= j < k ==> answers(j) != NotReady
    decreases n - i
  {
    if i == n || answers(i) == NotReady then i else Until(i + 1, n, answers)
  }

  /** One message further. */
  lemma OneFurther(ms: seq<Message>, n: nat, answers: nat -> Answer)
    requires n < |ms|
    ensures Until(n, |ms|, answers) == if answers(n) == NotReady then n else Until(n + 1, |ms|, answers)
    ensures Taken(ms, n + 1, answers) == if answers(n).Takes? then Taken(ms, n, answers) + [ms[n]]
      else Taken(ms, n, answers)
  {
    assert Taken(ms, n, answers) + [] == Taken(ms, n, answers);
  }

  lemma NoFurther(ms: seq<Message>, answers: nat -> Answer)
    ensures Until(|ms|, |ms|, answers) == |ms| && Taken(ms, 0, answers) == []
  {
  }

  /** What is taken of the first `n` messages is in their order, and a message is in it exactly when the answer to it is
      to take it: it comes behind what was taken before it. */
  lemma {:induction false} TakenAre(ms: seq<Message>, n: nat, k: nat, answers: nat -> Answer)
    requires k < n <= |ms|
    ensures Taken(ms, k, answers) <= Taken(ms, n, answers)
    ensures answers(k).Takes? ==>
      |Taken(ms, k, answers)| < |Taken(ms, n, answers)| && Taken(ms, n, answers)[|Taken(ms, k, answers)|] == ms[k]
    ensures !answers(k).Takes? ==> Taken(ms, k + 1, answers) == Taken(ms, k, answers)
    decreases n
  {
    if k < n - 1 {
      TakenAre(ms, n - 1, k, answers);
    }
  }

  /** A subscriber that takes everything gets the messages themselves. */
  lemma {:induction false} EverythingTaken(ms: seq<Message>, n: nat, answers: nat -> Answer)
    requires n <= |ms| && forall k :: 0 <= k < n ==> answers(k) == Takes
    ensures Taken(ms, n, answers) == ms[..n]
  {
    if n == 0 {
    } else {
      EverythingTaken(ms, n - 1, answers);
      assert ms[..n] == ms[..n - 1] + [ms[n - 1]];
    }
  }

  lemma {:induction false} EncodeConcat(a: seq<Message>, b: seq<Message>)
    ensures Encode(a + b) == Encode(a) + Encode(b)
  {
    if a == [] {
      assert a + b == b;
    } else {
      EncodeConcat(a[1..], b);
      assert (a + b)[1..] == a[1..] + b;
      var head, x, y := [0] + a[0], Encode(a[1..]), Encode(b);
      assert Encode(a + b) == head + Encode((a + b)[1..]);
      hide Encode;
      assert head + (x + y) == head + x + y;
    }
  }

  lemma EncodeOne(m: Message)
    ensures Encode([m]) == [0] + m && |Encode([m])| == 1 + |m|
  {
    assert Encode([m][1..]) == [];
  }

  /** Where entry `k` is, and what stands there. */
  lemma EntryAt(ms: seq<Message>, k: nat)
    requires k < |ms|
    ensures |Encode(ms[..k + 1])| == |Encode(ms[..k])| + 1 + |ms[k]| <= |Encode(ms)|
    ensures var p := |Encode(ms[..k])|; Encode(ms)[p..p + 1 + |ms[k]|] == [0] + ms[k]
  {
    EncodeOne(ms[k]);
    EncodeConcat(ms[..k], [ms[k]]);
    EncodeConcat(ms[..k + 1], ms[k + 1..]);
    assert ms[..k] + [ms[k]] == ms[..k + 1] && ms[..k + 1] + ms[k + 1..] == ms;
    assert Encode(ms) == Encode(ms[..k]) + ([0] + ms[k]) + Encode(ms[k + 1..]);
  }

  /** Later entries stand behind earlier ones. */
  lemma {:induction false} PlacesIncrease(ms: seq<Message>, i: nat, j: nat)
    requires i <= j <= |ms|
    ensures |Encode(ms[..i])| + (j - i) <= |Encode(ms[..j])|
    decreases j
  {
    if i < j {
      PlacesIncrease(ms, i, j - 1);
      EntryAt(ms, j - 1);
    }
  }

  // -------------------------------------------------------------------------------------------
  // The layout of the buffer
  // -------------------------------------------------------------------------------------------

  /** The buffer holds the messages `hi` from the start on; if the cache has wrapped, up to a stop byte, and
      then `lo` from the start of the buffer. A stop byte is at the end. */
  predicate Laid(buf: seq<Byte>, start: nat, end: nat, hi: seq<Message>, lo: seq<Message>) {
    var wrap := start + |Encode(hi)|;
    && end < |buf| && buf[end] == STOP && wrap < |buf| && buf[wrap] == STOP && buf[start..wrap] == Encode(hi)
    && (lo == [] ==> end == wrap && (hi == [] ==> start == 0))
    && (lo != [] ==> hi != [] && end == |Encode(lo)| < start && buf[0..end] == Encode(lo))
  }

  /** Where message `k` is; behind the last one it is the end. */
  function PlaceIn(start: nat, hi: seq<Message>, lo: seq<Message>, k: nat): nat
    requires k <= |hi| + |lo|
  {
    if k < |hi| || lo == [] then start + |Encode(hi[..k])| else |Encode(lo[..k - |hi|])|
  }

  lemma EntryIn(buf: seq<Byte>, at: nat, ms: seq<Message>, k: nat)
    requires k < |ms| && at + |Encode(ms)| <= |buf| && buf[at..at + |Encode(ms)|] == Encode(ms)
    ensures var p, m := at + |Encode(ms[..k])|, ms[k];
      && p + 1 + |m| <= at + |Encode(ms)| && |Encode(ms[..k + 1])| == |Encode(ms[..k])| + 1 + |m|
      && buf[p] == 0 && buf[p + 1..p + 1 + |m|] == m
  {
    hide Encode;
    EntryAt(ms, k);
    SubEntry(buf, at, Encode(ms), |Encode(ms[..k])|, ms[k]);
  }

  lemma SubEntry(buf: seq<Byte>, at: nat, bytes: seq<Byte>, r: nat, m: seq<Byte>)
    requires at + |bytes| <= |buf| && buf[at..at + |bytes|] == bytes
    requires r + 1 + |m| <= |bytes| && bytes[r..r + 1 + |m|] == [0] + m
    ensures buf[at + r] == 0 && buf[at + r + 1..at + r + 1 + |m|] == m
  {
    var e, all := bytes[r..r + 1 + |m|], buf[at..at + |bytes|];
    assert e[0] == bytes[r] == all[r] == buf[at + r];
    forall i | 0 <= i < |m| ensures buf[at + r + 1 + i] == m[i] {
      assert e[1 + i] == bytes[r + 1 + i] == all[r + 1 + i] == buf[at + r + 1 + i];
    }
  }

  lemma NoBytes(ms: seq<Message>)
    ensures Encode(ms[..0]) == []
  {
  }

  /** What stands at the place of message `k`, and which place comes behind it. */
  lemma PlaceOf(buf: seq<Byte>, start: nat, end: nat, hi: seq<Message>, lo: seq<Message>, k: nat)
    requires Laid(buf, start, end, hi, lo) && k < |hi| + |lo|
    ensures var m, p := (hi + lo)[k], PlaceIn(start, hi, lo, k);
      && p != end && p + 1 + |m| < |buf| && buf[p] == 0 && buf[p + 1..p + 1 + |m|] == m
      && (PlaceIn(start, hi, lo, k + 1) == p + 1 + |m|
          || (lo != [] && k + 1 == |hi| && p + 1 + |m| == start + |Encode(hi)|))
    ensures k > 0 ==> PlaceIn(start, hi, lo, k) != start
    ensures k == 0 ==> PlaceIn(start, hi, lo, k) == start
  {
    hide Encode;
    if k < |hi| {
      PlaceInHi(buf, start, end, hi, lo, k);
    } else {
      EntryIn(buf, 0, lo, k - |hi|);
    }
  }

  lemma PlaceInHi(buf: seq<Byte>, start: nat, end: nat, hi: seq<Message>, lo: seq<Message>, k: nat)
    requires Laid(buf, start, end, hi, lo) && k < |hi|
    ensures var m, p := hi[k], PlaceIn(start, hi, lo, k);
      && p != end && p + 1 + |m| < |buf| && buf[p] == 0 && buf[p + 1..p + 1 + |m|] == m
      && (PlaceIn(start, hi, lo, k + 1) == p + 1 + |m|
          || (lo != [] && k + 1 == |hi| && p + 1 + |m| == start + |Encode(hi)|))
    ensures k > 0 ==> PlaceIn(start, hi, lo, k) != start
    ensures k == 0 ==> PlaceIn(start, hi, lo, k) == start
  {
    hide Encode;
    NotAtStart(hi, k);
    EntryIn(buf, start, hi, k);
    WholeHi(hi, k + 1);
  }

  lemma WholeHi(hi: seq<Message>, k: nat)
    ensures k == |hi| ==> hi[..k] == hi
  {
  }

  lemma NotAtStart(ms: seq<Message>, k: nat)
    requires k < |ms|
    ensures |Encode(ms[..k])| > 0 <==> k > 0
  {
    NoBytes(ms);
    PlacesIncrease(ms, 0, k);
  }

  lemma LastPlace(buf: seq<Byte>, start: nat, end: nat, hi: seq<Message>, lo: seq<Message>)
    requires Laid(buf, start, end, hi, lo)
    ensures PlaceIn(start, hi, lo, |hi| + |lo|) == end
    ensures hi != [] ==> end != start
  {
    assert hi[..|hi|] == hi && lo[..|lo|] == lo;
  }

  /** Without its first message the cache is still in order; the other messages keep their places. */
  lemma DropFirst(buf: seq<Byte>, start: nat, end: nat, hi: seq<Message>, lo: seq<Message>)
    requires Laid(buf, start, end, hi, lo) && hi != [] && (lo == [] ==> |hi| > 1)
    ensures var start' := start + 1 + |hi[0]|;
      && start' < |buf|
      && if |hi| > 1 then Laid(buf, start', end, hi[1..], lo) && buf[start'] == 0
         else start' != end && buf[start'] == STOP && Laid(buf, 0, end, lo, [])
  {
    var m, rest, wrap := hi[0], hi[1..], start + |Encode(hi)|;
    EncodeHead(hi);
    if |hi| == 1 {
      assert rest == hi[..0];
      NoBytes(hi);
    }
    hide Encode;
    DropBytes(buf, start, wrap, m, Encode(rest));
    if |hi| > 1 {
      assert Laid(buf, start + 1 + |m|, end, rest, lo);
      PlaceOf(buf, start + 1 + |m|, end, rest, lo, 0);
    }
  }

  lemma EncodeHead(ms: seq<Message>)
    requires ms != []
    ensures Encode(ms) == [0] + ms[0] + Encode(ms[1..]) && |Encode(ms)| == 1 + |ms[0]| + |Encode(ms[1..])|
  {
  }

  lemma DropBytes(buf: seq<Byte>, s: nat, w: nat, m: seq<Byte>, e: seq<Byte>)
    requires s <= w <= |buf| && buf[s..w] == [0] + m + e
    ensures s + 1 + |m| <= w && buf[s + 1 + |m|..w] == e
  {
    assert buf[s..w][1 + |m|..] == e;
    assert buf[s + 1 + |m|..w] == buf[s..w][1 + |m|..];
  }

  lemma PlacesStay(start: nat, hi: seq<Message>, lo: seq<Message>, k: nat)
    requires hi != [] && k < |hi| + |lo|
    ensures |hi| > 1 || lo == [] ==> PlaceIn(start + 1 + |hi[0]|, hi[1..], lo, k) == PlaceIn(start, hi, lo, k + 1)
    ensures |hi| == 1 && lo != [] ==> PlaceIn(0, lo, [], k) == PlaceIn(start, hi, lo, k + 1)
  {
    if k < |hi| {
      assert hi[1..][..k] == hi[..k + 1][1..] && hi[..k + 1][0] == hi[0];
    }
  }

  // -------------------------------------------------------------------------------------------
  // Adding and reading
  // -------------------------------------------------------------------------------------------

  /** The buffer after an entry and a stop byte have been written. */
  predicate Written(was: seq<Byte>, now: seq<Byte>, at: nat, m: Message) {
    && at + 1 + |m| < |was| && |now| == |was|
    && now[at] == 0 && now[at + 1..at + 1 + |m|] == m && now[at + 1 + |m|] == STOP
    && now[..at] == was[..at] && now[at + 2 + |m|..] == was[at + 2 + |m|..]
  }

  /** The entries that are not overwritten are as they were. */
  lemma Untouched(was: seq<Byte>, now: seq<Byte>, at: nat, m: Message, i: nat, j: nat)
    requires Written(was, now, at, m) && i <= j <= |was| && (j <= at || at + 2 + |m| <= i)
    ensures now[i..j] == was[i..j]
  {
    if j <= at {
      assert now[i..j] == now[..at][i..j] && was[i..j] == was[..at][i..j];
    } else {
      var n := at + 2 + |m|;
      assert now[i..j] == now[n..][i - n..j - n] && was[i..j] == was[n..][i - n..j - n];
    }
  }

  lemma WrittenIs(was: seq<Byte>, now: seq<Byte>, at: nat, m: Message)
    requires Written(was, now, at, m)
    ensures now[at..at + 1 + |m|] == Encode([m])
  {
    EncodeOne(m);
    assert now[at..at + 1 + |m|] == [now[at]] + now[at + 1..at + 1 + |m|];
  }

  /** The entries from `a` up to `end`, and the new one behind them. */
  lemma Appended(was: seq<Byte>, now: seq<Byte>, a: nat, end: nat, ms: seq<Message>, m: Message)
    requires Written(was, now, end, m) && a <= end && was[a..end] == Encode(ms) && end == a + |Encode(ms)|
    ensures now[a..end + 1 + |m|] == Encode(ms + [m]) && end + 1 + |m| == a + |Encode(ms + [m])|
    ensures now[end + 1 + |m|] == STOP
  {
    EncodeConcat(ms, [m]);
    WrittenIs(was, now, end, m);
    EncodeOne(m);
    Untouched(was, now, end, m, a, end);
    hide *;
    assert now[a..end + 1 + |m|] == now[a..end] + now[end..end + 1 + |m|];
  }

  lemma ByteStays(was: seq<Byte>, now: seq<Byte>, at: nat, m: Message, i: nat)
    requires Written(was, now, at, m) && i < |was| && (i < at || at + 2 + |m| <= i)
    ensures now[i] == was[i]
  {
    Untouched(was, now, at, m, i, i + 1);
    assert now[i] == now[i..i + 1][0] && was[i] == was[i..i + 1][0];
  }

  /** Behind the last entry. */
  lemma LaidBehind(was: seq<Byte>, now: seq<Byte>, start: nat, end: nat, hi: seq<Message>, m: Message)
    requires Laid(was, start, end, hi, []) && Written(was, now, end, m)
    ensures Laid(now, start, end + 1 + |m|, hi + [m], [])
  {
    Appended(was, now, start, end, hi, m);
    hide Encode;
  }

  /** Behind the last entry, in front of the start. */
  lemma LaidBetween(was: seq<Byte>, now: seq<Byte>, start: nat, end: nat, hi: seq<Message>, lo: seq<Message>,
                    m: Message)
    requires Laid(was, start, end, hi, lo) && Written(was, now, end, m) && lo != [] && end + 1 + |m| < start
    ensures Laid(now, start, end + 1 + |m|, hi, lo + [m])
  {
    hide Encode;
    var wrap := start + |Encode(hi)|;
    Appended(was, now, 0, end, lo, m);
    Untouched(was, now, end, m, start, wrap);
    ByteStays(was, now, end, m, wrap);
  }

  /** At the start of the buffer: the stop byte at the end is now where the entries wrap. */
  lemma LaidAround(was: seq<Byte>, now: seq<Byte>, start: nat, end: nat, hi: seq<Message>, m: Message)
    requires Laid(was, start, end, hi, []) && Written(was, now, 0, m) && hi != [] && 1 + |m| < start
    ensures Laid(now, start, 1 + |m|, hi, [m])
  {
    WrittenIs(was, now, 0, m);
    EncodeOne(m);
    hide Encode;
    Untouched(was, now, 0, m, start, end);
    ByteStays(was, now, 0, m, end);
  }

  /** Cursors stay good, but one at the end is left at the stop byte when the entries wrap. */
  lemma CursorsStay(sub: Subscriber, k: nat, first: nat, start: nat, hi: seq<Message>, lo: seq<Message>, m: Message)
    requires At(sub, k, first, start, hi, lo)
    ensures lo == [] ==> Waits(sub, k, first, start, hi + [m], []) && Waits(sub, k, first, start, hi, [m])
    ensures lo != [] ==> Waits(sub, k, first, start, hi, lo + [m])
  {
    if !sub.fromLog {
      var i := k - first;
      if lo == [] {
        assert (hi + [m])[..i] == hi[..i];
        assert hi[..|hi|] == hi;
      } else if i >= |hi| {
        assert (lo + [m])[..i - |hi|] == lo[..i - |hi|];
      }
    }
  }

  /** A walk may stand at the stop byte where the entries wrap. */
  ghost predicate Walking(cursor: nat, k: nat, start: nat, hi: seq<Message>, lo: seq<Message>)
    requires k <= |hi| + |lo|
  {
    cursor == PlaceIn(start, hi, lo, k) || (lo != [] && k == |hi| && cursor == start + |Encode(hi)|)
  }

  /** What a walk finds, and how it goes on. */
  lemma WalkStep(buf: seq<Byte>, start: nat, end: nat, hi: seq<Message>, lo: seq<Message>, k: nat, cursor: nat)
    requires Laid(buf, start, end, hi, lo) && k <= |hi| + |lo| && Walking(cursor, k, start, hi, lo)
    ensures cursor == end <==> k == |hi| + |lo|
    ensures cursor < |buf|
    ensures cursor != end && buf[cursor] == STOP ==> Walking(0, k, start, hi, lo) && buf[0] == 0
    ensures cursor != end && buf[cursor] != STOP ==>
      var m := (hi + lo)[k];
      && cursor == PlaceIn(start, hi, lo, k) && buf[cursor] == 0 && cursor + 1 + |m| < |buf|
      && buf[cursor + 1] == m[0] && buf[cursor + 2] == m[1] && buf[cursor + 1..cursor + 1 + |m|] == m
      && Walking(cursor + 1 + |m|, k + 1, start, hi, lo)
  {
    LastPlace(buf, start, end, hi, lo);
    if k < |hi| + |lo| {
      PlaceOf(buf, start, end, hi, lo, k);
      var p, m := PlaceIn(start, hi, lo, k), (hi + lo)[k];
      assert buf[p + 1..p + 1 + |m|][0] == buf[p + 1] && buf[p + 1..p + 1 + |m|][1] == buf[p + 2];
      if k == |hi| && lo != [] {
        NoBytes(lo);
      }
    }
  }

  // -------------------------------------------------------------------------------------------
  // The state at the start
  // -------------------------------------------------------------------------------------------

  /** The transaction id in the header of a message. */
  type Header = seq<Byte> -> Messages.MsgId

  const NO_STATE: Messages.Vector := seq(Messages.NODES, i => Messages.ZERO)

  /** The last id of each node. */
  function StateOf(ms: seq<Message>, idOf: Header): Messages.Vector {
    if ms == [] then NO_STATE else
      var id := idOf(ms[|ms| - 1]);
      StateOf(ms[..|ms| - 1], idOf)[id.node := id.key]
  }

  /** The state holds for each node the id of its last message. */
  lemma {:induction false} StateIsLast(ms: seq<Message>, k: nat, idOf: Header, n: Messages.NodeId)
    requires k < |ms| && idOf(ms[k]).node == n && forall j :: k < j < |ms| ==> idOf(ms[j]).node != n
    ensures StateOf(ms, idOf)[n] == idOf(ms[k]).key
    decreases |ms|
  {
    if k < |ms| - 1 {
      StateIsLast(ms[..|ms| - 1], k, idOf, n);
    }
  }

  /** And nothing for a node without messages. */
  lemma {:induction false} StateOfOthers(ms: seq<Message>, idOf: Header, n: Messages.NodeId)
    requires forall j :: 0 <= j < |ms| ==> idOf(ms[j]).node != n
    ensures StateOf(ms, idOf)[n] == Messages.ZERO
    decreases |ms|
  {
    if ms != [] {
      StateOfOthers(ms[..|ms| - 1], idOf, n);
    }
  }

  /** Message `k` is the first of its node, or the next one. */
  predicate Follows(ms: seq<Message>, k: nat, idOf: Header) {
    k < |ms| && Messages.IsNext(StateOf(ms[..k], idOf), idOf(ms[k]))
  }

  lemma StillFollows(ms: seq<Message>, m: Message, k: nat, idOf: Header)
    requires k < |ms|
    ensures Follows(ms + [m], k, idOf) <==> Follows(ms, k, idOf)
  {
    assert (ms + [m])[..k] == ms[..k];
  }

  lemma StateOfNext(ms: seq<Message>, k: nat, idOf: Header)
    requires k < |ms|
    ensures var id := idOf(ms[k]); StateOf(ms[..k + 1], idOf) == StateOf(ms[..k], idOf)[id.node := id.key]
  {
    assert ms[..k + 1][..k] == ms[..k];
  }

  // -------------------------------------------------------------------------------------------
  // The cache
  // -------------------------------------------------------------------------------------------

  /** A subscriber at message `k`, when the cache has come to start at message `first`: if its message has left
      the cache, it continues in the log file, at the position of that message. */
  function Moved(sub: Subscriber, k: nat, first: nat, position: nat): Subscriber {
    if !sub.fromLog && k < first then Subscriber(true, sub.paused, 0, position) else sub
  }

  /** A cursor in the cache is at the place of its message; a subscriber that is not ready has a message to wait for. */
  ghost predicate At(sub: Subscriber, k: nat, first: nat, start: nat, hi: seq<Message>, lo: seq<Message>) {
    !sub.fromLog ==>
      && first <= k <= first + |hi| + |lo| && (sub.paused ==> k < first + |hi| + |lo|)
      && sub.cursor == PlaceIn(start, hi, lo, k - first)
  }

  /** A cursor at the end may be left at the stop byte when the entries wrap. */
  ghost predicate Near(sub: Subscriber, k: nat, first: nat, start: nat, hi: seq<Message>, lo: seq<Message>) {
    At(sub, k, first, start, hi, lo)
    || (!sub.fromLog && !sub.paused && lo != [] && k == first + |hi| && sub.cursor == start + |Encode(hi)|)
  }

  /** How cursors may stand before they are published to. */
  ghost predicate Waits(sub: Subscriber, k: nat, first: nat, start: nat, hi: seq<Message>, lo: seq<Message>) {
    Near(sub, k, first, start, hi, lo) && (sub.paused ==> At(sub, k, first, start, hi, lo))
  }

  /** What the scan of the subscribers does when the first message is about to leave. */
  function AtStart(sub: Subscriber, start: nat, fileOffset: nat): Subscriber {
    if sub.cursor == start && !sub.fromLog then Subscriber(true, sub.paused, 0, fileOffset) else sub
  }

  /** The scan finds exactly the subscribers that wait for the first message; the cursors of the others stay good. */
  lemma ScanIsExact(buf: seq<Byte>, sub: Subscriber, k: nat, first: nat, start: nat, end: nat,
                    hi: seq<Message>, lo: seq<Message>, position: nat)
    requires Laid(buf, start, end, hi, lo) && hi != [] && At(sub, k, first, start, hi, lo)
    ensures var sub' := AtStart(sub, start, position);
      && sub' == Moved(sub, k, first + 1, position) && (!sub.fromLog && k < first + 1 ==> k == first)
      && (|hi| > 1 || lo == [] ==> At(sub', k, first + 1, start + 1 + |hi[0]|, hi[1..], lo))
      && (|hi| == 1 && lo != [] ==> At(sub', k, first + 1, 0, lo, []))
  {
    if !sub.fromLog {
      LastPlace(buf, start, end, hi, lo);
      if k - first < |hi| + |lo| {
        PlaceOf(buf, start, end, hi, lo, k - first);
      }
      if k > first {
        PlacesStay(start, hi, lo, k - first - 1);
      }
    }
  }

  /** The position of message `k` in the log file. */
  function FileAt(log: seq<Message>, base: nat, k: nat): nat {
    base + if k <= |log| then Bytes(log[..k]) else 0
  }

  /** What inserting a message comes to for a subscriber that was `sub`, at message `k`, and had got `had`:
      it moves to the log file, or stays as it is, or gets the messages from `k` on until it is not ready. */
  ghost predicate Outcome(now: Subscriber, next: nat, got: seq<Message>, sub: Subscriber, k: nat, had: seq<Message>,
                          first: nat, log: seq<Message>, base: nat, answers: nat -> Answer)
  {
    if sub.fromLog || k < first || sub.paused then
      now == Moved(sub, k, first, FileAt(log, base, k)) && next == k && got == had
    else
      && !now.fromLog && k <= |log| && next == k + Until(0, |log| - k, answers)
      && got == had + Taken(log[k..], next - k, answers)
  }

  /** In the subscriber's own terms: one that reads the log file, and one that is not ready, are not published to. One
      whose message has left the cache goes to the log file, at the position of that message, and is otherwise as it
      was. */
  lemma OutcomeIs(now: Subscriber, next: nat, got: seq<Message>, sub: Subscriber, k: nat, had: seq<Message>,
                  first: nat, log: seq<Message>, base: nat, answers: nat -> Answer)
    requires Outcome(now, next, got, sub, k, had, first, log, base, answers)
    ensures sub.fromLog || (sub.paused && first <= k) ==> now == sub
    ensures sub.fromLog || sub.paused || k < first ==> next == k && got == had
    ensures !sub.fromLog && k < first <= |log| ==>
      now.fromLog && now.paused == sub.paused && now.fileOffset == base + |Encode(log[..k])| - k
    ensures !sub.fromLog && !sub.paused && first <= k <= |log| ==>
      && k <= next <= |log| && (next < |log| ==> answers(next - k) == NotReady)
      && (forall i :: 0 <= i < next - k ==> answers(i) != NotReady) && got == had + Taken(log[k..], next - k, answers)
  {
    if k <= |log| {
      BytesInFile(log[..k]);
    }
  }

  class Cache {
    const buffer: array<Byte>
    const idOf: Header
    var start: nat
    var end: nat
    /** The position in the log file of the message at the start of the cache. */
    var fileOffset: nat
    /** The last id of each node among the messages that have left the cache. */
    var startState: Messages.Vector
    /** The number of the last record. */
    var endCount: nat
    var subs: seq<Subscriber>
    /** What has been handed to each subscriber. */
    var handed: seq<seq<Message>>

    /** All messages that were ever inserted; the first `first` have left the cache. */
    ghost var log: seq<Message>
    ghost var first: nat
    /** The messages in the cache: `hi` from the start, and if the cache has wrapped, `lo` from the start of the
        buffer. */
    ghost var hi: seq<Message>
    ghost var lo: seq<Message>
    /** The index of the message at each cursor. */
    ghost var next: seq<nat>
    ghost var base: nat

    ghost predicate Layout()
      reads this`start, this`end, this`hi, this`lo, buffer
    {
      Laid(buffer[..], start, end, hi, lo)
    }

    ghost function Place(k: nat): nat
      requires k <= |hi| + |lo|
      reads this`start, this`hi, this`lo
    {
      PlaceIn(start, hi, lo, k)
    }

    ghost predicate Content()
      reads this`log, this`first, this`hi, this`lo, this`fileOffset, this`base, this`startState
    {
      && first <= |log| && log[first..] == hi + lo
      && (hi == [] ==> log == [])
      && fileOffset == base + Bytes(log[..first])
      && InSequence()
    }

    /** The messages that have left were the next ones of their nodes. */
    ghost predicate InSequence()
      reads this`log, this`first, this`startState
    {
      && first <= |log| && startState == StateOf(log[..first], idOf)
      && forall k :: 0 <= k < first ==> Follows(log, k, idOf)
    }

    ghost predicate Valid()
      reads this, buffer
    {
      && 4 * MAX_ENTRY <= buffer.Length
      && Layout() && Content()
      && |next| == |subs| == |handed|
      && forall i :: 0 <= i < |subs| ==> At(subs[i], next[i], first, start, hi, lo)
    }

    constructor (size: nat, fileOffset: nat, endCount: nat, idOf: Header)
      requires 4 * MAX_ENTRY <= size
      ensures Valid() && fresh(buffer) && log == [] && subs == [] && first == 0 && base == fileOffset
      ensures this.endCount == endCount && this.idOf == idOf && startState == NO_STATE
    {
      this.idOf, startState := idOf, NO_STATE;
      buffer := new Byte[size](i => STOP);
      start, end, this.fileOffset, base := 0, 0, fileOffset, fileOffset;
      this.endCount := endCount;
      subs, handed, next := [], [], [];
      log, first, hi, lo := [], 0, [], [];
    }

    /** No cursor points into overwritten bytes: what stands there is the message the subscriber waits for. */
    lemma CursorSeesItsMessage(i: nat)
      requires Valid() && i < |subs| && !subs[i].fromLog
      ensures first <= next[i] <= |log|
      ensures next[i] == |log| <==> subs[i].cursor == end
      ensures next[i] < |log| ==>
        var p, m := subs[i].cursor, log[next[i]];
        p + 1 + |m| < buffer.Length && buffer[p] == 0 && buffer[p + 1..p + 1 + |m|] == m
    {
      assert At(subs[i], next[i], first, start, hi, lo);
      var k, n := next[i] - first, |hi| + |lo|;
      assert |log[first..]| == n;
      LastPlace(buffer[..], start, end, hi, lo);
      if k < n {
        assert log[next[i]] == log[first..][k] == (hi + lo)[k];
        PlaceOf(buffer[..], start, end, hi, lo, k);
        hide Laid, PlaceIn;
        var p, m := subs[i].cursor, log[next[i]];
        assert buffer[..][p + 1..p + 1 + |m|] == buffer[p + 1..p + 1 + |m|];
      }
    }

    // -----------------------------------------------------------------------------------------
    // Making room
    // -----------------------------------------------------------------------------------------

    /** Switch the subscribers whose cursor is at the start to the log file. */
    method SwitchReaders()
      modifies this`subs
      ensures |subs| == |old(subs)|
      ensures forall i :: 0 <= i < |subs| ==> subs[i] == AtStart(old(subs[i]), start, fileOffset)
    {
      var i := 0;
      while i < |subs|
        invariant 0 <= i <= |subs| == |old(subs)|
        invariant forall k :: 0 <= k < i ==> subs[k] == AtStart(old(subs[k]), start, fileOffset)
        invariant forall k :: i <= k < |subs| ==> subs[k] == old(subs[k])
      {
        if subs[i].cursor == start && !subs[i].fromLog {
          subs := subs[i := Subscriber(true, subs[i].paused, 0, fileOffset)];
        }
        i := i + 1;
      }
    }

    /** The start moves over the first message. */
    method Advance()
      requires Layout() && hi != [] && (lo == [] ==> |hi| > 1)
      modifies this`start, this`fileOffset, this`hi, this`lo
      ensures Layout() && fileOffset == old(fileOffset) + |old(hi)[0]|
      ensures if |old(hi)| > 1 then start == old(start) + 1 + |old(hi)[0]| && hi == old(hi)[1..] && lo == old(lo)
              else start == 0 && hi == old(lo) && lo == []
    {
      ghost var b := buffer[..];
      FirstMessage();
      DropFirst(b, start, end, hi, lo);
      hide Laid, Encode, Bytes, PlaceIn;
      var length := buffer[start + 1] as int * 256 + buffer[start + 2] as int;
      hi := hi[1..];
      fileOffset := fileOffset + length;
      start := start + 1 + length;
      if buffer[start] == STOP {
        if start == end {
          assert false;
        }
        start := 0;
        hi, lo := lo, [];
      }
    }

    lemma FirstMessage()
      requires Layout() && hi != []
      ensures start + 2 < buffer.Length && buffer[start] == 0
      ensures buffer[start + 1] == hi[0][0] && buffer[start + 2] == hi[0][1]
      ensures start + 1 + |hi[0]| <= buffer.Length && buffer[start + 1..start + 1 + |hi[0]|] == hi[0]
    {
      PlaceOf(buffer[..], start, end, hi, lo, 0);
      var m := buffer[..][start + 1..start + 1 + |hi[0]|];
      assert m == hi[0] && buffer[start + 1] == m[0] && buffer[start + 2] == m[1];
      assert m == buffer[start + 1..start + 1 + |hi[0]|];
    }

    /** Exactly the subscribers that wait for a message before message `n` have been switched to the log file. */
    ghost predicate Switched(was: seq<Subscriber>, n: nat)
      reads this`subs, this`next, this`log, this`base
    {
      && |subs| == |was| == |next|
      && forall i :: 0 <= i < |was| ==> subs[i] == Moved(was[i], next[i], n, FileAt(log, base, next[i]))
    }

    /** Message `first` leaves. */
    lemma NextFirst()
      requires Content() && hi != []
      ensures first < |log| && log[first] == hi[0]
      ensures FileAt(log, base, first) == fileOffset && FileAt(log, base, first + 1) == fileOffset + |hi[0]|
      ensures log[first + 1..] == (hi + lo)[1..]
      ensures (hi + lo)[1..] == hi[1..] + lo
    {
      assert log[first] == log[first..][0] && log[first + 1..] == log[first..][1..];
      assert log[..first + 1][..first] == log[..first];
    }

    lemma FirstRecord()
      requires Layout() && Content() && hi != []
      ensures first < |log| && |log[first]| == log[first][0] as int * 256 + log[first][1] as int
      ensures start + 1 + |log[first]| <= buffer.Length && buffer[start + 1..start + 1 + |log[first]|] == log[first]
      ensures buffer[start + 1] == log[first][0] && buffer[start + 2] == log[first][1]
      ensures Follows(log, first, idOf) <==> Messages.IsNext(startState, idOf(log[first]))
      ensures var id := idOf(log[first]); StateOf(log[..first + 1], idOf) == startState[id.node := id.key]
    {
      NextFirst();
      StateOfNext(log, first, idOf);
      hide Bytes, FileAt, StateOf, Encode, PlaceIn;
      FirstMessage();
    }

    /** The state at the start moves to the first message, if that is the next one of its node
        (nbMsgStateSetFromMsgId). */
    method SetState() returns (ok: bool)
      requires Layout() && Content() && hi != []
      modifies this`startState
      ensures ok <==> Follows(log, first, idOf)
      ensures if ok then startState == StateOf(log[..first + 1], idOf) else startState == old(startState)
    {
      FirstRecord();
      hide *;
      var length := buffer[start + 1] as int * 256 + buffer[start + 2] as int;
      var id := idOf(buffer[start + 1..start + 1 + length]);
      ok := Messages.IsNext(startState, id);
      if ok {
        startState := startState[id.node := id.key];
      }
    }

    /** The subscribers that are at the first message go to the log file, and the message leaves the cache if it is the
        next one of its node. */
    method Evict() returns (ok: bool)
      requires Valid() && hi != [] && (lo == [] ==> |hi| > 1)
      modifies this`start, this`fileOffset, this`startState, this`subs, this`first, this`hi, this`lo
      ensures Valid() && (ok <==> Follows(log, old(first), idOf))
      ensures first == if ok then old(first) + 1 else old(first)
      ensures if !ok then start == old(start) && hi == old(hi) && lo == old(lo)
              else if |old(hi)| > 1 then start == old(start) + 1 + |old(hi)[0]| && hi == old(hi)[1..] && lo == old(lo)
              else start == 0 && hi == old(lo) && lo == []
      ensures Switched(old(subs), old(first) + 1)
    {
      hide Valid, Layout, Content, Laid, At, AtStart, Moved, FileAt, Bytes, StateOf, Follows;
      Opened();
      NextFirst();
      ScanIsExactForAll();
      SwitchReaders();
      ok := SetState();
      if ok {
        MoveOn();
      }
      Closed();
    }

    lemma Opened()
      requires Valid()
      ensures Layout() && Content() && |next| == |subs| == |handed| && 4 * MAX_ENTRY <= buffer.Length
      ensures forall k :: 0 <= k < first ==> Follows(log, k, idOf)
      ensures log[first..] == hi + lo && fileOffset == base + Bytes(log[..first])
      ensures forall i :: 0 <= i < |subs| ==> At(subs[i], next[i], first, start, hi, lo)
    {
    }

    lemma Closed()
      requires Layout() && Content() && |next| == |subs| == |handed| && 4 * MAX_ENTRY <= buffer.Length
      requires forall i :: 0 <= i < |subs| ==> At(subs[i], next[i], first, start, hi, lo)
      ensures Valid()
    {
    }

    /** The first message leaves, after the state at the start has moved to it. */
    method MoveOn()
      requires Layout() && hi != [] && (lo == [] ==> |hi| > 1)
      requires first < |log| && log[first..] == hi + lo && fileOffset == base + Bytes(log[..first])
      requires startState == StateOf(log[..first + 1], idOf) && forall k :: 0 <= k <= first ==> Follows(log, k, idOf)
      modifies this`start, this`fileOffset, this`first, this`hi, this`lo
      ensures Layout() && Content() && first == old(first) + 1
      ensures if |old(hi)| > 1 then start == old(start) + 1 + |old(hi)[0]| && hi == old(hi)[1..] && lo == old(lo)
              else start == 0 && hi == old(lo) && lo == []
    {
      LeavesOne();
      hide Laid, Bytes, StateOf, Follows;
      Advance();
      first := first + 1;
    }

    lemma LeavesOne()
      requires hi != [] && first < |log| && log[first..] == hi + lo
      ensures Bytes(log[..first + 1]) == Bytes(log[..first]) + |hi[0]|
      ensures log[first + 1..] == (hi + lo)[1..] == hi[1..] + lo
    {
      assert log[first] == log[first..][0] && log[first + 1..] == log[first..][1..];
      assert log[..first + 1][..first] == log[..first];
    }

    /** How the scan leaves one subscriber, at message `k`. */
    ghost predicate Scanned(sub: Subscriber, k: nat)
      requires hi != []
      reads this`log, this`first, this`hi, this`lo, this`start, this`fileOffset, this`base
    {
      var now := AtStart(sub, start, fileOffset);
      && now == Moved(sub, k, first + 1, FileAt(log, base, k)) && At(now, k, first, start, hi, lo)
      && (|hi| > 1 || lo == [] ==> At(now, k, first + 1, start + 1 + |hi[0]|, hi[1..], lo))
      && (|hi| == 1 && lo != [] ==> At(now, k, first + 1, 0, lo, []))
    }

    lemma ScanIsExactFor(sub: Subscriber, k: nat)
      requires Layout() && Content() && hi != [] && At(sub, k, first, start, hi, lo)
      ensures Scanned(sub, k)
    {
      ScanIsExact(buffer[..], sub, k, first, start, end, hi, lo, fileOffset);
      hide Laid, Bytes, StateOf, Follows, PlaceIn;
    }

    lemma ScanIsExactForAll()
      requires Layout() && Content() && hi != [] && |next| == |subs|
      requires forall i :: 0 <= i < |subs| ==> At(subs[i], next[i], first, start, hi, lo)
      ensures forall i :: 0 <= i < |subs| ==> Scanned(subs[i], next[i])
    {
      hide *;
      forall i | 0 <= i < |subs| ensures Scanned(subs[i], next[i]) {
        ScanIsExactFor(subs[i], next[i]);
      }
    }

    lemma FileAtFirst()
      requires first <= |log|
      ensures FileAt(log, base, first) == base + Bytes(log[..first])
    {
    }

    /** A place where an entry fits without touching another one. */
    ghost predicate Fits(at: nat, length: nat)
      reads this`start, this`end, this`hi, this`lo
    {
      && at + 1 + length < buffer.Length
      && if at == end then lo == [] || at + 1 + length < start
        else at == 0 && lo == [] && hi != [] && 1 + length < start
    }

    /** Find a place for a new entry, and evict messages as long as they are in the way (nbMsgCacheStomp). There is none
        exactly when a message that has to leave is not the next one of its node. */
    method Stomp(length: nat) returns (at: nat, ok: bool)
      requires Valid() && 2 <= length < MAX_ENTRY
      modifies this`start, this`fileOffset, this`startState, this`subs, this`first, this`hi, this`lo
      ensures Valid() && first >= old(first)
      ensures ok ==> Fits(at, length) && Switched(old(subs), first)
      ensures !ok ==> first < |log| && !Follows(log, first, idOf) && Switched(old(subs), first + 1)
    {
      hide Bytes, FileAt, At, Encode, Follows;
      at, ok := end, true;
      var stop := at + 1 + length;
      NothingMoved();
      while true
        invariant Valid() && first >= old(first) && stop == at + 1 + length && ok
        invariant at == end || (at == 0 && lo == [] && hi != [] && end + 1 + length >= buffer.Length)
        invariant Switched(old(subs), first)
        decreases |hi| + |lo|, if at > start then 1 else 0
      {
        Sizes();
        if at > start {
          if stop < buffer.Length {
            return;
          }
          at := 0;
          stop := at + 1 + length;
        } else if stop >= start {
          if buffer[start] != STOP {
            NextFirst();
            ok := Evict();
            if !ok {
              return;
            }
          } else {
            return;
          }
        } else {
          return;
        }
      }
    }

    lemma NothingMoved()
      requires Valid()
      ensures Switched(subs, first)
    {
      forall i | 0 <= i < |subs| ensures subs[i] == Moved(subs[i], next[i], first, FileAt(log, base, next[i])) {
        assert At(subs[i], next[i], first, start, hi, lo);
      }
    }

    /** What the bounds of the buffer say about the cache. */
    lemma Sizes()
      requires Valid()
      ensures hi == [] ==> start == end == 0 && lo == [] && buffer[start] == STOP
      ensures hi != [] ==> start < buffer.Length && buffer[start] == 0 && |hi[0]| < MAX_ENTRY
      ensures hi != [] && lo == [] ==> start < end && (start + MAX_ENTRY < end ==> |hi| > 1)
      ensures lo != [] ==> end < start
    {
      if hi != [] {
        FirstMessage();
        EncodeHead(hi);
        if |hi| == 1 {
          EncodeOne(hi[0]);
          assert hi == [hi[0]];
        }
      }
    }

    // -----------------------------------------------------------------------------------------
    // Inserting and publishing
    // -----------------------------------------------------------------------------------------

    method Fill(at: nat, m: Message)
      requires at + 1 + |m| < buffer.Length
      modifies buffer
      ensures Written(old(buffer[..]), buffer[..], at, m)
    {
      buffer[at] := 0;
      var i := 0;
      while i < |m|
        invariant 0 <= i <= |m| && buffer[at] == 0
        invariant forall k :: 0 <= k < i ==> buffer[at + 1 + k] == m[k]
        invariant forall k :: 0 <= k < at || at + 1 + |m| <= k < buffer.Length ==> buffer[k] == old(buffer[k])
      {
        buffer[at + 1 + i] := m[i];
        i := i + 1;
      }
      buffer[at + 1 + |m|] := STOP;
    }

    /** Write an entry behind the last one, or at the start of the buffer. */
    method Store(at: nat, m: Message)
      requires Valid() && Fits(at, |m|)
      modifies buffer, this`end, this`hi, this`lo, this`log
      ensures Layout() && Content() && log == old(log) + [m] && hi != [] && end == at + 1 + |m|
      ensures forall i :: 0 <= i < |subs| ==> Waits(subs[i], next[i], first, start, hi, lo)
    {
      AllStay(at, m);
      Logged(m);
      hide *;
      ghost var was := buffer[..];
      Fill(at, m);
      LaidStored(was, buffer[..], at, m);
      hi, lo, log, end := Stored(at, m).0, Stored(at, m).1, log + [m], at + 1 + |m|;
      assert Layout() && Content();
    }

    /** The messages from the start and from the start of the buffer, with a new one that is stored at `at`. */
    ghost function Stored(at: nat, m: Message): (seq<Message>, seq<Message>)
      reads this`end, this`hi, this`lo
    {
      if at == end && lo == [] then (hi + [m], []) else (hi, lo + [m])
    }

    lemma AllStay(at: nat, m: Message)
      requires Valid()
      ensures forall i :: 0 <= i < |subs| ==> Waits(subs[i], next[i], first, start, Stored(at, m).0, Stored(at, m).1)
    {
      hide Laid, Waits, At;
      assert lo == [] ==> lo + [m] == [m];
      forall i | 0 <= i < |subs| ensures Waits(subs[i], next[i], first, start, Stored(at, m).0, Stored(at, m).1) {
        CursorsStay(subs[i], next[i], first, start, hi, lo, m);
      }
    }

    lemma LaidStored(was: seq<Byte>, now: seq<Byte>, at: nat, m: Message)
      requires Laid(was, start, end, hi, lo) && Fits(at, |m|) && Written(was, now, at, m)
      ensures Laid(now, start, at + 1 + |m|, Stored(at, m).0, Stored(at, m).1)
    {
      hide Laid, Written, Encode;
      if at != end {
        LaidAround(was, now, start, end, hi, m);
        assert lo + [m] == [m];
      } else if lo == [] {
        LaidBehind(was, now, start, end, hi, m);
      } else {
        LaidBetween(was, now, start, end, hi, lo, m);
      }
    }

    lemma Logged(m: Message)
      requires Content()
      ensures (log + [m])[first..] == hi + lo + [m] && (log + [m])[..first] == log[..first]
      ensures lo == [] ==> hi + lo + [m] == hi + [m] + [] && hi + lo + [m] == hi + [m]
      ensures hi + lo + [m] == hi + (lo + [m])
      ensures forall k :: 0 <= k < first ==> Follows(log + [m], k, idOf)
    {
      forall k | 0 <= k < first ensures Follows(log + [m], k, idOf) {
        StillFollows(log, m, k, idOf);
      }
    }

    /** The message at a cursor, and where the next entry is. */
    method Read(cursor: nat, ghost k: nat) returns (message: Message, further: nat)
      requires Layout() && k <= |hi| + |lo| && Walking(cursor, k, start, hi, lo)
      requires cursor != end && cursor < buffer.Length && buffer[cursor] != STOP
      ensures k < |hi| + |lo| && cursor == Place(k) && message == (hi + lo)[k]
      ensures Walking(further, k + 1, start, hi, lo)
    {
      WalkStep(buffer[..], start, end, hi, lo, k, cursor);
      hide Laid, Encode, PlaceIn, Walking;
      var length := buffer[cursor + 1] as int * 256 + buffer[cursor + 2] as int;
      message := buffer[cursor + 1..cursor + 1 + length];
      further := cursor + 1 + length;
    }

    /** Walk through the cache from a cursor to the end, or to a message that the subscriber is not ready for.
        `answers` are its answers to the messages on the way. */
    method Walk(cursor0: nat, ghost k: nat, answers: nat -> Answer)
      returns (cursor: nat, ready: bool, taken: seq<Message>)
      requires Layout() && k <= |hi| + |lo| && Walking(cursor0, k, start, hi, lo)
      ensures var n := |hi| + |lo| - k;
        var count := Until(0, n, answers);
        cursor == Place(k + count) && (ready <==> count == n) && taken == Taken((hi + lo)[k..], count, answers)
    {
      hide Laid, Encode, PlaceIn, Walking, Until, Taken;
      ghost var ms := (hi + lo)[k..];
      NoFurther(ms, answers);
      var n: nat := 0;
      cursor, ready, taken := cursor0, true, [];
      while cursor != end && ready
        invariant n <= |ms| && taken == Taken(ms, n, answers) && Walking(cursor, k + n, start, hi, lo)
        invariant Until(0, |ms|, answers) == Until(n, |ms|, answers)
        invariant !ready ==> n < |ms| && answers(n) == NotReady && cursor == Place(k + n)
        decreases ready, |ms| - n, if cursor < buffer.Length && buffer[cursor] == STOP then 1 else 0
      {
        WalkStep(buffer[..], start, end, hi, lo, k + n, cursor);
        if buffer[cursor] == STOP {
          cursor := 0;
        } else {
          OneFurther(ms, n, answers);
          var message, further := Read(cursor, k + n);
          var answer := answers(n);
          if answer == NotReady {
            ready := false;
          } else {
            if answer == Takes {
              taken := taken + [message];
            }
            n := n + 1;
            cursor := further;
          }
        }
      }
      if ready {
        WalkStep(buffer[..], start, end, hi, lo, k + n, cursor);
        LastPlace(buffer[..], start, end, hi, lo);
      } else {
        OneFurther(ms, n, answers);
      }
    }

    /** Publish from the cursor of a subscriber on (nbMsgCachePublish). */
    method Publish(i: nat, answers: nat -> Answer) returns (messages: nat)
      requires i < |subs| == |next| == |handed| && Layout() && Content()
      requires !subs[i].fromLog && Near(subs[i], next[i], first, start, hi, lo)
      modifies this`subs, this`next, this`handed
      ensures |subs| == |next| == |handed| == |old(subs)| && !subs[i].fromLog
      ensures subs == old(subs)[i := subs[i]] && next == old(next)[i := next[i]]
      ensures handed == old(handed)[i := handed[i]]
      ensures At(subs[i], next[i], first, start, hi, lo)
      ensures first <= old(next[i]) <= next[i] <= |log|
      ensures next[i] - old(next[i]) == Until(0, |log| - old(next[i]), answers)
      ensures subs[i].paused <==> next[i] < |log|
      ensures subs[i].cursor == end <==> next[i] == |log|
      ensures handed[i] == old(handed[i]) + Taken(log[old(next[i])..], next[i] - old(next[i]), answers)
      ensures messages == |Taken(log[old(next[i])..], next[i] - old(next[i]), answers)|
    {
      hide *;
      ghost var k := next[i] - first;
      Standing(i);
      ghost var count := Until(0, |hi| + |lo| - k, answers);
      var cursor, ready, taken := Walk(subs[i].cursor, k, answers);
      OnlyEndIsEnd(k + count);
      subs := subs[i := subs[i].(paused := !ready, cursor := cursor)];
      next := next[i := next[i] + count];
      handed := handed[i := handed[i] + taken];
      messages := |taken|;
      IsAt(subs[i], next[i], first, start, hi, lo);
    }

    /** Where a subscriber stands before it is published to. */
    lemma Standing(i: nat)
      requires i < |subs| == |next| && Content() && !subs[i].fromLog && Near(subs[i], next[i], first, start, hi, lo)
      ensures first <= next[i] <= |log| == first + |hi| + |lo|
      ensures Walking(subs[i].cursor, next[i] - first, start, hi, lo)
      ensures log[next[i]..] == (hi + lo)[next[i] - first..]
    {
      assert |log[first..]| == |hi + lo|;
      assert log[next[i]..] == log[first..][next[i] - first..];
    }

    lemma OnlyEndIsEnd(k: nat)
      requires Layout() && k <= |hi| + |lo|
      ensures Place(k) == PlaceIn(start, hi, lo, k) && (Place(k) == end <==> k == |hi| + |lo|)
    {
      LastPlace(buffer[..], start, end, hi, lo);
      if k < |hi| + |lo| {
        PlaceOf(buffer[..], start, end, hi, lo, k);
      }
    }

    static lemma IsAt(sub: Subscriber, k: nat, first: nat, start: nat, hi: seq<Message>, lo: seq<Message>)
      requires first <= k <= first + |hi| + |lo| && (sub.paused ==> k < first + |hi| + |lo|)
      requires sub.cursor == PlaceIn(start, hi, lo, k - first)
      ensures At(sub, k, first, start, hi, lo)
    {
    }

    /** What inserting a message comes to for subscriber `i`, which was `sub`, at message `k`, and had got `had`. */
    ghost predicate Served(i: nat, sub: Subscriber, k: nat, had: seq<Message>, answers: nat -> Answer)
      requires i < |subs| == |next| == |handed|
      reads this`subs, this`next, this`handed, this`first, this`log, this`base
    {
      Outcome(subs[i], next[i], handed[i], sub, k, had, first, log, base, answers)
    }

    method ServeOne(i: nat, answers: nat -> Answer)
      requires i < |subs| == |next| == |handed| && Layout() && Content()
      requires Waits(subs[i], next[i], first, start, hi, lo)
      modifies this`subs, this`next, this`handed
      ensures |subs| == |next| == |handed| == |old(subs)| && At(subs[i], next[i], first, start, hi, lo)
      ensures subs == old(subs)[i := subs[i]] && next == old(next)[i := next[i]]
      ensures handed == old(handed)[i := handed[i]]
      ensures Served(i, old(subs[i]), old(next[i]), old(handed[i]), answers)
    {
      if !subs[i].paused && !subs[i].fromLog {
        var messages := Publish(i, answers);
        if messages > 0 {
          subs := subs[i := subs[i].(paused := false)];
        }
      }
    }

    method ServeAll(answers: nat -> nat -> Answer)
      requires |subs| == |next| == |handed| && Layout() && Content()
      requires forall j :: 0 <= j < |subs| ==> Waits(subs[j], next[j], first, start, hi, lo)
      modifies this`subs, this`next, this`handed
      ensures |subs| == |next| == |handed| == |old(subs)|
      ensures forall j :: 0 <= j < |subs| ==> At(subs[j], next[j], first, start, hi, lo)
      ensures forall j :: 0 <= j < |subs| ==> Served(j, old(subs[j]), old(next[j]), old(handed[j]), answers(j))
    {
      hide Layout, Content, At, Waits, Outcome;
      var i := 0;
      while i < |subs|
        invariant 0 <= i <= |subs| == |next| == |handed| == |old(subs)|
        invariant forall j :: 0 <= j < i ==> At(subs[j], next[j], first, start, hi, lo)
        invariant forall j :: 0 <= j < i ==> Served(j, old(subs[j]), old(next[j]), old(handed[j]), answers(j))
        invariant forall j :: i <= j < |subs| ==> Waits(subs[j], next[j], first, start, hi, lo)
        invariant forall j :: i <= j < |subs| ==>
          subs[j] == old(subs[j]) && next[j] == old(next[j]) && handed[j] == old(handed[j])
      {
        ServeOne(i, answers(i));
        i := i + 1;
      }
    }

    /** Put a message into the cache, if there is a place; nothing has been published yet. */
    method Enter(m: Message) returns (ok: bool)
      requires Valid()
      modifies buffer, this`start, this`end, this`fileOffset, this`startState, this`subs, this`first, this`hi, this`lo,
        this`log
      ensures Layout() && Content() && first >= old(first)
      ensures !ok ==> Valid() && log == old(log) && first < |log| && !Follows(log, first, idOf)
      ensures ok ==> log == old(log) + [m]
      ensures |subs| == |old(subs)|
      ensures ok ==> forall j :: 0 <= j < |subs| ==> Waits(subs[j], next[j], first, start, hi, lo)
      ensures ok ==> forall j :: 0 <= j < |subs| ==>
        subs[j] == Moved(old(subs[j]), next[j], first, FileAt(log, base, next[j]))
    {
      hide Laid, Encode, Bytes, PlaceIn, FileAt, Follows;
      ghost var was := log;
      forall j | 0 <= j < |subs| && !subs[j].fromLog
        ensures FileAt(was + [m], base, next[j]) == FileAt(was, base, next[j])
      {
        SamePosition(was, m, next[j]);
      }
      hide Content, At, Near;
      var at;
      at, ok := Stomp(|m|);
      if ok {
        Store(at, m);
      }
    }

    lemma SamePosition(was: seq<Message>, m: Message, k: nat)
      requires k <= |was|
      ensures FileAt(was + [m], base, k) == FileAt(was, base, k)
    {
      assert (was + [m])[..k] == was[..k];
    }

    /** Put a message into the cache, and publish it to every subscriber that is waiting. */
    method Add(m: Message, answers: nat -> nat -> Answer) returns (ok: bool)
      requires Valid()
      modifies this, buffer
      ensures Valid() && first >= old(first) && base == old(base) && endCount == old(endCount) && |subs| == |old(subs)|
      ensures !ok ==> log == old(log) && first < |log| && !Follows(log, first, idOf)
      ensures ok ==> log == old(log) + [m]
      ensures ok ==> forall i :: 0 <= i < |subs| ==> Served(i, old(subs[i]), old(next[i]), old(handed[i]), answers(i))
    {
      hide Layout, Content, At, Near, FileAt, Follows;
      ok := Enter(m);
      if ok {
        label Entered:
        ServeAll(answers);
        forall i | 0 <= i < |subs| ensures Served(i, old(subs[i]), old(next[i]), old(handed[i]), answers(i)) {
          assert Served(i, old@Entered(subs[i]), old(next[i]), old(handed[i]), answers(i));
        }
      }
    }

    /** Insert a message with a record number (nbMsgCacheInsert). `endState` is the state at the end of the cache, which
        is kept up to date by the log. */
    method Insert(m: Message, recordCount: nat, endState: Messages.Vector, answers: nat -> nat -> Answer)
      returns (r: Insertion)
      requires Valid()
      modifies this, buffer
      ensures Valid() && base == old(base) && |subs| == |old(subs)|
      ensures r.OutOfSequence? <==> recordCount != (old(endCount) + 1) % WORDS
      ensures r.SeenBefore? <==>
        recordCount == (old(endCount) + 1) % WORDS && Messages.Behind(idOf(m).key, endState[idOf(m).node])
      ensures endCount == if r.OutOfSequence? then old(endCount) else recordCount
      ensures r.OutOfSequence? || r.SeenBefore? ==>
        && log == old(log) && first == old(first) && subs == old(subs) && next == old(next) && handed == old(handed)
        && buffer[..] == old(buffer[..]) && start == old(start) && end == old(end)
      ensures r.NoPlace? ==> log == old(log) && old(first) <= first < |log| && !Follows(log, first, idOf)
      ensures r.Inserted? ==> log == old(log) + [m] && first >= old(first)
      ensures r.Inserted? ==>
        forall i :: 0 <= i < |subs| ==> Served(i, old(subs[i]), old(next[i]), old(handed[i]), answers(i))
    {
      hide Layout, Content, At, Outcome, Follows, Messages.StateCheck, Messages.Behind;
      if recordCount != (endCount + 1) % WORDS {
        return OutOfSequence;
      }
      endCount := recordCount;
      Messages.StateCheckIs(endState, idOf(m));
      if Messages.StateCheck(endState, idOf(m)) < 0 {
        return SeenBefore;
      }
      var ok := Add(m, answers);
      r := if ok then Inserted else NoPlace;
    }

    // -----------------------------------------------------------------------------------------
    // Coming and going
    // -----------------------------------------------------------------------------------------

    /** A new subscriber starts with the log file. */
    method Subscribe(position: nat, ghost k: nat)
      requires Valid()
      modifies this`subs, this`next, this`handed
      ensures Valid() && subs == old(subs) + [Subscriber(true, false, 0, position)]
      ensures next == old(next) + [k] && handed == old(handed) + [[]]
    {
      hide Laid, Bytes, PlaceIn;
      subs, next, handed := subs + [Subscriber(true, false, 0, position)], next + [k], handed + [[]];
    }

    /** A subscriber that has read the log file to its end continues at the start of the cache. */
    method Resume(i: nat, answers: nat -> Answer) returns (messages: nat)
      requires Valid() && i < |subs| && subs[i].fromLog
      modifies this`subs, this`next, this`handed
      ensures Valid() && |subs| == |old(subs)| && !subs[i].fromLog && first <= next[i] <= |log|
      ensures handed == old(handed)[i := old(handed[i]) + Taken(log[first..], next[i] - first, answers)]
      ensures next[i] == first + Until(0, |log| - first, answers)
      ensures subs == old(subs)[i := subs[i]] && next == old(next)[i := next[i]]
    {
      StartIsAt();
      hide Laid, Bytes, PlaceIn;
      subs := subs[i := Subscriber(false, false, start, subs[i].fileOffset)];
      next := next[i := first];
      messages := Publish(i, answers);
    }

    lemma StartIsAt()
      requires Layout()
      ensures PlaceIn(start, hi, lo, 0) == start
    {
      NoBytes(hi);
    }
  }
}
