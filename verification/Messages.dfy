/** Message logs of lib/nbmsg.c: message ids, state vectors, and the acceptance of messages. */
module Messages {

  const NODES := 256
  const WORDS := 0x1_0000_0000

  type NodeId = n: nat | n < NODES
  type Word = n: nat | n < WORDS

  /** A transaction or record number. Ordered by time first. */
  datatype Key = Key(time: Word, count: Word)

  const ZERO := Key(0, 0)

  predicate Less(a: Key, b: Key) {
    a.time < b.time || (a.time == b.time && a.count < b.count)
  }

  /** The order is that of one long number. */
  lemma KeysAsNumbers(a: Key, b: Key)
    ensures Less(a, b) <==> a.time * WORDS + a.count < b.time * WORDS + b.count
  {
  }

  datatype MsgId = MsgId(node: NodeId, key: Key)

  datatype Kind = Message | Footer

  /** `si` is given by the node where the message originates, `pi` by the node in whose log the record is.
      The path lists the ids it had in the logs it has come through, the latest first. */
  datatype Msg = Msg(kind: Kind, si: MsgId, pi: MsgId, path: seq<MsgId>, text: string)

  datatype Flag = ForProgram | ForLog | SequenceLow | SequenceHigh | FileEnd

  // -------------------------------------------------------------------------------------------
  // State vectors
  // -------------------------------------------------------------------------------------------

  type Vector = s: seq<Key> | |s| == NODES witness seq(NODES, i => ZERO)

  /** The vector after a message: an entry never goes back. */
  function Joined(s: Vector, id: MsgId): Vector {
    if Less(s[id.node], id.key) then s[id.node := id.key] else s
  }

  function After(s: Vector, ids: seq<MsgId>): Vector {
    if ids == [] then s else Joined(After(s, ids[..|ids| - 1]), ids[|ids| - 1])
  }

  /** Message `i` of the sequence is accepted. */
  predicate Accepted(s: Vector, ids: seq<MsgId>, i: nat)
    requires i < |ids|
  {
    Less(After(s, ids[..i])[ids[i].node], ids[i].key)
  }

  /** The entry of a node is the greatest of what it was and the messages of that node. */
  lemma {:induction false} StateIsGreatest(s: Vector, ids: seq<MsgId>, n: NodeId)
    ensures var r := After(s, ids)[n];
      && !Less(r, s[n])
      && (forall i :: 0 <= i < |ids| && ids[i].node == n ==> !Less(r, ids[i].key))
      && (r == s[n] || exists i :: 0 <= i < |ids| && ids[i].node == n && ids[i].key == r)
  {
    if ids == [] {
    } else {
      var init := ids[..|ids| - 1];
      StateIsGreatest(s, init, n);
      var r := After(s, init)[n];
      if r != s[n] {
        var i :| 0 <= i < |init| && init[i].node == n && init[i].key == r;
        assert ids[i].node == n && ids[i].key == r;
      }
      assert forall i :: 0 <= i < |init| ==> init[i] == ids[i];
    }
  }

  /** Exactly when a message is accepted: it is greater than the initial entry of its node
      and than every earlier message of its node, accepted or not. */
  lemma AcceptedIffNewest(s: Vector, ids: seq<MsgId>, i: nat)
    requires i < |ids|
    ensures Accepted(s, ids, i) <==>
      && Less(s[ids[i].node], ids[i].key)
      && forall j :: 0 <= j < i && ids[j].node == ids[i].node ==> Less(ids[j].key, ids[i].key)
  {
    var n := ids[i].node;
    StateIsGreatest(s, ids[..i], n);
    assert forall j :: 0 <= j < i ==> ids[..i][j] == ids[j];
  }

  /** Accepted messages of a node strictly increase, so none is accepted twice. */
  lemma AcceptedAtMostOnce(s: Vector, ids: seq<MsgId>, i: nat, j: nat)
    requires i < j < |ids| && ids[i].node == ids[j].node
    requires Accepted(s, ids, i) && Accepted(s, ids, j)
    ensures Less(ids[i].key, ids[j].key)
  {
    AcceptedIffNewest(s, ids, j);
  }

  /** Entries never decrease. */
  lemma {:induction false} StatesNeverGoBack(s: Vector, ids: seq<MsgId>, i: nat, j: nat, n: NodeId)
    requires i <= j <= |ids|
    ensures !Less(After(s, ids[..j])[n], After(s, ids[..i])[n])
    decreases j
  {
    if i < j {
      StatesNeverGoBack(s, ids, i, j - 1, n);
      assert ids[..j][..j - 1] == ids[..j - 1];
    }
  }

  // -------------------------------------------------------------------------------------------
  // Sequence numbers
  // -------------------------------------------------------------------------------------------

  function NextWord(c: Word): Word {
    (c + 1) % WORDS
  }

  /** Transaction counts skip the value zero when they wrap. */
  function NextCount(c: Word): Word {
    if NextWord(c) == 0 then 1 else NextWord(c)
  }

  /** A new transaction id is greater than the last one exactly when the clock has not gone back,
      and the count does not wrap within one second. */
  lemma NewIdIsNewer(last: Key, time: Word)
    ensures Less(last, Key(time, NextCount(last.count))) <==>
      last.time <= time && !(last.time == time && last.count == WORDS - 1)
  {
  }

  /** nbMsgCountCompare: counts near the end of the range are before counts near its start. */
  function CountCompare(a: Word, b: Word): int {
    if a == b then 0
    else if a > 0xc000_0000 && b < 0x3fff_ffff then -1
    else if b > 0xc000_0000 && a < 0x3fff_ffff then 1
    else if a < b then -1
    else 1
  }

  /** nbMsgStateCheck: how an id compares with the entry of its node. */
  function StateCheck(s: Vector, id: MsgId): int {
    if id.key.time < s[id.node].time then -1
    else if id.key.time > s[id.node].time then 1
    else CountCompare(id.key.count, s[id.node].count)
  }

  /** nbMsgStateSetFromMsgId accepts an id with the next count, and any id of a node that has no entry. */
  predicate IsNext(s: Vector, id: MsgId) {
    s[id.node].count == 0 || id.key.count == NextCount(s[id.node].count)
  }

  /** One count is near the end of the range and the other near its start. */
  predicate AcrossWrap(a: Word, b: Word) {
    (a > 0xc000_0000 && b < 0x3fff_ffff) || (b > 0xc000_0000 && a < 0x3fff_ffff)
  }

  /** The comparison is antisymmetric, and puts a count before its successor, also when it wraps. It is the order of
      numbers away from the wrap, and the other way round across it. */
  lemma CountsCompare(a: Word, b: Word)
    ensures CountCompare(a, b) == -CountCompare(b, a)
    ensures CountCompare(a, b) == 0 <==> a == b
    ensures CountCompare(a, NextWord(a)) == -1
    ensures CountCompare(a, b) < 0 <==> if AcrossWrap(a, b) then b < a else a < b
  {
  }

  /** A count is before every count that comes within a quarter of the range after it, wherever the range wraps. */
  lemma CountsAhead(a: Word, ahead: nat)
    requires 0 < ahead <= 0x3fff_ffff
    ensures CountCompare(a, (a + ahead) % WORDS) < 0 && CountCompare((a + ahead) % WORDS, a) > 0
  {
    if a + ahead < WORDS {
      assert (a + ahead) % WORDS == a + ahead;
    } else {
      assert (a + ahead) % WORDS == a + ahead - WORDS;
    }
  }

  /** The next record number is the least one that is greater, and zero behind the last one; the next transaction
      count skips zero. */
  lemma NextCounts(c: Word, w: Word)
    ensures c < w ==> c < NextWord(c) <= w
    ensures c < WORDS - 1 ==> NextCount(c) == NextWord(c)
    ensures NextWord(WORDS - 1) == 0 && NextCount(WORDS - 1) == 1
  {
  }

  /** The check compares an id with the entry of its node as keys, but across the wrap of counts within one second. */
  lemma StateCheckIs(s: Vector, id: MsgId)
    ensures StateCheck(s, id) == 0 <==> id.key == s[id.node]
    ensures StateCheck(s, id) < 0 <==> Behind(id.key, s[id.node])
  {
    CountsCompare(id.key.count, s[id.node].count);
    hide CountCompare;
  }

  /** `a` is less than `b`; counts on either side of the wrap within one second are the other way round. */
  predicate Behind(a: Key, b: Key) {
    if a.time == b.time && AcrossWrap(a.count, b.count) then Less(b, a) else Less(a, b)
  }

  /** When an id is accepted as the next one of its node. */
  lemma IsNextIs(s: Vector, id: MsgId)
    ensures IsNext(s, id) <==>
      || s[id.node].count == 0
      || id.key.count == s[id.node].count + 1
      || (s[id.node].count == WORDS - 1 && id.key.count == 1)
  {
  }

  datatype Arrival = Low | High | End | Due

  /** How a record relates to what the log of node `node` has come to. Records of other nodes are always due. */
  function Arrives(node: NodeId, recordCount: Word, m: Msg): Arrival {
    if m.pi.node == node && m.pi.key.count != NextWord(recordCount) then
      if CountCompare(m.pi.key.count, recordCount) <= 0 then Low else High
    else if m.kind == Footer then End
    else Due
  }

  /** A record of another node is always due; one of the own log when its number follows the last one. Others are low or
      high, by the order of their numbers. */
  lemma ArrivesIs(node: NodeId, recordCount: Word, m: Msg)
    ensures var r, c := Arrives(node, recordCount, m), m.pi.key.count;
      && (r.Due? || r.End? <==> m.pi.node != node || c == if recordCount == WORDS - 1 then 0 else recordCount + 1)
      && (r.End? ==> m.kind == Footer) && (r.Due? ==> m.kind == Message)
      && (r.Low? ==> if AcrossWrap(c, recordCount) then recordCount < c else c <= recordCount)
      && (r.High? ==> if AcrossWrap(c, recordCount) then c < recordCount else recordCount < c)
      && RecordCount(node, recordCount, m) == if m.pi.node == node && (r.Due? || r.End?) then c else recordCount
  {
    CountsCompare(m.pi.key.count, recordCount);
    hide CountCompare;
  }

  function RecordCount(node: NodeId, recordCount: Word, m: Msg): Word {
    if m.pi.node == node && !Arrives(node, recordCount, m).Low? && !Arrives(node, recordCount, m).High?
    then m.pi.key.count else recordCount
  }

  /** The transaction ids of the records that are due. */
  function DueIds(node: NodeId, recordCount: Word, ms: seq<Msg>): seq<MsgId>
    decreases |ms|
  {
    if ms == [] then []
    else (if Arrives(node, recordCount, ms[0]).Due? then [ms[0].si] else [])
         + DueIds(node, RecordCount(node, recordCount, ms[0]), ms[1..])
  }

  /** What the program gets to process. */
  function Processed(s: Vector, ids: seq<MsgId>): seq<MsgId>
    decreases |ids|
  {
    if ids == [] then []
    else (if Less(s[ids[0].node], ids[0].key) then [ids[0]] else []) + Processed(Joined(s, ids[0]), ids[1..])
  }

  lemma {:induction false} ProcessedAreNew(s: Vector, ids: seq<MsgId>, x: MsgId)
    ensures x in Processed(s, ids) ==> Less(s[x.node], x.key)
    decreases |ids|
  {
    if ids == [] {
    } else {
      ProcessedAreNew(Joined(s, ids[0]), ids[1..], x);
    }
  }

  /** For each node the ids of what the program gets strictly increase. */
  lemma {:induction false} ProcessedIncrease(s: Vector, ids: seq<MsgId>, i: nat, j: nat)
    requires i < j < |Processed(s, ids)| && Processed(s, ids)[i].node == Processed(s, ids)[j].node
    ensures Less(Processed(s, ids)[i].key, Processed(s, ids)[j].key)
    decreases |ids|
  {
    var t := Joined(s, ids[0]);
    var rest, p := Processed(t, ids[1..]), Processed(s, ids);
    var d := |p| - |rest|;
    assert forall k :: d <= k < |p| ==> p[k] == rest[k - d];
    if i >= d {
      ProcessedIncrease(t, ids[1..], i - d, j - d);
    } else {
      ProcessedAreNew(t, ids[1..], p[j]);
    }
  }

  /** What is delivered is the newest so far; what is not delivered is not greater than something seen before. */
  lemma {:induction false} ProcessedAreNewest(s: Vector, ids: seq<MsgId>, x: MsgId)
    ensures x in Processed(s, ids) <==> exists i :: 0 <= i < |ids| && ids[i] == x && Accepted(s, ids, i)
    decreases |ids|
  {
    if ids == [] {
    } else {
      var t, rest := Joined(s, ids[0]), ids[1..];
      ProcessedAreNewest(t, rest, x);
      forall i | 0 <= i < |rest| ensures Accepted(t, rest, i) <==> Accepted(s, ids, i + 1) {
        AcceptedIffNewest(t, rest, i);
        AcceptedIffNewest(s, ids, i + 1);
        assert forall j :: 0 <= j < i ==> rest[j] == ids[j + 1];
        assert forall j :: 1 <= j <= i ==> ids[j] == rest[j - 1];
      }
      assert forall i :: 1 <= i < |ids| ==> ids[i] == rest[i - 1];
      AcceptedIffNewest(s, ids, 0);
      if i :| 0 <= i < |rest| && rest[i] == x && Accepted(t, rest, i) {
        assert ids[i + 1] == x && Accepted(s, ids, i + 1);
      }
      if i :| 0 <= i < |ids| && ids[i] == x && Accepted(s, ids, i) {
        if i > 0 {
          assert rest[i - 1] == x && Accepted(t, rest, i - 1);
        }
      }
    }
  }

  // -------------------------------------------------------------------------------------------
  // The log of a node
  // -------------------------------------------------------------------------------------------

  /** What a node keeps when the program state is the log state. */
  datatype Node = Node(log: seq<Msg>, state: Vector, recordCount: Word)

  /** A replica in the log of `node`: the id it had in the log it came from is put in front of the path. */
  function Replica(node: NodeId, m: Msg, time: Word, recordCount: Word): Msg {
    Msg(Message, m.si, MsgId(node, Key(time, NextWord(recordCount))), [m.pi] + m.path, m.text)
  }

  /** A node receives a message: it goes to the log if it is due and new. */
  function Receive(node: NodeId, n: Node, m: Msg, time: Word): Node {
    var count := RecordCount(node, n.recordCount, m);
    if Arrives(node, n.recordCount, m).Due? && Less(n.state[m.si.node], m.si.key) then
      Node(n.log + [Replica(node, m, time, count)], Joined(n.state, m.si), NextWord(count))
    else Node(n.log, n.state, count)
  }

  /** A node writes a message of its own. */
  function Produce(node: NodeId, n: Node, text: string, time: Word): Node {
    var key := Key(time, NextCount(n.state[node].count));
    Node(n.log + [Msg(Message, MsgId(node, key), MsgId(node, Key(time, NextWord(n.recordCount))), [], text)],
         n.state[node := key], NextWord(n.recordCount))
  }

  /** What a node writes is the next one after its state. */
  lemma ProducedIsNext(node: NodeId, n: Node, text: string, time: Word)
    ensures IsNext(n.state, MsgId(node, Produce(node, n, text, time).state[node]))
  {
  }

  // -------------------------------------------------------------------------------------------
  // Reading back a log
  // -------------------------------------------------------------------------------------------

  function Ids(log: seq<Msg>): seq<MsgId> {
    seq(|log|, i requires 0 <= i < |log| => log[i].si)
  }

  /** The messages are records of the log of `node`, numbered from the one after `recordCount`. */
  predicate Numbered(node: NodeId, recordCount: Word, log: seq<Msg>) {
    forall i :: 0 <= i < |log| ==>
      log[i].kind == Message && log[i].pi.node == node && log[i].pi.key.count == (recordCount + 1 + i) % WORDS
  }

  /** All of a log that was written without a gap is due when it is read back. */
  lemma {:induction false} AllIsDue(node: NodeId, recordCount: Word, log: seq<Msg>)
    requires Numbered(node, recordCount, log)
    ensures DueIds(node, recordCount, log) == Ids(log)
    decreases |log|
  {
    if log == [] {
    } else {
      var rest := log[1..];
      forall i | 0 <= i < |rest|
        ensures rest[i].kind == Message && rest[i].pi.node == node
        ensures rest[i].pi.key.count == (NextWord(recordCount) + 1 + i) % WORDS
      {
        assert rest[i] == log[i + 1];
        NumbersGoOn(recordCount, i);
      }
      AllIsDue(node, NextWord(recordCount), rest);
      assert Ids(log) == [log[0].si] + Ids(rest);
    }
  }

  lemma NumbersGoOn(recordCount: Word, i: nat)
    ensures (NextWord(recordCount) + 1 + i) % WORDS == (recordCount + 2 + i) % WORDS
  {
    if recordCount == WORDS - 1 {
      assert (recordCount + 2 + i) % WORDS == (1 + i) % WORDS;
    }
  }

  /** The log holds what brings a node to its state. */
  ghost predicate Restorable(node: NodeId, n: Node) {
    && Numbered(node, 0, n.log) && n.recordCount == |n.log| % WORDS
    && After(seq(NODES, i => ZERO), Ids(n.log)) == n.state
  }

  lemma IdsSnoc(log: seq<Msg>, m: Msg, s: Vector)
    ensures Ids(log + [m]) == Ids(log) + [m.si]
    ensures After(s, Ids(log + [m])) == Joined(After(s, Ids(log)), m.si)
  {
    assert Ids(log + [m]) == Ids(log) + [m.si];
    assert (Ids(log) + [m.si])[..|log|] == Ids(log);
  }

  /** Writing a record with the next number. */
  lemma StaysRestorable(node: NodeId, n: Node, m: Msg)
    requires Restorable(node, n)
    requires m.kind == Message && m.pi.node == node && m.pi.key.count == NextWord(n.recordCount)
    ensures Restorable(node, Node(n.log + [m], Joined(n.state, m.si), NextWord(n.recordCount)))
  {
    IdsSnoc(n.log, m, seq(NODES, i => ZERO));
    NextOfLength(|n.log|);
  }

  lemma NextOfLength(n: nat)
    ensures NextWord(n % WORDS) == (n + 1) % WORDS
  {
  }

  lemma ProduceIsRestorable(node: NodeId, n: Node, text: string, time: Word)
    requires Restorable(node, n) && Less(n.state[node], Key(time, NextCount(n.state[node].count)))
    ensures Restorable(node, Produce(node, n, text, time))
  {
    var r := Produce(node, n, text, time);
    hide Restorable;
    StaysRestorable(node, n, r.log[|n.log|]);
  }

  lemma ReceiveIsRestorable(node: NodeId, n: Node, m: Msg, time: Word)
    requires Restorable(node, n) && m.pi.node != node
    ensures Restorable(node, Receive(node, n, m, time))
  {
    var r := Receive(node, n, m, time);
    hide Restorable;
    if r.log != n.log {
      StaysRestorable(node, n, r.log[|n.log|]);
    }
  }

  class MsgLog {
    const node: NodeId
    const logState: array<Key>
    const pgmState: array<Key>
    var recordTime: Word
    var recordCount: Word
    var flags: set<Flag>
    /** The content of the log. */
    var log: seq<Msg>

    ghost predicate Valid() {
      logState.Length == NODES && pgmState.Length == NODES
    }

    ghost function Contents(): Node
      requires Valid()
      reads this, logState
    {
      Node(log, logState[..], recordCount)
    }

    /** A log of node `node`, with a program state of its own or without. */
    constructor (node: NodeId, shared: bool)
      ensures Valid() && fresh(logState) && fresh(pgmState) && this.node == node
      ensures shared <==> pgmState == logState
      ensures Contents() == Node([], seq(NODES, i => ZERO), 0)
    {
      this.node := node;
      var state := new Key[NODES](i => ZERO);
      logState := state;
      if shared {
        pgmState := state;
      } else {
        pgmState := new Key[NODES](i => ZERO);
      }
      recordTime, recordCount, flags, log := 0, 0, {}, [];
    }

    /** Update the log and program state (nbMsgLogSetState). */
    method SetState(m: Msg) returns (r: set<Flag>)
      requires Valid()
      modifies this`recordTime, this`recordCount, this`flags, logState, pgmState
      ensures recordCount == RecordCount(node, old(recordCount), m)
      ensures recordTime ==
        if m.pi.node == node && Arrives(node, old(recordCount), m) in {Due, End} then m.pi.key.time else old(recordTime)
      ensures Arrives(node, old(recordCount), m) == Low ==> r == {SequenceLow}
      ensures Arrives(node, old(recordCount), m) == High ==> r == {SequenceHigh}
      ensures Arrives(node, old(recordCount), m) == End ==> r == {FileEnd}
      ensures Arrives(node, old(recordCount), m) != Due ==>
        logState[..] == old(logState[..]) && pgmState[..] == old(pgmState[..])
      ensures flags == old(flags) - {ForLog, ForProgram, SequenceLow, SequenceHigh}
        + (if Arrives(node, old(recordCount), m) == Due then {} else r)
      ensures Arrives(node, old(recordCount), m) == Due ==>
        && logState[..] == Joined(old(logState[..]), m.si)
        && pgmState[..] == Joined(old(pgmState[..]), m.si)
        && r == (if Less(old(logState[m.si.node]), m.si.key) then {ForLog} else {})
              + (if Less(old(pgmState[m.si.node]), m.si.key) then {ForProgram} else {})
    {
      flags := flags - {ForLog, ForProgram, SequenceLow, SequenceHigh};
      if m.pi.node == node {
        if m.pi.key.count != NextWord(recordCount) {
          if CountCompare(m.pi.key.count, recordCount) <= 0 {
            flags := flags + {SequenceLow};
            return {SequenceLow};
          } else {
            flags := flags + {SequenceHigh};
            return {SequenceHigh};
          }
        }
        recordTime := m.pi.key.time;
        recordCount := m.pi.key.count;
      }
      if m.kind == Footer {
        flags := flags + {FileEnd};
        return {FileEnd};
      }
      var n, tranTime, tranCount := m.si.node, m.si.key.time, m.si.key.count;
      var logFlags, pgmFlags := {}, {};
      if tranTime > logState[n].time {
        logState[n] := Key(tranTime, tranCount);
        logFlags := {ForLog};
      } else if tranTime == logState[n].time {
        if tranCount > logState[n].count {
          logState[n] := logState[n].(count := tranCount);
          logFlags := {ForLog};
        }
      }
      if pgmState != logState {
        if tranTime > pgmState[n].time {
          pgmState[n] := Key(tranTime, tranCount);
          pgmFlags := {ForProgram};
        } else if tranTime == pgmState[n].time {
          if tranCount > pgmState[n].count {
            pgmState[n] := pgmState[n].(count := tranCount);
            pgmFlags := {ForProgram};
          }
        }
      } else if ForLog in logFlags {
        pgmFlags := {ForProgram};
      }
      flags := flags + pgmFlags * logFlags;
      return pgmFlags + logFlags;
    }

    /** Append a record to the log (nbMsgLogWrite, without the change of files). */
    method Write(m: Msg, time: Word)
      modifies this`recordCount, this`log
      ensures recordCount == NextWord(old(recordCount))
      ensures log == old(log) + [m.(pi := MsgId(node, Key(time, recordCount)))]
    {
      recordCount := NextWord(recordCount);
      log := log + [m.(pi := MsgId(node, Key(time, recordCount)))];
    }

    /** Write a message of the node's own. Refused when the state of the log is in the future (nbMsgLogWriteString). */
    method WriteString(text: string, time: Word) returns (ok: bool)
      requires Valid()
      modifies this`recordCount, this`log, logState
      ensures ok <==> old(logState[node].time) <= time
      ensures Contents() == if ok then Produce(node, old(Contents()), text, time) else old(Contents())
      ensures ok ==>
        && |log| == |old(log)| + 1 && log[..|old(log)|] == old(log)
        && var m := log[|old(log)|];
        && m.kind == Message && m.text == text && m.path == [] && m.si.node == m.pi.node == node
        && m.si.key.time == m.pi.key.time == time && logState[..] == old(logState[..])[node := m.si.key]
        && m.pi.key.count == recordCount
        && (Less(old(logState[node]), m.si.key) || old(logState[node]) == Key(time, WORDS - 1))
    {
      if time < logState[node].time {
        return false;
      }
      logState[node] := logState[node].(time := time);
      var count := NextWord(logState[node].count);
      if count == 0 {
        count := NextWord(count);
      }
      logState[node] := logState[node].(count := count);
      Write(Msg(Message, MsgId(node, logState[node]), MsgId(node, ZERO), [], text), time);
      return true;
    }

    /** Write the replica of a message that has come from another node (nbMsgLogWriteReplica).
        It is new to the program when the program state says so. */
    method WriteReplica(m: Msg, time: Word) returns (isNew: bool)
      requires Valid()
      modifies this, logState, pgmState
      ensures Contents() == Receive(node, old(Contents()), m, time)
      ensures isNew <==> Arrives(node, old(recordCount), m) == Due && Less(old(pgmState[m.si.node]), m.si.key)
      ensures if !(Arrives(node, old(recordCount), m) == Due && Less(old(logState[m.si.node]), m.si.key))
        then log == old(log) && logState[..] == old(logState[..])
        else
          && |log| == |old(log)| + 1 && log[..|old(log)|] == old(log)
          && logState[..] == old(logState[..])[m.si.node := m.si.key]
          && var r := log[|old(log)|];
          && r.kind == Message && r.si == m.si && r.text == m.text && r.path == [m.pi] + m.path
          && r.pi.node == node && r.pi.key.time == time && r.pi.key.count == recordCount
    {
      var state := SetState(m);
      if ForLog in state {
        Write(Msg(m.kind, m.si, m.pi, [m.pi] + m.path, m.text), time);
      }
      return ForProgram in state;
    }

    method ReplayOne(m: Msg, processed: seq<MsgId>, ghost due: seq<MsgId>, ghost k: nat, ghost r: bool,
                     ghost pgm0: Vector, ghost log0: Vector) returns (processed': seq<MsgId>)
      requires Valid() && k <= |due| && (r <==> Arrives(node, recordCount, m) == Due)
      requires Arrives(node, recordCount, m) in {Low, High, End, Due}
      requires r ==> k < |due| && due[k] == m.si
      requires pgmState[..] == After(pgm0, due[..k]) && logState[..] == After(log0, due[..k])
      modifies this`recordTime, this`recordCount, this`flags, logState, pgmState
      ensures recordCount == RecordCount(node, old(recordCount), m)
      ensures k <= (if r then k + 1 else k) <= |due|
      ensures pgmState[..] == After(pgm0, due[..if r then k + 1 else k])
      ensures logState[..] == After(log0, due[..if r then k + 1 else k])
      ensures processed' + Processed(pgmState[..], due[if r then k + 1 else k..])
        == processed + Processed(old(pgmState[..]), due[k..])
    {
      assert Valid() && NODES == 256;
      hide *;
      if r {
        NextProcessed(pgm0, pgmState[..], due, k, processed);
        NextProcessed(log0, logState[..], due, k, []);
      }
      var state := SetState(m);
      processed' := if ForProgram in state then processed + [m.si] else processed;
    }

    /** Read records and hand the new ones to the program (the read loop of nbMsgCabalClient). */
    method Replay(records: seq<Msg>) returns (processed: seq<MsgId>)
      requires Valid()
      modifies this`recordTime, this`recordCount, this`flags, logState, pgmState
      ensures var due := DueIds(node, old(recordCount), records);
        && processed == Processed(old(pgmState[..]), due)
        && pgmState[..] == After(old(pgmState[..]), due)
        && logState[..] == After(old(logState[..]), due)
    {
      assert Valid() && NODES == 256;
      hide *;
      processed := [];
      ghost var due := DueIds(node, recordCount, records);
      var i := 0;
      ghost var k := 0;
      ReplayBegins(pgmState[..], due);
      ReplayBegins(logState[..], due);
      assert records[0..] == records;
      while i < |records|
        invariant 0 <= i <= |records| && 0 <= k <= |due|
        invariant due[k..] == DueIds(node, recordCount, records[i..])
        invariant processed + Processed(pgmState[..], due[k..]) == Processed(old(pgmState[..]), due)
        invariant pgmState[..] == After(old(pgmState[..]), due[..k])
        invariant logState[..] == After(old(logState[..]), due[..k])
      {
        ghost var r := NextDue(node, recordCount, records, i, due, k);
        processed := ReplayOne(records[i], processed, due, k, r, old(pgmState[..]), old(logState[..]));
        k := if r then k + 1 else k;
        i := i + 1;
      }
      ReplayEnds(pgmState[..], due, k, node, recordCount, processed, records[i..]);
    }
  }

  lemma ReplayBegins(s: Vector, due: seq<MsgId>)
    ensures due[0..] == due && due[..0] == [] && [] + Processed(s, due[0..]) == Processed(s, due)
    ensures After(s, due[..0]) == s
  {
  }

  /** Whether record `i` is due, and what is due after it. */
  lemma NextDue(node: NodeId, recordCount: Word, records: seq<Msg>, i: nat, due: seq<MsgId>, k: nat) returns (r: bool)
    requires i < |records| && k <= |due| && due[k..] == DueIds(node, recordCount, records[i..])
    ensures r <==> Arrives(node, recordCount, records[i]) == Due
    ensures r ==> k < |due| && due[k] == records[i].si
    ensures Arrives(node, recordCount, records[i]) in {Low, High, End, Due}
    ensures due[if r then k + 1 else k..] == DueIds(node, RecordCount(node, recordCount, records[i]), records[i + 1..])
  {
    r := Arrives(node, recordCount, records[i]) == Due;
    assert records[i..][1..] == records[i + 1..];
    if r {
      assert due[k] == due[k..][0] && due[k..][1..] == due[k + 1..];
    }
  }

  lemma NextProcessed(s: Vector, t: Vector, due: seq<MsgId>, k: nat, done: seq<MsgId>)
    requires k < |due| && t == After(s, due[..k])
    ensures Joined(t, due[k]) == After(s, due[..k + 1])
    ensures done + Processed(t, due[k..]) ==
      (if Less(t[due[k].node], due[k].key) then done + [due[k]] else done) + Processed(Joined(t, due[k]), due[k + 1..])
  {
    assert due[..k + 1][..k] == due[..k] && due[k..][1..] == due[k + 1..];
  }

  lemma ReplayEnds(s: Vector, due: seq<MsgId>, k: nat, node: NodeId, recordCount: Word, done: seq<MsgId>,
                   rest: seq<Msg>)
    requires k <= |due| && rest == [] && due[k..] == DueIds(node, recordCount, rest)
    ensures due[..k] == due && done + Processed(s, due[k..]) == done
  {
    assert |due[k..]| == 0;
  }
}
