/** Replication between the nodes of a cabal: the protocol built on the message logs of lib/nbmsg.c.
    Every pair of nodes may be linked, links may drop at any time and lose what is under way, and a
    message may reach a node over several links. */
module Replication {
  import opened Messages

  /** A link carries messages from one node to another one. After a connection the receiver asks for what is
      new to its state; the sender then reads its own log from the start. `view` is the program state that
      the sender keeps for the receiver, `pos` the place in the sender's log, `channel` what is under way. */
  datatype Link = Down | Asked(view: Vector) | Up(view: Vector, pos: nat, channel: seq<Msg>)

  datatype System = System(nodes: seq<Node>, links: map<(NodeId, NodeId), Link>)

  type Cabal = s: System | |s.nodes| == NODES witness System(seq(NODES, i => Node([], seq(NODES, j => ZERO), 0)), map[])

  datatype Action =
    | Originate(node: NodeId, text: string, time: Word)
    | Ask(from: NodeId, to: NodeId)
    | Answer(from: NodeId, to: NodeId)
    | Send(from: NodeId, to: NodeId)
    | Deliver(from: NodeId, to: NodeId, time: Word)
    | Drop(from: NodeId, to: NodeId)

  function LinkOf(s: Cabal, from: NodeId, to: NodeId): Link {
    if (from, to) in s.links then s.links[(from, to)] else Down
  }

  function WithLink(s: Cabal, from: NodeId, to: NodeId, l: Link): Cabal {
    s.(links := s.links[(from, to) := l])
  }

  /** The state record: entries of other nodes with time zero are not sent (nbMsgLogStateToRecord). */
  function StateRecord(node: NodeId, state: Vector): Vector {
    seq(NODES, n requires 0 <= n < NODES => if n != node && state[n].time == 0 then ZERO else state[n])
  }

  /** The path check of nbMsgPeerCacheMsgHandler. Its loop over the path looks at the first entry only. */
  predicate VisitedBefore(m: Msg, to: NodeId) {
    to != 0 && (m.si.node == to || (m.path != [] && m.path[0].node == to))
  }

  predicate Enabled(s: Cabal, a: Action) {
    match a
    case Originate(n, _, time) => Less(s.nodes[n].state[n], Key(time, NextCount(s.nodes[n].state[n].count)))
    case Ask(from, to) => from != to && LinkOf(s, from, to).Down?
    case Answer(from, to) => LinkOf(s, from, to).Asked?
    case Send(from, to) => var l := LinkOf(s, from, to); l.Up? && l.pos < |s.nodes[from].log|
    case Deliver(from, to, _) => var l := LinkOf(s, from, to); l.Up? && l.channel != []
    case Drop(_, _) => true
  }

  function Do(s: Cabal, a: Action): Cabal
    requires Enabled(s, a)
  {
    match a
    case Originate(n, text, time) => s.(nodes := s.nodes[n := Produce(n, s.nodes[n], text, time)])
    case Ask(from, to) => WithLink(s, from, to, Asked(StateRecord(to, s.nodes[to].state)))
    case Answer(from, to) => WithLink(s, from, to, Up(LinkOf(s, from, to).view, 0, []))
    case Send(from, to) => WithLink(s, from, to, Sent(s.nodes[from].log, LinkOf(s, from, to), to))
    case Deliver(from, to, time) =>
      var l := LinkOf(s, from, to);
      var r := Receive(to, s.nodes[to], l.channel[0], time);
      WithLink(s.(nodes := s.nodes[to := r]), from, to, l.(channel := l.channel[1..]))
    case Drop(from, to) => WithLink(s, from, to, Down)
  }

  /** The sender looks at its next message: it is sent if it is new to the view, and has not been at the receiver. */
  function Sent(log: seq<Msg>, l: Link, to: NodeId): Link
    requires l.Up? && l.pos < |log|
  {
    var m := log[l.pos];
    Up(Joined(l.view, m.si), l.pos + 1,
       if Less(l.view[m.si.node], m.si.key) && !VisitedBefore(m, to) then l.channel + [m] else l.channel)
  }

  predicate Initial(s: Cabal) {
    s.links == map[] && forall n: NodeId :: s.nodes[n] == Node([], seq(NODES, i => ZERO), 0)
  }

  /** The actions can be done one after the other. */
  predicate Runs(s: Cabal, run: seq<Action>)
    decreases |run|
  {
    run == [] || (Enabled(s, run[0]) && Runs(Do(s, run[0]), run[1..]))
  }

  function End(s: Cabal, run: seq<Action>): Cabal
    requires Runs(s, run)
    decreases |run|
  {
    if run == [] then s else End(Do(s, run[0]), run[1..])
  }

  // -------------------------------------------------------------------------------------------
  // What a log holds of an origin
  // -------------------------------------------------------------------------------------------

  datatype Body = Body(key: Key, text: string)

  function BodyOf(m: Msg): Body {
    Body(m.si.key, m.text)
  }

  /** The messages of origin `o`, in order. */
  function Of(log: seq<Msg>, o: NodeId): seq<Body> {
    if log == [] then []
    else Of(log[..|log| - 1], o) + if log[|log| - 1].si.node == o then [BodyOf(log[|log| - 1])] else []
  }

  /** Everything node `o` has produced. */
  function Produced(s: Cabal, o: NodeId): seq<Body> {
    Of(s.nodes[o].log, o)
  }

  predicate Has(s: Cabal, n: NodeId, m: Msg) {
    BodyOf(m) in Of(s.nodes[n].log, m.si.node)
  }

  /** Strictly increasing: no repeats, in the order of production. */
  predicate Increasing(p: seq<Body>) {
    && (forall i :: 0 <= i < |p| ==> Less(ZERO, p[i].key))
    && (forall i, j :: 0 <= i < j < |p| ==> Less(p[i].key, p[j].key))
  }

  function KeyAt(p: seq<Body>, n: nat): Key
    requires n <= |p|
  {
    if n == 0 then ZERO else p[n - 1].key
  }

  // -------------------------------------------------------------------------------------------
  // The invariant
  // -------------------------------------------------------------------------------------------

  /** A node holds a prefix of what each origin has produced, and its state is the last of it. */
  ghost predicate NodeOk(s: Cabal, n: NodeId, o: NodeId) {
    var held, all := Of(s.nodes[n].log, o), Produced(s, o);
    held <= all && Increasing(all) && s.nodes[n].state[o] == KeyAt(held, |held|)
  }

  /** Records in the log of a node carry its number, and a replica is also where it came from. */
  ghost predicate RecordOk(s: Cabal, n: NodeId, m: Msg) {
    m.kind == Message && m.pi.node == n && (m.path != [] ==> Has(s, m.path[0].node, m))
  }

  /** What is not newer than the view is with the receiver, or has been looked at. */
  ghost predicate ViewOk(s: Cabal, view: Vector, looked: seq<Msg>, to: NodeId, o: NodeId) {
    && !Less(s.nodes[o].state[o], view[o])
    && forall b :: b in Produced(s, o) && !Less(view[o], b.key) ==> b in Of(s.nodes[to].log, o) || b in Of(looked, o)
  }

  /** Message `k` under way is from the sender, and everything its origin produced before it
      is with the receiver or ahead of it. */
  ghost predicate InOrder(s: Cabal, from: NodeId, to: NodeId, channel: seq<Msg>, k: nat)
    requires k < |channel|
  {
    var m := channel[k];
    && RecordOk(s, from, m) && Has(s, from, m)
    && forall b :: b in Produced(s, m.si.node) && Less(b.key, m.si.key) ==>
      b in Of(s.nodes[to].log, m.si.node) || b in Of(channel[..k], m.si.node)
  }

  /** What the sender has looked at is with the receiver or under way. */
  ghost predicate NothingLost(s: Cabal, from: NodeId, to: NodeId, l: Link)
    requires l.Up?
  {
    && l.pos <= |s.nodes[from].log|
    && forall i :: 0 <= i < l.pos ==>
      var m := s.nodes[from].log[i];
      Has(s, to, m) || BodyOf(m) in Of(l.channel, m.si.node)
  }

  ghost predicate LinkOk(s: Cabal, from: NodeId, to: NodeId) {
    var l := LinkOf(s, from, to);
    match l
    case Down => true
    case Asked(view) => from != to && forall o: NodeId :: ViewOk(s, view, [], to, o)
    case Up(view, pos, channel) =>
      && from != to && NothingLost(s, from, to, l)
      && (forall o: NodeId :: ViewOk(s, view, s.nodes[from].log[..pos], to, o))
      && (forall k :: 0 <= k < |channel| ==> InOrder(s, from, to, channel, k))
  }

  ghost predicate Good(s: Cabal) {
    && (forall n: NodeId, o: NodeId :: NodeOk(s, n, o))
    && (forall n: NodeId, i :: 0 <= i < |s.nodes[n].log| ==> RecordOk(s, n, s.nodes[n].log[i]))
    && (forall from: NodeId, to: NodeId :: LinkOk(s, from, to))
  }

  // -------------------------------------------------------------------------------------------
  // Lists of messages
  // -------------------------------------------------------------------------------------------

  lemma OfSnoc(log: seq<Msg>, m: Msg, o: NodeId)
    ensures Of(log + [m], o) == Of(log, o) + if m.si.node == o then [BodyOf(m)] else []
  {
    assert (log + [m])[..|log|] == log;
  }

  /** What a longer log holds starts with what a shorter one holds; and each message is where it should be. */
  lemma {:induction false} OfPrefix(log: seq<Msg>, i: nat, o: NodeId)
    requires i <= |log|
    ensures Of(log[..i], o) <= Of(log, o)
    ensures i < |log| && log[i].si.node == o ==>
      |Of(log[..i], o)| < |Of(log, o)| && Of(log, o)[|Of(log[..i], o)|] == BodyOf(log[i])
    decreases |log|
  {
    if i < |log| {
      var init := log[..|log| - 1];
      assert init[..i] == log[..i];
      OfPrefix(init, i, o);
    } else {
      assert log[..i] == log;
    }
  }

  lemma OfTail(channel: seq<Msg>, k: nat, o: NodeId, b: Body)
    requires k <= |channel| && channel != []
    requires k > 0
    ensures b in Of(channel[..k], o) <==>
      b in Of(channel[1..][..k - 1], o) || (channel[0].si.node == o && b == BodyOf(channel[0]))
    decreases k
  {
    if k == 1 {
      assert channel[..1][..0] == [] && channel[1..][..0] == [];
      assert channel[..1] == [channel[0]];
    } else {
      OfTail(channel, k - 1, o, b);
      assert channel[..k][..k - 1] == channel[..k - 1];
      assert channel[1..][..k - 1][..k - 2] == channel[1..][..k - 2];
      assert channel[1..][k - 2] == channel[k - 1];
    }
  }

  lemma Orders(a: Key, b: Key, c: Key)
    ensures Less(a, b) ==> !Less(b, a)
    ensures !Less(a, b) && !Less(b, a) <==> a == b
    ensures Less(a, b) && !Less(c, b) ==> Less(a, c)
    ensures !Less(b, a) && Less(b, c) ==> Less(a, c)
  {
  }

  lemma AtIndex(p: seq<Body>, n: nat, i: nat)
    requires Increasing(p) && n <= |p|
    ensures i < |p| ==> (p[i] in p[..n] <==> i < n)
  {
    if i < n {
      assert p[..n][i] == p[i];
    } else if i < |p| {
      assert forall j :: 0 <= j < n ==> Less(p[j].key, p[i].key);
    }
  }

  /** In an increasing list, what is not greater than the key at `n` is among the first `n`. */
  lemma AmongTheFirst(p: seq<Body>, n: nat, b: Body)
    requires Increasing(p) && n <= |p| && b in p
    ensures !Less(KeyAt(p, n), b.key) <==> b in p[..n]
  {
    var i :| 0 <= i < |p| && p[i] == b;
    if i < n {
      assert b in p[..n];
      assert i < n - 1 ==> Less(p[i].key, p[n - 1].key);
    } else {
      if n > 0 {
        assert Less(p[n - 1].key, p[i].key);
      }
      forall j | 0 <= j < n ensures p[j] != b {
        assert Less(p[j].key, p[i].key);
      }
    }
  }

  // -------------------------------------------------------------------------------------------
  // Growth
  // -------------------------------------------------------------------------------------------

  /** Logs only grow, and what is produced is newer than what was. */
  ghost predicate Grows(s: Cabal, t: Cabal) {
    forall n: NodeId, o: NodeId :: GrowsAt(s, t, n, o)
  }

  ghost predicate GrowsAt(s: Cabal, t: Cabal, n: NodeId, o: NodeId) {
    && s.nodes[n].log <= t.nodes[n].log
    && Of(s.nodes[n].log, o) <= Of(t.nodes[n].log, o)
    && !Less(t.nodes[o].state[o], s.nodes[o].state[o])
    && forall b :: b in Produced(t, o) ==> b in Produced(s, o) || Less(s.nodes[o].state[o], b.key)
  }

  lemma HasGrows(s: Cabal, t: Cabal, n: NodeId, m: Msg)
    requires Grows(s, t) && Has(s, n, m)
    ensures Has(t, n, m)
  {
    assert GrowsAt(s, t, n, m.si.node);
  }

  lemma RecordGrows(s: Cabal, t: Cabal, n: NodeId, m: Msg)
    requires Grows(s, t) && RecordOk(s, n, m)
    ensures RecordOk(t, n, m)
  {
    if m.path != [] {
      HasGrows(s, t, m.path[0].node, m);
    }
  }

  lemma ViewGrows(s: Cabal, t: Cabal, view: Vector, looked: seq<Msg>, to: NodeId, o: NodeId)
    requires Grows(s, t) && ViewOk(s, view, looked, to, o)
    ensures ViewOk(t, view, looked, to, o)
  {
    assert GrowsAt(s, t, to, o);
    Orders(view[o], s.nodes[o].state[o], t.nodes[o].state[o]);
    Orders(t.nodes[o].state[o], view[o], s.nodes[o].state[o]);
    forall b | b in Produced(t, o) && !Less(view[o], b.key)
      ensures b in Of(t.nodes[to].log, o) || b in Of(looked, o)
    {
      Orders(view[o], s.nodes[o].state[o], b.key);
    }
  }

  /** Nothing that a node holds is newer than what its origin has produced. */
  lemma HeldIsOld(s: Cabal, n: NodeId, m: Msg)
    requires NodeOk(s, n, m.si.node) && NodeOk(s, m.si.node, m.si.node) && Has(s, n, m)
    ensures !Less(s.nodes[m.si.node].state[m.si.node], m.si.key)
    ensures BodyOf(m) in Produced(s, m.si.node)
  {
    var all := Produced(s, m.si.node);
    assert BodyOf(m) in all;
    assert all[..|all|] == all;
    AmongTheFirst(all, |all|, BodyOf(m));
  }

  lemma OrderGrows(s: Cabal, t: Cabal, from: NodeId, to: NodeId, channel: seq<Msg>, k: nat)
    requires Grows(s, t) && k < |channel| && InOrder(s, from, to, channel, k)
    requires NodeOk(s, from, channel[k].si.node) && NodeOk(s, channel[k].si.node, channel[k].si.node)
    ensures InOrder(t, from, to, channel, k)
  {
    var m := channel[k];
    var o := m.si.node;
    RecordGrows(s, t, from, m);
    HasGrows(s, t, from, m);
    HeldIsOld(s, from, m);
    assert GrowsAt(s, t, to, o);
    forall b | b in Produced(t, o) && Less(b.key, m.si.key)
      ensures b in Of(t.nodes[to].log, o) || b in Of(channel[..k], o)
    {
      Orders(s.nodes[o].state[o], b.key, m.si.key);
      Orders(b.key, m.si.key, s.nodes[o].state[o]);
    }
  }

  lemma LossGrows(s: Cabal, t: Cabal, from: NodeId, to: NodeId, l: Link)
    requires Grows(s, t) && l.Up? && NothingLost(s, from, to, l)
    ensures NothingLost(t, from, to, l)
    ensures t.nodes[from].log[..l.pos] == s.nodes[from].log[..l.pos]
  {
    assert GrowsAt(s, t, from, from);
    forall i | 0 <= i < l.pos
      ensures var m := t.nodes[from].log[i]; Has(t, to, m) || BodyOf(m) in Of(l.channel, m.si.node)
    {
      var m := s.nodes[from].log[i];
      assert t.nodes[from].log[i] == m;
      if Has(s, to, m) {
        HasGrows(s, t, to, m);
      }
    }
  }

  /** Growth keeps every link that has not changed itself. */
  lemma LinkGrows(s: Cabal, t: Cabal, from: NodeId, to: NodeId)
    requires Good(s) && Grows(s, t) && LinkOf(t, from, to) == LinkOf(s, from, to)
    ensures LinkOk(t, from, to)
  {
    assert LinkOk(s, from, to);
    match LinkOf(s, from, to)
    case Down =>
    case Asked(view) =>
      forall o: NodeId ensures ViewOk(t, view, [], to, o) {
        ViewGrows(s, t, view, [], to, o);
      }
    case Up(view, pos, channel) =>
      LossGrows(s, t, from, to, LinkOf(s, from, to));
      forall o: NodeId ensures ViewOk(t, view, t.nodes[from].log[..pos], to, o) {
        ViewGrows(s, t, view, s.nodes[from].log[..pos], to, o);
      }
      forall k | 0 <= k < |channel| ensures InOrder(t, from, to, channel, k) {
        OrderGrows(s, t, from, to, channel, k);
      }
  }

  /** One node has a longer log; everything that it holds of others is still a prefix of what they produced. */
  lemma NodesGrow(s: Cabal, t: Cabal, n: NodeId, m: Msg)
    requires Good(s) && Grows(s, t)
    requires t.nodes[n].log == s.nodes[n].log + [m] && RecordOk(t, n, m)
    requires forall k: NodeId :: k != n ==> t.nodes[k] == s.nodes[k]
    requires forall o: NodeId :: NodeOk(t, n, o)
    requires forall o: NodeId :: o != n ==> Produced(t, o) == Produced(s, o)
    ensures forall k: NodeId, o: NodeId :: NodeOk(t, k, o)
    ensures forall k: NodeId, i :: 0 <= i < |t.nodes[k].log| ==> RecordOk(t, k, t.nodes[k].log[i])
  {
    forall k: NodeId, o: NodeId ensures NodeOk(t, k, o) {
      assert NodeOk(s, k, o) && GrowsAt(s, t, k, o) && GrowsAt(s, t, o, o);
      assert NodeOk(t, n, n);
    }
    forall k: NodeId, i | 0 <= i < |t.nodes[k].log| ensures RecordOk(t, k, t.nodes[k].log[i]) {
      if i < |s.nodes[k].log| {
        assert t.nodes[k].log[i] == s.nodes[k].log[i];
        RecordGrows(s, t, k, s.nodes[k].log[i]);
      }
    }
  }

  // -------------------------------------------------------------------------------------------
  // The steps
  // -------------------------------------------------------------------------------------------

  lemma InitialIsGood(s: Cabal)
    requires Initial(s)
    ensures Good(s)
  {
    assert forall n: NodeId, o: NodeId :: Of(s.nodes[n].log, o) == [];
  }

  lemma OriginateIsGood(s: Cabal, n: NodeId, text: string, time: Word)
    requires Good(s) && Enabled(s, Originate(n, text, time))
    ensures Good(Do(s, Originate(n, text, time)))
  {
    var t := Do(s, Originate(n, text, time));
    var was, now := s.nodes[n], t.nodes[n];
    var m := now.log[|was.log|];
    var key := Key(time, NextCount(was.state[n].count));
    assert now.log == was.log + [m] && m.si == MsgId(n, key);
    assert NodeOk(s, n, n);
    forall k: NodeId, o: NodeId ensures GrowsAt(s, t, k, o) {
      OfSnoc(was.log, m, o);
      Orders(was.state[n], key, key);
    }
    forall o: NodeId ensures NodeOk(t, n, o) {
      assert NodeOk(s, n, o);
      OfSnoc(was.log, m, o);
      if o == n {
        StillIncreasing(Produced(s, n), BodyOf(m));
      }
    }
    forall o: NodeId | o != n ensures Produced(t, o) == Produced(s, o) {
    }
    NodesGrow(s, t, n, m);
    forall from: NodeId, to: NodeId ensures LinkOk(t, from, to) {
      LinkGrows(s, t, from, to);
    }
  }

  lemma StillIncreasing(p: seq<Body>, b: Body)
    requires Increasing(p) && Less(KeyAt(p, |p|), b.key)
    ensures Increasing(p + [b]) && KeyAt(p + [b], |p| + 1) == b.key
  {
    forall i | 0 <= i < |p| ensures Less(p[i].key, b.key) {
      Orders(p[i].key, p[|p| - 1].key, b.key);
      assert i < |p| - 1 ==> Less(p[i].key, p[|p| - 1].key);
    }
    if p != [] {
      assert Less(ZERO, p[0].key);
      Orders(ZERO, p[0].key, b.key);
    }
  }

  /** When the nodes stay as they are, only the links that have changed need to be looked at. */
  lemma LinksOnly(s: Cabal, t: Cabal, from: NodeId, to: NodeId)
    requires Good(s) && t.nodes == s.nodes && LinkOk(t, from, to)
    requires forall f: NodeId, g: NodeId :: (f, g) != (from, to) ==> LinkOf(t, f, g) == LinkOf(s, f, g)
    ensures Good(t)
  {
    forall n: NodeId, o: NodeId ensures NodeOk(t, n, o) && GrowsAt(s, t, n, o) {
      assert NodeOk(s, n, o);
    }
    forall n: NodeId, i | 0 <= i < |t.nodes[n].log| ensures RecordOk(t, n, t.nodes[n].log[i]) {
      RecordGrows(s, t, n, s.nodes[n].log[i]);
    }
    forall f: NodeId, g: NodeId ensures LinkOk(t, f, g) {
      if (f, g) != (from, to) {
        LinkGrows(s, t, f, g);
      }
    }
  }

  /** What is not newer than the state of a node is with that node. */
  lemma StateIsHeld(s: Cabal, n: NodeId, o: NodeId, key: Key, b: Body)
    requires NodeOk(s, n, o) && b in Produced(s, o)
    requires key == s.nodes[n].state[o] || key == ZERO
    ensures b in Of(s.nodes[n].log, o) ==> !Less(s.nodes[n].state[o], b.key)
    ensures !Less(key, b.key) ==> b in Of(s.nodes[n].log, o)
  {
    var held, all := Of(s.nodes[n].log, o), Produced(s, o);
    assert held == all[..|held|];
    AmongTheFirst(all, |held|, b);
    AmongTheFirst(all, 0, b);
    assert KeyAt(all, |held|) == KeyAt(held, |held|);
  }

  /** The state of a node is not newer than what the origin has produced. */
  lemma StateIsOld(s: Cabal, n: NodeId, o: NodeId)
    requires NodeOk(s, n, o) && NodeOk(s, o, o)
    ensures !Less(s.nodes[o].state[o], s.nodes[n].state[o]) && !Less(s.nodes[o].state[o], ZERO)
  {
    var held, all := Of(s.nodes[n].log, o), Produced(s, o);
    if held != [] {
      assert held[|held| - 1] == all[|held| - 1];
      assert |held| < |all| ==> Less(all[|held| - 1].key, all[|all| - 1].key);
    }
  }

  lemma AskIsGood(s: Cabal, from: NodeId, to: NodeId)
    requires Good(s) && Enabled(s, Ask(from, to))
    ensures Good(Do(s, Ask(from, to)))
  {
    var t := Do(s, Ask(from, to));
    var view := StateRecord(to, s.nodes[to].state);
    forall o: NodeId ensures ViewOk(t, view, [], to, o) {
      assert view[o] == s.nodes[to].state[o] || view[o] == ZERO;
      assert NodeOk(s, to, o) && NodeOk(s, o, o);
      StateIsOld(s, to, o);
      forall b | b in Produced(t, o) && !Less(view[o], b.key) ensures b in Of(t.nodes[to].log, o) {
        StateIsHeld(s, to, o, view[o], b);
      }
    }
    LinksOnly(s, t, from, to);
  }

  lemma AnswerIsGood(s: Cabal, from: NodeId, to: NodeId)
    requires Good(s) && Enabled(s, Answer(from, to))
    ensures Good(Do(s, Answer(from, to)))
  {
    var t := Do(s, Answer(from, to));
    var view := LinkOf(s, from, to).view;
    assert LinkOk(s, from, to);
    forall o: NodeId ensures ViewOk(t, view, t.nodes[from].log[..0], to, o) {
      assert ViewOk(s, view, [], to, o);
      assert t.nodes[from].log[..0] == [];
    }
    LinksOnly(s, t, from, to);
  }

  lemma DropIsGood(s: Cabal, from: NodeId, to: NodeId)
    requires Good(s)
    ensures Good(Do(s, Drop(from, to)))
  {
    LinksOnly(s, Do(s, Drop(from, to)), from, to);
  }

  /** Looking at the next message keeps the view in order. */
  lemma ViewStep(s: Cabal, from: NodeId, to: NodeId, view: Vector, pos: nat, o: NodeId)
    requires NodeOk(s, from, o) && NodeOk(s, o, o)
    requires pos < |s.nodes[from].log| && ViewOk(s, view, s.nodes[from].log[..pos], to, o)
    ensures ViewOk(s, Joined(view, s.nodes[from].log[pos].si), s.nodes[from].log[..pos + 1], to, o)
  {
    var log := s.nodes[from].log;
    var m, view' := log[pos], Joined(view, log[pos].si);
    assert log[..pos + 1] == log[..pos] + [m];
    OfSnoc(log[..pos], m, o);
    OfPrefix(log, pos, o);
    OfPrefix(log, pos + 1, o);
    if view'[o] != view[o] {
      assert m.si.node == o && view'[o] == m.si.key;
      HeldIsOld(s, from, m);
      var all, n := Produced(s, o), |Of(log[..pos + 1], o)|;
      assert all[n - 1] == BodyOf(m);
      forall b | b in all && !Less(view'[o], b.key) ensures b in Of(log[..pos + 1], o) {
        AmongTheFirst(all, n, b);
        assert all[..n] == Of(log[..pos + 1], o);
      }
    }
  }

  /** A message that is skipped is with the receiver: it has come from there, or is not new to the view. */
  lemma SkippedIsHeld(s: Cabal, from: NodeId, to: NodeId, view: Vector, pos: nat)
    requires Good(s) && pos < |s.nodes[from].log|
    requires ViewOk(s, view, s.nodes[from].log[..pos], to, s.nodes[from].log[pos].si.node)
    requires !Less(view[s.nodes[from].log[pos].si.node], s.nodes[from].log[pos].si.key)
      || VisitedBefore(s.nodes[from].log[pos], to)
    ensures Has(s, to, s.nodes[from].log[pos])
  {
    var log := s.nodes[from].log;
    var m := log[pos];
    var o := m.si.node;
    assert NodeOk(s, from, o) && NodeOk(s, o, o) && RecordOk(s, from, m);
    OfPrefix(log, pos, o);
    var held, looked, all := Of(log, o), Of(log[..pos], o), Produced(s, o);
    assert held[|looked|] == BodyOf(m) && looked == all[..|looked|];
    AtIndex(all, |looked|, |looked|);
    HeldIsOld(s, from, m);
  }

  /** A message that is sent comes in order: its origin's earlier messages have been looked at. */
  lemma SentInOrder(s: Cabal, from: NodeId, to: NodeId, l: Link)
    requires Good(s) && l.Up? && l.pos < |s.nodes[from].log| && NothingLost(s, from, to, l)
    ensures InOrder(s, from, to, l.channel + [s.nodes[from].log[l.pos]], |l.channel|)
  {
    var log := s.nodes[from].log;
    var m := log[l.pos];
    var o, channel := m.si.node, l.channel + [m];
    assert NodeOk(s, from, o) && NodeOk(s, o, o) && RecordOk(s, from, m);
    OfPrefix(log, l.pos, o);
    var n, all := |Of(log[..l.pos], o)|, Produced(s, o);
    assert Of(log, o)[n] == BodyOf(m);
    assert channel[..|l.channel|] == l.channel;
    forall b | b in all && Less(b.key, m.si.key)
      ensures b in Of(s.nodes[to].log, o) || b in Of(l.channel, o)
    {
      var i :| 0 <= i < |all| && all[i] == b;
      assert all[n] == BodyOf(m);
      assert i < n by {
        assert i > n ==> Less(all[n].key, all[i].key);
      }
      assert Of(log[..l.pos], o)[i] == b;
      var k := InLog(log[..l.pos], o, b);
      assert log[k] == log[..l.pos][k];
    }
  }

  lemma {:induction false} InLog(log: seq<Msg>, o: NodeId, b: Body) returns (k: nat)
    requires b in Of(log, o)
    ensures k < |log| && log[k].si.node == o && BodyOf(log[k]) == b
  {
    var n := |log| - 1;
    if log[n].si.node == o && BodyOf(log[n]) == b {
      k := n;
    } else {
      k := InLog(log[..n], o, b);
    }
  }

  lemma SendKeepsView(s: Cabal, from: NodeId, to: NodeId, l: Link, view: Vector, looked: seq<Msg>)
    requires Good(s) && l == LinkOf(s, from, to) && l.Up? && l.pos < |s.nodes[from].log|
    requires view == Sent(s.nodes[from].log, l, to).view && looked == s.nodes[from].log[..l.pos + 1]
    ensures forall o: NodeId :: ViewOk(s, view, looked, to, o)
  {
    hide ViewOk, NodeOk, InOrder, NothingLost, RecordOk;
    assert LinkOk(s, from, to);
    forall o: NodeId ensures ViewOk(s, view, looked, to, o) {
      assert NodeOk(s, from, o) && NodeOk(s, o, o);
      ViewStep(s, from, to, l.view, l.pos, o);
    }
  }

  lemma SendLosesNothing(s: Cabal, from: NodeId, to: NodeId, l: Link)
    requires Good(s) && l == LinkOf(s, from, to) && l.Up? && l.pos < |s.nodes[from].log|
    ensures NothingLost(s, from, to, Sent(s.nodes[from].log, l, to))
  {
    var log := s.nodes[from].log;
    var m, l' := log[l.pos], Sent(log, l, to);
    assert LinkOk(s, from, to);
    if l'.channel == l.channel {
      SkippedIsHeld(s, from, to, l.view, l.pos);
    }
    hide Good, LinkOk, Less, VisitedBefore, Joined, Of;
    forall i | 0 <= i < l'.pos ensures Has(s, to, log[i]) || BodyOf(log[i]) in Of(l'.channel, log[i].si.node) {
      OfSnoc(l.channel, m, log[i].si.node);
      assert i < l.pos ==> Has(s, to, log[i]) || BodyOf(log[i]) in Of(l.channel, log[i].si.node);
    }
  }

  lemma SendKeepsOrder(s: Cabal, from: NodeId, to: NodeId, l: Link)
    requires Good(s) && l == LinkOf(s, from, to) && l.Up? && l.pos < |s.nodes[from].log|
    ensures var channel := Sent(s.nodes[from].log, l, to).channel;
      forall k :: 0 <= k < |channel| ==> InOrder(s, from, to, channel, k)
  {
    assert LinkOk(s, from, to);
    SentInOrder(s, from, to, l);
    hide Good, LinkOk, Less, VisitedBefore, Joined, Of, NothingLost;
    var channel := Sent(s.nodes[from].log, l, to).channel;
    forall k | 0 <= k < |channel| ensures InOrder(s, from, to, channel, k) {
      if k < |l.channel| {
        assert InOrder(s, from, to, l.channel, k);
        assert channel[..k] == l.channel[..k];
      }
    }
  }

  /** The predicates about views and channels see the nodes only. */
  lemma SameNodes(s: Cabal, t: Cabal, from: NodeId, to: NodeId)
    requires t.nodes == s.nodes && LinkOf(t, from, to).Up? && from != to
    requires var l := LinkOf(t, from, to);
      && NothingLost(s, from, to, l)
      && (forall o: NodeId :: ViewOk(s, l.view, s.nodes[from].log[..l.pos], to, o))
      && (forall k :: 0 <= k < |l.channel| ==> InOrder(s, from, to, l.channel, k))
    ensures LinkOk(t, from, to)
  {
    var l := LinkOf(t, from, to);
    forall o: NodeId ensures ViewOk(t, l.view, t.nodes[from].log[..l.pos], to, o) {
      assert ViewOk(s, l.view, s.nodes[from].log[..l.pos], to, o);
    }
    forall k | 0 <= k < |l.channel| ensures InOrder(t, from, to, l.channel, k) {
      assert InOrder(s, from, to, l.channel, k);
    }
  }

  lemma SendIsGood(s: Cabal, from: NodeId, to: NodeId)
    requires Good(s) && Enabled(s, Send(from, to))
    ensures Good(Do(s, Send(from, to)))
  {
    hide ViewOk, NodeOk, InOrder, NothingLost, RecordOk, VisitedBefore;
    var t, l := Do(s, Send(from, to)), LinkOf(s, from, to);
    assert LinkOk(s, from, to);
    SendKeepsView(s, from, to, l, LinkOf(t, from, to).view, s.nodes[from].log[..l.pos + 1]);
    SendLosesNothing(s, from, to, l);
    SendKeepsOrder(s, from, to, l);
    SameNodes(s, t, from, to);
    LinksOnly(s, t, from, to);
  }

  /** A message that comes in order and is new is exactly the next one of its origin. */
  lemma NextOfOrigin(s: Cabal, to: NodeId, m: Msg)
    requires NodeOk(s, to, m.si.node) && BodyOf(m) in Produced(s, m.si.node)
    requires Less(s.nodes[to].state[m.si.node], m.si.key)
    requires forall b :: b in Produced(s, m.si.node) && Less(b.key, m.si.key) ==> b in Of(s.nodes[to].log, m.si.node)
    ensures to != m.si.node
    ensures var held := Of(s.nodes[to].log, m.si.node); held + [BodyOf(m)] <= Produced(s, m.si.node)
  {
    var held, all, b := Of(s.nodes[to].log, m.si.node), Produced(s, m.si.node), BodyOf(m);
    var n := |held|;
    assert held == all[..n] && KeyAt(all, n) == KeyAt(held, n);
    AmongTheFirst(all, n, b);
    var j :| 0 <= j < |all| && all[j] == b;
    AtIndex(all, n, j);
    AtIndex(all, n, n);
    assert forall i :: 0 <= i < j ==> Less(all[i].key, all[j].key);
  }

  lemma ReceiveIsGood(s: Cabal, t: Cabal, from: NodeId, to: NodeId, m: Msg, time: Word)
    requires Good(s) && RecordOk(s, from, m) && Has(s, from, m) && from != to
    requires forall b :: b in Produced(s, m.si.node) && Less(b.key, m.si.key) ==> b in Of(s.nodes[to].log, m.si.node)
    requires t == s.(nodes := s.nodes[to := Receive(to, s.nodes[to], m, time)])
    ensures Good(t) && Has(t, to, m) && forall o: NodeId :: Produced(t, o) == Produced(s, o)
  {
    var o, was := m.si.node, s.nodes[to];
    assert NodeOk(s, to, o) && NodeOk(s, from, o) && NodeOk(s, o, o);
    HeldIsOld(s, from, m);
    if Less(was.state[o], m.si.key) {
      var r := Replica(to, m, time, was.recordCount);
      NextOfOrigin(s, to, m);
      assert t.nodes[to].log == was.log + [r];
      ReplicaGrows(s, t, to, r);
      RecordGrows(s, t, from, m);
      HasGrows(s, t, from, m);
      ReplicaIsOk(s, t, to, m, r);
      OfSnoc(was.log, r, o);
      NodesGrow(s, t, to, r);
      forall f: NodeId, g: NodeId ensures LinkOk(t, f, g) {
        LinkGrows(s, t, f, g);
      }
    } else {
      StateIsHeld(s, to, o, was.state[o], BodyOf(m));
      assert t.nodes == s.nodes;
      LinksOnly(s, t, from, to);
    }
  }

  lemma ReplicaGrows(s: Cabal, t: Cabal, to: NodeId, r: Msg)
    requires Good(s) && to != r.si.node
    requires t.nodes[to].log == s.nodes[to].log + [r] && t.nodes[to].state == s.nodes[to].state[r.si.node := r.si.key]
    requires forall k: NodeId :: k != to ==> t.nodes[k] == s.nodes[k]
    ensures Grows(s, t)
    ensures forall o: NodeId :: Produced(t, o) == Produced(s, o)
  {
    forall o: NodeId ensures Produced(t, o) == Produced(s, o) {
      OfSnoc(s.nodes[to].log, r, o);
    }
    forall k: NodeId, o: NodeId ensures GrowsAt(s, t, k, o) {
      OfSnoc(s.nodes[to].log, r, o);
      assert t.nodes[o].state[o] == s.nodes[o].state[o];
    }
  }

  lemma ReplicaIsOk(s: Cabal, t: Cabal, to: NodeId, m: Msg, r: Msg)
    requires Good(s) && to != m.si.node && r.si == m.si && r.text == m.text
    requires Of(s.nodes[to].log, m.si.node) + [BodyOf(m)] <= Produced(s, m.si.node)
    requires t.nodes[to].log == s.nodes[to].log + [r] && t.nodes[to].state == s.nodes[to].state[r.si.node := r.si.key]
    requires forall o: NodeId :: Produced(t, o) == Produced(s, o)
    ensures forall o: NodeId :: NodeOk(t, to, o)
  {
    forall o: NodeId ensures NodeOk(t, to, o) {
      assert NodeOk(s, to, o) && NodeOk(s, o, o);
      OfSnoc(s.nodes[to].log, r, o);
    }
  }

  /** A message that has arrived is no longer needed in the channel. */
  lemma ChannelTail(s: Cabal, t: Cabal, from: NodeId, to: NodeId)
    requires LinkOk(s, from, to) && LinkOf(s, from, to).Up? && LinkOf(s, from, to).channel != []
    requires Has(s, to, LinkOf(s, from, to).channel[0]) && t.nodes == s.nodes
    requires LinkOf(t, from, to) == LinkOf(s, from, to).(channel := LinkOf(s, from, to).channel[1..])
    ensures LinkOk(t, from, to)
  {
    var l, rest, log := LinkOf(s, from, to), LinkOf(s, from, to).channel[1..], s.nodes[from].log;
    forall i | 0 <= i < l.pos ensures Has(s, to, log[i]) || BodyOf(log[i]) in Of(rest, log[i].si.node) {
      OfTail(l.channel, |l.channel|, log[i].si.node, BodyOf(log[i]));
      assert l.channel[..|l.channel|] == l.channel && rest[..|rest|] == rest;
    }
    forall k | 0 <= k < |rest| ensures InOrder(s, from, to, rest, k) {
      var m := rest[k];
      assert m == l.channel[k + 1] && InOrder(s, from, to, l.channel, k + 1);
      forall b | b in Produced(s, m.si.node) && Less(b.key, m.si.key)
        ensures b in Of(s.nodes[to].log, m.si.node) || b in Of(rest[..k], m.si.node)
      {
        OfTail(l.channel, k + 1, m.si.node, b);
      }
    }
    SameNodes(s, t, from, to);
  }

  lemma DeliverIsGood(s: Cabal, from: NodeId, to: NodeId, time: Word)
    requires Good(s) && Enabled(s, Deliver(from, to, time))
    ensures Good(Do(s, Deliver(from, to, time)))
    ensures forall o: NodeId :: Produced(Do(s, Deliver(from, to, time)), o) == Produced(s, o)
  {
    var l := LinkOf(s, from, to);
    var m := l.channel[0];
    var t := s.(nodes := s.nodes[to := Receive(to, s.nodes[to], m, time)]);
    assert LinkOk(s, from, to) && InOrder(s, from, to, l.channel, 0);
    assert l.channel[..0] == [];
    ReceiveIsGood(s, t, from, to, m, time);
    assert LinkOf(t, from, to) == l && LinkOk(t, from, to);
    var u := Do(s, Deliver(from, to, time));
    hide Good, LinkOk;
    ChannelTail(t, u, from, to);
    LinksOnly(t, u, from, to);
  }

  // -------------------------------------------------------------------------------------------
  // Whole runs
  // -------------------------------------------------------------------------------------------

  lemma StepIsGood(s: Cabal, a: Action)
    requires Good(s) && Enabled(s, a)
    ensures Good(Do(s, a))
  {
    hide Good, Do, Enabled;
    match a
    case Originate(n, text, time) => OriginateIsGood(s, n, text, time);
    case Ask(from, to) => AskIsGood(s, from, to);
    case Answer(from, to) => AnswerIsGood(s, from, to);
    case Send(from, to) => SendIsGood(s, from, to);
    case Deliver(from, to, time) => DeliverIsGood(s, from, to, time);
    case Drop(from, to) => DropIsGood(s, from, to);
  }

  lemma {:induction false} RunIsGood(s: Cabal, run: seq<Action>)
    requires Good(s) && Runs(s, run)
    ensures Good(End(s, run))
    decreases |run|
  {
    if run == [] {
    } else {
      StepIsGood(s, run[0]);
      RunIsGood(Do(s, run[0]), run[1..]);
    }
  }

  /** In every reachable state, what a node holds of an origin is a prefix of what the origin has produced:
      in order, without gaps and without repeats, whatever links it has come over. */
  lemma EveryNodeHoldsAPrefix(s: Cabal, run: seq<Action>, n: NodeId, o: NodeId)
    requires Initial(s) && Runs(s, run)
    ensures var e := End(s, run);
      && Of(e.nodes[n].log, o) <= Produced(e, o)
      && Increasing(Of(e.nodes[n].log, o))
  {
    InitialIsGood(s);
    RunIsGood(s, run);
    assert NodeOk(End(s, run), n, o);
  }

  function Texts(p: seq<Body>): seq<string> {
    seq(|p|, i requires 0 <= i < |p| => p[i].text)
  }

  /** What node `o` is told to write in a run. */
  function Originated(run: seq<Action>, o: NodeId): seq<string> {
    if run == [] then []
    else (if run[0].Originate? && run[0].node == o then [run[0].text] else []) + Originated(run[1..], o)
  }

  lemma TextsSnoc(p: seq<Body>, b: Body)
    ensures Texts(p + [b]) == Texts(p) + [b.text]
  {
  }

  /** Only writing makes a node produce something, and then the text that is written. */
  lemma StepProduces(s: Cabal, a: Action, o: NodeId)
    requires Good(s) && Enabled(s, a)
    ensures Texts(Produced(Do(s, a), o)) ==
      Texts(Produced(s, o)) + if a.Originate? && a.node == o then [a.text] else []
  {
    hide Good, Texts;
    match a
    case Originate(n, text, time) =>
      var was, now := s.nodes[n].log, Do(s, a).nodes[n].log;
      assert now == was + [now[|was|]] && now[|was|].si.node == n;
      OfSnoc(was, now[|was|], o);
      TextsSnoc(Produced(s, o), BodyOf(now[|was|]));
      assert o != n ==> Produced(Do(s, a), o) == Produced(s, o);
    case Deliver(from, to, time) => DeliverIsGood(s, from, to, time);
    case _ =>
  }

  lemma {:induction false} RunProduces(s: Cabal, run: seq<Action>, o: NodeId)
    requires Good(s) && Runs(s, run)
    ensures Texts(Produced(End(s, run), o)) == Texts(Produced(s, o)) + Originated(run, o)
    decreases |run|
  {
    hide Good, Enabled, Do, Texts, Produced;
    if run == [] {
    } else {
      var t := Do(s, run[0]);
      StepIsGood(s, run[0]);
      StepProduces(s, run[0], o);
      RunProduces(t, run[1..], o);
      assert End(s, run) == End(t, run[1..]);
      var x := if run[0].Originate? && run[0].node == o then [run[0].text] else [];
      assert Originated(run, o) == x + Originated(run[1..], o);
    }
  }

  /** In every reachable state, an origin has produced the texts that it was told to write, in order, and each node
      holds a beginning of them. */
  lemma TextsAreWhatWasWritten(s: Cabal, run: seq<Action>, n: NodeId, o: NodeId)
    requires Initial(s) && Runs(s, run)
    ensures Texts(Produced(End(s, run), o)) == Originated(run, o)
    ensures Texts(Of(End(s, run).nodes[n].log, o)) <= Originated(run, o)
  {
    InitialIsGood(s);
    RunProduces(s, run, o);
    EveryNodeHoldsAPrefix(s, run, n, o);
    assert Texts(Produced(s, o)) == [];
    var held, all := Of(End(s, run).nodes[n].log, o), Produced(End(s, run), o);
    hide *;
    assert held == all[..|held|];
    TextsOfPrefix(held, all);
  }

  lemma TextsOfPrefix(a: seq<Body>, b: seq<Body>)
    requires a <= b
    ensures Texts(a) <= Texts(b)
  {
  }

  lemma IdleHasDelivered(e: Cabal, from: NodeId, to: NodeId, o: NodeId)
    requires Good(e)
    requires var l := LinkOf(e, from, to); l.Up? && l.pos == |e.nodes[from].log| && l.channel == []
    ensures Of(e.nodes[from].log, o) <= Of(e.nodes[to].log, o)
  {
    assert NodeOk(e, from, o) && NodeOk(e, to, o) && LinkOk(e, from, to);
    var a, b, all := Of(e.nodes[from].log, o), Of(e.nodes[to].log, o), Produced(e, o);
    assert b == all[..|b|];
    if a != [] {
      var last := a[|a| - 1];
      var k := InLog(e.nodes[from].log, o, last);
      assert Has(e, to, e.nodes[from].log[k]);
      AtIndex(all, |b|, |a| - 1);
      assert last == all[|a| - 1];
    }
  }

  /** When a link has nothing more to do, the receiver has everything the sender has. */
  lemma IdleLinksHaveDelivered(s: Cabal, run: seq<Action>, from: NodeId, to: NodeId, o: NodeId)
    requires Initial(s) && Runs(s, run)
    requires var e := End(s, run);
      var l := LinkOf(e, from, to);
      l.Up? && l.pos == |e.nodes[from].log| && l.channel == []
    ensures var e := End(s, run); Of(e.nodes[from].log, o) <= Of(e.nodes[to].log, o)
  {
    InitialIsGood(s);
    RunIsGood(s, run);
    IdleHasDelivered(End(s, run), from, to, o);
  }

  /** A link that is left alone finishes. */
  lemma {:induction false} LinkFinishes(s: Cabal, from: NodeId, to: NodeId) returns (run: seq<Action>)
    requires Good(s) && LinkOf(s, from, to).Up?
    ensures Runs(s, run) && Good(End(s, run))
    ensures forall i :: 0 <= i < |run| ==> run[i] == Send(from, to) || run[i] == Deliver(from, to, 0)
    ensures var e, l := End(s, run), LinkOf(End(s, run), from, to);
      l.Up? && l.pos == |e.nodes[from].log| && l.channel == [] && e.nodes[from] == s.nodes[from]
    decreases |s.nodes[from].log| - LinkOf(s, from, to).pos,
      if LinkOf(s, from, to).Up? then |LinkOf(s, from, to).channel| else 0
  {
    var l := LinkOf(s, from, to);
    assert LinkOk(s, from, to);
    if l.pos == |s.nodes[from].log| && l.channel == [] {
      run := [];
    } else {
      var a := if l.pos < |s.nodes[from].log| then Send(from, to) else Deliver(from, to, 0);
      StepIsGood(s, a);
      hide Good, LinkOk, Of;
      var rest := LinkFinishes(Do(s, a), from, to);
      run := [a] + rest;
      assert run[1..] == rest;
    }
  }

  /** Whatever has happened, when two nodes connect and the link is left alone, the receiver comes to hold all that the
      sender holds. */
  lemma ConnectingDeliversAll(s: Cabal, before: seq<Action>, from: NodeId, to: NodeId) returns (run: seq<Action>)
    requires Initial(s) && Runs(s, before) && from != to
    ensures Runs(End(s, before), run)
    ensures forall o: NodeId ::
      Of(End(s, before).nodes[from].log, o) <= Of(End(End(s, before), run).nodes[to].log, o)
  {
    InitialIsGood(s);
    RunIsGood(s, before);
    var s0 := End(s, before);
    var s1 := Do(s0, Drop(from, to));
    StepIsGood(s0, Drop(from, to));
    var s2 := Do(s1, Ask(from, to));
    StepIsGood(s1, Ask(from, to));
    var s3 := Do(s2, Answer(from, to));
    StepIsGood(s2, Answer(from, to));
    hide Good, Of, StateRecord;
    var rest := LinkFinishes(s3, from, to);
    run := [Drop(from, to), Ask(from, to), Answer(from, to)] + rest;
    assert run[1..] == [Ask(from, to), Answer(from, to)] + rest && run[1..][1..] == [Answer(from, to)] + rest;
    assert run[1..][1..][1..] == rest;
    ThreeSteps(s0, s1, s2, s3, run);
    forall o: NodeId ensures Of(s0.nodes[from].log, o) <= Of(End(s3, rest).nodes[to].log, o) {
      IdleHasDelivered(End(s3, rest), from, to, o);
    }
  }

  lemma ThreeSteps(s0: Cabal, s1: Cabal, s2: Cabal, s3: Cabal, run: seq<Action>)
    requires |run| >= 3 && Enabled(s0, run[0]) && Do(s0, run[0]) == s1
    requires Enabled(s1, run[1..][0]) && Do(s1, run[1..][0]) == s2
    requires Enabled(s2, run[1..][1..][0]) && Do(s2, run[1..][1..][0]) == s3 && Runs(s3, run[1..][1..][1..])
    ensures Runs(s0, run) && End(s0, run) == End(s3, run[1..][1..][1..])
  {
    hide Enabled, Do;
    assert Runs(s2, run[1..][1..]) && End(s2, run[1..][1..]) == End(s3, run[1..][1..][1..]);
    assert Runs(s1, run[1..]) && End(s1, run[1..]) == End(s2, run[1..][1..]);
  }

  // -------------------------------------------------------------------------------------------
  // Nothing is sent for nothing
  // -------------------------------------------------------------------------------------------

  /** What is under way has not come from the receiver; it was new to the view, and is in the order of each origin,
      without repeats. */
  ghost predicate Tidy(l: Link, to: NodeId) {
    l.Up? ==>
      && (forall k :: 0 <= k < |l.channel| ==>
            var m := l.channel[k];
            && !Less(l.view[m.si.node], m.si.key)
            && (to != 0 ==> m.si.node != to && (m.path != [] ==> m.path[0].node != to)))
      && (forall j, k :: 0 <= j < k < |l.channel| && l.channel[j].si.node == l.channel[k].si.node ==>
            Less(l.channel[j].si.key, l.channel[k].si.key))
  }

  lemma SendIsTidy(log: seq<Msg>, l: Link, to: NodeId)
    requires l.Up? && l.pos < |log| && Tidy(l, to)
    ensures Tidy(Sent(log, l, to), to)
  {
    var m, l' := log[l.pos], Sent(log, l, to);
    forall k | 0 <= k < |l'.channel|
      ensures !Less(l'.view[l'.channel[k].si.node], l'.channel[k].si.key)
      ensures l'.channel[k].si.node == m.si.node && k < |l'.channel| - 1 && l'.channel != l.channel ==>
        Less(l'.channel[k].si.key, m.si.key)
    {
      var x := l'.channel[k];
      Orders(x.si.key, l.view[x.si.node], m.si.key);
    }
  }

  lemma StepIsTidy(s: Cabal, a: Action, from: NodeId, to: NodeId)
    requires Enabled(s, a) && Tidy(LinkOf(s, from, to), to)
    ensures Tidy(LinkOf(Do(s, a), from, to), to)
  {
    match a
    case Send(f, t) =>
      if f == from && t == to {
        SendIsTidy(s.nodes[f].log, LinkOf(s, f, t), t);
      }
    case _ =>
  }

  lemma {:induction false} RunIsTidy(s: Cabal, run: seq<Action>, from: NodeId, to: NodeId)
    requires Runs(s, run) && Tidy(LinkOf(s, from, to), to)
    ensures Tidy(LinkOf(End(s, run), from, to), to)
    decreases |run|
  {
    hide Tidy, Enabled, Do;
    if run == [] {
    } else {
      StepIsTidy(s, run[0], from, to);
      RunIsTidy(Do(s, run[0]), run[1..], from, to);
    }
  }

  /** In every reachable state, no message is under way twice on a link, nor back to where it has come from. */
  lemma NothingIsSentForNothing(s: Cabal, run: seq<Action>, from: NodeId, to: NodeId)
    requires Initial(s) && Runs(s, run)
    ensures Tidy(LinkOf(End(s, run), from, to), to)
  {
    RunIsTidy(s, run, from, to);
  }

  /** What a node holds when it asks is not new to the view that the sender gets. */
  lemma HeldIsNotAskedFor(s: Cabal, from: NodeId, to: NodeId, m: Msg)
    requires Good(s) && Enabled(s, Ask(from, to)) && Has(s, to, m) && m.si.key.time > 0
    ensures LinkOf(Do(s, Ask(from, to)), from, to).Asked?
    ensures !Less(LinkOf(Do(s, Ask(from, to)), from, to).view[m.si.node], m.si.key)
  {
    var o := m.si.node;
    assert NodeOk(s, to, o) && NodeOk(s, o, o);
    var held, all := Of(s.nodes[to].log, o), Produced(s, o);
    assert held == all[..|held|] && BodyOf(m) in all;
    AmongTheFirst(all, |held|, BodyOf(m));
    assert KeyAt(all, |held|) == KeyAt(held, |held|);
    hide Good, NodeOk, Has, Of;
  }

  /** The view does not fall behind `view0`, and what is under way is beyond it. */
  ghost predicate Beyond(l: Link, view0: Vector) {
    match l
    case Down => false
    case Asked(view) => forall o: NodeId :: !Less(view[o], view0[o])
    case Up(view, _, channel) =>
      && (forall o: NodeId :: !Less(view[o], view0[o]))
      && (forall k :: 0 <= k < |channel| ==> Less(view0[channel[k].si.node], channel[k].si.key))
  }

  lemma SendIsBeyond(log: seq<Msg>, l: Link, to: NodeId, view0: Vector)
    requires l.Up? && l.pos < |log| && Beyond(l, view0)
    ensures Beyond(Sent(log, l, to), view0)
  {
    var m := log[l.pos];
    Orders(view0[m.si.node], l.view[m.si.node], m.si.key);
  }

  lemma {:induction false} RunStaysBeyond(s: Cabal, run: seq<Action>, from: NodeId, to: NodeId, view0: Vector)
    requires Runs(s, run) && Beyond(LinkOf(s, from, to), view0)
    requires forall i :: 0 <= i < |run| ==> run[i] != Drop(from, to)
    ensures Beyond(LinkOf(End(s, run), from, to), view0)
    decreases |run|
  {
    if run == [] {
    } else {
      StepStaysBeyond(s, run[0], from, to, view0);
      hide Beyond, Enabled, Do;
      RunStaysBeyond(Do(s, run[0]), run[1..], from, to, view0);
    }
  }

  lemma StepStaysBeyond(s: Cabal, a: Action, from: NodeId, to: NodeId, view0: Vector)
    requires Enabled(s, a) && Beyond(LinkOf(s, from, to), view0) && a != Drop(from, to)
    ensures Beyond(LinkOf(Do(s, a), from, to), view0)
  {
    match a
    case Send(f, t) =>
      if f == from && t == to {
        SendIsBeyond(s.nodes[f].log, LinkOf(s, f, t), t, view0);
      }
    case _ =>
  }

  /** Over one connection, nothing is ever sent that the receiver held when it asked. */
  lemma NothingHeldIsSent(s: Cabal, run: seq<Action>, from: NodeId, to: NodeId, k: nat)
    requires Good(s) && Enabled(s, Ask(from, to)) && Runs(Do(s, Ask(from, to)), run)
    requires forall i :: 0 <= i < |run| ==> run[i] != Drop(from, to)
    requires var l := LinkOf(End(Do(s, Ask(from, to)), run), from, to); l.Up? && k < |l.channel|
    ensures var m := LinkOf(End(Do(s, Ask(from, to)), run), from, to).channel[k]; m.si.key.time > 0 ==> !Has(s, to, m)
  {
    var t := Do(s, Ask(from, to));
    var view0 := LinkOf(t, from, to).view;
    RunStaysBeyond(t, run, from, to, view0);
    var m := LinkOf(End(t, run), from, to).channel[k];
    if m.si.key.time > 0 && Has(s, to, m) {
      HeldIsNotAskedFor(s, from, to, m);
      assert false;
    }
  }

  /** What a node takes into its log from a link names the sender first on its path, and is otherwise the message. */
  lemma ReplicaNamesItsSender(s: Cabal, from: NodeId, to: NodeId, time: Word)
    requires Good(s) && Enabled(s, Deliver(from, to, time))
    ensures var m, was, now := LinkOf(s, from, to).channel[0], s.nodes[to].log,
      Do(s, Deliver(from, to, time)).nodes[to].log;
      now == was ||
      (|now| == |was| + 1 && now[..|was|] == was && var r := now[|was|];
        r.path == [m.pi] + m.path && r.path[0].node == from && r.si == m.si && r.text == m.text && r.pi.node == to)
  {
    assert LinkOk(s, from, to) && InOrder(s, from, to, LinkOf(s, from, to).channel, 0);
    hide Good, LinkOk, Has;
  }

  // -------------------------------------------------------------------------------------------
  // Restart
  // -------------------------------------------------------------------------------------------

  lemma StepIsRestorable(s: Cabal, a: Action, n: NodeId)
    requires Good(s) && Enabled(s, a) && Restorable(n, s.nodes[n])
    ensures Restorable(n, Do(s, a).nodes[n])
  {
    hide Restorable;
    match a
    case Originate(k, text, time) =>
      if k == n {
        ProduceIsRestorable(n, s.nodes[n], text, time);
      }
    case Deliver(from, to, time) =>
      assert LinkOk(s, from, to) && InOrder(s, from, to, LinkOf(s, from, to).channel, 0);
      hide Good, LinkOk, Has, Produce, Receive;
      if to == n {
        ReceiveIsRestorable(n, s.nodes[n], LinkOf(s, from, to).channel[0], time);
      }
    case _ =>
  }

  lemma {:induction false} RunIsRestorable(s: Cabal, run: seq<Action>, n: NodeId)
    requires Good(s) && Runs(s, run) && Restorable(n, s.nodes[n])
    ensures Restorable(n, End(s, run).nodes[n])
    decreases |run|
  {
    hide Good, Restorable, Enabled, Do;
    if run == [] {
    } else {
      StepIsGood(s, run[0]);
      StepIsRestorable(s, run[0], n);
      RunIsRestorable(Do(s, run[0]), run[1..], n);
    }
  }

  /** In every reachable state, a node that reads its own log from the start, with nothing known, finds every message in
      it due, and comes to the state that it had. */
  lemma LogRestoresState(s: Cabal, run: seq<Action>, n: NodeId)
    requires Initial(s) && Runs(s, run)
    ensures var node, none := End(s, run).nodes[n], seq(NODES, i => ZERO);
      && DueIds(n, 0, node.log) == Ids(node.log)
      && After(none, DueIds(n, 0, node.log)) == node.state
  {
    InitialIsGood(s);
    assert Restorable(n, s.nodes[n]);
    RunIsRestorable(s, run, n);
    AllIsDue(n, 0, End(s, run).nodes[n].log);
  }
}
