/** Striping on one side, merging on the other: what order survives (internal/transport/tunnel.go). */
module FlowOrder {
  import opened Bytes
  import Ch = Channel
  import opened Aead
  import opened Failover
  import opened Flow
  import opened Frame
  import opened Lists
  import opened Wrappers

  const INBOUND_CAPACITY := 1024

  /** A channel's reader goroutine. */
  datatype Reader = Waiting | Holding(p: Packet) | Exited

  type Tagged = (int, Packet)

  /** One direction of a tunnel: the sender's `order`, the channels, the receiver's readers and queue. A key of
      `channels` names one connection for good: an index attached a second time is another key here, and a Reorder. */
  datatype Link = Link(
    order: seq<int>,
    channels: map<int, Ch.Channel>,
    readers: map<int, Reader>,
    dead: bool,
    inbound: seq<Tagged>,  // every packet pushed into the queue, oldest first, with the channel it came by
    drained: nat,          // how many of them Tunnel.ReadPacket has returned
    log: seq<Tagged>)      // what was written successfully, in the order of the writes

  datatype Event =
    | Write(p: Packet, tries: nat, rnd: Random)   // one try of Tunnel.WritePacket
    | Keepalive(idx: int, rnd: Random)
    | Fail(idx: int)                              // the channel's socket breaks
    | Attach(idx: int, key: Key, pad: PadPolicy)
    | Reorder(order: seq<int>)                    // what failover and detach do to `order`
    | Read(idx: int)
    | Push(idx: int)
    | Quit(idx: int)
    | Die
    | Drain

  /** Conn.WritePacket on channel idx, which leaves the channel as c'. */
  function WriteVia(l: Link, idx: int, p: Packet, c': Ch.Channel): Link
    requires idx in l.channels
  {
    l.(channels := l.channels[idx := c'],
       log := if |c'.written| > |l.channels[idx].written| then l.log + [(idx, p)] else l.log)
  }

  function Step(l: Link, e: Event): Link {
    match e
    case Write(p, tries, rnd) =>
      if l.order == [] then l
      else
        var idx := Pick(l.order, HashOf(FlowKey(p)), tries);
        if idx !in l.channels then l else WriteVia(l, idx, p, Ch.Step(l.channels[idx], Ch.Write(p, rnd)))
    case Keepalive(idx, rnd) =>
      if idx !in l.channels then l
      else l.(channels := l.channels[idx := Ch.Step(l.channels[idx], Ch.Keepalive(rnd))])
    case Fail(idx) =>
      if idx !in l.channels then l
      else l.(channels := l.channels[idx := Ch.Step(l.channels[idx], Ch.Break)])
    case Attach(idx, key, pad) =>
      if idx in l.channels || !PolicyFits(pad) then l
      else l.(channels := l.channels[idx := Ch.Fresh(key, pad)], readers := l.readers[idx := Waiting],
              order := l.order + [idx])
    case Reorder(order) =>
      l.(order := order)
    case Read(idx) =>
      if idx !in l.channels || idx !in l.readers || l.readers[idx] != Waiting then l
      else
        var c := l.channels[idx];
        var c' := Ch.Step(c, Ch.Receive);
        l.(channels := l.channels[idx := c'], readers := l.readers[idx := ReaderAfter(c, c', l.readers[idx])])
    case Push(idx) =>
      if idx in l.readers && l.readers[idx].Holding? && |l.inbound| < l.drained + INBOUND_CAPACITY then
        l.(inbound := l.inbound + [(idx, l.readers[idx].p)], readers := l.readers[idx := Waiting])
      else l
    case Quit(idx) =>
      if idx in l.readers && l.dead then l.(readers := l.readers[idx := Exited]) else l
    case Die =>
      l.(dead := true)
    case Drain =>
      if l.drained >= |l.inbound| then l else l.(drained := l.drained + 1)
  }

  function Run(l: Link, events: seq<Event>): Link
    decreases |events|
  {
    if events == [] then l else Run(Step(l, events[0]), events[1..])
  }

  function Start(): Link {
    Link([], map[], map[], false, [], 0, [])
  }

  /** What Tunnel.ReadPacket has returned. */
  function Out(l: Link): seq<Tagged> {
    if l.drained <= |l.inbound| then l.inbound[..l.drained] else l.inbound
  }

  // ------------------------------------------------------------------ order within a channel

  /** Selects the packets that came by one channel. */
  function Via(idx: int): Tagged -> seq<Packet> {
    (e: Tagged) => if e.0 == idx then [e.1] else []
  }

  function Held(r: Reader): seq<Packet> {
    if r.Holding? then [r.p] else []
  }

  /** The bookkeeping of one channel: what was passed on and what its reader holds account for everything it has
      read. */
  ghost predicate Balanced(c: Ch.Channel, r: Reader, logged: seq<Packet>, passed: seq<Packet>) {
    && Ch.Inv(c)
    && logged == c.written
    && passed + Held(r) <= c.read
    && (!r.Exited? ==> passed + Held(r) == c.read)
  }

  ghost predicate Accounts(l: Link, idx: int) {
    var logged, passed := Gather(Via(idx), l.log), Gather(Via(idx), l.inbound);
    if idx in l.channels && idx in l.readers then Balanced(l.channels[idx], l.readers[idx], logged, passed)
    else logged == [] && passed == []
  }

  ghost predicate Inv(l: Link) {
    l.channels.Keys == l.readers.Keys && forall idx :: Accounts(l, idx)
  }

  lemma ViaSnoc(idx: int, l: seq<Tagged>, e: Tagged)
    ensures Gather(Via(idx), l + [e]) == if e.0 == idx then Gather(Via(idx), l) + [e.1] else Gather(Via(idx), l)
  {
    GatherSnoc(Via(idx), l, e);
    var front := Gather(Via(idx), l);
    assert front + [] == front;
  }

  lemma WriteBalances(c: Ch.Channel, c': Ch.Channel, p: Packet, rnd: Random, r: Reader, logged: seq<Packet>, passed: seq<Packet>)
    requires Balanced(c, r, logged, passed) && c' == Ch.Step(c, Ch.Write(p, rnd))
    ensures Balanced(c', r, if |c'.written| > |c.written| then logged + [p] else logged, passed)
  {
    Ch.StepKeepsInv(c, Ch.Write(p, rnd));
  }

  /** Only channel `at` changes, its account still balances, and the log gains at most one packet of its own. */
  lemma OneChangeKeeps(l: Link, l': Link, at: int, p: Packet)
    requires Inv(l) && at in l.channels && at in l'.channels && at in l'.readers
    requires l'.channels == l.channels[at := l'.channels[at]] && l'.readers == l.readers[at := l'.readers[at]]
    requires l'.log == l.log || l'.log == l.log + [(at, p)]
    requires l'.inbound == l.inbound
    requires Accounts(l', at)
    ensures Inv(l')
  {
    forall idx ensures Accounts(l', idx) {
      assert Accounts(l, idx);
      ViaSnoc(idx, l.log, (at, p));
    }
  }

  lemma WriteViaKeeps(l: Link, at: int, p: Packet, c': Ch.Channel, logged: seq<Packet>)
    requires Inv(l) && at in l.channels && Balanced(c', l.readers[at], logged, Gather(Via(at), l.inbound))
    requires logged == if |c'.written| > |l.channels[at].written| then Gather(Via(at), l.log) + [p] else Gather(Via(at), l.log)
    ensures Inv(WriteVia(l, at, p, c'))
  {
    ViaSnoc(at, l.log, (at, p));
    OneChangeKeeps(l, WriteVia(l, at, p, c'), at, p);
  }

  lemma WriteKeeps(l: Link, at: int, p: Packet, rnd: Random)
    requires Inv(l) && at in l.channels
    ensures Inv(WriteVia(l, at, p, Ch.Step(l.channels[at], Ch.Write(p, rnd))))
  {
    assert Accounts(l, at);
    var c' := Ch.Step(l.channels[at], Ch.Write(p, rnd));
    WriteBalances(l.channels[at], c', p, rnd, l.readers[at], Gather(Via(at), l.log), Gather(Via(at), l.inbound));
    WriteViaKeeps(l, at, p, c', c'.written);
  }

  lemma OneChannelKeeps(l: Link, at: int, e: Ch.Event)
    requires Inv(l) && at in l.channels && !e.Write? && !e.Receive?
    ensures Inv(l.(channels := l.channels[at := Ch.Step(l.channels[at], e)]))
  {
    var l' := l.(channels := l.channels[at := Ch.Step(l.channels[at], e)]);
    assert Accounts(l, at);
    Ch.StepKeepsInv(l.channels[at], e);
    forall idx ensures Accounts(l', idx) {
      assert Accounts(l, idx);
    }
  }

  lemma AttachKeeps(l: Link, at: int, key: Key, pad: PadPolicy)
    requires Inv(l)
    ensures Inv(Step(l, Attach(at, key, pad)))
  {
    var l' := Step(l, Attach(at, key, pad));
    if at !in l.channels && PolicyFits(pad) {
      Ch.RunKeepsInv(key, pad, []);
      forall idx ensures Accounts(l', idx) {
        assert Accounts(l, idx);
      }
    }
  }

  /** The reader after one turn of its loop. */
  function ReaderAfter(c: Ch.Channel, c': Ch.Channel, r: Reader): Reader {
    if |c'.read| > |c.read| then Holding(c'.read[|c.read|]) else if c'.error.Some? then Exited else r
  }

  lemma ReadBalances(c: Ch.Channel, c': Ch.Channel, logged: seq<Packet>, passed: seq<Packet>)
    requires Balanced(c, Waiting, logged, passed) && c' == Ch.Step(c, Ch.Receive)
    ensures Balanced(c', ReaderAfter(c, c', Waiting), logged, passed)
  {
    Ch.StepKeepsInv(c, Ch.Receive);
    assert passed + [] == passed;
  }

  lemma ReadKeeps(l: Link, at: int)
    requires Inv(l)
    ensures Inv(Step(l, Read(at)))
  {
    if at in l.channels && l.readers[at] == Waiting {
      assert Accounts(l, at);
      var c := l.channels[at];
      ReadBalances(c, Ch.Step(c, Ch.Receive), Gather(Via(at), l.log), Gather(Via(at), l.inbound));
      OneChangeKeeps(l, Step(l, Read(at)), at, []);
    }
  }

  lemma PushBalances(c: Ch.Channel, p: Packet, logged: seq<Packet>, passed: seq<Packet>)
    requires Balanced(c, Holding(p), logged, passed)
    ensures Balanced(c, Waiting, logged, passed + [p])
  {
    assert passed + [p] + [] == passed + [p];
  }

  lemma PushKeeps(l: Link, at: int)
    requires Inv(l)
    ensures Inv(Step(l, Push(at)))
  {
    if at in l.readers && l.readers[at].Holding? && |l.inbound| < l.drained + INBOUND_CAPACITY {
      PushAtKeeps(l, at, l.readers[at].p);
    }
  }

  lemma PushAtKeeps(l: Link, at: int, p: Packet)
    requires Inv(l) && at in l.readers && l.readers[at] == Holding(p)
    ensures Inv(l.(inbound := l.inbound + [(at, p)], readers := l.readers[at := Waiting]))
  {
    var l' := l.(inbound := l.inbound + [(at, p)], readers := l.readers[at := Waiting]);
    forall idx ensures Accounts(l', idx) {
      assert Accounts(l, idx);
      PushAccounts(l, l', at, p, idx);
    }
  }

  lemma PushAccounts(l: Link, l': Link, at: int, p: Packet, idx: int)
    requires at in l.channels && at in l.readers && l.readers[at] == Holding(p) && Accounts(l, idx)
    requires l' == l.(inbound := l.inbound + [(at, p)], readers := l.readers[at := Waiting])
    ensures Accounts(l', idx)
  {
    ViaSnoc(idx, l.inbound, (at, p));
    if idx == at {
      PushBalances(l.channels[at], p, Gather(Via(at), l.log), Gather(Via(at), l.inbound));
    }
  }

  lemma ExitBalances(c: Ch.Channel, r: Reader, logged: seq<Packet>, passed: seq<Packet>)
    requires Balanced(c, r, logged, passed)
    ensures Balanced(c, Exited, logged, passed)
  {
    assert passed + [] == passed;
  }

  lemma QuitKeeps(l: Link, at: int)
    requires Inv(l)
    ensures Inv(Step(l, Quit(at)))
  {
    if at in l.readers && l.dead {
      var l' := Step(l, Quit(at));
      assert Accounts(l, at);
      ExitBalances(l.channels[at], l.readers[at], Gather(Via(at), l.log), Gather(Via(at), l.inbound));
      forall idx ensures Accounts(l', idx) {
        assert Accounts(l, idx);
      }
    }
  }

  /** Returning a packet, or changing `order` or `dead`, disturbs no account. */
  lemma RestKeeps(l: Link, l': Link)
    requires Inv(l) && l'.channels == l.channels && l'.readers == l.readers && l'.log == l.log
    requires l'.inbound == l.inbound
    ensures Inv(l')
  {
    forall idx ensures Accounts(l', idx) {
      assert Accounts(l, idx);
    }
  }

  lemma StepKeepsInv(l: Link, e: Event)
    requires Inv(l)
    ensures Inv(Step(l, e))
  {
    match e
    case Write(p, tries, rnd) =>
      if l.order != [] && Pick(l.order, HashOf(FlowKey(p)), tries) in l.channels {
        WriteKeeps(l, Pick(l.order, HashOf(FlowKey(p)), tries), p, rnd);
      }
    case Keepalive(idx, rnd) => if idx in l.channels { OneChannelKeeps(l, idx, Ch.Keepalive(rnd)); }
    case Fail(idx) => if idx in l.channels { OneChannelKeeps(l, idx, Ch.Break); }
    case Attach(idx, key, pad) => AttachKeeps(l, idx, key, pad);
    case Reorder(order) => RestKeeps(l, Step(l, e));
    case Read(idx) => ReadKeeps(l, idx);
    case Push(idx) => PushKeeps(l, idx);
    case Quit(idx) => QuitKeeps(l, idx);
    case Die => RestKeeps(l, Step(l, e));
    case Drain => RestKeeps(l, Step(l, e));
  }

  lemma {:induction false} RunKeepsInv(l: Link, events: seq<Event>)
    requires Inv(l)
    ensures Inv(Run(l, events))
    decreases |events|
  {
    if events != [] {
      StepKeepsInv(l, events[0]);
      RunKeepsInv(Step(l, events[0]), events[1..]);
    }
  }

  lemma OutBeforeLog(l: Link, idx: int)
    requires Inv(l)
    ensures Gather(Via(idx), Out(l)) <= Gather(Via(idx), l.log)
  {
    GatherPrefix(Via(idx), Out(l), l.inbound);
    assert Accounts(l, idx);
    if idx in l.channels {
      Ch.InvIsSafe(l.channels[idx]);
    }
  }

  /** In every run, with any failover: what comes out by a channel is a prefix of what was written to that channel
      - nothing reordered, repeated or skipped. */
  lemma ChannelOrder(events: seq<Event>, idx: int)
    ensures var l := Run(Start(), events);
            Gather(Via(idx), Out(l)) <= Gather(Via(idx), l.log)
  {
    RunKeepsInv(Start(), events);
    OutBeforeLog(Run(Start(), events), idx);
  }

  // ------------------------------------------------------------------ order within a flow

  /** Selects the packets of one flow, from tagged and from plain packets. */
  function OfFlow(key: Option<seq<u8>>): Tagged -> seq<Packet> {
    (e: Tagged) => if FlowKey(e.1) == key then [e.1] else []
  }

  function IsFlow(key: Option<seq<u8>>): Packet -> seq<Packet> {
    (p: Packet) => if FlowKey(p) == key then [p] else []
  }

  /** Every packet travelled on the channel its flow selects in `order`. */
  ghost predicate Striped(order: seq<int>, l: seq<Tagged>) {
    (l != [] ==> order != []) && forall k :: 0 <= k < |l| ==> l[k].0 == Pick(order, HashOf(FlowKey(l[k].1)), 0)
  }

  /** The flow's packets all lie on one channel, so selecting by flow is selecting by channel first. */
  lemma {:induction false} FlowLiesOnItsChannel(order: seq<int>, l: seq<Tagged>, key: Option<seq<u8>>)
    requires order != [] && Striped(order, l)
    ensures Gather(OfFlow(key), l) == Gather(IsFlow(key), Gather(Via(Pick(order, HashOf(key), 0)), l))
    decreases |l|
  {
    if l != [] {
      var n := |l| - 1;
      var at := Pick(order, HashOf(key), 0);
      FlowLiesOnItsChannel(order, l[..n], key);
      var front := Gather(Via(at), l[..n]);
      GatherSnoc(IsFlow(key), front, l[n].1);
      assert front + [] == front;
    }
  }

  lemma {:induction false} GatheredComesFrom(idx: int, l: seq<Tagged>, p: Packet)
    requires p in Gather(Via(idx), l)
    ensures (idx, p) in l
    decreases |l|
  {
    var n := |l| - 1;
    if p in Gather(Via(idx), l[..n]) {
      GatheredComesFrom(idx, l[..n], p);
    }
  }

  lemma {:induction false} GatheredContains(l: seq<Tagged>, k: nat)
    requires k < |l|
    ensures l[k].1 in Gather(Via(l[k].0), l)
    decreases |l|
  {
    var n := |l| - 1;
    if k < n {
      GatheredContains(l[..n], k);
    }
  }

  /** What comes out travelled on the channel it was written to. */
  lemma OutIsStriped(l: Link)
    requires Inv(l) && Striped(l.order, l.log)
    ensures Striped(l.order, Out(l))
  {
    forall k | 0 <= k < |Out(l)|
      ensures l.order != [] && Out(l)[k].0 == Pick(l.order, HashOf(FlowKey(Out(l)[k].1)), 0)
    {
      var (idx, p) := Out(l)[k];
      GatheredContains(Out(l), k);
      OutBeforeLog(l, idx);
      assert p in Gather(Via(idx), l.log);
      GatheredComesFrom(idx, l.log, p);
    }
    if Out(l) != [] {
      var first := Out(l)[0];
      assert l.order != [];
    }
  }

  /** Nobody changes `order` and no write needs a second try. */
  ghost predicate Undisturbed(events: seq<Event>) {
    forall k :: 0 <= k < |events| ==>
      !events[k].Attach? && !events[k].Reorder? && (events[k].Write? ==> events[k].tries == 0)
  }

  /** What has been written since `old`, when nothing was struck from the log. */
  function Since(log: seq<Tagged>, l: seq<Tagged>): seq<Tagged> {
    if |log| <= |l| then l[|log|..] else []
  }

  lemma StepStripes(l: Link, e: Event, log: seq<Tagged>)
    requires !e.Attach? && !e.Reorder? && (e.Write? ==> e.tries == 0)
    requires log <= l.log && Striped(l.order, Since(log, l.log))
    ensures var l' := Step(l, e); l'.order == l.order && log <= l'.log && Striped(l'.order, Since(log, l'.log))
  {
    var l' := Step(l, e);
    if l'.log != l.log {
      var at := Pick(l.order, HashOf(FlowKey(e.p)), 0);
      assert l'.log == l.log + [(at, e.p)];
      assert Since(log, l'.log) == Since(log, l.log) + [(at, e.p)];
    }
  }

  lemma {:induction false} UndisturbedStripes(l: Link, events: seq<Event>, log: seq<Tagged>)
    requires Undisturbed(events) && log <= l.log && Striped(l.order, Since(log, l.log))
    ensures var l' := Run(l, events); l'.order == l.order && log <= l'.log && Striped(l'.order, Since(log, l'.log))
    decreases |events|
  {
    if events != [] {
      StepStripes(l, events[0], log);
      UndisturbedStripes(Step(l, events[0]), events[1..], log);
    }
  }

  /** A flow's packets from l to l': what is written of it goes to one channel, and what comes out by that channel is
      in order - what was left on it of the flow, then what is written now, nothing twice or skipped. */
  ghost predicate FlowContinues(l: Link, l': Link, key: Option<seq<u8>>) {
    && l.log <= l'.log
    && if l.order == [] then l'.log == l.log
       else
         var at, recent := Pick(l.order, HashOf(key), 0), l'.log[|l.log|..];
         && Gather(OfFlow(key), recent) == Gather(IsFlow(key), Gather(Via(at), recent))
         && Gather(IsFlow(key), Gather(Via(at), Out(l')))
            <= Gather(IsFlow(key), Gather(Via(at), l.log)) + Gather(OfFlow(key), recent)
  }

  lemma FlowSplit(l: Link, l': Link, recent: seq<Tagged>, key: Option<seq<u8>>, at: int)
    requires Inv(l') && l'.order == l.order != [] && l'.log == l.log + recent && Striped(l.order, recent)
    requires at == Pick(l.order, HashOf(key), 0)
    ensures FlowContinues(l, l', key)
  {
    assert l'.log[|l.log|..] == recent;
    FlowLiesOnItsChannel(l.order, recent, key);
    OutBeforeLog(l', at);
    GatherPrefix(IsFlow(key), Gather(Via(at), Out(l')), Gather(Via(at), l'.log));
    GatherConcat(Via(at), l.log, recent);
    GatherConcat(IsFlow(key), Gather(Via(at), l.log), Gather(Via(at), recent));
  }

  /** From any link, whatever became of its `order` before: while `order` stays as it is, every flow continues in
      order. */
  lemma FlowOrderPreserved(l: Link, events: seq<Event>, key: Option<seq<u8>>)
    requires Inv(l) && Undisturbed(events)
    ensures FlowContinues(l, Run(l, events), key)
  {
    RunKeepsInv(l, events);
    UndisturbedStripes(l, events, l.log);
    var l' := Run(l, events);
    var recent := Since(l.log, l'.log);
    assert l'.log == l.log + recent;
    if l.order != [] {
      FlowSplit(l, l', recent, key, Pick(l.order, HashOf(key), 0));
    } else {
      assert recent == [];
    }
  }

  /** In particular, when all that was written before lies where `order` says, as on a new link: the whole flow
      comes out in the order it was written, each packet at most once, none skipped. */
  lemma WholeFlowInOrder(l: Link, events: seq<Event>, key: Option<seq<u8>>)
    requires Inv(l) && Undisturbed(events) && Striped(l.order, l.log)
    ensures var l' := Run(l, events);
            Gather(OfFlow(key), Out(l')) <= Gather(OfFlow(key), l'.log)
  {
    RunKeepsInv(l, events);
    UndisturbedStripes(l, events, []);
    var l' := Run(l, events);
    assert Since([], l.log) == l.log && Since([], l'.log) == l'.log;
    OutIsStriped(l');
    if l'.order != [] {
      var at := Pick(l'.order, HashOf(key), 0);
      FlowLiesOnItsChannel(l'.order, Out(l'), key);
      FlowLiesOnItsChannel(l'.order, l'.log, key);
      OutBeforeLog(l', at);
      GatherPrefix(IsFlow(key), Gather(Via(at), Out(l')), Gather(Via(at), l'.log));
    } else {
      assert Out(l') == [] && l'.log == [];
    }
  }

  // ------------------------------------------------------------------ why `order` must stay put

  ghost predicate TwoFreshChannels(l: Link) {
    && Inv(l) && l.order == [0, 1] && l.channels.Keys == {0, 1} && l.log == l.inbound == [] && l.drained == 0
    && forall i :: i in l.channels ==> l.readers[i] == Waiting && Unused(l.channels[i])
  }

  /** A channel whose socket works and that has carried nothing. */
  ghost predicate Unused(c: Ch.Channel) {
    c.w.up && c.w.tx.stream.counter == 0
  }

  /** Such a link exists: attach two channels to an empty one. */
  lemma TwoAttachesAreFresh(k0: Key, k1: Key, pad: PadPolicy)
    requires PolicyFits(pad)
    ensures TwoFreshChannels(Step(Step(Start(), Attach(0, k0, pad)), Attach(1, k1, pad)))
  {
    StepKeepsInv(Start(), Attach(0, k0, pad));
    StepKeepsInv(Step(Start(), Attach(0, k0, pad)), Attach(1, k1, pad));
  }

  lemma UnusedIsEmpty(c: Ch.Channel)
    requires Ch.Inv(c) && Unused(c)
    ensures c.written == c.read == [] && c.w.sent == [] && c.taken == 0
  {
    assert c.w.sent[..c.taken] == [];
  }

  /** An unused channel takes a packet, and then carries just that. */
  lemma WriteUnused(c: Ch.Channel, p: Packet, rnd: Random)
    requires Ch.Inv(c) && Unused(c) && |p| <= MAX_PAYLOAD
    ensures Carries(Ch.Step(c, Ch.Write(p, rnd)), p) && c.written == []
  {
    UnusedIsEmpty(c);
    Ch.StepKeepsInv(c, Ch.Write(p, rnd));
    Ch.SendGrows(c.w, TYPE_DATA, p, rnd);
    WriteSucceeds(c, p, rnd);
  }

  lemma WriteSucceeds(c: Ch.Channel, p: Packet, rnd: Random)
    requires c.w.up && c.w.tx.stream.counter < MAX_COUNTER && |p| <= MAX_PAYLOAD
    ensures var c' := Ch.Step(c, Ch.Write(p, rnd)); c'.written == c.written + [p] && c'.taken == c.taken
  {
  }

  /** The only packet ever written to the channel is p, still unread. */
  ghost predicate Carries(c: Ch.Channel, p: Packet) {
    Ch.Inv(c) && |c.w.sent| == 1 && c.taken == 0 && c.written == [p]
  }

  /** Reading the only record in flight yields the only unread packet. */
  lemma ReadCarried(c: Ch.Channel, p: Packet)
    requires Carries(c, p)
    ensures c.read == [] && Ch.Step(c, Ch.Receive).read == [p]
  {
    NothingRead(c);
    ReceiveTakes(c);
    Ch.StepKeepsInv(c, Ch.Receive);
    AllRead(Ch.Step(c, Ch.Receive));
  }

  lemma NothingRead(c: Ch.Channel)
    requires Ch.Inv(c) && c.taken == 0
    ensures c.read == []
  {
    assert c.w.sent[..0] == [];
  }

  lemma AllRead(c: Ch.Channel)
    requires Ch.Inv(c) && c.taken == |c.w.sent|
    ensures c.read == c.written
  {
    assert c.w.sent[..|c.w.sent|] == c.w.sent;
  }

  lemma ReceiveTakes(c: Ch.Channel)
    requires Ch.Inv(c) && c.taken < |c.w.sent|
    ensures var c' := Ch.Step(c, Ch.Receive); c'.taken == c.taken + 1 && c'.w == c.w && c'.written == c.written
  {
  }

  /** The packet lies alone on the channel and nobody has read it. */
  ghost predicate Parked(l: Link, at: int, p: Packet) {
    at in l.channels && at in l.readers && l.readers[at] == Waiting && Carries(l.channels[at], p)
  }

  lemma WriteParks(l: Link, at: int, p: Packet, rnd: Random)
    requires Inv(l) && at in l.channels && l.readers[at] == Waiting && Unused(l.channels[at]) && |p| <= MAX_PAYLOAD
    requires l.order != [] && Pick(l.order, HashOf(FlowKey(p)), 0) == at
    ensures var l' := Step(l, Write(p, 0, rnd));
            && Inv(l') && Parked(l', at, p) && l'.log == l.log + [(at, p)]
            && l'.inbound == l.inbound && l'.drained == l.drained && l'.order == l.order
            && l'.channels == l.channels[at := l'.channels[at]] && l'.readers == l.readers
  {
    assert Accounts(l, at);
    WriteUnused(l.channels[at], p, rnd);
    StepKeepsInv(l, Write(p, 0, rnd));
  }

  lemma {:induction false} RunConcat(l: Link, a: seq<Event>, b: seq<Event>)
    ensures Run(l, a + b) == Run(Run(l, a), b)
    decreases |a|
  {
    if a == [] {
      assert a + b == b;
    } else {
      assert (a + b)[1..] == a[1..] + b;
      RunConcat(Step(l, a[0]), a[1..], b);
    }
  }

  lemma RunThree(l: Link, a: Event, b: Event, c: Event)
    ensures Run(l, [a, b, c]) == Step(Step(Step(l, a), b), c)
  {
    RunTwo(Step(l, a), b, c);
    assert [a, b, c][1..] == [b, c];
  }

  lemma RunTwo(l: Link, a: Event, b: Event)
    ensures Run(l, [a, b]) == Step(Step(l, a), b)
  {
    RunOne(Step(l, a), b);
    assert [a, b][1..] == [b];
  }

  lemma RunOne(l: Link, a: Event)
    ensures Run(l, [a]) == Step(l, a)
  {
    assert Run(Step(l, a), []) == Step(l, a);
  }

  /** Read, push and drain: the parked packet is the next one out. */
  function Delivery(at: int): seq<Event> {
    [Read(at), Push(at), Drain]
  }

  lemma ReadHolds(l: Link, at: int, p: Packet)
    requires Parked(l, at, p)
    ensures Step(l, Read(at)) == l.(channels := l.channels[at := Ch.Step(l.channels[at], Ch.Receive)], readers := l.readers[at := Holding(p)])
  {
    ReadCarried(l.channels[at], p);
  }

  lemma Delivers(l: Link, d: seq<Event>, at: int, p: Packet)
    requires Parked(l, at, p) && l.drained == |l.inbound| && d == Delivery(at)
    ensures var l' := Run(l, d);
            && l'.inbound == l.inbound + [(at, p)] && l'.drained == |l'.inbound| && l'.log == l.log
            && Out(l') == Out(l) + [(at, p)]
            && (forall i, r :: i != at && Parked(l, i, r) ==> Parked(l', i, r))
  {
    ReadHolds(l, at, p);
    RunThree(l, Read(at), Push(at), Drain);
    var l1 := Step(l, Read(at));
    assert Step(l1, Push(at)) == l1.(inbound := l.inbound + [(at, p)], readers := l1.readers[at := Waiting]);
  }

  /** p is written to its flow's channel, which then leaves `order`. */
  function WriteAndLeave(at: int, p: Packet, rnd: Random): seq<Event> {
    [Write(p, 0, rnd), Reorder([1 - at])]
  }

  /** Then q is written, to the other channel, and overtakes p. */
  function Overtaking(at: int, p: Packet, q: Packet, rnd: Random): seq<Event> {
    WriteAndLeave(at, p, rnd) + [Write(q, 0, rnd)] + Delivery(1 - at) + Delivery(at)
  }

  /** p is under way on one channel; only the other, unused, is in `order`. */
  ghost predicate Left(l: Link, at: int, p: Packet) {
    && Inv(l) && Parked(l, at, p) && l.log == [(at, p)] && l.inbound == [] && l.drained == 0 && l.order == [1 - at]
    && 1 - at in l.channels && 1 - at in l.readers && l.readers[1 - at] == Waiting && Unused(l.channels[1 - at])
  }

  lemma Leaves(l: Link, at: int, p: Packet)
    requires Inv(l) && Parked(l, at, p) && l.log == [(at, p)] && l.inbound == [] && l.drained == 0
    requires 1 - at in l.channels && 1 - at in l.readers && l.readers[1 - at] == Waiting && Unused(l.channels[1 - at])
    ensures Left(Step(l, Reorder([1 - at])), at, p)
  {
    StepKeepsInv(l, Reorder([1 - at]));
  }

  lemma WritesAndLeaves(l: Link, a: seq<Event>, at: int, p: Packet, rnd: Random)
    requires a == WriteAndLeave(at, p, rnd)
    requires TwoFreshChannels(l) && |p| <= MAX_PAYLOAD && (at == 0 || at == 1) && Pick(l.order, HashOf(FlowKey(p)), 0) == at
    ensures Left(Run(l, a), at, p)
  {
    assert at in l.channels && 1 - at in l.channels;
    WriteParks(l, at, p, rnd);
    assert [] + [(at, p)] == [(at, p)];
    Leaves(Step(l, Write(p, 0, rnd)), at, p);
    RunTwo(l, Write(p, 0, rnd), Reorder([1 - at]));
  }

  lemma WritesToTheOther(l: Link, b: seq<Event>, at: int, p: Packet, q: Packet, rnd: Random)
    requires Left(l, at, p) && |q| <= MAX_PAYLOAD && b == [Write(q, 0, rnd)]
    ensures var l' := Run(l, b);
            && Parked(l', at, p) && Parked(l', 1 - at, q)
            && l'.log == [(at, p), (1 - at, q)] && l'.inbound == [] && l'.drained == 0
  {
    PickOnly(1 - at, HashOf(FlowKey(q)));
    WriteParks(l, 1 - at, q, rnd);
    RunOne(l, Write(q, 0, rnd));
    assert [(at, p)] + [(1 - at, q)] == [(at, p), (1 - at, q)];
  }

  lemma PickOnly(idx: int, h: u32)
    ensures Pick([idx], h, 0) == idx
  {
  }

  lemma PickOfTwo(h: u32)
    ensures Pick([0, 1], h, 0) == 0 || Pick([0, 1], h, 0) == 1
  {
  }

  lemma DeliversBoth(l: Link, c: seq<Event>, d: seq<Event>, at: int, other: int, p: Packet, q: Packet)
    requires c == Delivery(other) && d == Delivery(at)
    requires Parked(l, at, p) && Parked(l, other, q) && at != other && l.inbound == [] && l.drained == 0
    ensures var l' := Run(Run(l, c), d); l'.log == l.log && Out(l') == [(other, q), (at, p)]
  {
    Delivers(l, c, other, q);
    Delivers(Run(l, c), d, at, p);
    assert Out(l) == [];
    assert [] + [(other, q)] + [(at, p)] == [(other, q), (at, p)];
  }

  /** p and q are under way on two channels, p written first. */
  ghost predicate BothParked(l: Link, at: int, p: Packet, q: Packet) {
    && Parked(l, at, p) && Parked(l, 1 - at, q) && l.log == [(at, p), (1 - at, q)] && l.inbound == [] && l.drained == 0
  }

  lemma ParksBoth(l: Link, a: seq<Event>, b: seq<Event>, at: int, p: Packet, q: Packet, rnd: Random)
    requires Left(Run(l, a), at, p) && |q| <= MAX_PAYLOAD && b == [Write(q, 0, rnd)]
    ensures BothParked(Run(l, a + b), at, p, q)
  {
    RunConcat(l, a, b);
    WritesToTheOther(Run(l, a), b, at, p, q, rnd);
  }

  lemma OvertakesFrom(l: Link, ab: seq<Event>, c: seq<Event>, d: seq<Event>, at: int, p: Packet, q: Packet)
    requires BothParked(Run(l, ab), at, p, q) && c == Delivery(1 - at) && d == Delivery(at)
    ensures var l' := Run(l, ab + c + d); l'.log == [(at, p), (1 - at, q)] && Out(l') == [(1 - at, q), (at, p)]
  {
    DeliversBoth(Run(l, ab), c, d, at, 1 - at, p, q);
    RunConcat(l, ab, c);
    RunConcat(l, ab + c, d);
  }

  lemma OvertakesAt(l: Link, a: seq<Event>, events: seq<Event>, at: int, p: Packet, q: Packet, rnd: Random)
    requires a == WriteAndLeave(at, p, rnd) && events == Overtaking(at, p, q, rnd)
    requires TwoFreshChannels(l) && |p| <= MAX_PAYLOAD && |q| <= MAX_PAYLOAD
    requires (at == 0 || at == 1) && Pick(l.order, HashOf(FlowKey(p)), 0) == at
    ensures var l' := Run(l, events); l'.log == [(at, p), (1 - at, q)] && Out(l') == [(1 - at, q), (at, p)]
  {
    WritesAndLeaves(l, a, at, p, rnd);
    ParksBoth(l, a, [Write(q, 0, rnd)], at, p, q, rnd);
    OvertakesFrom(l, a + [Write(q, 0, rnd)], Delivery(1 - at), Delivery(at), at, p, q);
  }

  /** Detaching the flow's channel lets a later packet overtake an earlier one: for any two packets of one flow,
      both come out, in the other order. */
  lemma ChangedOrderMayReorder(l: Link, p: Packet, q: Packet, rnd: Random) returns (events: seq<Event>)
    requires TwoFreshChannels(l) && FlowKey(p) == FlowKey(q) && |p| <= MAX_PAYLOAD && |q| <= MAX_PAYLOAD
    ensures var at := Pick([0, 1], HashOf(FlowKey(p)), 0);
            events == Overtaking(at, p, q, rnd) && Overtakes(Run(l, events), at, p, q)
  {
    var at := Pick([0, 1], HashOf(FlowKey(p)), 0);
    PickOfTwo(HashOf(FlowKey(p)));
    events := Overtaking(at, p, q, rnd);
    OvertakesThere(l, events, at, p, q, rnd);
  }

  lemma OvertakesThere(l: Link, events: seq<Event>, at: int, p: Packet, q: Packet, rnd: Random)
    requires TwoFreshChannels(l) && FlowKey(p) == FlowKey(q) && |p| <= MAX_PAYLOAD && |q| <= MAX_PAYLOAD
    requires (at == 0 || at == 1) && Pick(l.order, HashOf(FlowKey(p)), 0) == at && events == Overtaking(at, p, q, rnd)
    ensures Overtakes(Run(l, events), at, p, q)
  {
    OvertakesAt(l, WriteAndLeave(at, p, rnd), events, at, p, q, rnd);
    OvertakesShape(Run(l, events), at, p, q);
  }

  lemma OvertakesShape(l: Link, at: int, p: Packet, q: Packet)
    requires l.log == [(at, p), (1 - at, q)] && Out(l) == [(1 - at, q), (at, p)] && FlowKey(p) == FlowKey(q)
    ensures Overtakes(l, at, p, q)
  {
    FlowOfBoth(at, p, q, FlowKey(p));
  }

  /** Of one flow, p was written first, and q came out first. */
  ghost predicate Overtakes(l: Link, at: int, p: Packet, q: Packet) {
    && l.log == [(at, p), (1 - at, q)] && Out(l) == [(1 - at, q), (at, p)]
    && Gather(OfFlow(FlowKey(p)), l.log) == [p, q] && Gather(OfFlow(FlowKey(p)), Out(l)) == [q, p]
  }

  lemma FlowOfBoth(at: int, p: Packet, q: Packet, key: Option<seq<u8>>)
    requires FlowKey(p) == FlowKey(q) == key
    ensures Gather(OfFlow(key), [(at, p), (1 - at, q)]) == [p, q]
    ensures Gather(OfFlow(key), [(1 - at, q), (at, p)]) == [q, p]
  {
    FlowOfPair((at, p), (1 - at, q));
    FlowOfPair((1 - at, q), (at, p));
  }

  lemma FlowOfOne(a: Tagged, one: seq<Tagged>)
    requires one == [a]
    ensures Gather(OfFlow(FlowKey(a.1)), one) == [a.1]
  {
    GatherSnoc(OfFlow(FlowKey(a.1)), [], a);
    assert [] + [a] == one;
  }

  lemma FlowOfPair(a: Tagged, b: Tagged)
    requires FlowKey(a.1) == FlowKey(b.1)
    ensures Gather(OfFlow(FlowKey(a.1)), [a, b]) == [a.1, b.1]
  {
    var one := [a];
    FlowOfOne(a, one);
    GatherSnoc(OfFlow(FlowKey(a.1)), one, b);
    assert one + [b] == [a, b];
  }
}
