/** The tunnel object itself (internal/transport/tunnel.go), each method run without interruption. */
module Bonded {
  import opened Aead
  import opened Bytes
  import opened Connection
  import opened Failover
  import opened Flow
  import opened Frame
  import opened Handshake
  import opened Lifecycle
  import opened Lists
  import opened Striping
  import opened Wrappers

  datatype Inbound = Delivered(p: Packet) | TunnelClosed | WouldBlock

  /** Every entry of a is an entry of b. */
  ghost predicate Within(a: map<int, Conn>, b: map<int, Conn>) {
    forall i :: i in a ==> i in b && a[i] == b[i]
  }

  /** The objects of a map's connections. */
  ghost function Owned(cs: map<int, Conn>): set<object> {
    set i, o | i in cs && o in cs[i].Repr :: o
  }

  lemma OwnedAt(cs: map<int, Conn>, i: int)
    requires i in cs
    ensures cs[i].Repr <= Owned(cs)
  {
  }

  /** A sender like this takes this packet. */
  ghost predicate Takes(w: Writer, p: Packet) {
    |p| <= MAX_PAYLOAD && w.up && w.tx.stream.counter < MAX_COUNTER
  }

  /** The connection would take this packet. */
  ghost predicate Accepts(c: Conn, p: Packet)
    requires c.Valid()
    reads c.Repr
  {
    Takes(c.Out(), p)
  }

  ghost predicate Apart(channels: map<int, Conn>) {
    forall i, j :: i in channels && j in channels && i != j ==> channels[i].Repr !! channels[j].Repr
  }

  /** Exactly one more message was sent on c, and it opens to p. */
  twostate predicate SentOne(c: Conn, p: Packet)
    reads c
  {
    && |c.sent| == |old(c.sent)| + 1
    && c.sent[..|old(c.sent)|] == old(c.sent)
    && Parse(c.sent[|old(c.sent)|].plain) == Ok((TYPE_DATA, p))
  }

  /** What was sent since `before` is exactly one keepalive. */
  ghost predicate OnePad(before: seq<Sealed>, after: seq<Sealed>) {
    |after| == |before| + 1 && after[..|before|] == before && Parse(after[|before|].plain) == Ok((TYPE_PAD, []))
  }

  /** The channels of a keepalive round: those that have had their turn have sent something more or are gone, the
      others would still accept as at the outset. */
  ghost predicate Accounted(cs: map<int, Conn>, round: Round)
    reads Owned(cs)
  {
    forall i :: i in cs ==>
      && cs[i].Valid() && i in round.sent && |cs[i].sent| >= round.sent[i]
      && if i in round.seen then i in round.gone || |cs[i].sent| > round.sent[i] else Accepts(cs[i], []) <==> i in round.good
  }

  /** The same of what the connections' senders were. */
  ghost predicate AccountedWas(were: map<int, Writer>, round: Round) {
    forall i :: i in were ==>
      && i in round.sent && |were[i].sent| >= round.sent[i]
      && if i in round.seen then i in round.gone || |were[i].sent| > round.sent[i] else Takes(were[i], []) <==> i in round.good
  }

  /** A turn that leaves every other channel as it was keeps the account. */
  lemma AccountedTurn(cs: map<int, Conn>, were: map<int, Writer>, round: Round, idx: int, ok: bool)
    requires were.Keys == cs.Keys && AccountedWas(were, round) && idx in cs && cs[idx].Valid()
    requires forall i :: i in cs && i != idx ==> cs[i].Valid() && cs[i].Out() == were[i]
    requires |cs[idx].sent| >= |were[idx].sent| + if ok then 1 else 0
    ensures Accounted(cs, round.Turn(idx, ok))
  {
    assert forall i :: i in cs && i != idx ==> cs[i].sent == were[i].sent;
  }

  class Tunnel {
    var channels: map<int, Conn>
    var order: seq<int>
    var closed: bool
    var dead: bool
    var once: Once
    var fired: nat
    var inbound: seq<Packet>

    ghost function State(): Core<Conn>
      reads this
    {
      Core(channels, order, closed, dead, once, fired)
    }

    ghost function Footprint(): set<object>
      reads this
    {
      Owned(channels)
    }

    ghost predicate Valid()
      reads this, Footprint()
    {
      Listed(State()) && Apart(channels) && forall i :: i in channels ==> this !in channels[i].Repr && channels[i].Valid()
    }

    /** The channels that would take this packet. */
    ghost function Accepting(p: Packet): set<int>
      requires Valid()
      reads this, Footprint()
    {
      set i | i in channels && Accepts(channels[i], p)
    }

    /** The channels whose sockets work and whose counters are not used up. */
    ghost function Healthy(): set<int>
      requires Valid()
      reads this, Footprint()
    {
      set i | i in channels && channels[i].up && channels[i].sealer.aead.counter < MAX_COUNTER
    }

    constructor ()
      ensures Valid() && State() == Fresh() && inbound == []
    {
      channels, order, closed, dead, once, fired, inbound := map[], [], false, false, Idle, 0, [];
    }

    method AddChannel(idx: int, c: Conn) returns (attached: bool)
      requires Valid() && c.Valid() && this !in c.Repr && c.Repr !! Footprint()
      modifies this, if closed then {c} else {}
      ensures Valid()
      ensures State() == Attach(old(State()), idx, c) && inbound == old(inbound)
      ensures attached == !old(closed) && (!attached ==> !c.up)
    {
      if closed {
        c.Close();
        return false;
      }
      channels := channels[idx := c];
      order := order + [idx];
      assert order[|order| - 1] == idx;
      attached := true;
    }

    method RemoveChannel(idx: int)
      requires Valid()
      modifies this, if idx in channels then {channels[idx]} else {}
      ensures Valid()
      ensures State() == Drop(old(State()), idx) && inbound == old(inbound)
      ensures channels == old(channels) - {idx}
      ensures idx in old(channels) ==> !old(channels)[idx].up && old(channels)[idx].sent == old(channels[idx].sent)
    {
      if idx !in channels {
        return;
      }
      var c := channels[idx];
      ghost var t := State();
      DetachKeepsListed(t, idx);
      channels := channels - {idx};
      order := FilterOut(order, idx);
      assert State() == Detach(t, idx);
      var empty := channels == map[];
      c.Close();
      if empty {
        DoMarkDead();
      }
    }

    /** The in-place filter over `order`. */
    static method FilterOut(order: seq<int>, idx: int) returns (out: seq<int>)
      ensures out == Without(order, {idx})
    {
      out := [];
      for k := 0 to |order|
        invariant out == Without(order[..k], {idx})
      {
        assert order[..k + 1][..k] == order[..k];
        if order[k] != idx {
          out := out + [order[k]];
        }
      }
      assert order[..|order|] == order;
    }

    method DoMarkDead()
      modifies this
      ensures State() == MarkDead(old(State())) && inbound == old(inbound)
    {
      if once == Idle {
        once := Entered;
        closed, once := true, ClosedSet;
        dead, once := true, DeadClosed;
        fired, once := fired + 1, Firing;
        once := Done;
      }
    }

    /** One turn of WritePacket's loop: write on the channel, drop it if that fails. */
    method TryChannel(idx: int, p: Packet, rnd: Random) returns (ok: bool)
      requires Valid() && idx in channels
      modifies this, channels[idx].Repr
      ensures Valid() && inbound == old(inbound)
      ensures ok == old(Accepts(channels[idx], p))
      ensures ok ==> State() == old(State()) && SentOne(channels[idx], p)
      ensures !ok ==> State() == Drop(old(State()), idx) && old(channels)[idx].sent == old(channels[idx].sent)
      ensures channels.Keys == if ok then old(channels.Keys) else old(channels.Keys) - {idx}
      ensures forall i :: i in old(channels) && i != idx ==> channels[i] == old(channels[i]) && channels[i].Out() == old(channels[i].Out())
    {
      var c := channels[idx];
      WriteSucceedsExactly(c.Out(), p, rnd);
      var r := c.WritePacket(p, rnd);
      if r.Ok? {
        return true;
      }
      RemoveChannel(idx);
      ok := false;
    }

    /** WritePacket's loop, for a packet whose flow hash is h. */
    method WriteOnFlow(h: u32, p: Packet, rnd: nat -> Random) returns (ok: bool, ghost used: Option<int>)
      requires Valid()
      modifies this, Footprint()
      ensures Valid() && inbound == old(inbound)
      ensures (State(), used) == Attempt(old(State()), h, old(Accepting(p)), 0)
      ensures ok == used.Some?
      ensures used.Some? ==> used.value in old(channels) && SentOne(old(channels)[used.value], p)
      ensures forall i :: i in channels && used != Some(i) ==> i in old(channels) && channels[i].Out() == old(channels[i].Out())
    {
      ghost var good := Accepting(p);
      ghost var goal: (Core<Conn>, Option<int>) := Attempt(State(), h, good, 0);
      used := None;
      var tries := 0;
      while tries < 4
        invariant 0 <= tries <= MAX_TRIES
        invariant Valid() && inbound == old(inbound)
        invariant forall i :: i in channels ==> i in old(channels) && channels[i] == old(channels[i])
        invariant forall i :: i in channels ==> channels[i].Out() == old(channels[i].Out())
        invariant Attempt(State(), h, good, tries) == goal
        decreases 4 - tries
      {
        var n := |order|;
        if n == 0 {
          AttemptEnds(State(), h, good, tries);
          return false, None;
        }
        var idx := Pick(order, h, tries);
        assert idx in order;
        ghost var t: Core<Conn> := State();
        AttemptTurn(t, h, good, tries);
        assert channels[idx].Out() == old(channels[idx].Out());
        assert idx in good <==> Accepts(channels[idx], p);
        var sent := TryChannel(idx, p, rnd(tries));
        if sent {
          return true, Some(idx);
        }
        tries := tries + 1;
      }
      AttemptEnds(State(), h, good, tries);
      ok := false;
    }

    /** Sends p on the channel its flow selects, dropping channels that fail, at most four times. A packet that
        fits a record costs no healthy channel; one that does not costs four channels, or all. */
    method WritePacket(p: Packet, rnd: nat -> Random) returns (ok: bool, ghost used: Option<int>)
      requires Valid()
      modifies this, Footprint()
      ensures Valid() && inbound == old(inbound)
      ensures (State(), used) == Attempt(old(State()), HashOf(FlowKey(p)), old(Accepting(p)), 0)
      ensures ok == used.Some?
      ensures used.Some? ==> used.value in old(channels) && SentOne(old(channels)[used.value], p)
      ensures forall i :: i in channels && used != Some(i) ==> i in old(channels) && channels[i].Out() == old(channels[i].Out())
      ensures |p| <= 9000 ==> old(Healthy()) <= channels.Keys
      ensures |p| > 9000 ==> !ok && |channels| == if |old(channels)| < MAX_TRIES then 0 else |old(channels)| - MAX_TRIES
      ensures old(order) != [] && Chosen(old(order), HashOf(FlowKey(p))) in old(Accepting(p)) ==>
                State() == old(State()) && used == Some(Chosen(old(order), HashOf(FlowKey(p))))
    {
      var h := FlowHash(p);
      AcceptingIsHealthy(this, p);
      HealthySurvive(State(), h, Healthy(), Accepting(p));
      FirstChoiceIsUsed(State(), h, Accepting(p));
      ok, used := WriteOnFlow(h, p, rnd);
    }

    /** One turn of WriteKeepalive's loop: a keepalive on idx, or the end of it; cs is what the map held when the
        round began. */
    method TryKeepalive(idx: int, cs: map<int, Conn>, rnd: Random) returns (ok: bool)
      requires Valid() && Apart(cs) && idx in cs && Within(channels, cs)
      requires forall i :: i in cs ==> this !in cs[i].Repr && cs[i].Valid()
      modifies this, cs[idx].Repr
      ensures Valid() && inbound == old(inbound)
      ensures ok == old(Accepts(cs[idx], [])) && (ok ==> OnePad(old(cs[idx].sent), cs[idx].sent))
      ensures State() == Turned(old(State()), idx, ok) && Within(channels, cs)
      ensures forall i :: i in cs ==>
                cs[i].Valid() && if i == idx then |cs[i].sent| >= |old(cs[i].sent)| else cs[i].Out() == old(cs[i].Out())
    {
      var c := cs[idx];
      KeepaliveSucceedsExactly(c.Out(), rnd);
      var r := c.WriteKeepalive(rnd);
      if r.Ok? {
        return true;
      }
      RemoveChannel(idx);
      ok := false;
    }

    /** The same, with the account of the round. */
    method KeepAlive(idx: int, cs: map<int, Conn>, rnd: Random, ghost round: Round) returns (ok: bool)
      requires Valid() && Apart(cs) && idx in cs && Within(channels, cs)
      requires forall i :: i in cs ==> this !in cs[i].Repr
      requires Accounted(cs, round)
      modifies this, cs[idx].Repr
      ensures Valid() && inbound == old(inbound)
      ensures ok == old(Accepts(cs[idx], [])) && (ok ==> OnePad(old(cs[idx].sent), cs[idx].sent))
      ensures State() == Turned(old(State()), idx, ok) && Within(channels, cs)
      ensures Accounted(cs, round.Turn(idx, ok))
      ensures idx !in round.seen ==> (ok <==> idx in round.good)
    {
      ghost var were := map i | i in cs :: cs[i].Out();
      assert AccountedWas(were, round);
      ok := TryKeepalive(idx, cs, rnd);
      AccountedTurn(cs, were, round, idx, ok);
    }

    /** A keepalive round over the copies made of `order` and the map of t0, after k turns. */
    ghost predicate InRound(t0: Core<Conn>, k: nat, round: Round)
      requires Valid()
      reads this, Footprint(), Owned(t0.channels)
    {
      && Listed(t0) && Apart(t0.channels) && (forall i :: i in t0.channels ==> this !in t0.channels[i].Repr)
      && Survivors(t0, State(), round.gone) && Within(channels, t0.channels)
      && Accounted(t0.channels, round) && Tally(t0.order, k, round)
    }

    lemma RoundAtFirst(round: Round)
      requires Valid() && Accounted(channels, round) && round.gone == round.seen == {}
      ensures InRound(State(), 0, round)
    {
      RoundBegins(State(), round);
    }

    /** The entry of the next turn names a channel of the copy. */
    lemma RoundNext(t0: Core<Conn>, k: nat, round: Round)
      requires Valid() && InRound(t0, k, round) && k < |t0.order|
      ensures t0.order[k] in t0.channels && t0.channels[t0.order[k]].Repr <= Owned(t0.channels)
    {
      ListedAt(t0, k);
      OwnedAt(t0.channels, t0.order[k]);
    }

    /** One turn of the round. */
    method KeepAliveNext(k: nat, idxs: seq<int>, cs: map<int, Conn>, rnd: Random, ghost t0: Core<Conn>, ghost round: Round)
      returns (ghost next: Round)
      requires Valid() && InRound(t0, k, round) && k < |idxs| && idxs == t0.order && cs == t0.channels && idxs[k] in cs
      modifies this, cs[idxs[k]].Repr
      ensures Valid() && inbound == old(inbound)
      ensures InRound(t0, k + 1, next) && next.good == round.good && next.sent == round.sent
    {
      ghost var t: Core<Conn> := State();
      var sent := KeepAlive(idxs[k], cs, rnd, round);
      TallyTurn(idxs, k, round, sent);
      SurvivorsTurn(t0, t, k, round, sent);
      next := round.Turn(idxs[k], sent);
    }

    /** WriteKeepalive's loop. */
    method KeepAliveAll(idxs: seq<int>, cs: map<int, Conn>, rnd: nat -> Random, ghost start: Round) returns (ghost end: Round)
      requires Valid() && idxs == order && cs == channels
      requires Accounted(cs, start) && start.gone == start.seen == {}
      modifies this, Owned(cs)
      ensures Valid() && inbound == old(inbound)
      ensures Survivors(old(State()), State(), end.gone)
      ensures Accounted(cs, end) && Tally(idxs, |idxs|, end) && end.good == start.good && end.sent == start.sent
    {
      ghost var t0: Core<Conn> := State();
      RoundAtFirst(start);
      end := start;
      var k := 0;
      while k < |idxs|
        invariant 0 <= k <= |idxs|
        invariant Valid() && inbound == old(inbound)
        invariant InRound(t0, k, end) && end.good == start.good && end.sent == start.sent
      {
        RoundNext(t0, k, end);
        end := KeepAliveNext(k, idxs, cs, rnd(k), t0, end);
        k := k + 1;
      }
    }

    /** Sends a keepalive once per entry of `order`, dropping the channels that fail, `gone`: those that would
        refuse one at the outset, and no other unless it is listed twice. Every channel left has sent a message. */
    method WriteKeepalive(rnd: nat -> Random) returns (ok: bool, ghost gone: set<int>)
      requires Valid()
      modifies this, Footprint()
      ensures Valid() && inbound == old(inbound)
      ensures ok <==> old(order) != []
      ensures Survivors(old(State()), State(), gone)
      ensures old(channels.Keys - Accepting([])) <= gone
      ensures forall i :: i in gone && i in old(Accepting([])) ==> Repeated(old(order), i)
      ensures forall i :: i in channels ==> i in old(channels) && |channels[i].sent| > |old(channels[i].sent)|
    {
      ghost var t0: Core<Conn> := State();
      var idxs, cs := order, channels;
      if |idxs| == 0 {
        assert forall i :: i in channels ==> i in order;
        WithoutNone(order);
        return false, {};
      }
      ghost var start := Round(Accepting([]), {}, {}, map i | i in cs :: |cs[i].sent|);
      ghost var end := KeepAliveAll(idxs, cs, rnd, start);
      TallyEnds(t0, end);
      return true, end.gone;
    }

    /** Closes every channel and tears the tunnel down. */
    method Close()
      requires Valid()
      modifies this, Footprint()
      ensures Valid() && State() == MarkDead(Clear(old(State()))) && inbound == old(inbound)
      ensures forall i :: i in old(channels) ==> !old(channels)[i].up
    {
      var conns := channels;
      channels, order := map[], [];
      CloseAll(conns);
      DoMarkDead();
    }

    static method CloseAll(conns: map<int, Conn>)
      modifies set i | i in conns :: conns[i]
      ensures forall i :: i in conns ==> !conns[i].up
    {
      forall i | i in conns {
        conns[i].up := false;
      }
      forall i | i in conns {
        conns[i].inbox := [];
      }
    }

    method ReadPacket() returns (r: Inbound)
      modifies this
      ensures State() == old(State())
      ensures match r {
                case Delivered(p) => old(inbound) == [p] + inbound
                case TunnelClosed => dead && inbound == old(inbound) == []
                case WouldBlock => !dead && inbound == old(inbound) == []
              }
    {
      if inbound != [] {
        r := Delivered(inbound[0]);
        inbound := inbound[1..];
      } else {
        r := if dead then TunnelClosed else WouldBlock;
      }
    }
  }

  lemma KeepaliveSucceedsExactly(w: Writer, rnd: Random)
    ensures var (w', r) := WriteStep(w, TYPE_PAD, [], rnd);
            && (r.Ok? <==> w.up && w.tx.stream.counter < MAX_COUNTER)
            && (r.Ok? ==> OnePad(w.sent, w'.sent))
  {
    if w.tx.stream.counter < MAX_COUNTER {
      OpenOfSeal(w.tx, TYPE_PAD, [], rnd);
    }
  }

  /** When a connection takes a packet, and what it then sends. */
  lemma WriteSucceedsExactly(w: Writer, p: Packet, rnd: Random)
    ensures var (w', r) := WriteStep(w, TYPE_DATA, p, rnd);
            && (r.Ok? <==> |p| <= MAX_PAYLOAD && w.up && w.tx.stream.counter < MAX_COUNTER)
            && (r.Err? ==> w'.sent == w.sent)
            && (r.Ok? ==> |w'.sent| == |w.sent| + 1 && w'.sent[..|w.sent|] == w.sent
                          && Parse(w'.sent[|w.sent|].plain) == Ok((TYPE_DATA, p)))
  {
    if |p| <= MAX_PAYLOAD && w.tx.stream.counter < MAX_COUNTER {
      OpenOfSeal(w.tx, TYPE_DATA, p, rnd);
    }
  }

  // ------------------------------------------------------------------ oversize packets

  /** What the channels make of a packet depends on its length alone: one that fits a record is taken by all
      healthy ones. */
  lemma AcceptingIsHealthy(t: Tunnel, p: Packet)
    requires t.Valid()
    ensures t.Accepting(p) == if |p| <= 9000 then t.Healthy() else {}
    ensures t.Healthy() <= t.channels.Keys
  {
    forall i ensures i in t.Accepting(p) <==> |p| <= 9000 && i in t.Healthy() {
    }
  }

  /** When a write detaches a healthy channel. With one channel healthy and at most three not, exactly when the packet
      exceeds a record; in general it must exceed one, and the loss is of the healthy among the channels the hash
      picks when every try fails. */
  lemma HealthyDetachedExactly(t: Tunnel, p: Packet)
    requires t.Valid()
    ensures var h := HashOf(FlowKey(p));
            var lost := Lost(t.State(), h, t.Accepting(p), 0);
            && (lost * t.Healthy() != {} <==> |p| > 9000 && Lost(t.State(), h, {}, 0) * t.Healthy() != {})
            && (t.Healthy() != {} && |t.channels.Keys - t.Healthy()| < MAX_TRIES ==>
                  (lost * t.Healthy() != {} <==> |p| > 9000))
  {
    AcceptingIsHealthy(t, p);
    HealthyLostExactly(t.State(), HashOf(FlowKey(p)), t.Healthy(), t.Accepting(p), |p| > 9000);
  }

  // ------------------------------------------------------------------ the client's fan-out

  function Distance(a: int, b: int): nat {
    if a < b then b - a else a - b
  }

  /** How many channels a client with this setting dials: the nearest number that is allowed. */
  function Wanted(channels: int): (n: nat)
    ensures 1 <= n <= MAX_CHANNELS_PER_SESSION
    ensures forall m :: 1 <= m <= MAX_CHANNELS_PER_SESSION ==> Distance(n, channels) <= Distance(m, channels)
  {
    if channels < 1 then 1 else if channels > MAX_CHANNELS_PER_SESSION then MAX_CHANNELS_PER_SESSION else channels
  }

  type Arrival = (int, Option<Conn>)

  /** The other channels' results in the order they come in: indices below n other than 0, none twice, each with a
      connection or without. */
  ghost predicate Results(arrivals: seq<Arrival>, n: nat) {
    && (forall k :: 0 <= k < |arrivals| ==> 1 <= arrivals[k].0 < n)
    && (forall j, k :: 0 <= j < k < |arrivals| ==> arrivals[j].0 != arrivals[k].0)
  }

  /** The tunnel after attaching what came up. */
  function FanOut(t: Core<Conn>, arrivals: seq<Arrival>): Core<Conn>
    decreases |arrivals|
  {
    if arrivals == [] then t
    else
      var n := |arrivals| - 1;
      var t' := FanOut(t, arrivals[..n]);
      if arrivals[n].1.Some? then Attach(t', arrivals[n].0, arrivals[n].1.value) else t'
  }

  /** The indices that came up. */
  function Up(arrivals: seq<Arrival>): set<int> {
    set k | 0 <= k < |arrivals| && arrivals[k].1.Some? :: arrivals[k].0
  }

  lemma UpSnoc(arrivals: seq<Arrival>)
    requires arrivals != []
    ensures var m := |arrivals| - 1;
            Up(arrivals) == Up(arrivals[..m]) + if arrivals[m].1.Some? then {arrivals[m].0} else {}
  {
    var m := |arrivals| - 1;
    forall i ensures i in Up(arrivals) <==> i in Up(arrivals[..m]) || (arrivals[m].1.Some? && i == arrivals[m].0) {
      if i in Up(arrivals[..m]) {
        var k :| 0 <= k < m && arrivals[..m][k].1.Some? && arrivals[..m][k].0 == i;
        assert arrivals[k].1.Some?;
      }
      if i in Up(arrivals) {
        var k :| 0 <= k < |arrivals| && arrivals[k].1.Some? && arrivals[k].0 == i;
        assert k < m ==> arrivals[..m][k] == arrivals[k];
      }
    }
  }

  /** What the fan-out keeps. */
  ghost predicate Fanned(t: Core<Conn>, c0: Conn, up: set<int>) {
    !t.closed && Listed(t) && NoDup(t.order) && t.channels.Keys == {0} + up && t.channels[0] == c0
  }

  lemma FannedNext(t: Core<Conn>, c0: Conn, up: set<int>, a: Arrival)
    requires Fanned(t, c0, up) && a.0 != 0 && a.0 !in up && a.1.Some?
    ensures Fanned(Attach(t, a.0, a.1.value), c0, up + {a.0})
  {
    AttachKeepsNoDupExactly(t, a.0, a.1.value);
    AttachKeepsListed(t, a.0, a.1.value);
  }

  lemma LastIsNew(arrivals: seq<Arrival>, n: nat)
    requires Results(arrivals, n) && arrivals != []
    ensures var m := |arrivals| - 1; Results(arrivals[..m], n) && arrivals[m].0 != 0 && arrivals[m].0 !in Up(arrivals[..m])
  {
  }

  /** However many dials fail and in whatever order the rest complete: the tunnel holds channel 0 and exactly what
      came up, each once. */
  lemma {:induction false} FanOutIsFresh(c0: Conn, arrivals: seq<Arrival>, n: nat)
    requires Results(arrivals, n)
    ensures var t := FanOut(Attach(Fresh(), 0, c0), arrivals);
            && !t.closed && Listed(t) && NoDup(t.order)
            && t.channels.Keys == {0} + Up(arrivals) && t.channels[0] == c0
    decreases |arrivals|
  {
    if arrivals == [] {
      assert Attach(Fresh(), 0, c0).order == [0];
    } else {
      var m := |arrivals| - 1;
      LastIsNew(arrivals, n);
      FanOutIsFresh(c0, arrivals[..m], n);
      UpSnoc(arrivals);
      var t := FanOut(Attach(Fresh(), 0, c0), arrivals[..m]);
      assert Fanned(t, c0, Up(arrivals[..m]));
      if arrivals[m].1.Some? {
        FannedNext(t, c0, Up(arrivals[..m]), arrivals[m]);
      }
    }
  }

  /** And never more than were asked for. */
  lemma FanOutFits(c0: Conn, arrivals: seq<Arrival>, n: nat)
    requires n > 0 && Results(arrivals, n)
    ensures |FanOut(Attach(Fresh(), 0, c0), arrivals).channels| <= n
  {
    FanOutIsFresh(c0, arrivals, n);
    var keys := FanOut(Attach(Fresh(), 0, c0), arrivals).channels.Keys;
    forall i | i in keys ensures i in Below(n) {
      BelowIs(n, i);
    }
    SubsetSize(keys, Below(n));
  }

  /** Builds the client's tunnel: channel 0 first, then whatever else comes up. */
  method Dial(channels: int, c0: Conn, arrivals: seq<Arrival>) returns (tun: Tunnel)
    requires Results(arrivals, Wanted(channels)) && c0.Valid()
    requires forall k :: 0 <= k < |arrivals| && arrivals[k].1.Some? ==>
               arrivals[k].1.value.Valid() && arrivals[k].1.value.Repr !! c0.Repr
    requires forall j, k :: 0 <= j < k < |arrivals| && arrivals[j].1.Some? && arrivals[k].1.Some? ==>
               arrivals[j].1.value.Repr !! arrivals[k].1.value.Repr
    ensures fresh(tun) && tun.Valid() && tun.State() == FanOut(Attach(Fresh(), 0, c0), arrivals)
    ensures tun.channels.Keys == {0} + Up(arrivals) && NoDup(tun.order) && |tun.channels| <= Wanted(channels)
  {
    tun := new Tunnel();
    var _ := tun.AddChannel(0, c0);
    for k := 0 to |arrivals|
      invariant fresh(tun) && tun.Valid()
      invariant tun.State() == FanOut(Attach(Fresh(), 0, c0), arrivals[..k]) && !tun.closed
      invariant forall i :: i in tun.channels ==>
                  tun.channels[i] == c0 || exists j :: 0 <= j < k && arrivals[j].1 == Some(tun.channels[i])
    {
      assert arrivals[..k + 1][..k] == arrivals[..k];
      if arrivals[k].1.Some? {
        var _ := tun.AddChannel(arrivals[k].0, arrivals[k].1.value);
      }
    }
    assert arrivals[..|arrivals|] == arrivals;
    FanOutIsFresh(c0, arrivals, Wanted(channels));
    FanOutFits(c0, arrivals, Wanted(channels));
  }
}
