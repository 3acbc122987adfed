/** What the server does with a packet its tunnel cannot send (dispatch in internal/server/server.go). */
module Dispatching {
  import opened Bonded
  import opened Bytes
  import opened Connection
  import opened Failover
  import opened Flow
  import opened Frame
  import opened Lifecycle
  import opened Wrappers
  import Pool
  import Srv = Sessions

  /** onEmpty has run: once, and for good. */
  ghost predicate TornDown<C>(t: Core<C>, t': Core<C>) {
    t'.closed && t'.dead && t'.once == Done && t'.fired == t.fired + 1
  }

  /** A tunnel not yet torn down is, after an attempt, as before or torn down. */
  lemma {:induction false} AttemptTearsDownOnce<C>(t: Core<C>, h: u32, good: set<int>, tries: nat)
    requires tries <= MAX_TRIES
    ensures var t' := Attempt(t, h, good, tries).0;
            && (t.once == Done ==> t'.once == Done && t'.closed == t.closed && t'.dead == t.dead && t'.fired == t.fired)
            && (t.once == Idle ==> TornDown(t, t') || (t'.once == Idle && t'.fired == t.fired))
    decreases MAX_TRIES - tries
  {
    if tries < MAX_TRIES && t.order != [] {
      AttemptTurn(t, h, good, tries);
      AttemptTearsDownOnce(Drop(t, Pick(t.order, h, tries)), h, good, tries + 1);
    }
  }

  /** Whatever a refused write left of a tunnel not yet torn down, closing it tears it down, once. */
  lemma RefusedWriteEndsTheTunnel<C>(t: Core<C>, h: u32, good: set<int>)
    requires t.once == Idle
    ensures var ended := MarkDead(Clear(Attempt(t, h, good, 0).0));
            TornDown(t, ended) && ended.channels == map[] && ended.order == []
  {
    AttemptTearsDownOnce(t, h, good, 0);
  }

  lemma OwnedWithin(a: map<int, Conn>, b: map<int, Conn>)
    requires Within(a, b)
    ensures Owned(a) <= Owned(b)
  {
  }

  lemma AttemptOwnsNoMore(t: Core<Conn>, h: u32, good: set<int>)
    requires Listed(t)
    ensures Owned(Attempt(t, h, good, 0).0.channels) <= Owned(t.channels)
  {
    AttemptExactly(t, h, good, 0);
    OwnedWithin(Attempt(t, h, good, 0).0.channels, t.channels);
  }

  /** dispatch's last step: a packet the tunnel does not take closes the tunnel, so one that exceeds a record does. */
  method Forward(tun: Tunnel, p: Packet, rnd: nat -> Random) returns (sent: bool, ghost left: Core<Conn>)
    requires tun.Valid()
    modifies tun, tun.Footprint()
    ensures tun.Valid() && tun.inbound == old(tun.inbound)
    ensures left == Attempt(old(tun.State()), HashOf(FlowKey(p)), old(tun.Accepting(p)), 0).0
    ensures sent <==> Attempt(old(tun.State()), HashOf(FlowKey(p)), old(tun.Accepting(p)), 0).1.Some?
    ensures tun.State() == if sent then left else MarkDead(Clear(left))
    ensures |p| > MAX_PAYLOAD ==> !sent
  {
    AttemptOwnsNoMore(tun.State(), HashOf(FlowKey(p)), tun.Accepting(p));
    ghost var used;
    sent, used := tun.WritePacket(p, rnd);
    left := tun.State();
    if !sent {
      tun.Close();
    }
  }

  // ------------------------------------------------------------------ what that does to the session

  /** s with tunnel t living so. */
  function Living(s: Srv.Server, t: nat, life: State<nat>): Srv.Server
    requires t < |s.tunnels|
  {
    s.(tunnels := s.tunnels[t := s.tunnels[t].(life := life)])
  }

  /** The same, with the session deleted and its address given back. */
  function Over(s: Srv.Server, t: nat, life: State<nat>): Srv.Server
    requires t < |s.tunnels|
  {
    Living(s, t, life).(sessions := s.sessions - {s.tunnels[t].sid}, pool := Pool.Release(s.pool, s.tunnels[t].ip))
  }

  /** One step of a tunnel's life on the server, teardown included. */
  function After(s: Srv.Server, e: Srv.Event): (s': Srv.Server)
    requires e.Life? || e.Unlist? || e.Release?
    ensures |s'.tunnels| == |s.tunnels|
  {
    Srv.Step(s, e)
  }

  lemma LivingStep(s: Srv.Server, t: nat, life: State<nat>, e: Event<nat>)
    requires t < |s.tunnels| && !e.Add? && !e.Fire? && !e.Finish?
    ensures After(Living(s, t, life), Srv.Life(t, e)) == Living(s, t, Step(life, e))
  {
  }

  lemma UnlistedIs(s: Srv.Server, t: nat, life: State<nat>)
    requires t < |s.tunnels| && life.core.once == DeadClosed
    ensures After(Living(s, t, life), Srv.Unlist(t))
         == Living(s.(sessions := s.sessions - {s.tunnels[t].sid}), t, Step(life, Fire))
  {
  }

  lemma ReleasedIs(s: Srv.Server, t: nat, life: State<nat>)
    requires t < |s.tunnels| && life.core.once == Firing
    ensures After(Living(s, t, life), Srv.Release(t))
         == Living(s, t, Step(life, Finish)).(pool := Pool.Release(s.pool, s.tunnels[t].ip))
  {
  }

  lemma LivingEnds(s: Srv.Server, t: nat, life: State<nat>)
    requires t < |s.tunnels| && life.core.once == DeadClosed
    ensures After(After(Living(s, t, life), Srv.Unlist(t)), Srv.Release(t)) == Over(s, t, Step(Step(life, Fire), Finish))
  {
    UnlistedIs(s, t, life);
    ReleasedIs(s.(sessions := s.sessions - {s.tunnels[t].sid}), t, Step(life, Fire));
  }

  /** markDead, onEmpty included, run without interruption on the server. */
  function TearDown(s: Srv.Server, t: nat): (s': Srv.Server)
    ensures |s'.tunnels| == |s.tunnels|
  {
    var dead := After(After(After(s, Srv.Life(t, EnterOnce)), Srv.Life(t, SetClosed)), Srv.Life(t, CloseDead));
    After(After(dead, Srv.Unlist(t)), Srv.Release(t))
  }

  function DyingLife(life: State<nat>): State<nat> {
    Step(Step(Step(life, EnterOnce), SetClosed), CloseDead)
  }

  function DeadLife(life: State<nat>): State<nat> {
    Step(Step(DyingLife(life), Fire), Finish)
  }

  lemma DeadLifeIs(life: State<nat>)
    requires life.core.once == Idle && life.owed > 0
    ensures DyingLife(life).core.once == DeadClosed && DeadLife(life).core == MarkDead(life.core)
  {
    var entered := Step(life, EnterOnce);
    assert entered.core == life.core.(once := Entered);
    var dying := Step(Step(entered, SetClosed), CloseDead);
    assert dying.core == life.core.(closed := true, dead := true, once := DeadClosed);
  }

  lemma TearDownIs(s: Srv.Server, t: nat, life: State<nat>)
    requires t < |s.tunnels| && life.core.once == Idle && life.owed > 0
    ensures TearDown(Living(s, t, life), t) == Over(s, t, DeadLife(life))
  {
    DeadLifeIs(life);
    LivingStep(s, t, life, EnterOnce);
    LivingStep(s, t, Step(life, EnterOnce), SetClosed);
    LivingStep(s, t, Step(Step(life, EnterOnce), SetClosed), CloseDead);
    LivingEnds(s, t, DyingLife(life));
  }

  /** removeChannel without interruption: whoever removes the last channel runs the teardown. */
  function DropOn(s: Srv.Server, t: nat, idx: int): (s1: Srv.Server)
    requires t < |s.tunnels|
    ensures |s1.tunnels| == |s.tunnels|
  {
    var s' := After(s, Srv.Life(t, Remove(idx)));
    if idx in s.tunnels[t].life.core.channels && s.tunnels[t].life.core.channels.Keys == {idx} then TearDown(s', t) else s'
  }

  /** WritePacket's loop on a session's tunnel, and whether the packet was sent. */
  function WriteOn(s: Srv.Server, t: nat, h: u32, good: set<int>, tries: nat): (r: (Srv.Server, bool))
    requires t < |s.tunnels| && tries <= MAX_TRIES
    ensures |r.0.tunnels| == |s.tunnels|
    decreases MAX_TRIES - tries
  {
    var order := s.tunnels[t].life.core.order;
    if tries == MAX_TRIES || order == [] then (s, false)
    else
      var idx := Pick(order, h, tries);
      if idx in good then (s, true)
      else
        WriteOn(DropOn(s, t, idx), t, h, good, tries + 1)
  }

  /** Close without interruption. */
  function CloseOn(s: Srv.Server, t: nat): (s': Srv.Server)
    ensures |s'.tunnels| == |s.tunnels|
  {
    TearDown(After(s, Srv.Life(t, CloseAll)), t)
  }

  /** dispatch's last step on the server. */
  function ForwardOn(s: Srv.Server, t: nat, h: u32, good: set<int>): Srv.Server
    requires t < |s.tunnels|
  {
    var (s', sent) := WriteOn(s, t, h, good, 0);
    if sent then s' else CloseOn(s', t)
  }

  /** The last channel of the tunnel is the one at idx. */
  predicate Last(life: State<nat>, idx: int) {
    idx in life.core.channels && life.core.channels.Keys == {idx}
  }

  /** The tunnel after removeChannel without interruption. */
  function DroppedLife(life: State<nat>, idx: int): State<nat> {
    if Last(life, idx) then DeadLife(Step(life, Remove(idx))) else Step(life, Remove(idx))
  }

  lemma RemovedLife(life: State<nat>, idx: int)
    requires life.core.once == Idle
    ensures var removed := Step(life, Remove(idx));
            && removed.core == Detach(life.core, idx) && removed.core.once == Idle
            && (Last(life, idx) <==> idx in life.core.channels && removed.core.channels == map[])
            && (Last(life, idx) ==> removed.owed > 0)
  {
    var removed := Step(life, Remove(idx));
    if idx in life.core.channels {
      assert removed.core.channels.Keys == life.core.channels.Keys - {idx};
      if removed.core.channels == map[] {
        forall i | i in life.core.channels ensures i == idx {
          assert i == idx || i in removed.core.channels;
        }
        assert life.core.channels.Keys == {idx};
      }
    }
  }

  lemma DroppedLifeIs(life: State<nat>, idx: int)
    requires life.core.once == Idle && Listed(life.core)
    ensures DroppedLife(life, idx).core == Drop(life.core, idx) && Listed(Drop(life.core, idx))
    ensures var left := DroppedLife(life, idx).core;
            if Last(life, idx) then left.once == Done && left.channels == map[] && left.order == [] else left.once == Idle
  {
    RemovedLife(life, idx);
    DetachKeepsListed(life.core, idx);
    if Last(life, idx) {
      DeadLifeIs(Step(life, Remove(idx)));
      NothingListed(Drop(life.core, idx));
    }
  }

  lemma NothingListed<C>(t: Core<C>)
    requires Listed(t) && t.channels == map[]
    ensures t.order == []
  {
    if t.order != [] {
      ListedAt(t, 0);
    }
  }

  lemma DropOnIs(s: Srv.Server, t: nat, life: State<nat>, idx: int)
    requires t < |s.tunnels| && life.core.once == Idle
    ensures DropOn(Living(s, t, life), t, idx)
         == if Last(life, idx) then Over(s, t, DroppedLife(life, idx)) else Living(s, t, DroppedLife(life, idx))
  {
    LivingStep(s, t, life, Remove(idx));
    RemovedLife(life, idx);
    if Last(life, idx) {
      TearDownIs(s, t, Step(life, Remove(idx)));
    }
  }

  /** One turn of the loop. */
  lemma WriteOnTurn(s: Srv.Server, t: nat, h: u32, good: set<int>, tries: nat)
    requires t < |s.tunnels| && tries < MAX_TRIES && s.tunnels[t].life.core.order != []
    ensures var idx := Pick(s.tunnels[t].life.core.order, h, tries);
            WriteOn(s, t, h, good, tries) ==
              if idx in good then (s, true) else WriteOn(DropOn(s, t, idx), t, h, good, tries + 1)
  {
  }

  /** The tunnel after the loop. */
  function LoopLife(life: State<nat>, h: u32, good: set<int>, tries: nat): State<nat>
    requires tries <= MAX_TRIES
    decreases MAX_TRIES - tries
  {
    if tries == MAX_TRIES || life.core.order == [] || Pick(life.core.order, h, tries) in good then life
    else LoopLife(DroppedLife(life, Pick(life.core.order, h, tries)), h, good, tries + 1)
  }

  /** The loop is over before its turn, or in it. */
  predicate Stops(t: Core<nat>, h: u32, good: set<int>, tries: nat)
    requires tries <= MAX_TRIES
  {
    tries == MAX_TRIES || t.order == [] || Pick(t.order, h, tries) in good
  }

  lemma LoopStops(life: State<nat>, h: u32, good: set<int>, tries: nat)
    requires tries <= MAX_TRIES && Stops(life.core, h, good, tries)
    ensures LoopLife(life, h, good, tries) == life && Attempt(life.core, h, good, tries).0 == life.core
  {
  }

  lemma LoopGoesOn(life: State<nat>, h: u32, good: set<int>, tries: nat)
    requires life.core.once == Idle && Listed(life.core) && tries < MAX_TRIES && !Stops(life.core, h, good, tries)
    ensures var next := DroppedLife(life, Pick(life.core.order, h, tries));
            && LoopLife(life, h, good, tries) == LoopLife(next, h, good, tries + 1)
            && Attempt(life.core, h, good, tries) == Attempt(next.core, h, good, tries + 1)
  {
    AttemptTurn(life.core, h, good, tries);
    DroppedLifeIs(life, Pick(life.core.order, h, tries));
  }

  lemma {:induction false} LoopLifeIs(life: State<nat>, h: u32, good: set<int>, tries: nat)
    requires tries <= MAX_TRIES && Listed(life.core)
    requires life.core.once == Idle || (life.core.once == Done && life.core.channels == map[] && life.core.order == [])
    ensures var left := LoopLife(life, h, good, tries).core;
            && left == Attempt(life.core, h, good, tries).0
            && (left.once == Idle || (left.once == Done && left.channels == map[]))
    decreases MAX_TRIES - tries
  {
    if Stops(life.core, h, good, tries) {
      LoopStops(life, h, good, tries);
    } else {
      LoopGoesOn(life, h, good, tries);
      DroppedLifeIs(life, Pick(life.core.order, h, tries));
      LoopLifeIs(DroppedLife(life, Pick(life.core.order, h, tries)), h, good, tries + 1);
    }
  }

  /** The server with the tunnel so: the session is over when the teardown has run. */
  function Settled(s: Srv.Server, t: nat, life: State<nat>): Srv.Server
    requires t < |s.tunnels|
  {
    if life.core.once == Idle then Living(s, t, life) else Over(s, t, life)
  }

  /** What the loop leaves of the server, and whether it sends. */
  function Loop(s: Srv.Server, t: nat, life: State<nat>, h: u32, good: set<int>, tries: nat): (Srv.Server, bool)
    requires t < |s.tunnels| && tries <= MAX_TRIES
  {
    (Settled(s, t, LoopLife(life, h, good, tries)), Attempt(life.core, h, good, tries).1.Some?)
  }

  lemma WriteOnStops(s: Srv.Server, t: nat, life: State<nat>, h: u32, good: set<int>, tries: nat)
    requires t < |s.tunnels| && tries <= MAX_TRIES && Stops(life.core, h, good, tries)
    ensures WriteOn(Settled(s, t, life), t, h, good, tries) == Loop(s, t, life, h, good, tries)
  {
  }

  lemma WriteGoesOn(s: Srv.Server, t: nat, life: State<nat>, h: u32, good: set<int>, tries: nat)
    requires t < |s.tunnels| && life.core.once == Idle && Listed(life.core) && tries < MAX_TRIES
    requires !Stops(life.core, h, good, tries)
    ensures var next := DroppedLife(life, Pick(life.core.order, h, tries));
            && Loop(s, t, life, h, good, tries) == Loop(s, t, next, h, good, tries + 1)
            && WriteOn(Settled(s, t, life), t, h, good, tries) == WriteOn(Settled(s, t, next), t, h, good, tries + 1)
  {
    var idx := Pick(life.core.order, h, tries);
    LoopGoesOn(life, h, good, tries);
    WriteOnTurn(Settled(s, t, life), t, h, good, tries);
    DropOnIs(s, t, life, idx);
    DroppedLifeIs(life, idx);
  }

  lemma {:induction false} WriteOnIs(s: Srv.Server, t: nat, life: State<nat>, h: u32, good: set<int>, tries: nat)
    requires t < |s.tunnels| && tries <= MAX_TRIES && Listed(life.core)
    requires life.core.once == Idle || life.core.order == []
    ensures WriteOn(Settled(s, t, life), t, h, good, tries) == Loop(s, t, life, h, good, tries)
    decreases MAX_TRIES - tries
  {
    if Stops(life.core, h, good, tries) {
      WriteOnStops(s, t, life, h, good, tries);
    } else {
      WriteGoesOn(s, t, life, h, good, tries);
      DroppedLifeIs(life, Pick(life.core.order, h, tries));
      WriteOnIs(s, t, DroppedLife(life, Pick(life.core.order, h, tries)), h, good, tries + 1);
    }
  }

  /** From s to s' the session of tunnel t ended, and no other changed. */
  ghost predicate Ended(s: Srv.Server, t: nat, s': Srv.Server)
    requires t < |s.tunnels|
  {
    && |s'.tunnels| == |s.tunnels| && (forall u :: 0 <= u < |s.tunnels| && u != t ==> s'.tunnels[u] == s.tunnels[u])
    && s'.tunnels[t].life.core.channels == map[] && Srv.Released(s'.tunnels[t])
    && s.tunnels[t].sid in s.sessions && s'.sessions == s.sessions - {s.tunnels[t].sid}
    && s.tunnels[t].ip in s.pool.used && s'.pool.used == s.pool.used - {s.tunnels[t].ip}
    && s.tunnels[t].ip in s'.pool.free
  }

  /** The address of a tunnel not torn down is in use, and a release frees it. */
  lemma AddressComesBack(s: Srv.Server, hosts: set<u32>, t: nat)
    requires Srv.Inv(s, hosts) && t < |s.tunnels| && s.tunnels[t].life.core.once == Idle
    ensures var ip, pool := s.tunnels[t].ip, Pool.Release(s.pool, s.tunnels[t].ip);
            ip in s.pool.used && pool.used == s.pool.used - {ip} && ip in pool.free
  {
    var ip := s.tunnels[t].ip;
    assert Srv.View(s).grants[t] == Pool.Grant(ip, false);
    Pool.ReleaseKeepsPartition(s.pool, hosts, ip);
    assert (s.pool.free + [ip])[|s.pool.free|] == ip;
  }

  lemma SessionIsThere(s: Srv.Server, hosts: set<u32>, t: nat)
    requires Srv.Inv(s, hosts) && t < |s.tunnels| && s.tunnels[t].life.core.once == Idle
    ensures s.tunnels[t].sid in s.sessions
  {
    assert !Srv.Unlisted(s.tunnels[t]);
  }

  lemma OverIsEnded(s: Srv.Server, hosts: set<u32>, t: nat, life: State<nat>)
    requires Srv.Inv(s, hosts) && t < |s.tunnels| && s.tunnels[t].life.core.once == Idle
    requires life.core.once == Done && life.core.channels == map[]
    ensures Ended(s, t, Over(s, t, life))
  {
    AddressComesBack(s, hosts, t);
    SessionIsThere(s, hosts, t);
  }

  lemma CloseOnLiving(s: Srv.Server, t: nat, life: State<nat>) returns (life': State<nat>)
    requires t < |s.tunnels| && life.core.once == Idle
    ensures life'.core.once == Done && life'.core.channels == map[]
    ensures CloseOn(Living(s, t, life), t) == Over(s, t, life')
  {
    var cleared := Step(life, CloseAll);
    life' := DeadLife(cleared);
    LivingStep(s, t, life, CloseAll);
    DeadLifeIs(cleared);
    TearDownIs(s, t, cleared);
  }

  lemma CloseOnOver(s: Srv.Server, t: nat, life: State<nat>) returns (life': State<nat>)
    requires t < |s.tunnels| && life.core.once == Done && life.core.channels == map[]
    ensures life'.core.once == Done && life'.core.channels == map[]
    ensures CloseOn(Over(s, t, life), t) == Over(s, t, life')
  {
    var cleared := Step(life, CloseAll);
    life' := Step(cleared, EnterOnce);
    OverStep(s, t, life, CloseAll);
    OverStep(s, t, cleared, EnterOnce);
    DoneStays(life', SetClosed);
    DoneStays(life', CloseDead);
    OverStep(s, t, life', SetClosed);
    OverStep(s, t, life', CloseDead);
    OverRests(s, t, life');
  }

  lemma OverStep(s: Srv.Server, t: nat, life: State<nat>, e: Event<nat>)
    requires t < |s.tunnels| && !e.Add? && !e.Fire? && !e.Finish?
    ensures After(Over(s, t, life), Srv.Life(t, e)) == Over(s, t, Step(life, e))
  {
  }

  lemma DoneStays(life: State<nat>, e: Event<nat>)
    requires life.core.once == Done && (e.SetClosed? || e.CloseDead?)
    ensures Step(life, e) == life
  {
  }

  lemma OverRests(s: Srv.Server, t: nat, life: State<nat>)
    requires t < |s.tunnels| && life.core.once == Done
    ensures After(Over(s, t, life), Srv.Unlist(t)) == After(Over(s, t, life), Srv.Release(t)) == Over(s, t, life)
  {
  }

  /** Close ends what is left of the session; of one that is over it changes nothing but the account of owed teardowns.
      */
  lemma CloseOnSettled(s: Srv.Server, t: nat, life: State<nat>) returns (life': State<nat>)
    requires t < |s.tunnels| && (life.core.once == Idle || (life.core.once == Done && life.core.channels == map[]))
    ensures life'.core.once == Done && life'.core.channels == map[]
    ensures CloseOn(Settled(s, t, life), t) == Over(s, t, life')
  {
    if life.core.once == Idle {
      life' := CloseOnLiving(s, t, life);
    } else {
      life' := CloseOnOver(s, t, life);
    }
  }

  /** A packet its tunnel refuses ends the session: its channels are gone, its address is free again, and every other
      tunnel is as it was. One that no channel accepts, as when it exceeds a record, is always refused. */
  lemma RefusedPacketEndsTheSession(s: Srv.Server, hosts: set<u32>, t: nat, h: u32, good: set<int>)
    requires Srv.Inv(s, hosts) && t < |s.tunnels| && s.tunnels[t].life.core.once == Idle
    ensures WriteOn(s, t, h, good, 0).1 <==> Attempt(s.tunnels[t].life.core, h, good, 0).1.Some?
    ensures !WriteOn(s, t, h, good, 0).1 ==> Ended(s, t, ForwardOn(s, t, h, good))
    ensures good == {} ==> !WriteOn(s, t, h, good, 0).1
  {
    var life := s.tunnels[t].life;
    assert Settled(s, t, life) == s;
    WriteOnIs(s, t, life, h, good, 0);
    LoopLifeIs(life, h, good, 0);
    SendsExactly(life.core, h, good, 0);
    if Attempt(life.core, h, good, 0).1.None? {
      var last := CloseOnSettled(s, t, LoopLife(life, h, good, 0));
      OverIsEnded(s, hosts, t, last);
    }
  }
}
