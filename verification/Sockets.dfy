/** How many sockets a session keeps open (maxChannelsPerSession in internal/transport/wire.go). */
module Sockets {
  import opened Address
  import opened Auth
  import opened Bytes
  import opened Handshake
  import opened Sessions
  import L = Lifecycle
  import Pool

  /** Whether an event attaches a connection under an index that is live in its tunnel. */
  predicate Overwrites(s: Server, e: Event) {
    && e.Attach? && (e.t, e.idx) in s.pending && e.t < |s.tunnels|
    && !s.tunnels[e.t].life.core.closed && e.idx in s.tunnels[e.t].life.core.channels
  }

  /** How many attaches of a run do that in tunnel t. */
  ghost function Overwritten(s: Server, events: seq<Event>, t: nat): nat
    decreases |events|
  {
    if events == [] then 0
    else (if Overwrites(s, events[0]) && events[0].t == t then 1 else 0) + Overwritten(Step(s, events[0]), events[1..], t)
  }

  /** Open connections of a tunnel beyond those in its map. */
  ghost function Excess(s: Server, t: nat): int {
    if t < |s.tunnels| then |s.tunnels[t].life.open| - |s.tunnels[t].life.core.channels| else 0
  }

  /** Connections are numbered in the order of their attach; a tunnel's map holds distinct open ones. */
  ghost predicate Numbered(s: Server) {
    forall t :: 0 <= t < |s.tunnels| ==> NumberedBelow(s.tunnels[t].life, s.attached)
  }

  /** One tunnel's share of Numbered. */
  ghost predicate NumberedBelow(l: L.State<nat>, n: nat) {
    L.Sound(l) && forall c :: c in l.open ==> c < n
  }

  lemma OpenBelow(l: L.State<nat>, n: nat, e: L.Event<nat>)
    requires NumberedBelow(l, n) && (e.Add? ==> e.c == n)
    ensures NumberedBelow(L.Step(l, e), if e.Add? then n + 1 else n)
    ensures |L.Step(l, e).open| - |L.Step(l, e).core.channels| == |l.open| - |l.core.channels|
            + if e.Add? && !l.core.closed && e.idx in l.core.channels then 1 else 0
  {
    L.OpenStep(l, e);
  }

  lemma LifeNumbered(s: Server, s': Server, t: nat, e: L.Event<nat>, u: nat)
    requires Numbered(s) && t < |s.tunnels| && s'.tunnels == WithLife(s, t, e).tunnels
    requires (e.Add? ==> e.c == s.attached) && s'.attached == s.attached + if e.Add? then 1 else 0
    ensures Numbered(s')
    ensures Excess(s', u) == Excess(s, u)
            + if u == t && e.Add? && !s.tunnels[t].life.core.closed && e.idx in s.tunnels[t].life.core.channels then 1 else 0
  {
    assert NumberedBelow(s.tunnels[t].life, s.attached);
    OpenBelow(s.tunnels[t].life, s.attached, e);
    forall v | 0 <= v < |s'.tunnels| ensures NumberedBelow(s'.tunnels[v].life, s'.attached) {
      assert v != t ==> s'.tunnels[v] == s.tunnels[v] && NumberedBelow(s.tunnels[v].life, s.attached);
    }
  }

  lemma SameLives(s: Server, s': Server, u: nat)
    requires Numbered(s) && s'.attached == s.attached && |s'.tunnels| == |s.tunnels|
    requires forall t :: 0 <= t < |s.tunnels| ==> s'.tunnels[t].life == s.tunnels[t].life
    ensures Numbered(s') && Excess(s', u) == Excess(s, u)
  {
    forall t | 0 <= t < |s'.tunnels| ensures NumberedBelow(s'.tunnels[t].life, s'.attached) {
      assert NumberedBelow(s.tunnels[t].life, s.attached);
    }
  }

  lemma EnterNumbered(s: Server, g: Grant, u: nat)
    requires Numbered(s)
    ensures Numbered(EnterStep(s, g)) && Excess(EnterStep(s, g), u) == Excess(s, u)
  {
    var s' := EnterStep(s, g);
    forall t | 0 <= t < |s'.tunnels| ensures NumberedBelow(s'.tunnels[t].life, s'.attached) {
      if t < |s.tunnels| {
        assert s'.tunnels[t] == s.tunnels[t] && NumberedBelow(s.tunnels[t].life, s.attached);
      } else {
        assert s'.tunnels[t].life == L.Start();
      }
    }
  }

  lemma AttachNumbered(s: Server, u: nat, idx: int, t: nat)
    requires Numbered(s)
    ensures var s' := Step(s, Attach(u, idx));
            Numbered(s') && Excess(s', t) == Excess(s, t) + if Overwrites(s, Attach(u, idx)) && u == t then 1 else 0
  {
    if (u, idx) in s.pending && u < |s.tunnels| {
      LifeNumbered(s, Step(s, Attach(u, idx)), u, L.Add(idx, s.attached), t);
    }
  }

  /** A step of a tunnel's life other than an attach. */
  lemma InsideNumbered(s: Server, e: Event, t: nat)
    requires Numbered(s) && !Idles(s, e) && (e.Life? || e.Unlist? || e.Release?)
    ensures Numbered(Step(s, e)) && Excess(Step(s, e), t) == Excess(s, t)
  {
    match e
    case Life(u, f) => LifeNumbered(s, Step(s, e), u, f, t);
    case Unlist(u) => LifeNumbered(s, Step(s, e), u, L.Fire, t);
    case Release(u) => LifeNumbered(s, Step(s, e), u, L.Finish, t);
  }

  /** A step that touches no tunnel's life. */
  lemma OutsideNumbered(s: Server, e: Event, t: nat)
    requires Numbered(s) && (e.Abandon? || e.StartRoute? || e.StopRoute? || e.Dispatch?)
    ensures Numbered(Step(s, e)) && Excess(Step(s, e), t) == Excess(s, t)
  {
    SameLives(s, Step(s, e), t);
  }

  lemma StepNumbered(s: Server, e: Event, t: nat)
    requires Numbered(s)
    ensures Numbered(Step(s, e))
    ensures Excess(Step(s, e), t) == Excess(s, t) + if Overwrites(s, e) && e.t == t then 1 else 0
  {
    match e
    case Enter(g) => EnterNumbered(s, g, t);
    case Attach(u, idx) => AttachNumbered(s, u, idx, t);
    case _ =>
      if Idles(s, e) {
        IdleStep(s, e);
      } else if e.Life? || e.Unlist? || e.Release? {
        InsideNumbered(s, e, t);
      } else {
        OutsideNumbered(s, e, t);
      }
  }

  lemma {:induction false} RunNumbered(s: Server, events: seq<Event>, t: nat)
    requires Numbered(s)
    ensures Numbered(Run(s, events)) && Excess(Run(s, events), t) == Excess(s, t) + Overwritten(s, events, t)
    decreases |events|
  {
    if events != [] {
      StepNumbered(s, events[0], t);
      RunNumbered(Step(s, events[0]), events[1..], t);
    }
  }

  /** In every run of the server: a tunnel has open what is in its map and one connection more for every attach
      that hit a live index. So the cap on channels is a cap on open connections in the runs without such an attach,
      and there alone the map is all that is open. */
  lemma OpenSocketsExactly(prefix: nat, pool: Pool.PoolState, hosts: set<u32>, events: seq<Event>, t: nat)
    requires Pool.Partition(pool, hosts) && pool.used == {}
    ensures var s := Run(Boot(prefix, pool), events);
            var over := Overwritten(Boot(prefix, pool), events, t);
            t < |s.tunnels| ==>
              && |s.tunnels[t].life.open| == |s.tunnels[t].life.core.channels| + over
              && |s.tunnels[t].life.open| <= MAX_CHANNELS_PER_SESSION + over
              && (over == 0 <==> |s.tunnels[t].life.open| == |s.tunnels[t].life.core.channels|)
  {
    RunNumbered(Boot(prefix, pool), events, t);
    ChannelCapHolds(prefix, pool, hosts, events, t);
  }

  // ------------------------------------------------------------------ a session that piles up connections

  /** n admissions of one session under one index. */
  function Again(g: Grant, n: nat): seq<Event> {
    if n == 0 then [] else Again(g, n - 1) + [Enter(g), Attach(0, g.chanIdx)]
  }

  /** A tunnel's life after n attaches of one index. */
  function Piled(idx: int, n: nat): L.State<nat> {
    L.Run(L.Start<nat>(), L.Reattach(idx, n))
  }

  lemma PiledOnce(idx: int, n: nat)
    ensures Piled(idx, n + 1) == L.Step(Piled(idx, n), L.Add(idx, n))
    ensures !Piled(idx, n).core.closed && |Piled(idx, n).core.channels| <= 1
    ensures n == 0 ==> Piled(idx, n) == L.Start()
  {
    L.ReattachesAre(idx, n);
    L.RunConcat(L.Start<nat>(), L.Reattach(idx, n), [L.Add(idx, n)]);
    L.RunOne(Piled(idx, n), L.Add(idx, n));
  }

  /** One more handler passes the cap's test, the map holding one channel, and attaches. */
  lemma AgainOnce(prefix: nat, ip: u32, t: Tunnel, g: Grant, n: nat)
    requires 0 <= g.chanIdx < MAX_CHANNELS_PER_SESSION && |t.life.core.channels| <= 1
    ensures var s := Single(prefix, Pool.PoolState([], {ip}), map[g.sid := 0], map[], t, n);
            Step(Step(s, Enter(g)), Attach(0, g.chanIdx))
            == Single(prefix, Pool.PoolState([], {ip}), map[g.sid := 0], map[], t.(life := L.Step(t.life, L.Add(g.chanIdx, n))), n + 1)
  {
    var s := Single(prefix, Pool.PoolState([], {ip}), map[g.sid := 0], map[], t, n);
    EnterAgain(s, g);
    AttachAgain(s, t, g.chanIdx);
  }

  lemma EnterAgain(s: Server, g: Grant)
    requires 0 <= g.chanIdx < MAX_CHANNELS_PER_SESSION && |s.tunnels| == 1 && |s.tunnels[0].life.core.channels| <= 1
    requires g.sid in s.sessions && s.sessions[g.sid] == 0 && s.pending == multiset{}
    ensures Step(s, Enter(g)) == s.(pending := multiset{(0, g.chanIdx)})
  {
    assert multiset{} + multiset{(0 as nat, g.chanIdx)} == multiset{(0, g.chanIdx)};
  }

  lemma AttachAgain(s: Server, t: Tunnel, idx: int)
    requires s.tunnels == [t] && s.pending == multiset{}
    ensures Step(s.(pending := multiset{(0, idx)}), Attach(0, idx))
         == s.(tunnels := [t.(life := L.Step(t.life, L.Add(idx, s.attached)))], attached := s.attached + 1)
  {
    var m: multiset<(nat, int)> := multiset{(0, idx)};
    assert (0, idx) in m && m - multiset{(0, idx)} == multiset{};
  }

  lemma AgainNext(s0: Server, g: Grant, n: nat, s: Server, s': Server)
    requires Run(s0, Again(g, n)) == s && Step(Step(s, Enter(g)), Attach(0, g.chanIdx)) == s'
    ensures Run(s0, Again(g, n + 1)) == s'
  {
    RunConcat(s0, Again(g, n), [Enter(g), Attach(0, g.chanIdx)]);
    RunTwo(s, Enter(g), Attach(0, g.chanIdx));
  }

  /** A server with the one tunnel so treated. */
  function PiledServer(prefix: nat, ip: u32, g: Grant, n: nat): Server {
    var t := Tunnel(g.sid, ip, PrintCidr(ip, prefix), Piled(g.chanIdx, n), NotStarted);
    Single(prefix, Pool.PoolState([], {ip}), map[g.sid := 0], map[], t, n)
  }

  lemma PiledServerNext(prefix: nat, ip: u32, g: Grant, n: nat)
    requires 0 <= g.chanIdx < MAX_CHANNELS_PER_SESSION
    ensures Step(Step(PiledServer(prefix, ip, g, n), Enter(g)), Attach(0, g.chanIdx)) == PiledServer(prefix, ip, g, n + 1)
  {
    PiledOnce(g.chanIdx, n);
    AgainOnce(prefix, ip, Tunnel(g.sid, ip, PrintCidr(ip, prefix), Piled(g.chanIdx, n), NotStarted), g, n);
  }

  lemma PiledServerFirst(prefix: nat, ip: u32, g: Grant)
    requires 0 <= g.chanIdx < MAX_CHANNELS_PER_SESSION
    ensures Step(Step(Boot(prefix, Pool.PoolState([ip], {})), Enter(g)), Attach(0, g.chanIdx)) == PiledServer(prefix, ip, g, 1)
  {
    PiledOnce(g.chanIdx, 0);
    ShortLifeOpens(prefix, ip, g);
  }

  lemma {:induction false} AgainIs(prefix: nat, ip: u32, g: Grant, s0: Server, n: nat)
    requires 0 <= g.chanIdx < MAX_CHANNELS_PER_SESSION && n > 0 && s0 == Boot(prefix, Pool.PoolState([ip], {}))
    ensures Run(s0, Again(g, n)) == PiledServer(prefix, ip, g, n)
    decreases n
  {
    if n == 1 {
      PiledServerFirst(prefix, ip, g);
      AgainNext(s0, g, 0, s0, PiledServer(prefix, ip, g, 1));
    } else {
      AgainIs(prefix, ip, g, s0, n - 1);
      PiledServerNext(prefix, ip, g, n - 1);
      AgainNext(s0, g, n - 1, PiledServer(prefix, ip, g, n - 1), PiledServer(prefix, ip, g, n));
    }
  }

  /** For every n: one client, presenting one index n times with fresh tokens, has n connections open and one
      channel, and all but one of them stay open when the tunnel is closed. */
  lemma SocketsPileUp(prefix: nat, ip: u32, g: Grant, n: nat)
    requires 0 <= g.chanIdx < MAX_CHANNELS_PER_SESSION && n > 0
    ensures var s := Run(Boot(prefix, Pool.PoolState([ip], {})), Again(g, n));
            && |s.tunnels| == 1
            && |s.tunnels[0].life.open| == n && |s.tunnels[0].life.core.channels| == 1
            && |L.Step(s.tunnels[0].life, L.CloseAll).open| == n - 1
  {
    AgainIs(prefix, ip, g, Boot(prefix, Pool.PoolState([ip], {})), n);
    L.ReattachesPileUp(g.chanIdx, n);
  }
}
