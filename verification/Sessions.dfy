/** The server as a whole: sessions, tunnels, addresses and routes under every interleaving
    (internal/transport/server.go, internal/server/server.go, internal/server/pool.go). */
module Sessions {
  import opened Address
  import opened Auth
  import opened Bytes
  import opened Handshake
  import opened Lists
  import opened Wrappers
  import L = Lifecycle
  import Pool

  type Sid = seq<u8>

  /** What the locked section of ServeHTTP decides. */
  datatype Outcome = Decoy | Created(t: nat, ip: u32) | Joined(t: nat)

  /** ServeHTTP under the handler's lock: join the session's tunnel unless it has its fill of channels, or reserve
      an address and create tunnel `next`. */
  function Admit(sessions: map<Sid, nat>, pool: Pool.PoolState, sid: Sid, count: nat -> nat, next: nat)
    : (map<Sid, nat>, Pool.PoolState, Outcome)
  {
    if sid in sessions then
      (sessions, pool, if count(sessions[sid]) >= MAX_CHANNELS_PER_SESSION then Decoy else Joined(sessions[sid]))
    else
      var (pool', r) := Pool.Alloc(pool);
      match r
      case None => (sessions, pool', Decoy)
      case Some(ip) => (sessions[sid := next], pool', Created(next, ip))
  }

  /** register, in the routing table. */
  function Register(routes: map<u32, nat>, ip: u32, t: nat): map<u32, nat> {
    routes[ip := t]
  }

  /** unregister: only the tunnel's own entry goes. */
  function Unregister(routes: map<u32, nat>, ip: u32, t: nat): map<u32, nat> {
    if ip in routes && routes[ip] == t then routes - {ip} else routes
  }

  class Handler {
    var sessions: map<Sid, nat>
    const pool: Pool.IpPool

    constructor (pool: Pool.IpPool)
      ensures this.pool == pool && sessions == map[]
    {
      this.pool, sessions := pool, map[];
    }

    method Enter(sid: Sid, count: nat -> nat, next: nat) returns (outcome: Outcome, addr: string, lease: Option<Pool.Lease>)
      modifies this, pool
      ensures (sessions, pool.State(), outcome) == Admit(old(sessions), old(pool.State()), sid, count, next)
      ensures outcome.Created? <==> lease.Some?
      ensures outcome.Created? ==> addr == PrintCidr(outcome.ip, pool.prefix) && lease.value.pool == pool && lease.value.ip == outcome.ip && !lease.value.done
    {
      addr, lease := "", None;
      if sid in sessions {
        var t := sessions[sid];
        outcome := if count(t) >= MAX_CHANNELS_PER_SESSION then Decoy else Joined(t);
        return;
      }
      var r := pool.Reserve();
      match r
      case None => outcome := Decoy;
      case Some((cidr, ip, release)) =>
        sessions := sessions[sid := next];
        outcome, addr, lease := Created(next, ip), cidr, Some(release);
    }

    /** onEmpty: forget the session, then give the address back. */
    method OnEmpty(sid: Sid, lease: Pool.Lease)
      requires lease.pool == pool
      modifies this, pool, lease
      ensures sessions == old(sessions) - {sid}
      ensures pool.State() == if old(lease.done) then old(pool.State()) else Pool.Release(old(pool.State()), lease.ip)
    {
      sessions := sessions - {sid};
      lease.Fire();
    }
  }

  class Router {
    var routes: map<u32, nat>

    constructor ()
      ensures routes == map[]
    {
      routes := map[];
    }

    /** How handleConn starts: read the address back from the assignment and claim its route. */
    method Start(addr: string, t: nat, mapped: string -> Option<u32>) returns (ip: Option<u32>)
      modifies this
      ensures ip == ParseIP(HostPart(addr), mapped)
      ensures routes == if ip.None? then old(routes) else Register(old(routes), ip.value, t)
    {
      ip := ParseHostIP(addr, mapped);
      if ip.Some? {
        routes := routes[ip.value := t];
      }
    }

    method Stop(ip: u32, t: nat)
      modifies this
      ensures routes == Unregister(old(routes), ip, t)
    {
      if ip in routes && routes[ip] == t {
        routes := routes - {ip};
      }
    }
  }

  // ------------------------------------------------------------------ the machine

  /** Where a tunnel's handleConn is. */
  datatype Route = NotStarted | Registered | Gone

  datatype Tunnel = Tunnel(sid: Sid, ip: u32, addr: string, life: L.State<nat>, route: Route)

  datatype Server = Server(
    prefix: nat,
    pool: Pool.PoolState,
    sessions: map<Sid, nat>,
    tunnels: seq<Tunnel>,              // every tunnel ever created
    routes: map<u32, nat>,
    pending: multiset<(nat, int)>,     // handlers between the locked section and addChannel
    attached: nat,                     // connections attached so far
    handed: seq<(Packet, nat)>)        // packets dispatched, each with the tunnel it was given to

  datatype Event =
    | Enter(grant: Grant)
    | Attach(t: nat, idx: int)
    | Abandon(t: nat, idx: int)
    | Life(t: nat, e: L.Event<nat>)    // detach, close, and the steps of markDead before onEmpty
    | Unlist(t: nat)                   // onEmpty: delete the session
    | Release(t: nat)                  // onEmpty: give the address back
    | StartRoute(t: nat)
    | StopRoute(t: nat)
    | Dispatch(p: Packet)

  function Boot(prefix: nat, pool: Pool.PoolState): Server {
    Server(prefix, pool, map[], [], map[], multiset{}, 0, [])
  }

  function ChannelCount(s: Server, t: nat): nat {
    if t < |s.tunnels| then |s.tunnels[t].life.core.channels| else 0
  }

  function WithLife(s: Server, t: nat, e: L.Event<nat>): Server
    requires t < |s.tunnels|
  {
    s.(tunnels := s.tunnels[t := s.tunnels[t].(life := L.Step(s.tunnels[t].life, e))])
  }

  function EnterStep(s: Server, g: Grant): Server {
    if !(0 <= g.chanIdx < MAX_CHANNELS_PER_SESSION) then s
    else
      var (sessions', pool', outcome) := Admit(s.sessions, s.pool, g.sid, t => ChannelCount(s, t), |s.tunnels|);
      match outcome
      case Decoy => s
      case Joined(t) => s.(pending := s.pending + multiset{(t, g.chanIdx)})
      case Created(t, ip) =>
        s.(sessions := sessions', pool := pool',
           tunnels := s.tunnels + [Tunnel(g.sid, ip, PrintCidr(ip, s.prefix), L.Start(), NotStarted)],
           pending := s.pending + multiset{(t, g.chanIdx)})
  }

  function Step(s: Server, e: Event): Server {
    match e
    case Enter(g) => EnterStep(s, g)
    case Attach(t, idx) =>
      if (t, idx) !in s.pending || t >= |s.tunnels| then s
      else WithLife(s, t, L.Add(idx, s.attached)).(pending := s.pending - multiset{(t, idx)}, attached := s.attached + 1)
    case Abandon(t, idx) =>
      s.(pending := s.pending - multiset{(t, idx)})
    case Life(t, e) =>
      if t >= |s.tunnels| || e.Add? || e.Fire? || e.Finish? then s else WithLife(s, t, e)
    case Unlist(t) =>
      if t >= |s.tunnels| || s.tunnels[t].life.core.once != L.DeadClosed then s
      else WithLife(s, t, L.Fire).(sessions := s.sessions - {s.tunnels[t].sid})
    case Release(t) =>
      if t >= |s.tunnels| || s.tunnels[t].life.core.once != L.Firing then s
      else WithLife(s, t, L.Finish).(pool := Pool.Release(s.pool, s.tunnels[t].ip))
    case StartRoute(t) =>  // the address is printed text, which reads the same whatever IPv6 texts mean (CidrRoundTrip)
      if t >= |s.tunnels| || s.tunnels[t].route != NotStarted then s
      else
        (match ParseQuad(HostPart(s.tunnels[t].addr))
         case None => s
         case Some(ip) =>
           s.(routes := Register(s.routes, ip, t), tunnels := s.tunnels[t := s.tunnels[t].(route := Registered)]))
    case StopRoute(t) =>
      if t >= |s.tunnels| || s.tunnels[t].route != Registered then s
      else
        s.(routes := Unregister(s.routes, s.tunnels[t].ip, t), tunnels := s.tunnels[t := s.tunnels[t].(route := Gone)])
    case Dispatch(p) =>
      var dst := Ipv4Dst(p);
      if dst.Some? && dst.value in s.routes then s.(handed := s.handed + [(p, s.routes[dst.value])]) else s
  }

  function Run(s: Server, events: seq<Event>): Server
    decreases |events|
  {
    if events == [] then s else Run(Step(s, events[0]), events[1..])
  }

  lemma {:induction false} RunConcat(s: Server, a: seq<Event>, b: seq<Event>)
    ensures Run(s, a + b) == Run(Run(s, a), b)
    decreases |a|
  {
    if a == [] {
      assert a + b == b;
    } else {
      assert (a + b)[1..] == a[1..] + b;
      RunConcat(Step(s, a[0]), a[1..], b);
    }
  }

  lemma RunTwo(s: Server, a: Event, b: Event)
    ensures Run(s, [a, b]) == Step(Step(s, a), b)
  {
    assert [a, b][1..] == [b] && [b][1..] == [];
    assert Run(Step(Step(s, a), b), []) == Step(Step(s, a), b);
    assert Run(Step(s, a), [b]) == Run(Step(Step(s, a), b), []);
  }

  // ------------------------------------------------------------------ invariant

  /** The session entry of this tunnel has been deleted. */
  predicate Unlisted(t: Tunnel) {
    t.life.core.once == L.Firing || t.life.core.once == L.Done
  }

  /** The address of this tunnel has been given back. */
  predicate Released(t: Tunnel) {
    t.life.core.once == L.Done
  }

  /** The server's addresses, seen as a history of the pool: a tunnel is a reservation. */
  function View(s: Server): Pool.History {
    Pool.History(s.pool, seq(|s.tunnels|, i requires 0 <= i < |s.tunnels| => Pool.Grant(s.tunnels[i].ip, Released(s.tunnels[i]))))
  }

  ghost predicate TunnelOk(prefix: nat, t: Tunnel) {
    && L.Inv(t.life)
    && (forall i :: i in t.life.core.channels ==> 0 <= i < MAX_CHANNELS_PER_SESSION)
    && t.addr == PrintCidr(t.ip, prefix)
  }

  /** `sessions` maps each session id to the one tunnel of that id not yet unlisted. */
  ghost predicate SessionsExact(s: Server) {
    && (forall sid :: sid in s.sessions ==>
          s.sessions[sid] < |s.tunnels| && s.tunnels[s.sessions[sid]].sid == sid && !Unlisted(s.tunnels[s.sessions[sid]]))
    && (forall t :: 0 <= t < |s.tunnels| && !Unlisted(s.tunnels[t]) ==>
          s.tunnels[t].sid in s.sessions && s.sessions[s.tunnels[t].sid] == t)
  }

  /** A route leads to a registered tunnel that was assigned that address; so did every packet handed over. */
  ghost predicate RoutesOk(s: Server) {
    && (forall ip :: ip in s.routes ==>
          s.routes[ip] < |s.tunnels| && s.tunnels[s.routes[ip]].ip == ip && s.tunnels[s.routes[ip]].route == Registered)
    && (forall k :: 0 <= k < |s.handed| ==> s.handed[k].1 < |s.tunnels| && Ipv4Dst(s.handed[k].0) == Some(s.tunnels[s.handed[k].1].ip))
  }

  ghost predicate TunnelsOk(s: Server) {
    forall t :: 0 <= t < |s.tunnels| ==> TunnelOk(s.prefix, s.tunnels[t])
  }

  ghost predicate PendingOk(s: Server) {
    forall p :: p in s.pending ==> p.0 < |s.tunnels| && 0 <= p.1 < MAX_CHANNELS_PER_SESSION
  }

  ghost predicate Inv(s: Server, hosts: set<u32>) {
    && Pool.Inv(View(s), hosts)
    && TunnelsOk(s)
    && PendingOk(s)
    && SessionsExact(s)
    && RoutesOk(s)
  }

  /** One step of one tunnel. */
  lemma LifeStepOk(prefix: nat, t: Tunnel, e: L.Event<nat>)
    requires TunnelOk(prefix, t) && (e.Add? ==> 0 <= e.idx < MAX_CHANNELS_PER_SESSION)
    ensures var t' := t.(life := L.Step(t.life, e));
            && TunnelOk(prefix, t')
            && (!e.Fire? ==> Unlisted(t') == Unlisted(t))
            && (!e.Finish? ==> Released(t') == Released(t))
  {
    L.StepKeepsInv(t.life, e);
  }

  /** s with tunnel t replaced by t', which keeps its identity. */
  ghost predicate Replaces(s: Server, s': Server, t: nat, t': Tunnel) {
    && t < |s.tunnels| && s'.tunnels == s.tunnels[t := t'] && s'.prefix == s.prefix
    && t'.sid == s.tunnels[t].sid && t'.ip == s.tunnels[t].ip
  }

  lemma ReplacedView(s: Server, s': Server, t: nat, t': Tunnel)
    requires Replaces(s, s', t, t')
    ensures View(s').grants == View(s).grants[t := Pool.Grant(t'.ip, Released(t'))]
  {
  }

  lemma ReplacedTunnelsOk(s: Server, s': Server, t: nat, t': Tunnel)
    requires TunnelsOk(s) && Replaces(s, s', t, t') && TunnelOk(s.prefix, t')
    ensures TunnelsOk(s')
  {
  }

  lemma ReplacedSessions(s: Server, s': Server, t: nat, t': Tunnel)
    requires SessionsExact(s) && Replaces(s, s', t, t')
    requires s'.sessions == if Unlisted(t') && !Unlisted(s.tunnels[t]) then s.sessions - {t'.sid} else s.sessions
    requires Unlisted(s.tunnels[t]) ==> Unlisted(t')
    ensures SessionsExact(s')
  {
  }

  lemma ReplacedRoutes(s: Server, s': Server, t: nat, t': Tunnel)
    requires RoutesOk(s) && Replaces(s, s', t, t') && t'.route == s.tunnels[t].route
    requires s'.routes == s.routes && s'.handed == s.handed
    ensures RoutesOk(s')
  {
  }

  lemma SameGrants(s: Server, t: nat)
    requires t < |s.tunnels|
    ensures View(s).grants[t := Pool.Grant(s.tunnels[t].ip, Released(s.tunnels[t]))] == View(s).grants
  {
  }

  /** A step inside one tunnel that neither unlists nor releases it. */
  lemma LifeKeeps(s: Server, hosts: set<u32>, t: nat, e: L.Event<nat>)
    requires Inv(s, hosts) && t < |s.tunnels| && !e.Fire? && !e.Finish?
    requires e.Add? ==> 0 <= e.idx < MAX_CHANNELS_PER_SESSION
    ensures Inv(WithLife(s, t, e), hosts)
    ensures View(WithLife(s, t, e)) == View(s)
  {
    var s', t' := WithLife(s, t, e), s.tunnels[t].(life := L.Step(s.tunnels[t].life, e));
    LifeStepOk(s.prefix, s.tunnels[t], e);
    ReplacedView(s, s', t, t');
    SameGrants(s, t);
    ReplacedTunnelsOk(s, s', t, t');
    ReplacedSessions(s, s', t, t');
    ReplacedRoutes(s, s', t, t');
  }

  lemma UnlistKeeps(s: Server, hosts: set<u32>, t: nat)
    requires Inv(s, hosts) && t < |s.tunnels| && s.tunnels[t].life.core.once == L.DeadClosed
    ensures Inv(Step(s, Unlist(t)), hosts) && View(Step(s, Unlist(t))) == View(s)
  {
    UnlistIs(s, t);
    UnlistedKeeps(s, hosts, t, WithLife(s, t, L.Fire).(sessions := s.sessions - {s.tunnels[t].sid}));
  }

  lemma UnlistIs(s: Server, t: nat)
    requires t < |s.tunnels| && s.tunnels[t].life.core.once == L.DeadClosed
    ensures Step(s, Unlist(t)) == WithLife(s, t, L.Fire).(sessions := s.sessions - {s.tunnels[t].sid})
  {
  }

  lemma UnlistedKeeps(s: Server, hosts: set<u32>, t: nat, s': Server)
    requires Inv(s, hosts) && t < |s.tunnels| && s.tunnels[t].life.core.once == L.DeadClosed
    requires s' == WithLife(s, t, L.Fire).(sessions := s.sessions - {s.tunnels[t].sid})
    ensures Inv(s', hosts) && View(s') == View(s)
  {
    var t' := s.tunnels[t].(life := L.Step(s.tunnels[t].life, L.Fire));
    LifeStepOk(s.prefix, s.tunnels[t], L.Fire);
    ReplacedKeepsView(s, s', t, t');
    ReplacedTunnelsOk(s, s', t, t');
    ReplacedSessions(s, s', t, t');
    ReplacedRoutes(s, s', t, t');
  }

  /** A replaced tunnel that is released neither before nor after, or both, leaves the pool's view as it was. */
  lemma ReplacedKeepsView(s: Server, s': Server, t: nat, t': Tunnel)
    requires Replaces(s, s', t, t') && s'.pool == s.pool && Released(t') == Released(s.tunnels[t])
    ensures View(s') == View(s)
  {
    ReplacedView(s, s', t, t');
    SameGrants(s, t);
  }

  /** The pool's side of a release. */
  lemma ReleaseIsGive(s: Server, hosts: set<u32>, t: nat)
    requires Pool.Inv(View(s), hosts) && t < |s.tunnels| && s.tunnels[t].life.core.once == L.Firing
    ensures View(Step(s, Release(t))) == Pool.Step(View(s), Pool.Give(t))
    ensures Pool.Inv(View(Step(s, Release(t))), hosts)
  {
    var s', t' := Step(s, Release(t)), s.tunnels[t].(life := L.Step(s.tunnels[t].life, L.Finish));
    ReplacedView(s, s', t, t');
    Pool.StepKeepsInv(View(s), hosts, Pool.Give(t));
  }

  lemma ReleaseKeeps(s: Server, hosts: set<u32>, t: nat)
    requires Inv(s, hosts) && t < |s.tunnels| && s.tunnels[t].life.core.once == L.Firing
    ensures Inv(Step(s, Release(t)), hosts)
  {
    var s', t' := Step(s, Release(t)), s.tunnels[t].(life := L.Step(s.tunnels[t].life, L.Finish));
    ReleaseIsGive(s, hosts, t);
    LifeStepOk(s.prefix, s.tunnels[t], L.Finish);
    ReplacedTunnelsOk(s, s', t, t');
    ReplacedSessions(s, s', t, t');
    ReplacedRoutes(s, s', t, t');
  }

  /** A new tunnel for a session id that has none. */
  ghost predicate Appends(s: Server, s': Server, t': Tunnel) {
    && s'.tunnels == s.tunnels + [t'] && s'.prefix == s.prefix && s'.routes == s.routes && s'.handed == s.handed
    && t'.sid !in s.sessions && !Unlisted(t') && s'.sessions == s.sessions[t'.sid := |s.tunnels|]
  }

  lemma AppendedSessions(s: Server, s': Server, t': Tunnel)
    requires SessionsExact(s) && Appends(s, s', t')
    ensures SessionsExact(s')
  {
  }

  lemma AppendedRest(s: Server, s': Server, t': Tunnel)
    requires TunnelsOk(s) && RoutesOk(s) && Appends(s, s', t') && TunnelOk(s.prefix, t')
    ensures TunnelsOk(s') && RoutesOk(s')
    ensures View(s').grants == View(s).grants + [Pool.Grant(t'.ip, Released(t'))]
  {
  }

  lemma EnterKeeps(s: Server, hosts: set<u32>, g: Grant)
    requires Inv(s, hosts)
    ensures Inv(EnterStep(s, g), hosts)
    ensures View(EnterStep(s, g)) == View(s) || View(EnterStep(s, g)) == Pool.Step(View(s), Pool.Take)
  {
    if 0 <= g.chanIdx < MAX_CHANNELS_PER_SESSION && g.sid !in s.sessions && s.pool.free != [] {
      CreateKeeps(s, hosts, g);
    } else {
      EnterCreatesNothing(s, g);
      if EnterStep(s, g) != s {
        var p := (s.sessions[g.sid], g.chanIdx);
        PendingKeeps(s, hosts, s.pending + multiset{p}, s.attached);
      }
    }
  }

  lemma EnterCreatesNothing(s: Server, g: Grant)
    requires 0 <= g.chanIdx < MAX_CHANNELS_PER_SESSION && g.sid !in s.sessions ==> s.pool.free == []
    ensures EnterStep(s, g) == s
            || (0 <= g.chanIdx < MAX_CHANNELS_PER_SESSION && g.sid in s.sessions
                && EnterStep(s, g) == s.(pending := s.pending + multiset{(s.sessions[g.sid], g.chanIdx)}))
  {
  }

  lemma EnterCreates(s: Server, g: Grant)
    requires 0 <= g.chanIdx < MAX_CHANNELS_PER_SESSION && g.sid !in s.sessions && s.pool.free != []
    ensures var (pool', r) := Pool.Alloc(s.pool);
            && r.Some?
            && var t' := Tunnel(g.sid, r.value, PrintCidr(r.value, s.prefix), L.Start(), NotStarted);
            EnterStep(s, g) == s.(sessions := s.sessions[g.sid := |s.tunnels|], pool := pool', tunnels := s.tunnels + [t'],
                                  pending := s.pending + multiset{(|s.tunnels|, g.chanIdx)})
  {
  }

  lemma AppendedPending(s: Server, s': Server, t': Tunnel, idx: int)
    requires PendingOk(s) && s'.tunnels == s.tunnels + [t'] && 0 <= idx < MAX_CHANNELS_PER_SESSION
    requires s'.pending == s.pending + multiset{(|s.tunnels|, idx)}
    ensures PendingOk(s')
  {
  }

  lemma CreateKeeps(s: Server, hosts: set<u32>, g: Grant)
    requires Inv(s, hosts) && 0 <= g.chanIdx < MAX_CHANNELS_PER_SESSION && g.sid !in s.sessions && s.pool.free != []
    ensures Inv(EnterStep(s, g), hosts)
    ensures View(EnterStep(s, g)) == Pool.Step(View(s), Pool.Take)
  {
    EnterCreates(s, g);
    var s' := EnterStep(s, g);
    var t' := s'.tunnels[|s.tunnels|];
    AppendedSessions(s, s', t');
    AppendedRest(s, s', t');
    AppendedPending(s, s', t', g.chanIdx);
    Pool.StepKeepsInv(View(s), hosts, Pool.Take);
  }

  lemma PendingKeeps(s: Server, hosts: set<u32>, pending: multiset<(nat, int)>, attached: nat)
    requires Inv(s, hosts) && PendingOk(s.(pending := pending, attached := attached))
    ensures Inv(s.(pending := pending, attached := attached), hosts)
    ensures View(s.(pending := pending, attached := attached)) == View(s)
  {
  }

  lemma StartKeeps(s: Server, hosts: set<u32>, t: nat)
    requires Inv(s, hosts) && t < |s.tunnels| && s.tunnels[t].route == NotStarted
    ensures var s' := Step(s, StartRoute(t));
            && Inv(s', hosts) && View(s') == View(s)
            && s' == s.(routes := s.routes[s.tunnels[t].ip := t], tunnels := s.tunnels[t := s.tunnels[t].(route := Registered)])
  {
    assert TunnelOk(s.prefix, s.tunnels[t]);
    StartIs(s, t);
    StartedKeeps(s, hosts, t, s.(routes := s.routes[s.tunnels[t].ip := t], tunnels := s.tunnels[t := s.tunnels[t].(route := Registered)]));
  }

  lemma StartIs(s: Server, t: nat)
    requires t < |s.tunnels| && s.tunnels[t].route == NotStarted && s.tunnels[t].addr == PrintCidr(s.tunnels[t].ip, s.prefix)
    ensures Step(s, StartRoute(t))
         == s.(routes := s.routes[s.tunnels[t].ip := t], tunnels := s.tunnels[t := s.tunnels[t].(route := Registered)])
  {
    CidrRoundTrip(s.tunnels[t].ip, s.prefix, _ => None);
  }

  lemma StartedKeeps(s: Server, hosts: set<u32>, t: nat, s': Server)
    requires Inv(s, hosts) && t < |s.tunnels| && s.tunnels[t].route == NotStarted
    requires s' == s.(routes := s.routes[s.tunnels[t].ip := t], tunnels := s.tunnels[t := s.tunnels[t].(route := Registered)])
    ensures Inv(s', hosts) && View(s') == View(s)
  {
    assert TunnelOk(s.prefix, s.tunnels[t]);
    var t' := s.tunnels[t].(route := Registered);
    ReplacedKeepsView(s, s', t, t');
    ReplacedTunnelsOk(s, s', t, t');
    ReplacedSessions(s, s', t, t');
    StartedRoutes(s, s', t, t');
  }

  lemma StartedRoutes(s: Server, s': Server, t: nat, t': Tunnel)
    requires RoutesOk(s) && Replaces(s, s', t, t') && s.tunnels[t].route == NotStarted && t'.route == Registered
    requires s'.routes == s.routes[t'.ip := t] && s'.handed == s.handed
    ensures RoutesOk(s')
  {
  }

  lemma StopKeeps(s: Server, hosts: set<u32>, t: nat)
    requires Inv(s, hosts) && t < |s.tunnels| && s.tunnels[t].route == Registered
    ensures Inv(Step(s, StopRoute(t)), hosts) && View(Step(s, StopRoute(t))) == View(s)
  {
    StopIs(s, t);
    StoppedKeeps(s, hosts, t, s.(routes := Unregister(s.routes, s.tunnels[t].ip, t), tunnels := s.tunnels[t := s.tunnels[t].(route := Gone)]));
  }

  lemma StopIs(s: Server, t: nat)
    requires t < |s.tunnels| && s.tunnels[t].route == Registered
    ensures Step(s, StopRoute(t))
         == s.(routes := Unregister(s.routes, s.tunnels[t].ip, t), tunnels := s.tunnels[t := s.tunnels[t].(route := Gone)])
  {
  }

  lemma StoppedKeeps(s: Server, hosts: set<u32>, t: nat, s': Server)
    requires Inv(s, hosts) && t < |s.tunnels| && s.tunnels[t].route == Registered
    requires s' == s.(routes := Unregister(s.routes, s.tunnels[t].ip, t), tunnels := s.tunnels[t := s.tunnels[t].(route := Gone)])
    ensures Inv(s', hosts) && View(s') == View(s)
  {
    assert TunnelOk(s.prefix, s.tunnels[t]);
    var t' := s.tunnels[t].(route := Gone);
    ReplacedKeepsView(s, s', t, t');
    ReplacedTunnelsOk(s, s', t, t');
    ReplacedSessions(s, s', t, t');
    StoppedRoutes(s, s', t, t');
  }

  lemma StoppedRoutes(s: Server, s': Server, t: nat, t': Tunnel)
    requires RoutesOk(s) && Replaces(s, s', t, t')
    requires s'.routes == Unregister(s.routes, t'.ip, t) && s'.handed == s.handed
    ensures RoutesOk(s')
  {
    forall ip | ip in s'.routes
      ensures s'.routes[ip] < |s'.tunnels| && s'.tunnels[s'.routes[ip]].ip == ip && s'.tunnels[s'.routes[ip]].route == Registered
    {
      assert ip in s.routes && s.routes[ip] != t;
    }
  }

  lemma DispatchKeeps(s: Server, hosts: set<u32>, p: Packet)
    requires Inv(s, hosts)
    ensures Inv(Step(s, Dispatch(p)), hosts) && View(Step(s, Dispatch(p))) == View(s)
  {
    DispatchIs(s, p);
    HandedKeeps(s, hosts, Step(s, Dispatch(p)).handed);
  }

  lemma DispatchIs(s: Server, p: Packet)
    ensures var s' := Step(s, Dispatch(p));
            s' == s.(handed := s'.handed) && forall k :: 0 <= k < |s'.handed| ==> s'.handed[k] in s.handed || ByRoute(s, s'.handed[k])
  {
    var s' := Step(s, Dispatch(p));
    forall k | 0 <= k < |s'.handed| ensures s'.handed[k] in s.handed || ByRoute(s, s'.handed[k]) {
      assert k < |s.handed| ==> s'.handed[k] == s.handed[k];
    }
  }

  /** The packet goes where the routes say. */
  ghost predicate ByRoute(s: Server, h: (Packet, nat)) {
    exists dst :: dst in s.routes && Ipv4Dst(h.0) == Some(dst) && h.1 == s.routes[dst]
  }

  lemma HandedKeeps(s: Server, hosts: set<u32>, handed: seq<(Packet, nat)>)
    requires Inv(s, hosts)
    requires forall k :: 0 <= k < |handed| ==> handed[k] in s.handed || ByRoute(s, handed[k])
    ensures Inv(s.(handed := handed), hosts) && View(s.(handed := handed)) == View(s)
  {
    HandedRoutes(s, handed);
  }

  lemma HandedRoutes(s: Server, handed: seq<(Packet, nat)>)
    requires RoutesOk(s)
    requires forall k :: 0 <= k < |handed| ==> handed[k] in s.handed || ByRoute(s, handed[k])
    ensures RoutesOk(s.(handed := handed))
  {
  }

  lemma AttachKeeps(s: Server, hosts: set<u32>, t: nat, idx: int)
    requires Inv(s, hosts)
    ensures Inv(Step(s, Attach(t, idx)), hosts)
  {
    if (t, idx) in s.pending && t < |s.tunnels| {
      LifeKeeps(s, hosts, t, L.Add(idx, s.attached));
      PendingKeeps(WithLife(s, t, L.Add(idx, s.attached)), hosts, s.pending - multiset{(t, idx)}, s.attached + 1);
    }
  }

  /** A step of a tunnel or of its route whose time has not come, or is past. */
  predicate Idles(s: Server, e: Event) {
    match e
    case Life(t, e) => t >= |s.tunnels| || e.Add? || e.Fire? || e.Finish?
    case Unlist(t) => t >= |s.tunnels| || s.tunnels[t].life.core.once != L.DeadClosed
    case Release(t) => t >= |s.tunnels| || s.tunnels[t].life.core.once != L.Firing
    case StartRoute(t) => t >= |s.tunnels| || s.tunnels[t].route != NotStarted
    case StopRoute(t) => t >= |s.tunnels| || s.tunnels[t].route != Registered
    case _ => false
  }

  lemma IdleStep(s: Server, e: Event)
    requires Idles(s, e)
    ensures Step(s, e) == s
  {
  }

  lemma TunnelStepKeeps(s: Server, hosts: set<u32>, e: Event)
    requires Inv(s, hosts) && !Idles(s, e)
    requires e.Life? || e.Unlist? || e.Release? || e.StartRoute? || e.StopRoute?
    ensures Inv(Step(s, e), hosts)
  {
    match e
    case Life(t, e) => LifeKeeps(s, hosts, t, e);
    case Unlist(t) => UnlistKeeps(s, hosts, t);
    case Release(t) => ReleaseKeeps(s, hosts, t);
    case StartRoute(t) => StartKeeps(s, hosts, t);
    case StopRoute(t) => StopKeeps(s, hosts, t);
  }

  lemma StepKeepsInv(s: Server, hosts: set<u32>, e: Event)
    requires Inv(s, hosts)
    ensures Inv(Step(s, e), hosts)
  {
    match e
    case Enter(g) => EnterKeeps(s, hosts, g);
    case Attach(t, idx) => AttachKeeps(s, hosts, t, idx);
    case Abandon(t, idx) => PendingKeeps(s, hosts, s.pending - multiset{(t, idx)}, s.attached);
    case Dispatch(p) => DispatchKeeps(s, hosts, p);
    case _ =>
      if Idles(s, e) {
        IdleStep(s, e);
      } else {
        TunnelStepKeeps(s, hosts, e);
      }
  }

  lemma {:induction false} RunKeepsInv(s: Server, hosts: set<u32>, events: seq<Event>)
    requires Inv(s, hosts)
    ensures Inv(Run(s, events), hosts)
    decreases |events|
  {
    if events != [] {
      StepKeepsInv(s, hosts, events[0]);
      RunKeepsInv(Step(s, events[0]), hosts, events[1..]);
    }
  }

  // ------------------------------------------------------------------ the server in every run

  /** A server started on a new pool. */
  lemma BootInv(prefix: nat, pool: Pool.PoolState, hosts: set<u32>)
    requires Pool.Partition(pool, hosts) && pool.used == {}
    ensures Inv(Boot(prefix, pool), hosts)
  {
  }

  /** Addresses are conserved: used is exactly what unreleased tunnels hold, one address each, and the rest is free. */
  lemma AddressesAreConserved(prefix: nat, pool: Pool.PoolState, hosts: set<u32>, events: seq<Event>)
    requires Pool.Partition(pool, hosts) && pool.used == {}
    ensures var s := Run(Boot(prefix, pool), events);
            && Pool.Partition(s.pool, hosts)
            && (forall ip :: ip in s.pool.used <==> exists t :: 0 <= t < |s.tunnels| && !Released(s.tunnels[t]) && s.tunnels[t].ip == ip)
            && (forall t, u :: 0 <= t < u < |s.tunnels| && !Released(s.tunnels[t]) && !Released(s.tunnels[u])
                  ==> s.tunnels[t].ip != s.tunnels[u].ip)
  {
    BootInv(prefix, pool, hosts);
    RunKeepsInv(Boot(prefix, pool), hosts, events);
    GrantsAreTunnels(Run(Boot(prefix, pool), events), hosts);
  }

  lemma GrantsAreTunnels(s: Server, hosts: set<u32>)
    requires Pool.Inv(View(s), hosts)
    ensures forall ip :: ip in s.pool.used <==> exists t :: 0 <= t < |s.tunnels| && !Released(s.tunnels[t]) && s.tunnels[t].ip == ip
    ensures forall t, u :: 0 <= t < u < |s.tunnels| && !Released(s.tunnels[t]) && !Released(s.tunnels[u])
              ==> s.tunnels[t].ip != s.tunnels[u].ip
  {
    var grants := View(s).grants;
    assert forall t :: 0 <= t < |s.tunnels| ==> grants[t] == Pool.Grant(s.tunnels[t].ip, Released(s.tunnels[t]));
    forall ip | ip in s.pool.used
      ensures exists t :: 0 <= t < |s.tunnels| && !Released(s.tunnels[t]) && s.tunnels[t].ip == ip
    {
      var k :| 0 <= k < |grants| && !grants[k].fired && grants[k].ip == ip;
      assert !Released(s.tunnels[k]) && s.tunnels[k].ip == ip;
    }
  }

  /** `sessions` names, for each id, exactly the one tunnel whose teardown has not deleted it yet; so a teardown
      only ever deletes its own entry. */
  lemma SessionsAreExact(prefix: nat, pool: Pool.PoolState, hosts: set<u32>, events: seq<Event>, t: nat)
    requires Pool.Partition(pool, hosts) && pool.used == {}
    ensures var s := Run(Boot(prefix, pool), events);
            && SessionsExact(s)
            && (t < |s.tunnels| && s.tunnels[t].life.core.once == L.DeadClosed ==>
                  && s.tunnels[t].sid in s.sessions && s.sessions[s.tunnels[t].sid] == t
                  && Step(s, Unlist(t)).sessions.Items == s.sessions.Items - {(s.tunnels[t].sid, t)})
  {
    BootInv(prefix, pool, hosts);
    RunKeepsInv(Boot(prefix, pool), hosts, events);
    var s := Run(Boot(prefix, pool), events);
    if t < |s.tunnels| && s.tunnels[t].life.core.once == L.DeadClosed {
      UnlistsItself(s, t);
    }
  }

  lemma UnlistsItself(s: Server, t: nat)
    requires SessionsExact(s) && t < |s.tunnels| && s.tunnels[t].life.core.once == L.DeadClosed
    ensures s.tunnels[t].sid in s.sessions && s.sessions[s.tunnels[t].sid] == t
    ensures Step(s, Unlist(t)).sessions.Items == s.sessions.Items - {(s.tunnels[t].sid, t)}
  {
    assert !Unlisted(s.tunnels[t]);
    UnlistIs(s, t);
    RemovedItem(s.sessions, s.tunnels[t].sid, t);
  }

  lemma RemovedItem<K, V>(m: map<K, V>, k: K, v: V)
    requires k in m && m[k] == v
    ensures (m - {k}).Items == m.Items - {(k, v)}
  {
    forall e ensures e in (m - {k}).Items <==> e in m.Items && e != (k, v) {
    }
  }

  /** However many handlers pass the cap test at once, no tunnel ever holds more than sixteen channels, and every
      one has an index the client was admitted with. */
  lemma ChannelCapHolds(prefix: nat, pool: Pool.PoolState, hosts: set<u32>, events: seq<Event>, t: nat)
    requires Pool.Partition(pool, hosts) && pool.used == {}
    ensures var s := Run(Boot(prefix, pool), events);
            t < |s.tunnels| ==> |s.tunnels[t].life.core.channels| <= MAX_CHANNELS_PER_SESSION
  {
    BootInv(prefix, pool, hosts);
    RunKeepsInv(Boot(prefix, pool), hosts, events);
    var s := Run(Boot(prefix, pool), events);
    if t < |s.tunnels| {
      assert TunnelOk(s.prefix, s.tunnels[t]);
      var keys := s.tunnels[t].life.core.channels.Keys;
      forall i | i in keys ensures i in Below(MAX_CHANNELS_PER_SESSION) {
        BelowIs(MAX_CHANNELS_PER_SESSION, i);
      }
      SubsetSize(keys, Below(MAX_CHANNELS_PER_SESSION));
    }
  }

  lemma StopTakesOnlyItsOwn(s: Server, t: nat, ip: u32)
    requires ip in s.routes && s.routes[ip] != t
    ensures ip in Step(s, StopRoute(t)).routes && Step(s, StopRoute(t)).routes[ip] == s.routes[ip]
  {
  }

  /** A packet is handed only to a tunnel that was assigned its destination, and a handler that ends removes no
      other tunnel's route. */
  lemma RoutingIsCorrect(prefix: nat, pool: Pool.PoolState, hosts: set<u32>, events: seq<Event>, t: nat)
    requires Pool.Partition(pool, hosts) && pool.used == {}
    ensures var s := Run(Boot(prefix, pool), events);
            && RoutesOk(s)
            && forall ip :: ip in s.routes && s.routes[ip] != t ==>
                 ip in Step(s, StopRoute(t)).routes && Step(s, StopRoute(t)).routes[ip] == s.routes[ip]
  {
    BootInv(prefix, pool, hosts);
    RunKeepsInv(Boot(prefix, pool), hosts, events);
    var s := Run(Boot(prefix, pool), events);
    forall ip | ip in s.routes && s.routes[ip] != t
      ensures ip in Step(s, StopRoute(t)).routes && Step(s, StopRoute(t)).routes[ip] == s.routes[ip]
    {
      StopTakesOnlyItsOwn(s, t, ip);
    }
  }

  // ------------------------------------------------------------------ when a live tunnel can lose its route

  /** Every tunnel that holds its address and has registered is the one its address leads to. */
  ghost predicate Undisplaced(s: Server) {
    forall t :: 0 <= t < |s.tunnels| && s.tunnels[t].route == Registered && !Released(s.tunnels[t]) ==>
      s.tunnels[t].ip in s.routes && s.routes[s.tunnels[t].ip] == t
  }

  /** Every tunnel registers before it gives its address back. */
  ghost predicate TimelyStarts(s: Server, events: seq<Event>)
    decreases |events|
  {
    events != [] ==>
      && (events[0].StartRoute? && events[0].t < |s.tunnels| ==> !Released(s.tunnels[events[0].t]))
      && TimelyStarts(Step(s, events[0]), events[1..])
  }

  lemma HoldersDiffer(s: Server, hosts: set<u32>, t: nat, u: nat)
    requires Inv(s, hosts) && t < |s.tunnels| && u < |s.tunnels| && t != u
    requires !Released(s.tunnels[t]) && !Released(s.tunnels[u])
    ensures s.tunnels[t].ip != s.tunnels[u].ip
  {
    GrantsAreTunnels(s, hosts);
    if u < t {
      assert s.tunnels[u].ip != s.tunnels[t].ip;
    }
  }

  /** The packet has an IPv4 header with this destination. */
  predicate AddressedTo(p: Packet, ip: u32) {
    |p| >= 20 && p[0] / 16 == 4 && Value(p[16..20]) == ip
  }

  /** A packet is handed to whatever tunnel its destination leads to, and dropped when that is none. */
  lemma HandsOverExactly(s: Server, p: Packet)
    ensures Step(s, Dispatch(p)) == s.(handed := Step(s, Dispatch(p)).handed)
    ensures (forall ip: u32 :: AddressedTo(p, ip) ==> ip !in s.routes) ==> Step(s, Dispatch(p)) == s
    ensures forall ip: u32 :: AddressedTo(p, ip) && ip in s.routes ==> Step(s, Dispatch(p)).handed == s.handed + [(p, s.routes[ip])]
  {
    var dst := Ipv4Dst(p);
    assert dst.Some? ==> AddressedTo(p, dst.value);
  }

  /** So a registered tunnel that holds its address gets every packet for it while nobody is displaced. */
  lemma RegisteredGetsItsPackets(s: Server, t: nat, p: Packet)
    requires Undisplaced(s) && t < |s.tunnels| && s.tunnels[t].route == Registered && !Released(s.tunnels[t])
    requires AddressedTo(p, s.tunnels[t].ip)
    ensures Step(s, Dispatch(p)).handed == s.handed + [(p, t)]
  {
    HandsOverExactly(s, p);
  }

  /** And whoever has just registered does. */
  lemma NewcomerGetsItsPackets(s: Server, hosts: set<u32>, t: nat, p: Packet)
    requires Inv(s, hosts) && t < |s.tunnels| && s.tunnels[t].route == NotStarted && AddressedTo(p, s.tunnels[t].ip)
    ensures Step(Step(s, StartRoute(t)), Dispatch(p)).handed == s.handed + [(p, t)]
  {
    StartKeeps(s, hosts, t);
    HandsOverExactly(Step(s, StartRoute(t)), p);
  }

  /** Registering takes a registered holder's route away exactly when the newcomer has already given that same
      address back. */
  lemma DisplacementExactly(s: Server, hosts: set<u32>, t: nat, victim: nat)
    requires Inv(s, hosts) && Undisplaced(s) && t < |s.tunnels| && s.tunnels[t].route == NotStarted
    requires victim < |s.tunnels| && s.tunnels[victim].route == Registered && !Released(s.tunnels[victim])
    ensures var ip, routes' := s.tunnels[victim].ip, Step(s, StartRoute(t)).routes;
            !(ip in routes' && routes'[ip] == victim) <==> Released(s.tunnels[t]) && s.tunnels[t].ip == ip
  {
    StartKeeps(s, hosts, t);
    if !Released(s.tunnels[t]) {
      HoldersDiffer(s, hosts, t, victim);
    }
  }

  lemma StartKeepsUndisplaced(s: Server, hosts: set<u32>, t: nat)
    requires Inv(s, hosts) && Undisplaced(s) && t < |s.tunnels| && s.tunnels[t].route == NotStarted && !Released(s.tunnels[t])
    ensures Undisplaced(Step(s, StartRoute(t)))
  {
    StartKeeps(s, hosts, t);
    forall u | 0 <= u < |s.tunnels| && u != t && !Released(s.tunnels[u])
      ensures s.tunnels[u].ip != s.tunnels[t].ip
    {
      HoldersDiffer(s, hosts, u, t);
    }
  }

  lemma StopKeepsUndisplaced(s: Server, t: nat)
    requires Undisplaced(s) && t < |s.tunnels| && s.tunnels[t].route == Registered
    ensures Undisplaced(Step(s, StopRoute(t)))
  {
    var s' := Step(s, StopRoute(t));
    forall u | 0 <= u < |s'.tunnels| && s'.tunnels[u].route == Registered && !Released(s'.tunnels[u])
      ensures s'.tunnels[u].ip in s'.routes && s'.routes[s'.tunnels[u].ip] == u
    {
      assert u != t && s.tunnels[u] == s'.tunnels[u];
      StopTakesOnlyItsOwn(s, t, s.tunnels[u].ip);
    }
  }

  /** One tunnel is replaced, keeping its registration; a released one stays released. */
  lemma ReplacedUndisplaced(s: Server, s': Server, t: nat, t': Tunnel)
    requires Undisplaced(s) && Replaces(s, s', t, t') && s'.routes == s.routes && t'.route == s.tunnels[t].route
    requires Released(s.tunnels[t]) ==> Released(t')
    ensures Undisplaced(s')
  {
    forall u | 0 <= u < |s'.tunnels| && s'.tunnels[u].route == Registered && !Released(s'.tunnels[u])
      ensures s'.tunnels[u].ip in s'.routes && s'.routes[s'.tunnels[u].ip] == u
    {
      assert s.tunnels[u].ip in s.routes;
    }
  }

  lemma LifeKeepsUndisplaced(s: Server, t: nat, e: L.Event<nat>, s': Server)
    requires Undisplaced(s) && t < |s.tunnels| && s'.tunnels == WithLife(s, t, e).tunnels
    requires s'.routes == s.routes && s'.prefix == s.prefix
    ensures Undisplaced(s')
  {
    if Released(s.tunnels[t]) {
      ReleasedStays(s.tunnels[t].life, e);
    }
    ReplacedUndisplaced(s, s', t, s.tunnels[t].(life := L.Step(s.tunnels[t].life, e)));
  }

  lemma ReleasedStays(l: L.State<nat>, e: L.Event<nat>)
    requires l.core.once == L.Done
    ensures L.Step(l, e).core.once == L.Done
  {
  }

  lemma EnterKeepsUndisplaced(s: Server, g: Grant)
    requires Undisplaced(s)
    ensures Undisplaced(EnterStep(s, g))
  {
    var s' := EnterStep(s, g);
    forall u | 0 <= u < |s'.tunnels| && s'.tunnels[u].route == Registered && !Released(s'.tunnels[u])
      ensures s'.tunnels[u].ip in s'.routes && s'.routes[s'.tunnels[u].ip] == u
    {
      assert u < |s.tunnels| && s'.tunnels[u] == s.tunnels[u];
    }
  }

  lemma StepKeepsUndisplaced(s: Server, hosts: set<u32>, e: Event)
    requires Inv(s, hosts) && Undisplaced(s)
    requires e.StartRoute? && e.t < |s.tunnels| ==> !Released(s.tunnels[e.t])
    ensures Undisplaced(Step(s, e))
  {
    match e
    case StartRoute(t) =>
      if t < |s.tunnels| && s.tunnels[t].route == NotStarted {
        StartKeepsUndisplaced(s, hosts, t);
      }
    case StopRoute(t) =>
      if t < |s.tunnels| && s.tunnels[t].route == Registered {
        StopKeepsUndisplaced(s, t);
      }
    case Enter(g) => EnterKeepsUndisplaced(s, g);
    case _ => LivesKeepUndisplaced(s, e);
  }

  /** The events that step inside one tunnel, and those that touch none. */
  lemma LivesKeepUndisplaced(s: Server, e: Event)
    requires Undisplaced(s) && !e.StartRoute? && !e.StopRoute? && !e.Enter?
    ensures Undisplaced(Step(s, e))
  {
    match e
    case Attach(t, idx) =>
      if (t, idx) in s.pending && t < |s.tunnels| {
        LifeKeepsUndisplaced(s, t, L.Add(idx, s.attached), Step(s, e));
      }
    case Life(t, f) =>
      if t < |s.tunnels| && !f.Add? && !f.Fire? && !f.Finish? {
        LifeKeepsUndisplaced(s, t, f, Step(s, e));
      }
    case Unlist(t) =>
      if t < |s.tunnels| && s.tunnels[t].life.core.once == L.DeadClosed {
        LifeKeepsUndisplaced(s, t, L.Fire, Step(s, e));
      }
    case Release(t) =>
      if t < |s.tunnels| && s.tunnels[t].life.core.once == L.Firing {
        LifeKeepsUndisplaced(s, t, L.Finish, Step(s, e));
      }
    case _ =>
  }

  /** Under timely registration no tunnel ever loses its route while it holds its address. */
  lemma {:induction false} TimelyStartsNeverDisplace(s: Server, hosts: set<u32>, events: seq<Event>)
    requires Inv(s, hosts) && Undisplaced(s) && TimelyStarts(s, events)
    ensures Undisplaced(Run(s, events))
    decreases |events|
  {
    if events != [] {
      StepKeepsInv(s, hosts, events[0]);
      StepKeepsUndisplaced(s, hosts, events[0]);
      TimelyStartsNeverDisplace(Step(s, events[0]), hosts, events[1..]);
    }
  }

  /** One tunnel lives and dies before its handleConn gets to run: its only channel is attached and fails. */
  function ShortLife(s: Server, g: Grant): Server {
    LivedFrom(Step(Step(s, Enter(g)), Attach(0, g.chanIdx)), g.chanIdx)
  }

  /** A server with one tunnel. */
  function Single(prefix: nat, pool: Pool.PoolState, sessions: map<Sid, nat>, routes: map<u32, nat>, t: Tunnel, attached: nat): Server {
    Server(prefix, pool, sessions, [t], routes, multiset{}, attached, [])
  }

  lemma ShortLifeOpens(prefix: nat, ip: u32, g: Grant)
    requires 0 <= g.chanIdx < MAX_CHANNELS_PER_SESSION
    ensures var t := Tunnel(g.sid, ip, PrintCidr(ip, prefix), L.Step(L.Start(), L.Add(g.chanIdx, 0)), NotStarted);
            Step(Step(Boot(prefix, Pool.PoolState([ip], {})), Enter(g)), Attach(0, g.chanIdx))
            == Single(prefix, Pool.PoolState([], {ip}), map[g.sid := 0], map[], t, 1)
  {
    var s0 := Boot(prefix, Pool.PoolState([ip], {}));
    EnterCreates(s0, g);
    var s1 := Step(s0, Enter(g));
    assert [ip][..0] == [] && {} + {ip} == {ip};
    assert (0, g.chanIdx) in s1.pending;
    assert s1.pending - multiset{(0, g.chanIdx)} == multiset{};
  }

  lemma SingleLife(prefix: nat, pool: Pool.PoolState, sessions: map<Sid, nat>, routes: map<u32, nat>, t: Tunnel, attached: nat,
                   e: L.Event<nat>)
    requires !e.Add? && !e.Fire? && !e.Finish?
    ensures Step(Single(prefix, pool, sessions, routes, t, attached), Life(0, e))
         == Single(prefix, pool, sessions, routes, t.(life := L.Step(t.life, e)), attached)
  {
  }

  /** The tunnel's own part of a short life, up to the closing of `dead`. */
  function Dying(idx: int): L.State<nat> {
    L.Step(L.Step(L.Step(L.Step(L.Step(L.Start(), L.Add(idx, 0)), L.Remove(idx)), L.EnterOnce), L.SetClosed), L.CloseDead)
  }

  lemma DyingIsDead(idx: int)
    ensures Dying(idx).core.once == L.DeadClosed
  {
    var l := L.Step(L.Start<nat>(), L.Add(idx, 0));
    assert l.core.channels - {idx} == map[];
  }

  lemma SingleEnds(prefix: nat, ip: u32, sid: Sid, routes: map<u32, nat>, t: Tunnel)
    requires t.life.core.once == L.DeadClosed && t.sid == sid && t.ip == ip
    ensures var s := Single(prefix, Pool.PoolState([], {ip}), map[sid := 0], routes, t, 1);
            Step(Step(s, Unlist(0)), Release(0))
            == Single(prefix, Pool.PoolState([ip], {}), map[], routes, t.(life := L.Step(L.Step(t.life, L.Fire), L.Finish)), 1)
  {
    assert map[sid := 0] - {sid} == map[];
    assert [] + [ip] == [ip] && {ip} - {ip} == {};
  }

  /** From the attach of its only channel to the closing of `dead`. */
  function DyingFrom(s: Server, idx: int): Server {
    var emptied := Step(Step(s, Life(0, L.Remove(idx))), Life(0, L.EnterOnce));
    Step(Step(emptied, Life(0, L.SetClosed)), Life(0, L.CloseDead))
  }

  /** And on to the release of its address. */
  function LivedFrom(s: Server, idx: int): Server {
    Step(Step(DyingFrom(s, idx), Unlist(0)), Release(0))
  }

  lemma SingleDying(prefix: nat, pool: Pool.PoolState, sessions: map<Sid, nat>, routes: map<u32, nat>, t: Tunnel, idx: int)
    requires t.life == L.Step(L.Start(), L.Add(idx, 0))
    ensures DyingFrom(Single(prefix, pool, sessions, routes, t, 1), idx)
         == Single(prefix, pool, sessions, routes, t.(life := Dying(idx)), 1)
  {
    SingleLife(prefix, pool, sessions, routes, t, 1, L.Remove(idx));
    var t1 := t.(life := L.Step(t.life, L.Remove(idx)));
    SingleLife(prefix, pool, sessions, routes, t1, 1, L.EnterOnce);
    var t2 := t1.(life := L.Step(t1.life, L.EnterOnce));
    SingleLife(prefix, pool, sessions, routes, t2, 1, L.SetClosed);
    var t3 := t2.(life := L.Step(t2.life, L.SetClosed));
    SingleLife(prefix, pool, sessions, routes, t3, 1, L.CloseDead);
  }

  /** The tunnel's life to its end. */
  function DeadLife(idx: int): L.State<nat> {
    L.Step(L.Step(Dying(idx), L.Fire), L.Finish)
  }

  lemma SingleDies(prefix: nat, ip: u32, sid: Sid, routes: map<u32, nat>, t: Tunnel, idx: int)
    requires t.sid == sid && t.ip == ip && t.life == L.Step(L.Start(), L.Add(idx, 0))
    ensures Released(t.(life := DeadLife(idx)))
    ensures LivedFrom(Single(prefix, Pool.PoolState([], {ip}), map[sid := 0], routes, t, 1), idx)
         == Single(prefix, Pool.PoolState([ip], {}), map[], routes, t.(life := DeadLife(idx)), 1)
  {
    DyingIsDead(idx);
    SingleDying(prefix, Pool.PoolState([], {ip}), map[sid := 0], routes, t, idx);
    SingleEnds(prefix, ip, sid, routes, t.(life := Dying(idx)));
    DeadLifeIsDone(idx);
  }

  lemma DeadLifeIsDone(idx: int)
    ensures DeadLife(idx).core.once == L.Done
  {
    DyingIsDead(idx);
    var fired := L.Step(Dying(idx), L.Fire);
    assert fired.core.once == L.Firing;
  }

  lemma ShortLifeEnds(prefix: nat, ip: u32, g: Grant)
    requires 0 <= g.chanIdx < MAX_CHANNELS_PER_SESSION
    ensures var t := Tunnel(g.sid, ip, PrintCidr(ip, prefix), DeadLife(g.chanIdx), NotStarted);
            && Released(t)
            && ShortLife(Boot(prefix, Pool.PoolState([ip], {})), g) == Single(prefix, Pool.PoolState([ip], {}), map[], map[], t, 1)
  {
    ShortLifeOpens(prefix, ip, g);
    var t := Tunnel(g.sid, ip, PrintCidr(ip, prefix), L.Step(L.Start(), L.Add(g.chanIdx, 0)), NotStarted);
    SingleDies(prefix, ip, g.sid, map[], t, g.chanIdx);
  }

  /** Tunnel 1 is live and registered, yet its address leads to tunnel 0, which has given that address back. */
  ghost predicate LostToTheDead(s: Server, ip: u32) {
    && |s.tunnels| == 2 && s.tunnels[0].ip == s.tunnels[1].ip == ip
    && s.tunnels[1].route == Registered && !Released(s.tunnels[1])
    && Released(s.tunnels[0]) && s.routes == map[ip := 0]
  }

  lemma SecondLife(prefix: nat, ip: u32, dead: Tunnel, g: Grant)
    requires 0 <= g.chanIdx < MAX_CHANNELS_PER_SESSION
    requires Released(dead) && dead.ip == ip && dead.addr == PrintCidr(ip, prefix) && dead.route == NotStarted
    ensures var s := Step(Single(prefix, Pool.PoolState([ip], {}), map[], map[], dead, 1), Enter(g));
            LostToTheDead(Step(Step(s, StartRoute(1)), StartRoute(0)), ip)
  {
    var s0 := Single(prefix, Pool.PoolState([ip], {}), map[], map[], dead, 1);
    EnterCreates(s0, g);
    var s1 := Step(s0, Enter(g));
    CidrRoundTrip(ip, prefix, _ => None);
    var live := s1.tunnels[1];
    assert s1.tunnels == [dead, live];
    var s2 := Step(s1, StartRoute(1));
    assert s2.tunnels == [dead, live.(route := Registered)] && s2.routes == map[ip := 1];
    var s3 := Step(s2, StartRoute(0));
    assert s3.tunnels == [dead.(route := Registered), live.(route := Registered)] && s3.routes == map[ip := 0];
  }

  /** Without timely registration a live tunnel can lose its route: a dead tunnel registers late, under an address
      that has been handed out again. */
  lemma LateStartDisplaces(prefix: nat, ip: u32, first: Grant, second: Grant)
    requires 0 <= first.chanIdx < MAX_CHANNELS_PER_SESSION && 0 <= second.chanIdx < MAX_CHANNELS_PER_SESSION
    ensures var s := Step(ShortLife(Boot(prefix, Pool.PoolState([ip], {})), first), Enter(second));
            LostToTheDead(Step(Step(s, StartRoute(1)), StartRoute(0)), ip)
  {
    ShortLifeEnds(prefix, ip, first);
    var life := DeadLife(first.chanIdx);
    SecondLife(prefix, ip, Tunnel(first.sid, ip, PrintCidr(ip, prefix), life, NotStarted), second);
  }
}
