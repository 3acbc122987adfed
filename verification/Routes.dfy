/** When a registering tunnel finds an entry under its address (register in internal/server/server.go). */
module Routes {
  import opened Address
  import opened Auth
  import opened Bytes
  import opened Handshake
  import opened Sessions
  import opened Wrappers
  import L = Lifecycle
  import Pool

  /** Registering t would replace an entry. */
  ghost predicate FindsPrior(s: Server, t: nat) {
    t < |s.tunnels| && s.tunnels[t].ip in s.routes
  }

  /** A tunnel that holds its address finds an entry exactly when another has released that address without having
      stopped its route, and nobody has taken the entry over since. */
  lemma PriorEntryExactly(s: Server, hosts: set<u32>, t: nat)
    requires Inv(s, hosts) && t < |s.tunnels| && s.tunnels[t].route == NotStarted && !Released(s.tunnels[t])
    ensures FindsPrior(s, t) <==>
            exists u :: 0 <= u < |s.tunnels| && u != t && s.tunnels[u].ip == s.tunnels[t].ip
                        && s.tunnels[u].route == Registered && Released(s.tunnels[u])
                        && s.tunnels[u].ip in s.routes && s.routes[s.tunnels[u].ip] == u
  {
    if FindsPrior(s, t) {
      var u := s.routes[s.tunnels[t].ip];
      if !Released(s.tunnels[u]) {
        HoldersDiffer(s, hosts, t, u);
      }
    }
  }

  /** A late start finds an entry exactly when the address has a registered holder, provided nobody was displaced and
      no route outlived its tunnel's hold before; and then it displaces that holder. */
  lemma LateStartFindsExactly(s: Server, hosts: set<u32>, t: nat)
    requires Inv(s, hosts) && Undisplaced(s) && RegisteredHold(s)
    requires t < |s.tunnels| && s.tunnels[t].route == NotStarted && Released(s.tunnels[t])
    ensures FindsPrior(s, t) <==> exists v :: Holder(s, v, s.tunnels[t].ip)
    ensures FindsPrior(s, t) ==> !Undisplaced(Step(s, StartRoute(t)))
  {
    if FindsPrior(s, t) {
      var v := s.routes[s.tunnels[t].ip];
      assert Holder(s, v, s.tunnels[t].ip);
      HarmfulStartDisplaces(s, hosts, t, v);
    }
  }

  // ------------------------------------------------------------------ runs in which nobody is displaced

  /** v is registered under the address and holds it. */
  ghost predicate Holder(s: Server, v: int, ip: u32) {
    0 <= v < |s.tunnels| && s.tunnels[v].route == Registered && !Released(s.tunnels[v]) && s.tunnels[v].ip == ip
  }

  /** A tunnel that has given its address back does not register while another is registered and holds it. */
  ghost predicate HarmlessAt(s: Server, e: Event) {
    e.StartRoute? && e.t < |s.tunnels| && s.tunnels[e.t].route == NotStarted && Released(s.tunnels[e.t]) ==>
      forall v :: !Holder(s, v, s.tunnels[e.t].ip)
  }

  ghost predicate HarmlessStarts(s: Server, events: seq<Event>)
    decreases |events|
  {
    events != [] ==> HarmlessAt(s, events[0]) && HarmlessStarts(Step(s, events[0]), events[1..])
  }

  lemma HarmfulStartDisplaces(s: Server, hosts: set<u32>, t: nat, v: int)
    requires Inv(s, hosts) && Undisplaced(s) && t < |s.tunnels| && s.tunnels[t].route == NotStarted
    requires Released(s.tunnels[t]) && Holder(s, v, s.tunnels[t].ip)
    ensures !Undisplaced(Step(s, StartRoute(t)))
  {
    DisplacementExactly(s, hosts, t, v);
    StartKeeps(s, hosts, t);
    assert Step(s, StartRoute(t)).tunnels[v] == s.tunnels[v];
  }

  lemma HarmlessStartKeeps(s: Server, hosts: set<u32>, t: nat)
    requires Inv(s, hosts) && Undisplaced(s) && t < |s.tunnels| && s.tunnels[t].route == NotStarted
    requires Released(s.tunnels[t]) && forall v :: !Holder(s, v, s.tunnels[t].ip)
    ensures Undisplaced(Step(s, StartRoute(t)))
  {
    StartKeeps(s, hosts, t);
    var s' := Step(s, StartRoute(t));
    forall u | 0 <= u < |s'.tunnels| && s'.tunnels[u].route == Registered && !Released(s'.tunnels[u])
      ensures s'.tunnels[u].ip in s'.routes && s'.routes[s'.tunnels[u].ip] == u
    {
      assert u != t && s'.tunnels[u] == s.tunnels[u];
      assert !Holder(s, u, s.tunnels[t].ip);
    }
  }

  /** One step leaves nobody displaced exactly when it is not such a registration. */
  lemma StepDisplacesExactly(s: Server, hosts: set<u32>, e: Event)
    requires Inv(s, hosts) && Undisplaced(s)
    ensures Undisplaced(Step(s, e)) <==> HarmlessAt(s, e)
  {
    if e.StartRoute? && e.t < |s.tunnels| && s.tunnels[e.t].route == NotStarted && Released(s.tunnels[e.t]) {
      if v :| Holder(s, v, s.tunnels[e.t].ip) {
        HarmfulStartDisplaces(s, hosts, e.t, v);
      } else {
        HarmlessStartKeeps(s, hosts, e.t);
      }
    } else if e.StartRoute? && e.t < |s.tunnels| && Released(s.tunnels[e.t]) {
      assert Step(s, e) == s;
    } else {
      StepKeepsUndisplaced(s, hosts, e);
    }
  }

  /** At every moment of the run. */
  ghost predicate NeverDisplaced(s: Server, events: seq<Event>) {
    forall k :: 0 <= k <= |events| ==> Undisplaced(Run(s, events[..k]))
  }

  lemma NeverFromNext(s: Server, events: seq<Event>)
    requires events != []
    ensures NeverDisplaced(s, events) <==> Undisplaced(s) && NeverDisplaced(Step(s, events[0]), events[1..])
  {
    var s', rest := Step(s, events[0]), events[1..];
    assert events[..0] == [] && Run(s, events[..0]) == s;
    forall k | 0 <= k <= |rest| ensures Run(s, events[..k + 1]) == Run(s', rest[..k]) {
      assert events[..k + 1][1..] == rest[..k];
    }
    if NeverDisplaced(s, events) {
      forall k | 0 <= k <= |rest| ensures Undisplaced(Run(s', rest[..k])) {
        assert Undisplaced(Run(s, events[..k + 1]));
      }
    }
    if Undisplaced(s) && NeverDisplaced(s', rest) {
      forall k | 0 <= k <= |events| ensures Undisplaced(Run(s, events[..k])) {
        assert k > 0 ==> Undisplaced(Run(s', rest[..k - 1])) && Run(s, events[..k - 1 + 1]) == Run(s', rest[..k - 1]);
      }
    }
  }

  lemma NeverBegins(s: Server, events: seq<Event>)
    ensures NeverDisplaced(s, events) ==> Undisplaced(s)
    ensures NeverDisplaced(s, []) <==> Undisplaced(s)
  {
    assert events[..0] == [] && Run(s, events[..0]) == s;
    var none: seq<Event> := [];
    assert none[..0] == none && Run(s, none) == s;
  }

  /** Over all runs: nobody is ever displaced exactly when no tunnel registers an address it has given back while
      another is registered and holds it. */
  lemma {:induction false} NeverDisplacedExactly(s: Server, hosts: set<u32>, events: seq<Event>)
    requires Inv(s, hosts) && Undisplaced(s)
    ensures HarmlessStarts(s, events) <==> NeverDisplaced(s, events)
    decreases |events|
  {
    if events == [] {
      NeverBegins(s, events);
    } else {
      var s', rest := Step(s, events[0]), events[1..];
      StepDisplacesExactly(s, hosts, events[0]);
      StepKeepsInv(s, hosts, events[0]);
      NeverFromNext(s, events);
      NeverBegins(s', rest);
      if Undisplaced(s') {
        NeverDisplacedExactly(s', hosts, rest);
      }
    }
  }

  // ------------------------------------------------------------------ runs in which routes are stopped in time

  /** A tunnel whose route stands holds its address. */
  ghost predicate RegisteredHold(s: Server) {
    forall t :: 0 <= t < |s.tunnels| && s.tunnels[t].route == Registered ==> !Released(s.tunnels[t])
  }

  /** No tunnel gives its address back while its route stands. */
  predicate TidyAt(s: Server, e: Event) {
    e.Release? && e.t < |s.tunnels| && s.tunnels[e.t].life.core.once == L.Firing ==> s.tunnels[e.t].route != Registered
  }

  predicate TimelyAt(s: Server, e: Event) {
    e.StartRoute? && e.t < |s.tunnels| ==> !Released(s.tunnels[e.t])
  }

  ghost predicate TidyReleases(s: Server, events: seq<Event>)
    decreases |events|
  {
    events != [] ==> TidyAt(s, events[0]) && TidyReleases(Step(s, events[0]), events[1..])
  }

  lemma EnterKeepsHeld(s: Server, g: Grant)
    requires RegisteredHold(s)
    ensures RegisteredHold(EnterStep(s, g))
  {
    var s' := EnterStep(s, g);
    forall u | 0 <= u < |s'.tunnels| && s'.tunnels[u].route == Registered ensures !Released(s'.tunnels[u]) {
      assert u < |s.tunnels| && s'.tunnels[u] == s.tunnels[u];
    }
  }

  /** One tunnel is replaced, and if its route stands it holds its address. */
  lemma ReplacedHeld(s: Server, s': Server, t: nat, t': Tunnel)
    requires RegisteredHold(s) && t < |s.tunnels| && s'.tunnels == s.tunnels[t := t']
    requires t'.route == Registered ==> !Released(t')
    ensures RegisteredHold(s')
  {
  }

  lemma LifeKeepsHeld(s: Server, s': Server, t: nat, e: L.Event<nat>)
    requires RegisteredHold(s) && t < |s.tunnels| && s'.tunnels == WithLife(s, t, e).tunnels
    requires e.Finish? ==> s.tunnels[t].route != Registered
    ensures RegisteredHold(s')
  {
    ReplacedHeld(s, s', t, s.tunnels[t].(life := L.Step(s.tunnels[t].life, e)));
  }

  lemma StartKeepsHeld(s: Server, t: nat)
    requires RegisteredHold(s) && t < |s.tunnels| && s.tunnels[t].route == NotStarted && !Released(s.tunnels[t])
    ensures RegisteredHold(Step(s, StartRoute(t)))
  {
    var s' := Step(s, StartRoute(t));
    if s'.tunnels != s.tunnels {
      ReplacedHeld(s, s', t, s.tunnels[t].(route := Registered));
    }
  }

  lemma StepKeepsHeld(s: Server, e: Event)
    requires RegisteredHold(s) && TidyAt(s, e) && TimelyAt(s, e)
    ensures RegisteredHold(Step(s, e))
  {
    match e
    case Enter(g) => EnterKeepsHeld(s, g);
    case Attach(t, idx) =>
      if (t, idx) in s.pending && t < |s.tunnels| {
        LifeKeepsHeld(s, Step(s, e), t, L.Add(idx, s.attached));
      }
    case Life(t, f) =>
      if t < |s.tunnels| && !f.Add? && !f.Fire? && !f.Finish? {
        LifeKeepsHeld(s, Step(s, e), t, f);
      }
    case Unlist(t) =>
      if t < |s.tunnels| && s.tunnels[t].life.core.once == L.DeadClosed {
        LifeKeepsHeld(s, Step(s, e), t, L.Fire);
      }
    case Release(t) =>
      if t < |s.tunnels| && s.tunnels[t].life.core.once == L.Firing {
        LifeKeepsHeld(s, Step(s, e), t, L.Finish);
      }
    case StartRoute(t) =>
      if t < |s.tunnels| && s.tunnels[t].route == NotStarted {
        StartKeepsHeld(s, t);
      }
    case StopRoute(t) =>
      if t < |s.tunnels| && s.tunnels[t].route == Registered {
        ReplacedHeld(s, Step(s, e), t, s.tunnels[t].(route := Gone));
      }
    case _ =>
  }

  /** What a run of timely starts keeps at every moment; tidy releases keep `held` too. */
  lemma {:induction false} TimelyPrefix(s: Server, hosts: set<u32>, events: seq<Event>, k: nat, held: bool)
    requires Inv(s, hosts) && Undisplaced(s) && TimelyStarts(s, events) && k <= |events|
    requires held ==> RegisteredHold(s) && TidyReleases(s, events[..k])
    ensures var s' := Run(s, events[..k]); Inv(s', hosts) && Undisplaced(s') && (held ==> RegisteredHold(s'))
    decreases |events|
  {
    if k > 0 {
      StepKeepsInv(s, hosts, events[0]);
      StepKeepsUndisplaced(s, hosts, events[0]);
      assert events[..k][1..] == events[1..][..k - 1];
      if held {
        StepKeepsHeld(s, events[0]);
      }
      TimelyPrefix(Step(s, events[0]), hosts, events[1..], k - 1, held);
    }
  }

  /** Nobody who holds its address and has yet to register would find an entry. */
  ghost predicate Quiet(s: Server) {
    forall t :: 0 <= t < |s.tunnels| && s.tunnels[t].route == NotStarted && !Released(s.tunnels[t]) ==> !FindsPrior(s, t)
  }

  lemma HeldIsQuiet(s: Server, hosts: set<u32>)
    requires Inv(s, hosts) && RegisteredHold(s)
    ensures Quiet(s)
  {
    forall t | 0 <= t < |s.tunnels| && s.tunnels[t].route == NotStarted && !Released(s.tunnels[t])
      ensures !FindsPrior(s, t)
    {
      PriorEntryExactly(s, hosts, t);
    }
  }

  /** The step that decides: the next session gets the address just released, and finds an entry exactly if that
      was released while its route stood. */
  lemma ReleaseIsFoundExactly(s: Server, hosts: set<u32>, t: nat, g: Grant)
    requires Inv(s, hosts) && Undisplaced(s) && RegisteredHold(s)
    requires t < |s.tunnels| && s.tunnels[t].life.core.once == L.Firing
    requires 0 <= g.chanIdx < MAX_CHANNELS_PER_SESSION && g.sid !in s.sessions
    ensures var s', u := Step(Step(s, Release(t)), Enter(g)), |s.tunnels|;
            && |s'.tunnels| == u + 1 && s'.tunnels[u].ip == s.tunnels[t].ip
            && s'.tunnels[u].route == NotStarted && !Released(s'.tunnels[u])
            && (FindsPrior(s', u) <==> s.tunnels[t].route == Registered)
  {
    var ip, s1 := s.tunnels[t].ip, Step(s, Release(t));
    assert View(s).grants[t] == Pool.Grant(ip, false);
    assert s1.pool.free == s.pool.free + [ip];
    EnterCreates(s1, g);
    if ip in s.routes && s.routes[ip] != t {
      HoldersDiffer(s, hosts, t, s.routes[ip]);
    }
  }

  /** An id no session has. */
  lemma FreshSid(keys: set<Sid>) returns (sid: Sid)
    ensures sid !in keys && forall k :: k in keys ==> |k| < |sid|
    decreases |keys|
  {
    if keys == {} {
      sid := [];
    } else {
      var k :| k in keys;
      var rest := FreshSid(keys - {k});
      sid := seq(|rest| + |k| + 1, _ => 0);
    }
  }

  lemma {:induction false} FirstUntidy(s: Server, events: seq<Event>) returns (k: nat)
    requires !TidyReleases(s, events)
    ensures k < |events| && TidyReleases(s, events[..k]) && !TidyAt(Run(s, events[..k]), events[k])
    decreases |events|
  {
    if !TidyAt(s, events[0]) {
      k := 0;
    } else {
      k := FirstUntidy(Step(s, events[0]), events[1..]);
      assert events[..k + 1][1..] == events[1..][..k];
      k := k + 1;
    }
  }

  lemma {:induction false} TidyPrefix(s: Server, events: seq<Event>, k: nat)
    requires TidyReleases(s, events) && k <= |events|
    ensures TidyReleases(s, events[..k])
    decreases |events|
  {
    if k > 0 {
      TidyPrefix(Step(s, events[0]), events[1..], k - 1);
      assert events[..k][1..] == events[1..][..k - 1];
    }
  }

  lemma {:induction false} RunSnoc(s: Server, events: seq<Event>, e: Event)
    ensures Run(s, events + [e]) == Step(Run(s, events), e)
    decreases |events|
  {
    if events == [] {
      assert (events + [e])[1..] == [] && Run(Step(s, e), []) == Step(s, e);
    } else {
      assert (events + [e])[1..] == events[1..] + [e];
      RunSnoc(Step(s, events[0]), events[1..], e);
    }
  }

  lemma RunUpTo(s: Server, events: seq<Event>, k: nat)
    requires k < |events|
    ensures Run(s, events[..k + 1]) == Step(Run(s, events[..k]), events[k])
  {
    RunSnoc(s, events[..k], events[k]);
    assert events[..k + 1] == events[..k] + [events[k]];
  }

  /** No registration by a holder would find an entry, now or after one more session is admitted. */
  ghost predicate QuietWith(s: Server, g: Grant) {
    Quiet(s) && Quiet(Step(s, Enter(g)))
  }

  ghost predicate NeverPrior(s: Server, events: seq<Event>) {
    forall k, g :: 0 <= k <= |events| ==> QuietWith(Run(s, events[..k]), g)
  }

  lemma FoundLater(s: Server, hosts: set<u32>, t: nat) returns (g: Grant)
    requires Inv(s, hosts) && Undisplaced(s) && RegisteredHold(s) && !TidyAt(s, Release(t))
    ensures !Quiet(Step(Step(s, Release(t)), Enter(g)))
  {
    var sid := FreshSid(s.sessions.Keys);
    g := Grant(ZERO_KEY, sid, 0);
    ReleaseIsFoundExactly(s, hosts, t, g);
  }

  lemma NotNever(s: Server, events: seq<Event>, k: nat, g: Grant)
    requires k <= |events| && !Quiet(Step(Run(s, events[..k]), Enter(g)))
    ensures !NeverPrior(s, events)
  {
    assert !QuietWith(Run(s, events[..k]), g);
  }

  lemma UntidyIsFound(s: Server, hosts: set<u32>, events: seq<Event>)
    requires Inv(s, hosts) && Undisplaced(s) && RegisteredHold(s) && TimelyStarts(s, events) && !TidyReleases(s, events)
    ensures !NeverPrior(s, events)
  {
    var k := FirstUntidy(s, events);
    TimelyPrefix(s, hosts, events, k, true);
    var g := FoundLater(Run(s, events[..k]), hosts, events[k].t);
    RunUpTo(s, events, k);
    NotNever(s, events, k + 1, g);
  }

  lemma HeldIsQuietWith(s: Server, hosts: set<u32>, g: Grant)
    requires Inv(s, hosts) && RegisteredHold(s)
    ensures QuietWith(s, g)
  {
    HeldIsQuiet(s, hosts);
    StepKeepsInv(s, hosts, Enter(g));
    EnterKeepsHeld(s, g);
    HeldIsQuiet(Step(s, Enter(g)), hosts);
  }

  lemma TidyNeverFinds(s: Server, hosts: set<u32>, events: seq<Event>)
    requires Inv(s, hosts) && Undisplaced(s) && RegisteredHold(s) && TimelyStarts(s, events) && TidyReleases(s, events)
    ensures NeverPrior(s, events)
  {
    forall k, g | 0 <= k <= |events| ensures QuietWith(Run(s, events[..k]), g) {
      TidyPrefix(s, events, k);
      TimelyPrefix(s, hosts, events, k, true);
      HeldIsQuietWith(Run(s, events[..k]), hosts, g);
    }
  }

  /** When tunnels register before they release their addresses, then registrations never find a prior entry
      exactly if tunnels also stop their routes before they release. */
  lemma NoPriorExactly(prefix: nat, pool: Pool.PoolState, hosts: set<u32>, events: seq<Event>)
    requires Pool.Partition(pool, hosts) && pool.used == {} && TimelyStarts(Boot(prefix, pool), events)
    ensures NeverPrior(Boot(prefix, pool), events) <==> TidyReleases(Boot(prefix, pool), events)
  {
    var s := Boot(prefix, pool);
    BootInv(prefix, pool, hosts);
    if TidyReleases(s, events) {
      TidyNeverFinds(s, hosts, events);
    } else {
      UntidyIsFound(s, hosts, events);
    }
  }

  // ------------------------------------------------------------------ a run that finds one

  /** A tunnel is admitted and attached and registers, and its life ends before its handler does. */
  function Outlived(s: Server, g: Grant): Server {
    LivedFrom(Step(Step(Step(s, Enter(g)), Attach(0, g.chanIdx)), StartRoute(0)), g.chanIdx)
  }

  lemma OutlivedIs(prefix: nat, ip: u32, g: Grant)
    requires 0 <= g.chanIdx < MAX_CHANNELS_PER_SESSION
    ensures var life := DeadLife(g.chanIdx);
            var t := Tunnel(g.sid, ip, PrintCidr(ip, prefix), life, Registered);
            && Released(t)
            && Outlived(Boot(prefix, Pool.PoolState([ip], {})), g)
               == Single(prefix, Pool.PoolState([ip], {}), map[], map[ip := 0], t, 1)
  {
    ShortLifeOpens(prefix, ip, g);
    var t := Tunnel(g.sid, ip, PrintCidr(ip, prefix), L.Step(L.Start(), L.Add(g.chanIdx, 0)), NotStarted);
    SingleStarts(prefix, Pool.PoolState([], {ip}), map[g.sid := 0], t);
    SingleDies(prefix, ip, g.sid, map[ip := 0], t.(route := Registered), g.chanIdx);
  }

  lemma SingleStarts(prefix: nat, pool: Pool.PoolState, sessions: map<Sid, nat>, t: Tunnel)
    requires t.addr == PrintCidr(t.ip, prefix) && t.route == NotStarted
    ensures Step(Single(prefix, pool, sessions, map[], t, 1), StartRoute(0))
         == Single(prefix, pool, sessions, map[t.ip := 0], t.(route := Registered), 1)
  {
    CidrRoundTrip(t.ip, prefix, _ => None);
  }

  /** Registering in time does not make the comment true: the run, for every address, in which both tunnels
      register while they hold it and the second finds the first's entry. */
  lemma TimelyStartFindsPrior(prefix: nat, ip: u32, first: Grant, second: Grant)
    requires 0 <= first.chanIdx < MAX_CHANNELS_PER_SESSION && 0 <= second.chanIdx < MAX_CHANNELS_PER_SESSION
    ensures var s0 := Boot(prefix, Pool.PoolState([ip], {}));
            var attached := Step(Step(s0, Enter(first)), Attach(0, first.chanIdx));
            |attached.tunnels| == 1 && !Released(attached.tunnels[0])
    ensures var s := Step(Outlived(Boot(prefix, Pool.PoolState([ip], {})), first), Enter(second));
            && |s.tunnels| == 2 && s.tunnels[1].route == NotStarted && !Released(s.tunnels[1]) && Released(s.tunnels[0])
            && FindsPrior(s, 1) && s.routes[s.tunnels[1].ip] == 0
  {
    ShortLifeOpens(prefix, ip, first);
    OutlivedIs(prefix, ip, first);
    EnterCreates(Outlived(Boot(prefix, Pool.PoolState([ip], {})), first), second);
  }
}
