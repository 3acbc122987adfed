/** From an accepted request to an attached channel (ServeHTTP in internal/transport/server.go). */
module Admission {
  import opened Address
  import opened Auth
  import opened Bytes
  import opened Handshake
  import opened Lists
  import opened Replay
  import opened Sessions
  import opened Wrappers
  import L = Lifecycle
  import Pool

  // ------------------------------------------------------------------ the locked section, case by case

  /** A request for a session that exists joins its tunnel while that has fewer than sixteen channels, and otherwise
      changes nothing. */
  lemma JoinsExactly(s: Server, hosts: set<u32>, t: nat, g: Grant)
    requires Inv(s, hosts) && t < |s.tunnels| && !Unlisted(s.tunnels[t]) && s.tunnels[t].sid == g.sid
    requires 0 <= g.chanIdx < 16
    ensures Step(s, Enter(g)) ==
              if |s.tunnels[t].life.core.channels| < 16 then s.(pending := s.pending + multiset{(t, g.chanIdx)}) else s
  {
    assert g.sid in s.sessions && s.sessions[g.sid] == t;
    JoinsListed(s, t, g);
  }

  lemma JoinsListed(s: Server, t: nat, g: Grant)
    requires t < |s.tunnels| && g.sid in s.sessions && s.sessions[g.sid] == t && 0 <= g.chanIdx < 16
    ensures Step(s, Enter(g)) ==
              if |s.tunnels[t].life.core.channels| < 16 then s.(pending := s.pending + multiset{(t, g.chanIdx)}) else s
  {
  }

  /** A request for a new session takes the address freed last and opens a tunnel without channels; with no address
      left it changes nothing. */
  lemma OpensExactly(s: Server, hosts: set<u32>, g: Grant)
    requires Inv(s, hosts) && forall t :: 0 <= t < |s.tunnels| && !Unlisted(s.tunnels[t]) ==> s.tunnels[t].sid != g.sid
    requires 0 <= g.chanIdx < 16
    ensures Step(s, Enter(g)) ==
              if s.pool.free == [] then s
              else
                var n, t := |s.pool.free| - 1, |s.tunnels|;
                var ip := s.pool.free[n];
                s.(sessions := s.sessions[g.sid := t], pool := Pool.PoolState(s.pool.free[..n], s.pool.used + {ip}),
                   tunnels := s.tunnels + [Tunnel(g.sid, ip, PrintCidr(ip, s.prefix), L.Start(), NotStarted)],
                   pending := s.pending + multiset{(t, g.chanIdx)})
  {
    if s.pool.free != [] {
      EnterCreates(s, g);
    } else {
      EnterCreatesNothing(s, g);
    }
  }

  /** The connection attached last is in tunnel t under idx, and all else is as it was. */
  ghost predicate AttachedAt(s: Server, s': Server, t: nat, idx: int)
    requires t < |s.tunnels|
  {
    && |s'.tunnels| == |s.tunnels| && (forall u :: 0 <= u < |s.tunnels| && u != t ==> s'.tunnels[u] == s.tunnels[u])
    && s'.tunnels[t] == s.tunnels[t].(life := s'.tunnels[t].life)
    && s'.tunnels[t].life.core == s.tunnels[t].life.core.(
         channels := s.tunnels[t].life.core.channels[idx := s.attached], order := s.tunnels[t].life.core.order + [idx])
    && s' == s.(tunnels := s'.tunnels, pending := s.pending - multiset{(t, idx)}, attached := s.attached + 1)
  }

  /** A handler that has passed attaches its connection under its index, unless the tunnel has closed. */
  lemma AttachesExactly(s: Server, t: nat, idx: int)
    requires t < |s.tunnels| && (t, idx) in s.pending
    ensures var s' := Step(s, Attach(t, idx));
            if s.tunnels[t].life.core.closed
            then s'.tunnels == s.tunnels && s'.sessions == s.sessions && s'.pool == s.pool && s'.routes == s.routes
            else AttachedAt(s, s', t, idx)
  {
    if s.tunnels[t].life.core.closed {
      assert L.Step(s.tunnels[t].life, L.Add(idx, s.attached)) == s.tunnels[t].life;
    }
  }

  /** A request the gate accepts joins the session it names and ends as a channel under exactly the index it asked for,
      whatever happens in between, if the tunnel does not close first. */
  lemma AcceptedRequestComesUp(f: Filter<Tag>, id: Identity, r: Request, now: int, later: int, s: Server, hosts: set<u32>,
                               t: nat, events: seq<Event>)
    requires AuthStep(f, id, r, now, later).1.Some?
    requires Inv(s, hosts) && t < |s.tunnels| && !Unlisted(s.tunnels[t]) && Some(s.tunnels[t].sid) == r.sid
    requires |s.tunnels[t].life.core.channels| < 16
    ensures var idx := r.chanIdx.value;
            var s1 := Step(s, Enter(AuthStep(f, id, r, now, later).1.value));
            var s2 := Run(s1, events);
            && s1.pending[(t, idx)] == s.pending[(t, idx)] + 1
            && ((t, idx) in s2.pending && t < |s2.tunnels| && !s2.tunnels[t].life.core.closed ==>
                  AttachedAt(s2, Step(s2, Attach(t, idx)), t, idx))
  {
    GrantIsTheRequest(f, id, r, now, later);
    var g := AuthStep(f, id, r, now, later).1.value;
    JoinsExactly(s, hosts, t, g);
    var s2 := Run(Step(s, Enter(g)), events);
    if (t, g.chanIdx) in s2.pending && t < |s2.tunnels| {
      AttachesExactly(s2, t, g.chanIdx);
    }
  }

  /** The two ends of a granted channel hold matching keys: what the server derives from the grant is what the client
      derives from its own request. */
  lemma GrantedEndsMeet(x: Curve, f: Filter<Tag>, id: Identity, clientEph: Key32, serverEph: Key32, static_: Key32,
                        ts: i64, sid: seq<u8>, chanIdx: u32, now: int, later: int)
    requires Symmetric(x) && id.staticPub == x.public(static_)
    requires AuthStep(f, id, ClientRequest(id.psk, x.public(clientEph), ts, id.staticPub, sid, chanIdx), now, later).1.Some?
    ensures var g := AuthStep(f, id, ClientRequest(id.psk, x.public(clientEph), ts, id.staticPub, sid, chanIdx), now, later).1.value;
            var c := ClientKeys(x, clientEph, x.public(serverEph), id.staticPub, sid, chanIdx);
            var s := ServerKeys(x, serverEph, static_, g.eph, g.sid, g.chanIdx);
            (c.Some? <==> s.Some?) && (c.Some? ==> c.value.tx == s.value.rx && c.value.rx == s.value.tx)
  {
    ClientRequestGrantedExactly(f, id, id.psk, x.public(clientEph), ts, id.staticPub, sid, chanIdx, now, later);
    KeyAgreement(x, clientEph, serverEph, static_, sid, chanIdx);
  }

  /** A handler that joined and then gives up leaves no trace. */
  lemma GivingUpUndoesJoining(s: Server, hosts: set<u32>, t: nat, g: Grant)
    requires Inv(s, hosts) && t < |s.tunnels| && !Unlisted(s.tunnels[t]) && s.tunnels[t].sid == g.sid
    requires 0 <= g.chanIdx < 16 && |s.tunnels[t].life.core.channels| < 16
    ensures Step(Step(s, Enter(g)), Abandon(t, g.chanIdx)) == s
  {
    JoinsExactly(s, hosts, t, g);
    assert s.pending + multiset{(t, g.chanIdx)} - multiset{(t, g.chanIdx)} == s.pending;
  }

  // ------------------------------------------------------------------ a whole session

  /** The session's channels come up one after the other. */
  function ComeUp(sid: Sid, eph: Key32, t: nat, idxs: seq<int>): seq<Event> {
    if idxs == [] then []
    else
      var n := |idxs| - 1;
      ComeUp(sid, eph, t, idxs[..n]) + [Enter(Grant(eph, sid, idxs[n])), Attach(t, idxs[n])]
  }

  function Elements(idxs: seq<int>): set<int> {
    set i | i in idxs
  }

  /** s is s0 with one more session, tunnel t, whose channels are idxs. */
  ghost predicate Up(s0: Server, s: Server, sid: Sid, t: nat, idxs: seq<int>) {
    && t == |s0.tunnels| && |s.tunnels| == t + 1 && s.tunnels[..t] == s0.tunnels
    && s.pool == Pool.Alloc(s0.pool).0 && s.sessions == s0.sessions[sid := t] && s.pending == s0.pending
    && var u := s.tunnels[t];
    && u.sid == sid && !u.life.core.closed && u.life.core.once == L.Idle
    && Some(u.ip) == Pool.Alloc(s0.pool).1
    && u.life.core.order == idxs && u.life.core.channels.Keys == Elements(idxs)
  }

  /** No session of this id, and an address for one. */
  ghost predicate Ready(s: Server, hosts: set<u32>, sid: Sid) {
    && Inv(s, hosts) && s.pool.free != []
    && forall t :: 0 <= t < |s.tunnels| && !Unlisted(s.tunnels[t]) ==> s.tunnels[t].sid != sid
  }

  /** Distinct numbers below sixteen. */
  ghost predicate Indices(idxs: seq<int>) {
    NoDup(idxs) && forall k :: 0 <= k < |idxs| ==> 0 <= idxs[k] < 16
  }

  lemma IndicesFront(idxs: seq<int>)
    requires Indices(idxs) && idxs != []
    ensures var n := |idxs| - 1;
            Indices(idxs[..n]) && 0 <= idxs[n] < 16 && idxs[n] !in idxs[..n] && idxs == idxs[..n] + [idxs[n]]
  {
  }

  lemma ElementsFit(idxs: seq<int>, i: int)
    requires Indices(idxs) && 0 <= i < 16 && i !in idxs
    ensures |Elements(idxs)| < 16
  {
    forall x | x in Elements(idxs) + {i} ensures x in Below(16) {
      BelowIs(16, x);
    }
    SubsetSize(Elements(idxs) + {i}, Below(16));
  }

  lemma UpFirst(s0: Server, hosts: set<u32>, sid: Sid, eph: Key32, i: int)
    requires Ready(s0, hosts, sid) && 0 <= i < 16
    ensures Up(s0, Step(Step(s0, Enter(Grant(eph, sid, i))), Attach(|s0.tunnels|, i)), sid, |s0.tunnels|, [i])
  {
    var g, t := Grant(eph, sid, i), |s0.tunnels|;
    OpensExactly(s0, hosts, g);
    var s1 := Step(s0, Enter(g));
    assert (t, i) in s1.pending;
    AttachesExactly(s1, t, i);
    FirstShape(s0, s1, Step(s1, Attach(t, i)), sid, i);
  }

  lemma FirstShape(s0: Server, s1: Server, s2: Server, sid: Sid, i: int)
    requires s0.pool.free != []
    requires var t, (pool', r) := |s0.tunnels|, Pool.Alloc(s0.pool);
             s1 == s0.(sessions := s0.sessions[sid := t], pool := pool',
                       tunnels := s0.tunnels + [Tunnel(sid, r.value, PrintCidr(r.value, s0.prefix), L.Start(), NotStarted)],
                       pending := s0.pending + multiset{(t, i)})
    requires AttachedAt(s1, s2, |s0.tunnels|, i)
    ensures Up(s0, s2, sid, |s0.tunnels|, [i])
  {
    assert s0.pending + multiset{(|s0.tunnels|, i)} - multiset{(|s0.tunnels|, i)} == s0.pending;
    assert s2.tunnels[..|s0.tunnels|] == s0.tunnels;
    assert s2.tunnels[|s0.tunnels|].life.core.order == [] + [i] == [i];
  }

  lemma UpNext(s0: Server, s: Server, hosts: set<u32>, sid: Sid, eph: Key32, t: nat, idxs: seq<int>, i: int)
    requires Up(s0, s, sid, t, idxs) && Inv(s, hosts) && Indices(idxs + [i])
    ensures Up(s0, Step(Step(s, Enter(Grant(eph, sid, i))), Attach(t, i)), sid, t, idxs + [i])
  {
    var g := Grant(eph, sid, i);
    IndicesFront(idxs + [i]);
    assert (idxs + [i])[..|idxs|] == idxs;
    ElementsFit(idxs, i);
    assert |s.tunnels[t].life.core.channels| == |s.tunnels[t].life.core.channels.Keys|;
    JoinsExactly(s, hosts, t, g);
    var s1 := Step(s, Enter(g));
    AttachesExactly(s1, t, i);
    NextShape(s0, s, Step(s1, Attach(t, i)), sid, t, idxs, i);
  }

  lemma NextShape(s0: Server, s: Server, s2: Server, sid: Sid, t: nat, idxs: seq<int>, i: int)
    requires Up(s0, s, sid, t, idxs) && AttachedAt(s.(pending := s.pending + multiset{(t, i)}), s2, t, i)
    ensures Up(s0, s2, sid, t, idxs + [i])
  {
    assert s.pending + multiset{(t, i)} - multiset{(t, i)} == s.pending;
    assert Elements(idxs + [i]) == Elements(idxs) + {i};
    assert s2.tunnels[..t] == s.tunnels[..t];
  }

  lemma ComeUpNext(s0: Server, sid: Sid, eph: Key32, t: nat, idxs: seq<int>)
    requires idxs != []
    ensures var n := |idxs| - 1;
            var s := Run(s0, ComeUp(sid, eph, t, idxs[..n]));
            && Run(s0, ComeUp(sid, eph, t, idxs)) == Step(Step(s, Enter(Grant(eph, sid, idxs[n]))), Attach(t, idxs[n]))
            && (n == 0 ==> s == s0)
  {
    var n := |idxs| - 1;
    var before, last := ComeUp(sid, eph, t, idxs[..n]), [Enter(Grant(eph, sid, idxs[n])), Attach(t, idxs[n])];
    RunConcat(s0, before, last);
    RunTwo(Run(s0, before), Enter(Grant(eph, sid, idxs[n])), Attach(t, idxs[n]));
  }

  /** A session admitted under distinct indices, in whatever sequence, ends with exactly those channels, in that
      sequence, on one address. */
  lemma {:induction false} SessionComesUp(s0: Server, hosts: set<u32>, sid: Sid, eph: Key32, idxs: seq<int>)
    requires Ready(s0, hosts, sid) && idxs != [] && Indices(idxs)
    ensures Up(s0, Run(s0, ComeUp(sid, eph, |s0.tunnels|, idxs)), sid, |s0.tunnels|, idxs)
    decreases |idxs|
  {
    var n, t := |idxs| - 1, |s0.tunnels|;
    var front, i := idxs[..n], idxs[n];
    ComeUpNext(s0, sid, eph, t, idxs);
    IndicesFront(idxs);
    if front == [] {
      UpFirst(s0, hosts, sid, eph, i);
    } else {
      SessionComesUp(s0, hosts, sid, eph, front);
      RunKeepsInv(s0, hosts, ComeUp(sid, eph, t, front));
      UpNext(s0, Run(s0, ComeUp(sid, eph, t, front)), hosts, sid, eph, t, front, i);
    }
  }

  lemma ElementsOfFirst(n: nat)
    ensures Elements(seq(n, i => i)) == Below(n)
  {
    var idxs: seq<int> := seq(n, i => i);
    forall i ensures i in Elements(idxs) <==> i in Below(n) {
      BelowIs(n, i);
      if 0 <= i < n {
        assert idxs[i] == i;
      }
    }
  }

  /** In particular, for every n up to sixteen, indices 0 to n - 1 give n channels. */
  lemma SessionOfAnySize(s0: Server, hosts: set<u32>, sid: Sid, eph: Key32, n: nat)
    requires Ready(s0, hosts, sid) && 0 < n <= 16
    ensures var t, s := |s0.tunnels|, Run(s0, ComeUp(sid, eph, |s0.tunnels|, seq(n, i => i)));
            t < |s.tunnels| && |s.tunnels[t].life.core.channels| == n
  {
    var idxs: seq<int> := seq(n, i => i);
    SessionComesUp(s0, hosts, sid, eph, idxs);
    ElementsOfFirst(n);
    CountedByKeys(Run(s0, ComeUp(sid, eph, |s0.tunnels|, idxs)), |s0.tunnels|, n);
  }

  lemma CountedByKeys(s: Server, t: nat, n: nat)
    requires t < |s.tunnels| && s.tunnels[t].life.core.channels.Keys == Below(n)
    ensures |s.tunnels[t].life.core.channels| == n
  {
    assert |s.tunnels[t].life.core.channels| == |s.tunnels[t].life.core.channels.Keys|;
  }
}
