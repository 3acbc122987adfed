/** Admission of a channel: token, freshness window, replay (Handler.checkAuth in internal/transport/server.go). */
module Auth {
  import opened Bytes
  import opened Handshake
  import opened Replay
  import opened Wrappers

  /** Accepted clock skew, in seconds, on either side. */
  const AUTH_WINDOW := 120

  /** The cookies after decoding; None where one is missing or does not decode. */
  datatype Request = Request(
    eph: Option<Key32>, token: Option<Tag>, sid: Option<seq<u8>>, chanIdx: Option<int>, ts: Option<i64>)

  datatype Grant = Grant(eph: Key32, sid: seq<u8>, chanIdx: int)

  /** What the server knows: the shared key and its own public identity. */
  datatype Identity = Identity(psk: seq<u8>, staticPub: Key32)

  /** Everything checkAuth asks of a request before it consults the replay filter. */
  predicate Admissible(id: Identity, r: Request, now: int) {
    && r.eph.Some? && r.token.Some? && r.sid.Some? && |r.sid.value| == 16
    && r.chanIdx.Some? && 0 <= r.chanIdx.value < MAX_CHANNELS_PER_SESSION
    && r.ts.Some? && now - AUTH_WINDOW <= r.ts.value <= now + AUTH_WINDOW
    && r.token.value == AuthToken(id.psk, r.eph.value, r.ts.value, id.staticPub, r.sid.value)
  }

  /** checkAuth as a function: the window is checked at `now`, the filter reads the clock again at `later`. */
  function AuthStep(f: Filter<Tag>, id: Identity, r: Request, now: int, later: int): (Filter<Tag>, Option<Grant>) {
    if !Admissible(id, r, now) then (f, None)
    else
      var (f', ok) := CheckStep(f, r.token.value, later);
      (f', if ok then Some(Grant(r.eph.value, r.sid.value, r.chanIdx.value)) else None)
  }

  class Gate {
    const id: Identity
    const replay: ReplayFilter<Tag>

    constructor (id: Identity)
      ensures this.id == id && fresh(replay)
      ensures replay.State() == Filter(map[], 2 * AUTH_WINDOW, 0)
    {
      this.id := id;
      replay := new ReplayFilter(2 * AUTH_WINDOW * NANOS_PER_SECOND);
    }

    method CheckAuth(r: Request, now: int, later: int) returns (grant: Option<Grant>)
      modifies replay
      ensures (replay.State(), grant) == AuthStep(old(replay.State()), id, r, now, later)
    {
      if r.eph.None? || r.ts.None? || r.token.None? || r.sid.None? || r.chanIdx.None? {
        return None;
      }
      var sid, chanIdx, ts := r.sid.value, r.chanIdx.value, r.ts.value;
      if |sid| != 16 {
        return None;
      }
      if chanIdx < 0 || chanIdx >= MAX_CHANNELS_PER_SESSION {
        return None;
      }
      if ts < now - AUTH_WINDOW || ts > now + AUTH_WINDOW {
        return None;
      }
      var want := AuthToken(id.psk, r.eph.value, ts, id.staticPub, sid);
      if want != r.token.value {
        return None;
      }
      var ok := replay.Check(r.token.value, later);
      if !ok {
        return None;
      }
      grant := Some(Grant(r.eph.value, sid, chanIdx));
    }
  }

  // ------------------------------------------------------------------ what is admitted, and what is granted

  /** What dialChannel sends (internal/transport/client.go). */
  function ClientRequest(psk: seq<u8>, ephPub: Key32, ts: i64, serverStatic: Key32, sid: seq<u8>, chanIdx: int): Request {
    Request(Some(ephPub), Some(AuthToken(psk, ephPub, ts, serverStatic, sid)), Some(sid), Some(chanIdx), Some(ts))
  }

  /** A grant repeats the request: its key, its session and its channel. */
  lemma GrantIsTheRequest(f: Filter<Tag>, id: Identity, r: Request, now: int, later: int)
    ensures match AuthStep(f, id, r, now, later).1
            case None => true
            case Some(g) => r.eph == Some(g.eph) && r.sid == Some(g.sid) && r.chanIdx == Some(g.chanIdx)
  {
  }

  /** A client's request is granted exactly when client and server agree on the shared key and on the server's static
      key, the session id has 16 bytes, the channel is one of 16, the clocks differ by 120 s at most, and the token is
      fresh; and what is granted is what was asked for. */
  lemma ClientRequestGrantedExactly(f: Filter<Tag>, id: Identity, psk: seq<u8>, ephPub: Key32, ts: i64, serverStatic: Key32,
                                    sid: seq<u8>, chanIdx: int, now: int, later: int)
    ensures var r := ClientRequest(psk, ephPub, ts, serverStatic, sid, chanIdx);
            AuthStep(f, id, r, now, later).1 ==
              if && psk == id.psk && serverStatic == id.staticPub && |sid| == 16 && 0 <= chanIdx < 16
                 && -120 <= ts - now <= 120 && CheckStep(f, r.token.value, later).1
              then Some(Grant(ephPub, sid, chanIdx)) else None
  {
    var want := AuthToken(id.psk, ephPub, ts, id.staticPub, sid);
    if want == AuthToken(psk, ephPub, ts, serverStatic, sid) {
      AuthMessageInjective(ephPub, ts, id.staticPub, sid, ephPub, ts, serverStatic, sid);
    }
  }

  /** A token admits nothing but what it was made for: the ephemeral key, timestamp and session it names, at the server
      it names, under the shared key. */
  lemma TokenBinds(f: Filter<Tag>, id: Identity, r: Request, now: int, later: int,
                   psk: seq<u8>, ephPub: Key32, ts: i64, serverStatic: Key32, sid: seq<u8>)
    requires r.token == Some(AuthToken(psk, ephPub, ts, serverStatic, sid))
    requires AuthStep(f, id, r, now, later).1.Some?
    ensures psk == id.psk && serverStatic == id.staticPub
    ensures r.eph == Some(ephPub) && r.ts == Some(ts) && r.sid == Some(sid)
  {
    AuthMessageInjective(r.eph.value, r.ts.value, id.staticPub, r.sid.value, ephPub, ts, serverStatic, sid);
  }

  // ------------------------------------------------------------------ how often a token is good

  /** One request with the two clock readings made for it, in the order the filter's lock was taken. */
  datatype Attempt = Attempt(r: Request, now: int, later: nat)

  ghost predicate Ordered(attempts: seq<Attempt>) {
    forall i, j :: 0 <= i < j < |attempts| ==> attempts[i].later <= attempts[j].later
  }

  /** The filter after the first n attempts. */
  function FilterAfter(id: Identity, ttl: int, attempts: seq<Attempt>, n: nat): Filter<Tag>
    requires n <= |attempts|
  {
    if n == 0 then Replay.Fresh(ttl)
    else AuthStep(FilterAfter(id, ttl, attempts, n - 1), id, attempts[n - 1].r, attempts[n - 1].now, attempts[n - 1].later).0
  }

  predicate Accepted(id: Identity, ttl: int, attempts: seq<Attempt>, i: nat)
    requires i < |attempts|
  {
    AuthStep(FilterAfter(id, ttl, attempts, i), id, attempts[i].r, attempts[i].now, attempts[i].later).1.Some?
  }

  /** Attempts i and j carry one token and both were let in. */
  ghost predicate AcceptedTwice(id: Identity, ttl: int, attempts: seq<Attempt>, i: nat, j: nat) {
    && i < j < |attempts| && Accepted(id, ttl, attempts, i) && Accepted(id, ttl, attempts, j)
    && attempts[i].r.token == attempts[j].r.token
  }

  lemma {:induction false} TokenStaysRemembered(id: Identity, ttl: int, attempts: seq<Attempt>, i: nat, n: nat)
    requires i < n <= |attempts| && ttl > 0 && Ordered(attempts) && Accepted(id, ttl, attempts, i)
    ensures FilterAfter(id, ttl, attempts, n).ttl == ttl
    ensures Remembered(FilterAfter(id, ttl, attempts, n), attempts[i].r.token.value, attempts[i].later + ttl, attempts[n - 1].later)
    decreases n
  {
    TtlIsConstant(id, ttl, attempts, n - 1);
    var f, a := FilterAfter(id, ttl, attempts, n - 1), attempts[n - 1];
    if i < n - 1 {
      TokenStaysRemembered(id, ttl, attempts, i, n - 1);
      if Admissible(id, a.r, a.now) {
        CheckRemembers(f, a.r.token.value, a.later, attempts[i].r.token.value, attempts[i].later + ttl, attempts[n - 2].later);
      }
    }
  }

  lemma {:induction false} TtlIsConstant(id: Identity, ttl: int, attempts: seq<Attempt>, n: nat)
    requires n <= |attempts|
    ensures FilterAfter(id, ttl, attempts, n).ttl == ttl
  {
    if n > 0 {
      TtlIsConstant(id, ttl, attempts, n - 1);
    }
  }

  /** Two acceptances of one token share its timestamp, fall within one window of it, and are a whole lifetime apart. */
  lemma AcceptancesAreFarApart(id: Identity, ttl: int, attempts: seq<Attempt>, i: nat, j: nat)
    requires ttl > 0 && Ordered(attempts) && AcceptedTwice(id, ttl, attempts, i, j)
    ensures attempts[i].r.ts == attempts[j].r.ts && attempts[i].r.ts.Some?
    ensures attempts[j].later >= attempts[i].later + ttl
    ensures attempts[j].now <= attempts[j].r.ts.value + AUTH_WINDOW <= attempts[i].now + 2 * AUTH_WINDOW
  {
    var a, b := attempts[i].r, attempts[j].r;
    AuthMessageInjective(a.eph.value, a.ts.value, id.staticPub, a.sid.value, b.eph.value, b.ts.value, id.staticPub, b.sid.value);
    TokenStaysRemembered(id, ttl, attempts, i, j);
    CheckRemembers(FilterAfter(id, ttl, attempts, j), b.token.value, attempts[j].later,
                   a.token.value, attempts[i].later + ttl, attempts[j - 1].later);
  }

  /** Both readings of the clock fall within d seconds of each other. */
  ghost predicate Prompt(attempts: seq<Attempt>, d: nat) {
    forall k :: 0 <= k < |attempts| ==> attempts[k].now <= attempts[k].later <= attempts[k].now + d
  }

  /** As deployed, with both readings in the same second: a token let in twice was let in at the first and the
      last second it was valid, exactly 240 s apart. */
  lemma SecondAcceptanceIsAtTheBoundary(id: Identity, attempts: seq<Attempt>, i: nat, j: nat)
    requires Ordered(attempts) && Prompt(attempts, 0) && AcceptedTwice(id, 2 * AUTH_WINDOW, attempts, i, j)
    ensures attempts[j].now == attempts[i].now + 240
    ensures attempts[i].r.ts == Some(attempts[i].now + 120)
  {
    AcceptancesAreFarApart(id, 2 * AUTH_WINDOW, attempts, i, j);
  }

  /** A third acceptance never happens, even if a call may pause for up to 239 s between its two readings. */
  lemma NeverThreeTimes(id: Identity, attempts: seq<Attempt>, i: nat, j: nat, k: nat)
    requires Ordered(attempts) && Prompt(attempts, 239) && AcceptedTwice(id, 2 * AUTH_WINDOW, attempts, i, j)
    ensures !AcceptedTwice(id, 2 * AUTH_WINDOW, attempts, j, k)
  {
    AcceptancesAreFarApart(id, 2 * AUTH_WINDOW, attempts, i, j);
    if AcceptedTwice(id, 2 * AUTH_WINDOW, attempts, j, k) {
      AcceptancesAreFarApart(id, 2 * AUTH_WINDOW, attempts, j, k);
      AcceptancesAreFarApart(id, 2 * AUTH_WINDOW, attempts, i, k);
    }
  }

  ghost predicate Replayable(id: Identity, ttl: int, d: nat) {
    exists attempts, i, j :: Ordered(attempts) && Prompt(attempts, d) && AcceptedTwice(id, ttl, attempts, i, j)
  }

  /** The lifetime that makes tokens single-use: a token can be accepted twice exactly when the lifetime is at
      most the window's whole span plus the longest pause. */
  lemma ReplayableExactly(id: Identity, ttl: int, d: nat)
    requires ttl > 0
    ensures Replayable(id, ttl, d) <==> ttl <= 2 * AUTH_WINDOW + d
  {
    if Replayable(id, ttl, d) {
      var attempts, i, j :| Ordered(attempts) && Prompt(attempts, d) && AcceptedTwice(id, ttl, attempts, i, j);
      AcceptancesAreFarApart(id, ttl, attempts, i, j);
    }
    if ttl <= 2 * AUTH_WINDOW + d {
      var attempts := BoundaryReplay(id, ttl, d, 1000);
    }
  }

  ghost predicate AcceptedThrice(id: Identity, ttl: int, attempts: seq<Attempt>, i: nat, j: nat, k: nat) {
    AcceptedTwice(id, ttl, attempts, i, j) && AcceptedTwice(id, ttl, attempts, j, k)
  }

  ghost predicate Thrice(id: Identity, ttl: int, d: nat) {
    exists attempts, i, j, k :: Ordered(attempts) && Prompt(attempts, d) && AcceptedThrice(id, ttl, attempts, i, j, k)
  }

  /** A token can be accepted three times exactly when two lifetimes fit into the window's whole span plus the
      longest pause; as deployed, with a lifetime of 240 s, that takes a pause of 240 s. */
  lemma ThriceExactly(id: Identity, ttl: int, d: nat)
    requires ttl > 0
    ensures Thrice(id, ttl, d) <==> 2 * ttl <= 2 * AUTH_WINDOW + d
  {
    if Thrice(id, ttl, d) {
      var attempts, i, j, k :| Ordered(attempts) && Prompt(attempts, d) && AcceptedThrice(id, ttl, attempts, i, j, k);
      AcceptancesAreFarApart(id, ttl, attempts, i, j);
      AcceptancesAreFarApart(id, ttl, attempts, j, k);
      AcceptancesAreFarApart(id, ttl, attempts, i, k);
    }
    if 2 * ttl <= 2 * AUTH_WINDOW + d {
      var attempts := TripleReplay(id, ttl, d, 1000);
      assert AcceptedThrice(id, ttl, attempts, 0, 1, 2);
    }
  }

  /** A well-formed request stamped as far ahead of time t as is accepted. */
  function StampedAhead(id: Identity, t: nat): Request
    requires t < 0x1_0000_0000
  {
    var ts: i64 := t + AUTH_WINDOW;
    var sid: seq<u8> := seq(16, _ => 0);
    Request(Some(ZERO_KEY), Some(AuthToken(id.psk, ZERO_KEY, ts, id.staticPub, sid)), Some(sid), Some(0), Some(ts))
  }

  lemma StampedAheadIsAdmissible(id: Identity, t: nat, now: int)
    requires t < 0x1_0000_0000 && t <= now <= t + 2 * AUTH_WINDOW
    ensures Admissible(id, StampedAhead(id, t), now)
  {
  }

  /** A token the filter does not hold, or holds expired, is taken and held for a lifetime. */
  lemma ExpiredIsAccepted(f: Filter<Tag>, id: Identity, r: Request, now: int, later: int)
    requires Admissible(id, r, now) && (r.token.value in f.seen ==> f.seen[r.token.value] <= later)
    ensures var (f', grant) := AuthStep(f, id, r, now, later);
            grant.Some? && f'.ttl == f.ttl && r.token.value in f'.seen && f'.seen[r.token.value] == later + f.ttl
  {
  }

  /** The replay: one token, presented in the first second it is valid and, after a pause, in the last. */
  lemma BoundaryReplay(id: Identity, ttl: int, d: nat, t: nat) returns (attempts: seq<Attempt>)
    requires 0 < ttl <= 2 * AUTH_WINDOW + d && t < 0x1_0000_0000
    ensures Ordered(attempts) && Prompt(attempts, d) && |attempts| == 2 && AcceptedTwice(id, ttl, attempts, 0, 1)
    ensures attempts == [Attempt(StampedAhead(id, t), t, t),
                         Attempt(StampedAhead(id, t), t + 2 * AUTH_WINDOW, t + 2 * AUTH_WINDOW + d)]
  {
    var r := StampedAhead(id, t);
    attempts := [Attempt(r, t, t), Attempt(r, t + 2 * AUTH_WINDOW, t + 2 * AUTH_WINDOW + d)];
    StampedAheadIsAdmissible(id, t, t);
    StampedAheadIsAdmissible(id, t, t + 2 * AUTH_WINDOW);
    ExpiredIsAccepted(FilterAfter(id, ttl, attempts, 0), id, r, t, t);
    ExpiredIsAccepted(FilterAfter(id, ttl, attempts, 1), id, r, t + 2 * AUTH_WINDOW, t + 2 * AUTH_WINDOW + d);
  }

  /** One lifetime apart each, the window checked as late as the token allows. */
  lemma TripleReplay(id: Identity, ttl: int, d: nat, t: nat) returns (attempts: seq<Attempt>)
    requires 0 < 2 * ttl <= 2 * AUTH_WINDOW + d && t < 0x1_0000_0000
    ensures Ordered(attempts) && Prompt(attempts, d) && |attempts| == 3
    ensures AcceptedTwice(id, ttl, attempts, 0, 1) && AcceptedTwice(id, ttl, attempts, 1, 2)
  {
    var r, last := StampedAhead(id, t), t + 2 * AUTH_WINDOW;
    var now1 := if t + ttl <= last then t + ttl else last;
    var now2 := if t + 2 * ttl <= last then t + 2 * ttl else last;
    attempts := [Attempt(r, t, t), Attempt(r, now1, t + ttl), Attempt(r, now2, t + 2 * ttl)];
    StampedAheadIsAdmissible(id, t, t);
    StampedAheadIsAdmissible(id, t, now1);
    StampedAheadIsAdmissible(id, t, now2);
    ExpiredIsAccepted(FilterAfter(id, ttl, attempts, 0), id, r, t, t);
    ExpiredIsAccepted(FilterAfter(id, ttl, attempts, 1), id, r, now1, t + ttl);
    ExpiredIsAccepted(FilterAfter(id, ttl, attempts, 2), id, r, now2, t + 2 * ttl);
  }
}
