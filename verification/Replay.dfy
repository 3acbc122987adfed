/** The replay filter (ReplayFilter in internal/crypto/crypto.go). */
module Replay {
  import opened Bytes

  const NANOS_PER_SECOND := 1_000_000_000
  const DEFAULT_TTL := 300

  datatype Filter<Token> = Filter(seen: map<Token, int>, ttl: int, lastGC: int)

  /** The lifetime in whole seconds a filter made for a duration in nanoseconds uses. */
  function TtlSeconds(nanos: i64): int {
    if nanos < NANOS_PER_SECOND then DEFAULT_TTL else nanos / NANOS_PER_SECOND
  }

  /** Whole seconds, rounded down; 300 for less than one. */
  lemma TtlIsWholeSeconds(nanos: i64)
    ensures var ttl := TtlSeconds(nanos);
            if nanos < 1_000_000_000 then ttl == 300 else ttl * 1_000_000_000 <= nanos < (ttl + 1) * 1_000_000_000
  {
  }

  function Fresh<Token>(ttl: int): Filter<Token> {
    Filter(map[], ttl, 0)
  }

  /** The entries not yet expired. */
  function Live<Token>(seen: map<Token, int>, now: int): map<Token, int> {
    map k | k in seen && seen[k] > now :: seen[k]
  }

  function Sweep<Token>(f: Filter<Token>, now: int): Filter<Token> {
    if now - f.lastGC > f.ttl then f.(seen := Live(f.seen, now), lastGC := now) else f
  }

  function CheckStep<Token>(f: Filter<Token>, token: Token, now: int): (Filter<Token>, bool) {
    var f' := Sweep(f, now);
    if token in f'.seen && f'.seen[token] > now then (f', false)
    else (f'.(seen := f'.seen[token := now + f.ttl]), true)
  }

  class ReplayFilter<Token(==)> {
    var seen: map<Token, int>
    var lastGC: int
    const ttl: int

    ghost function State(): Filter<Token>
      reads this
    {
      Filter(seen, ttl, lastGC)
    }

    constructor (nanos: i64)
      ensures State() == Filter(map[], TtlSeconds(nanos), 0)
      ensures ttl > 0
    {
      seen := map[];
      lastGC := 0;
      ttl := if nanos < NANOS_PER_SECOND then DEFAULT_TTL else nanos / NANOS_PER_SECOND;
    }

    /** True iff the token is fresh at time `now`; records it then. */
    method Check(token: Token, now: int) returns (accepted: bool)
      modifies this
      ensures (State(), accepted) == CheckStep(old(State()), token, now)
    {
      if now - lastGC > ttl {
        var keys := seen.Keys;
        while keys != {}
          invariant keys <= old(seen).Keys
          invariant lastGC == old(lastGC)
          invariant seen == map k | k in old(seen) && (k in keys || old(seen)[k] > now) :: old(seen)[k]
          decreases |keys|
        {
          var k :| k in keys;
          keys := keys - {k};
          if seen[k] <= now {
            seen := seen - {k};
          }
        }
        assert seen == Live(old(seen), now);
        lastGC := now;
      }
      assert State() == Sweep(old(State()), now);
      if token in seen && seen[token] > now {
        return false;
      }
      seen := seen[token := now + ttl];
      accepted := true;
    }
  }

  // ------------------------------------------------------------------ what the filter decides

  datatype Call<Token> = Call(token: Token, now: nat)

  ghost predicate Ordered<Token>(calls: seq<Call<Token>>) {
    forall i, j :: 0 <= i < j < |calls| ==> calls[i].now <= calls[j].now
  }

  /** The filter after the first n calls. */
  function After<Token>(ttl: int, calls: seq<Call<Token>>, n: nat): Filter<Token>
    requires n <= |calls|
  {
    if n == 0 then Fresh(ttl) else CheckStep(After(ttl, calls, n - 1), calls[n - 1].token, calls[n - 1].now).0
  }

  /** What the filter answers to call i. */
  function Answer<Token(==)>(ttl: int, calls: seq<Call<Token>>, i: nat): bool
    requires i < |calls|
  {
    CheckStep(After(ttl, calls, i), calls[i].token, calls[i].now).1
  }

  /** The rule it should follow, with no map and no sweep: call i is fresh unless an earlier fresh call for its
      token is still within its lifetime. */
  ghost predicate IsFresh<Token(!new)>(ttl: int, calls: seq<Call<Token>>, i: nat)
    requires i < |calls|
    decreases i
  {
    forall j {:trigger calls[j]} :: 0 <= j < i && calls[j].token == calls[i].token && IsFresh(ttl, calls, j)
      ==> calls[j].now + ttl <= calls[i].now
  }

  /** Entry k of the map is the expiry of some fresh call. */
  ghost predicate Justified<Token(!new)>(ttl: int, calls: seq<Call<Token>>, n: nat, k: Token, expiry: int)
    requires n <= |calls|
  {
    exists j {:trigger calls[j]} :: 0 <= j < n && calls[j].token == k && IsFresh(ttl, calls, j) && calls[j].now + ttl == expiry
  }

  /** A fresh call is remembered at least until its expiry. */
  ghost predicate Remembered<Token>(f: Filter<Token>, token: Token, expiry: int, now: int) {
    expiry <= now || (token in f.seen && f.seen[token] >= expiry)
  }

  ghost predicate Faithful<Token(!new)>(ttl: int, calls: seq<Call<Token>>, n: nat, now: int)
    requires n <= |calls|
  {
    After(ttl, calls, n).ttl == ttl && AllJustified(ttl, calls, n) && AllRemembered(ttl, calls, n, now)
  }

  ghost predicate AllJustified<Token(!new)>(ttl: int, calls: seq<Call<Token>>, n: nat)
    requires n <= |calls|
  {
    var f := After(ttl, calls, n);
    forall k :: k in f.seen ==> Justified(ttl, calls, n, k, f.seen[k])
  }

  ghost predicate AllRemembered<Token(!new)>(ttl: int, calls: seq<Call<Token>>, n: nat, now: int)
    requires n <= |calls|
  {
    var f := After(ttl, calls, n);
    forall j {:trigger calls[j]} :: 0 <= j < n && IsFresh(ttl, calls, j)
      ==> Remembered(f, calls[j].token, calls[j].now + ttl, now)
  }

  /** A call at a later time forgets nothing that still matters. */
  lemma CheckRemembers<Token>(f: Filter<Token>, called: Token, now: int, token: Token, expiry: int, last: int)
    requires Remembered(f, token, expiry, last) && last <= now && f.ttl > 0
    ensures Remembered(CheckStep(f, called, now).0, token, expiry, now)
    ensures token == called && CheckStep(f, called, now).1 ==> expiry <= now
  {
  }

  lemma CheckEntries<Token>(f: Filter<Token>, called: Token, now: int, k: Token)
    ensures var (f', ok) := CheckStep(f, called, now);
            && f'.ttl == f.ttl
            && (k in f'.seen ==> (ok && k == called && f'.seen[k] == now + f.ttl) || (k in f.seen && f'.seen[k] == f.seen[k]))
            && (!ok ==> called in f.seen && f.seen[called] > now)
  {
  }

  lemma AnswerFollowsRule<Token(!new)>(ttl: int, calls: seq<Call<Token>>, n: nat, last: int)
    requires n < |calls| && ttl > 0 && Faithful(ttl, calls, n, last) && last <= calls[n].now
    ensures Answer(ttl, calls, n) == IsFresh(ttl, calls, n)
  {
    var f, c := After(ttl, calls, n), calls[n];
    if !Answer(ttl, calls, n) {
      CheckEntries(f, c.token, c.now, c.token);
      assert Justified(ttl, calls, n, c.token, f.seen[c.token]);
    } else {
      forall j {:trigger calls[j]} | 0 <= j < n && calls[j].token == c.token && IsFresh(ttl, calls, j)
        ensures calls[j].now + ttl <= c.now
      {
        CheckRemembers(f, c.token, c.now, calls[j].token, calls[j].now + ttl, last);
      }
    }
  }

  lemma EntriesStayJustified<Token(!new)>(ttl: int, calls: seq<Call<Token>>, n: nat, last: int, k: Token)
    requires n < |calls| && ttl > 0 && Faithful(ttl, calls, n, last)
    requires Answer(ttl, calls, n) == IsFresh(ttl, calls, n)
    requires k in After(ttl, calls, n + 1).seen
    ensures Justified(ttl, calls, n + 1, k, After(ttl, calls, n + 1).seen[k])
  {
    var f, f', c := After(ttl, calls, n), After(ttl, calls, n + 1), calls[n];
    CheckEntries(f, c.token, c.now, k);
    if k in f.seen && f'.seen[k] == f.seen[k] {
      assert Justified(ttl, calls, n, k, f.seen[k]);
    } else {
      assert calls[n].token == k;
    }
  }

  lemma MemoryStep<Token(!new)>(ttl: int, calls: seq<Call<Token>>, n: nat, last: int)
    requires n < |calls| && ttl > 0 && Faithful(ttl, calls, n, last) && last <= calls[n].now
    requires Answer(ttl, calls, n) == IsFresh(ttl, calls, n)
    ensures AllRemembered(ttl, calls, n + 1, calls[n].now)
  {
    var f' := After(ttl, calls, n + 1);
    forall j {:trigger calls[j]} | 0 <= j < n + 1 && IsFresh(ttl, calls, j)
      ensures Remembered(f', calls[j].token, calls[j].now + ttl, calls[n].now)
    {
      OneRemembered(After(ttl, calls, n), ttl, calls, n, last, j);
    }
  }

  lemma OneRemembered<Token(!new)>(f: Filter<Token>, ttl: int, calls: seq<Call<Token>>, n: nat, last: int, j: nat)
    requires j <= n < |calls| && ttl > 0 && f.ttl == ttl && last <= calls[n].now
    requires j < n ==> Remembered(f, calls[j].token, calls[j].now + ttl, last)
    requires j == n ==> CheckStep(f, calls[n].token, calls[n].now).1
    ensures Remembered(CheckStep(f, calls[n].token, calls[n].now).0, calls[j].token, calls[j].now + ttl, calls[n].now)
  {
    if j < n {
      CheckRemembers(f, calls[n].token, calls[n].now, calls[j].token, calls[j].now + ttl, last);
    } else {
      AcceptedIsRemembered(f, calls[n].token, calls[n].now);
    }
  }

  lemma AcceptedIsRemembered<Token>(f: Filter<Token>, token: Token, now: int)
    requires CheckStep(f, token, now).1
    ensures Remembered(CheckStep(f, token, now).0, token, now + f.ttl, now)
  {
  }

  /** One call: the answer follows the rule, and the filter stays faithful. */
  lemma FaithfulStep<Token(!new)>(ttl: int, calls: seq<Call<Token>>, n: nat, last: int)
    requires n < |calls| && ttl > 0 && Faithful(ttl, calls, n, last) && last <= calls[n].now
    ensures Answer(ttl, calls, n) == IsFresh(ttl, calls, n)
    ensures Faithful(ttl, calls, n + 1, calls[n].now)
  {
    AnswerFollowsRule(ttl, calls, n, last);
    CheckEntries(After(ttl, calls, n), calls[n].token, calls[n].now, calls[n].token);
    var f' := After(ttl, calls, n + 1);
    forall k | k in f'.seen ensures Justified(ttl, calls, n + 1, k, f'.seen[k]) {
      EntriesStayJustified(ttl, calls, n, last, k);
    }
    MemoryStep(ttl, calls, n, last);
  }

  /** The time of the last of the first n calls. */
  function Latest<Token>(calls: seq<Call<Token>>, n: nat): nat
    requires n <= |calls|
  {
    if n == 0 then 0 else calls[n - 1].now
  }

  lemma {:induction false} FilterIsFaithful<Token(!new)>(ttl: int, calls: seq<Call<Token>>, n: nat)
    requires n <= |calls| && ttl > 0 && Ordered(calls)
    ensures Faithful(ttl, calls, n, Latest(calls, n))
  {
    if n == 0 {
      NothingIsFaithful(ttl, calls);
    } else {
      var m := n - 1;
      FilterIsFaithful(ttl, calls, m);
      FaithfulNext(ttl, calls, m, n);
    }
  }

  lemma NothingIsFaithful<Token(!new)>(ttl: int, calls: seq<Call<Token>>)
    ensures Faithful(ttl, calls, 0, 0)
  {
  }

  lemma FaithfulNext<Token(!new)>(ttl: int, calls: seq<Call<Token>>, m: nat, n: nat)
    requires n == m + 1 <= |calls| && ttl > 0 && Ordered(calls) && Faithful(ttl, calls, m, Latest(calls, m))
    ensures Faithful(ttl, calls, n, Latest(calls, n))
  {
    var last, now := Latest(calls, m), Latest(calls, n);
    assert last <= calls[m].now == now;
    FaithfulStep(ttl, calls, m, last);
  }

  /** Despite the lazy sweep, the filter answers every call of every history in time order exactly as the rule says. */
  lemma FilterRefinesRule<Token(!new)>(ttl: int, calls: seq<Call<Token>>, i: nat)
    requires i < |calls| && ttl > 0 && Ordered(calls)
    ensures Answer(ttl, calls, i) == IsFresh(ttl, calls, i)
  {
    FilterIsFaithful(ttl, calls, i);
    FaithfulStep(ttl, calls, i, Latest(calls, i));
  }

  // ------------------------------------------------------------------ how much it remembers

  ghost predicate Recent<Token>(f: Filter<Token>, now: int) {
    && now - f.lastGC <= f.ttl
    && forall k :: k in f.seen ==> f.seen[k] > f.lastGC
  }

  lemma {:induction false} EntriesAreRecent<Token>(ttl: int, calls: seq<Call<Token>>, n: nat)
    requires 0 < n <= |calls| && ttl > 0 && Ordered(calls)
    ensures Recent(After(ttl, calls, n), calls[n - 1].now)
    ensures After(ttl, calls, n).lastGC <= calls[n - 1].now && After(ttl, calls, n).ttl == ttl
  {
    if n > 1 {
      EntriesAreRecent(ttl, calls, n - 1);
    }
  }

  /** The calls among the first n that were answered true less than two lifetimes before the latest. */
  ghost function RecentAcceptances<Token(!new)>(ttl: int, calls: seq<Call<Token>>, n: nat): set<int>
    requires 0 < n <= |calls|
  {
    set i | 0 <= i < n && Answer(ttl, calls, i) && calls[i].now > calls[n - 1].now - 2 * ttl
  }

  /** Every stored token was accepted less than two lifetimes ago, so the map is no larger than the number of such
      acceptances. */
  lemma MapIsBounded<Token(!new)>(ttl: int, calls: seq<Call<Token>>, n: nat)
    requires 0 < n <= |calls| && ttl > 0 && Ordered(calls)
    ensures var f := After(ttl, calls, n);
            && (forall k :: k in f.seen ==> exists i :: i in RecentAcceptances(ttl, calls, n) && calls[i].token == k)
            && |f.seen| <= |RecentAcceptances(ttl, calls, n)|
  {
    var f, recent := After(ttl, calls, n), RecentAcceptances(ttl, calls, n);
    EntriesAreRecent(ttl, calls, n);
    FilterIsFaithful(ttl, calls, n);
    forall k | k in f.seen ensures exists i :: i in recent && calls[i].token == k {
      assert Justified(ttl, calls, n, k, f.seen[k]);
      var j :| 0 <= j < n && calls[j].token == k && IsFresh(ttl, calls, j) && calls[j].now + ttl == f.seen[k];
      FilterRefinesRule(ttl, calls, j);
      assert j in recent;
    }
    CoverSize(f.seen.Keys, recent, calls);
  }

  lemma {:induction false} CoverSize<Token>(keys: set<Token>, indices: set<int>, calls: seq<Call<Token>>)
    requires forall i :: i in indices ==> 0 <= i < |calls|
    requires forall k :: k in keys ==> exists i :: i in indices && calls[i].token == k
    ensures |keys| <= |indices|
    decreases |keys|
  {
    if keys != {} {
      var k :| k in keys;
      var i :| i in indices && calls[i].token == k;
      forall k' | k' in keys - {k} ensures exists i' :: i' in indices - {i} && calls[i'].token == k' {
        var i' :| i' in indices && calls[i'].token == k';
        assert i' in indices - {i};
      }
      CoverSize(keys - {k}, indices - {i}, calls);
    }
  }
}
