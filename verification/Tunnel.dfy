/** The bonded tunnel's retry loop and the bookkeeping of a keepalive round (internal/transport/tunnel.go). */
module Failover {
  import opened Bytes
  import opened Lifecycle
  import opened Lists
  import opened Wrappers

  const MAX_TRIES := 4

  /** The entry of `order` a flow hash selects on a given try; the addition wraps at 32 bits. */
  function Pick(order: seq<int>, h: u32, tries: nat): int
    requires order != []
  {
    order[(h + tries) % 0x1_0000_0000 % |order|]
  }

  /** removeChannel run with nobody in between: the last channel leaving tears the tunnel down. */
  function Drop<C>(t: Core<C>, idx: int): Core<C> {
    if idx !in t.channels then t
    else
      var t' := Detach(t, idx);
      if t'.channels == map[] then MarkDead(t') else t'
  }

  /** WritePacket's retry loop, given the indices whose channels would accept the packet: the tunnel left behind
      and the channel used. */
  function Attempt<C>(t: Core<C>, h: u32, good: set<int>, tries: nat): (Core<C>, Option<int>)
    requires tries <= MAX_TRIES
    decreases MAX_TRIES - tries
  {
    if tries == MAX_TRIES || t.order == [] then (t, None)
    else
      var idx := Pick(t.order, h, tries);
      if idx in good then (t, Some(idx)) else Attempt(Drop(t, idx), h, good, tries + 1)
  }

  /** One turn of the loop. */
  lemma AttemptTurn<C>(t: Core<C>, h: u32, good: set<int>, tries: nat)
    requires tries < MAX_TRIES && t.order != []
    ensures var idx := Pick(t.order, h, tries);
            Attempt(t, h, good, tries) == if idx in good then (t, Some(idx)) else Attempt(Drop(t, idx), h, good, tries + 1)
  {
  }

  lemma AttemptEnds<C>(t: Core<C>, h: u32, good: set<int>, tries: nat)
    requires tries == MAX_TRIES || (tries < MAX_TRIES && t.order == [])
    ensures Attempt(t, h, good, tries) == (t, None)
  {
  }

  /** The channels an attempt detaches. */
  function Lost<C>(t: Core<C>, h: u32, good: set<int>, tries: nat): set<int>
    requires tries <= MAX_TRIES
    decreases MAX_TRIES - tries
  {
    if tries == MAX_TRIES || t.order == [] then {}
    else
      var idx := Pick(t.order, h, tries);
      if idx in good then {} else {idx} + Lost(Drop(t, idx), h, good, tries + 1)
  }

  lemma {:induction false} WithoutTwice(order: seq<int>, a: set<int>, b: set<int>)
    ensures Without(Without(order, a), b) == Without(order, a + b)
    decreases |order|
  {
    if order != [] {
      var n := |order| - 1;
      WithoutTwice(order[..n], a, b);
      var front := Without(order[..n], a);
      assert (front + [order[n]])[..|front|] == front;
    }
  }

  lemma {:induction false} WithoutNone(order: seq<int>)
    ensures Without(order, {}) == order
    decreases |order|
  {
    if order != [] {
      WithoutNone(order[..|order| - 1]);
    }
  }

  /** How t' differs from t when exactly the channels in `gone` were detached. */
  ghost predicate Survivors<C>(t: Core<C>, t': Core<C>, gone: set<int>) {
    && gone <= t.channels.Keys
    && t'.channels == t.channels - gone
    && t'.order == Without(t.order, gone)
    && Listed(t')
    && (t'.channels == map[] && gone != {} ==> t'.once != Idle)
    && (t'.channels != map[] || gone == {} ==> t' == t.(channels := t'.channels, order := t'.order))
  }

  lemma DropLeavesTheRest<C>(t: Core<C>, idx: int)
    requires Listed(t) && idx in t.channels
    ensures Survivors(t, Drop(t, idx), {idx})
  {
    DetachKeepsListed(t, idx);
  }

  lemma SurvivorsCompose<C>(t: Core<C>, t1: Core<C>, t2: Core<C>, a: set<int>, b: set<int>)
    requires Survivors(t, t1, a) && Survivors(t1, t2, b)
    ensures Survivors(t, t2, a + b)
  {
    WithoutTwice(t.order, a, b);
    assert t.channels - a - b == t.channels - (a + b);
  }

  lemma {:induction false} AttemptSurvivors<C>(t: Core<C>, h: u32, good: set<int>, tries: nat)
    requires Listed(t) && tries <= MAX_TRIES
    ensures Survivors(t, Attempt(t, h, good, tries).0, Lost(t, h, good, tries))
    decreases MAX_TRIES - tries
  {
    if tries == MAX_TRIES || t.order == [] {
      WithoutNone(t.order);
    } else {
      var idx := Pick(t.order, h, tries);
      assert idx in t.order;
      AttemptTurn(t, h, good, tries);
      if idx in good {
        WithoutNone(t.order);
      } else {
        var t1 := Drop(t, idx);
        DropLeavesTheRest(t, idx);
        AttemptSurvivors(t1, h, good, tries + 1);
        SurvivorsCompose(t, t1, Attempt(t1, h, good, tries + 1).0, {idx}, Lost(t1, h, good, tries + 1));
      }
    }
  }

  /** The count of an attempt with n tries: the channels lost, and why it ended. */
  ghost predicate Counted<C>(t: Core<C>, good: set<int>, n: nat, t': Core<C>, used: Option<int>, lost: set<int>) {
    && lost <= t.channels.Keys && lost !! good
    && match used {
         case Some(i) => i in good && i in t'.order && |lost| < n
         case None => |lost| == n || (t'.order == [] && |lost| < n)
       }
  }

  lemma CountedTurn<C>(t: Core<C>, t1: Core<C>, idx: int, good: set<int>, n: nat, t': Core<C>, used: Option<int>, lost: set<int>)
    requires idx in t.channels && idx !in good && t1.channels == t.channels - {idx}
    requires Counted(t1, good, n, t', used, lost)
    ensures Counted(t, good, n + 1, t', used, {idx} + lost)
  {
    assert idx !in lost;
    assert |{idx} + lost| == |lost| + 1;
  }

  lemma {:induction false} AttemptCounts<C>(t: Core<C>, h: u32, good: set<int>, tries: nat)
    requires Listed(t) && tries <= MAX_TRIES
    ensures var (t', used) := Attempt(t, h, good, tries);
            Counted(t, good, MAX_TRIES - tries, t', used, Lost(t, h, good, tries))
    decreases MAX_TRIES - tries
  {
    if tries < MAX_TRIES && t.order != [] {
      var idx := Pick(t.order, h, tries);
      assert idx in t.order;
      AttemptTurn(t, h, good, tries);
      if idx !in good {
        var t1 := Drop(t, idx);
        DropLeavesTheRest(t, idx);
        AttemptCounts(t1, h, good, tries + 1);
        var (t', used) := Attempt(t1, h, good, tries + 1);
        CountedTurn(t, t1, idx, good, MAX_TRIES - tries - 1, t', used, Lost(t1, h, good, tries + 1));
      }
    }
  }

  /** What the retry loop does: each failed try detaches one more distinct channel, none of them healthy; the
      others keep their order. */
  lemma AttemptExactly<C>(t: Core<C>, h: u32, good: set<int>, tries: nat)
    requires Listed(t) && tries <= MAX_TRIES
    ensures var (t', used) := Attempt(t, h, good, tries);
            var lost := Lost(t, h, good, tries);
            && Survivors(t, t', lost)
            && lost !! good
            && match used {
                 case Some(i) => i in good && i in t'.channels && |lost| < MAX_TRIES - tries
                 case None => |lost| == MAX_TRIES - tries || (t'.order == [] && |lost| < MAX_TRIES - tries)
               }
  {
    AttemptSurvivors(t, h, good, tries);
    AttemptCounts(t, h, good, tries);
  }

  /** A packet gets through exactly when, of the channels an attempt would lose if none took it, some takes it. */
  lemma {:induction false} SendsExactly<C>(t: Core<C>, h: u32, good: set<int>, tries: nat)
    requires tries <= MAX_TRIES
    ensures Attempt(t, h, good, tries).1.Some? <==> Lost(t, h, {}, tries) * good != {}
    decreases MAX_TRIES - tries
  {
    if tries < MAX_TRIES && t.order != [] {
      var idx := Pick(t.order, h, tries);
      var rest := Lost(Drop(t, idx), h, {}, tries + 1);
      assert Lost(t, h, {}, tries) == {idx} + rest;
      if idx in good {
        assert idx in Lost(t, h, {}, tries) * good;
      } else {
        SendsExactly(Drop(t, idx), h, good, tries + 1);
        assert ({idx} + rest) * good == rest * good;
      }
    }
  }

  /** A packet gets through whenever some channel would take it and at most three would not. */
  lemma ThreeBrokenChannelsAreTolerated<C>(t: Core<C>, h: u32, good: set<int>, healthy: int)
    requires Listed(t) && healthy in t.channels && healthy in good
    requires |t.channels.Keys - good| <= 3
    ensures Attempt(t, h, good, 0).1.Some?
  {
    AttemptExactly(t, h, good, 0);
    SubsetSize(Lost(t, h, good, 0), t.channels.Keys - good);
    assert healthy in Attempt(t, h, good, 0).0.channels;
  }

  /** A packet no channel accepts, such as one over the record limit, costs the tunnel up to four channels. */
  lemma UnsendablePacketDetachesFour<C>(t: Core<C>, h: u32)
    requires Listed(t)
    ensures var (t', used) := Attempt(t, h, {}, 0);
            && used == None
            && |t'.channels| == (if |t.channels| < MAX_TRIES then 0 else |t.channels| - MAX_TRIES)
  {
    AttemptExactly(t, h, {}, 0);
    var t' := Attempt(t, h, {}, 0).0;
    var lost := Lost(t, h, {}, 0);
    SubsetSize(lost, t.channels.Keys);
    assert t'.channels.Keys == t.channels.Keys - lost;
    if t'.order == [] {
      assert forall i :: i !in t'.channels;
    }
  }

  /** Health of channels that are never picked does not matter. */
  lemma {:induction false} UnpickedHealthIsIrrelevant<C>(t: Core<C>, h: u32, good: set<int>, tries: nat)
    requires tries <= MAX_TRIES && good !! Lost(t, h, {}, tries)
    ensures Attempt(t, h, good, tries) == Attempt(t, h, {}, tries)
    decreases MAX_TRIES - tries
  {
    if tries < MAX_TRIES && t.order != [] {
      UnpickedHealthIsIrrelevant(Drop(t, Pick(t.order, h, tries)), h, good, tries + 1);
    }
  }

  /** Three is the limit: for every tunnel of four or more channels and every hash, some four broken channels
      defeat a packet though all others are healthy. */
  lemma FourBrokenChannelsMayRefuse<C>(t: Core<C>, h: u32)
    requires Listed(t) && |t.channels| >= 4
    ensures var broken := Lost(t, h, {}, 0);
            && broken <= t.channels.Keys && |broken| == 4
            && Attempt(t, h, t.channels.Keys - broken, 0).1 == None
  {
    AttemptExactly(t, h, {}, 0);
    UnsendablePacketDetachesFour(t, h);
    var broken, t' := Lost(t, h, {}, 0), Attempt(t, h, {}, 0).0;
    assert t'.channels.Keys == t.channels.Keys - broken;
    UnpickedHealthIsIrrelevant(t, h, t.channels.Keys - broken, 0);
  }

  /** Under a packet no channel accepts, too few broken channels cannot be all that is detached. */
  lemma OversizeHitsHealthy<C>(t: Core<C>, h: u32, healthy: set<int>)
    requires Listed(t) && healthy <= t.channels.Keys && healthy != {} && |t.channels.Keys - healthy| < MAX_TRIES
    ensures Lost(t, h, {}, 0) * healthy != {}
  {
    var t', lost := Attempt(t, h, {}, 0).0, Lost(t, h, {}, 0);
    AttemptExactly(t, h, {}, 0);
    if |lost| == MAX_TRIES {
      var i := Spare(lost, t.channels.Keys - healthy);
      assert i in lost * healthy;
    } else {
      assert forall i :: i in t'.channels.Keys <==> i in t'.order;
      assert t'.channels.Keys == {} && t.channels.Keys == lost;
      assert healthy == lost * healthy;
    }
  }

  /** What an attempt leaves of the healthy channels when exactly they accept, and when none does. */
  lemma HealthySurvive<C>(t: Core<C>, h: u32, healthy: set<int>, good: set<int>)
    requires Listed(t) && healthy <= t.channels.Keys
    ensures var (t', used) := Attempt(t, h, good, 0);
            && (good == healthy ==> healthy <= t'.channels.Keys)
            && (good == {} ==> used == None && |t'.channels| == if |t.channels| < MAX_TRIES then 0 else |t.channels| - MAX_TRIES)
  {
    AttemptExactly(t, h, good, 0);
    UnsendablePacketDetachesFour(t, h);
    var t', lost := Attempt(t, h, good, 0).0, Lost(t, h, good, 0);
    assert t'.channels.Keys == t.channels.Keys - lost;
  }

  /** When an attempt detaches a healthy channel, if all healthy ones accept a packet of proper size and none another.
      */
  lemma HealthyLostExactly<C>(t: Core<C>, h: u32, healthy: set<int>, good: set<int>, oversize: bool)
    requires Listed(t) && healthy <= t.channels.Keys && good == if oversize then {} else healthy
    ensures Lost(t, h, good, 0) * healthy != {} <==> oversize && Lost(t, h, {}, 0) * healthy != {}
    ensures healthy != {} && |t.channels.Keys - healthy| < MAX_TRIES ==> (Lost(t, h, good, 0) * healthy != {} <==> oversize)
  {
    AttemptExactly(t, h, good, 0);
    if healthy != {} && |t.channels.Keys - healthy| < MAX_TRIES {
      OversizeHitsHealthy(t, h, healthy);
    }
  }

  // ------------------------------------------------------------------ keepalives

  /** Dropping one more channel, or one that has gone already. */
  lemma DropAgain<C>(t: Core<C>, t1: Core<C>, gone: set<int>, idx: int)
    requires Survivors(t, t1, gone) && idx in t.channels
    ensures Survivors(t, Drop(t1, idx), gone + {idx})
  {
    if idx in t1.channels {
      DropLeavesTheRest(t1, idx);
      SurvivorsCompose(t, t1, Drop(t1, idx), gone, {idx});
    } else {
      assert gone + {idx} == gone;
    }
  }

  /** idx is listed more than once. */
  ghost predicate Repeated(order: seq<int>, idx: int) {
    exists j, k :: 0 <= j < k < |order| && order[j] == order[k] == idx
  }

  /** The first k entries. */
  ghost function Seen(order: seq<int>, k: nat): set<int>
    requires k <= |order|
  {
    set j | 0 <= j < k :: order[j]
  }

  /** A keepalive round: the channels that would accept one at the outset, those dropped and those tried so far,
      and how many messages each had sent when the round began. */
  datatype Round = Round(good: set<int>, gone: set<int>, seen: set<int>, sent: map<int, nat>) {
    function Turn(idx: int, ok: bool): Round {
      this.(gone := if ok then gone else gone + {idx}, seen := seen + {idx})
    }
  }

  /** After the first k turns: those refusing at the outset are gone, and no other unless listed twice. */
  ghost predicate Tally(order: seq<int>, k: nat, r: Round) {
    && k <= |order| && r.seen == Seen(order, k)
    && r.seen - r.good <= r.gone <= r.seen && forall i :: i in r.gone && i in r.good ==> Repeated(order, i)
  }

  lemma TallyTurn(order: seq<int>, k: nat, r: Round, ok: bool)
    requires k < |order| && Tally(order, k, r)
    requires order[k] !in r.seen ==> (ok <==> order[k] in r.good)
    ensures Tally(order, k + 1, r.Turn(order[k], ok))
  {
    assert Seen(order, k + 1) == Seen(order, k) + {order[k]};
    if order[k] in Seen(order, k) {
      var j :| 0 <= j < k && order[j] == order[k];
      assert Repeated(order, order[k]);
    }
  }

  /** The tunnel after a turn. */
  function Turned<C>(t: Core<C>, idx: int, ok: bool): Core<C> {
    if ok then t else Drop(t, idx)
  }

  lemma SurvivorsTurn<C>(t0: Core<C>, t: Core<C>, k: nat, r: Round, ok: bool)
    requires k < |t0.order| && Listed(t0) && Survivors(t0, t, r.gone)
    ensures Survivors(t0, Turned(t, t0.order[k], ok), r.Turn(t0.order[k], ok).gone)
  {
    assert t0.order[k] in t0.order;
    if !ok {
      DropAgain(t0, t, r.gone, t0.order[k]);
    }
  }

  lemma ListedAt<C>(t: Core<C>, k: nat)
    requires Listed(t) && k < |t.order|
    ensures t.order[k] in t.channels
  {
    var i := t.order[k];
    assert i in t.order <==> i in t.channels;
  }

  lemma RoundBegins<C>(t: Core<C>, r: Round)
    requires Listed(t) && r.gone == r.seen == {}
    ensures Survivors(t, t, r.gone) && Tally(t.order, 0, r)
  {
    WithoutNone(t.order);
  }

  /** At the end of the round every channel has had its turn. */
  lemma TallyEnds<C>(t: Core<C>, r: Round)
    requires Listed(t) && Tally(t.order, |t.order|, r)
    ensures r.seen == t.channels.Keys && t.channels.Keys - r.good <= r.gone
    ensures forall i :: i in r.gone && i in r.good ==> Repeated(t.order, i)
  {
    forall i ensures i in r.seen <==> i in t.channels {
      assert i in t.order <==> i in t.channels;
    }
  }
}
