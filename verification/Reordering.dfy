/** When exactly a flow comes out in order (striping and merging in internal/transport/tunnel.go). */
module Reordering {
  import opened Bytes
  import opened Aead
  import Ch = Channel
  import opened Failover
  import opened Flow
  import opened FlowOrder
  import opened Lists
  import opened Wrappers

  // ------------------------------------------------------------------ what has arrived

  /** How many packets were written to the channel of log entry k before it. */
  function Rank(l: Link, k: nat): nat
    requires k < |l.log|
  {
    |Gather(Via(l.log[k].0), l.log[..k])|
  }

  /** Log entry k has been pushed into the receiver's queue: channels are FIFO, so this is a matter of counting. */
  predicate Arrived(l: Link, k: nat)
    requires k < |l.log|
  {
    Rank(l, k) < |Gather(Via(l.log[k].0), l.inbound)|
  }

  /** Log entry k is of the flow. */
  predicate InFlow(l: Link, k: int, key: Option<seq<u8>>) {
    0 <= k < |l.log| && FlowKey(l.log[k].1) == key
  }

  /** Nothing of the flow has arrived before something of it that was written earlier. */
  ghost predicate FlowInOrder(l: Link, key: Option<seq<u8>>) {
    forall j, k :: InFlow(l, j, key) && InFlow(l, k, key) && j < k && Arrived(l, k) ==> Arrived(l, j)
  }

  /** All of the flow that is under way is on one channel. */
  ghost predicate OneWay(l: Link, key: Option<seq<u8>>) {
    forall j, k :: InFlow(l, j, key) && InFlow(l, k, key) && !Arrived(l, j) && !Arrived(l, k) ==> l.log[j].0 == l.log[k].0
  }

  /** Entries of one channel have increasing ranks. */
  lemma RankGrows(l: Link, j: nat, k: nat)
    requires j < k < |l.log| && l.log[j].0 == l.log[k].0
    ensures Rank(l, j) < Rank(l, k)
  {
    var via := Via(l.log[j].0);
    GatherSnoc(via, l.log[..j], l.log[j]);
    assert l.log[..j + 1] == l.log[..j] + [l.log[j]];
    GatherPrefix(via, l.log[..j + 1], l.log[..k]);
  }

  /** A write leaves earlier entries as they were. */
  lemma WriteKeepsArrived(l: Link, l': Link, k: nat)
    requires k < |l.log| && l.log <= l'.log && l'.inbound == l.inbound
    ensures Arrived(l', k) == Arrived(l, k)
  {
    assert l'.log[..k] == l.log[..k];
  }

  /** What a push by one channel changes: its entries with a lower rank than the new count have arrived. */
  lemma PushArrives(l: Link, l': Link, at: int, p: Packet, k: nat)
    requires l'.log == l.log && l'.inbound == l.inbound + [(at, p)] && k < |l.log|
    ensures Arrived(l', k) <==> Arrived(l, k) || (l.log[k].0 == at && Rank(l, k) == |Gather(Via(at), l.inbound)|)
  {
    ViaSnoc(l.log[k].0, l.inbound, (at, p));
  }

  // ------------------------------------------------------------------ every step

  predicate Pushes(l: Link, e: Event) {
    e.Push? && e.idx in l.readers && l.readers[e.idx].Holding? && |l.inbound| < l.drained + INBOUND_CAPACITY
  }

  lemma OtherSteps(l: Link, e: Event)
    requires !Pushes(l, e)
    ensures Step(l, e).inbound == l.inbound
    ensures !e.Write? ==> Step(l, e).log == l.log
  {
  }

  lemma WriteLogs(l: Link, e: Event)
    requires e.Write?
    ensures var l' := Step(l, e);
            l'.inbound == l.inbound && (l'.log == l.log || exists at :: l'.log == l.log + [(at, e.p)])
  {
    if l.order != [] {
      var at := Pick(l.order, HashOf(FlowKey(e.p)), e.tries);
      if at in l.channels {
        assert Step(l, e) == WriteVia(l, at, e.p, Ch.Step(l.channels[at], Ch.Write(e.p, e.rnd)));
      }
    }
  }

  /** On a reachable link, what has just been written has not arrived. */
  lemma FreshNotArrived(l: Link, l': Link, at: int, p: Packet)
    requires Inv(l) && l'.inbound == l.inbound && l'.log == l.log + [(at, p)]
    ensures !Arrived(l', |l.log|)
  {
    assert l'.log[..|l.log|] == l.log;
    assert Accounts(l, at);
    if at in l.channels {
      Ch.InvIsSafe(l.channels[at]);
    }
  }

  lemma PushKeepsOrder(l: Link, l': Link, at: int, p: Packet, key: Option<seq<u8>>)
    requires l'.log == l.log && l'.inbound == l.inbound + [(at, p)]
    requires FlowInOrder(l, key) && OneWay(l, key)
    ensures FlowInOrder(l', key) && OneWay(l', key)
  {
    forall k | 0 <= k < |l.log|
      ensures Arrived(l', k) <==> Arrived(l, k) || (l.log[k].0 == at && Rank(l, k) == |Gather(Via(at), l.inbound)|)
    {
      PushArrives(l, l', at, p, k);
    }
    forall j, k | InFlow(l', j, key) && InFlow(l', k, key) && j < k && Arrived(l', k) ensures Arrived(l', j) {
      assert InFlow(l, j, key) && InFlow(l, k, key);
      if !Arrived(l, j) {
        RankGrows(l, j, k);
      }
    }
    forall j, k | InFlow(l', j, key) && InFlow(l', k, key) && !Arrived(l', j) && !Arrived(l', k)
      ensures l'.log[j].0 == l'.log[k].0
    {
      assert InFlow(l, j, key) && InFlow(l, k, key);
    }
  }

  /** What is under way of the flow is on channel `at`. */
  ghost predicate UnderWayOn(l: Link, at: int, key: Option<seq<u8>>) {
    forall k :: InFlow(l, k, key) && !Arrived(l, k) ==> l.log[k].0 == at
  }

  /** A write keeps the flow on one way exactly if its channel is that of what is under way. */
  lemma WriteKeepsOneWayExactly(l: Link, l': Link, at: int, p: Packet, key: Option<seq<u8>>)
    requires Inv(l) && l'.inbound == l.inbound && l'.log == l.log + [(at, p)]
    requires FlowInOrder(l, key) && OneWay(l, key)
    ensures FlowInOrder(l', key)
    ensures OneWay(l', key) <==> (FlowKey(p) == key ==> UnderWayOn(l, at, key))
  {
    var n := |l.log|;
    FreshNotArrived(l, l', at, p);
    forall k | 0 <= k < n ensures Arrived(l', k) == Arrived(l, k) {
      WriteKeepsArrived(l, l', k);
    }
    assert forall k :: 0 <= k < n ==> InFlow(l', k, key) == InFlow(l, k, key);
    if FlowKey(p) == key && OneWay(l', key) {
      forall k | InFlow(l, k, key) && !Arrived(l, k) ensures l.log[k].0 == at {
        assert InFlow(l', k, key) && InFlow(l', n, key);
      }
    }
  }

  /** The event writes nothing of the flow, or writes it to the channel of what is under way. */
  ghost predicate Joins(l: Link, e: Event, key: Option<seq<u8>>) {
    var l' := Step(l, e);
    |l'.log| > |l.log| && FlowKey(l'.log[|l.log|].1) == key ==> UnderWayOn(l, l'.log[|l.log|].0, key)
  }

  lemma SameOrder(l: Link, l': Link, key: Option<seq<u8>>)
    requires l'.log == l.log && l'.inbound == l.inbound && FlowInOrder(l, key) && OneWay(l, key)
    ensures FlowInOrder(l', key) && OneWay(l', key)
  {
    assert forall k :: 0 <= k < |l.log| ==> Arrived(l', k) == Arrived(l, k);
    forall j, k | InFlow(l', j, key) && InFlow(l', k, key)
      ensures j < k && Arrived(l', k) ==> Arrived(l', j)
      ensures !Arrived(l', j) && !Arrived(l', k) ==> l'.log[j].0 == l'.log[k].0
    {
      assert InFlow(l, j, key) && InFlow(l, k, key);
    }
  }

  /** Every step keeps a flow in order that is on one way; it stays on one way exactly if the step joins it. */
  lemma StepKeepsWayExactly(l: Link, e: Event, key: Option<seq<u8>>)
    requires Inv(l) && FlowInOrder(l, key) && OneWay(l, key)
    ensures FlowInOrder(Step(l, e), key) && (OneWay(Step(l, e), key) <==> Joins(l, e, key))
  {
    var l' := Step(l, e);
    if Pushes(l, e) {
      PushKeepsOrder(l, l', e.idx, l.readers[e.idx].p, key);
    } else if e.Write? {
      WriteLogs(l, e);
      if l'.log != l.log {
        var at :| l'.log == l.log + [(at, e.p)];
        WriteKeepsOneWayExactly(l, l', at, e.p, key);
      } else {
        SameOrder(l, l', key);
      }
    } else {
      OtherSteps(l, e);
      SameOrder(l, l', key);
    }
  }

  // ------------------------------------------------------------------ every continuation

  predicate IsDelivery(e: Event) {
    e.Read? || e.Push? || e.Drain?
  }

  /** Readers and the consumer at work, and nobody else. */
  predicate Deliveries(tail: seq<Event>) {
    forall i :: 0 <= i < |tail| ==> IsDelivery(tail[i])
  }

  lemma DeliveryWritesNothing(l: Link, e: Event)
    requires IsDelivery(e)
    ensures Step(l, e).log == l.log
  {
  }

  lemma {:induction false} DeliveriesKeepOrder(l: Link, tail: seq<Event>, key: Option<seq<u8>>)
    requires Inv(l) && FlowInOrder(l, key) && OneWay(l, key) && Deliveries(tail)
    ensures FlowInOrder(Run(l, tail), key)
    decreases |tail|
  {
    if tail != [] {
      DeliveryWritesNothing(l, tail[0]);
      StepKeepsWayExactly(l, tail[0], key);
      StepKeepsInv(l, tail[0]);
      DeliveriesKeepOrder(Step(l, tail[0]), tail[1..], key);
    }
  }

  /** No reader has given up. */
  predicate Alive(l: Link) {
    forall idx :: idx in l.readers ==> !l.readers[idx].Exited?
  }

  lemma ReadEndsNothing(c: Ch.Channel, r: Reader)
    requires Ch.Inv(c) && !r.Exited?
    ensures !ReaderAfter(c, Ch.Step(c, Ch.Receive), r).Exited?
  {
    Ch.StepKeepsInv(c, Ch.Receive);
  }

  /** The channel of a reader that waits is as its account says. */
  lemma ReaderChannelInv(l: Link, at: int)
    requires Inv(l) && at in l.channels
    ensures Ch.Inv(l.channels[at]) && at in l.readers
  {
    assert Accounts(l, at);
  }

  lemma ReadKeepsAlive(l: Link, at: int)
    requires Alive(l) && (at in l.channels ==> Ch.Inv(l.channels[at]))
    ensures Alive(Step(l, Read(at)))
  {
    if at in l.channels && at in l.readers {
      ReadEndsNothing(l.channels[at], l.readers[at]);
    }
  }

  lemma StepKeepsAlive(l: Link, e: Event)
    requires Inv(l) && Alive(l) && !e.Quit?
    ensures Alive(Step(l, e))
  {
    if e.Read? {
      if e.idx in l.channels {
        ReaderChannelInv(l, e.idx);
      }
      ReadKeepsAlive(l, e.idx);
    }
  }

  function Backlog(l: Link): nat {
    if |l.inbound| > l.drained then |l.inbound| - l.drained else 0
  }

  /** Only channel `at` has brought anything in. */
  ghost predicate BroughtIn(l: Link, l': Link, at: int) {
    l'.log == l.log && forall idx :: idx != at ==> Gather(Via(idx), l'.inbound) == Gather(Via(idx), l.inbound)
  }

  /** What the channel has left to give its reader. */
  function Unread(l: Link, at: int): nat {
    if at in l.channels && l.channels[at].taken <= |l.channels[at].w.sent| then |l.channels[at].w.sent| - l.channels[at].taken else 0
  }

  function Passed(l: Link, at: int): nat {
    |Gather(Via(at), l.inbound)|
  }

  /** A reader that waits while packets are under way has a record to take. */
  lemma WaitingHasMore(l: Link, at: int)
    requires Inv(l) && Alive(l) && at in l.channels && l.readers[at] == Waiting && Passed(l, at) < |Gather(Via(at), l.log)|
    ensures var l' := Step(l, Read(at));
            Unread(l', at) < Unread(l, at) && l'.inbound == l.inbound && l'.log == l.log && at in l'.channels
  {
    assert Accounts(l, at);
    UnreadRemains(l.channels[at], Gather(Via(at), l.log), Gather(Via(at), l.inbound));
    TakesOne(l.channels[at]);
  }

  lemma UnreadRemains(c: Ch.Channel, logged: seq<Packet>, passed: seq<Packet>)
    requires Balanced(c, Waiting, logged, passed) && |passed| < |logged|
    ensures c.taken < |c.w.sent| && c.error == None
  {
    assert passed + [] == passed;
    Ch.InvIsSafe(c);
    NoRecordsNoData(c.w.sent[c.taken..]);
  }

  lemma NoRecordsNoData(records: seq<Sealed>)
    ensures records == [] ==> Ch.DataOf(records) == []
  {
  }

  lemma TakesOne(c: Ch.Channel)
    requires c.taken < |c.w.sent| && c.error == None
    ensures var c' := Ch.Step(c, Ch.Receive); c'.taken == c.taken + 1 && c'.w == c.w
  {
  }

  lemma HeldIsPushed(l: Link, at: int)
    requires Inv(l) && at in l.channels && l.readers[at].Holding? && |l.inbound| < l.drained + INBOUND_CAPACITY
    ensures var l' := Step(l, Push(at)); BroughtIn(l, l', at) && Passed(l', at) == Passed(l, at) + 1 && at in l'.channels
  {
    var l', p := Step(l, Push(at)), l.readers[at].p;
    assert l'.inbound == l.inbound + [(at, p)];
    ViaSnoc(at, l.inbound, (at, p));
    forall idx | idx != at ensures Gather(Via(idx), l'.inbound) == Gather(Via(idx), l.inbound) {
      ViaSnoc(idx, l.inbound, (at, p));
    }
  }

  lemma FullIsDrained(l: Link)
    requires |l.inbound| >= l.drained + INBOUND_CAPACITY
    ensures var l' := Step(l, Drain); l' == l.(drained := l.drained + 1) && Backlog(l') < Backlog(l)
  {
  }

  lemma BroughtInTwice(l: Link, l1: Link, l2: Link, at: int)
    requires BroughtIn(l, l1, at) && BroughtIn(l1, l2, at)
    ensures BroughtIn(l, l2, at)
  {
    forall idx | idx != at ensures Gather(Via(idx), l2.inbound) == Gather(Via(idx), l.inbound) {
      assert Gather(Via(idx), l2.inbound) == Gather(Via(idx), l1.inbound);
    }
  }

  /** The next event that helps channel `at` along. */
  function Help(l: Link, at: int): Event
    requires at in l.readers
  {
    if l.readers[at] == Waiting then Read(at)
    else if |l.inbound| < l.drained + INBOUND_CAPACITY then Push(at)
    else Drain
  }

  lemma Helps(l: Link, at: int)
    requires Inv(l) && Alive(l) && at in l.channels && Passed(l, at) < |Gather(Via(at), l.log)|
    ensures var l' := Step(l, Help(l, at));
            && BroughtIn(l, l', at) && at in l'.channels
            && (Passed(l', at) > Passed(l, at)
                || (Passed(l', at) == Passed(l, at)
                    && (Unread(l', at) < Unread(l, at) || (Unread(l', at) == Unread(l, at) && Backlog(l') < Backlog(l)))))
  {
    if l.readers[at] == Waiting {
      WaitingHasMore(l, at);
    } else if |l.inbound| < l.drained + INBOUND_CAPACITY {
      HeldIsPushed(l, at);
    } else {
      FullIsDrained(l);
    }
  }

  /** Any number of a channel's packets can be brought in while the others wait. */
  lemma {:induction false} BringIn(l: Link, at: int, n: nat) returns (tail: seq<Event>)
    requires Inv(l) && Alive(l) && at in l.channels && n <= |Gather(Via(at), l.log)|
    ensures Deliveries(tail) && BroughtIn(l, Run(l, tail), at) && Passed(Run(l, tail), at) >= n
    decreases if Passed(l, at) < n then n - Passed(l, at) else 0, Unread(l, at), Backlog(l)
  {
    if Passed(l, at) >= n {
      tail := [];
    } else {
      var e := Help(l, at);
      Helps(l, at);
      StepKeepsInv(l, e);
      StepKeepsAlive(l, e);
      var rest := BringIn(Step(l, e), at, n);
      tail := [e] + rest;
      assert tail[1..] == rest;
      BroughtInTwice(l, Step(l, e), Run(Step(l, e), rest), at);
    }
  }

  /** With the flow under way on two channels, the later one can come in first. */
  lemma TwoWaysOvertake(l: Link, j: nat, k: nat, key: Option<seq<u8>>) returns (tail: seq<Event>)
    requires Inv(l) && Alive(l) && j < k && InFlow(l, j, key) && InFlow(l, k, key)
    requires !Arrived(l, j) && l.log[j].0 != l.log[k].0
    ensures Deliveries(tail) && !FlowInOrder(Run(l, tail), key)
  {
    var at := l.log[k].0;
    GatherSnoc(Via(at), l.log[..k], l.log[k]);
    assert l.log[..k + 1] == l.log[..k] + [l.log[k]];
    GatherPrefix(Via(at), l.log[..k + 1], l.log);
    assert Accounts(l, at);
    tail := BringIn(l, at, Rank(l, k) + 1);
    var l' := Run(l, tail);
    assert Arrived(l', k) && !Arrived(l', j);
    assert InFlow(l', j, key) && InFlow(l', k, key);
  }

  /** However readers and consumer go on from here, the flow stays in order. */
  ghost predicate StaysInOrder(l: Link, key: Option<seq<u8>>) {
    forall tail :: Deliveries(tail) ==> FlowInOrder(Run(l, tail), key)
  }

  /** On every link with its readers alive: a flow in order stays in order, however deliveries go on, exactly if all of
      it that is under way is on one channel. */
  lemma OneWayExactly(l: Link, key: Option<seq<u8>>)
    requires Inv(l) && Alive(l) && FlowInOrder(l, key)
    ensures OneWay(l, key) <==> StaysInOrder(l, key)
  {
    if OneWay(l, key) {
      forall tail | Deliveries(tail) ensures FlowInOrder(Run(l, tail), key) {
        DeliveriesKeepOrder(l, tail, key);
      }
    } else {
      var j, k :| InFlow(l, j, key) && InFlow(l, k, key) && !Arrived(l, j) && !Arrived(l, k) && l.log[j].0 != l.log[k].0;
      var tail: seq<Event>;
      if j < k {
        tail := TwoWaysOvertake(l, j, k, key);
      } else {
        tail := TwoWaysOvertake(l, k, j, key);
      }
    }
  }

  // ------------------------------------------------------------------ every run

  /** Every write of the flow joins what is under way of it. */
  ghost predicate AllJoin(l: Link, events: seq<Event>, key: Option<seq<u8>>)
    decreases |events|
  {
    events != [] ==> Joins(l, events[0], key) && AllJoin(Step(l, events[0]), events[1..], key)
  }

  predicate NoQuits(events: seq<Event>) {
    forall i :: 0 <= i < |events| ==> !events[i].Quit?
  }

  /** At every moment of the run. */
  ghost predicate AlwaysInOrder(l: Link, events: seq<Event>, key: Option<seq<u8>>) {
    forall k :: 0 <= k <= |events| ==> StaysInOrder(Run(l, events[..k]), key)
  }

  lemma AlwaysFromNext(l: Link, events: seq<Event>, key: Option<seq<u8>>)
    requires events != []
    ensures AlwaysInOrder(l, events, key)
            <==> StaysInOrder(l, key) && AlwaysInOrder(Step(l, events[0]), events[1..], key)
  {
    var l', rest := Step(l, events[0]), events[1..];
    assert events[..0] == [] && Run(l, events[..0]) == l;
    forall k | 0 <= k <= |rest| ensures Run(l, events[..k + 1]) == Run(l', rest[..k]) {
      assert events[..k + 1][1..] == rest[..k];
    }
    if AlwaysInOrder(l, events, key) {
      forall k | 0 <= k <= |rest| ensures StaysInOrder(Run(l', rest[..k]), key) {
        assert StaysInOrder(Run(l, events[..k + 1]), key);
      }
    }
    if StaysInOrder(l, key) && AlwaysInOrder(l', rest, key) {
      forall k | 0 <= k <= |events| ensures StaysInOrder(Run(l, events[..k]), key) {
        assert k > 0 ==> StaysInOrder(Run(l', rest[..k - 1]), key) && Run(l, events[..k - 1 + 1]) == Run(l', rest[..k - 1]);
      }
    }
  }

  /** Over all runs in which readers stay: a flow is in order at every moment, and would be however deliveries went on
      from there, exactly if each of its writes uses the channel of what is under way of it then. Whether `order`
      changes is of no other account. */
  lemma {:induction false} InOrderExactly(l: Link, events: seq<Event>, key: Option<seq<u8>>)
    requires Inv(l) && Alive(l) && FlowInOrder(l, key) && OneWay(l, key) && NoQuits(events)
    ensures AllJoin(l, events, key) <==> AlwaysInOrder(l, events, key)
    decreases |events|
  {
    OneWayExactly(l, key);
    if events == [] {
      assert events[..0] == [] && Run(l, events[..0]) == l;
    } else {
      var l', rest := Step(l, events[0]), events[1..];
      StepKeepsWayExactly(l, events[0], key);
      StepKeepsInv(l, events[0]);
      StepKeepsAlive(l, events[0]);
      AlwaysFromNext(l, events, key);
      if OneWay(l', key) {
        InOrderExactly(l', rest, key);
      } else {
        OneWayExactly(l', key);
        assert rest[..0] == [] && Run(l', rest[..0]) == l';
      }
    }
  }

  /** While `order` stays and no write needs a second try, all writes of a flow join it, if what is under way is where
      `order` says. */
  lemma {:induction false} UndisturbedJoin(l: Link, events: seq<Event>, key: Option<seq<u8>>)
    requires Inv(l) && Undisturbed(events)
    requires l.order != [] ==> UnderWayOn(l, Pick(l.order, HashOf(key), 0), key)
    ensures AllJoin(l, events, key)
    decreases |events|
  {
    if events != [] {
      UndisturbedStep(l, events[0], key);
      StepKeepsInv(l, events[0]);
      UndisturbedJoin(Step(l, events[0]), events[1..], key);
    }
  }

  lemma UndisturbedStep(l: Link, e: Event, key: Option<seq<u8>>)
    requires Inv(l) && !e.Attach? && !e.Reorder? && (e.Write? ==> e.tries == 0)
    requires l.order != [] ==> UnderWayOn(l, Pick(l.order, HashOf(key), 0), key)
    ensures var l' := Step(l, e);
            Joins(l, e, key) && l'.order == l.order && (l'.order != [] ==> UnderWayOn(l', Pick(l'.order, HashOf(key), 0), key))
  {
    var l' := Step(l, e);
    if l.order != [] {
      var at := Pick(l.order, HashOf(key), 0);
      forall k | InFlow(l', k, key) && !Arrived(l', k) ensures l'.log[k].0 == at {
        if k < |l.log| {
          ArrivedStays(l, e, k);
          assert InFlow(l, k, key);
        }
      }
    }
  }

  lemma ArrivedStays(l: Link, e: Event, k: nat)
    requires k < |l.log|
    ensures l.log <= Step(l, e).log && (Arrived(l, k) ==> Arrived(Step(l, e), k))
  {
    var l' := Step(l, e);
    if Pushes(l, e) {
      PushArrives(l, l', e.idx, l.readers[e.idx].p, k);
    } else if e.Write? {
      WriteLogs(l, e);
      WriteKeepsArrived(l, l', k);
    } else {
      OtherSteps(l, e);
      WriteKeepsArrived(l, l', k);
    }
  }

  // ------------------------------------------------------------------ what the consumer sees

  /** The flow's arrivals are its first m log entries' worth, in the order of the log. */
  ghost predicate ArrivedUpTo(l: Link, key: Option<seq<u8>>, m: nat) {
    && m <= |l.log| && Gather(OfFlow(key), l.inbound) == Gather(OfFlow(key), l.log[..m])
    && forall k :: InFlow(l, k, key) ==> (Arrived(l, k) <==> k < m)
  }

  /** The entry of a channel that has a given rank. */
  lemma {:induction false} EntryOfRank(log: seq<Tagged>, at: int, n: nat) returns (k: nat)
    requires n < |Gather(Via(at), log)|
    ensures k < |log| && log[k].0 == at && |Gather(Via(at), log[..k])| == n && log[k].1 == Gather(Via(at), log)[n]
    decreases |log|
  {
    var m := |log| - 1;
    if n < |Gather(Via(at), log[..m])| {
      k := EntryOfRank(log[..m], at, n);
      assert log[..m][..k] == log[..k];
    } else {
      k := m;
    }
  }

  /** A pushed packet is the entry of its channel next in rank. */
  lemma PushedEntry(l: Link, at: int) returns (k: nat)
    requires Inv(l) && at in l.readers && l.readers[at].Holding?
    ensures k < |l.log| && l.log[k] == (at, l.readers[at].p) && Rank(l, k) == Passed(l, at)
  {
    assert Accounts(l, at);
    var logged, passed, p := Gather(Via(at), l.log), Gather(Via(at), l.inbound), l.readers[at].p;
    Ch.InvIsSafe(l.channels[at]);
    assert (passed + [p])[|passed|] == p;
    k := EntryOfRank(l.log, at, |passed|);
  }

  /** l' has one entry more arrived than l, entry n. */
  ghost predicate ArrivesNext(l: Link, l': Link, n: nat) {
    && n < |l.log| && l'.log == l.log && l'.inbound == l.inbound + [l.log[n]] && !Arrived(l, n)
    && forall k :: 0 <= k < |l.log| ==> (Arrived(l', k) <==> Arrived(l, k) || k == n)
  }

  lemma PushIsNext(l: Link, l': Link, at: int, n: nat)
    requires n < |l.log| && l.log[n].0 == at && Rank(l, n) == Passed(l, at)
    requires l'.log == l.log && l'.inbound == l.inbound + [l.log[n]]
    ensures ArrivesNext(l, l', n)
  {
    forall k | 0 <= k < |l.log| ensures Arrived(l', k) <==> Arrived(l, k) || k == n {
      PushArrives(l, l', at, l.log[n].1, k);
      if l.log[k].0 == at && k < n {
        RankGrows(l, k, n);
      }
      if l.log[k].0 == at && n < k {
        RankGrows(l, n, k);
      }
    }
  }

  lemma OtherFlowArrives(l: Link, l': Link, n: nat, key: Option<seq<u8>>, m: nat)
    requires ArrivesNext(l, l', n) && ArrivedUpTo(l, key, m) && FlowKey(l.log[n].1) != key
    ensures ArrivedUpTo(l', key, m)
  {
    GatherSnoc(OfFlow(key), l.inbound, l.log[n]);
    assert Gather(OfFlow(key), l.inbound) + [] == Gather(OfFlow(key), l.inbound);
    forall k | InFlow(l', k, key) ensures Arrived(l', k) <==> k < m {
      assert InFlow(l, k, key) && k != n;
    }
  }

  /** If the flow is still in order, its next arrival is the next of it in the log. */
  lemma SameFlowArrives(l: Link, l': Link, n: nat, key: Option<seq<u8>>, m: nat)
    requires ArrivesNext(l, l', n) && ArrivedUpTo(l, key, m) && FlowKey(l.log[n].1) == key && FlowInOrder(l', key)
    ensures ArrivedUpTo(l', key, n + 1)
  {
    assert InFlow(l, n, key) && InFlow(l', n, key) && n >= m;
    forall k | InFlow(l', k, key) ensures Arrived(l', k) <==> k < n + 1 {
      assert InFlow(l, k, key);
    }
    forall j | m <= j < n ensures OfFlow(key)(l.log[j]) == [] {
      if FlowKey(l.log[j].1) == key {
        assert InFlow(l, j, key) && InFlow(l', j, key);
      }
    }
    GatherNext(OfFlow(key), l.log, l.inbound, m, n);
  }

  lemma PushKeepsUpTo(l: Link, at: int, l': Link, key: Option<seq<u8>>, m: nat) returns (m': nat)
    requires Inv(l) && at in l.readers && l.readers[at].Holding? && ArrivedUpTo(l, key, m)
    requires l'.log == l.log && l'.inbound == l.inbound + [(at, l.readers[at].p)] && FlowInOrder(l', key)
    ensures ArrivedUpTo(l', key, m')
  {
    var n := PushedEntry(l, at);
    PushIsNext(l, l', at, n);
    if FlowKey(l.log[n].1) != key {
      m' := m;
      OtherFlowArrives(l, l', n, key, m);
    } else {
      m' := n + 1;
      SameFlowArrives(l, l', n, key, m);
    }
  }

  lemma StepKeepsUpTo(l: Link, e: Event, key: Option<seq<u8>>, m: nat) returns (m': nat)
    requires Inv(l) && ArrivedUpTo(l, key, m) && FlowInOrder(Step(l, e), key)
    ensures ArrivedUpTo(Step(l, e), key, m')
  {
    var l' := Step(l, e);
    if Pushes(l, e) {
      m' := PushKeepsUpTo(l, e.idx, l', key, m);
    } else {
      m' := m;
      if e.Write? {
        WriteLogs(l, e);
      } else {
        OtherSteps(l, e);
      }
      SameUpTo(l, l', key, m);
    }
  }

  lemma SameUpTo(l: Link, l': Link, key: Option<seq<u8>>, m: nat)
    requires Inv(l) && ArrivedUpTo(l, key, m) && l'.inbound == l.inbound
    requires l'.log == l.log || exists at, p :: l'.log == l.log + [(at, p)]
    ensures ArrivedUpTo(l', key, m)
  {
    assert l'.log[..m] == l.log[..m];
    forall k | InFlow(l', k, key) ensures Arrived(l', k) <==> k < m {
      if k < |l.log| {
        WriteKeepsArrived(l, l', k);
        assert InFlow(l, k, key);
      } else {
        var at, p :| l'.log == l.log + [(at, p)];
        FreshNotArrived(l, l', at, p);
      }
    }
  }

  lemma {:induction false} RunKeepsUpTo(l: Link, events: seq<Event>, key: Option<seq<u8>>, m: nat) returns (m': nat)
    requires Inv(l) && ArrivedUpTo(l, key, m)
    requires forall k :: 0 <= k <= |events| ==> FlowInOrder(Run(l, events[..k]), key)
    ensures Inv(Run(l, events)) && ArrivedUpTo(Run(l, events), key, m')
    decreases |events|
  {
    if events == [] {
      m' := m;
    } else {
      var l', rest := Step(l, events[0]), events[1..];
      forall k | 0 <= k <= |rest| ensures FlowInOrder(Run(l', rest[..k]), key) {
        assert events[..k + 1][1..] == rest[..k];
        assert FlowInOrder(Run(l, events[..k + 1]), key);
      }
      assert Run(l', rest[..0]) == l';
      var m1 := StepKeepsUpTo(l, events[0], key, m);
      StepKeepsInv(l, events[0]);
      m' := RunKeepsUpTo(l', rest, key, m1);
    }
  }

  /** Being in order at every moment of a run is what the consumer wants: the flow comes out as it was written, each
      packet at most once, none skipped. */
  lemma InOrderMeansOutput(events: seq<Event>, key: Option<seq<u8>>)
    requires forall k :: 0 <= k <= |events| ==> FlowInOrder(Run(Start(), events[..k]), key)
    ensures var l := Run(Start(), events); Gather(OfFlow(key), Out(l)) <= Gather(OfFlow(key), l.log)
  {
    StartUpTo(key);
    var m := RunKeepsUpTo(Start(), events, key, 0);
    UpToMeansOutput(Run(Start(), events), key, m);
  }

  lemma StartUpTo(key: Option<seq<u8>>)
    ensures Inv(Start()) && ArrivedUpTo(Start(), key, 0)
  {
  }

  lemma UpToMeansOutput(l: Link, key: Option<seq<u8>>, m: nat)
    requires ArrivedUpTo(l, key, m)
    ensures Gather(OfFlow(key), Out(l)) <= Gather(OfFlow(key), l.log)
  {
    GatherPrefix(OfFlow(key), Out(l), l.inbound);
    GatherPrefix(OfFlow(key), l.log[..m], l.log);
  }

  lemma {:induction false} JoiningKeepsOrder(l: Link, events: seq<Event>, key: Option<seq<u8>>, k: nat)
    requires Inv(l) && FlowInOrder(l, key) && OneWay(l, key) && AllJoin(l, events, key) && k <= |events|
    ensures FlowInOrder(Run(l, events[..k]), key)
    decreases |events|
  {
    if k > 0 {
      StepKeepsWayExactly(l, events[0], key);
      StepKeepsInv(l, events[0]);
      JoiningKeepsOrder(Step(l, events[0]), events[1..], key, k - 1);
      assert events[..k][1..] == events[1..][..k - 1];
    }
  }

  /** So in every run, readers that give up included: a flow whose writes join what is under way of it comes out in
      order. */
  lemma JoiningFlowComesOutInOrder(events: seq<Event>, key: Option<seq<u8>>)
    requires AllJoin(Start(), events, key)
    ensures var l := Run(Start(), events); Gather(OfFlow(key), Out(l)) <= Gather(OfFlow(key), l.log)
  {
    forall k | 0 <= k <= |events| ensures FlowInOrder(Run(Start(), events[..k]), key) {
      JoiningKeepsOrder(Start(), events, key, k);
    }
    InOrderMeansOutput(events, key);
  }
}
