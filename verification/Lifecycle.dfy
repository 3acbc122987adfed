/** The life of a bonded tunnel under concurrent attach, detach, close and teardown (internal/transport/tunnel.go). */
module Lifecycle {
  import opened Lists

  /** How far the body of deadOnce has got. */
  datatype Once = Idle | Entered | ClosedSet | DeadClosed | Firing | Done

  /** The tunnel's fields. `fired` counts the calls of onEmpty. */
  datatype Core<C> = Core(channels: map<int, C>, order: seq<int>, closed: bool, dead: bool, once: Once, fired: nat)

  function Fresh<C>(): Core<C> {
    Core(map[], [], false, false, Idle, 0)
  }

  /** The entries of `order` other than those in `gone`, in the same sequence. */
  function Without(order: seq<int>, gone: set<int>): seq<int>
    decreases |order|
  {
    if order == [] then []
    else
      var n := |order| - 1;
      var front := Without(order[..n], gone);
      if order[n] in gone then front else front + [order[n]]
  }

  /** addChannel's critical section. */
  function Attach<C>(t: Core<C>, idx: int, c: C): Core<C> {
    if t.closed then t else t.(channels := t.channels[idx := c], order := t.order + [idx])
  }

  /** removeChannel's critical section. */
  function Detach<C>(t: Core<C>, idx: int): Core<C> {
    if idx !in t.channels then t
    else t.(channels := t.channels - {idx}, order := Without(t.order, {idx}))
  }

  /** Close's critical section. */
  function Clear<C>(t: Core<C>): Core<C> {
    t.(channels := map[], order := [])
  }

  /** markDead run with nobody in between. */
  function MarkDead<C>(t: Core<C>): Core<C> {
    if t.once != Idle then t else t.(closed := true, dead := true, once := Done, fired := t.fired + 1)
  }

  // ------------------------------------------------------------------ the machine, at lock granularity

  /** A tunnel amid its threads, with three histories and the sockets it has not closed. */
  datatype State<C> = State(
    core: Core<C>,
    owed: nat,         // threads that emptied the tunnel and have yet to reach deadOnce
    had: bool,         // some channel was attached once
    gap: set<C>,       // the connections attached while a thread owed the teardown
    open: set<C>)      // the connections attached and not closed by the tunnel since

  datatype Event<C> =
    | Add(idx: int, c: C)
    | Remove(idx: int)
    | CloseAll
    | EnterOnce
    | SetClosed
    | CloseDead
    | Fire
    | Finish

  function Start<C>(): State<C> {
    State(Fresh(), 0, false, {}, {})
  }

  /** Some thread is committed to closing the tunnel but has not set `closed` yet. */
  predicate Owing<C>(s: State<C>) {
    s.owed > 0 || s.core.once == Entered
  }

  function Step<C(==)>(s: State<C>, e: Event<C>): State<C> {
    var t := s.core;
    match e
    case Add(idx, c) =>
      if t.closed then s
      else s.(core := Attach(t, idx, c), had := true, gap := if Owing(s) then s.gap + {c} else s.gap, open := s.open + {c})
    case Remove(idx) =>
      var t' := Detach(t, idx);
      s.(core := t', owed := if idx in t.channels && t'.channels == map[] then s.owed + 1 else s.owed,
         open := if idx in t.channels then s.open - {t.channels[idx]} else s.open)
    case CloseAll =>
      s.(core := Clear(t), owed := s.owed + 1, open := s.open - t.channels.Values)
    case EnterOnce =>
      if s.owed == 0 then s
      else s.(core := if t.once == Idle then t.(once := Entered) else t, owed := s.owed - 1)
    case SetClosed =>
      if t.once != Entered then s else s.(core := t.(closed := true, once := ClosedSet))
    case CloseDead =>
      if t.once != ClosedSet then s else s.(core := t.(dead := true, once := DeadClosed))
    case Fire =>
      if t.once != DeadClosed then s else s.(core := t.(fired := t.fired + 1, once := Firing))
    case Finish =>
      if t.once != Firing then s else s.(core := t.(once := Done))
  }

  function Run<C(==)>(s: State<C>, events: seq<Event<C>>): State<C>
    decreases |events|
  {
    if events == [] then s else Run(Step(s, events[0]), events[1..])
  }

  // ------------------------------------------------------------------ invariants

  /** `order` lists exactly the live indices, so no write picks a missing channel. */
  ghost predicate Listed<C>(t: Core<C>) {
    forall i :: i in t.order <==> i in t.channels
  }

  ghost predicate OnceConsistent<C>(t: Core<C>) {
    && (t.closed <==> t.once != Idle && t.once != Entered)
    && (t.dead <==> t.once == DeadClosed || t.once == Firing || t.once == Done)
    && t.fired == (if t.once == Firing || t.once == Done then 1 else 0)
  }

  ghost predicate Inv<C>(s: State<C>) {
    && Listed(s.core)
    && OnceConsistent(s.core)
    && (s.core.channels != map[] ==> s.had)
    && (s.had && s.core.channels == map[] ==> s.core.closed || Owing(s))
    && (s.core.closed || Owing(s) ==> forall i :: i in s.core.channels ==> s.core.channels[i] in s.gap)
  }

  lemma {:induction false} WithoutMembers(order: seq<int>, gone: set<int>, i: int)
    ensures i in Without(order, gone) <==> i in order && i !in gone
    decreases |order|
  {
    if order != [] {
      var n := |order| - 1;
      WithoutMembers(order[..n], gone, i);
      assert order == order[..n] + [order[n]];
    }
  }

  lemma DetachKeepsListed<C>(t: Core<C>, idx: int)
    requires Listed(t)
    ensures Listed(Detach(t, idx))
  {
    forall i ensures i in Without(t.order, {idx}) <==> i in t.order && i != idx {
      WithoutMembers(t.order, {idx}, i);
    }
  }

  lemma AttachKeepsListed<C>(t: Core<C>, idx: int, c: C)
    requires Listed(t)
    ensures Listed(Attach(t, idx, c))
  {
    assert (t.order + [idx])[|t.order|] == idx;
  }

  lemma StepKeepsInv<C>(s: State<C>, e: Event<C>)
    requires Inv(s)
    ensures Inv(Step(s, e))
  {
    match e
    case Add(idx, c) =>
      AttachKeepsListed(s.core, idx, c);
      assert idx in s.core.channels[idx := c];
    case Remove(idx) =>
      DetachKeepsListed(s.core, idx);
    case _ =>
  }

  lemma {:induction false} RunKeepsInv<C>(s: State<C>, events: seq<Event<C>>)
    requires Inv(s)
    ensures Inv(Run(s, events))
    decreases |events|
  {
    if events != [] {
      StepKeepsInv(s, events[0]);
      RunKeepsInv(Step(s, events[0]), events[1..]);
    }
  }

  /** The tunnel at any moment of any run. */
  lemma LifecycleInAnyRun<C>(events: seq<Event<C>>)
    ensures var s := Run(Start<C>(), events);
            && s.core.fired <= 1
            && (s.core.dead ==> s.core.closed)
            && (s.core.fired == 1 ==> s.core.dead)
            && (forall i :: i in s.core.order <==> i in s.core.channels)
            && (s.had && s.core.channels == map[] ==> s.core.closed || Owing(s))
            && (s.core.closed ==> forall i :: i in s.core.channels ==> s.core.channels[i] in s.gap)
  {
    RunKeepsInv(Start<C>(), events);
  }

  /** From any state on: flags never fall, onEmpty's count never falls, and a closed tunnel only loses channels. */
  lemma {:induction false} RunIsMonotone<C>(s: State<C>, events: seq<Event<C>>)
    ensures var s' := Run(s, events);
            && (s.core.closed ==> s'.core.closed)
            && (s.core.dead ==> s'.core.dead)
            && s.core.fired <= s'.core.fired
            && (s.core.closed ==> s'.core.channels.Items <= s.core.channels.Items)
    decreases |events|
  {
    if events != [] {
      StepIsMonotone(s, events[0]);
      RunIsMonotone(Step(s, events[0]), events[1..]);
    }
  }

  lemma StepIsMonotone<C>(s: State<C>, e: Event<C>)
    ensures var s' := Step(s, e);
            && (s.core.closed ==> s'.core.closed)
            && (s.core.dead ==> s'.core.dead)
            && s.core.fired <= s'.core.fired
            && (s.core.closed ==> s'.core.channels.Items <= s.core.channels.Items)
  {
  }

  // ------------------------------------------------------------------ channels of a closed tunnel

  /** No channel is attached between the moment the tunnel is emptied and the moment it is marked closed. */
  ghost predicate NoLateAttach<C>(s: State<C>, events: seq<Event<C>>)
    decreases |events|
  {
    events != [] ==>
      (events[0].Add? && !s.core.closed ==> !Owing(s)) && NoLateAttach(Step(s, events[0]), events[1..])
  }

  lemma {:induction false} GapStaysEmpty<C>(s: State<C>, events: seq<Event<C>>, k: nat)
    requires s.gap == {} && NoLateAttach(s, events) && k <= |events|
    ensures Run(s, events[..k]).gap == {}
    decreases |events|
  {
    if k > 0 {
      GapStaysEmpty(Step(s, events[0]), events[1..], k - 1);
      assert events[..k][1..] == events[1..][..k - 1];
    }
  }

  /** Steps of markDead up to the setting of `closed`, and nothing else. */
  predicate Teardown<C(==)>(tail: seq<Event<C>>) {
    forall i :: 0 <= i < |tail| ==> tail[i] == EnterOnce || tail[i] == SetClosed
  }

  lemma {:induction false} TeardownAttachesNothing<C>(s: State<C>, tail: seq<Event<C>>)
    requires Teardown(tail)
    ensures Run(s, tail).gap == s.gap && Run(s, tail).core.channels == s.core.channels
    decreases |tail|
  {
    if tail != [] {
      assert tail[0] == EnterOnce || tail[0] == SetClosed;
      TeardownAttachesNothing(Step(s, tail[0]), tail[1..]);
    }
  }

  ghost predicate ClosedMeansEmpty<C>(s: State<C>) {
    s.core.closed ==> s.core.channels == map[]
  }

  lemma NoGapNoChannels<C>(s: State<C>)
    requires Inv(s) && s.gap == {}
    ensures ClosedMeansEmpty(s)
  {
    if s.core.closed {
      assert forall i :: i !in s.core.channels;
    }
  }

  /** Without a late attach, closed does imply that no channel is left: at every moment, however the teardown then
      goes on. */
  lemma ClosedMeansEmptyWithoutLateAttach<C>(events: seq<Event<C>>, k: nat, tail: seq<Event<C>>)
    requires NoLateAttach(Start<C>(), events) && k <= |events| && Teardown(tail)
    ensures ClosedMeansEmpty(Run(Run(Start<C>(), events[..k]), tail))
  {
    GapStaysEmpty(Start<C>(), events, k);
    RunKeepsInv(Start<C>(), events[..k]);
    var s := Run(Start<C>(), events[..k]);
    TeardownAttachesNothing(s, tail);
    RunKeepsInv(s, tail);
    NoGapNoChannels(Run(s, tail));
  }

  lemma {:induction false} RunConcat<C>(s: State<C>, a: seq<Event<C>>, b: seq<Event<C>>)
    ensures Run(s, a + b) == Run(Run(s, a), b)
    decreases |a|
  {
    if a == [] {
      assert a + b == b;
    } else {
      assert (a + b)[1..] == a[1..] + b;
      RunConcat(Step(s, a[0]), a[1..], b);
    }
  }

  lemma RunOne<C>(s: State<C>, e: Event<C>)
    ensures Run(s, [e]) == Step(s, e)
  {
    assert Run(Step(s, e), []) == Step(s, e);
  }

  lemma RunCons<C>(s: State<C>, e: Event<C>, rest: seq<Event<C>>)
    ensures Run(s, [e] + rest) == Run(Step(s, e), rest)
  {
    assert ([e] + rest)[1..] == rest;
  }

  /** The body of deadOnce, step by step. */
  function Closing<C(==)>(s: State<C>): State<C> {
    Step(Step(s, EnterOnce), SetClosed)
  }

  function Reporting<C(==)>(s: State<C>): State<C> {
    Step(Step(Step(s, CloseDead), Fire), Finish)
  }

  lemma RunClosing<C>(s: State<C>)
    ensures Run(s, [EnterOnce, SetClosed]) == Closing(s)
  {
    var rest: seq<Event<C>> := [SetClosed];
    assert [EnterOnce] + rest == [EnterOnce, SetClosed];
    RunCons(s, EnterOnce, rest);
    RunOne(Step(s, EnterOnce), SetClosed);
  }

  lemma RunReporting<C>(s: State<C>)
    ensures Run(s, [CloseDead, Fire, Finish]) == Reporting(s)
  {
    var one: seq<Event<C>> := [Finish];
    var two: seq<Event<C>> := [Fire] + one;
    assert [CloseDead] + two == [CloseDead, Fire, Finish];
    RunCons(s, CloseDead, two);
    RunCons(Step(s, CloseDead), Fire, one);
    RunOne(Step(Step(s, CloseDead), Fire), Finish);
  }

  lemma RunMarkDead<C>(s: State<C>)
    ensures Run(s, [EnterOnce, SetClosed, CloseDead, Fire, Finish]) == Reporting(Closing(s))
  {
    var a: seq<Event<C>>, b: seq<Event<C>> := [EnterOnce, SetClosed], [CloseDead, Fire, Finish];
    assert a + b == [EnterOnce, SetClosed, CloseDead, Fire, Finish];
    RunConcat(s, a, b);
    RunClosing(s);
    RunReporting(Closing(s));
  }

  lemma ClosingCloses<C>(s: State<C>)
    requires Inv(s) && Owing(s) && !s.core.closed
    ensures var s' := Closing(s);
            s'.core == s.core.(closed := true, once := ClosedSet) && Reporting(s').core == s'.core.(dead := true, fired := 1, once := Done)
  {
  }

  /** With one it does not: whatever the tunnel, a channel it accepts late is still attached when it is closed, dead and
      reported empty. */
  lemma LateAttachSurvivesClosing<C>(s: State<C>, idx: int, c: C)
    requires Inv(s) && Owing(s) && !s.core.closed
    ensures var s' := Run(Step(s, Add(idx, c)), [EnterOnce, SetClosed]);
            s'.core.closed && idx in s'.core.channels && s'.core.channels[idx] == c
    ensures var s' := Run(Step(s, Add(idx, c)), [EnterOnce, SetClosed, CloseDead, Fire, Finish]);
            && s'.core.closed && s'.core.dead && s'.core.fired == 1
            && idx in s'.core.channels && s'.core.channels[idx] == c
  {
    var s0 := Step(s, Add(idx, c));
    StepKeepsInv(s, Add(idx, c));
    RunClosing(s0);
    RunMarkDead(s0);
    ClosingCloses(s0);
  }

  /** The first late attach of a run that has one. */
  lemma {:induction false} FirstLateAttach<C>(s: State<C>, events: seq<Event<C>>) returns (k: nat)
    requires !NoLateAttach(s, events)
    ensures k < |events| && events[k].Add? && Owing(Run(s, events[..k])) && !Run(s, events[..k]).core.closed
    decreases |events|
  {
    if events[0].Add? && !s.core.closed && Owing(s) {
      k := 0;
    } else {
      k := FirstLateAttach(Step(s, events[0]), events[1..]);
      assert events[..k + 1][1..] == events[1..][..k];
      k := k + 1;
    }
  }

  /** Closed implies empty at every moment of a run, and however its teardown goes on from there, exactly when
      nothing is attached late. */
  lemma ClosedMeansEmptyExactly<C(!new)>(events: seq<Event<C>>)
    ensures NoLateAttach(Start<C>(), events) <==>
            forall k, tail :: 0 <= k <= |events| && Teardown(tail) ==> ClosedMeansEmpty(Run(Run(Start<C>(), events[..k]), tail))
  {
    if NoLateAttach(Start<C>(), events) {
      forall k, tail | 0 <= k <= |events| && Teardown(tail)
        ensures ClosedMeansEmpty(Run(Run(Start<C>(), events[..k]), tail))
      {
        ClosedMeansEmptyWithoutLateAttach(events, k, tail);
      }
    } else {
      var k, tail := LateAttachBreaks(events);
      assert Teardown(tail) && !ClosedMeansEmpty(Run(Run(Start<C>(), events[..k]), tail));
    }
  }

  lemma LateAttachBreaks<C>(events: seq<Event<C>>) returns (k: nat, tail: seq<Event<C>>)
    requires !NoLateAttach(Start<C>(), events)
    ensures k <= |events| && Teardown(tail) && !ClosedMeansEmpty(Run(Run(Start<C>(), events[..k]), tail))
  {
    var j := FirstLateAttach(Start<C>(), events);
    var s := Run(Start<C>(), events[..j]);
    RunKeepsInv(Start<C>(), events[..j]);
    LateAttachSurvivesClosing(s, events[j].idx, events[j].c);
    RunUpTo(Start<C>(), events, j);
    k, tail := j + 1, [EnterOnce, SetClosed];
  }

  lemma RunUpTo<C>(s: State<C>, events: seq<Event<C>>, k: nat)
    requires k < |events|
    ensures Run(s, events[..k + 1]) == Step(Run(s, events[..k]), events[k])
  {
    RunConcat(s, events[..k], [events[k]]);
    RunOne(Run(s, events[..k]), events[k]);
    assert events[..k + 1] == events[..k] + [events[k]];
  }

  // ------------------------------------------------------------------ fresh indices

  lemma {:induction false} WithoutKeepsNoDup(order: seq<int>, gone: set<int>)
    requires NoDup(order)
    ensures NoDup(Without(order, gone))
    decreases |order|
  {
    if order != [] {
      var n := |order| - 1;
      WithoutKeepsNoDup(order[..n], gone);
      WithoutMembers(order[..n], gone, order[n]);
    }
  }

  /** One attach keeps `order` free of duplicates exactly when the index is not live. */
  lemma AttachKeepsNoDupExactly<C>(t: Core<C>, idx: int, c: C)
    requires Listed(t) && NoDup(t.order) && !t.closed
    ensures NoDup(Attach(t, idx, c).order) <==> idx !in t.channels
  {
    var order' := t.order + [idx];
    if idx in t.channels {
      var k :| 0 <= k < |t.order| && t.order[k] == idx;
      assert order'[k] == order'[|t.order|];
    }
  }

  /** Every accepted attach uses an index that is not live at that moment. */
  ghost predicate FreshAdds<C>(s: State<C>, events: seq<Event<C>>)
    decreases |events|
  {
    events != [] ==>
      (events[0].Add? && !s.core.closed ==> events[0].idx !in s.core.channels) && FreshAdds(Step(s, events[0]), events[1..])
  }

  /** One step keeps `order` free of duplicates exactly when it attaches no live index. */
  lemma StepKeepsNoDupExactly<C>(s: State<C>, e: Event<C>)
    requires Listed(s.core) && NoDup(s.core.order)
    ensures NoDup(Step(s, e).core.order) <==> (e.Add? && !s.core.closed ==> e.idx !in s.core.channels)
    ensures Listed(Step(s, e).core)
  {
    match e
    case Add(idx, c) =>
      AttachKeepsListed(s.core, idx, c);
      if !s.core.closed {
        AttachKeepsNoDupExactly(s.core, idx, c);
      }
    case Remove(idx) =>
      DetachKeepsListed(s.core, idx);
      WithoutKeepsNoDup(s.core.order, {idx});
    case _ =>
  }

  /** `order` is free of duplicates at every moment of a run exactly when every attach is fresh. */
  lemma {:induction false} NoDupExactly<C>(s: State<C>, events: seq<Event<C>>)
    requires Listed(s.core) && NoDup(s.core.order)
    ensures FreshAdds(s, events) <==> forall k :: 0 <= k <= |events| ==> NoDup(Run(s, events[..k]).core.order)
    decreases |events|
  {
    if events == [] {
      assert events[..0] == [];
    } else {
      var s', rest := Step(s, events[0]), events[1..];
      StepKeepsNoDupExactly(s, events[0]);
      forall k | 0 < k <= |events| ensures Run(s, events[..k]) == Run(s', rest[..k - 1]) {
        assert events[..k][1..] == rest[..k - 1];
      }
      assert Run(s, events[..1]) == Run(s', rest[..0]) == s';
      if NoDup(s'.core.order) {
        NoDupExactly(s', rest);
        if forall k :: 0 <= k <= |events| ==> NoDup(Run(s, events[..k]).core.order) {
          forall k | 0 <= k <= |rest| ensures NoDup(Run(s', rest[..k]).core.order) {
            assert Run(s, events[..k + 1]) == Run(s', rest[..k]);
          }
        }
      }
    }
  }

  /** The run attaches each index at most once, as Dial does. */
  ghost predicate DistinctAdds<C>(events: seq<Event<C>>) {
    forall i, j :: 0 <= i < j < |events| && events[i].Add? && events[j].Add? ==> events[i].idx != events[j].idx
  }

  /** When every index is attached at most once, `order` never holds a duplicate. */
  lemma {:induction false} DistinctAddsKeepNoDup<C>(s: State<C>, events: seq<Event<C>>)
    requires DistinctAdds(events) && NoDup(s.core.order)
    requires forall i :: 0 <= i < |events| && events[i].Add? ==> events[i].idx !in s.core.order
    ensures NoDup(Run(s, events).core.order)
    decreases |events|
  {
    if events != [] {
      var s', rest := Step(s, events[0]), events[1..];
      if events[0].Remove? {
        WithoutKeepsNoDup(s.core.order, {events[0].idx});
      }
      forall i | 0 <= i < |rest| && rest[i].Add? ensures rest[i].idx !in s'.core.order {
        assert rest[i] == events[i + 1];
        if events[0].Remove? {
          WithoutMembers(s.core.order, {events[0].idx}, rest[i].idx);
        }
      }
      DistinctAddsKeepNoDup(s', rest);
    }
  }

  /** A reader holds the index of the connection it serves. In particular when each index is attached at most once,
      that index never names another connection. */
  lemma {:induction false} IndexNamesOneConnection<C>(s: State<C>, events: seq<Event<C>>, k: nat)
    requires DistinctAdds(events) && k < |events| && events[k].Add?
    requires events[k].idx !in s.core.channels
    ensures var s' := Run(s, events);
            events[k].idx in s'.core.channels ==> s'.core.channels[events[k].idx] == events[k].c
    decreases |events|
  {
    var s', rest := Step(s, events[0]), events[1..];
    if k > 0 {
      IndexNamesOneConnection(s', rest, k - 1);
    } else {
      NoOtherAdd(s', rest, events[0].idx, events[0].c);
    }
  }

  lemma {:induction false} NoOtherAdd<C>(s: State<C>, events: seq<Event<C>>, idx: int, c: C)
    requires idx in s.core.channels ==> s.core.channels[idx] == c
    requires forall i :: 0 <= i < |events| && events[i].Add? ==> events[i].idx != idx
    ensures var s' := Run(s, events); idx in s'.core.channels ==> s'.core.channels[idx] == c
    decreases |events|
  {
    if events != [] {
      NoOtherAdd(Step(s, events[0]), events[1..], idx, c);
    }
  }

  /** The index leads to c, or nowhere. */
  ghost predicate NamesOnly<C>(s: State<C>, idx: int, c: C) {
    idx in s.core.channels ==> s.core.channels[idx] == c
  }

  /** No accepted attach of the index brings another connection. */
  ghost predicate BringsOnly<C>(s: State<C>, events: seq<Event<C>>, idx: int, c: C)
    decreases |events|
  {
    events != [] ==>
      && (events[0].Add? && !s.core.closed && events[0].idx == idx ==> events[0].c == c)
      && BringsOnly(Step(s, events[0]), events[1..], idx, c)
  }

  lemma StepNamesOnlyExactly<C>(s: State<C>, e: Event<C>, idx: int, c: C)
    requires NamesOnly(s, idx, c)
    ensures NamesOnly(Step(s, e), idx, c) <==> (e.Add? && !s.core.closed && e.idx == idx ==> e.c == c)
  {
  }

  /** What a reader that detaches its index may rely on; it may do so long after its channel left the map, when a
      failed write has detached it first. From the moment an index leads to c or nowhere: it does so at every later
      moment exactly when no later accepted attach of it brings another connection. */
  lemma {:induction false} IndexNamesExactly<C>(s: State<C>, events: seq<Event<C>>, idx: int, c: C)
    requires NamesOnly(s, idx, c)
    ensures BringsOnly(s, events, idx, c) <==> forall k :: 0 <= k <= |events| ==> NamesOnly(Run(s, events[..k]), idx, c)
    decreases |events|
  {
    if events == [] {
      assert events[..0] == [];
    } else {
      var s', rest := Step(s, events[0]), events[1..];
      StepNamesOnlyExactly(s, events[0], idx, c);
      forall k | 0 < k <= |events| ensures Run(s, events[..k]) == Run(s', rest[..k - 1]) {
        assert events[..k][1..] == rest[..k - 1];
      }
      assert Run(s, events[..1]) == Run(s', rest[..0]) == s';
      if NamesOnly(s', idx, c) {
        IndexNamesExactly(s', rest, idx, c);
        if forall k :: 0 <= k <= |events| ==> NamesOnly(Run(s, events[..k]), idx, c) {
          forall k | 0 <= k <= |rest| ensures NamesOnly(Run(s', rest[..k]), idx, c) {
            assert Run(s, events[..k + 1]) == Run(s', rest[..k]);
          }
        }
      }
    }
  }

  /** With a repeated index it does: the first connection's reader, failing, detaches the second connection. */
  lemma RepeatedIndexDetachesTheNewcomer(t: Core<nat>, idx: int, first: nat, second: nat)
    requires Listed(t) && !t.closed && idx !in t.channels && first != second
    ensures var t2 := Attach(Attach(t, idx, first), idx, second);
            && t2.channels[idx] == second
            && t2.order == t.order + [idx, idx]
            && Detach(t2, idx).channels == t.channels
  {
    assert t.order + [idx] + [idx] == t.order + [idx, idx];
  }

  // ------------------------------------------------------------------ sockets left open

  ghost predicate Injective<K, V>(m: map<K, V>) {
    forall i, j :: i in m && j in m && i != j ==> m[i] != m[j]
  }

  /** The map's connections are distinct and open. */
  ghost predicate Sound<C>(s: State<C>) {
    Injective(s.core.channels) && s.core.channels.Values <= s.open
  }

  /** Every attach brings a connection of its own, as newConn does. */
  ghost predicate NewConns<C>(s: State<C>, events: seq<Event<C>>) {
    && (forall i, j :: 0 <= i < j < |events| && events[i].Add? && events[j].Add? ==> events[i].c != events[j].c)
    && (forall i :: 0 <= i < |events| && events[i].Add? ==> events[i].c !in s.open)
  }

  /** How many accepted attaches hit a live index. */
  ghost function Overwrites<C>(s: State<C>, events: seq<Event<C>>): nat
    decreases |events|
  {
    if events == [] then 0
    else
      (if events[0].Add? && !s.core.closed && events[0].idx in s.core.channels then 1 else 0)
      + Overwrites(Step(s, events[0]), events[1..])
  }

  lemma {:induction false} FreshMeansNoOverwrites<C>(s: State<C>, events: seq<Event<C>>)
    ensures FreshAdds(s, events) <==> Overwrites(s, events) == 0
    decreases |events|
  {
    if events != [] {
      FreshMeansNoOverwrites(Step(s, events[0]), events[1..]);
    }
  }

  lemma {:induction false} ValuesSize<K, V>(m: map<K, V>)
    requires Injective(m)
    ensures |m.Values| == |m|
    decreases |m|
  {
    if m != map[] {
      var k :| k in m;
      var m' := m - {k};
      ValuesSize(m');
      assert m.Values == m'.Values + {m[k]} by {
        forall v ensures v in m.Values <==> v in m'.Values || v == m[k] {
          if v in m.Values {
            var i :| i in m && m[i] == v;
            assert i != k ==> i in m' && m'[i] == v;
          }
        }
      }
    } else {
      assert m.Values == {};
    }
  }

  lemma AddOpens<C>(m: map<int, C>, open: set<C>, idx: int, c: C)
    requires Injective(m) && m.Values <= open && c !in open
    ensures Injective(m[idx := c]) && m[idx := c].Values <= open + {c}
    ensures |open + {c}| - |m[idx := c]| == |open| - |m| + if idx in m then 1 else 0
  {
    assert forall i :: i in m ==> m[i] in m.Values;
    assert m[idx := c].Keys == m.Keys + {idx};
  }

  lemma RemoveCloses<C>(m: map<int, C>, open: set<C>, idx: int)
    requires Injective(m) && m.Values <= open && idx in m
    ensures Injective(m - {idx}) && (m - {idx}).Values <= open - {m[idx]}
    ensures |open - {m[idx]}| - |m - {idx}| == |open| - |m|
  {
    assert m[idx] in m.Values;
    assert (m - {idx}).Keys == m.Keys - {idx};
  }

  lemma ClearCloses<C>(m: map<int, C>, open: set<C>)
    requires Injective(m) && m.Values <= open
    ensures |open - m.Values| == |open| - |m|
  {
    ValuesSize(m);
  }

  /** What one event does to the connections open beyond the map. */
  ghost predicate OpenAfter<C>(s: State<C>, e: Event<C>, s': State<C>) {
    && Sound(s') && s'.open <= s.open + (if e.Add? then {e.c} else {})
    && |s'.open| - |s'.core.channels| == |s.open| - |s.core.channels|
       + (if e.Add? && !s.core.closed && e.idx in s.core.channels then 1 else 0)
  }

  lemma OpenAdd<C>(s: State<C>, idx: int, c: C)
    requires Sound(s) && c !in s.open
    ensures OpenAfter(s, Add(idx, c), Step(s, Add(idx, c)))
  {
    AddOpens(s.core.channels, s.open, idx, c);
  }

  lemma OpenRemove<C>(s: State<C>, idx: int)
    requires Sound(s)
    ensures OpenAfter(s, Remove(idx), Step(s, Remove(idx)))
  {
    if idx in s.core.channels {
      RemoveCloses(s.core.channels, s.open, idx);
    }
  }

  lemma OpenClear<C>(s: State<C>)
    requires Sound(s)
    ensures OpenAfter(s, CloseAll, Step(s, CloseAll))
  {
    ClearCloses(s.core.channels, s.open);
  }

  lemma OpenRest<C>(s: State<C>, e: Event<C>)
    requires Sound(s) && !e.Add? && !e.Remove? && !e.CloseAll?
    ensures OpenAfter(s, e, Step(s, e))
  {
    assert Step(s, e).open == s.open && Step(s, e).core.channels == s.core.channels;
  }

  lemma OpenStep<C>(s: State<C>, e: Event<C>)
    requires Sound(s) && (e.Add? ==> e.c !in s.open)
    ensures OpenAfter(s, e, Step(s, e))
  {
    match e
    case Add(idx, c) => OpenAdd(s, idx, c);
    case Remove(idx) => OpenRemove(s, idx);
    case CloseAll => OpenClear(s);
    case _ => OpenRest(s, e);
  }

  /** In every run: the connections left open are those in the map and one more for every attach that hit a live index.
      */
  lemma {:induction false} OpenIsLivePlusOverwritten<C>(s: State<C>, events: seq<Event<C>>)
    requires Sound(s) && NewConns(s, events)
    ensures var s' := Run(s, events);
            Sound(s') && |s'.open| - |s'.core.channels| == |s.open| - |s.core.channels| + Overwrites(s, events)
    decreases |events|
  {
    if events != [] {
      var s', rest := Step(s, events[0]), events[1..];
      OpenStep(s, events[0]);
      forall i | 0 <= i < |rest| && rest[i].Add? ensures rest[i].c !in s'.open {
        assert rest[i] == events[i + 1];
      }
      OpenIsLivePlusOverwritten(s', rest);
    }
  }

  ghost predicate IndicesBelow<C>(events: seq<Event<C>>, cap: nat) {
    forall i :: 0 <= i < |events| && events[i].Add? ==> 0 <= events[i].idx < cap
  }

  lemma {:induction false} MapStaysBelow<C>(s: State<C>, events: seq<Event<C>>, cap: nat)
    requires IndicesBelow(events, cap) && forall i :: i in s.core.channels ==> 0 <= i < cap
    ensures |Run(s, events).core.channels| <= cap
    decreases |events|
  {
    if events == [] {
      forall i | i in s.core.channels.Keys ensures i in Below(cap) {
        BelowIs(cap, i);
      }
      SubsetSize(s.core.channels.Keys, Below(cap));
    } else {
      MapStaysBelow(Step(s, events[0]), events[1..], cap);
    }
  }

  /** A cap on indices always caps the map. It caps the open connections too in a run without overwrites, where
      they are exactly the map's; after any overwrite some open connection is not in the map. */
  lemma OpenCapExactly<C>(events: seq<Event<C>>, cap: nat)
    requires NewConns(Start<C>(), events) && IndicesBelow(events, cap)
    ensures var s := Run(Start<C>(), events);
            && |s.core.channels| <= cap
            && |s.open| == |s.core.channels| + Overwrites(Start<C>(), events)
            && (FreshAdds(Start<C>(), events) <==> s.open == s.core.channels.Values)
            && (FreshAdds(Start<C>(), events) ==> |s.open| <= cap)
  {
    var s := Run(Start<C>(), events);
    OpenIsLivePlusOverwritten(Start<C>(), events);
    MapStaysBelow(Start<C>(), events, cap);
    FreshMeansNoOverwrites(Start<C>(), events);
    ValuesSize(s.core.channels);
    if |s.open| == |s.core.channels| {
      SameSize(s.core.channels.Values, s.open);
    }
  }

  /** An overwritten connection stays open for good: no later event closes it, neither Close nor the teardown. */
  lemma {:induction false} OverwrittenStaysOpen<C>(s: State<C>, events: seq<Event<C>>, c: C)
    requires c in s.open && c !in s.core.channels.Values
    requires forall i :: 0 <= i < |events| && events[i].Add? ==> events[i].c != c
    ensures c in Run(s, events).open && c !in Run(s, events).core.channels.Values
    decreases |events|
  {
    if events != [] {
      OverwrittenStaysOpen(Step(s, events[0]), events[1..], c);
    }
  }

  /** Attaching one index over and over. */
  function Reattach(idx: int, n: nat): seq<Event<nat>> {
    if n == 0 then [] else Reattach(idx, n - 1) + [Add(idx, n - 1)]
  }

  /** The first n connections. */
  function Firsts(n: nat): (r: set<nat>)
    ensures |r| == n && forall c :: c in r ==> c < n
  {
    if n == 0 then {} else Firsts(n - 1) + {n - 1}
  }

  lemma ReattachOnce(s: State<nat>, idx: int, n: nat)
    requires !s.core.closed && s.open == Firsts(n)
    requires s.core.channels == if n == 0 then map[] else map[idx := n - 1]
    ensures var s' := Step(s, Add(idx, n));
            !s'.core.closed && s'.open == Firsts(n + 1) && s'.core.channels == map[idx := n]
  {
  }

  lemma {:induction false} ReattachesAre(idx: int, n: nat)
    ensures var s := Run(Start<nat>(), Reattach(idx, n));
            !s.core.closed && s.open == Firsts(n) && s.core.channels == if n == 0 then map[] else map[idx := n - 1]
  {
    if n > 0 {
      var s := Run(Start<nat>(), Reattach(idx, n - 1));
      ReattachesAre(idx, n - 1);
      ReattachOnce(s, idx, n - 1);
      RunConcat(Start<nat>(), Reattach(idx, n - 1), [Add(idx, n - 1)]);
      RunOne(s, Add(idx, n - 1));
    }
  }

  lemma CloseLeavesAllButOne(s: State<nat>, n: nat)
    requires n > 0 && s.open == Firsts(n) && s.core.channels.Values == {n - 1}
    ensures |Step(s, CloseAll).open| == n - 1
  {
    assert Firsts(n) - {n - 1} == Firsts(n - 1);
  }

  /** For every n a run with n connections open and one in the map, all but one of which Close leaves open. */
  lemma ReattachesPileUp(idx: int, n: nat)
    requires n > 0
    ensures var s := Run(Start<nat>(), Reattach(idx, n));
            && |s.core.channels| == 1 && |s.open| == n && |Step(s, CloseAll).open| == n - 1
  {
    ReattachesAre(idx, n);
    OneValue(idx, n - 1);
    CloseLeavesAllButOne(Run(Start<nat>(), Reattach(idx, n)), n);
  }

  lemma OneValue(idx: int, c: nat)
    ensures map[idx := c].Values == {c}
  {
    var m := map[idx := c];
    assert idx in m && m[idx] == c;
    assert c in m.Values;
  }

  /** markDead run without interruption by a thread that owes it is the sequential MarkDead. */
  lemma UninterruptedMarkDead<C>(s: State<C>)
    requires s.owed > 0 && (s.core.once == Idle || s.core.once == Done)
    ensures Run(s, [EnterOnce, SetClosed, CloseDead, Fire, Finish]).core == MarkDead(s.core)
  {
    RunMarkDead(s);
    MarkDeadSteps(s);
  }

  lemma MarkDeadSteps<C>(s: State<C>)
    requires s.owed > 0 && (s.core.once == Idle || s.core.once == Done)
    ensures Reporting(Closing(s)).core == MarkDead(s.core)
  {
    assert s.core.once == Idle ==> Closing(s).core.once == ClosedSet;
  }
}
