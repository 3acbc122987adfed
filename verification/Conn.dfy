/** One channel of a tunnel: sealed records over a message socket (internal/transport/conn.go). */
module Connection {
  import opened Aead
  import opened Bytes
  import opened Frame
  import opened Wrappers

  datatype ConnError = Record(error: FrameError) | SocketDown | MessageTooLarge

  /** The sending half: sealer, socket state, and every message the socket has accepted. */
  datatype Writer = Writer(tx: SealerState, up: bool, sent: seq<Sealed>)

  /** Seal and send under the write lock. A socket that has failed refuses every later message. */
  function WriteStep(w: Writer, typ: u8, payload: seq<u8>, rnd: Random): (Writer, Result<(), ConnError>) {
    var (tx', r) := SealRecord(w.tx, typ, payload, rnd);
    match r
    case Err(e) => (w.(tx := tx'), Err(Record(e)))
    case Ok(c) =>
      if w.up then (w.(tx := tx', sent := w.sent + [c]), Ok(()))
      else (w.(tx := tx'), Err(SocketDown))
  }

  /** One turn of the reader's loop: take a message, check its size, open it. */
  function ReceiveStep(rx: Stream, c: Sealed): (Stream, Result<(u8, seq<u8>), ConnError>) {
    if c.Size() > READ_LIMIT then (rx, Err(MessageTooLarge))
    else
      var (rx', r) := OpenRecord(rx, c);
      (rx', match r case Ok(record) => Ok(record) case Err(e) => Err(Record(e)))
  }

  datatype ReadResult = ReadResult(rx: Stream, rest: seq<Sealed>, result: Result<Packet, ConnError>)

  /** The reader's loop: skip padding records; a socket with nothing more to give is an error. */
  function ReadNext(rx: Stream, inbox: seq<Sealed>): ReadResult
    decreases |inbox|
  {
    if inbox == [] then ReadResult(rx, [], Err(SocketDown))
    else
      var (rx', r) := ReceiveStep(rx, inbox[0]);
      match r
      case Err(e) => ReadResult(rx', inbox[1..], Err(e))
      case Ok((typ, payload)) =>
        if typ == TYPE_PAD then ReadNext(rx', inbox[1..]) else ReadResult(rx', inbox[1..], Ok(payload))
  }

  /** Padding records are dropped, and no others: of any other type the payload is returned. */
  lemma OnlyPaddingIsDropped(rx: Stream, typ: u8, payload: seq<u8>, padding: seq<u8>, rest: seq<Sealed>)
    requires |payload| <= 9000 && |padding| <= 2000 && rx.counter < MAX_COUNTER
    ensures var c := Sealed(rx.key, NonceAt(rx.counter), Layout(typ, payload, padding));
            var rx' := Stream(rx.key, rx.counter + 1);
            ReadNext(rx, [c] + rest) == if typ == 2 then ReadNext(rx', rest) else ReadResult(rx', rest, Ok(payload))
  {
    ParseOfLayout(typ, payload, padding);
    var c := Sealed(rx.key, NonceAt(rx.counter), Layout(typ, payload, padding));
    assert ([c] + rest)[1..] == rest;
  }

  /** A message that is too large, or not the one due, ends the call with an error, and what follows it stays. */
  lemma BadMessageEndsTheRead(rx: Stream, c: Sealed, rest: seq<Sealed>)
    requires c.Size() > 11048 || c.key != rx.key || c.nonce != NonceAt(rx.counter)
    ensures ReadNext(rx, [c] + rest).result.Err? && ReadNext(rx, [c] + rest).rest == rest
  {
    assert ([c] + rest)[1..] == rest;
  }

  class Conn {
    const sealer: Sealer
    const opener: Opener
    /** Cleared by the environment when a socket write fails, and by Close; never set again. */
    var up: bool
    var sent: seq<Sealed>
    /** Messages that will still arrive before the socket fails or times out. */
    var inbox: seq<Sealed>

    ghost const Repr: set<object>

    ghost predicate Valid()
      reads Repr
    {
      Repr == {this, sealer, sealer.aead, opener, opener.aead} && sealer.aead != opener.aead
    }

    ghost function Out(): Writer
      requires Valid()
      reads Repr
    {
      Writer(sealer.State(), up, sent)
    }

    constructor (sealKey: Key, openKey: Key, pad: PadPolicy)
      ensures Valid() && fresh(Repr)
      ensures Out() == Writer(SealerState(Stream(sealKey, 0), pad, 0), true, [])
      ensures opener.State() == Stream(openKey, 0) && inbox == []
    {
      var s := new Sealer(sealKey, pad);
      var o := new Opener(openKey);
      sealer, opener := s, o;
      up, sent, inbox := true, [], [];
      Repr := {this, s, s.aead, o, o.aead};
    }

    method WritePacket(p: Packet, rnd: Random) returns (r: Result<(), ConnError>)
      requires Valid()
      modifies Repr
      ensures Valid()
      ensures Out() == WriteStep(old(Out()), TYPE_DATA, p, rnd).0
      ensures r == WriteStep(old(Out()), TYPE_DATA, p, rnd).1
      ensures opener.State() == old(opener.State()) && inbox == old(inbox)
    {
      var c := sealer.Seal(TYPE_DATA, p, rnd);
      match c
      case Err(e) => r := Err(Record(e));
      case Ok(ct) => r := WriteMessage(ct);
    }

    method WriteKeepalive(rnd: Random) returns (r: Result<(), ConnError>)
      requires Valid()
      modifies Repr
      ensures Valid()
      ensures Out() == WriteStep(old(Out()), TYPE_PAD, [], rnd).0
      ensures r == WriteStep(old(Out()), TYPE_PAD, [], rnd).1
      ensures opener.State() == old(opener.State()) && inbox == old(inbox)
    {
      var c := sealer.Seal(TYPE_PAD, [], rnd);
      match c
      case Err(e) => r := Err(Record(e));
      case Ok(ct) => r := WriteMessage(ct);
    }

    /** The socket's own write. */
    method WriteMessage(ct: Sealed) returns (r: Result<(), ConnError>)
      modifies this
      ensures up == old(up) && inbox == old(inbox)
      ensures r == if up then Ok(()) else Err(SocketDown)
      ensures sent == if up then old(sent) + [ct] else old(sent)
    {
      if !up {
        return Err(SocketDown);
      }
      sent := sent + [ct];
      r := Ok(());
    }

    method ReadPacket() returns (r: Result<Packet, ConnError>)
      requires Valid()
      modifies Repr
      ensures Valid()
      ensures ReadResult(opener.State(), inbox, r) == ReadNext(old(opener.State()), old(inbox))
      ensures Out() == old(Out())
    {
      while inbox != []
        invariant Valid()
        invariant Out() == old(Out())
        invariant ReadNext(opener.State(), inbox) == ReadNext(old(opener.State()), old(inbox))
        decreases |inbox|
      {
        var ct := inbox[0];
        inbox := inbox[1..];
        if ct.Size() > READ_LIMIT {
          return Err(MessageTooLarge);
        }
        var record := opener.Open(ct);
        match record {
          case Err(e) => return Err(Record(e));
          case Ok((typ, payload)) =>
            if typ != TYPE_PAD {
              return Ok(payload);
            }
        }
      }
      r := Err(SocketDown);
    }

    method Close()
      modifies this
      ensures !up && inbox == [] && sent == old(sent)
    {
      up, inbox := false, [];
    }
  }
}

/** A channel under every interleaving of its writers, its reader and socket failure. */
module Channel {
  import opened Aead
  import opened Bytes
  import opened Connection
  import opened Frame
  import opened Lists
  import opened Wrappers

  /** One direction end to end. The socket is a reliable FIFO: the reader has taken the first `taken` messages sent. */
  datatype Channel = Channel(
    w: Writer,
    taken: nat,
    rx: Stream,
    written: seq<Packet>,  // data packets whose WritePacket succeeded, in write-lock order
    read: seq<Packet>,     // packets ReadPacket returned
    error: Option<ConnError>)

  datatype Event =
    | Write(p: Packet, rnd: Random)
    | Keepalive(rnd: Random)
    | Receive
    | Break

  function Fresh(key: Key, pad: PadPolicy): Channel {
    Channel(Writer(SealerState(Stream(key, 0), pad, 0), true, []), 0, Stream(key, 0), [], [], None)
  }

  function Step(c: Channel, e: Event): Channel {
    match e
    case Write(p, rnd) =>
      var (w', r) := WriteStep(c.w, TYPE_DATA, p, rnd);
      c.(w := w', written := if r.Ok? then c.written + [p] else c.written)
    case Keepalive(rnd) =>
      c.(w := WriteStep(c.w, TYPE_PAD, [], rnd).0)
    case Receive =>
      if c.taken >= |c.w.sent| || c.error.Some? then c
      else
        var (rx', r) := ReceiveStep(c.rx, c.w.sent[c.taken]);
        var c' := c.(rx := rx', taken := c.taken + 1);
        (match r
         case Err(e) => c'.(error := Some(e))
         case Ok((typ, payload)) => if typ == TYPE_PAD then c' else c'.(read := c.read + [payload]))
    case Break =>
      c.(w := c.w.(up := false))
  }

  function Run(c: Channel, events: seq<Event>): Channel
    decreases |events|
  {
    if events == [] then c else Step(Run(c, events[..|events| - 1]), events[|events| - 1])
  }

  /** The data packets carried by a list of records. */
  function DataOf(records: seq<Sealed>): seq<Packet> {
    Gather(Carried, records)
  }

  /** What one record contributes to the data stream: its payload, unless it is padding. */
  function Carried(c: Sealed): seq<Packet> {
    match Parse(c.plain)
    case Err(_) => []
    case Ok((typ, payload)) => if typ == TYPE_PAD then [] else [payload]
  }

  /** c is what a receiver with this key and counter is ready to take. */
  ghost predicate Due(c: Sealed, key: Key, counter: int) {
    && 0 <= counter < MAX_COUNTER && c.key == key && c.nonce == NonceAt(counter)
    && Parse(c.plain).Ok? && c.Size() <= READ_LIMIT
  }

  ghost predicate InOrder(key: Key, records: seq<Sealed>) {
    forall i :: 0 <= i < |records| ==> Due(records[i], key, i)
  }

  ghost predicate Inv(c: Channel) {
    && PolicyFits(c.w.tx.pad)
    && c.taken <= |c.w.sent| <= c.w.tx.stream.counter
    && (c.w.up ==> |c.w.sent| == c.w.tx.stream.counter)
    && c.rx == Stream(c.w.tx.stream.key, c.taken)
    && InOrder(c.rx.key, c.w.sent)
    && c.written == DataOf(c.w.sent)
    && c.read == DataOf(c.w.sent[..c.taken])
    && c.error == None
  }

  lemma SendKeepsInv(c: Channel, w': Writer, record: Sealed, data: seq<Packet>)
    requires Inv(c) && Due(record, c.rx.key, |c.w.sent|) && Carried(record) == data
    requires w'.sent == c.w.sent + [record] && w'.up == c.w.up
    requires w'.tx.pad == c.w.tx.pad && w'.tx.stream.key == c.w.tx.stream.key
    requires w'.tx.stream.counter == c.w.tx.stream.counter + 1
    ensures Inv(c.(w := w', written := c.written + data))
  {
    GatherSnoc(Carried, c.w.sent, record);
    InOrderSnoc(c.rx.key, c.w.sent, record);
    assert w'.sent[..c.taken] == c.w.sent[..c.taken];
  }

  lemma InOrderSnoc(key: Key, records: seq<Sealed>, record: Sealed)
    requires InOrder(key, records) && Due(record, key, |records|)
    ensures InOrder(key, records + [record])
  {
    var longer := records + [record];
    forall i | 0 <= i < |longer| ensures Due(longer[i], key, i) {
      assert i < |records| ==> Due(records[i], key, i);
    }
  }

  lemma WriteKeepsInv(c: Channel, typ: u8, payload: Packet, rnd: Random)
    requires Inv(c)
    ensures var (w', r) := WriteStep(c.w, typ, payload, rnd);
            var written' := if r.Ok? && typ != TYPE_PAD then c.written + [payload] else c.written;
            Inv(c.(w := w', written := written'))
  {
    var (w', r) := WriteStep(c.w, typ, payload, rnd);
    if r.Ok? {
      var record := SealRecord(c.w.tx, typ, payload, rnd).1.value;
      NewRecordIsDue(c, typ, payload, rnd);
      SendKeepsInv(c, w', record, Carried(record));
      assert c.written + [] == c.written;
    }
  }

  lemma NewRecordIsDue(c: Channel, typ: u8, payload: Packet, rnd: Random)
    requires Inv(c) && WriteStep(c.w, typ, payload, rnd).1.Ok?
    ensures var record := SealRecord(c.w.tx, typ, payload, rnd).1;
            && record.Ok? && Due(record.value, c.rx.key, |c.w.sent|)
            && Carried(record.value) == if typ == TYPE_PAD then [] else [payload]
  {
    PolicyFitsExactly(c.w.tx.pad);
    SealedSize(c.w.tx, typ, payload, rnd);
    OpenOfSeal(c.w.tx, typ, payload, rnd);
  }

  lemma ReceiveKeepsInv(c: Channel)
    requires Inv(c)
    ensures Inv(Step(c, Receive))
  {
    if c.taken < |c.w.sent| {
      var record := c.w.sent[c.taken];
      assert Due(record, c.rx.key, c.taken);
      ReceiveDue(c, record);
      GatherSnoc(Carried, c.w.sent[..c.taken], record);
      assert c.w.sent[..c.taken + 1] == c.w.sent[..c.taken] + [record];
    }
  }

  /** Receiving the record that is due reads what it carries. */
  lemma ReceiveDue(c: Channel, record: Sealed)
    requires c.taken < |c.w.sent| && c.w.sent[c.taken] == record && c.error == None && Due(record, c.rx.key, c.rx.counter)
    ensures Step(c, Receive)
         == c.(rx := c.rx.(counter := c.rx.counter + 1), taken := c.taken + 1, read := c.read + Carried(record))
  {
    assert c.read + [] == c.read;
  }

  /** Every step keeps the invariant; a write adds at most its packet to `written`, a receive at most one packet
      to `read`. */
  lemma StepKeepsInv(c: Channel, e: Event)
    requires Inv(c)
    ensures Inv(Step(c, e))
    ensures Step(c, e).written == c.written || (e.Write? && Step(c, e).written == c.written + [e.p])
    ensures Step(c, e).read == c.read || (e.Receive? && exists p :: Step(c, e).read == c.read + [p])
  {
    match e
    case Write(p, rnd) => WriteKeepsInv(c, TYPE_DATA, p, rnd);
    case Keepalive(rnd) => WriteKeepsInv(c, TYPE_PAD, [], rnd);
    case Receive => ReceiveKeepsInv(c);
    case Break =>
  }

  lemma {:induction false} RunKeepsInv(key: Key, pad: PadPolicy, events: seq<Event>)
    requires PolicyFits(pad)
    ensures Inv(Run(Fresh(key, pad), events))
    decreases |events|
  {
    if events != [] {
      var n := |events| - 1;
      RunKeepsInv(key, pad, events[..n]);
      StepKeepsInv(Run(Fresh(key, pad), events[..n]), events[n]);
    }
  }

  /** Nothing has failed to open, and what was read plus what is in flight is exactly what was written, in order. */
  ghost predicate Safe(c: Channel) {
    && c.error == None
    && c.taken == c.rx.counter <= |c.w.sent|
    && (c.w.up ==> |c.w.sent| == c.w.tx.stream.counter)
    && c.written == c.read + DataOf(c.w.sent[c.taken..])
    && c.read <= c.written
  }

  lemma InvIsSafe(c: Channel)
    requires Inv(c)
    ensures Safe(c)
  {
    SplitData(c.w.sent, c.taken);
  }

  lemma SplitData(records: seq<Sealed>, k: nat)
    requires k <= |records|
    ensures DataOf(records) == DataOf(records[..k]) + DataOf(records[k..])
  {
    GatherConcat(Carried, records[..k], records[k..]);
    assert records == records[..k] + records[k..];
  }

  /** Whatever the interleaving of writers, keepalives, reader and socket failure. */
  lemma ChannelSafety(key: Key, pad: PadPolicy, events: seq<Event>)
    requires PolicyFits(pad)
    ensures Safe(Run(Fresh(key, pad), events))
  {
    RunKeepsInv(key, pad, events);
    InvIsSafe(Run(Fresh(key, pad), events));
  }

  function Keepalives(rnd: Random, n: nat): seq<Event> {
    if n == 0 then [] else Keepalives(rnd, n - 1) + [Keepalive(rnd)]
  }

  function Receives(n: nat): seq<Event> {
    if n == 0 then [] else Receives(n - 1) + [Receive]
  }

  lemma RunSnoc(c: Channel, events: seq<Event>, e: Event)
    ensures Run(c, events + [e]) == Step(Run(c, events), e)
  {
    assert (events + [e])[..|events|] == events;
  }

  lemma {:induction false} RunConcat(c: Channel, a: seq<Event>, b: seq<Event>)
    ensures Run(c, a + b) == Run(Run(c, a), b)
    decreases |b|
  {
    if b == [] {
      assert a + b == a;
    } else {
      var front, e := b[..|b| - 1], b[|b| - 1];
      assert b == front + [e];
      RunConcat(c, a, front);
      RunSnoc(c, a + front, e);
      RunSnoc(Run(c, a), front, e);
      Regroup(a, front, [e]);
    }
  }

  /** A working channel with sealing left sends one record, of the size the policy gives it. */
  lemma SendGrows(w: Writer, typ: u8, p: Packet, rnd: Random)
    requires w.up && w.tx.stream.counter < MAX_COUNTER && |p| <= MAX_PAYLOAD
    ensures var w' := WriteStep(w, typ, p, rnd).0;
            && w'.up && |w'.sent| == |w.sent| + 1
            && w'.sent[|w.sent|].Size() == RecordSize(w.tx.count, w.tx.pad, |p|, rnd.draw)
            && w'.tx == SealerState(Stream(w.tx.stream.key, w.tx.stream.counter + 1), w.tx.pad, w.tx.count + 1)
  {
    OpenOfSeal(w.tx, typ, p, rnd);
    SealedSize(w.tx, typ, p, rnd);
  }

  /** The writer of a channel after n keepalives. */
  ghost predicate Ready(c: Channel, key: Key, pad: PadPolicy, n: nat)
    requires n <= MAX_COUNTER
  {
    c.w.up && c.w.tx == SealerState(Stream(key, n), pad, n) && |c.w.sent| == n && c.taken == 0
  }

  lemma KeepaliveReady(c: Channel, key: Key, pad: PadPolicy, n: nat, rnd: Random)
    requires n < MAX_COUNTER && Ready(c, key, pad, n)
    ensures Ready(Step(c, Keepalive(rnd)), key, pad, n + 1)
  {
    SendGrows(c.w, TYPE_PAD, [], rnd);
  }

  lemma {:induction false} KeepalivesReady(key: Key, pad: PadPolicy, rnd: Random, n: nat)
    requires n <= MAX_COUNTER
    ensures Ready(Run(Fresh(key, pad), Keepalives(rnd, n)), key, pad, n)
  {
    if n > 0 {
      KeepalivesReady(key, pad, rnd, n - 1);
      KeepaliveReady(Run(Fresh(key, pad), Keepalives(rnd, n - 1)), key, pad, n - 1, rnd);
      RunSnoc(Fresh(key, pad), Keepalives(rnd, n - 1), Keepalive(rnd));
    }
  }

  /** Record k is over the reader's limit, and the reader has not come past it. */
  ghost predicate Blocked(c: Channel, k: nat) {
    k < |c.w.sent| && c.w.sent[k].Size() > READ_LIMIT && c.taken <= k
  }

  lemma ReceiveBlocked(c: Channel, k: nat)
    requires c.error.Some? || Blocked(c, k)
    ensures var c' := Step(c, Receive);
            c'.error.Some? || (Blocked(c', k) && c'.taken == c.taken + 1)
  {
  }

  lemma {:induction false} OversizeStopsReader(c: Channel, k: nat, n: nat)
    requires Blocked(c, k) && c.taken == 0
    ensures var c' := Run(c, Receives(n)); c'.error.Some? || (Blocked(c', k) && c'.taken == n)
  {
    if n > 0 {
      OversizeStopsReader(c, k, n - 1);
      ReceiveBlocked(Run(c, Receives(n - 1)), k);
      RunSnoc(c, Receives(n - 1), Receive);
    }
  }

  lemma WriteBlocks(c: Channel, key: Key, pad: PadPolicy, k: nat, p: Packet, rnd: Random)
    requires k < MAX_COUNTER && Ready(c, key, pad, k) && |p| <= MAX_PAYLOAD
    requires RecordSize(k, pad, |p|, rnd.draw) > READ_LIMIT
    ensures var c' := Step(c, Write(p, rnd)); Blocked(c', k) && c'.taken == 0
  {
    SendGrows(c.w, TYPE_DATA, p, rnd);
  }

  lemma KeepalivesThenBlock(key: Key, pad: PadPolicy, k: nat, p: Packet, rnd: Random)
    requires k < MAX_COUNTER && |p| <= MAX_PAYLOAD && RecordSize(k, pad, |p|, rnd.draw) > READ_LIMIT
    ensures var c' := Run(Fresh(key, pad), Keepalives(rnd, k) + [Write(p, rnd)]); Blocked(c', k) && c'.taken == 0
  {
    KeepalivesReady(key, pad, rnd, k);
    WriteBlocks(Run(Fresh(key, pad), Keepalives(rnd, k)), key, pad, k, p, rnd);
    RunSnoc(Fresh(key, pad), Keepalives(rnd, k), Write(p, rnd));
  }

  lemma BlockedRunFails(c: Channel, sending: seq<Event>, k: nat)
    requires Blocked(Run(c, sending), k) && Run(c, sending).taken == 0
    ensures Run(c, sending + Receives(k + 1)).error.Some?
  {
    OversizeStopsReader(Run(c, sending), k, k + 1);
    RunConcat(c, sending, Receives(k + 1));
  }

  /** Under a policy that does not fit, a run in which the reader fails. */
  lemma UnfitPolicyIsUnsafe(key: Key, pad: PadPolicy) returns (events: seq<Event>)
    requires !PolicyFits(pad) && pad.burstRecords < MAX_COUNTER
    ensures !Safe(Run(Fresh(key, pad), events))
  {
    var k, n, draw := UnfitPolicyOverflows(pad);
    var p: Packet, rnd := seq(n, _ => 0), Random(draw, _ => 0);
    KeepalivesThenBlock(key, pad, k, p, rnd);
    BlockedRunFails(Fresh(key, pad), Keepalives(rnd, k) + [Write(p, rnd)], k);
    events := Keepalives(rnd, k) + [Write(p, rnd)] + Receives(k + 1);
  }

  /** The padding policies under which the channel is safe in every run are exactly those that fit the receiver's
      read limit. */
  lemma SafetyExactly(key: Key, pad: PadPolicy)
    requires pad.burstRecords < MAX_COUNTER
    ensures PolicyFits(pad) <==> forall events :: Safe(Run(Fresh(key, pad), events))
  {
    if PolicyFits(pad) {
      forall events ensures Safe(Run(Fresh(key, pad), events)) {
        ChannelSafety(key, pad, events);
      }
    } else {
      var events := UnfitPolicyIsUnsafe(key, pad);
    }
  }

  ghost predicate Flight(rx: Stream, records: seq<Sealed>) {
    forall i :: 0 <= i < |records| ==> Due(records[i], rx.key, rx.counter + i)
  }

  lemma ReadNextTurn(rx: Stream, records: seq<Sealed>)
    requires records != [] && Due(records[0], rx.key, rx.counter)
    ensures var rx' := rx.(counter := rx.counter + 1);
            ReadNext(rx, records) ==
            if Carried(records[0]) == [] then ReadNext(rx', records[1..])
            else ReadResult(rx', records[1..], Ok(Carried(records[0])[0]))
  {
    ReceiveStepDue(rx, records[0]);
    ReadNextUnfolds(rx, records, rx.(counter := rx.counter + 1), Parse(records[0].plain).value);
  }

  /** Receiving what is due. */
  lemma ReceiveStepDue(rx: Stream, c: Sealed)
    requires Due(c, rx.key, rx.counter)
    ensures ReceiveStep(rx, c) == (rx.(counter := rx.counter + 1), Ok(Parse(c.plain).value))
  {
  }

  lemma ReadNextUnfolds(rx: Stream, inbox: seq<Sealed>, rx': Stream, record: (u8, seq<u8>))
    requires inbox != [] && ReceiveStep(rx, inbox[0]) == (rx', Ok(record))
    ensures ReadNext(rx, inbox)
         == if record.0 == TYPE_PAD then ReadNext(rx', inbox[1..]) else ReadResult(rx', inbox[1..], Ok(record.1))
  {
  }

  lemma FlightRest(rx: Stream, records: seq<Sealed>)
    requires records != [] && Flight(rx, records)
    ensures Due(records[0], rx.key, rx.counter)
    ensures Flight(rx.(counter := rx.counter + 1), records[1..])
  {
    assert Due(records[0], rx.key, rx.counter + 0);
    forall i | 0 <= i < |records| - 1 ensures Due(records[1..][i], rx.key, rx.counter + 1 + i) {
      assert Due(records[i + 1], rx.key, rx.counter + (i + 1));
    }
  }

  lemma DataOfFirst(records: seq<Sealed>)
    requires records != []
    ensures DataOf(records) == Carried(records[0]) + DataOf(records[1..])
  {
    GatherConcat(Carried, [records[0]], records[1..]);
    GatherSnoc(Carried, [], records[0]);
    assert [] + [records[0]] == [records[0]];
    assert [records[0]] + records[1..] == records;
  }

  /** The reader's loop, started on records in flight, returns the next data packet and leaves the ones after it. */
  lemma {:induction false} ReadReturnsNext(rx: Stream, records: seq<Sealed>)
    requires Flight(rx, records)
    ensures var out := ReadNext(rx, records);
            && Flight(out.rx, out.rest)
            && match out.result {
                 case Ok(p) => DataOf(records) == [p] + DataOf(out.rest)
                 case Err(e) => e == SocketDown && DataOf(records) == [] && out.rest == []
               }
    decreases |records|
  {
    if records != [] {
      DataOfFirst(records);
      FlightRest(rx, records);
      ReadNextTurn(rx, records);
      if Carried(records[0]) == [] {
        ReadReturnsNext(rx.(counter := rx.counter + 1), records[1..]);
        assert [] + DataOf(records[1..]) == DataOf(records[1..]);
      }
    }
  }

  /** ReadPacket on any reachable channel: the oldest unread packet, or a dead socket when none is in flight. */
  lemma ReadPacketReturnsNext(c: Channel)
    requires Inv(c)
    ensures var out := ReadNext(c.rx, c.w.sent[c.taken..]);
            match out.result
            case Ok(p) => c.read + [p] <= c.written
            case Err(e) => e == SocketDown && c.read == c.written
  {
    var records := c.w.sent[c.taken..];
    InvIsSafe(c);
    InFlight(c);
    ReadReturnsNext(c.rx, records);
    NextOf(c.read, c.written, records, ReadNext(c.rx, records));
  }

  lemma NextOf(read: seq<Packet>, written: seq<Packet>, records: seq<Sealed>, out: ReadResult)
    requires written == read + DataOf(records)
    requires match out.result {
               case Ok(p) => DataOf(records) == [p] + DataOf(out.rest)
               case Err(e) => e == SocketDown && DataOf(records) == []
             }
    ensures match out.result
            case Ok(p) => read + [p] <= written
            case Err(e) => e == SocketDown && read == written
  {
    if out.result.Ok? {
      assert written == read + [out.result.value] + DataOf(out.rest);
    }
  }

  /** What the reader has yet to take opens for it. */
  lemma InFlight(c: Channel)
    requires Inv(c)
    ensures Flight(c.rx, c.w.sent[c.taken..])
  {
    var records := c.w.sent[c.taken..];
    forall i | 0 <= i < |records| ensures Due(records[i], c.rx.key, c.rx.counter + i) {
      assert Due(c.w.sent[c.taken + i], c.rx.key, c.taken + i);
    }
  }

  /** Why the lock covers both halves: if two writers seal in one order and send in the other, the receiver
      refuses the first record it sees. */
  lemma SendingOutOfSealOrderFails(c: Channel, p: Packet, q: Packet, rnd: Random)
    requires Inv(c) && c.w.up && c.taken == |c.w.sent|
    requires |p| <= MAX_PAYLOAD && |q| <= MAX_PAYLOAD && c.w.tx.stream.counter + 2 <= MAX_COUNTER
    ensures var (tx1, first) := SealRecord(c.w.tx, TYPE_DATA, p, rnd);
            var (tx2, second) := SealRecord(tx1, TYPE_DATA, q, rnd);
            && first.Ok? && second.Ok?
            && var c' := Step(c.(w := c.w.(tx := tx2, sent := c.w.sent + [second.value, first.value])), Receive);
            c'.error.Some? && c'.read == c.read
  {
    var (tx1, first) := SealRecord(c.w.tx, TYPE_DATA, p, rnd);
    var (tx2, second) := SealRecord(tx1, TYPE_DATA, q, rnd);
    if NonceAt(c.taken) == NonceAt(c.taken + 1) {
      NonceInjective(c.taken, c.taken + 1);
    }
    assert (c.w.sent + [second.value, first.value])[c.taken] == second.value;
  }

  // ------------------------------------------------------------------ sealing and sending as two steps

  /** The writers of a channel if the lock did not cover both halves: what has been sealed, and which of it was
      sent, in order. */
  datatype Split = Split(tx: SealerState, sealed: seq<Sealed>, sends: seq<nat>)

  datatype SplitEvent = SealOne(typ: u8, payload: Packet, rnd: Random) | SendOne(k: nat)

  function SplitStep(s: Split, e: SplitEvent): Split {
    match e
    case SealOne(typ, payload, rnd) =>
      var (tx', r) := SealRecord(s.tx, typ, payload, rnd);
      s.(tx := tx', sealed := if r.Ok? then s.sealed + [r.value] else s.sealed)
    case SendOne(k) =>
      if k < |s.sealed| then s.(sends := s.sends + [k]) else s
  }

  function SplitRun(s: Split, events: seq<SplitEvent>): Split
    decreases |events|
  {
    if events == [] then s else SplitStep(SplitRun(s, events[..|events| - 1]), events[|events| - 1])
  }

  predicate SendsAreSealed(s: Split) {
    forall i :: 0 <= i < |s.sends| ==> s.sends[i] < |s.sealed|
  }

  ghost predicate SplitOk(s: Split, key: Key) {
    && PolicyFits(s.tx.pad) && s.tx.stream.key == key && s.tx.stream.counter == |s.sealed|
    && InOrder(key, s.sealed)
    && SendsAreSealed(s)
  }

  lemma SplitStepOk(s: Split, key: Key, e: SplitEvent)
    requires SplitOk(s, key)
    ensures SplitOk(SplitStep(s, e), key)
  {
    if e.SealOne? && SealRecord(s.tx, e.typ, e.payload, e.rnd).1.Ok? {
      SealedIsDue(s.tx, e.typ, e.payload, e.rnd);
      SealedOk(s, key, SplitStep(s, e), SealRecord(s.tx, e.typ, e.payload, e.rnd).1.value);
    }
  }

  lemma SealedIsDue(tx: SealerState, typ: u8, payload: Packet, rnd: Random)
    requires PolicyFits(tx.pad) && SealRecord(tx, typ, payload, rnd).1.Ok?
    ensures var (tx', r) := SealRecord(tx, typ, payload, rnd);
            && Due(r.value, tx.stream.key, tx.stream.counter) && tx'.pad == tx.pad
            && tx'.stream == Stream(tx.stream.key, tx.stream.counter + 1)
  {
    PolicyFitsExactly(tx.pad);
    SealedSize(tx, typ, payload, rnd);
    OpenOfSeal(tx, typ, payload, rnd);
  }

  lemma SealedOk(s: Split, key: Key, s': Split, record: Sealed)
    requires SplitOk(s, key) && Due(record, key, |s.sealed|)
    requires s'.sealed == s.sealed + [record] && s'.sends == s.sends && s'.tx.pad == s.tx.pad
    requires s'.tx.stream.key == key && s'.tx.stream.counter == |s.sealed| + 1
    ensures SplitOk(s', key)
  {
    InOrderSnoc(key, s.sealed, record);
  }

  lemma {:induction false} SplitRunOk(key: Key, pad: PadPolicy, events: seq<SplitEvent>)
    requires PolicyFits(pad)
    ensures SplitOk(SplitRun(Split(SealerState(Stream(key, 0), pad, 0), [], []), events), key)
    decreases |events|
  {
    if events != [] {
      var n := |events| - 1;
      SplitRunOk(key, pad, events[..n]);
      SplitStepOk(SplitRun(Split(SealerState(Stream(key, 0), pad, 0), [], []), events[..n]), key, events[n]);
    }
  }

  /** The sends follow the order of sealing and leave nothing out. */
  ghost predicate FollowSealOrder(sends: seq<nat>, n: nat) {
    forall i :: 0 <= i < n && i < |sends| ==> sends[i] == i
  }

  /** What was sent. */
  function Wire(s: Split): seq<Sealed>
    requires SendsAreSealed(s)
  {
    seq(|s.sends|, i requires 0 <= i < |s.sends| => s.sealed[s.sends[i]])
  }

  /** A receiver with all of it before it. */
  function Facing(s: Split, key: Key): Channel
    requires SendsAreSealed(s)
  {
    Channel(Writer(s.tx, true, Wire(s)), 0, Stream(key, 0), [], [], None)
  }

  /** The receiver has opened the first n messages. */
  ghost predicate Opened(c: Channel, key: Key, n: nat) {
    c.error == None && c.taken == n <= MAX_COUNTER && c.rx == Stream(key, n)
  }

  /** It opens the next one exactly if that was sealed next. */
  lemma OpensNextExactly(c: Channel, key: Key, k: nat)
    requires Opened(c, key, c.taken) && c.taken < |c.w.sent| && Due(c.w.sent[c.taken], key, k)
    ensures var c' := Step(c, Receive);
            c'.w == c.w && if k == c.taken then Opened(c', key, c.taken + 1) else c'.error.Some?
  {
    if k != c.taken && c.taken < MAX_COUNTER && NonceAt(k) == NonceAt(c.taken) {
      NonceInjective(k, c.taken);
    }
  }

  /** After n turns of the receiver. */
  ghost predicate OpenedWhileInOrder(c: Channel, s: Split, key: Key, n: nat)
    requires SendsAreSealed(s)
  {
    && c.w.sent == Wire(s)
    && if FollowSealOrder(s.sends, n) then Opened(c, key, n) else c.error.Some?
  }

  lemma OpensInOrderStep(c: Channel, s: Split, key: Key, n: nat)
    requires SplitOk(s, key) && n < |s.sends| && OpenedWhileInOrder(c, s, key, n)
    ensures OpenedWhileInOrder(Step(c, Receive), s, key, n + 1)
  {
    if FollowSealOrder(s.sends, n) {
      assert Due(s.sealed[s.sends[n]], key, s.sends[n]);
      OpensNextExactly(c, key, s.sends[n]);
    }
  }

  lemma {:induction false} OpensWhileInOrder(s: Split, key: Key, n: nat)
    requires SplitOk(s, key) && n <= |s.sends|
    ensures OpenedWhileInOrder(Run(Facing(s, key), Receives(n)), s, key, n)
  {
    if n > 0 {
      OpensWhileInOrder(s, key, n - 1);
      OpensInOrderStep(Run(Facing(s, key), Receives(n - 1)), s, key, n - 1);
      RunSnoc(Facing(s, key), Receives(n - 1), Receive);
    }
  }

  /** What the lock is for: with sealing and sending as separate steps, in any number and interleaving, the receiver
      opens everything sent exactly if the sends follow the order of sealing. */
  lemma SendOrderDecides(key: Key, pad: PadPolicy, events: seq<SplitEvent>)
    requires PolicyFits(pad)
    ensures var s := SplitRun(Split(SealerState(Stream(key, 0), pad, 0), [], []), events);
            && SendsAreSealed(s)
            && (Run(Facing(s, key), Receives(|s.sends|)).error == None <==> forall i :: 0 <= i < |s.sends| ==> s.sends[i] == i)
  {
    SplitRunOk(key, pad, events);
    var s := SplitRun(Split(SealerState(Stream(key, 0), pad, 0), [], []), events);
    OpensWhileInOrder(s, key, |s.sends|);
  }
}
