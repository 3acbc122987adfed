/** The record layer (internal/frame/frame.go): type, length, payload, random padding, sealed. */
module Frame {
  import opened Aead
  import opened Bytes
  import opened Wrappers

  const TYPE_DATA: u8 := 1
  const TYPE_PAD: u8 := 2
  const HEADER_LEN := 3
  const MAX_PAYLOAD := 9000
  /** The largest transport message a receiver accepts (internal/transport/conn.go). */
  const READ_LIMIT := MAX_PAYLOAD + 2048

  datatype FrameError = Short | Length | TooBig | Cipher(error: CipherError)

  datatype PadPolicy = PadPolicy(burstRecords: int, burstMin: int, burstMax: int, steadyMax: int)

  const DEFAULT_PAD := PadPolicy(12, 900, 1380, 128)

  /** One draw of the random generators: a number for the padding length, bytes for its content. */
  datatype Random = Random(draw: nat, noise: nat -> u8)

  datatype SealerState = SealerState(stream: Stream, pad: PadPolicy, count: nat)

  /** The random target of a burst record: burstMin plus a draw below the span. */
  function BurstTarget(pad: PadPolicy, draw: nat): int {
    if pad.burstMax > pad.burstMin then pad.burstMin + draw % (pad.burstMax - pad.burstMin) else pad.burstMin
  }

  function PadFor(count: nat, pad: PadPolicy, payloadLen: nat, draw: nat): nat {
    if count < pad.burstRecords then
      var used := HEADER_LEN + payloadLen;
      var target := BurstTarget(pad, draw);
      if target > used then target - used else 0
    else if pad.steadyMax > 0 then draw % pad.steadyMax
    else 0
  }

  function Noise(rnd: Random, n: nat): seq<u8> {
    seq<u8>(n, i requires 0 <= i < n => rnd.noise(i))
  }

  /** The plaintext of a record. */
  function Layout(typ: u8, payload: seq<u8>, padding: seq<u8>): seq<u8> {
    [typ] + Put16(|payload|) + payload + padding
  }

  function Parse(plain: seq<u8>): Result<(u8, seq<u8>), FrameError> {
    if |plain| < HEADER_LEN then Err(Short)
    else
      var n := Get16(plain[1], plain[2]);
      if n > |plain| - HEADER_LEN then Err(Length)
      else Ok((plain[0], plain[HEADER_LEN..HEADER_LEN + n]))
  }

  function SealRecord(s: SealerState, typ: u8, payload: seq<u8>, rnd: Random)
    : (SealerState, Result<Sealed, FrameError>)
  {
    if |payload| > MAX_PAYLOAD then (s, Err(TooBig))
    else
      var padding := Noise(rnd, PadFor(s.count, s.pad, |payload|, rnd.draw));
      var (stream', r) := SealStep(s.stream, Layout(typ, payload, padding));
      (s.(stream := stream', count := s.count + 1),
       match r case Ok(c) => Ok(c) case Err(e) => Err(Cipher(e)))
  }

  function OpenRecord(rx: Stream, c: Sealed): (Stream, Result<(u8, seq<u8>), FrameError>) {
    var (rx', r) := OpenStep(rx, c);
    (rx', match r case Ok(plain) => Parse(plain) case Err(e) => Err(Cipher(e)))
  }

  class Sealer {
    const aead: AeadStream
    const pad: PadPolicy
    var count: nat

    ghost function State(): SealerState
      reads this, aead
    {
      SealerState(aead.State(), pad, count)
    }

    constructor (key: Key, pad: PadPolicy)
      ensures fresh(aead)
      ensures State() == SealerState(Stream(key, 0), pad, 0)
    {
      aead := new AeadStream(key);
      this.pad := pad;
      count := 0;
    }

    /** Fills in a fresh plaintext buffer. */
    static method Build(typ: u8, payload: seq<u8>, rnd: Random, n: nat) returns (plain: array<u8>)
      ensures fresh(plain) && plain[..] == Layout(typ, payload, Noise(rnd, n))
    {
      plain := new u8[HEADER_LEN + |payload| + n](_ => 0);
      plain[0] := typ;
      var plen := Put16(|payload|);
      plain[1], plain[2] := plen[0], plen[1];
      forall i | 0 <= i < |payload| {
        plain[HEADER_LEN + i] := payload[i];
      }
      if n > 0 {
        forall i | 0 <= i < n {
          plain[HEADER_LEN + |payload| + i] := rnd.noise(i);
        }
      }
      assert plain[..] == Layout(typ, payload, Noise(rnd, n));
    }

    method Seal(typ: u8, payload: seq<u8>, rnd: Random) returns (r: Result<Sealed, FrameError>)
      modifies this, aead
      ensures State() == SealRecord(old(State()), typ, payload, rnd).0
      ensures r == SealRecord(old(State()), typ, payload, rnd).1
    {
      if |payload| > MAX_PAYLOAD {
        return Err(TooBig);
      }
      var n := PadFor(count, pad, |payload|, rnd.draw);
      var plain := Build(typ, payload, rnd, n);
      count := count + 1;
      var c := aead.Seal(plain[..]);
      r := match c case Ok(ct) => Ok(ct) case Err(e) => Err(Cipher(e));
    }
  }

  class Opener {
    const aead: AeadStream

    ghost function State(): Stream
      reads this, aead
    {
      aead.State()
    }

    constructor (key: Key)
      ensures fresh(aead)
      ensures State() == Stream(key, 0)
    {
      aead := new AeadStream(key);
    }

    method Open(c: Sealed) returns (r: Result<(u8, seq<u8>), FrameError>)
      modifies this, aead
      ensures State() == OpenRecord(old(State()), c).0
      ensures r == OpenRecord(old(State()), c).1
    {
      var p := aead.Open(c);
      match p
      case Err(e) =>
        r := Err(Cipher(e));
      case Ok(plain) =>
        if |plain| < HEADER_LEN {
          return Err(Short);
        }
        var n := Get16(plain[1], plain[2]);
        if n > |plain| - HEADER_LEN {
          return Err(Length);
        }
        r := Ok((plain[0], plain[HEADER_LEN..HEADER_LEN + n]));
    }
  }

  // ------------------------------------------------------------------ round trip

  /** Parsing inverts the layout, whatever padding follows the payload. */
  lemma ParseOfLayout(typ: u8, payload: seq<u8>, padding: seq<u8>)
    requires |payload| < 0x1_0000
    ensures Parse(Layout(typ, payload, padding)) == Ok((typ, payload))
  {
    var plain := Layout(typ, payload, padding);
    assert plain[1] == |payload| / 256 && plain[2] == |payload| % 256;
    assert plain[HEADER_LEN..HEADER_LEN + |payload|] == payload;
  }

  /** And nothing else parses: an accepted plaintext is a layout of what was read from it. */
  lemma LayoutOfParse(plain: seq<u8>)
    requires Parse(plain).Ok?
    ensures var (typ, payload) := Parse(plain).value;
            plain == Layout(typ, payload, plain[HEADER_LEN + |payload|..])
  {
    assert Put16(Get16(plain[1], plain[2])) == [plain[1], plain[2]];
    CutAt(plain, Get16(plain[1], plain[2]));
  }

  lemma CutAt(plain: seq<u8>, n: nat)
    requires 3 + n <= |plain|
    ensures plain == [plain[0]] + [plain[1], plain[2]] + plain[3..3 + n] + plain[3 + n..]
  {
  }

  /** Where the parts of a plaintext lie: type, length, payload, and the padding to the end. */
  lemma LayoutFields(typ: u8, payload: seq<u8>, padding: seq<u8>)
    requires |payload| <= 9000
    ensures var plain := Layout(typ, payload, padding);
            && |plain| == 3 + |payload| + |padding|
            && plain[0] == typ && Get16(plain[1], plain[2]) == |payload|
            && plain[3..3 + |payload|] == payload && plain[3 + |payload|..] == padding
  {
    ParseOfLayout(typ, payload, padding);
  }

  /** Every payload of proper size is counted, whether or not the cipher then fails; a larger one changes nothing. */
  lemma CountsEveryRecord(s: SealerState, typ: u8, payload: seq<u8>, rnd: Random)
    ensures var (s', r) := SealRecord(s, typ, payload, rnd);
            if |payload| <= 9000 then s'.count == s.count + 1 && (r.Ok? <==> s.stream.counter < 0xFFFF_FFFF_FFFF_FFFF)
            else s' == s && r == Err(TooBig)
  {
  }

  /** A record sealed and opened at equal counters yields what went in, and the counters stay equal. */
  lemma OpenOfSeal(s: SealerState, typ: u8, payload: seq<u8>, rnd: Random)
    requires |payload| <= 9000 && s.stream.counter < MAX_COUNTER
    ensures var (s', c) := SealRecord(s, typ, payload, rnd);
            c.Ok? && OpenRecord(s.stream, c.value) == (s'.stream, Ok((typ, payload)))
  {
    ParseOfLayout(typ, payload, Noise(rnd, PadFor(s.count, s.pad, |payload|, rnd.draw)));
  }

  // ------------------------------------------------------------------ sizes

  /** Bytes of the sealed record on the wire. */
  function RecordSize(count: nat, pad: PadPolicy, payloadLen: nat, draw: nat): nat {
    HEADER_LEN + payloadLen + PadFor(count, pad, payloadLen, draw) + TAG_SIZE
  }

  lemma SealedSize(s: SealerState, typ: u8, payload: seq<u8>, rnd: Random)
    requires SealRecord(s, typ, payload, rnd).1.Ok?
    ensures SealRecord(s, typ, payload, rnd).1.value.Size() == RecordSize(s.count, s.pad, |payload|, rnd.draw)
  {
  }

  /** What a policy must satisfy for the receiver's read limit to admit every record it can produce. */
  predicate PolicyFits(pad: PadPolicy) {
    && (pad.burstRecords > 0 ==>
          (if pad.burstMax > pad.burstMin then pad.burstMax - 1 else pad.burstMin) + TAG_SIZE <= READ_LIMIT)
    && HEADER_LEN + MAX_PAYLOAD + TAG_SIZE + pad.steadyMax - 1 <= READ_LIMIT
  }

  lemma PolicyFitsExactly(pad: PadPolicy)
    ensures PolicyFits(pad) <==>
            forall count: nat, n: nat, draw: nat :: n <= MAX_PAYLOAD ==> RecordSize(count, pad, n, draw) <= READ_LIMIT
  {
    if PolicyFits(pad) {
      forall count: nat, n: nat, draw: nat | n <= MAX_PAYLOAD
        ensures RecordSize(count, pad, n, draw) <= READ_LIMIT
      {
        FittingPolicyBounds(pad, count, n, draw);
      }
    } else {
      var count, n, draw := UnfitPolicyOverflows(pad);
      assert RecordSize(count, pad, n, draw) > READ_LIMIT;
    }
  }

  lemma FittingPolicyBounds(pad: PadPolicy, count: nat, n: nat, draw: nat)
    requires PolicyFits(pad) && n <= MAX_PAYLOAD
    ensures RecordSize(count, pad, n, draw) <= READ_LIMIT
  {
    if pad.burstMax > pad.burstMin {
      ModBounds(draw, pad.burstMax - pad.burstMin);
    }
    if pad.steadyMax > 0 {
      ModBounds(draw, pad.steadyMax);
    }
  }

  lemma ModBounds(draw: nat, n: int)
    requires n > 0
    ensures 0 <= draw % n < n
    ensures draw < n ==> draw % n == draw
  {
  }

  /** A record too large for the receiver, under a policy that does not fit. */
  lemma UnfitPolicyOverflows(pad: PadPolicy) returns (count: nat, n: nat, draw: nat)
    requires !PolicyFits(pad)
    ensures n <= MAX_PAYLOAD && RecordSize(count, pad, n, draw) > READ_LIMIT
    ensures count == 0 || count == pad.burstRecords
  {
    if HEADER_LEN + MAX_PAYLOAD + TAG_SIZE + pad.steadyMax - 1 > READ_LIMIT {
      count, n, draw := if pad.burstRecords > 0 then pad.burstRecords else 0, MAX_PAYLOAD, pad.steadyMax - 1;
      ModBounds(draw, pad.steadyMax);
    } else if pad.burstMax > pad.burstMin {
      count, n, draw := 0, 0, pad.burstMax - pad.burstMin - 1;
      ModBounds(draw, pad.burstMax - pad.burstMin);
    } else {
      count, n, draw := 0, 0, 0;
    }
  }

  /** The default policy: every record fits, opening plaintexts look like full packets, later padding is small. */
  lemma DefaultPadBounds(count: nat, n: nat, draw: nat)
    requires n <= MAX_PAYLOAD
    ensures RecordSize(count, DEFAULT_PAD, n, draw) <= READ_LIMIT == 11048
    ensures count < 12 ==> RecordSize(count, DEFAULT_PAD, n, draw) - TAG_SIZE >= 900
    ensures count < 12 && n < 897 ==> RecordSize(count, DEFAULT_PAD, n, draw) - TAG_SIZE < 1380
    ensures count >= 12 ==> PadFor(count, DEFAULT_PAD, n, draw) < 128
  {
    PolicyFitsExactly(DEFAULT_PAD);
  }
}
