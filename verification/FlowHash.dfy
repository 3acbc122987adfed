/** FNV-1a flow hashing of IPv4 packets (internal/transport/tunnel.go). */
module Flow {
  import opened Bytes
  import opened Modular
  import opened Wrappers

  const FNV_OFFSET: u32 := 2166136261
  const FNV_PRIME: u32 := 16777619
  /** FNV_PRIME * FNV_INVERSE == 1 modulo 2^32. */
  const FNV_INVERSE: u32 := 899433627

  /** Bitwise exclusive or of two numbers. */
  function Xor(a: nat, b: nat): nat
    decreases a + b
  {
    if a == 0 && b == 0 then 0 else 2 * Xor(a / 2, b / 2) + (a % 2 + b % 2) % 2
  }

  /** One round of the hash: h ^= b; h *= prime, in 32 bits. */
  function Mix(h: u32, b: u8): u32 {
    (Xor(h, b) * FNV_PRIME) % 0x1_0000_0000
  }

  function Fold(h: u32, s: seq<u8>): u32
    decreases |s|
  {
    if s == [] then h else Mix(Fold(h, s[..|s| - 1]), s[|s| - 1])
  }

  function Fnv(s: seq<u8>): u32 {
    Fold(FNV_OFFSET, s)
  }

  /** The bytes that identify a packet's flow; None for what is not a complete IPv4 header (RFC 791, section 3.1). */
  function FlowKey(p: Packet): Option<seq<u8>> {
    if |p| < 20 || p[0] / 16 != 4 then None
    else
      var ihl := p[0] % 16 * 4;
      if ihl < 20 || |p| < ihl then None
      else Some(p[12..20] + [p[9]] + (if HasPorts(p, ihl) then p[ihl..ihl + 4] else []))
  }

  predicate HasPorts(p: Packet, ihl: nat)
    requires |p| >= 20
  {
    p[6] % 32 == 0 && p[7] == 0 && (p[9] == 6 || p[9] == 17 || p[9] == 132) && |p| >= ihl + 4
  }

  /** The hash a flow gets; packets without a flow share 0. */
  function HashOf(key: Option<seq<u8>>): u32 {
    match key
    case None => 0
    case Some(s) => Fnv(s)
  }

  method FlowHash(p: Packet) returns (h: u32)
    ensures h == HashOf(FlowKey(p))
  {
    h := FNV_OFFSET;
    if |p| < 20 || p[0] / 16 != 4 {
      return 0;
    }
    var ihl := p[0] % 16 * 4;
    if ihl < 20 || |p| < ihl {
      return 0;
    }
    var proto := p[9];
    for i := 12 to 20
      invariant h == Fnv(p[12..i])
    {
      h := MixIn(h, p[i], p[12..i]);
      assert p[12..i] + [p[i]] == p[12..i + 1];
    }
    ghost var id := p[12..20];
    h := MixIn(h, proto, id);
    id := id + [proto];
    var fragOffset := p[6] % 32 * 256 + p[7] as int;
    if fragOffset == 0 && (proto == 6 || proto == 17 || proto == 132) && |p| >= ihl + 4 {
      h := MixIn(h, p[ihl], id);
      h := MixIn(h, p[ihl + 1], id + [p[ihl]]);
      h := MixIn(h, p[ihl + 2], id + [p[ihl]] + [p[ihl + 1]]);
      h := MixIn(h, p[ihl + 3], id + [p[ihl]] + [p[ihl + 1]] + [p[ihl + 2]]);
      assert id + p[ihl..ihl + 4] == id + [p[ihl]] + [p[ihl + 1]] + [p[ihl + 2]] + [p[ihl + 3]];
    } else {
      assert id + [] == id;
    }
  }

  /** The closure `mix`: extends the hash of the bytes s folded in so far by one more byte. */
  method MixIn(h: u32, b: u8, ghost s: seq<u8>) returns (r: u32)
    requires h == Fnv(s)
    ensures r == Fnv(s + [b])
  {
    assert (s + [b])[..|s|] == s;
    r := Mix(h, b);
  }

  // ------------------------------------------------------------------ what the hash may depend on

  /** Same addresses, protocol, header length and fragment offset, and the same four bytes after the header. */
  ghost predicate SameFlowFields(p: Packet, q: Packet) {
    && |p| >= 20 && |q| >= 20
    && p[0] == q[0] && p[6] % 32 == q[6] % 32 && p[7] == q[7]
    && p[9] == q[9] && p[12..20] == q[12..20]
    && var ihl := p[0] % 16 * 4;
    && (|p| >= ihl <==> |q| >= ihl)
    && (|p| >= ihl + 4 <==> |q| >= ihl + 4)
    && (|p| >= ihl + 4 ==> p[ihl..ihl + 4] == q[ihl..ihl + 4])
  }

  /** Changing any other byte of a packet - TTL, id, options, flags, payload - leaves its flow alone. */
  lemma FlowKeyIgnoresTheRest(p: Packet, q: Packet)
    requires SameFlowFields(p, q)
    ensures FlowKey(p) == FlowKey(q)
  {
  }

  /** An IPv4 header that is there in full. */
  predicate Complete(p: Packet) {
    |p| >= 20 && p[0] / 16 == 4 && p[0] % 16 >= 5 && |p| >= p[0] % 16 * 4
  }

  /** A complete first piece of a TCP, UDP or SCTP packet, with its ports. */
  predicate Whole(p: Packet) {
    && |p| >= 20 && p[0] / 16 == 4 && p[0] % 16 >= 5
    && p[6] % 32 == 0 && p[7] == 0 && p[9] in {6, 17, 132} && |p| >= p[0] % 16 * 4 + 4
  }

  /** Source and destination port. */
  function Ports(p: Packet): seq<u8>
    requires Whole(p)
  {
    p[p[0] % 16 * 4..p[0] % 16 * 4 + 4]
  }

  lemma KeyOfComplete(p: Packet)
    ensures FlowKey(p).Some? <==> Complete(p)
    ensures Complete(p) ==> FlowKey(p).value == p[12..20] + [p[9]] + if Whole(p) then Ports(p) else []
  {
  }

  /** For whole packets the flow is the 5-tuple, no more and no less: header lengths may even differ. */
  lemma WholeFlowIsFiveTuple(p: Packet, q: Packet)
    requires Whole(p) && Whole(q)
    ensures FlowKey(p) == FlowKey(q) <==> p[12..20] == q[12..20] && p[9] == q[9] && Ports(p) == Ports(q)
  {
    KeyOfComplete(p);
    KeyOfComplete(q);
    var pk, qk := FlowKey(p).value, FlowKey(q).value;
    assert pk[..8] == p[12..20] && pk[8] == p[9] && pk[9..] == Ports(p);
    assert qk[..8] == q[12..20] && qk[8] == q[9] && qk[9..] == Ports(q);
  }

  /** Other complete packets, such as later fragments and ICMP, share a flow exactly by addresses and protocol. */
  lemma OtherFlowIsAddresses(p: Packet, q: Packet)
    requires Complete(p) && !Whole(p) && Complete(q) && !Whole(q)
    ensures FlowKey(p) == FlowKey(q) <==> p[12..20] == q[12..20] && p[9] == q[9]
  {
    KeyOfComplete(p);
    KeyOfComplete(q);
    var pk, qk := FlowKey(p).value, FlowKey(q).value;
    assert pk[..8] == p[12..20] && pk[8] == p[9] && |pk| == 9;
    assert qk[..8] == q[12..20] && qk[8] == q[9] && |qk| == 9;
  }

  /** When any two byte strings share a flow: all that are no complete IPv4 packet share one; complete ones share it by
      addresses and protocol, and by ports if both carry them, while one that does and one that does not never do. */
  lemma SharedFlowExactly(p: Packet, q: Packet)
    ensures FlowKey(p) == FlowKey(q) <==>
            && (Complete(p) <==> Complete(q))
            && (Complete(p) && Complete(q) ==>
                  && p[12..20] == q[12..20] && p[9] == q[9] && (Whole(p) <==> Whole(q))
                  && (Whole(p) && Whole(q) ==> Ports(p) == Ports(q)))
  {
    KeyOfComplete(p);
    KeyOfComplete(q);
    if Complete(p) && Complete(q) {
      if Whole(p) && Whole(q) {
        WholeFlowIsFiveTuple(p, q);
      } else if !Whole(p) && !Whole(q) {
        OtherFlowIsAddresses(p, q);
      } else {
        assert |FlowKey(p).value| != |FlowKey(q).value|;
      }
    }
  }

  // ------------------------------------------------------------------ spread over channels

  /** Congruence modulo 2^(k+1) is equal parity and congruent halves. */
  lemma HalfCong(a: nat, b: nat, k: nat)
    ensures Pow(2, k) > 0 && Pow(2, k + 1) > 0
    ensures Cong(a, b, Pow(2, k + 1)) <==> a % 2 == b % 2 && Cong(a / 2, b / 2, Pow(2, k))
  {
    HalfModulus(a, k);
    HalfModulus(b, k);
  }

  lemma HalfModulus(a: nat, k: nat)
    ensures Pow(2, k) > 0 && Pow(2, k + 1) > 0
    ensures a % Pow(2, k + 1) == 2 * (a / 2 % Pow(2, k)) + a % 2
  {
    PowPositive(2, k);
    var m := Pow(2, k);
    var q, r := a / 2 / m, a / 2 % m;
    assert a == (2 * m) * q + (2 * r + a % 2) by {
      assert a / 2 == m * q + r;
      assert (2 * m) * q == 2 * (m * q);
    }
    ModUnique(a, 2 * m, q, 2 * r + a % 2);
  }

  lemma XorHalves(a: nat, b: nat)
    ensures Xor(a, b) / 2 == Xor(a / 2, b / 2)
    ensures Xor(a, b) % 2 == (a % 2 + b % 2) % 2
  {
  }

  /** Binary digit i of a. */
  function Bit(a: nat, i: nat): nat {
    if i == 0 then a % 2 else Bit(a / 2, i - 1)
  }

  /** Digit by digit, the exclusive or. */
  lemma {:induction false} XorIsBitwise(a: nat, b: nat, i: nat)
    ensures Bit(Xor(a, b), i) == if Bit(a, i) == Bit(b, i) then 0 else 1
  {
    XorHalves(a, b);
    if i > 0 {
      XorIsBitwise(a / 2, b / 2, i - 1);
    }
  }

  /** Equal low k bits, bit by bit. */
  ghost predicate SameLow(a: nat, b: nat, k: nat) {
    k == 0 || (a % 2 == b % 2 && SameLow(a / 2, b / 2, k - 1))
  }

  lemma {:induction false} SameLowIsCong(a: nat, b: nat, k: nat)
    ensures Pow(2, k) > 0
    ensures SameLow(a, b, k) <==> Cong(a, b, Pow(2, k))
  {
    PowPositive(2, k);
    if k > 0 {
      HalfCong(a, b, k - 1);
      SameLowIsCong(a / 2, b / 2, k - 1);
    }
  }

  lemma Parities(a: nat, b: nat, x: nat, c: nat, d: nat, y: nat)
    requires a % 2 == c % 2 && x % 2 == (a % 2 + b % 2) % 2 && y % 2 == (c % 2 + d % 2) % 2
    ensures x % 2 == y % 2 <==> b % 2 == d % 2
  {
  }

  /** Exclusive or with values of equal low bits preserves and reflects equality of low bits. */
  lemma {:induction false} XorLow(a: nat, b: nat, c: nat, d: nat, k: nat)
    requires SameLow(a, c, k)
    ensures SameLow(Xor(a, b), Xor(c, d), k) <==> SameLow(b, d, k)
  {
    if k > 0 {
      var x, y := Xor(a, b), Xor(c, d);
      XorHalves(a, b);
      XorHalves(c, d);
      XorLow(a / 2, b / 2, c / 2, d / 2, k - 1);
      Parities(a, b, x, c, d, y);
    }
  }

  lemma XorCongruence(a: nat, b: nat, c: nat, d: nat, k: nat)
    requires Pow(2, k) > 0 && Cong(a, c, Pow(2, k))
    ensures Cong(Xor(a, b), Xor(c, d), Pow(2, k)) <==> Cong(b, d, Pow(2, k))
  {
    SameLowIsCong(a, c, k);
    SameLowIsCong(b, d, k);
    SameLowIsCong(Xor(a, b), Xor(c, d), k);
    XorLow(a, b, c, d, k);
  }

  lemma {:induction false} XorSymmetric(a: nat, b: nat)
    ensures Xor(a, b) == Xor(b, a)
    decreases a + b
  {
    if a > 0 || b > 0 {
      XorSymmetric(a / 2, b / 2);
    }
  }

  /** The prime is odd: multiplying by it is a permutation of the residues modulo 2^k. */
  lemma PrimeCancels(x: nat, y: nat, k: nat)
    requires k <= 32
    ensures Pow(2, k) > 0
    ensures Cong(x * FNV_PRIME, y * FNV_PRIME, Pow(2, k)) <==> Cong(x, y, Pow(2, k))
  {
    PowPositive(2, k);
    var m := Pow(2, k);
    if Cong(x, y, m) {
      CongMul(x, y, FNV_PRIME, m);
    }
    if Cong(x * FNV_PRIME, y * FNV_PRIME, m) {
      CongMul(x * FNV_PRIME, y * FNV_PRIME, FNV_INVERSE, m);
      InverseRestores(x, k);
      InverseRestores(y, k);
    }
  }

  lemma InverseRestores(x: nat, k: nat)
    requires k <= 32
    ensures Pow(2, k) > 0 && Cong(x * FNV_PRIME * FNV_INVERSE, x, Pow(2, k))
  {
    assert FNV_PRIME * FNV_INVERSE == 1 + 0x1_0000_0000 * 3513497;
    assert x * FNV_PRIME * FNV_INVERSE == x + 0x1_0000_0000 * (x * 3513497);
    ModShift(x, x * 3513497, 0x1_0000_0000);
    Mod32(x * FNV_PRIME * FNV_INVERSE, k);
    Mod32(x, k);
  }

  /** Each mixing round is a permutation of the state, and of the byte, modulo every power of two up to 2^32. */
  lemma MixPermutes(g: u32, h: u32, a: u8, b: u8, k: nat)
    requires k <= 32
    ensures Pow(2, k) > 0
    ensures Cong(a, b, Pow(2, k)) ==> (Cong(Mix(g, a), Mix(h, b), Pow(2, k)) <==> Cong(g, h, Pow(2, k)))
    ensures Cong(g, h, Pow(2, k)) ==> (Cong(Mix(g, a), Mix(h, b), Pow(2, k)) <==> Cong(a, b, Pow(2, k)))
  {
    PrimeCancels(Xor(g, a), Xor(h, b), k);
    Mod32(Xor(g, a) * FNV_PRIME, k);
    Mod32(Xor(h, b) * FNV_PRIME, k);
    if Cong(g, h, Pow(2, k)) {
      XorCongruence(g, a, h, b, k);
    }
    if Cong(a, b, Pow(2, k)) {
      XorSymmetric(g, a);
      XorSymmetric(h, b);
      XorCongruence(a, g, b, h, k);
    }
  }

  /** Two byte strings of equal length that differ in position i at most. */
  ghost predicate DifferOnlyAt(s: seq<u8>, t: seq<u8>, i: nat) {
    i < |s| == |t| && forall j :: 0 <= j < |s| && j != i ==> s[j] == t[j]
  }

  /** With one byte changed, the hashes agree modulo 2^k exactly when that byte agrees modulo 2^k. */
  lemma {:induction false} OneByteDecides(h: u32, s: seq<u8>, t: seq<u8>, i: nat, k: nat)
    requires k <= 32 && DifferOnlyAt(s, t, i)
    ensures Pow(2, k) > 0
    ensures Cong(Fold(h, s), Fold(h, t), Pow(2, k)) <==> Cong(s[i], t[i], Pow(2, k))
    decreases |s|
  {
    var n := |s| - 1;
    MixPermutes(Fold(h, s[..n]), Fold(h, t[..n]), s[n], t[n], k);
    if i < n {
      OneByteDecides(h, s[..n], t[..n], i, k);
    } else {
      assert s[..n] == t[..n];
    }
  }

  lemma SmallResidues(a: u32, b: u32)
    ensures Pow(2, 32) > 0 && (Cong(a, b, Pow(2, 32)) <==> a == b)
  {
    TwoTo32();
  }

  /** Flows whose identities differ in one byte never share a hash. */
  lemma OneByteNeverCollides(p: Packet, q: Packet, i: nat)
    requires FlowKey(p).Some? && FlowKey(q).Some?
    requires DifferOnlyAt(FlowKey(p).value, FlowKey(q).value, i)
    requires FlowKey(p).value[i] != FlowKey(q).value[i]
    ensures HashOf(FlowKey(p)) != HashOf(FlowKey(q))
  {
    var s, t := FlowKey(p).value, FlowKey(q).value;
    OneByteDecides(FNV_OFFSET, s, t, i, 32);
    SmallResidues(Fnv(s), Fnv(t));
    SmallResidues(s[i], t[i]);
  }

  /** With n = 2^k live channels, flows differing in one byte share a position in `order` exactly when that byte
      agrees modulo n. */
  lemma OneByteSpread(p: Packet, q: Packet, i: nat, k: nat)
    requires FlowKey(p).Some? && FlowKey(q).Some?
    requires DifferOnlyAt(FlowKey(p).value, FlowKey(q).value, i)
    requires k <= 32
    ensures Pow(2, k) > 0
    ensures HashOf(FlowKey(p)) % Pow(2, k) == HashOf(FlowKey(q)) % Pow(2, k)
            <==> FlowKey(p).value[i] % Pow(2, k) == FlowKey(q).value[i] % Pow(2, k)
  {
    OneByteDecides(FNV_OFFSET, FlowKey(p).value, FlowKey(q).value, i, k);
  }
}
