/** Transcripts and key agreement (internal/transport/handshake.go, client.go, server.go; internal/crypto/crypto.go). */
module Handshake {
  import opened Aead
  import opened Bytes
  import opened Wrappers

  /** How many channels one session may open (internal/transport/wire.go). */
  const MAX_CHANNELS_PER_SESSION := 16

  const INFO_CLIENT_TO_SERVER := "mirage v1 c2s"
  const INFO_SERVER_TO_CLIENT := "mirage v1 s2c"
  const ZERO_KEY: Key32 := seq(32, _ => 0)

  /** X25519: the scalar multiplication, which fails on some points, and the public key of a private one. */
  datatype Curve = Curve(multiply: (Key32, Key32) -> Option<Key32>, public: Key32 -> Key32)

  /** The one property of the curve this protocol relies on. */
  ghost predicate Symmetric(x: Curve) {
    forall a: Key32, b: Key32 :: x.multiply(a, x.public(b)) == x.multiply(b, x.public(a))
  }

  /** An idealised HMAC value: the term says which key and message made it. */
  datatype Tag = Tag(psk: seq<u8>, message: seq<u8>)

  datatype SessionKeys = SessionKeys(tx: Key, rx: Key)

  /** uint64(ts). */
  function Unsigned(ts: i64): u64 {
    if ts < 0 then ts + 0x1_0000_0000_0000_0000 else ts
  }

  function AuthMessage(ephPub: Key32, ts: i64, serverStatic: Key32, sid: seq<u8>): seq<u8> {
    ephPub + BigEndian(Unsigned(ts), 8) + serverStatic + sid
  }

  function AuthToken(psk: seq<u8>, ephPub: Key32, ts: i64, serverStatic: Key32, sid: seq<u8>): Tag {
    Tag(psk, AuthMessage(ephPub, ts, serverStatic, sid))
  }

  /** A shared secret, unless the point is of low order. */
  function DH(x: Curve, priv: Key32, peerPub: Key32): Option<Key32> {
    match x.multiply(priv, peerPub)
    case None => None
    case Some(s) => if s == ZERO_KEY then None else Some(s)
  }

  function CombineDH(x: Curve, priv1: Key32, pub1: Key32, priv2: Key32, pub2: Key32): Option<seq<u8>> {
    match DH(x, priv1, pub1)
    case None => None
    case Some(ss1) =>
      match DH(x, priv2, pub2)
      case None => None
      case Some(ss2) => Some(ss1 + ss2)
  }

  function ChannelSalt(clientEph: Key32, serverEph: Key32, sid: seq<u8>, chanIdx: u32): seq<u8> {
    clientEph + serverEph + sid + BigEndian(chanIdx, 4)
  }

  function DeriveSessionKeys(shared: seq<u8>, salt: seq<u8>, isClient: bool): SessionKeys {
    var c2s := Derived(shared, salt, INFO_CLIENT_TO_SERVER);
    var s2c := Derived(shared, salt, INFO_SERVER_TO_CLIENT);
    if isClient then SessionKeys(c2s, s2c) else SessionKeys(s2c, c2s)
  }

  /** What dialChannel derives from its own ephemeral key, the server's reply and the configured identity. */
  function ClientKeys(x: Curve, eph: Key32, serverEph: Key32, serverStatic: Key32, sid: seq<u8>, chanIdx: u32)
    : Option<SessionKeys>
  {
    match CombineDH(x, eph, serverEph, eph, serverStatic)
    case None => None
    case Some(shared) => Some(DeriveSessionKeys(shared, ChannelSalt(x.public(eph), serverEph, sid, chanIdx), true))
  }

  /** What ServeHTTP derives from its ephemeral and static keys and the client's cookie. */
  function ServerKeys(x: Curve, eph: Key32, static_: Key32, clientEph: Key32, sid: seq<u8>, chanIdx: u32)
    : Option<SessionKeys>
  {
    match CombineDH(x, eph, clientEph, static_, clientEph)
    case None => None
    case Some(shared) => Some(DeriveSessionKeys(shared, ChannelSalt(clientEph, x.public(eph), sid, chanIdx), false))
  }

  /** Both ends fail together, or each end's sending key is the other's receiving key, and the two directions differ. */
  lemma KeyAgreement(x: Curve, clientEph: Key32, serverEph: Key32, static_: Key32, sid: seq<u8>, chanIdx: u32)
    requires Symmetric(x)
    ensures var c := ClientKeys(x, clientEph, x.public(serverEph), x.public(static_), sid, chanIdx);
            var s := ServerKeys(x, serverEph, static_, x.public(clientEph), sid, chanIdx);
            && (c.Some? <==> s.Some?)
            && (c.Some? ==> c.value.tx == s.value.rx && c.value.rx == s.value.tx && c.value.tx != c.value.rx)
            && (c.Some? ==> c.value.tx.info == "mirage v1 c2s" && c.value.rx.info == "mirage v1 s2c")
  {
    assert x.multiply(clientEph, x.public(serverEph)) == x.multiply(serverEph, x.public(clientEph));
    assert x.multiply(clientEph, x.public(static_)) == x.multiply(static_, x.public(clientEph));
    assert INFO_CLIENT_TO_SERVER[10] != INFO_SERVER_TO_CLIENT[10];
  }

  lemma UnsignedInjective(a: i64, b: i64)
    requires BigEndian(Unsigned(a), 8) == BigEndian(Unsigned(b), 8)
    ensures a == b
  {
    WordSizes();
    BigEndianInjective(Unsigned(a), Unsigned(b), 8);
  }

  /** A token's message determines all four fields, for session ids of any length. */
  lemma AuthMessageInjective(e1: Key32, t1: i64, s1: Key32, sid1: seq<u8>, e2: Key32, t2: i64, s2: Key32, sid2: seq<u8>)
    requires AuthMessage(e1, t1, s1, sid1) == AuthMessage(e2, t2, s2, sid2)
    ensures e1 == e2 && t1 == t2 && s1 == s2 && sid1 == sid2
  {
    var m1, m2 := AuthMessage(e1, t1, s1, sid1), AuthMessage(e2, t2, s2, sid2);
    assert m1[..32] == e1 && m1[32..40] == BigEndian(Unsigned(t1), 8) && m1[40..72] == s1 && m1[72..] == sid1;
    assert m2[..32] == e2 && m2[32..40] == BigEndian(Unsigned(t2), 8) && m2[40..72] == s2 && m2[72..] == sid2;
    UnsignedInjective(t1, t2);
  }

  /** A salt determines both ephemeral keys, the session id and the channel index. */
  lemma ChannelSaltInjective(c1: Key32, s1: Key32, sid1: seq<u8>, i1: u32, c2: Key32, s2: Key32, sid2: seq<u8>, i2: u32)
    requires ChannelSalt(c1, s1, sid1, i1) == ChannelSalt(c2, s2, sid2, i2)
    ensures c1 == c2 && s1 == s2 && sid1 == sid2 && i1 == i2
  {
    var m1, m2 := ChannelSalt(c1, s1, sid1, i1), ChannelSalt(c2, s2, sid2, i2);
    assert |sid1| == |sid2|;
    var n := 64 + |sid1|;
    assert m1[..32] == c1 && m1[32..64] == s1 && m1[64..n] == sid1 && m1[n..] == BigEndian(i1, 4);
    assert m2[..32] == c2 && m2[32..64] == s2 && m2[64..n] == sid2 && m2[n..] == BigEndian(i2, 4);
    WordSizes();
    BigEndianInjective(i1, i2, 4);
  }

  /** Two channels that differ in any handshake input share no key in either direction, so neither opens the
      other's records. */
  lemma ChannelsAreSeparate(shared1: seq<u8>, shared2: seq<u8>, isClient1: bool, isClient2: bool,
                            c1: Key32, s1: Key32, sid1: seq<u8>, i1: u32, c2: Key32, s2: Key32, sid2: seq<u8>, i2: u32,
                            counter: u64, record: Sealed)
    requires (c1, s1, sid1, i1) != (c2, s2, sid2, i2)
    requires record.key == DeriveSessionKeys(shared1, ChannelSalt(c1, s1, sid1, i1), isClient1).tx
    ensures var k2 := DeriveSessionKeys(shared2, ChannelSalt(c2, s2, sid2, i2), isClient2);
            && record.key != k2.rx && record.key != k2.tx
            && OpenStep(Stream(k2.rx, counter), record).1.Err?
  {
    if ChannelSalt(c1, s1, sid1, i1) == ChannelSalt(c2, s2, sid2, i2) {
      ChannelSaltInjective(c1, s1, sid1, i1, c2, s2, sid2, i2);
    }
  }

  // ------------------------------------------------------------------ what the keys depend on

  /** X25519 gives a secret that is not all zero, which is how a point of low order shows. */
  predicate Usable(x: Curve, priv: Key32, peerPub: Key32) {
    x.multiply(priv, peerPub).Some? && x.multiply(priv, peerPub).value != seq(32, _ => 0)
  }

  /** Two pairs of secrets, combined, are equal only if they are pairwise equal. */
  lemma CombinedIsBoth(x: Curve, a: Key32, pa: Key32, b: Key32, pb: Key32)
    ensures CombineDH(x, a, pa, b, pb).Some? <==> Usable(x, a, pa) && Usable(x, b, pb)
    ensures CombineDH(x, a, pa, b, pb).Some? ==>
              var shared := CombineDH(x, a, pa, b, pb).value;
              |shared| == 64 && Some(shared[..32]) == x.multiply(a, pa) && Some(shared[32..]) == x.multiply(b, pb)
  {
  }

  /** The client has keys exactly when neither the server's ephemeral nor its static point is of low order, and its
      sending key stands for exactly both secrets, the static one included, and everything in the salt. */
  lemma ClientKeysDetermine(x: Curve, e1: Key32, se1: Key32, st1: Key32, sid1: seq<u8>, i1: u32,
                            e2: Key32, se2: Key32, st2: Key32, sid2: seq<u8>, i2: u32)
    ensures ClientKeys(x, e1, se1, st1, sid1, i1).Some? <==> Usable(x, e1, se1) && Usable(x, e1, st1)
    ensures var k1, k2 := ClientKeys(x, e1, se1, st1, sid1, i1), ClientKeys(x, e2, se2, st2, sid2, i2);
            k1.Some? && k2.Some? ==>
              (k1.value.tx == k2.value.tx <==>
                 && x.multiply(e1, se1) == x.multiply(e2, se2) && x.multiply(e1, st1) == x.multiply(e2, st2)
                 && x.public(e1) == x.public(e2) && se1 == se2 && sid1 == sid2 && i1 == i2)
              && (k1.value.tx == k2.value.tx <==> k1.value.rx == k2.value.rx)
  {
    CombinedIsBoth(x, e1, se1, e1, st1);
    CombinedIsBoth(x, e2, se2, e2, st2);
    var k1, k2 := ClientKeys(x, e1, se1, st1, sid1, i1), ClientKeys(x, e2, se2, st2, sid2, i2);
    if k1.Some? && k2.Some? && (k1.value.tx == k2.value.tx || k1.value.rx == k2.value.rx) {
      ChannelSaltInjective(x.public(e1), se1, sid1, i1, x.public(e2), se2, sid2, i2);
    }
  }

  /** The same of the server. */
  lemma ServerKeysDetermine(x: Curve, e1: Key32, st1: Key32, c1: Key32, sid1: seq<u8>, i1: u32,
                            e2: Key32, st2: Key32, c2: Key32, sid2: seq<u8>, i2: u32)
    ensures ServerKeys(x, e1, st1, c1, sid1, i1).Some? <==> Usable(x, e1, c1) && Usable(x, st1, c1)
    ensures var k1, k2 := ServerKeys(x, e1, st1, c1, sid1, i1), ServerKeys(x, e2, st2, c2, sid2, i2);
            k1.Some? && k2.Some? ==>
              (k1.value.tx == k2.value.tx <==>
                 && x.multiply(e1, c1) == x.multiply(e2, c2) && x.multiply(st1, c1) == x.multiply(st2, c2)
                 && c1 == c2 && x.public(e1) == x.public(e2) && sid1 == sid2 && i1 == i2)
              && (k1.value.tx == k2.value.tx <==> k1.value.rx == k2.value.rx)
  {
    CombinedIsBoth(x, e1, c1, st1, c1);
    CombinedIsBoth(x, e2, c2, st2, c2);
    var k1, k2 := ServerKeys(x, e1, st1, c1, sid1, i1), ServerKeys(x, e2, st2, c2, sid2, i2);
    if k1.Some? && k2.Some? && (k1.value.tx == k2.value.tx || k1.value.rx == k2.value.rx) {
      ChannelSaltInjective(c1, x.public(e1), sid1, i1, c2, x.public(e2), sid2, i2);
    }
  }

  /** A server whose static key gives another secret than the one the client expects shares no key with it and opens
      none of its records, nor the client any of that server's. */
  lemma WrongServerSharesNothing(x: Curve, clientEph: Key32, serverEphPub: Key32, expected: Key32,
                                 serverEph: Key32, static_: Key32, sid: seq<u8>, chanIdx: u32,
                                 record: Sealed, counter: u64)
    requires var c := ClientKeys(x, clientEph, serverEphPub, expected, sid, chanIdx);
             var s := ServerKeys(x, serverEph, static_, x.public(clientEph), sid, chanIdx);
             c.Some? && s.Some?
    requires x.multiply(static_, x.public(clientEph)) != x.multiply(clientEph, expected)
    ensures var c := ClientKeys(x, clientEph, serverEphPub, expected, sid, chanIdx).value;
            var s := ServerKeys(x, serverEph, static_, x.public(clientEph), sid, chanIdx).value;
            && {c.tx, c.rx} !! {s.tx, s.rx}
            && (record.key == c.tx ==> OpenStep(Stream(s.rx, counter), record).1.Err?)
            && (record.key == s.tx ==> OpenStep(Stream(c.rx, counter), record).1.Err?)
  {
    CombinedIsBoth(x, clientEph, serverEphPub, clientEph, expected);
    CombinedIsBoth(x, serverEph, x.public(clientEph), static_, x.public(clientEph));
    var c := ClientKeys(x, clientEph, serverEphPub, expected, sid, chanIdx).value;
    var s := ServerKeys(x, serverEph, static_, x.public(clientEph), sid, chanIdx).value;
    assert c.tx.secret[32..] != s.tx.secret[32..];
    assert c.tx.secret == c.rx.secret && s.tx.secret == s.rx.secret;
  }
}
