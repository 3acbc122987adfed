/** The SOCKS5 handshake as a parser of a byte stream (internal/socks/socks.go; RFC 1928, sections 3 and 4). */
module Socks {
  import opened Bytes
  import opened Wrappers

  const VER5: u8 := 0x05
  const CMD_CONNECT: u8 := 0x01
  const ATYP_IPV4: u8 := 0x01
  const ATYP_DOMAIN: u8 := 0x03
  const ATYP_IPV6: u8 := 0x04
  const REP_CMD_NOT_SUP: u8 := 0x07

  datatype Host = IPv4(addr: seq<u8>) | IPv6(addr: seq<u8>) | Domain(name: seq<u8>)

  /** How a handshake ends: the target or nothing, the bytes left for the relay, the bytes sent to the client. */
  datatype Outcome = Outcome(target: Option<(Host, u16)>, rest: seq<u8>, sent: seq<u8>)

  function Fail(rest: seq<u8>, sent: seq<u8>): Outcome {
    Outcome(None, rest, sent)
  }

  function Reply(code: u8): seq<u8> {
    [VER5, code, 0, ATYP_IPV4, 0, 0, 0, 0, 0, 0]
  }

  /** The two port bytes after a host. */
  function ParsePort(host: Host, s: seq<u8>, sent: seq<u8>): Outcome {
    if |s| < 2 then Fail([], sent) else Outcome(Some((host, Get16(s[0], s[1]))), s[2..], sent)
  }

  /** Address and port, by address type. */
  function ParseAddress(atyp: u8, s: seq<u8>, sent: seq<u8>, up: bool): Outcome {
    if atyp == ATYP_IPV4 then
      if |s| < 4 then Fail([], sent) else ParsePort(IPv4(s[..4]), s[4..], sent)
    else if atyp == ATYP_IPV6 then
      if |s| < 16 then Fail([], sent) else ParsePort(IPv6(s[..16]), s[16..], sent)
    else if atyp == ATYP_DOMAIN then
      if |s| < 1 || |s| - 1 < s[0] then Fail([], sent)
      else ParsePort(Domain(s[1..1 + s[0]]), s[1 + s[0]..], sent)
    else Fail(s, sent + if up then Reply(REP_CMD_NOT_SUP) else [])
  }

  function ParseRequest(s: seq<u8>, sent: seq<u8>, up: bool): Outcome {
    if |s| < 4 then Fail([], sent)
    else if s[0] != VER5 then Fail(s[4..], sent)
    else if s[1] != CMD_CONNECT then Fail(s[4..], sent + if up then Reply(REP_CMD_NOT_SUP) else [])
    else ParseAddress(s[3], s[4..], sent, up)
  }

  /** The whole handshake on the stream s; `up` says whether the client's socket accepts writes. */
  function Parse(s: seq<u8>, sent: seq<u8>, up: bool): Outcome {
    if |s| < 2 then Fail([], sent)
    else if s[0] != VER5 then Fail(s[2..], sent)
    else ParseMethods(s[1], s[2..], sent, up)
  }

  /** Skip n offered methods and answer "no authentication". */
  function ParseMethods(n: u8, s: seq<u8>, sent: seq<u8>, up: bool): Outcome {
    if |s| < n then Fail([], sent)
    else if !up then Fail(s[n..], sent)
    else ParseRequest(s[n..], sent + [VER5, 0x00], up)
  }

  // ------------------------------------------------------------------ the code, over a chunked stream

  /** A client connection: bytes still to arrive, in chunks whose sizes the network chooses. */
  class Client {
    var pending: seq<u8>
    var chunks: seq<nat>
    var sent: seq<u8>
    const up: bool

    constructor (pending: seq<u8>, chunks: seq<nat>, up: bool)
      ensures this.pending == pending && this.chunks == chunks && this.up == up && sent == []
    {
      this.pending, this.chunks, this.up, this.sent := pending, chunks, up, [];
    }

    /** One read: at least one byte if any is left and one was asked for, at most `max`. */
    method Read(max: nat) returns (b: seq<u8>)
      modifies this
      ensures |b| <= max && b + pending == old(pending) && sent == old(sent)
      ensures max > 0 && old(pending) != [] ==> b != []
    {
      var want := 1;
      if chunks != [] {
        want, chunks := chunks[0] + 1, chunks[1..];
      }
      var limit := if max < |pending| then max else |pending|;
      var n := if want < limit then want else limit;
      b := pending[..n];
      pending := pending[n..];
    }

    /** io.ReadFull: exactly n bytes, or nothing once the stream has ended. */
    method ReadFull(n: nat) returns (r: Option<seq<u8>>)
      modifies this
      ensures sent == old(sent)
      ensures if |old(pending)| < n then r == None && pending == []
              else r == Some(old(pending)[..n]) && pending == old(pending)[n..]
    {
      var got := [];
      while |got| < n
        invariant |got| <= n && got + pending == old(pending) && sent == old(sent)
        decreases n - |got|
      {
        var b := Read(n - |got|);
        if b == [] {
          return None;
        }
        got := got + b;
      }
      assert old(pending)[..n] == got && old(pending)[n..] == pending;
      r := Some(got);
    }

    method Write(b: seq<u8>) returns (ok: bool)
      modifies this
      ensures ok == up && pending == old(pending)
      ensures sent == if up then old(sent) + b else old(sent)
    {
      ok := up;
      if up {
        sent := sent + b;
      }
    }

    method Handshake() returns (target: Option<(Host, u16)>)
      modifies this
      ensures Outcome(target, pending, sent) == Parse(old(pending), old(sent), up)
    {
      var hdr := ReadFull(2);
      if hdr.None? {
        return None;
      }
      if hdr.value[0] != VER5 {
        return None;
      }
      target := Methods(hdr.value[1]);
    }

    method Methods(n: u8) returns (target: Option<(Host, u16)>)
      modifies this
      ensures Outcome(target, pending, sent) == ParseMethods(n, old(pending), old(sent), up)
    {
      var methods := ReadFull(n);
      if methods.None? {
        return None;
      }
      var ok := Write([VER5, 0x00]);
      if !ok {
        return None;
      }
      target := Request();
    }

    method Request() returns (target: Option<(Host, u16)>)
      modifies this
      ensures Outcome(target, pending, sent) == ParseRequest(old(pending), old(sent), up)
    {
      var req := ReadFull(4);
      if req.None? {
        return None;
      }
      if req.value[0] != VER5 {
        return None;
      }
      if req.value[1] != CMD_CONNECT {
        var _ := Write(Reply(REP_CMD_NOT_SUP));
        assert old(sent) + [] == old(sent);
        return None;
      }
      target := Address(req.value[3]);
    }

    method Address(atyp: u8) returns (target: Option<(Host, u16)>)
      modifies this
      ensures Outcome(target, pending, sent) == ParseAddress(atyp, old(pending), old(sent), up)
    {
      var host: Host;
      if atyp == ATYP_IPV4 {
        var b := ReadFull(4);
        if b.None? {
          return None;
        }
        host := IPv4(b.value);
      } else if atyp == ATYP_IPV6 {
        var b := ReadFull(16);
        if b.None? {
          return None;
        }
        host := IPv6(b.value);
      } else if atyp == ATYP_DOMAIN {
        var l := ReadFull(1);
        if l.None? {
          return None;
        }
        var b := ReadFull(l.value[0]);
        if b.None? {
          return None;
        }
        host := Domain(b.value);
        assert b.value == old(pending)[1..1 + old(pending)[0]] && pending == old(pending)[1 + old(pending)[0]..];
      } else {
        var _ := Write(Reply(REP_CMD_NOT_SUP));
        assert old(sent) + [] == old(sent);
        return None;
      }
      var pb := ReadFull(2);
      if pb.None? {
        return None;
      }
      var port := Get16(pb.value[0], pb.value[1]);
      target := Some((host, port));
    }
  }

  // ------------------------------------------------------------------ exactly the well-formed streams

  predicate ValidHost(h: Host) {
    match h
    case IPv4(a) => |a| == 4
    case IPv6(a) => |a| == 16
    case Domain(n) => |n| < 256
  }

  function EncodeHost(h: Host): seq<u8>
    requires ValidHost(h)
  {
    match h
    case IPv4(a) => [ATYP_IPV4] + a
    case IPv6(a) => [ATYP_IPV6] + a
    case Domain(n) => [ATYP_DOMAIN, |n|] + n
  }

  /** A greeting offering some methods, then a CONNECT request; the reserved byte may hold anything. */
  function Encode(methods: seq<u8>, reserved: u8, h: Host, port: u16): seq<u8>
    requires |methods| < 256 && ValidHost(h)
  {
    [VER5, |methods|] + methods + ([VER5, CMD_CONNECT, reserved] + (EncodeHost(h) + Put16(port)))
  }

  lemma PortRoundTrip(h: Host, port: u16, suffix: seq<u8>, sent: seq<u8>)
    ensures ParsePort(h, Put16(port) + suffix, sent) == Outcome(Some((h, port)), suffix, sent)
  {
    var p := Put16(port) + suffix;
    assert p[2..] == suffix && p[0] == port / 256 % 256 && p[1] == port % 256;
  }

  lemma Cut(a: seq<u8>, b: seq<u8>)
    ensures (a + b)[..|a|] == a && (a + b)[|a|..] == b
  {
  }

  lemma AddressRoundTrip(h: Host, port: u16, suffix: seq<u8>, sent: seq<u8>, up: bool)
    requires ValidHost(h)
    ensures ParseAddress(EncodeHost(h)[0], EncodeHost(h)[1..] + (Put16(port) + suffix), sent, up)
         == Outcome(Some((h, port)), suffix, sent)
  {
    var p := Put16(port) + suffix;
    PortRoundTrip(h, port, suffix, sent);
    match h
    case IPv4(a) =>
      assert EncodeHost(h)[1..] == a;
      Cut(a, p);
    case IPv6(a) =>
      assert EncodeHost(h)[1..] == a;
      Cut(a, p);
    case Domain(n) =>
      assert EncodeHost(h)[1..] == [|n|] + n;
      var s := [|n|] + n + p;
      Cut([|n|] + n, p);
      assert s[1..1 + |n|] == n;
  }

  /** Every well-formed greeting and request is understood, exactly it is consumed, and the client gets the
      greeting's answer. */
  lemma HandshakeRoundTrip(methods: seq<u8>, reserved: u8, h: Host, port: u16, suffix: seq<u8>)
    requires |methods| < 256 && ValidHost(h)
    ensures Parse(Encode(methods, reserved, h, port) + suffix, [], true) == Outcome(Some((h, port)), suffix, [VER5, 0x00])
  {
    var greeting, request := [VER5, |methods|], [VER5, CMD_CONNECT, reserved] + (EncodeHost(h) + Put16(port));
    CutThree(greeting, methods, request, suffix);
    RequestRoundTrip(request + suffix, reserved, h, port, suffix, [VER5, 0x00]);
    ParseGreeting(greeting, methods, request + suffix);
  }

  lemma CutThree(a: seq<u8>, b: seq<u8>, c: seq<u8>, d: seq<u8>)
    ensures a + b + c + d == a + (b + (c + d))
  {
  }

  /** A greeting is skipped and answered. */
  lemma ParseGreeting(greeting: seq<u8>, methods: seq<u8>, rest: seq<u8>)
    requires |methods| < 256 && greeting == [VER5, |methods|]
    ensures Parse(greeting + (methods + rest), [], true) == ParseRequest(rest, [VER5, 0x00], true)
  {
    Cut(greeting, methods + rest);
    Cut(methods, rest);
    assert [] + [VER5, 0x00] == [VER5, 0x00];
  }

  lemma CutInside(a: seq<u8>, e: seq<u8>, p: seq<u8>, s: seq<u8>)
    requires e != []
    ensures var r := a + (e + p) + s; r[|a|] == e[0] && r[|a| + 1..] == e[1..] + (p + s)
  {
    assert e == [e[0]] + e[1..];
    assert a + (e + p) + s == (a + [e[0]]) + (e[1..] + (p + s));
  }

  lemma RequestRoundTrip(request: seq<u8>, reserved: u8, h: Host, port: u16, suffix: seq<u8>, sent: seq<u8>)
    requires ValidHost(h) && request == [VER5, CMD_CONNECT, reserved] + (EncodeHost(h) + Put16(port)) + suffix
    ensures ParseRequest(request, sent, true) == Outcome(Some((h, port)), suffix, sent)
  {
    var e := EncodeHost(h);
    CutInside([VER5, CMD_CONNECT, reserved], e, Put16(port), suffix);
    AddressRoundTrip(h, port, suffix, sent, true);
  }

  lemma PortIsEncoded(h: Host, s: seq<u8>, sent: seq<u8>)
    requires ParsePort(h, s, sent).target.Some?
    ensures var o := ParsePort(h, s, sent);
            o.target.value.0 == h && s == Put16(o.target.value.1) + o.rest && o.sent == sent
  {
    assert Put16(Get16(s[0], s[1])) == [s[0], s[1]];
    assert s == [s[0], s[1]] + s[2..];
  }

  lemma AddressIsEncoded(atyp: u8, s: seq<u8>, sent: seq<u8>, up: bool)
    requires ParseAddress(atyp, s, sent, up).target.Some?
    ensures var o := ParseAddress(atyp, s, sent, up);
            && ValidHost(o.target.value.0)
            && [atyp] + s == EncodeHost(o.target.value.0) + (Put16(o.target.value.1) + o.rest)
            && o.sent == sent
  {
    if atyp == ATYP_IPV4 {
      PortIsEncoded(IPv4(s[..4]), s[4..], sent);
      Rejoin([atyp], s, 4, ParseAddress(atyp, s, sent, up));
    } else if atyp == ATYP_IPV6 {
      PortIsEncoded(IPv6(s[..16]), s[16..], sent);
      Rejoin([atyp], s, 16, ParseAddress(atyp, s, sent, up));
    } else {
      var n: nat := s[0];
      PortIsEncoded(Domain(s[1..1 + n]), s[1 + n..], sent);
      assert [atyp] + s[..1 + n] == [atyp, n] + s[1..1 + n];
      Rejoin([atyp], s, 1 + n, ParseAddress(atyp, s, sent, up));
    }
  }

  /** A stream cut at k, where the port and the rest begin, put together again. */
  lemma Rejoin(a: seq<u8>, s: seq<u8>, k: nat, o: Outcome)
    requires k <= |s| && o.target.Some? && s[k..] == Put16(o.target.value.1) + o.rest
    ensures a + s == a + s[..k] + (Put16(o.target.value.1) + o.rest)
  {
    assert s == s[..k] + s[k..];
  }

  /** And nothing else yields a target: the consumed bytes are a well-formed greeting and request for it, so no
      malformed or truncated input is accepted. */
  lemma OnlyWellFormedIsAccepted(s: seq<u8>, up: bool)
    requires Parse(s, [], up).target.Some?
    ensures up && |s| >= 2 && |s| >= 6 + (s[1] as int)
    ensures var o := Parse(s, [], up);
            && ValidHost(o.target.value.0)
            && s == Encode(s[2..2 + s[1]], s[4 + s[1]], o.target.value.0, o.target.value.1) + o.rest
            && o.sent == [VER5, 0x00]
  {
    var n := s[1];
    var methods, q := s[2..2 + n], s[2 + n..];
    assert s[2..][n..] == q;
    assert [] + [VER5, 0x00] == [VER5, 0x00];
    AddressIsEncoded(q[3], q[4..], [VER5, 0x00], up);
    var o := ParseAddress(q[3], q[4..], [VER5, 0x00], up);
    var e, p := EncodeHost(o.target.value.0), Put16(o.target.value.1);
    assert q == [VER5, CMD_CONNECT, q[2]] + ([q[3]] + q[4..]);
    assert s == [VER5, n] + methods + q;
    Concatenate([VER5, n] + methods, [VER5, CMD_CONNECT, q[2]], e, p, o.rest);
  }

  lemma Concatenate(a: seq<u8>, b: seq<u8>, e: seq<u8>, p: seq<u8>, rest: seq<u8>)
    ensures a + (b + (e + (p + rest))) == a + (b + (e + p)) + rest
  {
  }

  // ------------------------------------------------------------------ what the client is answered

  /** The request was read up to its address type and asks for something that is not supported. */
  predicate Unsupported(s: seq<u8>)
  {
    && |s| >= 2 && s[0] == 5 && |s| >= 6 + s[1] as int && s[2 + s[1] as int] == 5
    && (s[3 + s[1] as int] != 1 || s[5 + s[1] as int] !in {1, 3, 4})
  }

  /** The greeting and all methods it announces were read. */
  predicate Greeted(s: seq<u8>) {
    |s| >= 2 && s[0] == 5 && |s| >= 2 + s[1] as int
  }

  /** What a client is sent, for every stream: "no authentication" exactly when it has greeted, then a refusal with code 7
      exactly when its command or address type is not supported; and nothing else, so no target comes with a refusal.
      One whose socket refuses writes is sent nothing and gets no target. */
  lemma AnswersExactly(s: seq<u8>)
    ensures var o := Parse(s, [], true);
            && o.sent == (if Greeted(s) then [5, 0] else []) + (if Unsupported(s) then [5, 7, 0, 1, 0, 0, 0, 0, 0, 0] else [])
            && (Unsupported(s) ==> o.target == None)
    ensures Parse(s, [], false).target == None && Parse(s, [], false).sent == []
  {
    if Greeted(s) {
      var q := s[2..][s[1]..];
      assert [] + [VER5, 0x00] == [VER5, 0x00] && [VER5, 0x00] + [] == [VER5, 0x00];
      RequestAnswers(q, [VER5, 0x00]);
      if |q| >= 4 {
        assert q[0] == s[2 + s[1] as int] && q[1] == s[3 + s[1] as int] && q[3] == s[5 + s[1] as int];
      }
    }
  }

  lemma RequestAnswers(q: seq<u8>, sent: seq<u8>)
    ensures var o := ParseRequest(q, sent, true);
            var refused := |q| >= 4 && q[0] == 5 && (q[1] != 1 || q[3] !in {1, 3, 4});
            && o.sent == sent + (if refused then [5, 7, 0, 1, 0, 0, 0, 0, 0, 0] else [])
            && (refused ==> o.target == None)
  {
    assert sent + [] == sent;
  }
}
