/** The probe's DNS query over IPv4 and UDP, and the reading of its answer (cmd/krot-probe/main.go). */
module Dns {
  import opened Address
  import opened Bytes
  import opened InternetChecksum
  import opened Flow
  import opened Lists
  import opened Modular
  import opened Wrappers

  const DOT: u8 := 46
  const HEADER: seq<u8> := [0xAB, 0xCD, 0x01, 0x00, 0x00, 0x01, 0, 0, 0, 0, 0, 0]
  /** Root label, type A, class IN. */
  const QUESTION_END: seq<u8> := [0, 0, 1, 0, 1]

  /** A label behind its length byte, which holds the length modulo 256. */
  function EncodeLabel(part: seq<u8>): seq<u8> {
    [|part| % 256] + part
  }

  function EncodeLabels(parts: seq<seq<u8>>): seq<u8> {
    if parts == [] then [] else EncodeLabel(parts[0]) + EncodeLabels(parts[1..])
  }

  function Message(name: seq<u8>): seq<u8> {
    HEADER + EncodeLabels(Split(name, DOT)) + QUESTION_END
  }

  method BuildDNSMessage(name: seq<u8>) returns (b: seq<u8>)
    ensures b == Message(name)
  {
    b := HEADER;
    ghost var done: seq<seq<u8>> := [];
    var start := 0;
    var i := 0;
    BuildingBegins(name);
    while i <= |name|
      invariant 0 <= start <= i <= |name| + 1
      invariant Building(name, b, done, start, i)
    {
      if i == |name| || name[i] == DOT {
        BuildingPart(name, b, done, start, i);
        b := b + [(i - start) % 256];
        b := b + name[start..i];
        done := done + [name[start..i]];
        start := i + 1;
      } else {
        BuildingByte(name, b, done, start, i);
      }
      i := i + 1;
    }
    BuildingEnds(name, b, done, start);
    b := b + [0x00];
    b := b + [0x00, 0x01];
    b := b + [0x00, 0x01];
  }

  /** b holds the header and the parts done; the part under way runs from start to i. */
  ghost predicate Building(name: seq<u8>, b: seq<u8>, done: seq<seq<u8>>, start: nat, i: nat) {
    && start <= i <= |name| + 1 && b == HEADER + EncodeLabels(done)
    && if i <= |name| then DOT !in name[start..i] && Split(name, DOT) == done + Split(name[start..], DOT)
       else done == Split(name, DOT)
  }

  lemma BuildingBegins(name: seq<u8>)
    ensures Building(name, HEADER, [], 0, 0)
  {
    assert HEADER + [] == HEADER;
    assert name[0..] == name;
    assert Split(name, DOT) == [] + Split(name, DOT);
  }

  lemma BuildingEnds(name: seq<u8>, b: seq<u8>, done: seq<seq<u8>>, start: nat)
    requires Building(name, b, done, start, |name| + 1)
    ensures b + [0x00] + [0x00, 0x01] + [0x00, 0x01] == Message(name)
  {
    assert b + [0x00] + [0x00, 0x01] + [0x00, 0x01] == b + QUESTION_END;
  }

  lemma BuildingPart(name: seq<u8>, b: seq<u8>, done: seq<seq<u8>>, start: nat, i: nat)
    requires Building(name, b, done, start, i) && i <= |name| && (i == |name| || name[i] == DOT)
    ensures Building(name, b + [(i - start) % 256] + name[start..i], done + [name[start..i]], i + 1, i + 1)
  {
    PartEnds(name, done, start, i);
    AppendLabel(b, EncodeLabels(done), name[start..i]);
  }

  lemma BuildingByte(name: seq<u8>, b: seq<u8>, done: seq<seq<u8>>, start: nat, i: nat)
    requires Building(name, b, done, start, i) && i < |name| && name[i] != DOT
    ensures Building(name, b, done, start, i + 1)
  {
    assert name[start..i + 1] == name[start..i] + [name[i]];
  }

  /** A part that runs from start to i, where a dot or the end follows, is the next one split off. */
  lemma NextPart(name: seq<u8>, start: nat, i: nat)
    requires start <= i <= |name| && DOT !in name[start..i] && (i == |name| || name[i] == DOT)
    ensures i == |name| ==> Split(name[start..], DOT) == [name[start..i]]
    ensures i < |name| ==> Split(name[start..], DOT) == [name[start..i]] + Split(name[i + 1..], DOT)
  {
    var part := name[start..i];
    if i == |name| {
      assert name[start..] == part;
      SplitOfPlain(part, DOT);
    } else {
      assert name[start..] == part + [DOT] + name[i + 1..];
      SplitOfConcat(part, name[i + 1..], DOT);
    }
  }

  lemma AppendLabel(b: seq<u8>, e: seq<u8>, part: seq<u8>)
    requires b == HEADER + e
    ensures b + [|part| % 256] + part == HEADER + (e + EncodeLabel(part))
  {
  }

  /** With the part from start to i, one more part is done. */
  lemma PartEnds(name: seq<u8>, done: seq<seq<u8>>, start: nat, i: nat)
    requires start <= i <= |name| && DOT !in name[start..i] && (i == |name| || name[i] == DOT)
    requires Split(name, DOT) == done + Split(name[start..], DOT)
    ensures var done' := done + [name[start..i]];
            && EncodeLabels(done') == EncodeLabels(done) + EncodeLabel(name[start..i])
            && Split(name, DOT) == if i == |name| then done' else done' + Split(name[i + 1..], DOT)
  {
    NextPart(name, start, i);
    LastLabel(done, name[start..i]);
    if i < |name| {
      Regroup(done, [name[start..i]], Split(name[i + 1..], DOT));
    }
  }

  lemma {:induction false} LastLabel(parts: seq<seq<u8>>, part: seq<u8>)
    ensures EncodeLabels(parts + [part]) == EncodeLabels(parts) + EncodeLabel(part)
  {
    if parts == [] {
      assert ([] + [part])[1..] == [];
    } else {
      LastLabel(parts[1..], part);
      assert (parts + [part])[1..] == parts[1..] + [part];
    }
  }

  // ------------------------------------------------------------------ reading an answer

  /** Where the question skip stops: at a zero byte or past the end. */
  function SkipName(dns: seq<u8>, off: nat): nat
    decreases if off < |dns| then |dns| - off else 0
  {
    if off < |dns| && dns[off] != 0 then SkipName(dns, off + dns[off] + 1) else off
  }

  /** The A records among at most n answers starting at off. */
  function Answers(dns: seq<u8>, off: nat, n: nat): seq<seq<u8>>
    decreases n
  {
    if n == 0 || off + 12 > |dns| then []
    else
      var typ := Get16(dns[off + 2], dns[off + 3]);
      var rdlen := Get16(dns[off + 10], dns[off + 11]);
      var data := off + 12;
      if data + rdlen > |dns| then []
      else (if typ == 1 && rdlen == 4 then [dns[data..data + 4]] else []) + Answers(dns, data + rdlen, n - 1)
  }

  /** What one record contributes, and where the next begins. */
  lemma AnswersTurn(dns: seq<u8>, off: nat, n: nat, typ: u16, rdlen: u16)
    requires n > 0 && off + 12 + rdlen <= |dns|
    requires typ == Get16(dns[off + 2], dns[off + 3]) && rdlen == Get16(dns[off + 10], dns[off + 11])
    ensures Answers(dns, off, n)
         == (if typ == 1 && rdlen == 4 then [dns[off + 12..off + 16]] else []) + Answers(dns, off + 12 + rdlen, n - 1)
  {
  }

  function ParsedAnswers(ip: Packet): seq<seq<u8>> {
    if |ip| < 28 || |ip[28..]| < 12 then []
    else
      var dns := ip[28..];
      Answers(dns, SkipName(dns, 12) + 5, Get16(dns[6], dns[7]))
  }

  /** The question skip's loop. */
  method SkipQuestion(dns: seq<u8>) returns (off: nat)
    ensures off == SkipName(dns, 12) + 5
  {
    off := 12;
    while off < |dns| && dns[off] != 0
      invariant SkipName(dns, off) == SkipName(dns, 12)
      decreases |dns| - off
    {
      off := off + (dns[off] as int) + 1;
    }
    off := off + 1 + 4;
  }

  method ParseDNSAnswers(ip: Packet) returns (out: seq<seq<u8>>)
    ensures out == ParsedAnswers(ip)
  {
    out := [];
    if |ip| < 28 {
      return;
    }
    var dns := ip[28..];
    if |dns| < 12 {
      return;
    }
    var anc := Get16(dns[6], dns[7]);
    var off := SkipQuestion(dns);
    out := ReadAnswers(dns, off, anc);
  }

  /** What was read so far and what is left to read are all the answers. */
  ghost predicate ReadSoFar(dns: seq<u8>, start: nat, anc: nat, off: nat, i: nat, out: seq<seq<u8>>) {
    i <= anc && out + Answers(dns, off, anc - i) == Answers(dns, start, anc)
  }

  lemma ReadSoFarTurn(dns: seq<u8>, start: nat, anc: nat, off: nat, i: nat, out: seq<seq<u8>>, typ: u16, rdlen: u16)
    requires ReadSoFar(dns, start, anc, off, i, out) && i < anc && off + 12 + rdlen <= |dns|
    requires typ == Get16(dns[off + 2], dns[off + 3]) && rdlen == Get16(dns[off + 10], dns[off + 11])
    ensures var found := if typ == 1 && rdlen == 4 then [dns[off + 12..off + 16]] else [];
            ReadSoFar(dns, start, anc, off + 12 + rdlen, i + 1, out + found)
  {
    var found := if typ == 1 && rdlen == 4 then [dns[off + 12..off + 16]] else [];
    AnswersTurn(dns, off, anc - i, typ, rdlen);
    Regroup(out, found, Answers(dns, off + 12 + rdlen, anc - i - 1));
  }

  lemma ReadSoFarEnds(dns: seq<u8>, start: nat, anc: nat, off: nat, i: nat, out: seq<seq<u8>>)
    requires ReadSoFar(dns, start, anc, off, i, out)
    requires i == anc || off + 12 > |dns| || off + 12 + Get16(dns[off + 10], dns[off + 11]) > |dns|
    ensures out == Answers(dns, start, anc)
  {
    assert Answers(dns, off, anc - i) == [];
  }

  /** The answer loop. */
  method ReadAnswers(dns: seq<u8>, start: nat, anc: nat) returns (out: seq<seq<u8>>)
    ensures out == Answers(dns, start, anc)
  {
    out := [];
    var off: nat := start;
    var i: nat := 0;
    while i < anc && off + 12 <= |dns|
      invariant ReadSoFar(dns, start, anc, off, i, out)
    {
      ghost var at := off;
      off := off + 2;
      var typ := Get16(dns[off], dns[off + 1]);
      off := off + 8;
      var rdlen := Get16(dns[off], dns[off + 1]);
      off := off + 2;
      if off + rdlen > |dns| {
        ReadSoFarEnds(dns, start, anc, at, i, out);
        return;
      }
      ReadSoFarTurn(dns, start, anc, at, i, out, typ, rdlen);
      if typ == 1 && rdlen == 4 {
        out := out + [dns[off..off + 4]];
      } else {
        assert out + [] == out;
      }
      off := off + rdlen;
      i := i + 1;
    }
    ReadSoFarEnds(dns, start, anc, off, i, out);
  }

  // ------------------------------------------------------------------ the question skip

  /** From the start of encoded parts, the skip stops where the first empty part was written, or else at the byte
      after them. */
  lemma {:induction false} SkipStopsAtEmptyPart(dns: seq<u8>, off: nat, parts: seq<seq<u8>>, k: nat)
    requires k <= |parts| && forall i :: 0 <= i < k ==> 0 < |parts[i]| < 256
    requires off <= |dns| && EncodeLabels(parts) <= dns[off..]
    requires k == |parts| ==> off + |EncodeLabels(parts)| < |dns| && dns[off + |EncodeLabels(parts)|] == 0
    requires k < |parts| ==> parts[k] == []
    ensures SkipName(dns, off) == off + |EncodeLabels(parts[..k])|
    decreases k
  {
    var e := EncodeLabels(parts);
    if k == 0 {
      assert parts[..0] == [];
      if parts != [] {
        assert e[0] == 0 && dns[off..][0] == e[0];
      }
    } else {
      var first, rest := EncodeLabel(parts[0]), parts[1..];
      var next := off + |first|;
      assert e == first + EncodeLabels(rest);
      assert dns[off..][0] == e[0] == |parts[0]|;
      PrefixParts(dns, off, first, EncodeLabels(rest));
      SkipStopsAtEmptyPart(dns, next, rest, k - 1);
      assert parts[..k][1..] == rest[..k - 1];
      assert SkipName(dns, off) == SkipName(dns, next);
    }
  }

  /** The position of the first empty part, or their number. */
  function FirstEmpty(parts: seq<seq<u8>>): (k: nat)
    ensures k <= |parts| && (forall i :: 0 <= i < k ==> parts[i] != []) && (k < |parts| ==> parts[k] == [])
  {
    if parts == [] || parts[0] == [] then 0 else 1 + FirstEmpty(parts[1..])
  }

  lemma {:induction false} LabelsGrow(parts: seq<seq<u8>>, k: nat)
    requires k <= |parts|
    ensures |EncodeLabels(parts[..k])| <= |EncodeLabels(parts)|
    ensures k < |parts| ==> |EncodeLabels(parts[..k])| < |EncodeLabels(parts)|
    decreases k
  {
    if k > 0 {
      LabelsGrow(parts[1..], k - 1);
      assert parts[..k][1..] == parts[1..][..k - 1];
    }
  }

  /** For names whose labels have at most 255 bytes: in any packet that begins with the message, the reader's skip
      lands exactly at the end of the question if and only if no label is empty. */
  lemma SkipLandsAtEndExactly(name: seq<u8>, suffix: seq<u8>)
    requires forall p :: p in Split(name, DOT) ==> |p| < 256
    ensures SkipName(Message(name) + suffix, 12) + 5 == |Message(name)| <==> [] !in Split(name, DOT)
  {
    var parts := Split(name, DOT);
    var k := FirstEmpty(parts);
    var dns := Message(name) + suffix;
    assert dns[12..] == EncodeLabels(parts) + (QUESTION_END + suffix);
    assert EncodeLabels(parts) <= dns[12..];
    assert dns[12 + |EncodeLabels(parts)|] == 0;
    SkipStopsAtEmptyPart(dns, 12, parts, k);
    LabelsGrow(parts, k);
    if k == |parts| {
      assert parts[..k] == parts;
    }
  }

  // ------------------------------------------------------------------ the answers

  /** A resource record whose name is a two-byte pointer. */
  datatype Rr = Rr(pointer: seq<u8>, typ: u16, classTtl: seq<u8>, data: seq<u8>)

  predicate WellFormed(r: Rr) {
    |r.pointer| == 2 && |r.classTtl| == 6 && |r.data| < 0x1_0000
  }

  function EncodeRr(r: Rr): seq<u8> {
    r.pointer + Put16(r.typ) + r.classTtl + Put16(|r.data|) + r.data
  }

  function EncodeRrs(rs: seq<Rr>): seq<u8> {
    if rs == [] then [] else EncodeRr(rs[0]) + EncodeRrs(rs[1..])
  }

  /** What one record contributes: its data, if that is an address. */
  function Own(r: Rr): seq<seq<u8>> {
    if r.typ == 1 && |r.data| == 4 then [r.data] else []
  }

  /** The addresses among the records. */
  function Addresses(rs: seq<Rr>): seq<seq<u8>> {
    if rs == [] then [] else Own(rs[0]) + Addresses(rs[1..])
  }

  lemma EncodedFields(r: Rr)
    requires WellFormed(r)
    ensures var e := EncodeRr(r);
            && |e| == 12 + |r.data| && Get16(e[2], e[3]) == r.typ && Get16(e[10], e[11]) == |r.data| && e[12..] == r.data
  {
    var e := EncodeRr(r);
    assert e[2] == r.typ / 256 % 256 && e[3] == r.typ % 256;
    assert e[10] == |r.data| / 256 % 256 && e[11] == |r.data| % 256;
  }

  /** Reading what was encoded, wherever it lies in the message, yields exactly its addresses. */
  lemma {:induction false} AnswersOfEncoded(dns: seq<u8>, off: nat, rs: seq<Rr>)
    requires forall r :: r in rs ==> WellFormed(r)
    requires off <= |dns| && EncodeRrs(rs) <= dns[off..]
    ensures Answers(dns, off, |rs|) == Addresses(rs)
    decreases |rs|
  {
    if rs != [] {
      RecordAt(dns, off, rs[0], EncodeRrs(rs[1..]));
      var next, tail := off + 12 + |rs[0].data|, rs[1..];
      AnswersOfEncoded(dns, next, tail);
      AnswersOfFirst(dns, off, rs[0], next, |tail|, Addresses(tail));
      assert |rs| == |tail| + 1;
    }
  }

  /** A record lies at off, and `rest` after it. */
  lemma RecordAt(dns: seq<u8>, off: nat, r: Rr, rest: seq<u8>)
    requires WellFormed(r) && off <= |dns| && EncodeRr(r) + rest <= dns[off..]
    ensures off + 12 + |r.data| <= |dns| && rest <= dns[off + 12 + |r.data|..]
    ensures Get16(dns[off + 2], dns[off + 3]) == r.typ && Get16(dns[off + 10], dns[off + 11]) == |r.data|
    ensures dns[off + 12..off + 12 + |r.data|] == r.data
  {
    var e := EncodeRr(r);
    EncodedFields(r);
    PrefixParts(dns, off, e, rest);
    FieldsAt(dns, off, e);
  }

  lemma AnswersOfFirst(dns: seq<u8>, off: nat, r: Rr, next: nat, n: nat, rest: seq<seq<u8>>)
    requires WellFormed(r) && next == off + 12 + |r.data| <= |dns|
    requires Get16(dns[off + 2], dns[off + 3]) == r.typ && Get16(dns[off + 10], dns[off + 11]) == |r.data|
    requires dns[off + 12..next] == r.data && Answers(dns, next, n) == rest
    ensures Answers(dns, off, n + 1) == Own(r) + rest
  {
    AnswersTurn(dns, off, n + 1, r.typ, |r.data|);
  }

  lemma PrefixParts(dns: seq<u8>, off: nat, e: seq<u8>, rest: seq<u8>)
    requires off <= |dns| && e + rest <= dns[off..]
    ensures off + |e| <= |dns| && dns[off..off + |e|] == e && rest <= dns[off + |e|..]
  {
    assert dns[off..][..|e + rest|] == e + rest;
    assert dns[off..off + |e|] == (e + rest)[..|e|];
    assert dns[off + |e|..] == dns[off..][|e|..];
    assert (e + rest)[|e|..] == rest;
  }

  lemma FieldsAt(dns: seq<u8>, off: nat, e: seq<u8>)
    requires |e| >= 12 && off + |e| <= |dns| && dns[off..off + |e|] == e
    ensures dns[off + 2] == e[2] && dns[off + 3] == e[3] && dns[off + 10] == e[10] && dns[off + 11] == e[11]
    ensures dns[off + 12..off + |e|] == e[12..]
  {
    assert forall k :: 0 <= k < |e| ==> dns[off + k] == e[k];
  }

  /** A reply to the probe's own question: header with the answer count, the question again, the records, anything
      after. */
  function Reply(ipUdp: seq<u8>, name: seq<u8>, rs: seq<Rr>, suffix: seq<u8>): Packet {
    var m := Message(name);
    ipUdp + m[..6] + Put16(|rs|) + m[8..] + (EncodeRrs(rs) + suffix)
  }

  /** From every well-formed reply the probe reads exactly the addresses it carries. */
  lemma ReplyIsRead(ipUdp: seq<u8>, name: seq<u8>, rs: seq<Rr>, suffix: seq<u8>)
    requires |ipUdp| == 28 && |rs| < 0x1_0000 && forall r :: r in rs ==> WellFormed(r)
    requires [] !in Split(name, DOT) && forall p :: p in Split(name, DOT) ==> |p| < 256
    ensures ParsedAnswers(Reply(ipUdp, name, rs, suffix)) == Addresses(rs)
  {
    var m, parts := Message(name), Split(name, DOT);
    var pkt, tail := Reply(ipUdp, name, rs, suffix), EncodeRrs(rs) + suffix;
    ReplyLayout(ipUdp, m, |rs|, tail, pkt);
    MessageTail(name);
    SkipsQuestion(pkt[28..], parts, tail);
    AnswersOfEncoded(pkt[28..], |m|, rs);
    ParsedFrom(pkt, pkt[28..], |m|, |rs|);
  }

  lemma ParsedFrom(pkt: Packet, dns: seq<u8>, off: nat, n: nat)
    requires |pkt| >= 40 && dns == pkt[28..] && SkipName(dns, 12) + 5 == off && Get16(dns[6], dns[7]) == n
    ensures ParsedAnswers(pkt) == Answers(dns, off, n)
  {
  }

  lemma MessageTail(name: seq<u8>)
    ensures |Message(name)| == 12 + |EncodeLabels(Split(name, DOT))| + 5
    ensures Message(name)[12..] == EncodeLabels(Split(name, DOT)) + QUESTION_END
  {
  }

  lemma ReplyLayout(ipUdp: seq<u8>, m: seq<u8>, count: nat, tail: seq<u8>, pkt: seq<u8>)
    requires |ipUdp| == 28 && |m| >= 12 && count < 0x1_0000 && pkt == ipUdp + m[..6] + Put16(count) + m[8..] + tail
    ensures |pkt| == 28 + |m| + |tail|
    ensures var dns := pkt[28..];
            Get16(dns[6], dns[7]) == count && dns[12..] == m[12..] + tail && dns[|m|..] == tail
  {
    var dns := pkt[28..];
    assert dns[6] == count / 256 % 256 && dns[7] == count % 256;
  }

  lemma SkipsQuestion(dns: seq<u8>, parts: seq<seq<u8>>, tail: seq<u8>)
    requires |dns| >= 12 && dns[12..] == EncodeLabels(parts) + QUESTION_END + tail
    requires forall i :: 0 <= i < |parts| ==> 0 < |parts[i]| < 256
    ensures SkipName(dns, 12) == 12 + |EncodeLabels(parts)|
  {
    var e := EncodeLabels(parts);
    assert dns[12..][|e|] == 0;
    SkipStopsAtEmptyPart(dns, 12, parts, |parts|);
    assert parts[..|parts|] == parts;
  }

  // ------------------------------------------------------------------ the packet around the query

  /** The first 20 bytes of the query, before its checksum is written. */
  function Ipv4Header(src: seq<u8>, dst: seq<u8>, totalLen: nat): seq<u8> {
    [0x45, 0] + Put16(totalLen) + Put16(0x1234) + Put16(0x4000) + [64, 17] + [0, 0] + src + dst
  }

  method BuildDNSQuery(src: seq<u8>, dst: seq<u8>, name: seq<u8>) returns (out: Packet)
    requires |src| == 4 && |dst| == 4
    ensures |out| == 28 + |Message(name)| && out[28..] == Message(name)
    ensures var h := Ipv4Header(src, dst, |out|); out[..20] == Store(h, 10, Checksum(h))
    ensures out[20..28] == Put16(40000) + Put16(53) + Put16(8 + |Message(name)|) + [0, 0]
  {
    var dns := BuildDNSMessage(name);
    var udpLen := 8 + |dns|;
    var totalLen := 20 + udpLen;
    var pkt := new u8[totalLen](_ => 0);
    FillIpv4(pkt, src, dst);
    FillUdp(pkt, udpLen, dns);
    out := pkt[..];
    assert out[..20] == pkt[..20] && out[20..28] == pkt[20..28] && out[28..] == pkt[28..];
  }

  /** Writes the IPv4 header, checksum last. */
  method FillIpv4(pkt: array<u8>, src: seq<u8>, dst: seq<u8>)
    requires |src| == 4 && |dst| == 4 && pkt.Length >= 28 && forall i :: 0 <= i < pkt.Length ==> pkt[i] == 0
    modifies pkt
    ensures var h := Ipv4Header(src, dst, pkt.Length); pkt[..20] == Store(h, 10, Checksum(h))
    ensures forall i :: 20 <= i < pkt.Length ==> pkt[i] == 0
  {
    FillFields(pkt, src, dst);
    ghost var h := Ipv4Header(src, dst, pkt.Length);
    var sum := IpChecksum(pkt[..20]);
    StoreIsPut(h, sum);
    PutAt(pkt, 10, Put16(sum));
    assert pkt[..20] == h[..10] + Put16(sum) + h[12..];
  }

  /** The header's fields, without the checksum. */
  method FillFields(pkt: array<u8>, src: seq<u8>, dst: seq<u8>)
    requires |src| == 4 && |dst| == 4 && pkt.Length >= 28 && forall i :: 0 <= i < pkt.Length ==> pkt[i] == 0
    modifies pkt
    ensures pkt[..20] == Ipv4Header(src, dst, pkt.Length)
    ensures forall i :: 20 <= i < pkt.Length ==> pkt[i] == 0
  {
    pkt[0] := 0x45;
    PutAt(pkt, 2, Put16(pkt.Length));
    PutAt(pkt, 4, Put16(0x1234));
    PutAt(pkt, 6, Put16(0x4000));
    pkt[8] := 64;
    pkt[9] := 17;
    PutAt(pkt, 12, src);
    PutAt(pkt, 16, dst);
  }

  lemma StoreIsPut(h: seq<u8>, c: u16)
    requires |h| == 20
    ensures Store(h, 10, c) == h[..10] + Put16(c) + h[12..]
  {
  }

  /** Writes the UDP header, without a checksum, and the payload. */
  method FillUdp(pkt: array<u8>, udpLen: nat, dns: seq<u8>)
    requires pkt.Length == 28 + |dns| && forall i :: 20 <= i < pkt.Length ==> pkt[i] == 0
    modifies pkt
    ensures pkt[..20] == old(pkt[..20]) && pkt[28..] == dns
    ensures pkt[20..28] == Put16(40000) + Put16(53) + Put16(udpLen) + [0, 0]
  {
    PutAt(pkt, 20, Put16(40000));
    PutAt(pkt, 22, Put16(53));
    PutAt(pkt, 24, Put16(udpLen));
    PutAt(pkt, 28, dns);
  }

  /** Writes bytes into the buffer at an offset. */
  method PutAt(a: array<u8>, at: nat, s: seq<u8>)
    requires at + |s| <= a.Length
    modifies a
    ensures forall i :: 0 <= i < a.Length ==> a[i] == if at <= i < at + |s| then s[i - at] else old(a[i])
  {
    for k := 0 to |s|
      invariant forall i :: 0 <= i < a.Length ==> a[i] == if at <= i < at + k then s[i - at] else old(a[i])
    {
      a[at + k] := s[k];
    }
  }

  lemma HeaderFields(src: seq<u8>, dst: seq<u8>, totalLen: nat, c: u16)
    requires |src| == 4 && |dst| == 4
    ensures var h := Ipv4Header(src, dst, totalLen);
            && |h| == 20 && h[10] == 0 && h[11] == 0
            && var g := Store(h, 10, c);
               g[0] == 0x45 && g[6] == 0x40 && g[7] == 0 && g[9] == 17 && g[12..16] == src && g[16..20] == dst
  {
  }

  /** The query as the server sees it: a header whose checksum verifies, addressed to dst, and a flow of its own. */
  lemma QueryIsWellFormed(src: seq<u8>, dst: seq<u8>, pkt: Packet)
    requires |src| == 4 && |dst| == 4 && |pkt| >= 28
    requires var h := Ipv4Header(src, dst, |pkt|); pkt[..20] == Store(h, 10, Checksum(h))
    requires pkt[20..24] == Put16(40000) + Put16(53)
    ensures Checksum(pkt[..20]) == 0
    ensures Ipv4Dst(pkt) == Some(Value(dst))
    ensures FlowKey(pkt) == Some(src + dst + [17] + (Put16(40000) + Put16(53)))
  {
    var h := Ipv4Header(src, dst, |pkt|);
    HeaderFields(src, dst, |pkt|, Checksum(h));
    StoredChecksumVerifies(h, 10);
    FieldsDecide(pkt, pkt[..20], src, dst);
  }

  lemma FieldsDecide(pkt: Packet, g: seq<u8>, src: seq<u8>, dst: seq<u8>)
    requires |pkt| >= 28 && g == pkt[..20] && |src| == 4 && |dst| == 4
    requires g[0] == 0x45 && g[6] == 0x40 && g[7] == 0 && g[9] == 17 && g[12..16] == src && g[16..20] == dst
    ensures Ipv4Dst(pkt) == Some(Value(dst))
    ensures FlowKey(pkt) == Some(src + dst + [17] + pkt[20..24])
  {
    assert pkt[0] == 0x45 && pkt[6] == 0x40 && pkt[7] == 0 && pkt[9] == 17;
    assert pkt[16..20] == dst && pkt[12..20] == src + dst;
  }

  /** The length fields of a query are its own and its UDP part's, in 16 bits. */
  lemma LengthsReadBack(src: seq<u8>, dst: seq<u8>, pkt: Packet)
    requires |src| == 4 && |dst| == 4 && 28 <= |pkt|
    requires var h := Ipv4Header(src, dst, |pkt|); pkt[..20] == Store(h, 10, Checksum(h))
    requires pkt[20..28] == Put16(40000) + Put16(53) + Put16(|pkt| - 20) + [0, 0]
    ensures Get16(pkt[2], pkt[3]) == |pkt| % 0x1_0000
    ensures Get16(pkt[24], pkt[25]) == (|pkt| - 20) % 0x1_0000 && Get16(pkt[26], pkt[27]) == 0
    ensures Get16(pkt[20], pkt[21]) == 40000 && Get16(pkt[22], pkt[23]) == 53
  {
    LengthField(src, dst, |pkt|, Checksum(Ipv4Header(src, dst, |pkt|)), pkt[..20]);
    UdpFields(pkt[20..28], |pkt| - 20);
  }

  lemma WordReadBack(x: nat)
    ensures Get16(Put16(x)[0], Put16(x)[1]) == x % 0x1_0000
  {
    var q, r := x / 256, x % 256;
    var a, b := q / 256, q % 256;
    assert x == 256 * q + r && q == 256 * a + b;
    ModUnique(x, 0x1_0000, a, 256 * b + r);
  }

  lemma LengthField(src: seq<u8>, dst: seq<u8>, n: nat, c: u16, g: seq<u8>)
    requires |src| == 4 && |dst| == 4 && |Ipv4Header(src, dst, n)| == 20
    requires g == Store(Ipv4Header(src, dst, n), 10, c)
    ensures |g| == 20 && Get16(g[2], g[3]) == n % 0x1_0000
  {
    WordReadBack(n);
    assert g[2] == Put16(n)[0] && g[3] == Put16(n)[1];
  }

  lemma UdpFields(u: seq<u8>, n: nat)
    requires u == Put16(40000) + Put16(53) + Put16(n) + [0, 0]
    ensures Get16(u[0], u[1]) == 40000 && Get16(u[2], u[3]) == 53 && Get16(u[4], u[5]) == n % 0x1_0000 && Get16(u[6], u[7]) == 0
  {
    WordReadBack(n);
    assert u[4] == Put16(n)[0] && u[5] == Put16(n)[1];
  }

  // ------------------------------------------------------------------ the question, read back

  /** The labels from an offset on, up to an empty one (RFC 1035, section 3.1). */
  function ReadName(dns: seq<u8>, off: nat): seq<seq<u8>>
    decreases |dns| - off
  {
    if off >= |dns| || dns[off] == 0 || off + 1 + dns[off] > |dns| then []
    else [dns[off + 1..off + 1 + dns[off]]] + ReadName(dns, off + 1 + dns[off])
  }

  lemma {:induction false} NameIsRead(dns: seq<u8>, off: nat, parts: seq<seq<u8>>)
    requires off <= |dns| && forall i :: 0 <= i < |parts| ==> 0 < |parts[i]| < 256
    requires EncodeLabels(parts) + [0] <= dns[off..]
    ensures ReadName(dns, off) == parts
    decreases |parts|
  {
    if parts == [] {
      assert dns[off..][0] == 0;
    } else {
      var part, rest := parts[0], parts[1..];
      FirstIsEncoded(parts);
      LabelIsRead(dns, off, part, EncodeLabels(rest) + [0]);
      NameIsRead(dns, off + 1 + |part|, rest);
      assert parts == [part] + rest;
    }
  }

  lemma FirstIsEncoded(parts: seq<seq<u8>>)
    requires parts != []
    ensures EncodeLabels(parts) + [0] == EncodeLabel(parts[0]) + (EncodeLabels(parts[1..]) + [0])
  {
    Regroup(EncodeLabel(parts[0]), EncodeLabels(parts[1..]), [0]);
  }

  lemma LabelIsRead(dns: seq<u8>, off: nat, part: seq<u8>, rest: seq<u8>)
    requires off <= |dns| && 0 < |part| < 256 && EncodeLabel(part) + rest <= dns[off..]
    ensures off + 1 + |part| + |rest| <= |dns| && dns[off] == |part| && dns[off + 1..off + 1 + |part|] == part
    ensures rest <= dns[off + 1 + |part|..]
  {
    var e := EncodeLabel(part) + rest;
    assert dns[off..off + |e|] == e;
    assert e[0] == |part| && e[1..1 + |part|] == part && e[1 + |part|..] == rest;
  }

  lemma {:induction false} ReadLabelsAreNotEmpty(dns: seq<u8>, off: nat, k: nat)
    requires k < |ReadName(dns, off)|
    ensures ReadName(dns, off)[k] != []
    decreases k
  {
    if k > 0 {
      ReadLabelsAreNotEmpty(dns, off + 1 + dns[off], k - 1);
    }
  }

  /** The message asks one question, recursion desired, and nothing else, of type A and class IN. Its labels read back
      as the name's exactly when none is empty. */
  lemma QuestionReadsBack(name: seq<u8>)
    requires forall i :: 0 <= i < |Split(name, DOT)| ==> |Split(name, DOT)[i]| < 256
    ensures var b := Message(name);
            var end := 12 + |EncodeLabels(Split(name, DOT))|;
            && |b| == end + 5
            && Get16(b[0], b[1]) == 0xABCD && Get16(b[2], b[3]) == 0x0100
            && Get16(b[4], b[5]) == 1 && b[6..12] == [0, 0, 0, 0, 0, 0]
            && b[end] == 0 && Get16(b[end + 1], b[end + 2]) == 1 && Get16(b[end + 3], b[end + 4]) == 1
            && (ReadName(b, 12) == Split(name, DOT) <==> forall i :: 0 <= i < |Split(name, DOT)| ==> Split(name, DOT)[i] != [])
  {
    var parts, b := Split(name, DOT), Message(name);
    MessageParts(b, EncodeLabels(parts));
    if forall i :: 0 <= i < |parts| ==> parts[i] != [] {
      NameIsRead(b, 12, parts);
    } else if ReadName(b, 12) == parts {
      var k :| 0 <= k < |parts| && parts[k] == [];
      ReadLabelsAreNotEmpty(b, 12, k);
    }
  }

  lemma MessageParts(b: seq<u8>, e: seq<u8>)
    requires b == HEADER + e + QUESTION_END
    ensures |b| == 12 + |e| + 5 && b[..12] == HEADER && e + [0] <= b[12..] && b[12 + |e|..] == QUESTION_END
  {
    assert b[12..] == e + QUESTION_END;
    assert b[12..][..|e| + 1] == e + [0];
  }
}
