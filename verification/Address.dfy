/** Dotted-quad text: what the pool prints and the router reads back (internal/server/pool.go, server.go). */
module Address {
  import opened Bytes
  import opened Lists
  import opened Wrappers

  function Digit(d: nat): char
    requires d < 10
  {
    "0123456789"[d]
  }

  predicate IsDigit(c: char) {
    '0' <= c <= '9'
  }

  function DigitValue(c: char): nat
    requires IsDigit(c)
  {
    c as int - '0' as int
  }

  /** %d for a natural number. */
  function Decimal(n: nat): string {
    if n < 10 then [Digit(n)] else Decimal(n / 10) + [Digit(n % 10)]
  }

  predicate AllDigits(s: string) {
    forall i :: 0 <= i < |s| ==> IsDigit(s[i])
  }

  function DecimalValue(s: string): nat
    requires AllDigits(s)
  {
    if s == "" then 0 else 10 * DecimalValue(s[..|s| - 1]) + DigitValue(s[|s| - 1])
  }

  /** No sign, no blanks, no leading zero. */
  predicate Canonical(s: string) {
    s != "" && AllDigits(s) && (|s| > 1 ==> s[0] != '0')
  }

  function PrintQuad(ip: u32): string {
    var b := BigEndian(ip, 4);
    Join([Decimal(b[0]), Decimal(b[1]), Decimal(b[2]), Decimal(b[3])], '.')
  }

  /** The "a.b.c.d/prefix" that alloc hands out. */
  function PrintCidr(ip: u32, prefix: nat): string {
    PrintQuad(ip) + "/" + Decimal(prefix)
  }

  function ParseOctet(s: string): Option<u8> {
    if Canonical(s) && DecimalValue(s) <= 255 then Some(DecimalValue(s)) else None
  }

  /** A colon comes before any dot or percent sign: net.ParseIP then reads the text as IPv6. */
  predicate ColonFirst(s: string) {
    s != "" && (s[0] == ':' || (s[0] != '.' && s[0] != '%' && ColonFirst(s[1..])))
  }

  /** net.ParseIP followed by To4; `mapped` gives the IPv4 address of an IPv6 text, if it is an IPv4-mapped one. */
  function ParseIP(s: string, mapped: string -> Option<u32>): Option<u32> {
    if ColonFirst(s) then mapped(s) else ParseQuad(s)
  }

  /** net.ParseIP on other text: four decimal bytes, none with a leading zero. */
  function ParseQuad(s: string): Option<u32> {
    var parts := Split(s, '.');
    if |parts| != 4 then None
    else
      match (ParseOctet(parts[0]), ParseOctet(parts[1]), ParseOctet(parts[2]), ParseOctet(parts[3]))
      case (Some(a), Some(b), Some(c), Some(d)) =>
        WordSizes();
        BigEndianOfValue([a, b, c, d]);
        Some(Value([a, b, c, d]))
      case _ => None
  }

  /** The text before the first slash. */
  function HostPart(cidr: string): string {
    if cidr == "" || cidr[0] == '/' then "" else [cidr[0]] + HostPart(cidr[1..])
  }

  method ParseHostIP(cidr: string, mapped: string -> Option<u32>) returns (ip: Option<u32>)
    ensures ip == ParseIP(HostPart(cidr), mapped)
  {
    var host := cidr;
    var i := 0;
    while i < |cidr|
      invariant 0 <= i <= |cidr| && host == cidr
      invariant HostPart(cidr) == cidr[..i] + HostPart(cidr[i..])
    {
      if cidr[i] == '/' {
        host := cidr[..i];
        assert HostPart(cidr[i..]) == "";
        break;
      }
      assert HostPart(cidr[i..]) == [cidr[i]] + HostPart(cidr[i + 1..]);
      i := i + 1;
    }
    assert i == |cidr| ==> cidr[i..] == "" && cidr[..i] == cidr;
    assert host == HostPart(cidr);
    ip := ParseIP(host, mapped);
  }

  /** The destination of an IPv4 packet (RFC 791, section 3.1). */
  function Ipv4Dst(p: Packet): Option<u32> {
    if |p| < 20 || p[0] / 16 != 4 then None
    else
      WordSizes();
      BigEndianOfValue(p[16..20]);
      Some(Value(p[16..20]))
  }

  // ------------------------------------------------------------------ printing and parsing are inverse

  lemma {:induction false} DecimalRoundTrip(n: nat)
    ensures Canonical(Decimal(n)) && DecimalValue(Decimal(n)) == n
    ensures n > 0 ==> Decimal(n)[0] != '0'
  {
    if n >= 10 {
      DecimalRoundTrip(n / 10);
      var s := Decimal(n);
      assert s[..|s| - 1] == Decimal(n / 10);
      assert forall i :: 0 <= i < |s| - 1 ==> s[i] == Decimal(n / 10)[i];
    } else {
      assert Decimal(n)[..0] == "";
    }
  }

  lemma {:induction false} DecimalOfValue(s: string)
    requires Canonical(s)
    ensures Decimal(DecimalValue(s)) == s
    ensures s[0] != '0' ==> DecimalValue(s) > 0
    decreases |s|
  {
    var n := |s| - 1;
    if n == 0 {
      assert s[..0] == "";
    } else {
      FrontIsCanonical(s);
      DecimalOfValue(s[..n]);
      SnocDecimal(s[..n], s[n], DecimalValue(s[..n]));
      assert s == s[..n] + [s[n]];
    }
  }

  lemma FrontIsCanonical(s: string)
    requires Canonical(s) && |s| > 1
    ensures Canonical(s[..|s| - 1]) && s[..|s| - 1][0] == s[0] != '0'
  {
  }

  lemma SnocDecimal(front: string, c: char, v: nat)
    requires v > 0 && IsDigit(c) && Decimal(v) == front
    ensures Decimal(10 * v + DigitValue(c)) == front + [c]
  {
    var d := DigitValue(c);
    assert (10 * v + d) / 10 == v && (10 * v + d) % 10 == d;
    assert Digit(d) == c;
  }

  /** Every address, printed, parses back to itself. */
  lemma QuadRoundTrip(ip: u32)
    ensures ParseQuad(PrintQuad(ip)) == Some(ip)
    ensures '/' !in PrintQuad(ip)
  {
    var b := BigEndian(ip, 4);
    var parts := [Decimal(b[0]), Decimal(b[1]), Decimal(b[2]), Decimal(b[3])];
    forall k | 0 <= k < 4 ensures ParseOctet(parts[k]) == Some(b[k]) && '.' !in parts[k] && '/' !in parts[k] {
      DecimalRoundTrip(b[k]);
    }
    SplitOfJoin(parts, '.');
    JoinHasNoSlash(parts);
    assert [b[0], b[1], b[2], b[3]] == b;
    WordSizes();
    ValueOfBigEndian(ip, 4);
  }

  lemma {:induction false} JoinHasNoSlash(parts: seq<string>)
    requires parts != [] && forall i :: 0 <= i < |parts| ==> '/' !in parts[i]
    ensures '/' !in Join(parts, '.')
  {
    if |parts| > 1 {
      JoinHasNoSlash(parts[1..]);
    }
  }

  /** And only canonical text parses: an accepted string is the printed form of its address. */
  lemma ParsedTextIsCanonical(s: string)
    requires ParseQuad(s).Some?
    ensures s == PrintQuad(ParseQuad(s).value)
  {
    var parts, ip := Split(s, '.'), ParseQuad(s).value;
    JoinOfSplit(s, '.');
    var b: seq<u8> := [ParseOctet(parts[0]).value, ParseOctet(parts[1]).value, ParseOctet(parts[2]).value, ParseOctet(parts[3]).value];
    BigEndianOfValue(b);
    assert BigEndian(ip, 4) == b;
    forall k | 0 <= k < 4 ensures Decimal(b[k]) == parts[k] {
      DecimalOfValue(parts[k]);
    }
    assert parts == [Decimal(b[0]), Decimal(b[1]), Decimal(b[2]), Decimal(b[3])];
  }

  lemma {:induction false} HostPartOf(host: string, rest: string)
    requires '/' !in host
    ensures HostPart(host + "/" + rest) == host
  {
    if host != "" {
      var s := host + "/" + rest;
      assert s[1..] == host[1..] + "/" + rest;
      HostPartOf(host[1..], rest);
      assert s[0] == host[0];
    }
  }

  lemma {:induction false} DotBeforeColon(digits: string, rest: string)
    requires AllDigits(digits)
    ensures !ColonFirst(digits + "." + rest)
  {
    var s := digits + "." + rest;
    if digits != "" {
      assert s[1..] == digits[1..] + "." + rest;
      DotBeforeColon(digits[1..], rest);
    } else {
      assert s[0] == '.';
    }
  }

  /** The assignment text names the allocated address, for every address and prefix and whatever IPv6 texts mean. */
  lemma CidrRoundTrip(ip: u32, prefix: nat, mapped: string -> Option<u32>)
    ensures ParseIP(HostPart(PrintCidr(ip, prefix)), mapped) == ParseQuad(HostPart(PrintCidr(ip, prefix))) == Some(ip)
  {
    QuadRoundTrip(ip);
    HostPartOf(PrintQuad(ip), Decimal(prefix));
    QuadHasNoColon(ip);
  }

  /** Text without a slash is read whole, so a bare address reads back too. */
  lemma {:induction false} BareHost(s: string)
    requires '/' !in s
    ensures HostPart(s) == s
  {
    if s != "" {
      BareHost(s[1..]);
    }
  }

  lemma BareRoundTrip(ip: u32, mapped: string -> Option<u32>)
    ensures ParseIP(HostPart(PrintQuad(ip)), mapped) == Some(ip)
  {
    QuadRoundTrip(ip);
    BareHost(PrintQuad(ip));
    QuadHasNoColon(ip);
  }

  /** And the text after the slash reads back as the prefix. */
  lemma PrefixRoundTrip(ip: u32, prefix: nat)
    ensures var cidr := PrintCidr(ip, prefix);
            var n := |HostPart(cidr)|;
            && n < |cidr| && cidr[n] == '/' && Canonical(cidr[n + 1..]) && DecimalValue(cidr[n + 1..]) == prefix
  {
    QuadRoundTrip(ip);
    HostPartOf(PrintQuad(ip), Decimal(prefix));
    DecimalRoundTrip(prefix);
    assert PrintCidr(ip, prefix)[|PrintQuad(ip)| + 1..] == Decimal(prefix);
  }

  lemma QuadHasNoColon(ip: u32)
    ensures !ColonFirst(PrintQuad(ip))
  {
    var b := BigEndian(ip, 4);
    var rest := [Decimal(b[1]), Decimal(b[2]), Decimal(b[3])];
    DecimalRoundTrip(b[0]);
    assert ([Decimal(b[0])] + rest)[1..] == rest;
    assert PrintQuad(ip) == Decimal(b[0]) + "." + Join(rest, '.');
    DotBeforeColon(Decimal(b[0]), Join(rest, '.'));
  }
}
