/** The Internet checksum (ipChecksum in cmd/krot-probe/main.go; RFC 1071). */
module InternetChecksum {
  import opened Bytes
  import opened Modular

  /** The sum of the first k big-endian 16-bit words, unbounded. */
  function WordSum(h: seq<u8>, k: nat): nat
    requires 2 * k <= |h|
  {
    if k == 0 then 0 else WordSum(h, k - 1) + Get16(h[2 * k - 2], h[2 * k - 1])
  }

  /** The sum of all words; a trailing odd byte is not summed. */
  function Total(h: seq<u8>): nat {
    WordSum(h, |h| / 2)
  }

  /** The one's-complement value of a sum: folded into 16 bits, zero only for zero. */
  function Ones(sum: nat): u16 {
    if sum == 0 then 0 else (sum - 1) % 65535 + 1
  }

  /** The complement of a sum kept in 32 bits. */
  function Complement(sum: nat): u16 {
    65535 - Ones(sum % 0x1_0000_0000)
  }

  /** What the code computes. */
  function Checksum(h: seq<u8>): u16 {
    Complement(Total(h))
  }

  /** What RFC 1071 asks for: the one's complement of the one's-complement sum of all words. */
  function Rfc1071(h: seq<u8>): u16 {
    65535 - Ones(Total(h))
  }

  method IpChecksum(h: seq<u8>) returns (c: u16)
    ensures c == Checksum(h)
  {
    var sum := SumWords(h);
    var folded := FoldSum(sum);
    c := 65535 - folded;
  }

  /** uint32 addition. */
  function Add32(a: u32, w: u16): u32 {
    if a + w < 0x1_0000_0000 then a + w else a + w - 0x1_0000_0000
  }

  /** The summing loop, in 32 bits. */
  method SumWords(h: seq<u8>) returns (sum: u32)
    ensures sum == Total(h) % 0x1_0000_0000
  {
    sum := 0;
    var i: nat := 0;
    ghost var k: nat, wraps: nat := 0, 0;
    while i + 1 < |h|
      invariant i == 2 * k <= |h|
      invariant WordSum(h, k) == 0x1_0000_0000 * wraps + sum
    {
      var w := Get16(h[i], h[i + 1]);
      wraps := if sum + w < 0x1_0000_0000 then wraps else wraps + 1;
      sum := Add32(sum, w);
      i := i + 2;
      k := k + 1;
    }
    ModUnique(WordSum(h, k), 0x1_0000_0000, wraps, sum);
  }

  /** The carry loop. */
  method FoldSum(start: u32) returns (folded: u16)
    ensures folded == Ones(start)
  {
    var sum: nat := start;
    while sum / 65536 != 0
      invariant Ones(sum) == Ones(start)
      decreases sum
    {
      FoldKeepsOnes(sum);
      sum := sum % 65536 + sum / 65536;
    }
    folded := sum;
  }

  lemma FoldKeepsOnes(sum: nat)
    ensures Ones(sum % 65536 + sum / 65536) == Ones(sum)
  {
    var q := sum / 65536;
    if sum > 0 {
      assert sum - 1 == (sum % 65536 + q - 1) + 65535 * q;
      ModShift(sum % 65536 + q - 1, q, 65535);
    }
  }

  // ------------------------------------------------------------------ a stored checksum verifies

  /** h with the word c written at offset `at`. */
  function Store(h: seq<u8>, at: nat, c: u16): seq<u8>
    requires at + 2 <= |h|
  {
    h[at := c / 256][at + 1 := c % 256]
  }

  /** g is h with its zero word number j replaced by c. */
  ghost predicate Stored(h: seq<u8>, g: seq<u8>, j: nat, c: u16) {
    && 2 * j + 2 <= |h| == |g| && h[2 * j] == 0 && h[2 * j + 1] == 0
    && Get16(g[2 * j], g[2 * j + 1]) == c
    && forall i :: 0 <= i < |h| && i != 2 * j && i != 2 * j + 1 ==> g[i] == h[i]
  }

  lemma {:induction false} StoreAddsToSum(h: seq<u8>, g: seq<u8>, j: nat, c: u16, k: nat)
    requires Stored(h, g, j, c) && 2 * k <= |h|
    ensures WordSum(g, k) == WordSum(h, k) + if j < k then c as int else 0
  {
    if k > 0 {
      StoreAddsToSum(h, g, j, c, k - 1);
      if j != k - 1 {
        assert g[2 * k - 2] == h[2 * k - 2] && g[2 * k - 1] == h[2 * k - 1];
      }
    }
  }

  lemma StoreIsStored(h: seq<u8>, j: nat, c: u16)
    requires 2 * j + 2 <= |h| && h[2 * j] == 0 && h[2 * j + 1] == 0
    ensures Stored(h, Store(h, 2 * j, c), j, c)
  {
    assert c / 256 * 256 + c % 256 == c;
  }

  lemma VerifiesWhenStored(h: seq<u8>, g: seq<u8>, j: nat, c: u16)
    requires Stored(h, g, j, c) && c == Checksum(h)
    ensures Checksum(g) == 0
  {
    StoreAddsToSum(h, g, j, c, |h| / 2);
    SumCompletes(Total(h));
  }

  /** For every buffer of any length and every aligned field holding zero: with its checksum stored there, the
      buffer sums to all ones. */
  lemma StoredChecksumVerifies(h: seq<u8>, at: nat)
    requires at % 2 == 0 && at + 2 <= |h| && h[at] == 0 && h[at + 1] == 0
    ensures Checksum(Store(h, at, Checksum(h))) == 0
  {
    StoreIsStored(h, at / 2, Checksum(h));
    VerifiesWhenStored(h, Store(h, at, Checksum(h)), at / 2, Checksum(h));
  }

  /** Adding its complement to any sum leaves a sum whose complement is zero. */
  lemma SumCompletes(sum: nat)
    ensures Complement(sum + Complement(sum)) == 0
  {
    ComplementCompletes(sum % 0x1_0000_0000);
    ModAdd32(sum, Complement(sum));
  }

  /** A 32-bit sum plus its complement stays in 32 bits, and folds to all ones. */
  lemma ComplementCompletes(w: u32)
    ensures w + (65535 - Ones(w)) < 0x1_0000_0000
    ensures Ones(w + (65535 - Ones(w))) == 65535
  {
    if w > 0 {
      var q := (w - 1) / 65535;
      assert w - 1 == 65535 * q + (w - 1) % 65535;
      assert w + (65535 - Ones(w)) - 1 == 65534 + 65535 * q;
      ModShift(65534, q, 65535);
    }
  }

  lemma ModAdd32(a: nat, c: nat)
    requires a % 0x1_0000_0000 + c < 0x1_0000_0000
    ensures (a + c) % 0x1_0000_0000 == a % 0x1_0000_0000 + c
  {
  }

  // ------------------------------------------------------------------ agreement with the standard

  lemma {:induction false} SumBound(h: seq<u8>, k: nat)
    requires 2 * k <= |h|
    ensures WordSum(h, k) <= 65535 * k
  {
    if k > 0 {
      SumBound(h, k - 1);
    }
  }

  /** Up to 65537 words the 32-bit sum cannot overflow, and the result is the standard's. */
  lemma AgreesWithRfc(h: seq<u8>)
    requires |h| / 2 <= 65537
    ensures Checksum(h) == Rfc1071(h)
  {
    SumBound(h, |h| / 2);
  }

  /** 65538 words of ones, then zeros. */
  ghost predicate Overflowing(h: seq<u8>) {
    |h| / 2 >= 65538 && forall i :: 0 <= i < 2 * (|h| / 2) ==> h[i] == if i < 2 * 65538 then 255 else 0
  }

  lemma {:induction false} OverflowingSum(h: seq<u8>, k: nat)
    requires Overflowing(h) && k <= |h| / 2
    ensures WordSum(h, k) == 65535 * (if k < 65538 then k else 65538)
  {
    if k > 0 {
      OverflowingSum(h, k - 1);
      assert h[2 * k - 2] == h[2 * k - 1] == if k <= 65538 then 255 else 0;
    }
  }

  /** From one word more on, at every length, the sum can overflow, and then the results differ. */
  lemma DiffersFromRfcBeyond(h: seq<u8>)
    requires Overflowing(h)
    ensures Checksum(h) == 1 && Rfc1071(h) == 0
  {
    OverflowingSum(h, |h| / 2);
    assert Total(h) == 0x1_0000_0000 + 65534;
  }

  /** The result is the standard's for every buffer of k words exactly when k is at most 65537. */
  lemma RfcAgreementExactly(k: nat)
    ensures k <= 65537 <==> forall h: seq<u8> :: |h| / 2 == k ==> Checksum(h) == Rfc1071(h)
  {
    if k <= 65537 {
      forall h: seq<u8> | |h| / 2 == k ensures Checksum(h) == Rfc1071(h) {
        AgreesWithRfc(h);
      }
    } else {
      var h: seq<u8> := seq(2 * k, i => if i < 2 * 65538 then 255 else 0);
      DiffersFromRfcBeyond(h);
    }
  }
}
