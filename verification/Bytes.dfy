/** Results, machine words and their big-endian encoding (encoding/binary), shared by every module. */
module Wrappers {
  datatype Option<+T> = None | Some(value: T)

  datatype Result<+T, +E> = Ok(value: T) | Err(error: E)
}

module Bytes {
  type u8 = x: int | 0 <= x < 0x100
  type u16 = x: int | 0 <= x < 0x1_0000
  type u32 = x: int | 0 <= x < 0x1_0000_0000
  type u64 = x: int | 0 <= x < 0x1_0000_0000_0000_0000
  type i64 = x: int | -0x8000_0000_0000_0000 <= x < 0x8000_0000_0000_0000

  /** An IP packet. */
  type Packet = seq<u8>

  /** A 32-byte array: a key, a public value or a shared secret. */
  type Key32 = k: seq<u8> | |k| == 32 witness seq(32, _ => 0)

  function Pow(b: nat, n: nat): nat {
    if n == 0 then 1 else b * Pow(b, n - 1)
  }

  /** The low n bytes of x, most significant first: what PutUint16/32/64 store. */
  function BigEndian(x: nat, n: nat): (s: seq<u8>)
    ensures |s| == n
  {
    if n == 0 then [] else BigEndian(x / 256, n - 1) + [x % 256]
  }

  /** The number a big-endian byte string denotes: what Uint16/32/64 read. */
  function Value(s: seq<u8>): nat {
    if s == [] then 0 else 256 * Value(s[..|s| - 1]) + s[|s| - 1]
  }

  lemma {:induction false} ValueOfBigEndian(x: nat, n: nat)
    requires x < Pow(256, n)
    ensures Value(BigEndian(x, n)) == x
  {
    if n > 0 {
      ValueOfBigEndian(x / 256, n - 1);
      var s := BigEndian(x, n);
      assert s[..|s| - 1] == BigEndian(x / 256, n - 1);
    }
  }

  lemma {:induction false} BigEndianOfValue(s: seq<u8>)
    ensures Value(s) < Pow(256, |s|)
    ensures BigEndian(Value(s), |s|) == s
  {
    if s != [] {
      BigEndianOfValue(s[..|s| - 1]);
    }
  }

  lemma BigEndianInjective(x: nat, y: nat, n: nat)
    requires x < Pow(256, n) && y < Pow(256, n)
    requires BigEndian(x, n) == BigEndian(y, n)
    ensures x == y
  {
    ValueOfBigEndian(x, n);
    ValueOfBigEndian(y, n);
  }

  lemma WordSizes()
    ensures Pow(256, 4) == 0x1_0000_0000
    ensures Pow(256, 8) == 0x1_0000_0000_0000_0000
  {
    assert Pow(256, 4) == 256 * (256 * (256 * (256 * Pow(256, 0))));
    assert Pow(256, 8) == 256 * (256 * (256 * (256 * Pow(256, 4))));
  }

  /** Two bytes of a big-endian 16-bit word, and back. */
  function Put16(x: nat): seq<u8> {
    [x / 256 % 256, x % 256]
  }

  function Get16(hi: u8, lo: u8): u16 {
    hi as int * 256 + lo as int
  }
}
