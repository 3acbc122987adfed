/** Counter-nonce AEAD streams (internal/crypto/crypto.go) over an idealised cipher. */
module Aead {
  import opened Bytes
  import opened Wrappers

  const NONCE_SIZE := 12
  const TAG_SIZE := 16
  const MAX_COUNTER: u64 := 0xFFFF_FFFF_FFFF_FFFF

  /** An idealised HKDF output: the term says what it was derived from. */
  datatype Key = Derived(secret: seq<u8>, salt: seq<u8>, info: string)

  /** An idealised ciphertext: the term says which key, nonce and plaintext made it. */
  datatype Sealed = Sealed(key: Key, nonce: seq<u8>, plain: seq<u8>) {
    /** Bytes on the wire. */
    function Size(): nat {
      |plain| + TAG_SIZE
    }
  }

  datatype CipherError = CounterExhausted | AuthenticationFailed

  /** What one direction of a connection remembers. */
  datatype Stream = Stream(key: Key, counter: u64)

  /** Four zero bytes, then the counter. */
  function NonceAt(counter: u64): seq<u8> {
    [0, 0, 0, 0] + BigEndian(counter, 8)
  }

  function SealStep(s: Stream, plain: seq<u8>): (Stream, Result<Sealed, CipherError>) {
    if s.counter == MAX_COUNTER then (s, Err(CounterExhausted))
    else (s.(counter := s.counter + 1), Ok(Sealed(s.key, NonceAt(s.counter), plain)))
  }

  /** The counter moves even when authentication fails. */
  function OpenStep(s: Stream, c: Sealed): (Stream, Result<seq<u8>, CipherError>) {
    if s.counter == MAX_COUNTER then (s, Err(CounterExhausted))
    else
      (s.(counter := s.counter + 1),
       if c.key == s.key && c.nonce == NonceAt(s.counter) then Ok(c.plain) else Err(AuthenticationFailed))
  }

  /** The 12-byte nonce buffer; its first four bytes stay zero. */
  type Nonce = n: seq<u8> | |n| == NONCE_SIZE && n[..4] == [0, 0, 0, 0] witness seq(NONCE_SIZE, _ => 0)

  class AeadStream {
    const key: Key
    var counter: u64
    var nonce: Nonce

    ghost function State(): Stream
      reads this
    {
      Stream(key, counter)
    }

    constructor (key: Key)
      ensures State() == Stream(key, 0)
    {
      this.key := key;
      counter := 0;
      nonce := seq(NONCE_SIZE, _ => 0);
    }

    /** Writes the next nonce into the buffer, unless the counter is used up. */
    method Advance() returns (ok: bool)
      modifies this
      ensures ok == (old(counter) != MAX_COUNTER)
      ensures ok ==> nonce == NonceAt(old(counter)) && counter == old(counter) + 1
      ensures !ok ==> nonce == old(nonce) && counter == old(counter)
    {
      if counter == MAX_COUNTER {
        return false;
      }
      nonce := nonce[..4] + BigEndian(counter, 8);
      counter := counter + 1;
      ok := true;
    }

    method Seal(plain: seq<u8>) returns (r: Result<Sealed, CipherError>)
      modifies this
      ensures (State(), r) == SealStep(old(State()), plain)
    {
      var ok := Advance();
      if !ok {
        return Err(CounterExhausted);
      }
      r := Ok(Sealed(key, nonce, plain));
    }

    method Open(c: Sealed) returns (r: Result<seq<u8>, CipherError>)
      modifies this
      ensures (State(), r) == OpenStep(old(State()), c)
    {
      var ok := Advance();
      if !ok {
        return Err(CounterExhausted);
      }
      r := if c.key == key && c.nonce == nonce then Ok(c.plain) else Err(AuthenticationFailed);
    }
  }

  // ------------------------------------------------------------------ whole runs

  /** The results of sealing a list of plaintexts one after the other. */
  function SealRun(s: Stream, plains: seq<seq<u8>>): seq<Result<Sealed, CipherError>>
    decreases |plains|
  {
    if plains == [] then []
    else
      var (s', r) := SealStep(s, plains[0]);
      [r] + SealRun(s', plains[1..])
  }

  function OpenRun(s: Stream, cs: seq<Sealed>): seq<Result<seq<u8>, CipherError>>
    decreases |cs|
  {
    if cs == [] then []
    else
      var (s', r) := OpenStep(s, cs[0]);
      [r] + OpenRun(s', cs[1..])
  }

  lemma NonceInjective(a: u64, b: u64)
    requires NonceAt(a) == NonceAt(b)
    ensures a == b
  {
    WordSizes();
    assert NonceAt(a)[4..] == BigEndian(a, 8) && NonceAt(b)[4..] == BigEndian(b, 8);
    BigEndianInjective(a, b, 8);
  }

  /** A nonce is four zero bytes and the counter, most significant byte first. */
  lemma NonceIsTheCounter(counter: u64)
    ensures NonceAt(counter)[..4] == [0, 0, 0, 0] && Value(NonceAt(counter)[4..]) == counter
  {
    WordSizes();
    ValueOfBigEndian(counter, 8);
    assert NonceAt(counter)[4..] == BigEndian(counter, 8);
  }

  /** Call i succeeds exactly while the counter has not reached its maximum, with the i-th nonce. */
  lemma {:induction false} SealRunShape(s: Stream, plains: seq<seq<u8>>, i: nat)
    requires i < |plains|
    ensures |SealRun(s, plains)| == |plains|
    ensures SealRun(s, plains)[i] ==
            if s.counter + i < MAX_COUNTER then Ok(Sealed(s.key, NonceAt(s.counter + i), plains[i]))
            else Err(CounterExhausted)
    decreases |plains|
  {
    var (s', r) := SealStep(s, plains[0]);
    if |plains| > 1 {
      SealRunShape(s', plains[1..], if i == 0 then 0 else i - 1);
    }
  }

  /** No nonce is used twice, however many records are sealed. */
  lemma NoncesNeverRepeat(s: Stream, plains: seq<seq<u8>>, i: nat, j: nat)
    requires i < j < |plains|
    ensures |SealRun(s, plains)| == |plains|
    ensures var r := SealRun(s, plains); r[i].Ok? && r[j].Ok? ==> r[i].value.nonce != r[j].value.nonce
  {
    SealRunShape(s, plains, i);
    SealRunShape(s, plains, j);
    if s.counter + j < MAX_COUNTER && NonceAt(s.counter + i) == NonceAt(s.counter + j) {
      NonceInjective(s.counter + i, s.counter + j);
    }
  }

  /** A fresh stream seals exactly 2^64 - 1 records; every later call fails, with no wrap-around. */
  lemma SealsUntilExhausted(key: Key, plains: seq<seq<u8>>, i: nat)
    requires i < |plains|
    ensures |SealRun(Stream(key, 0), plains)| == |plains|
    ensures SealRun(Stream(key, 0), plains)[i].Ok? <==> i < 0xFFFF_FFFF_FFFF_FFFF
  {
    SealRunShape(Stream(key, 0), plains, i);
  }

  /** Record i opens exactly when it carries the key and the i-th nonce: strictly in sealing order, whatever came
      before it. */
  lemma {:induction false} OpensExactlyInOrder(s: Stream, cs: seq<Sealed>, i: nat)
    requires i < |cs|
    ensures |OpenRun(s, cs)| == |cs|
    ensures OpenRun(s, cs)[i].Ok? <==>
            s.counter + i < MAX_COUNTER && cs[i].key == s.key && cs[i].nonce == NonceAt(s.counter + i)
    ensures OpenRun(s, cs)[i].Ok? ==> OpenRun(s, cs)[i].value == cs[i].plain
    decreases |cs|
  {
    var (s', r) := OpenStep(s, cs[0]);
    if |cs| > 1 {
      OpensExactlyInOrder(s', cs[1..], if i == 0 then 0 else i - 1);
    }
  }
}
