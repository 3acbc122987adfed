/** Which channel a flow gets (WritePacket's choice from `order` in internal/transport/tunnel.go). */
module Striping {
  import opened Bytes
  import opened Failover
  import opened Flow
  import opened Lifecycle
  import opened Lists
  import opened Modular
  import opened Wrappers

  /** The hashes that choose entry j on the first try: exactly those that leave j when divided by the number of entries. */
  lemma ChoosesExactly(order: seq<int>, h: u32, j: nat)
    requires NoDup(order) && j < |order|
    ensures Pick(order, h, 0) == order[j] <==> h % |order| == j
  {
    var k := h % |order|;
    assert Pick(order, h, 0) == order[k];
    if k < j {
      assert order[k] != order[j];
    } else if j < k {
      assert order[j] != order[k];
    }
  }

  /** So every entry is some hash's choice. */
  lemma EveryEntryIsChosen(order: seq<int>, j: nat) returns (h: u32)
    requires NoDup(order) && j < |order| <= 0x1_0000_0000
    ensures Pick(order, h, 0) == order[j]
  {
    h := j;
    ModUnique(h, |order|, 0, j);
    ChoosesExactly(order, h, j);
  }

  lemma SameChoiceExactly(order: seq<int>, g: u32, h: u32)
    requires NoDup(order) && order != []
    ensures Pick(order, g, 0) == Pick(order, h, 0) <==> g % |order| == h % |order|
  {
    ChoosesExactly(order, g, h % |order|);
    ChoosesExactly(order, h, h % |order|);
  }

  /** With 2^k channels, flows that differ in one byte are put on the same channel exactly when that byte agrees modulo
      the number of channels. */
  lemma SameChannelExactly(order: seq<int>, p: Packet, q: Packet, i: nat, k: nat)
    requires NoDup(order) && k <= 32 && |order| == Pow(2, k) && order != []
    requires FlowKey(p).Some? && FlowKey(q).Some? && DifferOnlyAt(FlowKey(p).value, FlowKey(q).value, i)
    ensures Pick(order, HashOf(FlowKey(p)), 0) == Pick(order, HashOf(FlowKey(q)), 0)
            <==> FlowKey(p).value[i] % |order| == FlowKey(q).value[i] % |order|
  {
    SameChoiceExactly(order, HashOf(FlowKey(p)), HashOf(FlowKey(q)));
    OneByteSpread(p, q, i, k);
  }

  /** The entry whose position is the hash modulo the number of entries. */
  function Chosen(order: seq<int>, h: u32): int
    requires order != []
  {
    order[h % |order|]
  }

  lemma FirstPick(order: seq<int>, h: u32)
    requires order != []
    ensures Pick(order, h, 0) == Chosen(order, h)
  {
  }

  /** The loop ends at its first choice if that channel takes the packet. */
  lemma FirstChoiceIsUsed<C>(t: Core<C>, h: u32, good: set<int>)
    ensures t.order != [] && Chosen(t.order, h) in good ==> Attempt(t, h, good, 0) == (t, Some(Chosen(t.order, h)))
  {
    if t.order != [] {
      FirstPick(t.order, h);
      AttemptTurn(t, h, good, 0);
    }
  }

  /** The same of the channel a write reports: on a tunnel of 2^k channels that all take the two packets. */
  lemma SameChannelUsedExactly<C>(t: Core<C>, p: Packet, q: Packet, good: set<int>, i: nat, k: nat)
    requires Listed(t) && NoDup(t.order) && t.channels.Keys <= good
    requires k <= 32 && |t.order| == Pow(2, k) && t.order != []
    requires FlowKey(p).Some? && FlowKey(q).Some? && DifferOnlyAt(FlowKey(p).value, FlowKey(q).value, i)
    ensures var g, h := HashOf(FlowKey(p)), HashOf(FlowKey(q));
            && Attempt(t, g, good, 0).1.Some? && Attempt(t, h, good, 0).1.Some?
            && (Attempt(t, g, good, 0).1 == Attempt(t, h, good, 0).1
                <==> FlowKey(p).value[i] % |t.order| == FlowKey(q).value[i] % |t.order|)
  {
    var g, h := HashOf(FlowKey(p)), HashOf(FlowKey(q));
    ListedAt(t, g % |t.order|);
    ListedAt(t, h % |t.order|);
    FirstChoiceIsUsed(t, g, good);
    FirstChoiceIsUsed(t, h, good);
    SameChannelExactly(t.order, p, q, i, k);
  }

  // ------------------------------------------------------------------ the choices of later tries

  /** The sum of hash and try, in 32 bits. */
  function Wrapped(h: u32, tries: nat): nat
    requires tries <= 4
  {
    if h + tries < 0x1_0000_0000 then h + tries else h + tries - 0x1_0000_0000
  }

  lemma WrappedIs(h: u32, tries: nat)
    requires tries <= 4
    ensures Wrapped(h, tries) == (h + tries) % 0x1_0000_0000
  {
  }

  /** Where a try looks. */
  lemma TryLooksAt(order: seq<int>, h: u32, tries: nat, j: nat)
    requires NoDup(order) && tries <= 4 && j < |order|
    ensures Pick(order, h, tries) == order[j] <==> Wrapped(h, tries) % |order| == j
  {
    WrappedIs(h, tries);
    var k := Wrapped(h, tries) % |order|;
    assert Pick(order, h, tries) == order[k];
    if k < j {
      assert order[k] != order[j];
    } else if j < k {
      assert order[j] != order[k];
    }
  }

  lemma NextResidue(a: nat, n: nat)
    requires n > 0
    ensures (a + 1) % n == if a % n + 1 == n then 0 else a % n + 1
  {
    var q, r := a / n, a % n;
    if r + 1 == n {
      assert a + 1 == n * (q + 1) + 0;
      ModUnique(a + 1, n, q + 1, 0);
    } else {
      ModUnique(a + 1, n, q, r + 1);
    }
  }

  lemma NearResidues(a: nat, d: nat, n: nat)
    requires 0 < d < n
    ensures a % n != (a + d) % n
  {
    var q, r := a / n, a % n;
    if r + d < n {
      ModUnique(a + d, n, q, r + d);
    } else {
      assert a + d == n * (q + 1) + (r + d - n);
      ModUnique(a + d, n, q + 1, r + d - n);
    }
  }

  /** The next place, cyclically. */
  function After(j: nat, n: nat): nat {
    if j + 1 == n then 0 else j + 1
  }

  lemma NextPlace(h: u32, tries: nat, n: nat)
    requires n > 0 && tries < 4
    ensures Wrapped(h, tries + 1) % n == After(Wrapped(h, tries) % n, n)
            <==> h + tries + 1 != 0x1_0000_0000 || 0x1_0000_0000 % n == 0
  {
    NextResidue(Wrapped(h, tries), n);
    if h + tries + 1 == 0x1_0000_0000 {
      ModUnique(0, n, 0, 0);
    }
  }

  /** While `order` is unchanged the next try moves to the next entry, cyclically, except where the sum of hash and try
      wraps at 2^32 and the number of entries does not divide that. */
  lemma NextTryExactly(order: seq<int>, h: u32, tries: nat, j: nat)
    requires NoDup(order) && tries < 4 && j < |order| && Pick(order, h, tries) == order[j]
    ensures Pick(order, h, tries + 1) == order[if j + 1 == |order| then 0 else j + 1]
            <==> h + tries + 1 != 0x1_0000_0000 || 0x1_0000_0000 % |order| == 0
  {
    TryLooksAt(order, h, tries, j);
    TryLooksAt(order, h, tries + 1, After(j, |order|));
    NextPlace(h, tries, |order|);
  }

  /** So, short of that, the four tries on an unchanged `order` of at least four are four different entries. */
  lemma FourTriesDiffer(order: seq<int>, h: u32, a: nat, b: nat)
    requires NoDup(order) && |order| >= 4 && a < b < 4 && h + 3 < 0x1_0000_0000
    ensures Pick(order, h, a) != Pick(order, h, b)
  {
    var n := |order|;
    var j := Wrapped(h, a) % n;
    TryLooksAt(order, h, a, j);
    TryLooksAt(order, h, b, j);
    NearResidues(Wrapped(h, a), b - a, n);
  }
}
