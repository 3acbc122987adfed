/** The tunnel address pool (internal/server/pool.go). */
module Pool {
  import opened Address
  import opened Bytes
  import opened Lists
  import opened Modular
  import opened Wrappers

  datatype PoolState = PoolState(free: seq<u32>, used: set<u32>)

  function Alloc(p: PoolState): (PoolState, Option<u32>) {
    if p.free == [] then (p, None)
    else
      var ip := p.free[|p.free| - 1];
      (PoolState(p.free[..|p.free| - 1], p.used + {ip}), Some(ip))
  }

  /** The body of a release closure. */
  function Release(p: PoolState, ip: u32): PoolState {
    if ip in p.used then PoolState(p.free + [ip], p.used - {ip}) else p
  }

  /** Free and used addresses are distinct and together are always the same set of hosts. */
  ghost predicate Partition(p: PoolState, hosts: set<u32>) {
    && NoDup(p.free)
    && (forall ip :: ip in p.free ==> ip !in p.used)
    && (forall ip :: ip in hosts <==> ip in p.free || ip in p.used)
  }

  lemma AllocKeepsPartition(p: PoolState, hosts: set<u32>)
    requires Partition(p, hosts)
    ensures var (p', r) := Alloc(p);
            && Partition(p', hosts)
            && (r.None? <==> p.used == hosts)
            && (r.Some? ==> r.value in hosts && r.value !in p.used && p'.used == p.used + {r.value})
  {
    if p.free != [] {
      var n := |p.free| - 1;
      assert p.free == p.free[..n] + [p.free[n]];
      assert p.free[n] in p.free;
    }
  }

  lemma ReleaseKeepsPartition(p: PoolState, hosts: set<u32>, ip: u32)
    requires Partition(p, hosts)
    ensures Partition(Release(p, ip), hosts)
    ensures Release(p, ip).used == p.used - {ip}
  {
  }

  // ------------------------------------------------------------------ the objects

  class IpPool {
    const prefix: nat
    var free: seq<u32>
    var used: set<u32>

    ghost function State(): PoolState
      reads this
    {
      PoolState(free, used)
    }

    constructor (prefix: nat, free: seq<u32>)
      ensures this.prefix == prefix && State() == PoolState(free, {})
    {
      this.prefix, this.free, this.used := prefix, free, {};
    }

    /** Reserves an address: its text, its number and the closure that gives it back. */
    method Reserve() returns (r: Option<(string, u32, Lease)>)
      modifies this
      ensures State() == Alloc(old(State())).0
      ensures match r
              case None => Alloc(old(State())).1 == None
              case Some((cidr, ip, lease)) =>
                && Alloc(old(State())).1 == Some(ip)
                && cidr == PrintCidr(ip, prefix)
                && fresh(lease) && lease.pool == this && lease.ip == ip && !lease.done
    {
      if free == [] {
        return None;
      }
      var ip := free[|free| - 1];
      free := free[..|free| - 1];
      used := used + {ip};
      var lease := new Lease(this, ip);
      r := Some((PrintCidr(ip, prefix), ip, lease));
    }
  }

  /** A release closure with its once-flag. */
  class Lease {
    const pool: IpPool
    const ip: u32
    var done: bool

    constructor (pool: IpPool, ip: u32)
      ensures this.pool == pool && this.ip == ip && !done
    {
      this.pool, this.ip, this.done := pool, ip, false;
    }

    method Fire()
      modifies this, pool
      ensures done
      ensures pool.State() == if old(done) then old(pool.State()) else Release(old(pool.State()), ip)
    {
      if !done {
        done := true;
        if ip in pool.used {
          pool.used := pool.used - {ip};
          pool.free := pool.free + [ip];
        }
      }
    }
  }

  // ------------------------------------------------------------------ construction

  /** The first address of the subnet. */
  function NetworkOf(gw: u32, prefix: nat): u32
    requires prefix <= 32
  {
    PowPositive(2, 32 - prefix);
    ModLeq(gw, Pow(2, 32 - prefix));
    gw - gw % Pow(2, 32 - prefix)
  }

  lemma ModLeq(a: nat, m: nat)
    requires m > 0
    ensures 0 <= a % m <= a
  {
  }

  /** uint32(1) << (32 - prefix): zero when prefix is zero. */
  function Size(prefix: nat): u32
    requires prefix <= 32
  {
    Pow(2, 32 - prefix) % 0x1_0000_0000
  }

  /** The offset the loop stops before: size - 1 in 32 bits. */
  function LastOffset(prefix: nat): u32
    requires prefix <= 32
  {
    (Size(prefix) - 1) % 0x1_0000_0000
  }

  /** The addresses at offsets 1 to n - 1, without the gateway. */
  function HostList(base: u32, gw: u32, n: nat): seq<u32> {
    if n <= 1 then []
    else
      var addr := (base + n - 1) % 0x1_0000_0000;
      HostList(base, gw, n - 1) + (if addr == gw then [] else [addr])
  }

  method NewPool(gw: u32, prefix: nat) returns (r: Option<IpPool>)
    requires prefix <= 32
    ensures var hosts := HostList(NetworkOf(gw, prefix), gw, LastOffset(prefix));
            && (r.None? <==> hosts == [])
            && (r.Some? ==> fresh(r.value) && r.value.prefix == prefix && r.value.State() == PoolState(hosts, {}))
  {
    var free := ListHosts(NetworkOf(gw, prefix), gw, LastOffset(prefix));
    if free == [] {
      return None;
    }
    var pool := new IpPool(prefix, free);
    r := Some(pool);
  }

  /** The constructor's loop. */
  method ListHosts(base: u32, gw: u32, last: nat) returns (free: seq<u32>)
    ensures free == HostList(base, gw, last)
  {
    free := [];
    var off := 1;
    while off < last
      invariant 1 <= off && (off <= last || off == 1)
      invariant free == HostList(base, gw, off)
    {
      var addr := (base + off) % 0x1_0000_0000;
      if addr != gw {
        free := free + [addr];
      }
      off := off + 1;
    }
  }

  lemma {:induction false} PowMonotone(m: nat, n: nat)
    requires m <= n
    ensures 0 < Pow(2, m) <= Pow(2, n)
    decreases n
  {
    PowPositive(2, m);
    if m < n {
      PowMonotone(m, n - 1);
    }
  }

  /** Every subnet size is at most 2^32, and a /0 wraps to the same bound. */
  lemma LastOffsetIs(prefix: nat)
    requires prefix <= 32
    ensures 0 < Pow(2, 32 - prefix) <= 0x1_0000_0000
    ensures LastOffset(prefix) == Pow(2, 32 - prefix) - 1
  {
    PowMonotone(32 - prefix, 32);
    TwoTo32();
    WrappedSize(Pow(2, 32 - prefix));
  }

  lemma WrappedSize(size: nat)
    requires 0 < size <= 0x1_0000_0000
    ensures (size % 0x1_0000_0000 - 1) % 0x1_0000_0000 == size - 1
  {
  }

  /** No address of the subnet overflows 32 bits. */
  lemma SubnetFits(gw: u32, prefix: nat)
    requires prefix <= 32
    ensures NetworkOf(gw, prefix) + Pow(2, 32 - prefix) <= 0x1_0000_0000
    ensures NetworkOf(gw, prefix) <= gw < NetworkOf(gw, prefix) + Pow(2, 32 - prefix)
  {
    LastOffsetIs(prefix);
    PowSplit(2, 32 - prefix, prefix);
    TwoTo32();
    AlignedFits(gw, Pow(2, 32 - prefix), Pow(2, prefix));
  }

  lemma AlignedFits(a: nat, m: nat, k: nat)
    requires m > 0 && a < m * k
    ensures a - a % m + m <= m * k
  {
    var q := a / m;
    assert a == m * q + a % m;
    assert q >= k ==> m * q >= m * k;
    assert q + 1 <= k ==> m * (q + 1) <= m * k;
    assert m * (q + 1) == m * q + m;
  }

  lemma {:induction false} HostListIs(base: u32, gw: u32, n: nat)
    requires base + n <= 0x1_0000_0000
    ensures NoDup(HostList(base, gw, n))
    ensures forall a :: a in HostList(base, gw, n) <==> base < a < base + n && a != gw
    ensures |HostList(base, gw, n)| == (if n <= 1 then 0 else n - 1) - (if base < gw < base + n then 1 else 0)
  {
    if n > 1 {
      HostListIs(base, gw, n - 1);
      var front, addr := HostList(base, gw, n - 1), (base + n - 1) % 0x1_0000_0000;
      assert addr == base + n - 1 && addr !in front;
      assert NoDup(front + [addr]) by {
        AppendNoDup(front, addr);
      }
      assert front + [] == front;
      assert forall a :: a in HostList(base, gw, n) <==> a in front || (a == base + n - 1 && a != gw);
    }
  }

  lemma AppendNoDup(s: seq<u32>, x: u32)
    requires NoDup(s) && x !in s
    ensures NoDup(s + [x])
  {
  }

  predicate IsHost(gw: u32, prefix: nat, a: u32)
    requires prefix <= 32
  {
    NetworkOf(gw, prefix) < a < NetworkOf(gw, prefix) + Pow(2, 32 - prefix) - 1 && a != gw
  }

  /** The addresses handed out: the subnet without its first, its last and the gateway. */
  ghost function Hosts(gw: u32, prefix: nat): set<u32>
    requires prefix <= 32
  {
    set a: u32 | 0 <= a < 0x1_0000_0000 && IsHost(gw, prefix, a)
  }

  /** A new pool holds exactly the hosts, each once; how many there are; and a subnet has none exactly when its
      prefix is 31 or 32. */
  lemma NewPoolHoldsTheHosts(gw: u32, prefix: nat)
    requires prefix <= 32
    ensures var free := HostList(NetworkOf(gw, prefix), gw, LastOffset(prefix));
            var base, size := NetworkOf(gw, prefix), Pow(2, 32 - prefix);
            && Partition(PoolState(free, {}), Hosts(gw, prefix))
            && |free| == (if prefix >= 31 then 0 else size - 2 - (if base < gw < base + size - 1 then 1 else 0))
            && (free == [] <==> prefix >= 31)
  {
    LastOffsetIs(prefix);
    SubnetFits(gw, prefix);
    HostListIs(NetworkOf(gw, prefix), gw, LastOffset(prefix));
    SubnetSizes(prefix);
  }

  lemma SubnetSizes(prefix: nat)
    requires prefix <= 32
    ensures prefix == 32 ==> Pow(2, 32 - prefix) == 1
    ensures prefix == 31 ==> Pow(2, 32 - prefix) == 2
    ensures prefix <= 30 ==> Pow(2, 32 - prefix) >= 4
  {
    if prefix <= 30 {
      PowSplit(2, 2, 30 - prefix);
      PowPositive(2, 30 - prefix);
      assert Pow(2, 2) == 4;
    }
  }

  // ------------------------------------------------------------------ every history of reservations and releases

  /** A reservation made so far: its address, and whether its closure has fired. */
  datatype Grant = Grant(ip: u32, fired: bool)

  datatype History = History(pool: PoolState, grants: seq<Grant>)

  datatype Event = Take | Give(k: nat)

  function Step(h: History, e: Event): History {
    match e
    case Take =>
      var (p, r) := Alloc(h.pool);
      if r.None? then h else History(p, h.grants + [Grant(r.value, false)])
    case Give(k) =>
      if k >= |h.grants| || h.grants[k].fired then h
      else History(Release(h.pool, h.grants[k].ip), h.grants[k := h.grants[k].(fired := true)])
  }

  function Run(h: History, events: seq<Event>): History
    decreases |events|
  {
    if events == [] then h else Run(Step(h, events[0]), events[1..])
  }

  /** The used addresses are exactly those of the unfired grants, one each. */
  ghost predicate Inv(h: History, hosts: set<u32>) {
    && Partition(h.pool, hosts)
    && (forall k :: 0 <= k < |h.grants| && !h.grants[k].fired ==> h.grants[k].ip in h.pool.used)
    && (forall ip :: ip in h.pool.used ==> exists k :: 0 <= k < |h.grants| && !h.grants[k].fired && h.grants[k].ip == ip)
    && (forall j, k :: 0 <= j < k < |h.grants| && !h.grants[j].fired && !h.grants[k].fired ==> h.grants[j].ip != h.grants[k].ip)
  }

  lemma TakeKeepsInv(h: History, hosts: set<u32>)
    requires Inv(h, hosts)
    ensures Inv(Step(h, Take), hosts)
  {
    var h' := Step(h, Take);
    AllocKeepsPartition(h.pool, hosts);
    forall ip | ip in h'.pool.used
      ensures exists k :: 0 <= k < |h'.grants| && !h'.grants[k].fired && h'.grants[k].ip == ip
    {
      if ip in h.pool.used {
        var k :| 0 <= k < |h.grants| && !h.grants[k].fired && h.grants[k].ip == ip;
        assert h'.grants[k] == h.grants[k];
      } else {
        assert h'.grants[|h.grants|].ip == ip;
      }
    }
  }

  lemma GiveKeepsInv(h: History, hosts: set<u32>, k: nat)
    requires Inv(h, hosts) && k < |h.grants| && !h.grants[k].fired
    ensures Inv(Step(h, Give(k)), hosts)
  {
    var h' := Step(h, Give(k));
    ReleaseKeepsPartition(h.pool, hosts, h.grants[k].ip);
    forall ip | ip in h'.pool.used
      ensures exists j :: 0 <= j < |h'.grants| && !h'.grants[j].fired && h'.grants[j].ip == ip
    {
      var j :| 0 <= j < |h.grants| && !h.grants[j].fired && h.grants[j].ip == ip;
      assert h'.grants[j] == h.grants[j];
    }
  }

  lemma StepKeepsInv(h: History, hosts: set<u32>, e: Event)
    requires Inv(h, hosts)
    ensures Inv(Step(h, e), hosts)
  {
    match e
    case Take => TakeKeepsInv(h, hosts);
    case Give(k) =>
      if k < |h.grants| && !h.grants[k].fired {
        GiveKeepsInv(h, hosts, k);
      }
  }

  /** From a new pool on: free and used always partition the hosts, used is exactly the outstanding grants, and a
      reservation fails exactly when all are out. */
  lemma {:induction false} PoolConservation(h: History, hosts: set<u32>, events: seq<Event>)
    requires Inv(h, hosts)
    ensures var h' := Run(h, events);
            && Inv(h', hosts)
            && (Alloc(h'.pool).1.None? <==> h'.pool.used == hosts)
    decreases |events|
  {
    if events == [] {
      AllocKeepsPartition(h.pool, hosts);
    } else {
      StepKeepsInv(h, hosts, events[0]);
      PoolConservation(Step(h, events[0]), hosts, events[1..]);
    }
  }

  /** A closure that has fired stays fired, and firing it again changes nothing, even after its address was handed
      out anew. */
  lemma {:induction false} SecondReleaseDoesNothing(h: History, events: seq<Event>, k: nat)
    requires k < |h.grants| && h.grants[k].fired
    ensures var h' := Run(h, events);
            k < |h'.grants| && h'.grants[k] == h.grants[k] && Step(h', Give(k)) == h'
    decreases |events|
  {
    if events != [] {
      SecondReleaseDoesNothing(Step(h, events[0]), events[1..], k);
    }
  }
}
