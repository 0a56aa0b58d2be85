/** Several devices behind one address space: crates/kiseki-block/src/pool.rs. */
module Pool {
  import opened Base
  import opened FreeList
  import opened Allocator
  import opened Device
  import opened Superblock
  import opened Sorting

  datatype Tier = Fast | Bulk | Cold {
    function Rank(): nat {
      match this
      case Fast => 0
      case Bulk => 1
      case Cold => 2
    }
  }

  function TotalBytes(d: Device): nat { d.blocks.total * d.blocks.blockSize }

  function FreeBytes(d: Device): nat { Sum(d.blocks.freeList, d.blocks.total) * d.blocks.blockSize }

  predicate Usable(members: seq<Device>) { forall i :: 0 <= i < |members| ==> members[i].blocks.blockSize > 0 }

  /* ---------------------------------------------------------------- the address space */

  function SaturatingAdd(a: nat, b: nat): nat { if a + b < U64 then a + b else U64 - 1 }

  /** Where the n-th slice starts; the n-th past the last is the total. */
  function StartOf(members: seq<Device>, n: nat): nat
    requires n <= |members|
  {
    if n == 0 then 0 else SaturatingAdd(StartOf(members, n - 1), TotalBytes(members[n - 1]))
  }

  function Bases(members: seq<Device>, n: nat): (b: seq<nat>)
    requires n <= |members|
    ensures |b| == n && forall i :: 0 <= i < n ==> b[i] == StartOf(members, i)
  {
    if n == 0 then [] else Bases(members, n - 1) + [StartOf(members, n - 1)]
  }

  /** The last slice that starts at or below the offset, among those before the first that starts above it. */
  function RouteFrom(bases: seq<nat>, offset: nat, n: nat): nat
    requires 0 < n <= |bases|
    decreases |bases| - n
  {
    if n < |bases| && bases[n] <= offset then RouteFrom(bases, offset, n + 1) else n - 1
  }

  method Route(bases: seq<nat>, offset: nat) returns (i: nat, local: nat)
    requires bases != [] && bases[0] == 0
    ensures i == RouteFrom(bases, offset, 1) < |bases| && bases[i] + local == offset
  {
    i := 0;
    var n := 0;
    while n < |bases| && bases[n] <= offset
      invariant n <= |bases| && i < |bases| && bases[i] <= offset
      invariant n > 0 ==> i == n - 1 && RouteFrom(bases, offset, n) == RouteFrom(bases, offset, 1)
      invariant n == 0 ==> i == 0
    {
      i := n;
      n := n + 1;
    }
    local := offset - bases[i];
  }

  /* ---------------------------------------------------------------- choosing a member */

  /** The wanted tier first, then by cost. */
  function Class(tiers: seq<Tier>, hint: Option<Tier>, i: nat): nat {
    if i >= |tiers| then 0 else tiers[i].Rank() + if hint.Some? && tiers[i] != hint.value then 3 else 0
  }

  function FreeOf(members: seq<Device>, i: nat): nat { if i < |members| then FreeBytes(members[i]) else 0 }

  /** A better class, or as good and at least as much free space. */
  predicate Better(members: seq<Device>, tiers: seq<Tier>, hint: Option<Tier>, i: nat, j: nat) {
    Class(tiers, hint, i) < Class(tiers, hint, j) ||
    (Class(tiers, hint, i) == Class(tiers, hint, j) && FreeOf(members, i) >= FreeOf(members, j))
  }

  function Prefers(members: seq<Device>, tiers: seq<Tier>, hint: Option<Tier>): (nat, nat) -> bool {
    (i: nat, j: nat) => Better(members, tiers, hint, i, j)
  }

  function Indices(n: nat): (s: seq<nat>)
    ensures |s| == n && forall i :: 0 <= i < n ==> s[i] == i
  {
    if n == 0 then [] else Indices(n - 1) + [n - 1]
  }

  predicate InRange(order: seq<nat>, n: nat) { forall p :: 0 <= p < |order| ==> order[p] < n }

  lemma {:induction false} SameMembers(a: seq<nat>, b: seq<nat>)
    requires multiset(a) == multiset(b)
    ensures |a| == |b| && forall x :: x in a <==> x in b
  {
    assert |multiset(a)| == |a| && |multiset(b)| == |b|;
    forall x
      ensures x in a <==> x in b
    {
      assert x in a <==> x in multiset(a);
      assert x in b <==> x in multiset(b);
    }
  }

  lemma {:induction false} SortedIndices(n: nat, leq: (nat, nat) -> bool)
    requires TotalPreorder(leq)
    ensures var order := Sort(Indices(n), leq);
            |order| == n && InRange(order, n) && Sorted(order, leq) && forall i: nat :: i < n ==> i in order
  {
    var order, all := Sort(Indices(n), leq), Indices(n);
    SortSorts(all, leq);
    SameMembers(order, all);
    forall p | 0 <= p < |order|
      ensures order[p] < n
    {
      assert order[p] in order;
    }
    forall i: nat | i < n
      ensures i in order
    {
      assert all[i] in all;
    }
  }

  /** Members in the order in which they are asked. */
  function Order(members: seq<Device>, tiers: seq<Tier>, hint: Option<Tier>): (order: seq<nat>)
    ensures |order| == |members| && InRange(order, |members|) && forall i: nat :: i < |members| ==> i in order
    ensures Sorted(order, Prefers(members, tiers, hint))
  {
    SortedIndices(|members|, Prefers(members, tiers, hint));
    Sort(Indices(|members|), Prefers(members, tiers, hint))
  }

  function Asked(d: Device, size: nat): (Blocks, Result<Extent, AllocError>)
    requires d.blocks.blockSize > 0
  {
    AllocOp(d.blocks, size + OVERHEAD)
  }

  /** Which members accept a request. */
  function Willing(members: seq<Device>, size: nat, n: nat): (w: seq<bool>)
    requires Usable(members) && n <= |members|
    ensures |w| == n && forall i :: 0 <= i < n ==> w[i] == Asked(members[i], size).1.Ok?
  {
    if n == 0 then [] else Willing(members, size, n - 1) + [Asked(members[n - 1], size).1.Ok?]
  }

  /** The first of the order that accepts. */
  function FirstTaker(willing: seq<bool>, order: seq<nat>, n: nat): (r: Option<nat>)
    requires n <= |order| && InRange(order, |willing|)
    ensures r.Some? ==> r.value < n && willing[order[r.value]]
    ensures forall p :: 0 <= p < (if r.Some? then r.value else n) ==> !willing[order[p]]
  {
    if n == 0 then None
    else
      var earlier := FirstTaker(willing, order, n - 1);
      if earlier.Some? then earlier else if willing[order[n - 1]] then Some(n - 1) else None
  }

  function Taker(members: seq<Device>, size: nat, order: seq<nat>): Option<nat>
    requires Usable(members) && InRange(order, |members|)
  {
    FirstTaker(Willing(members, size, |members|), order, |order|)
  }

  function Allocated(members: seq<Device>, bases: seq<nat>, size: nat, order: seq<nat>): (seq<Device>,
                     Result<Extent, AllocError>)
    requires Usable(members) && |bases| == |members| && InRange(order, |members|)
  {
    match Taker(members, size, order)
    case None =>
      (members, Err(if order == [] then DeviceFull(size, 0) else Asked(members[order[|order| - 1]], size).1.error))
    case Some(p) =>
      var i := order[p];
      var (blocks, r) := Asked(members[i], size);
      (members[i := members[i].(blocks := blocks)], Ok(Extent(bases[i] + r.value.offset, r.value.length)))
  }

  method TryAllocOrdered(members: seq<Device>, bases: seq<nat>, size: nat, order: seq<nat>)
    returns (after: seq<Device>, r: Result<Extent, AllocError>)
    requires Usable(members) && |bases| == |members| && InRange(order, |members|)
    ensures (after, r) == Allocated(members, bases, size, order)
  {
    var lastErr := DeviceFull(size, 0);
    ghost var willing := Willing(members, size, |members|);
    for n := 0 to |order|
      invariant FirstTaker(willing, order, n).None?
      invariant n > 0 ==> Asked(members[order[n - 1]], size).1 == Err(lastErr)
      invariant n == 0 ==> lastErr == DeviceFull(size, 0)
    {
      var i := order[n];
      var (blocks, got) := Asked(members[i], size);
      if got.Ok? {
        TakerStays(willing, order, n, |order|);
        return members[i := members[i].(blocks := blocks)], Ok(Extent(bases[i] + got.value.offset, got.value.length));
      }
      lastErr := got.error;
    }
    return members, Err(lastErr);
  }

  lemma {:induction false} TakerStays(willing: seq<bool>, order: seq<nat>, n: nat, m: nat)
    requires n < m <= |order| && InRange(order, |willing|)
    requires FirstTaker(willing, order, n).None? && willing[order[n]]
    ensures FirstTaker(willing, order, m) == Some(n)
  {
    if n + 1 < m {
      TakerStays(willing, order, n, m - 1);
    }
  }

  /* ---------------------------------------------------------------- what routing and allocation mean */

  function SumOf(members: seq<Device>, n: nat): nat
    requires n <= |members|
  {
    if n == 0 then 0 else SumOf(members, n - 1) + TotalBytes(members[n - 1])
  }

  lemma {:induction false} StartExact(members: seq<Device>, n: nat, m: nat)
    requires n <= m <= |members| && SumOf(members, m) < U64
    ensures StartOf(members, n) == SumOf(members, n) <= SumOf(members, m)
    decreases m, n
  {
    if n < m {
      StartExact(members, n, m - 1);
    } else if n > 0 {
      StartExact(members, n - 1, m - 1);
    }
  }

  lemma {:induction false} RouteFromIs(bases: seq<nat>, offset: nat, n: nat)
    requires 0 < n <= |bases| && bases[n - 1] <= offset
    ensures var i := RouteFrom(bases, offset, n);
            n - 1 <= i < |bases| && bases[i] <= offset && (i + 1 < |bases| ==> bases[i + 1] > offset)
    decreases |bases| - n
  {
    if n < |bases| && bases[n] <= offset {
      RouteFromIs(bases, offset, n + 1);
    }
  }

  /** Routing inverts the translation: an offset inside a member's slice goes to that member, also when some
      members have no capacity at all, as long as the capacities add up below 2^64. */
  lemma {:induction false} RouteInverts(members: seq<Device>, i: nat, local: nat)
    requires i < |members| && local < TotalBytes(members[i]) && SumOf(members, |members|) < U64
    ensures var bases := Bases(members, |members|);
            bases[0] == 0 && RouteFrom(bases, bases[i] + local, 1) == i
  {
    var n, bases := |members|, Bases(members, |members|);
    forall j | 0 <= j < n
      ensures bases[j] == SumOf(members, j)
    {
      StartExact(members, j, n);
    }
    var offset := bases[i] + local;
    RouteFromIs(bases, offset, 1);
    var r := RouteFrom(bases, offset, 1);
    StartExact(members, i + 1, n);
    if r < i {
      SumGrows(members, r + 1, i);
    } else if i < r {
      SumGrows(members, i + 1, r);
    }
  }

  lemma {:induction false} SumGrows(members: seq<Device>, a: nat, b: nat)
    requires a <= b <= |members|
    ensures SumOf(members, a) <= SumOf(members, b)
  {
    if a < b {
      SumGrows(members, a, b - 1);
    }
  }

  /** Byte ranges inside the slices of different members do not meet. */
  lemma {:induction false} SlicesApart(members: seq<Device>, i: nat, x: Extent, j: nat, y: Extent)
    requires i < j < |members| && SumOf(members, |members|) < U64
    requires x.offset + x.length <= TotalBytes(members[i]) && y.offset + y.length <= TotalBytes(members[j])
    ensures var bases := Bases(members, |members|); bases[i] + x.offset + x.length <= bases[j] + y.offset
  {
    StartExact(members, i, |members|);
    StartExact(members, j, |members|);
    SumGrows(members, i + 1, j);
  }

  /** The first of a sorted order that accepts ranks ahead of every other that would. */
  lemma {:induction false} TakerBest(order: seq<nat>, leq: (nat, nat) -> bool, willing: seq<bool>)
    requires Sorted(order, leq) && InRange(order, |willing|) && (forall i: nat :: i < |willing| ==> i in order)
    requires forall i: nat :: leq(i, i)
    ensures var p := FirstTaker(willing, order, |order|);
            && (p.None? <==> forall j :: 0 <= j < |willing| ==> !willing[j])
            && (p.Some? ==> forall j: nat :: j < |willing| && willing[j] ==> leq(order[p.value], j))
  {
    var p := FirstTaker(willing, order, |order|);
    forall j: nat | j < |willing| && willing[j]
      ensures p.Some? && leq(order[p.value], j)
    {
      assert j in order;
      var q :| 0 <= q < |order| && order[q] == j;
      assert p.Some? && p.value <= q;
    }
  }

  /** An allocation fails exactly when every member refuses. Otherwise one member takes it, nobody else changes,
      and it ranks ahead of every other member that would have accepted. */
  lemma {:induction false} PoolAllocExact(members: seq<Device>, tiers: seq<Tier>, size: nat, hint: Option<Tier>)
    returns (i: nat)
    requires Usable(members) && |tiers| == |members|
    ensures var bases := Bases(members, |members|);
            var (after, r) := Allocated(members, bases, size, Order(members, tiers, hint));
            && (r.Err? <==> forall j :: 0 <= j < |members| ==> Asked(members[j], size).1.Err?)
            && (r.Err? ==> after == members)
            && (r.Ok? ==>
                  && i < |members| && Asked(members[i], size).1.Ok?
                  && r.value.offset == bases[i] + Asked(members[i], size).1.value.offset
                  && r.value.length == Asked(members[i], size).1.value.length
                  && after == members[i := members[i].(blocks := Asked(members[i], size).0)]
                  && (forall j: nat :: j < |members| && Asked(members[j], size).1.Ok? ==> Better(members, tiers, hint, i, j)))
  {
    var order := Order(members, tiers, hint);
    var willing := Willing(members, size, |members|);
    TakerBest(order, Prefers(members, tiers, hint), willing);
    var p := FirstTaker(willing, order, |order|);
    i := if p.Some? then order[p.value] else 0;
  }

  /** Ranking ahead means: not outside the hinted tier while the other is inside; without a hint, not in a slower
      tier; in the same tier, not with less free space. */
  lemma {:induction false} BetterMeans(members: seq<Device>, tiers: seq<Tier>, hint: Option<Tier>, i: nat, j: nat)
    requires |tiers| == |members| && i < |members| && j < |members| && Better(members, tiers, hint, i, j)
    ensures hint.Some? && tiers[j] == hint.value ==> tiers[i] == hint.value
    ensures hint.None? ==> tiers[i].Rank() <= tiers[j].Rank()
    ensures tiers[i] == tiers[j] ==> FreeBytes(members[i]) >= FreeBytes(members[j])
  {
  }

  /* ---------------------------------------------------------------- the pool object */

  predicate Addressed(members: seq<Device>, bases: seq<nat>) { |members| == |bases| > 0 && bases[0] == 0 }

  /** The member an extent belongs to, and the extent as that member knows it. */
  function Local(bases: seq<nat>, e: Extent): (r: (nat, Extent))
    requires |bases| > 0 && bases[0] == 0
    ensures r.0 < |bases|
  {
    RouteFromIs(bases, e.offset, 1);
    var i := RouteFrom(bases, e.offset, 1);
    (i, Extent(e.offset - bases[i], e.length))
  }

  function Wrote(crc: Bytes -> u32, members: seq<Device>, bases: seq<nat>, e: Extent, data: Bytes, reach: Option<nat>)
    : (seq<Device>, Result<(), IoError>)
    requires Addressed(members, bases)
  {
    var (i, local) := Local(bases, e);
    var (d, r) := Written(crc, members[i], local, data, reach);
    (members[i := d], r)
  }

  function ReadFrom(crc: Bytes -> u32, members: seq<Device>, bases: seq<nat>, e: Extent): Result<Bytes, IoError>
    requires Addressed(members, bases)
  {
    var (i, local) := Local(bases, e);
    ReadBack(crc, members[i], local)
  }

  function Freed(members: seq<Device>, bases: seq<nat>, e: Extent): seq<Device>
    requires Addressed(members, bases) && Usable(members)
  {
    var (i, local) := Local(bases, e);
    members[i := members[i].(blocks := FreeOp(members[i].blocks, local).0)]
  }

  class DevicePool {
    const crc: Bytes -> u32
    const tiers: seq<Tier>
    var bases: seq<nat>
    var members: seq<Device>
    var totalBytes: nat

    predicate Valid()
      reads this
    {
      Usable(members) && Addressed(members, bases) && |tiers| == |members|
    }

    /** Slices are laid end to end, saturating. */
    constructor (crc: Bytes -> u32, members: seq<Device>, tiers: seq<Tier>)
      requires members != [] && Usable(members) && |tiers| == |members|
      ensures Valid() && this.members == members && this.crc == crc && this.tiers == tiers
      ensures bases == Bases(members, |members|) && totalBytes == StartOf(members, |members|)
    {
      this.crc, this.tiers, this.members := crc, tiers, members;
      var acc, starts: seq<nat> := 0, [];
      for n := 0 to |members|
        invariant acc == StartOf(members, n) && starts == Bases(members, n)
      {
        starts := starts + [acc];
        acc := SaturatingAdd(acc, TotalBytes(members[n]));
      }
      this.bases, this.totalBytes := starts, acc;
    }

    method AllocInTier(size: nat, hint: Option<Tier>) returns (r: Result<Extent, AllocError>)
      requires Valid()
      modifies this`members
      ensures Valid() && (members, r) == Allocated(old(members), bases, size, Order(old(members), tiers, hint))
    {
      var order := Order(members, tiers, hint);
      var after, got := TryAllocOrdered(members, bases, size, order);
      AllocKeepsUsable(members, bases, size, order);
      members := after;
      return got;
    }

    method Write(e: Extent, data: Bytes, reach: Option<nat>) returns (r: Result<(), IoError>)
      requires Valid()
      modifies this`members
      ensures Valid() && (members, r) == Wrote(crc, old(members), bases, e, data, reach)
    {
      var i, local := Route(bases, e.offset);
      var (d, got) := Written(crc, members[i], Extent(local, e.length), data, reach);
      members := members[i := d];
      return got;
    }

    method Read(e: Extent) returns (r: Result<Bytes, IoError>)
      requires Valid()
      ensures r == ReadFrom(crc, members, bases, e)
    {
      var i, local := Route(bases, e.offset);
      return ReadBack(crc, members[i], Extent(local, e.length));
    }

    method Free(e: Extent) returns (r: Result<(), AllocError>)
      requires Valid()
      modifies this`members
      ensures Valid() && members == Freed(old(members), bases, e)
      ensures r == FreeOp(old(members)[Local(bases, e).0].blocks, Local(bases, e).1).1
    {
      var i, local := Route(bases, e.offset);
      var (blocks, got) := FreeOp(members[i].blocks, Extent(local, e.length));
      members := members[i := members[i].(blocks := blocks)];
      return got;
    }
  }

  /** A pool needs at least one member. */
  method New(crc: Bytes -> u32, members: seq<Device>, tiers: seq<Tier>) returns (r: Result<DevicePool, BlockError>)
    requires Usable(members) && |tiers| == |members|
    ensures r.Err? <==> members == []
    ensures r.Err? ==> r.error == NotInitialized
    ensures r.Ok? ==> r.value.Valid() && r.value.members == members && r.value.bases == Bases(members, |members|)
  {
    if members == [] {
      return Err(NotInitialized);
    }
    var pool := new DevicePool(crc, members, tiers);
    return Ok(pool);
  }

  lemma {:induction false} AllocKeepsUsable(members: seq<Device>, bases: seq<nat>, size: nat, order: seq<nat>)
    requires Usable(members) && |bases| == |members| && InRange(order, |members|)
    ensures var after := Allocated(members, bases, size, order).0; |after| == |members| && Usable(after)
  {
  }
}
