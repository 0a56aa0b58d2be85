/** Whole runs of a device pool: reads, writes and frees always reach the member that allocated. */
module PoolRuns {
  import opened Base
  import opened Allocator
  import opened Device
  import opened Pool
  import D = DeviceRuns
  import Ledger

  /** An event names a live extent by its member and its place in that member's list. A member can be flushed, reopened,
      or opened again after a crash on its own; a pool rebuilt over reopened members has the same slices. */
  datatype Event =
    | Take(size: nat, hint: Option<Tier>)
    | Put(m: nat, j: nat, data: Bytes, reach: Option<nat>)
    | Return(m: nat, j: nat)
    | Sync(m: nat)
    | Reopen(m: nat)
    | Crash(m: nat)

  /** What stays the same over a run. */
  datatype Setup = Setup(tiers: seq<Tier>, bases: seq<nat>, units: seq<D.Setup>)

  function Devices(ws: seq<D.World>): (ds: seq<Device>)
    ensures |ds| == |ws| && forall i :: 0 <= i < |ws| ==> ds[i] == ws[i].dev
  {
    if ws == [] then [] else Devices(ws[..|ws| - 1]) + [ws[|ws| - 1].dev]
  }

  predicate IsLive(ws: seq<D.World>, m: nat, j: nat) { m < |ws| && j < |ws[m].live| }

  /** A live extent as the pool's callers know it. */
  function Global(bases: seq<nat>, ws: seq<D.World>, m: nat, j: nat): Extent
    requires IsLive(ws, m, j) && |bases| == |ws|
  {
    var e := ws[m].live[j].ToExtent(ws[m].dev.blocks.blockSize);
    Extent(bases[m] + e.offset, e.length)
  }

  predicate Shaped(u: Setup, ws: seq<D.World>) {
    && |ws| == |u.tiers| == |u.bases| == |u.units| > 0 && u.bases[0] == 0
    && forall i :: 0 <= i < |ws| ==> ws[i].dev.blocks.blockSize > 0 && |ws[i].last| == |ws[i].live|
  }

  /** The devices change as the pool's own operations on global extents change them; the lists of live extents
      and of last payloads are kept beside them. */
  function Step(u: Setup, ws: seq<D.World>, e: Event): seq<D.World>
    requires Shaped(u, ws)
  {
    match e
    case Take(size, hint) =>
      var order := Order(Devices(ws), u.tiers, hint);
      var p := Taker(Devices(ws), size, order);
      if p.None? then ws else ws[order[p.value] := D.Step(u.units[order[p.value]].crc, ws[order[p.value]], D.Take(size))]
    case Put(m, j, data, reach) =>
      if !IsLive(ws, m, j) then ws
      else
        var (ds, r) := Wrote(u.units[m].crc, Devices(ws), u.bases, Global(u.bases, ws, m, j), data, reach);
        WithLast(WithDevices(ws, ds), m, j, D.Lasting(ws[m].last[j], data, r))
    case Return(m, j) =>
      if !IsLive(ws, m, j) then ws
      else Without(WithDevices(ws, Freed(Devices(ws), u.bases, Global(u.bases, ws, m, j))), m, j)
    case Sync(m) => OnMember(u, ws, m, D.Sync)
    case Reopen(m) => OnMember(u, ws, m, D.Reopen)
    case Crash(m) => OnMember(u, ws, m, D.Crash)
  }

  function OnMember(u: Setup, ws: seq<D.World>, m: nat, e: D.Event): seq<D.World>
    requires Shaped(u, ws)
  {
    if m < |ws| then ws[m := D.Step(u.units[m].crc, ws[m], e)] else ws
  }

  function WithDevices(ws: seq<D.World>, ds: seq<Device>): (r: seq<D.World>)
    requires |ws| == |ds|
    ensures |r| == |ws| && forall i :: 0 <= i < |ws| ==> r[i] == ws[i].(dev := ds[i])
  {
    if ws == [] then [] else WithDevices(ws[..|ws| - 1], ds[..|ws| - 1]) + [ws[|ws| - 1].(dev := ds[|ws| - 1])]
  }

  function WithLast(ws: seq<D.World>, m: nat, j: nat, last: Option<Bytes>): seq<D.World>
    requires m < |ws| && j < |ws[m].last|
  {
    ws[m := ws[m].(last := ws[m].last[j := last])]
  }

  function Without(ws: seq<D.World>, m: nat, j: nat): seq<D.World>
    requires m < |ws| && j < |ws[m].live| == |ws[m].last|
  {
    ws[m := ws[m].(live := Delete(ws[m].live, j), last := Delete(ws[m].last, j))]
  }

  /* ---------------------------------------------------------------- a step of the pool is a step of one member */

  /** A live extent lies inside its member. */
  predicate Inside(w: D.World, j: nat)
    requires j < |w.live|
  {
    var e := w.live[j].ToExtent(w.dev.blocks.blockSize);
    e.length > 0 && e.offset + e.length <= TotalBytes(w.dev)
  }

  /** The slices were laid out for devices of these sizes. */
  ghost predicate Spaced(bases: seq<nat>, ws: seq<D.World>) {
    bases == Bases(Devices(ws), |ws|) && SumOf(Devices(ws), |ws|) < U64
  }

  /** A live global extent is routed to its member, as the extent that member handed out. */
  lemma {:induction false} LiveRoutes(bases: seq<nat>, ws: seq<D.World>, m: nat, j: nat)
    requires |bases| == |ws| > 0 && bases[0] == 0 && Spaced(bases, ws) && IsLive(ws, m, j) && Inside(ws[m], j)
    ensures Local(bases, Global(bases, ws, m, j)) == (m, ws[m].live[j].ToExtent(ws[m].dev.blocks.blockSize))
  {
    RouteInverts(Devices(ws), m, ws[m].live[j].ToExtent(ws[m].dev.blocks.blockSize).offset);
  }

  lemma {:induction false} TakeIsLocal(u: Setup, ws: seq<D.World>, size: nat, hint: Option<Tier>)
    requires Shaped(u, ws)
    ensures var order := Order(Devices(ws), u.tiers, hint);
            var p := Taker(Devices(ws), size, order);
            Step(u, ws, Take(size, hint)) ==
            if p.None? then ws else ws[order[p.value] := D.Step(u.units[order[p.value]].crc, ws[order[p.value]], D.Take(size))]
  {
  }

  /** The machine's allocation is the pool's: the devices change alike, and the extent the pool returns is the one the
      machine enters as live, at the end of the list of the member that took it. */
  lemma {:induction false} TakeIsAlloc(u: Setup, ws: seq<D.World>, size: nat, hint: Option<Tier>)
    requires Shaped(u, ws)
    ensures var order := Order(Devices(ws), u.tiers, hint);
            var p := Taker(Devices(ws), size, order);
            var (ds, r) := Allocated(Devices(ws), u.bases, size, order);
            var after := Step(u, ws, Take(size, hint));
            && Devices(after) == ds && (r.Ok? <==> p.Some?) && (r.Err? ==> after == ws)
            && (r.Ok? ==>
                  var m := order[p.value];
                  IsLive(after, m, |ws[m].live|) && r.value == Global(u.bases, after, m, |ws[m].live|))
  {
    var order := Order(Devices(ws), u.tiers, hint);
    var p := Taker(Devices(ws), size, order);
    if p.Some? {
      var m := order[p.value];
      TookDevice(u.units[m].crc, ws[m], size);
    }
  }

  lemma {:induction false} TookDevice(crc: Bytes -> u32, w: D.World, size: nat)
    requires w.dev.blocks.blockSize > 0 && |w.last| == |w.live|
    ensures var after := D.Step(crc, w, D.Take(size));
            var (blocks, r) := Asked(w.dev, size);
            && after.dev == w.dev.(blocks := blocks) && blocks.blockSize == w.dev.blocks.blockSize
            && (r.Ok? ==> |after.live| == |w.live| + 1 && after.live[|w.live|].ToExtent(blocks.blockSize) == r.value)
  {
    Ledger.TakeExtent(D.BooksOf(w), size + OVERHEAD);
  }

  lemma {:induction false} PutIsLocal(u: Setup, ws: seq<D.World>, m: nat, j: nat, data: Bytes, reach: Option<nat>)
    requires Shaped(u, ws) && Spaced(u.bases, ws) && IsLive(ws, m, j) && Inside(ws[m], j)
    ensures Step(u, ws, Put(m, j, data, reach)) == ws[m := D.Step(u.units[m].crc, ws[m], D.Put(j, data, reach))]
  {
    LiveRoutes(u.bases, ws, m, j);
  }

  lemma {:induction false} ReturnIsLocal(u: Setup, ws: seq<D.World>, m: nat, j: nat)
    requires Shaped(u, ws) && Spaced(u.bases, ws) && IsLive(ws, m, j) && Inside(ws[m], j)
    ensures Step(u, ws, Return(m, j)) == ws[m := D.Step(u.units[m].crc, ws[m], D.Return(j))]
  {
    LiveRoutes(u.bases, ws, m, j);
  }

  /* ---------------------------------------------------------------- whole runs */

  ghost predicate Ready(u: D.Setup) { D.Proper(u) && D.Parses(u) }

  ghost predicate Sound(units: seq<D.Setup>, ws: seq<D.World>) {
    |units| == |ws| && forall i :: 0 <= i < |ws| ==> Ready(units[i]) && D.Inv(units[i], ws[i])
  }

  ghost predicate Inv(u: Setup, ws: seq<D.World>) { Shaped(u, ws) && Spaced(u.bases, ws) && Sound(u.units, ws) }

  lemma {:induction false} LiveInside(u: D.Setup, w: D.World, j: nat)
    requires Ready(u) && D.Inv(u, w) && j < |w.live|
    ensures Inside(w, j)
  {
    var r, size := w.live[j], w.dev.blocks.blockSize;
    assert Live(w.dev.blocks, r.start, r.count);
    MulAtLeast(r.start + r.count, w.dev.blocks.total, size);
    MulAtLeast(1, r.count, size);
    D.Distribute(r.start, r.count, size);
  }

  lemma {:induction false} SameSums(a: seq<Device>, b: seq<Device>, n: nat)
    requires |a| == |b| && n <= |a| && forall i :: 0 <= i < |a| ==> TotalBytes(a[i]) == TotalBytes(b[i])
    ensures SumOf(a, n) == SumOf(b, n) && StartOf(a, n) == StartOf(b, n)
  {
    if n > 0 {
      SameSums(a, b, n - 1);
    }
  }

  lemma {:induction false} SpacedStays(bases: seq<nat>, ws: seq<D.World>, m: nat, w: D.World)
    requires Spaced(bases, ws) && m < |ws| && TotalBytes(w.dev) == TotalBytes(ws[m].dev)
    ensures Spaced(bases, ws[m := w])
  {
    var a, b := Devices(ws), Devices(ws[m := w]);
    forall n: nat | n <= |ws|
      ensures SumOf(a, n) == SumOf(b, n) && StartOf(a, n) == StartOf(b, n)
    {
      SameSums(a, b, n);
    }
    assert Bases(a, |ws|) == Bases(b, |ws|);
  }

  lemma {:induction false} MemberStep(u: D.Setup, w: D.World, d: D.Event)
    requires Ready(u) && D.Inv(u, w)
    ensures var after := D.Step(u.crc, w, d);
            && D.Inv(u, after) && TotalBytes(after.dev) == TotalBytes(w.dev)
            && after.dev.blocks.blockSize > 0 && |after.last| == |after.live|
  {
    D.StepKeeps(u, w, d);
  }

  lemma {:induction false} SoundStays(units: seq<D.Setup>, ws: seq<D.World>, m: nat, w: D.World)
    requires Sound(units, ws) && m < |ws| && D.Inv(units[m], w)
    ensures Sound(units, ws[m := w])
  {
    forall i | 0 <= i < |ws|
      ensures Ready(units[i]) && D.Inv(units[i], ws[m := w][i])
    {
      if i != m {
        assert D.Inv(units[i], ws[i]);
      }
    }
  }

  lemma {:induction false} Replaced(u: Setup, ws: seq<D.World>, m: nat, w: D.World)
    requires Inv(u, ws) && m < |ws| && D.Inv(u.units[m], w) && TotalBytes(w.dev) == TotalBytes(ws[m].dev)
    requires w.dev.blocks.blockSize > 0 && |w.last| == |w.live|
    ensures Inv(u, ws[m := w])
  {
    SpacedStays(u.bases, ws, m, w);
    SoundStays(u.units, ws, m, w);
  }

  lemma {:induction false} OneMember(u: Setup, ws: seq<D.World>, m: nat, d: D.Event, after: seq<D.World>)
    requires Inv(u, ws) && m < |ws| && after == ws[m := D.Step(u.units[m].crc, ws[m], d)]
    ensures Inv(u, after)
  {
    MemberStep(u.units[m], ws[m], d);
    Replaced(u, ws, m, D.Step(u.units[m].crc, ws[m], d));
  }

  lemma {:induction false} TakeKeeps(u: Setup, ws: seq<D.World>, e: Event)
    requires Inv(u, ws) && e.Take?
    ensures Inv(u, Step(u, ws, e))
  {
    var order := Order(Devices(ws), u.tiers, e.hint);
    var p := Taker(Devices(ws), e.size, order);
    TakeIsLocal(u, ws, e.size, e.hint);
    if p.Some? {
      OneMember(u, ws, order[p.value], D.Take(e.size), Step(u, ws, e));
    }
  }

  lemma {:induction false} UseKeeps(u: Setup, ws: seq<D.World>, e: Event)
    requires Inv(u, ws) && (e.Put? || e.Return?)
    ensures Inv(u, Step(u, ws, e))
  {
    if IsLive(ws, e.m, e.j) {
      LiveInside(u.units[e.m], ws[e.m], e.j);
      if e.Put? {
        PutIsLocal(u, ws, e.m, e.j, e.data, e.reach);
        OneMember(u, ws, e.m, D.Put(e.j, e.data, e.reach), Step(u, ws, e));
      } else {
        ReturnIsLocal(u, ws, e.m, e.j);
        OneMember(u, ws, e.m, D.Return(e.j), Step(u, ws, e));
      }
    }
  }

  lemma {:induction false} OnMemberKeeps(u: Setup, ws: seq<D.World>, m: nat, e: D.Event)
    requires Inv(u, ws)
    ensures Inv(u, OnMember(u, ws, m, e))
  {
    if m < |ws| {
      OneMember(u, ws, m, e, OnMember(u, ws, m, e));
    }
  }

  lemma {:induction false} OwnKeeps(u: Setup, ws: seq<D.World>, e: Event)
    requires Inv(u, ws) && (e.Sync? || e.Reopen? || e.Crash?)
    ensures Inv(u, Step(u, ws, e))
  {
    OnMemberKeeps(u, ws, e.m, if e.Sync? then D.Sync else if e.Reopen? then D.Reopen else D.Crash);
  }

  lemma {:induction false} StepKeeps(u: Setup, ws: seq<D.World>, e: Event)
    requires Inv(u, ws)
    ensures Inv(u, Step(u, ws, e))
  {
    if e.Take? {
      TakeKeeps(u, ws, e);
    } else if e.Put? || e.Return? {
      UseKeeps(u, ws, e);
    } else {
      OwnKeeps(u, ws, e);
    }
  }

  /** A run from members that have nothing live yet; an event that does not fit the shape is no step. */
  ghost function Run(u: Setup, start: seq<D.World>, events: seq<Event>): seq<D.World> {
    if events == [] then start
    else
      var before := Run(u, start, events[..|events| - 1]);
      if Shaped(u, before) then Step(u, before, events[|events| - 1]) else before
  }

  lemma {:induction false} RunInv(u: Setup, start: seq<D.World>, events: seq<Event>)
    requires Inv(u, start)
    ensures Inv(u, Run(u, start, events))
  {
    if events != [] {
      RunInv(u, start, events[..|events| - 1]);
      StepKeeps(u, Run(u, start, events[..|events| - 1]), events[|events| - 1]);
    }
  }

  /** Over every run of the pool: a live extent is routed to the member that allocated it, and reading it through
      the pool gives what was last written to it. */
  lemma {:induction false} PoolReads(u: Setup, start: seq<D.World>, events: seq<Event>, m: nat, j: nat)
    requires Inv(u, start) && IsLive(Run(u, start, events), m, j)
    ensures var ws := Run(u, start, events);
            && Shaped(u, ws)
            && var g := Global(u.bases, ws, m, j);
               && Local(u.bases, g).0 == m
               && (ws[m].last[j].Some? ==> ReadFrom(u.units[m].crc, Devices(ws), u.bases, g) == Ok(ws[m].last[j].value))
  {
    var ws := Run(u, start, events);
    RunInv(u, start, events);
    LiveInside(u.units[m], ws[m], j);
    LiveRoutes(u.bases, ws, m, j);
    if ws[m].last[j].Some? {
      D.ReadsBack(u.units[m], ws[m], j);
    }
  }

  /** Over every run of the pool, live extents do not meet in the global address space. */
  lemma {:induction false} PoolApart(u: Setup, start: seq<D.World>, events: seq<Event>, m: nat, j: nat, n: nat, k: nat)
    requires Inv(u, start) && IsLive(Run(u, start, events), m, j) && IsLive(Run(u, start, events), n, k) && (m, j) != (n, k)
    ensures var ws := Run(u, start, events);
            && Shaped(u, ws)
            && var a, b := Global(u.bases, ws, m, j), Global(u.bases, ws, n, k);
               a.offset + a.length <= b.offset || b.offset + b.length <= a.offset
  {
    var ws := Run(u, start, events);
    RunInv(u, start, events);
    LiveInside(u.units[m], ws[m], j);
    LiveInside(u.units[n], ws[n], k);
    GlobalApart(u, ws, m, j, n, k);
  }

  lemma {:induction false} GlobalApart(u: Setup, ws: seq<D.World>, m: nat, j: nat, n: nat, k: nat)
    requires Inv(u, ws) && IsLive(ws, m, j) && IsLive(ws, n, k) && (m, j) != (n, k) && Inside(ws[m], j) && Inside(ws[n], k)
    ensures var a, b := Global(u.bases, ws, m, j), Global(u.bases, ws, n, k);
            a.offset + a.length <= b.offset || b.offset + b.length <= a.offset
  {
    var x := ws[m].live[j].ToExtent(ws[m].dev.blocks.blockSize);
    var y := ws[n].live[k].ToExtent(ws[n].dev.blocks.blockSize);
    if m < n {
      SlicesApart(Devices(ws), m, x, n, y);
    } else if n < m {
      SlicesApart(Devices(ws), n, y, m, x);
    } else {
      var r, s := ws[m].live[j], ws[m].live[k];
      assert r.Apart(s) by { assert if j < k then ws[m].live[j].Apart(ws[m].live[k]) else ws[m].live[k].Apart(ws[m].live[j]); }
      D.ZonesApart(ws[m].dev.sb, r, s);
    }
  }

  /* ---------------------------------------------------------------- where a run can start */

  /** What a device is initialised from. */
  datatype Spec = Spec(existing: Option<Bytes>, deviceBytes: nat, deviceId: Bytes) {
    predicate Makes(d: Device) { deviceBytes < U64 && |deviceId| == 16 && Init(existing, deviceBytes, deviceId) == Ok(d) }
  }

  /** Devices on which nothing is live yet. */
  function Untouched(devices: seq<Device>): (ws: seq<D.World>)
    ensures |ws| == |devices|
    ensures forall i :: 0 <= i < |devices| ==> ws[i] == D.World(devices[i], [], [], Ledger.Books(devices[i].blocks, []))
  {
    if devices == [] then []
    else
      var d := devices[|devices| - 1];
      Untouched(devices[..|devices| - 1]) + [D.World(d, [], [], Ledger.Books(d.blocks, []))]
  }

  /** A freshly initialised device is a sound member. */
  lemma {:induction false} FreshMember(crc: Bytes -> u32, spec: Spec, d: Device) returns (u: D.Setup)
    requires spec.Makes(d)
    ensures u.crc == crc && Ready(u) && D.Inv(u, D.World(d, [], [], Ledger.Books(d.blocks, [])))
  {
    u := D.InitProper(crc, spec.existing, spec.deviceBytes, spec.deviceId);
    D.RunInv(u, d, []);
  }

  lemma {:induction false} FreshMembers(crc: Bytes -> u32, specs: seq<Spec>, devices: seq<Device>)
    returns (units: seq<D.Setup>)
    requires |specs| == |devices| && forall i :: 0 <= i < |devices| ==> specs[i].Makes(devices[i])
    ensures Sound(units, Untouched(devices)) && forall i :: 0 <= i < |units| ==> units[i].crc == crc
  {
    if devices == [] {
      units := [];
    } else {
      var n := |devices| - 1;
      var front := FreshMembers(crc, specs[..n], devices[..n]);
      var u := FreshMember(crc, specs[n], devices[n]);
      SoundMore(front, Untouched(devices[..n]), u, D.World(devices[n], [], [], Ledger.Books(devices[n].blocks, [])));
      units := front + [u];
    }
  }

  lemma {:induction false} SoundMore(units: seq<D.Setup>, ws: seq<D.World>, u: D.Setup, w: D.World)
    requires Sound(units, ws) && Ready(u) && D.Inv(u, w)
    ensures Sound(units + [u], ws + [w])
  {
    var us, all := units + [u], ws + [w];
    forall i | 0 <= i < |all|
      ensures Ready(us[i]) && D.Inv(us[i], all[i])
    {
      if i < |ws| {
        assert Ready(units[i]) && D.Inv(units[i], ws[i]);
      }
    }
  }

  /** Sound members whose capacities add up below 2^64 make a pool. */
  lemma {:induction false} Pooled(units: seq<D.Setup>, ws: seq<D.World>, tiers: seq<Tier>)
    requires Sound(units, ws) && |ws| == |tiers| > 0 && SumOf(Devices(ws), |ws|) < U64
    ensures Inv(Setup(tiers, Bases(Devices(ws), |ws|), units), ws)
  {
    assert Bases(Devices(ws), |ws|)[0] == StartOf(Devices(ws), 0);
    forall i | 0 <= i < |ws|
      ensures ws[i].dev.blocks.blockSize > 0 && |ws[i].last| == |ws[i].live|
    {
      assert D.Inv(units[i], ws[i]);
    }
  }

  /** So freshly initialised devices, of any sizes that add up below 2^64 and in any tiers, make a pool that every theorem
      above holds of: nothing is live in it, and every run from it keeps the invariant. */
  lemma {:induction false} FreshPool(crc: Bytes -> u32, specs: seq<Spec>, devices: seq<Device>, tiers: seq<Tier>,
                                     events: seq<Event>)
    returns (u: Setup)
    requires |specs| == |devices| == |tiers| > 0 && forall i :: 0 <= i < |devices| ==> specs[i].Makes(devices[i])
    requires SumOf(devices, |devices|) < U64
    ensures u.tiers == tiers && u.bases == Bases(devices, |devices|) && |u.units| == |devices|
    ensures forall i :: 0 <= i < |u.units| ==> u.units[i].crc == crc
    ensures Inv(u, Untouched(devices)) && Inv(u, Run(u, Untouched(devices), events))
  {
    var units := FreshMembers(crc, specs, devices);
    UntouchedDevices(devices);
    Pooled(units, Untouched(devices), tiers);
    u := Setup(tiers, Bases(devices, |devices|), units);
    RunInv(u, Untouched(devices), events);
  }

  lemma {:induction false} UntouchedDevices(devices: seq<Device>)
    ensures Devices(Untouched(devices)) == devices
  {
  }
}
