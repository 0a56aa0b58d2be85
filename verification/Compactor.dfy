/** The slab compactor: crates/kiseki-chunk-cluster/src/slab_compactor.rs. */
module Compactor {
  import opened Base
  import opened Erasure
  import opened Slabs

  datatype Location = Hot(pool: string) | Cold(pool: string, slab: Uuid, offset: nat, length: nat)

  datatype Composition = Composition(id: Uuid, chunks: seq<ChunkId>, locations: seq<Location>) {
    function LocationFor(i: nat): Location { if i < |locations| then locations[i] else Hot("") }
    predicate Pending(i: nat, pool: string) { LocationFor(i) == Hot(pool) || locations == [] }
  }

  /** A chunk to look at, and one that was read: its serialised envelope. */
  datatype Candidate = Candidate(comp: Uuid, index: nat, chunk: ChunkId)
  datatype Item = Item(comp: Uuid, index: nat, chunk: Chunk)

  /** What a delta tells a composition: chunk `index` is now at `offset..offset + length` of the slab. */
  datatype Entry = Entry(index: nat, offset: nat, length: nat)
  datatype Staged = Staged(entry: Entry, chunk: ChunkId)
  datatype Delta = Delta(comp: Uuid, slab: Uuid, entries: seq<Entry>)
  datatype Owner = Owner(comp: Uuid, index: nat, chunk: ChunkId)

  /** What the pass does not control: the n-th read, the n-th look at the clock, and for the n-th flush the new
      id, whether the slab store takes the slab and the owner records, which deltas the log takes, and in which
      order the hash map of staged entries is walked for the owner records and for the deltas. */
  datatype Env = Env(read: (nat, ChunkId) -> Option<Bytes>, clock: nat -> nat, newId: nat -> Uuid, putOk: nat -> bool,
                     recordOk: nat -> bool, emitOk: (nat, Uuid) -> bool, ownerOrder: (nat, set<Uuid>) -> seq<Uuid>,
                     deltaOrder: (nat, set<Uuid>) -> seq<Uuid>)

  /** A walk meets every key of a map exactly once. */
  ghost predicate Walks(order: seq<Uuid>, keys: set<Uuid>) {
    NoDup(order) && forall c :: c in order <==> c in keys
  }

  ghost predicate Lawful(env: Env) {
    forall n, keys :: Walks(env.ownerOrder(n, keys), keys) && Walks(env.deltaOrder(n, keys), keys)
  }

  datatype Cfg = Cfg(code: Code, pool: string, k: nat, m: nat)

  /* ---------------------------------------------------------------- what is scanned */

  /** The chunks that are due among the first n of a composition, behind what came before. */
  function OfComposition(before: seq<Candidate>, c: Composition, pool: string, n: nat): seq<Candidate>
    requires n <= |c.chunks|
  {
    if n == 0 then before
    else
      var front := OfComposition(before, c, pool, n - 1);
      if c.Pending(n - 1, pool) then front + [Candidate(c.id, n - 1, c.chunks[n - 1])] else front
  }

  function OfNamespace(before: seq<Candidate>, comps: seq<Composition>, pool: string): seq<Candidate> {
    if comps == [] then before
    else
      var last := comps[|comps| - 1];
      OfComposition(OfNamespace(before, comps[..|comps| - 1], pool), last, pool, |last.chunks|)
  }

  function Candidates(spaces: seq<seq<Composition>>, pool: string): seq<Candidate> {
    if spaces == [] then [] else OfNamespace(Candidates(spaces[..|spaces| - 1], pool), spaces[|spaces| - 1], pool)
  }

  /** The candidates that could be read, in scan order. */
  function Items(cands: seq<Candidate>, read: (nat, ChunkId) -> Option<Bytes>): seq<Item> {
    if cands == [] then []
    else
      var n := |cands| - 1;
      Items(cands[..n], read) +
      match read(n, cands[n].chunk)
      case None => []
      case Some(bytes) => [Item(cands[n].comp, cands[n].index, Chunk(cands[n].chunk, bytes))]
  }

  /* ---------------------------------------------------------------- what is staged */

  function ChunksOf(batch: seq<Item>): (chunks: seq<Chunk>)
    ensures |chunks| == |batch|
    ensures forall i :: 0 <= i < |batch| ==> chunks[i] == batch[i].chunk
  {
    if batch == [] then [] else ChunksOf(batch[..|batch| - 1]) + [batch[|batch| - 1].chunk]
  }

  /** `u32::try_from(len)`, or the largest 32-bit number when it does not fit. */
  function Capped(len: nat): nat { if len < U32 then len else U32 - 1 }

  function CappedTotal(batch: seq<Item>): nat {
    if batch == [] then 0 else CappedTotal(batch[..|batch| - 1]) + Capped(|batch[|batch| - 1].chunk.bytes|)
  }

  function StagedLast(batch: seq<Item>): Staged
    requires batch != []
  {
    var last := batch[|batch| - 1];
    Staged(Entry(last.index % U32, CappedTotal(batch[..|batch| - 1]), Capped(|last.chunk.bytes|)), last.chunk.id)
  }

  /** What is staged for one composition, in arrival order. */
  function StagedFor(batch: seq<Item>, comp: Uuid): seq<Staged> {
    if batch == [] then []
    else StagedFor(batch[..|batch| - 1], comp) + if batch[|batch| - 1].comp == comp then [StagedLast(batch)] else []
  }

  function CompsOf(batch: seq<Item>): set<Uuid> { set i | 0 <= i < |batch| :: batch[i].comp }

  function Lookup(staged: map<Uuid, seq<Staged>>, c: Uuid): seq<Staged> { if c in staged then staged[c] else [] }

  /** The table of staged entries, by composition. */
  function StagedOf(batch: seq<Item>): map<Uuid, seq<Staged>> {
    if batch == [] then map[]
    else
      var staged, c := StagedOf(batch[..|batch| - 1]), batch[|batch| - 1].comp;
      staged[c := Lookup(staged, c) + [StagedLast(batch)]]
  }

  lemma {:induction false} StagedOfIs(batch: seq<Item>)
    ensures StagedOf(batch).Keys == CompsOf(batch)
    ensures forall c :: Lookup(StagedOf(batch), c) == StagedFor(batch, c)
  {
    if batch != [] {
      var n := |batch| - 1;
      StagedOfIs(batch[..n]);
      CompsOfSnoc(batch);
    }
  }

  lemma {:induction false} CompsOfSnoc(batch: seq<Item>)
    requires batch != []
    ensures CompsOf(batch) == CompsOf(batch[..|batch| - 1]) + {batch[|batch| - 1].comp}
  {
    var n := |batch| - 1;
    assert batch[n].comp in CompsOf(batch);
    forall c | c in CompsOf(batch[..n])
      ensures c in CompsOf(batch)
    {
      var i :| 0 <= i < n && batch[..n][i].comp == c;
      assert batch[i].comp == c;
    }
  }

  function EntriesOf(staged: seq<Staged>): (e: seq<Entry>)
    ensures |e| == |staged|
    ensures forall i :: 0 <= i < |e| ==> e[i] == staged[i].entry
  {
    if staged == [] then [] else EntriesOf(staged[..|staged| - 1]) + [staged[|staged| - 1].entry]
  }

  function OwnersOf(comp: Uuid, staged: seq<Staged>): (o: seq<Owner>)
    ensures |o| == |staged|
    ensures forall i :: 0 <= i < |o| ==> o[i] == Owner(comp, staged[i].entry.index, staged[i].chunk)
  {
    if staged == [] then []
    else OwnersOf(comp, staged[..|staged| - 1]) + [Owner(comp, staged[|staged| - 1].entry.index, staged[|staged| - 1].chunk)]
  }

  /* ---------------------------------------------------------------- offsets are right */

  /** The positions of a composition's items in a batch. */
  function Positions(batch: seq<Item>, comp: Uuid): (p: seq<nat>)
    ensures forall i :: 0 <= i < |p| ==> p[i] < |batch| && batch[p[i]].comp == comp
    ensures forall i, j :: 0 <= i < j < |p| ==> p[i] < p[j]
  {
    if batch == [] then []
    else Positions(batch[..|batch| - 1], comp) + if batch[|batch| - 1].comp == comp then [|batch| - 1] else []
  }

  lemma {:induction false} PositionsAll(batch: seq<Item>, comp: Uuid, i: nat)
    requires i < |batch| && batch[i].comp == comp
    ensures i in Positions(batch, comp)
  {
    if i < |batch| - 1 {
      PositionsAll(batch[..|batch| - 1], comp, i);
    }
  }

  lemma {:induction false} CappedExact(batch: seq<Item>)
    requires Packable(ChunksOf(batch))
    ensures CappedTotal(batch) == TotalLen(ChunksOf(batch))
  {
    if batch != [] {
      var n := |batch| - 1;
      forall i | 0 <= i < n
        ensures |ChunksOf(batch[..n])[i].bytes| < U32
      {
        assert ChunksOf(batch[..n])[i] == ChunksOf(batch)[i];
      }
      CappedExact(batch[..n]);
      assert ChunksOf(batch)[n] == batch[n].chunk;
    }
  }

  lemma {:induction false} ChunksOfPrefix(batch: seq<Item>, i: nat)
    requires i <= |batch|
    ensures ChunksOf(batch)[..i] == ChunksOf(batch[..i])
  {
  }

  /** The j-th entry staged for a composition is the one of its j-th item. */
  lemma {:induction false} StagedAt(batch: seq<Item>, comp: Uuid, j: nat)
    requires j < |StagedFor(batch, comp)| || j < |Positions(batch, comp)|
    ensures |StagedFor(batch, comp)| == |Positions(batch, comp)|
    ensures var i := Positions(batch, comp)[j];
            StagedFor(batch, comp)[j] ==
            Staged(Entry(batch[i].index % U32, CappedTotal(batch[..i]), Capped(|batch[i].chunk.bytes|)), batch[i].chunk.id)
  {
    StagedCount(batch, comp);
    var n := |batch| - 1;
    StagedCount(batch[..n], comp);
    if j < |Positions(batch[..n], comp)| {
      StagedAt(batch[..n], comp, j);
      var i := Positions(batch[..n], comp)[j];
      assert batch[..n][..i] == batch[..i];
    }
  }

  lemma {:induction false} StagedCount(batch: seq<Item>, comp: Uuid)
    ensures |StagedFor(batch, comp)| == |Positions(batch, comp)|
  {
    if batch != [] {
      StagedCount(batch[..|batch| - 1], comp);
    }
  }

  /** Every staged entry selects, in the packed slab of its batch, exactly the bytes of its own chunk. */
  lemma {:induction false} EntrySelects(id: Uuid, batch: seq<Item>, k: nat, m: nat, comp: Uuid, j: nat)
    requires Packable(ChunksOf(batch)) && j < |StagedFor(batch, comp)|
    ensures |StagedFor(batch, comp)| == |Positions(batch, comp)|
    ensures var item := batch[Positions(batch, comp)[j]];
            var e := StagedFor(batch, comp)[j].entry;
            && item.comp == comp && e.index == item.index % U32
            && Extracted(Packed(id, ChunksOf(batch), k, m).data, e.offset, e.length) == Ok(item.chunk.bytes)
  {
    StagedAt(batch, comp, j);
    var i := Positions(batch, comp)[j];
    assert ChunksOf(batch)[i] == batch[i].chunk;
    ChunksOfPrefix(batch, i);
    forall n | 0 <= n < i
      ensures |ChunksOf(batch[..i])[n].bytes| < U32
    {
      assert ChunksOf(batch[..i])[n] == ChunksOf(batch)[n];
    }
    CappedExact(batch[..i]);
    PackedAt(ChunksOf(batch), i);
  }

  /* ---------------------------------------------------------------- flushing one slab */

  /** What a flush leaves behind; no slab when packing or storing it failed, no owners when recording them failed. */
  datatype Flushed = Flushed(slab: Option<Slab>, owners: seq<Owner>, deltas: seq<Delta>, migrated: nat)

  const NothingFlushed := Flushed(None, [], [], 0)

  function OwnersWalk(staged: map<Uuid, seq<Staged>>, order: seq<Uuid>): seq<Owner> {
    if order == [] then []
    else
      var c := order[|order| - 1];
      OwnersWalk(staged, order[..|order| - 1]) + OwnersOf(c, Lookup(staged, c))
  }

  function DeltasWalk(env: Env, n: nat, staged: map<Uuid, seq<Staged>>, order: seq<Uuid>): seq<Delta> {
    if order == [] then []
    else
      var c := order[|order| - 1];
      DeltasWalk(env, n, staged, order[..|order| - 1]) +
      if env.emitOk(n, c) then [Delta(c, env.newId(n), EntriesOf(Lookup(staged, c)))] else []
  }

  function Sizes(deltas: seq<Delta>): nat {
    if deltas == [] then 0 else Sizes(deltas[..|deltas| - 1]) + |deltas[|deltas| - 1].entries|
  }

  function FlushOf(cfg: Cfg, env: Env, n: nat, chunks: seq<Chunk>, staged: map<Uuid, seq<Staged>>): Flushed {
    if chunks == [] || !Encodes(cfg.code, chunks, cfg.k, cfg.m) || !env.putOk(n) then NothingFlushed
    else
      var deltas := DeltasWalk(env, n, staged, env.deltaOrder(n, staged.Keys));
      var owners := if env.recordOk(n) then OwnersWalk(staged, env.ownerOrder(n, staged.Keys)) else [];
      Flushed(Some(Packed(env.newId(n), chunks, cfg.k, cfg.m)), owners, deltas, Sizes(deltas))
  }

  method FlushSlab(cfg: Cfg, env: Env, n: nat, builder: SlabBuilder, staged: map<Uuid, seq<Staged>>)
    returns (f: Flushed, rest: map<Uuid, seq<Staged>>)
    requires builder.Valid()
    modifies builder
    ensures builder.Valid() && builder.chunks == [] && rest == map[]
    ensures f == FlushOf(cfg, env, n, old(builder.chunks), staged)
  {
    rest := map[];
    var drained := builder.Drain();
    if drained == [] {
      return NothingFlushed, map[];
    }
    var id := env.newId(n);
    var encoded := EncodeSlab(cfg.code, id, drained, cfg.k, cfg.m);
    if encoded.Err? || !env.putOk(n) {
      return NothingFlushed, map[];
    }
    var owners := RecordOwners(staged, env.ownerOrder(n, staged.Keys));
    if !env.recordOk(n) {
      owners := [];
    }
    var deltas, migrated := EmitDeltas(env, n, staged, env.deltaOrder(n, staged.Keys));
    f := Flushed(Some(encoded.value.0), owners, deltas, migrated);
  }

  method RecordOwners(staged: map<Uuid, seq<Staged>>, order: seq<Uuid>) returns (owners: seq<Owner>)
    ensures owners == OwnersWalk(staged, order)
  {
    owners := [];
    for i := 0 to |order|
      invariant owners == OwnersWalk(staged, order[..i])
    {
      TakeTake(order, i, i + 1);
      owners := owners + OwnersOf(order[i], Lookup(staged, order[i]));
    }
    TakeAll(order);
  }

  method EmitDeltas(env: Env, n: nat, staged: map<Uuid, seq<Staged>>, order: seq<Uuid>)
    returns (deltas: seq<Delta>, migrated: nat)
    ensures deltas == DeltasWalk(env, n, staged, order) && migrated == Sizes(deltas)
  {
    deltas, migrated := [], 0;
    for i := 0 to |order|
      invariant deltas == DeltasWalk(env, n, staged, order[..i])
      invariant migrated == Sizes(deltas)
    {
      TakeTake(order, i, i + 1);
      var c := order[i];
      if env.emitOk(n, c) {
        var entries := EntriesOf(Lookup(staged, c));
        WithoutLast(deltas, Delta(c, env.newId(n), entries));
        deltas := deltas + [Delta(c, env.newId(n), entries)];
        migrated := migrated + |entries|;
      }
    }
    TakeAll(order);
  }

  /** One delta for every composition of the walk whose delta the log accepts, no other. */
  ghost predicate DeltasMatch(env: Env, n: nat, staged: map<Uuid, seq<Staged>>, order: seq<Uuid>, deltas: seq<Delta>) {
    && (forall i :: 0 <= i < |deltas| ==>
          && deltas[i].slab == env.newId(n) && deltas[i].comp in order && env.emitOk(n, deltas[i].comp)
          && deltas[i].entries == EntriesOf(Lookup(staged, deltas[i].comp)))
    && (forall c :: c in order && env.emitOk(n, c) ==> Delta(c, env.newId(n), EntriesOf(Lookup(staged, c))) in deltas)
  }

  ghost predicate DistinctComps(deltas: seq<Delta>) {
    forall i, j :: 0 <= i < j < |deltas| ==> deltas[i].comp != deltas[j].comp
  }

  lemma {:induction false} DeltasWalkMatch(env: Env, n: nat, staged: map<Uuid, seq<Staged>>, order: seq<Uuid>)
    ensures DeltasMatch(env, n, staged, order, DeltasWalk(env, n, staged, order))
  {
    if order != [] {
      DeltasWalkMatch(env, n, staged, order[..|order| - 1]);
      SplitLast(order);
    }
  }

  lemma {:induction false} DeltasWalkIs(env: Env, n: nat, staged: map<Uuid, seq<Staged>>, order: seq<Uuid>)
    requires NoDup(order)
    ensures DeltasMatch(env, n, staged, order, DeltasWalk(env, n, staged, order))
    ensures DistinctComps(DeltasWalk(env, n, staged, order))
  {
    DeltasWalkMatch(env, n, staged, order);
    if order != [] {
      var front, last := order[..|order| - 1], order[|order| - 1];
      DeltasWalkIs(env, n, staged, front);
      assert last !in front;
      DistinctMore(DeltasWalk(env, n, staged, front), Delta(last, env.newId(n), EntriesOf(Lookup(staged, last))));
    }
  }

  lemma {:induction false} DistinctMore(deltas: seq<Delta>, last: Delta)
    requires DistinctComps(deltas) && forall i :: 0 <= i < |deltas| ==> deltas[i].comp != last.comp
    ensures DistinctComps(deltas + [last])
  {
  }

  lemma {:induction false} OwnersWalkIs(staged: map<Uuid, seq<Staged>>, order: seq<Uuid>, o: Owner)
    ensures o in OwnersWalk(staged, order) <==> o.comp in order && o in OwnersOf(o.comp, Lookup(staged, o.comp))
  {
    if order != [] {
      OwnersWalkIs(staged, order[..|order| - 1], o);
      SplitLast(order);
    }
  }

  /* ---------------------------------------------------------------- a whole pass */

  function FlushBatch(cfg: Cfg, env: Env, n: nat, batch: seq<Item>): Flushed {
    FlushOf(cfg, env, n, ChunksOf(batch), StagedOf(batch))
  }

  function LogOf(cfg: Cfg, env: Env, batches: seq<seq<Item>>): seq<Delta> {
    if batches == [] then []
    else
      var n := |batches| - 1;
      LogOf(cfg, env, batches[..n]) + FlushBatch(cfg, env, n, batches[n]).deltas
  }

  function SlabsOf(cfg: Cfg, env: Env, batches: seq<seq<Item>>): seq<Slab> {
    if batches == [] then []
    else
      var n := |batches| - 1;
      var slab := FlushBatch(cfg, env, n, batches[n]).slab;
      SlabsOf(cfg, env, batches[..n]) + if slab.Some? then [slab.value] else []
  }

  function MigratedBy(cfg: Cfg, env: Env, batches: seq<seq<Item>>): nat {
    if batches == [] then 0
    else
      var n := |batches| - 1;
      MigratedBy(cfg, env, batches[..n]) + FlushBatch(cfg, env, n, batches[n]).migrated
  }

  function Flat(batches: seq<seq<Item>>): seq<Item> {
    if batches == [] then [] else Flat(batches[..|batches| - 1]) + batches[|batches| - 1]
  }

  lemma {:induction false} BatchSnoc(batch: seq<Item>, item: Item)
    ensures var more := batch + [item];
            && ChunksOf(more) == ChunksOf(batch) + [item.chunk]
            && CappedTotal(more) == CappedTotal(batch) + Capped(|item.chunk.bytes|)
            && StagedOf(more) == StagedOf(batch)[item.comp := Lookup(StagedOf(batch), item.comp) +
                 [Staged(Entry(item.index % U32, CappedTotal(batch), Capped(|item.chunk.bytes|)), item.chunk.id)]]
  {
    WithoutLast(batch, item);
  }

  lemma {:induction false} BatchesSnoc(cfg: Cfg, env: Env, batches: seq<seq<Item>>, batch: seq<Item>)
    ensures var more, f := batches + [batch], FlushBatch(cfg, env, |batches|, batch);
            && LogOf(cfg, env, more) == LogOf(cfg, env, batches) + f.deltas
            && SlabsOf(cfg, env, more) == SlabsOf(cfg, env, batches) + (if f.slab.Some? then [f.slab.value] else [])
            && MigratedBy(cfg, env, more) == MigratedBy(cfg, env, batches) + f.migrated
            && Flat(more) == Flat(batches) + batch
  {
    WithoutLast(batches, batch);
  }

  lemma {:induction false} ItemsSnoc(cands: seq<Candidate>, c: Candidate, read: (nat, ChunkId) -> Option<Bytes>)
    ensures Items(cands + [c], read) == Items(cands, read) +
              match read(|cands|, c.chunk)
              case None => []
              case Some(bytes) => [Item(c.comp, c.index, Chunk(c.chunk, bytes))]
  {
    WithoutLast(cands, c);
  }

  /** The pass's own variables; the builder is an object beside them. */
  datatype Work = Work(staged: map<Uuid, seq<Staged>>, offset: nat, visited: nat, ticks: nat, flushes: nat,
                       slabs: seq<Slab>, log: seq<Delta>, migrated: nat)

  /** How the items read so far were cut: flushed batches, then what is pending and since when; and how often
      the clock was read. */
  datatype Cuts = Cuts(batches: seq<seq<Item>>, pending: seq<Item>, since: Option<nat>, ticks: nat) {
    function All(): seq<Item> { Flat(batches) + pending }
  }

  const NoCuts := Cuts([], [], None, 0)

  /** A cap is reached: bytes, count, or age of the oldest. */
  predicate Full(batch: seq<Item>, since: Option<nat>, now: nat) {
    && batch != []
    && (TotalLen(ChunksOf(batch)) >= SLAB_BYTE_BUDGET || |batch| >= SLAB_MAX_CHUNKS
        || (since.Some? && SaturatingSub(now, since.value) >= SLAB_AGE_TIMEOUT))
  }

  function Added(env: Env, p: Cuts, item: Item): Cuts {
    Cuts(p.batches, p.pending + [item], if p.pending == [] then Some(env.clock(p.ticks)) else p.since, p.ticks + 1)
  }

  function Closed(p: Cuts): Cuts { Cuts(p.batches + [p.pending], [], None, p.ticks) }

  /** The batch is closed as soon as a cap is reached. */
  function Checked(env: Env, p: Cuts): Cuts {
    var looked := p.(ticks := p.ticks + 1);
    if Full(p.pending, p.since, env.clock(p.ticks)) then Closed(looked) else looked
  }

  function CutAll(env: Env, items: seq<Item>): Cuts {
    if items == [] then NoCuts else Checked(env, Added(env, CutAll(env, items[..|items| - 1]), items[|items| - 1]))
  }

  /** The cuts of a whole pass: after every item, and once more at the end. */
  function PassCuts(env: Env, items: seq<Item>): Cuts { Checked(env, CutAll(env, items)) }

  lemma {:induction false} CheckedAll(env: Env, p: Cuts)
    ensures Checked(env, p).All() == p.All()
  {
    var closed := p.batches + [p.pending];
    assert closed[..|p.batches|] == p.batches;
    assert Flat(closed) == Flat(p.batches) + p.pending;
  }

  lemma {:induction false} AddedAll(env: Env, p: Cuts, item: Item)
    ensures Added(env, p, item).All() == p.All() + [item]
  {
    Assoc(Flat(p.batches), p.pending, [item]);
  }

  lemma {:induction false} CutNext(env: Env, p: Cuts, item: Item)
    ensures Checked(env, Added(env, p, item)).All() == p.All() + [item]
  {
    AddedAll(env, p, item);
    CheckedAll(env, Added(env, p, item));
  }

  lemma {:induction false} CutMore(env: Env, items: seq<Item>, item: Item)
    ensures CutAll(env, items + [item]).All() == CutAll(env, items).All() + [item]
  {
    CutAllSnoc(env, items, item);
    CutNext(env, CutAll(env, items), item);
  }

  lemma {:induction false} CutAllKeeps(env: Env, items: seq<Item>)
    ensures CutAll(env, items).All() == items
  {
    if items == [] {
      assert CutAll(env, items) == NoCuts;
    } else {
      var front, last := items[..|items| - 1], items[|items| - 1];
      CutAllKeeps(env, front);
      SplitLast(items);
      CutMore(env, front, last);
    }
  }

  /** Nothing read is dropped or moved by the cutting. */
  lemma {:induction false} CutsKeepItems(env: Env, items: seq<Item>)
    ensures PassCuts(env, items).All() == items
  {
    CutAllKeeps(env, items);
    CheckedAll(env, CutAll(env, items));
  }

  predicate BelowCaps(batch: seq<Item>) { TotalLen(ChunksOf(batch)) < SLAB_BYTE_BUDGET && |batch| < SLAB_MAX_CHUNKS }

  /** Not empty, and below the caps but for its last item. */
  predicate Bounded(batch: seq<Item>) { batch != [] && BelowCaps(batch[..|batch| - 1]) }

  ghost predicate AllBounded(p: Cuts) { forall n :: 0 <= n < |p.batches| ==> Bounded(p.batches[n]) }

  lemma {:induction false} CutAllBounded(env: Env, items: seq<Item>)
    ensures AllBounded(CutAll(env, items)) && BelowCaps(CutAll(env, items).pending)
  {
    if items != [] {
      var before := CutAll(env, items[..|items| - 1]);
      CutAllBounded(env, items[..|items| - 1]);
      var added := Added(env, before, items[|items| - 1]);
      assert added.pending[..|before.pending|] == before.pending;
      assert Bounded(added.pending);
    }
  }

  /** No slab holds more than the caps allow, but for the chunk that reached them. */
  lemma {:induction false} SlabsBounded(env: Env, items: seq<Item>)
    ensures AllBounded(PassCuts(env, items))
  {
    CutAllBounded(env, items);
    var p := CutAll(env, items);
    if p.pending != [] {
      var n := |p.pending| - 1;
      assert ChunksOf(p.pending)[..n] == ChunksOf(p.pending[..n]);
      assert Bounded(p.pending);
    }
  }

  /** The variables are what the cuts make them. */
  ghost predicate Matches(cfg: Cfg, env: Env, w: Work, chunks: seq<Chunk>, since: Option<nat>, p: Cuts) {
    && chunks == ChunksOf(p.pending) && since == p.since && w.ticks == p.ticks
    && w.staged == StagedOf(p.pending) && w.offset == CappedTotal(p.pending)
    && w.flushes == |p.batches| && w.slabs == SlabsOf(cfg, env, p.batches) && w.log == LogOf(cfg, env, p.batches)
    && w.migrated == MigratedBy(cfg, env, p.batches)
  }

  ghost predicate Scanned(cfg: Cfg, env: Env, w: Work, chunks: seq<Chunk>, since: Option<nat>, cands: seq<Candidate>) {
    Matches(cfg, env, w, chunks, since, CutAll(env, Items(cands, env.read))) && w.visited == |cands|
  }

  /** The pass's variables once an item is staged. */
  function WithStaged(w: Work, item: Item): Work {
    var length := Capped(|item.chunk.bytes|);
    var entry := Staged(Entry(item.index % U32, w.offset, length), item.chunk.id);
    w.(offset := w.offset + length, ticks := w.ticks + 1,
       staged := w.staged[item.comp := Lookup(w.staged, item.comp) + [entry]])
  }

  lemma {:induction false} StagedMatches(cfg: Cfg, env: Env, w: Work, chunks: seq<Chunk>, since: Option<nat>, p: Cuts,
                                         item: Item)
    requires Matches(cfg, env, w, chunks, since, p)
    ensures Matches(cfg, env, WithStaged(w, item), chunks + [item.chunk],
                    if chunks == [] then Some(env.clock(w.ticks)) else since, Added(env, p, item))
  {
    BatchSnoc(p.pending, item);
  }

  method Stage(cfg: Cfg, env: Env, builder: SlabBuilder, w: Work, item: Item, ghost p: Cuts) returns (w': Work)
    requires builder.Valid() && Matches(cfg, env, w, builder.chunks, builder.firstArrived, p)
    modifies builder
    ensures builder.Valid() && Matches(cfg, env, w', builder.chunks, builder.firstArrived, Added(env, p, item))
    ensures w'.visited == w.visited
  {
    StagedMatches(cfg, env, w, builder.chunks, builder.firstArrived, p, item);
    w' := WithStaged(w, item);
    builder.Push(env.clock(w.ticks), item.chunk);
  }

  method FlushNow(cfg: Cfg, env: Env, builder: SlabBuilder, w: Work, ghost p: Cuts) returns (w': Work)
    requires builder.Valid() && Matches(cfg, env, w, builder.chunks, builder.firstArrived, p)
    modifies builder
    ensures builder.Valid() && Matches(cfg, env, w', builder.chunks, builder.firstArrived, Closed(p))
    ensures w'.visited == w.visited
  {
    BatchesSnoc(cfg, env, p.batches, p.pending);
    var f, rest := FlushSlab(cfg, env, w.flushes, builder, w.staged);
    w' := w.(staged := rest, offset := 0, flushes := w.flushes + 1, migrated := w.migrated + f.migrated,
             log := w.log + f.deltas, slabs := w.slabs + if f.slab.Some? then [f.slab.value] else []);
  }

  /** Look at the clock and flush if a cap is reached. */
  method FlushIfDue(cfg: Cfg, env: Env, builder: SlabBuilder, w: Work, ghost p: Cuts) returns (w': Work)
    requires builder.Valid() && builder.Default() && Matches(cfg, env, w, builder.chunks, builder.firstArrived, p)
    modifies builder
    ensures builder.Valid() && Matches(cfg, env, w', builder.chunks, builder.firstArrived, Checked(env, p))
    ensures w'.visited == w.visited
  {
    var now := env.clock(w.ticks);
    w' := w.(ticks := w.ticks + 1);
    if builder.ShouldFlush(now) {
      w' := FlushNow(cfg, env, builder, w', p.(ticks := p.ticks + 1));
    }
  }

  lemma {:induction false} CutAllSnoc(env: Env, items: seq<Item>, item: Item)
    ensures CutAll(env, items + [item]) == Checked(env, Added(env, CutAll(env, items), item))
  {
    WithoutLast(items, item);
  }

  /** The body of the innermost loop, for a chunk that is due. */
  method Visit(cfg: Cfg, env: Env, builder: SlabBuilder, w: Work, c: Candidate, ghost cands: seq<Candidate>)
    returns (w': Work)
    requires builder.Valid() && builder.Default() && Scanned(cfg, env, w, builder.chunks, builder.firstArrived, cands)
    modifies builder
    ensures builder.Valid() && Scanned(cfg, env, w', builder.chunks, builder.firstArrived, cands + [c])
  {
    ItemsSnoc(cands, c, env.read);
    var got := env.read(w.visited, c.chunk);
    w' := w.(visited := w.visited + 1);
    if got.None? {
      assert Items(cands + [c], env.read) == Items(cands, env.read);
      return;
    }
    var item := Item(c.comp, c.index, Chunk(c.chunk, got.value));
    ghost var p := CutAll(env, Items(cands, env.read));
    CutAllSnoc(env, Items(cands, env.read), item);
    w' := Stage(cfg, env, builder, w', item, p);
    w' := FlushIfDue(cfg, env, builder, w', Added(env, p, item));
  }

  method ScanComposition(cfg: Cfg, env: Env, builder: SlabBuilder, w: Work, comp: Composition,
                         ghost cands: seq<Candidate>)
    returns (w': Work)
    requires builder.Valid() && builder.Default() && Scanned(cfg, env, w, builder.chunks, builder.firstArrived, cands)
    modifies builder
    ensures builder.Valid()
    ensures Scanned(cfg, env, w', builder.chunks, builder.firstArrived, OfComposition(cands, comp, cfg.pool, |comp.chunks|))
  {
    w' := w;
    for i := 0 to |comp.chunks|
      invariant builder.Valid()
      invariant Scanned(cfg, env, w', builder.chunks, builder.firstArrived, OfComposition(cands, comp, cfg.pool, i))
    {
      if comp.Pending(i, cfg.pool) {
        w' := Visit(cfg, env, builder, w', Candidate(comp.id, i, comp.chunks[i]), OfComposition(cands, comp, cfg.pool, i));
      }
    }
  }

  method ScanNamespace(cfg: Cfg, env: Env, builder: SlabBuilder, w: Work, comps: seq<Composition>,
                       ghost cands: seq<Candidate>)
    returns (w': Work)
    requires builder.Valid() && builder.Default() && Scanned(cfg, env, w, builder.chunks, builder.firstArrived, cands)
    modifies builder
    ensures builder.Valid()
    ensures Scanned(cfg, env, w', builder.chunks, builder.firstArrived, OfNamespace(cands, comps, cfg.pool))
  {
    w' := w;
    for b := 0 to |comps|
      invariant builder.Valid()
      invariant Scanned(cfg, env, w', builder.chunks, builder.firstArrived, OfNamespace(cands, comps[..b], cfg.pool))
    {
      TakeTake(comps, b, b + 1);
      w' := ScanComposition(cfg, env, builder, w', comps[b], OfNamespace(cands, comps[..b], cfg.pool));
    }
    TakeAll(comps);
  }

  /** One pass: namespaces, their compositions, their chunks. Everything it could read is cut, in scan order, into
      batches as the caps are reached; each batch is flushed once. */
  method RunOnePass(cfg: Cfg, env: Env, spaces: seq<seq<Composition>>) returns (w: Work)
    ensures var cuts := PassCuts(env, Items(Candidates(spaces, cfg.pool), env.read));
            && w.slabs == SlabsOf(cfg, env, cuts.batches) && w.log == LogOf(cfg, env, cuts.batches)
            && w.migrated == MigratedBy(cfg, env, cuts.batches)
  {
    var builder := new SlabBuilder.WithCaps(SLAB_BYTE_BUDGET, SLAB_MAX_CHUNKS, SLAB_AGE_TIMEOUT);
    w := Work(map[], 0, 0, 0, 0, [], [], 0);
    for a := 0 to |spaces|
      invariant fresh(builder) && builder.Valid() && builder.Default()
      invariant Scanned(cfg, env, w, builder.chunks, builder.firstArrived, Candidates(spaces[..a], cfg.pool))
    {
      TakeTake(spaces, a, a + 1);
      w := ScanNamespace(cfg, env, builder, w, spaces[a], Candidates(spaces[..a], cfg.pool));
    }
    TakeAll(spaces);
    w := FlushIfDue(cfg, env, builder, w, CutAll(env, Items(Candidates(spaces, cfg.pool), env.read)));
  }

  /* ---------------------------------------------------------------- what a pass emitted */

  lemma {:induction false} FlatAt(batches: seq<seq<Item>>, n: nat, i: nat)
    requires n < |batches| && i < |batches[n]|
    ensures |Flat(batches[..n])| + |batches[n]| <= |Flat(batches)|
    ensures Flat(batches)[|Flat(batches[..n])| + i] == batches[n][i]
  {
    var last := |batches| - 1;
    if n < last {
      FlatAt(batches[..last], n, i);
      assert batches[..last][..n] == batches[..n];
    }
  }

  /** Which of the scanned items the j-th entry of a composition in the n-th batch stands for. */
  ghost function Source(batches: seq<seq<Item>>, n: nat, comp: Uuid, j: nat): nat
    requires n < |batches| && j < |Positions(batches[n], comp)|
  {
    |Flat(batches[..n])| + Positions(batches[n], comp)[j]
  }

  /** The log of a pass holds the deltas of its flushes and nothing else. */
  lemma {:induction false} LogFrom(cfg: Cfg, env: Env, batches: seq<seq<Item>>, delta: Delta) returns (n: nat)
    requires delta in LogOf(cfg, env, batches)
    ensures n < |batches| && delta in FlushBatch(cfg, env, n, batches[n]).deltas
  {
    n := |batches| - 1;
    if delta !in FlushBatch(cfg, env, n, batches[n]).deltas {
      n := LogFrom(cfg, env, batches[..n], delta);
    }
  }

  lemma {:induction false} LogHas(cfg: Cfg, env: Env, batches: seq<seq<Item>>, n: nat, delta: Delta)
    requires n < |batches| && delta in FlushBatch(cfg, env, n, batches[n]).deltas
    ensures delta in LogOf(cfg, env, batches)
  {
    if n < |batches| - 1 {
      LogHas(cfg, env, batches[..|batches| - 1], n, delta);
    }
  }

  lemma {:induction false} DeltaOfFlush(cfg: Cfg, env: Env, n: nat, batch: seq<Item>, d: nat)
    requires Lawful(env) && d < |FlushBatch(cfg, env, n, batch).deltas|
    ensures var f := FlushBatch(cfg, env, n, batch);
            && f.slab == Some(Packed(env.newId(n), ChunksOf(batch), cfg.k, cfg.m)) && Packable(ChunksOf(batch))
            && f.deltas[d].slab == env.newId(n)
            && f.deltas[d].entries == EntriesOf(StagedFor(batch, f.deltas[d].comp))
  {
    var staged := StagedOf(batch);
    StagedOfIs(batch);
    assert Walks(env.deltaOrder(n, staged.Keys), staged.Keys);
    DeltasWalkIs(env, n, staged, env.deltaOrder(n, staged.Keys));
    var c := FlushBatch(cfg, env, n, batch).deltas[d].comp;
    assert Lookup(staged, c) == StagedFor(batch, c);
  }

  lemma {:induction false} DistinctDeltas(cfg: Cfg, env: Env, n: nat, batch: seq<Item>, d: nat, e: nat)
    requires Lawful(env) && d < |FlushBatch(cfg, env, n, batch).deltas| && e < |FlushBatch(cfg, env, n, batch).deltas|
    requires FlushBatch(cfg, env, n, batch).deltas[d].comp == FlushBatch(cfg, env, n, batch).deltas[e].comp
    ensures d == e
  {
    var keys := StagedOf(batch).Keys;
    assert Walks(env.deltaOrder(n, keys), keys);
    DeltasWalkIs(env, n, StagedOf(batch), env.deltaOrder(n, keys));
    SameComp(DeltasWalk(env, n, StagedOf(batch), env.deltaOrder(n, keys)), d, e);
  }

  lemma {:induction false} SameComp(deltas: seq<Delta>, d: nat, e: nat)
    requires DistinctComps(deltas) && d < |deltas| && e < |deltas| && deltas[d].comp == deltas[e].comp
    ensures d == e
  {
  }

  lemma {:induction false} FlushSelects(cfg: Cfg, env: Env, n: nat, batch: seq<Item>, d: nat, j: nat)
    requires Lawful(env)
    requires var f := FlushBatch(cfg, env, n, batch); d < |f.deltas| && j < |f.deltas[d].entries|
    ensures var f := FlushBatch(cfg, env, n, batch);
            var delta := f.deltas[d];
            && j < |Positions(batch, delta.comp)|
            && var item := batch[Positions(batch, delta.comp)[j]];
               && item.comp == delta.comp && delta.entries[j].index == item.index % U32
               && f.slab.Some? && delta.slab == f.slab.value.id
               && Extracted(f.slab.value.data, delta.entries[j].offset, delta.entries[j].length) == Ok(item.chunk.bytes)
  {
    DeltaOfFlush(cfg, env, n, batch, d);
    EntrySelects(env.newId(n), batch, cfg.k, cfg.m, FlushBatch(cfg, env, n, batch).deltas[d].comp, j);
  }

  /** Every entry of every delta a pass emits, whatever the flush points, the failed flushes and the order in which
      maps are walked: it names an item that was scanned, of that composition and chunk index, and selects
      exactly that item's bytes in the slab of its flush. */
  lemma {:induction false} EmittedExact(cfg: Cfg, env: Env, p: Cuts, n: nat, d: nat, j: nat)
    requires Lawful(env) && n < |p.batches|
    requires var f := FlushBatch(cfg, env, n, p.batches[n]); d < |f.deltas| && j < |f.deltas[d].entries|
    ensures var f := FlushBatch(cfg, env, n, p.batches[n]);
            var delta := f.deltas[d];
            && j < |Positions(p.batches[n], delta.comp)|
            && var i := Source(p.batches, n, delta.comp, j);
               && i < |p.All()| && p.All()[i].comp == delta.comp && delta.entries[j].index == p.All()[i].index % U32
               && f.slab.Some? && delta.slab == f.slab.value.id
               && Extracted(f.slab.value.data, delta.entries[j].offset, delta.entries[j].length)
                  == Ok(p.All()[i].chunk.bytes)
  {
    var batch := p.batches[n];
    FlushSelects(cfg, env, n, batch, d, j);
    FlatAt(p.batches, n, Positions(batch, FlushBatch(cfg, env, n, batch).deltas[d].comp)[j]);
  }

  lemma {:induction false} SlabsHave(cfg: Cfg, env: Env, batches: seq<seq<Item>>, n: nat)
    requires n < |batches| && FlushBatch(cfg, env, n, batches[n]).slab.Some?
    ensures FlushBatch(cfg, env, n, batches[n]).slab.value in SlabsOf(cfg, env, batches)
  {
    if n < |batches| - 1 {
      SlabsHave(cfg, env, batches[..|batches| - 1], n);
    }
  }

  lemma {:induction false} FlushedIs(cfg: Cfg, env: Env, n: nat, batch: seq<Item>)
    requires FlushBatch(cfg, env, n, batch).slab.Some?
    ensures Packable(ChunksOf(batch))
    ensures FlushBatch(cfg, env, n, batch).slab.value == Packed(env.newId(n), ChunksOf(batch), cfg.k, cfg.m)
  {
  }

  lemma {:induction false} SlabFrom(cfg: Cfg, env: Env, batches: seq<seq<Item>>, slab: Slab) returns (n: nat)
    requires slab in SlabsOf(cfg, env, batches)
    ensures n < |batches| && FlushBatch(cfg, env, n, batches[n]).slab == Some(slab)
  {
    n := |batches| - 1;
    if FlushBatch(cfg, env, n, batches[n]).slab != Some(slab) {
      n := SlabFrom(cfg, env, batches[..n], slab);
    }
  }

  /** The same of the log and the slabs a pass leaves: every entry of every delta in the log selects, in a slab
      that was stored, exactly the bytes of an item that was read, of that composition and chunk index. */
  lemma {:induction false} LogSelects(cfg: Cfg, env: Env, items: seq<Item>, delta: Delta, j: nat)
    returns (slab: Slab, i: nat)
    requires Lawful(env) && delta in LogOf(cfg, env, PassCuts(env, items).batches) && j < |delta.entries|
    ensures slab in SlabsOf(cfg, env, PassCuts(env, items).batches) && slab.id == delta.slab
    ensures i < |items| && items[i].comp == delta.comp && delta.entries[j].index == items[i].index % U32
    ensures Extracted(slab.data, delta.entries[j].offset, delta.entries[j].length) == Ok(items[i].chunk.bytes)
  {
    var p := PassCuts(env, items);
    CutsKeepItems(env, items);
    var n := LogFrom(cfg, env, p.batches, delta);
    var f := FlushBatch(cfg, env, n, p.batches[n]);
    var d :| 0 <= d < |f.deltas| && f.deltas[d] == delta;
    EmittedExact(cfg, env, p, n, d, j);
    SlabsHave(cfg, env, p.batches, n);
    slab, i := f.slab.value, Source(p.batches, n, delta.comp, j);
  }

  /** No scanned item is emitted twice: two entries that stand for the same item are the same entry. */
  lemma {:induction false} EmittedOnce(cfg: Cfg, env: Env, batches: seq<seq<Item>>, n: nat, d: nat, j: nat, m: nat,
                                       e: nat, l: nat)
    requires Lawful(env) && n < |batches| && m < |batches|
    requires var f, g := FlushBatch(cfg, env, n, batches[n]).deltas, FlushBatch(cfg, env, m, batches[m]).deltas;
             && d < |f| && j < |Positions(batches[n], f[d].comp)| && e < |g| && l < |Positions(batches[m], g[e].comp)|
             && Source(batches, n, f[d].comp, j) == Source(batches, m, g[e].comp, l)
    ensures n == m && d == e && j == l
  {
    if n < m {
      EarlierBatch(batches, n, m);
    } else if m < n {
      EarlierBatch(batches, m, n);
    } else {
      var f := FlushBatch(cfg, env, n, batches[n]).deltas;
      assert f[d].comp == batches[n][Positions(batches[n], f[d].comp)[j]].comp == f[e].comp;
      DistinctDeltas(cfg, env, n, batches[n], d, e);
    }
  }

  lemma {:induction false} EarlierBatch(batches: seq<seq<Item>>, n: nat, m: nat)
    requires n < m < |batches|
    ensures |Flat(batches[..n])| + |batches[n]| <= |Flat(batches[..m])|
  {
    TakeTake(batches, n, n + 1);
    assert batches[..m][..n + 1] == batches[..n + 1];
    FlatGrows(batches[..m], n + 1);
  }

  lemma {:induction false} FlatGrows(batches: seq<seq<Item>>, n: nat)
    requires n <= |batches|
    ensures |Flat(batches[..n])| <= |Flat(batches)|
  {
    var last := |batches| - 1;
    if n <= last {
      FlatGrows(batches[..last], n);
      assert batches[..last][..n] == batches[..n];
    } else {
      assert batches[..n] == batches;
    }
  }

  lemma {:induction false} DeltaFor(cfg: Cfg, env: Env, n: nat, batch: seq<Item>, c: Uuid) returns (d: nat)
    requires Lawful(env) && c in CompsOf(batch) && FlushBatch(cfg, env, n, batch).slab.Some? && env.emitOk(n, c)
    ensures var deltas := FlushBatch(cfg, env, n, batch).deltas;
            d < |deltas| && deltas[d] == Delta(c, env.newId(n), EntriesOf(StagedFor(batch, c)))
  {
    var staged := StagedOf(batch);
    StagedOfIs(batch);
    var order := env.deltaOrder(n, staged.Keys);
    assert Walks(order, staged.Keys);
    DeltasWalkIs(env, n, staged, order);
    var deltas := DeltasWalk(env, n, staged, order);
    assert c in order && Lookup(staged, c) == StagedFor(batch, c);
    var delta := Delta(c, env.newId(n), EntriesOf(Lookup(staged, c)));
    assert delta in deltas;
    d :| 0 <= d < |deltas| && deltas[d] == delta;
  }

  /** Every item of a stored batch whose composition's delta the log accepts is emitted. */
  lemma {:induction false} EmittedAll(cfg: Cfg, env: Env, n: nat, batch: seq<Item>, i: nat) returns (d: nat, j: nat)
    requires Lawful(env) && i < |batch| && FlushBatch(cfg, env, n, batch).slab.Some? && env.emitOk(n, batch[i].comp)
    ensures var deltas := FlushBatch(cfg, env, n, batch).deltas;
            && d < |deltas| && deltas[d].comp == batch[i].comp && |deltas[d].entries| == |Positions(batch, batch[i].comp)|
            && j < |deltas[d].entries| && Positions(batch, batch[i].comp)[j] == i
  {
    var c := batch[i].comp;
    assert c in CompsOf(batch);
    d := DeltaFor(cfg, env, n, batch, c);
    PositionsAll(batch, c, i);
    StagedCount(batch, c);
    j :| 0 <= j < |Positions(batch, c)| && Positions(batch, c)[j] == i;
  }

  /** The same for the log of a pass: every item of a stored batch whose composition's delta the log accepts has an
      entry there, of its composition and index, that selects exactly its bytes in the slab the batch was packed into. */
  lemma {:induction false} LoggedAll(cfg: Cfg, env: Env, items: seq<Item>, n: nat, i: nat)
    returns (delta: Delta, j: nat)
    requires Lawful(env) && n < |PassCuts(env, items).batches| && i < |PassCuts(env, items).batches[n]|
    requires var batch := PassCuts(env, items).batches[n];
             FlushBatch(cfg, env, n, batch).slab.Some? && env.emitOk(n, batch[i].comp)
    ensures var batches := PassCuts(env, items).batches;
            var slab, item := FlushBatch(cfg, env, n, batches[n]).slab.value, batches[n][i];
            && delta in LogOf(cfg, env, batches) && slab in SlabsOf(cfg, env, batches) && delta.slab == slab.id
            && delta.comp == item.comp && j < |delta.entries| && delta.entries[j].index == item.index % U32
            && Extracted(slab.data, delta.entries[j].offset, delta.entries[j].length) == Ok(item.chunk.bytes)
  {
    var batches := PassCuts(env, items).batches;
    var d: nat;
    d, j := EmittedAll(cfg, env, n, batches[n], i);
    delta := FlushBatch(cfg, env, n, batches[n]).deltas[d];
    FlushSelects(cfg, env, n, batches[n], d, j);
    LogHas(cfg, env, batches, n, delta);
    SlabsHave(cfg, env, batches, n);
  }

  lemma {:induction false} OwnersOfItems(batch: seq<Item>, o: Owner)
    ensures o in OwnersOf(o.comp, StagedFor(batch, o.comp)) <==>
            exists i :: 0 <= i < |batch| && o == Owner(batch[i].comp, batch[i].index % U32, batch[i].chunk.id)
  {
    var own := OwnersOf(o.comp, StagedFor(batch, o.comp));
    if o in own {
      var j :| 0 <= j < |own| && own[j] == o;
      StagedAt(batch, o.comp, j);
      assert o.comp == batch[Positions(batch, o.comp)[j]].comp;
    }
    if i :| 0 <= i < |batch| && o == Owner(batch[i].comp, batch[i].index % U32, batch[i].chunk.id) {
      PositionsAll(batch, o.comp, i);
      var j :| 0 <= j < |Positions(batch, o.comp)| && Positions(batch, o.comp)[j] == i;
      StagedAt(batch, o.comp, j);
      assert own[j] == o;
    }
  }

  /** A stored slab has exactly the owners of its chunks on record, or none when recording them failed. */
  lemma {:induction false} OwnersExact(cfg: Cfg, env: Env, n: nat, batch: seq<Item>, o: Owner)
    requires Lawful(env) && FlushBatch(cfg, env, n, batch).slab.Some?
    ensures o in FlushBatch(cfg, env, n, batch).owners <==>
            env.recordOk(n)
            && exists i :: 0 <= i < |batch| && o == Owner(batch[i].comp, batch[i].index % U32, batch[i].chunk.id)
  {
    var staged := StagedOf(batch);
    StagedOfIs(batch);
    OwnersOfItems(batch, o);
    assert Walks(env.ownerOrder(n, staged.Keys), staged.Keys);
    OwnersWalkIs(staged, env.ownerOrder(n, staged.Keys), o);
    if i :| 0 <= i < |batch| && o == Owner(batch[i].comp, batch[i].index % U32, batch[i].chunk.id) {
      assert batch[i].comp in CompsOf(batch);
    }
  }

  lemma {:induction false} SizesAppend(a: seq<Delta>, b: seq<Delta>)
    ensures Sizes(a + b) == Sizes(a) + Sizes(b)
  {
    if b == [] {
      assert a + b == a;
    } else {
      SizesAppend(a, b[..|b| - 1]);
      assert (a + b)[..|a + b| - 1] == a + b[..|b| - 1];
    }
  }

  /** The number a pass returns is the number of entries it put in the log. */
  lemma {:induction false} MigratedExact(cfg: Cfg, env: Env, batches: seq<seq<Item>>)
    ensures MigratedBy(cfg, env, batches) == Sizes(LogOf(cfg, env, batches))
  {
    if batches != [] {
      var n := |batches| - 1;
      MigratedExact(cfg, env, batches[..n]);
      SizesAppend(LogOf(cfg, env, batches[..n]), FlushBatch(cfg, env, n, batches[n]).deltas);
    }
  }
}
