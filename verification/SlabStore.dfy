/** The slab store on the chunk fabric and its reference index: crates/kiseki-chunk-cluster/src/slab_store.rs. */
module SlabStore {
  import opened Base
  import opened Slabs
  import opened Compactor
  import opened SlabCodec

  /* ---------------------------------------------------------------- reference counts */

  /** The first extent of a chunk. */
  function Find(extents: seq<SlabExtent>, id: ChunkId): (r: Option<nat>)
    ensures r.Some? ==> r.value < |extents| && extents[r.value].chunkId == id
  {
    if extents == [] then None
    else
      var n := |extents| - 1;
      var earlier := Find(extents[..n], id);
      if earlier.Some? then earlier else if extents[n].chunkId == id then Some(n) else None
  }

  lemma {:induction false} FindFirst(extents: seq<SlabExtent>, id: ChunkId)
    ensures Find(extents, id).None? <==> forall i :: 0 <= i < |extents| ==> extents[i].chunkId != id
    ensures Find(extents, id).Some? ==> forall i :: 0 <= i < Find(extents, id).value ==> extents[i].chunkId != id
  {
    if extents != [] {
      FindFirst(extents[..|extents| - 1], id);
    }
  }

  lemma {:induction false} FindFrom(extents: seq<SlabExtent>, other: seq<SlabExtent>, id: ChunkId)
    requires |extents| == |other| && forall i :: 0 <= i < |extents| ==> extents[i].chunkId == other[i].chunkId
    ensures Find(extents, id) == Find(other, id)
  {
    FindFirst(extents, id);
    FindFirst(other, id);
  }

  function SetRef(extents: seq<SlabExtent>, id: ChunkId, refcount: nat): (r: seq<SlabExtent>)
    ensures |r| == |extents|
  {
    match Find(extents, id)
    case None => extents
    case Some(i) => extents[i := extents[i].(refcount := refcount)]
  }

  /** The counts of the index laid over the extents that came from the fabric. */
  function Overlaid(extents: seq<SlabExtent>, live: seq<SlabExtent>): (r: seq<SlabExtent>)
    ensures |r| == |extents|
  {
    if live == [] then extents
    else
      var last := live[|live| - 1];
      SetRef(Overlaid(extents, live[..|live| - 1]), last.chunkId, last.refcount)
  }

  function LastRef(live: seq<SlabExtent>, id: ChunkId): Option<nat> {
    if live == [] then None
    else if live[|live| - 1].chunkId == id then Some(live[|live| - 1].refcount)
    else LastRef(live[..|live| - 1], id)
  }

  /** Only the first extent of a chunk takes a count from the index, and it takes the last one there. */
  lemma {:induction false} OverlayAt(extents: seq<SlabExtent>, live: seq<SlabExtent>)
    ensures forall i :: 0 <= i < |extents| ==>
              var id := extents[i].chunkId;
              Overlaid(extents, live)[i] == extents[i].(refcount :=
                if Find(extents, id) == Some(i) && LastRef(live, id).Some? then LastRef(live, id).value else extents[i].refcount)
  {
    if live != [] {
      var front, last := live[..|live| - 1], live[|live| - 1];
      OverlayAt(extents, front);
      FindFrom(Overlaid(extents, front), extents, last.chunkId);
    }
  }

  function Decremented(extents: seq<SlabExtent>, id: ChunkId): (r: seq<SlabExtent>)
    ensures |r| == |extents|
  {
    match Find(extents, id)
    case None => extents
    case Some(i) => extents[i := extents[i].(refcount := SaturatingSub(extents[i].refcount, 1))]
  }

  function DecrementedAll(extents: seq<SlabExtent>, ids: seq<ChunkId>): (r: seq<SlabExtent>)
    ensures |r| == |extents|
  {
    if ids == [] then extents else Decremented(DecrementedAll(extents, ids[..|ids| - 1]), ids[|ids| - 1])
  }

  function Count(ids: seq<ChunkId>, id: ChunkId): nat {
    if ids == [] then 0 else Count(ids[..|ids| - 1], id) + if ids[|ids| - 1] == id then 1 else 0
  }

  /** Any run of decrements counts down the first extent of each chunk and no other. */
  lemma {:induction false} DecrementedAt(extents: seq<SlabExtent>, ids: seq<ChunkId>)
    ensures forall i :: 0 <= i < |extents| ==>
              var id := extents[i].chunkId;
              DecrementedAll(extents, ids)[i] == extents[i].(refcount :=
                if Find(extents, id) == Some(i) then SaturatingSub(extents[i].refcount, Count(ids, id)) else extents[i].refcount)
  {
    if ids != [] {
      var front := ids[..|ids| - 1];
      DecrementedAt(extents, front);
      FindFrom(DecrementedAll(extents, front), extents, ids[|ids| - 1]);
    }
  }

  predicate AllDead(extents: seq<SlabExtent>) { forall i :: 0 <= i < |extents| ==> extents[i].refcount == 0 }

  ghost predicate DistinctChunks(extents: seq<SlabExtent>) {
    forall i, j :: 0 <= i < j < |extents| ==> extents[i].chunkId != extents[j].chunkId
  }

  lemma {:induction false} CountIs(ids: seq<ChunkId>, id: ChunkId)
    ensures Count(ids, id) > 0 <==> id in ids
  {
    if ids != [] {
      CountIs(ids[..|ids| - 1], id);
      SplitLast(ids);
    }
  }

  /** A slab whose extents start with one reference each becomes collectable by decrements exactly when every chunk
      has been released and no chunk was packed twice: a second extent of the same chunk is never counted down. */
  lemma {:induction false} CollectableIff(extents: seq<SlabExtent>, ids: seq<ChunkId>)
    requires forall i :: 0 <= i < |extents| ==> extents[i].refcount == 1
    ensures AllDead(DecrementedAll(extents, ids)) <==>
            DistinctChunks(extents) && forall i :: 0 <= i < |extents| ==> extents[i].chunkId in ids
  {
    DecrementedAt(extents, ids);
    var after := DecrementedAll(extents, ids);
    forall i | 0 <= i < |extents|
      ensures after[i].refcount == 0 <==> Find(extents, extents[i].chunkId) == Some(i) && extents[i].chunkId in ids
    {
      CountIs(ids, extents[i].chunkId);
    }
    forall i | 0 <= i < |extents|
      ensures Find(extents, extents[i].chunkId).Some? && Find(extents, extents[i].chunkId).value <= i
      ensures Find(extents, extents[i].chunkId) == Some(i) <==> forall j :: 0 <= j < i ==> extents[j].chunkId != extents[i].chunkId
    {
      FindFirst(extents, extents[i].chunkId);
    }
  }

  /** Two compositions that share a chunk make a pass pack it twice, if both reads succeed and the age limit passes
      between the two; and then no releases ever make that slab collectable. */
  lemma {:induction false} SharedChunkNeverCollected(env: Env, pool: string, a: Uuid, b: Uuid, x: ChunkId,
                                                     bytes: Bytes, ids: seq<ChunkId>)
    requires env.read(0, x) == Some(bytes) && env.read(1, x) == Some(bytes) && |bytes| < SLAB_BYTE_BUDGET
    requires SaturatingSub(env.clock(1), env.clock(0)) < SLAB_AGE_TIMEOUT <= SaturatingSub(env.clock(3), env.clock(0))
    ensures var spaces := [[Composition(a, [x], []), Composition(b, [x], [])]];
            var batches := PassCuts(env, Items(Candidates(spaces, pool), env.read)).batches;
            && batches == [[Item(a, 0, Chunk(x, bytes)), Item(b, 0, Chunk(x, bytes))]]
            && !AllDead(DecrementedAll(ExtentsOf(ChunksOf(batches[0])), ids))
  {
    var one, two := Composition(a, [x], []), Composition(b, [x], []);
    var first, second := Candidate(a, 0, x), Candidate(b, 0, x);
    var i, j := Item(a, 0, Chunk(x, bytes)), Item(b, 0, Chunk(x, bytes));
    SharedCandidates(pool, one, two, x);
    SharedItems(env.read, first, second);
    SharedCuts(env, i, j);
    SharedExtents([i, j], ids);
  }

  lemma {:induction false} SharedCandidates(pool: string, one: Composition, two: Composition, x: ChunkId)
    requires one.chunks == two.chunks == [x] && one.locations == two.locations == []
    ensures Candidates([[one, two]], pool) == [Candidate(one.id, 0, x), Candidate(two.id, 0, x)]
  {
    var first, second := Candidate(one.id, 0, x), Candidate(two.id, 0, x);
    assert OfComposition([], one, pool, 1) == [first];
    assert OfComposition([first], two, pool, 1) == [first] + [second];
    assert [one][..0] == [] && [one, two][..1] == [one];
    assert OfNamespace([], [one], pool) == [first];
    assert OfNamespace([], [one, two], pool) == [first, second];
    assert [[one, two]][..0] == [];
  }

  lemma {:induction false} SharedItems(read: (nat, ChunkId) -> Option<Bytes>, first: Candidate, second: Candidate)
    requires read(0, first.chunk).Some? && read(1, second.chunk).Some?
    ensures Items([first, second], read) ==
            [Item(first.comp, first.index, Chunk(first.chunk, read(0, first.chunk).value)),
             Item(second.comp, second.index, Chunk(second.chunk, read(1, second.chunk).value))]
  {
    OneItem(read, first);
    ItemsSnoc([first], second, read);
    assert [first] + [second] == [first, second];
  }

  lemma {:induction false} OneItem(read: (nat, ChunkId) -> Option<Bytes>, c: Candidate)
    requires read(0, c.chunk).Some?
    ensures Items([c], read) == [Item(c.comp, c.index, Chunk(c.chunk, read(0, c.chunk).value))]
  {
    assert [c][..0] == [];
  }

  lemma {:induction false} SharedCuts(env: Env, i: Item, j: Item)
    requires |i.chunk.bytes| < SLAB_BYTE_BUDGET
    requires SaturatingSub(env.clock(1), env.clock(0)) < SLAB_AGE_TIMEOUT <= SaturatingSub(env.clock(3), env.clock(0))
    ensures PassCuts(env, [i, j]).batches == [[i, j]]
  {
    var since := Some(env.clock(0));
    FirstCut(env, i);
    CutAllSnoc(env, [i], j);
    assert [i] + [j] == [i, j];
    assert Added(env, Cuts([], [i], since, 2), j) == Cuts([], [i, j], since, 3);
    assert Full([i, j], since, env.clock(3));
    assert [] + [[i, j]] == [[i, j]];
  }

  lemma {:induction false} FirstCut(env: Env, i: Item)
    requires |i.chunk.bytes| < SLAB_BYTE_BUDGET && SaturatingSub(env.clock(1), env.clock(0)) < SLAB_AGE_TIMEOUT
    ensures CutAll(env, [i]) == Cuts([], [i], Some(env.clock(0)), 2)
  {
    CutAllSnoc(env, [], i);
    var none: seq<Item> := [];
    assert none + [i] == [i];
    OneChunk(i);
    var one := Added(env, NoCuts, i);
    assert one == Cuts([], [i], Some(env.clock(0)), 1);
    assert !Full([i], Some(env.clock(0)), env.clock(1));
  }

  lemma {:induction false} OneChunk(i: Item)
    ensures TotalLen(ChunksOf([i])) == |i.chunk.bytes|
  {
    assert ChunksOf([i]) == [i.chunk];
  }

  lemma {:induction false} SharedExtents(batch: seq<Item>, ids: seq<ChunkId>)
    requires |batch| == 2 && batch[0].chunk.id == batch[1].chunk.id
    ensures !AllDead(DecrementedAll(ExtentsOf(ChunksOf(batch)), ids))
  {
    var chunks := ChunksOf(batch);
    PackedAt(chunks, 0);
    PackedAt(chunks, 1);
    CollectableIff(ExtentsOf(chunks), ids);
  }

  /** For every chunk the first extent's count is the last one's. */
  predicate FirstIsLast(extents: seq<SlabExtent>) {
    forall i :: 0 <= i < |extents| && Find(extents, extents[i].chunkId) == Some(i) ==>
                  LastRef(extents, extents[i].chunkId) == Some(extents[i].refcount)
  }

  lemma {:induction false} LastRefSome(extents: seq<SlabExtent>, i: nat)
    requires i < |extents|
    ensures LastRef(extents, extents[i].chunkId).Some?
  {
    if i < |extents| - 1 {
      LastRefSome(extents[..|extents| - 1], i);
    }
  }

  /** After any run of releases, laying the index's counts over the packed extents gives the index's extents exactly
      when first and last counts agree. */
  lemma {:induction false} OverlayIff(extents: seq<SlabExtent>, ids: seq<ChunkId>)
    ensures Overlaid(extents, DecrementedAll(extents, ids)) == DecrementedAll(extents, ids)
            <==> FirstIsLast(DecrementedAll(extents, ids))
  {
    var live := DecrementedAll(extents, ids);
    DecrementedAt(extents, ids);
    OverlayAt(extents, live);
    forall i | 0 <= i < |extents|
      ensures live[i].chunkId == extents[i].chunkId && Find(live, live[i].chunkId) == Find(extents, extents[i].chunkId)
      ensures Overlaid(extents, live)[i] == live[i] <==>
              (Find(live, live[i].chunkId) == Some(i) ==> LastRef(live, live[i].chunkId) == Some(live[i].refcount))
    {
      FindFrom(live, extents, extents[i].chunkId);
      LastRefSome(live, i);
    }
  }

  /* ---------------------------------------------------------------- the store */

  /** The chunk id of a slab: its uuid, the letters SLAB, zeros. */
  function SlabChunk(id: Uuid): nat { LeValue(LeBytes(id, 16) + [0x53, 0x4c, 0x41, 0x42] + Zeros(12)) }

  /** The index after a slab was put. */
  function AfterPut(table: map<Uuid, Bytes>, slab: Slab): map<Uuid, Bytes> { table[slab.id := Table(slab.extents)] }

  function Row(table: map<Uuid, Bytes>, id: Uuid): Option<seq<SlabExtent>> {
    if id in table then Stored(table[id], EXTENT_LEN, ExtentOf) else None
  }

  function OwnerRow(table: map<Uuid, Bytes>, id: Uuid): seq<Owner> {
    if id in table then
      (match Stored(table[id], OWNER_LEN, OwnerOf) case None => [] case Some(owners) => owners)
    else []
  }

  /** The index after one release. */
  function Released(table: map<Uuid, Bytes>, id: Uuid, chunk: ChunkId): map<Uuid, Bytes> {
    match Row(table, id)
    case None => table
    case Some(extents) => if Find(extents, chunk).None? then table else table[id := Table(Decremented(extents, chunk))]
  }

  datatype StoreError<E> = Fabric(fabric: E) | Codec(codec: CodecError) | Index

  /** The slab a read returns: what the fabric holds, under the counts of the index. */
  function Fetched<E>(table: map<Uuid, Bytes>, id: Uuid, read: Result<Bytes, E>): Result<Slab, StoreError<E>> {
    match read
    case Err(e) => Err(Fabric(e))
    case Ok(bytes) =>
      match Deserialised(id, bytes)
      case Err(e) => Err(Codec(e))
      case Ok(slab) =>
        match Row(table, id)
        case None => Ok(slab)
        case Some(live) => Ok(slab.(extents := Overlaid(slab.extents, live)))
  }

  /** The store's two tables. For every call `io` says which of its table operations succeed, in order; a failure to
      persist is reported although the change is there. */
  class FabricSlabStore {
    var refs: map<Uuid, Bytes>
    var owners: map<Uuid, Bytes>

    /** Writes the serialised slab to the fabric under the slab's chunk id, then the index row. */
    method PutSlab<E>(slab: Slab, write: (nat, Bytes) -> Result<(), E>, io: nat -> bool)
      returns (r: Result<(), StoreError<E>>)
      modifies this`refs
      ensures r == match write(SlabChunk(slab.id), Serialised(slab))
                   case Err(e) => Err(Fabric(e))
                   case Ok(_) => if io(0) && io(1) then Ok(()) else Err(Index)
      ensures refs == if write(SlabChunk(slab.id), Serialised(slab)).Ok? && io(0) then AfterPut(old(refs), slab) else old(refs)
    {
      var payload := SerialiseSlab(slab);
      var wrote := write(SlabChunk(slab.id), payload);
      if wrote.Err? {
        return Err(Fabric(wrote.error));
      }
      var buf: Bytes := [];
      for i := 0 to |slab.extents|
        invariant buf == Table(slab.extents[..i]) && refs == old(refs)
      {
        TakeTake(slab.extents, i, i + 1);
        buf := buf + ExtentBytes(slab.extents[i]);
      }
      TakeAll(slab.extents);
      if !io(0) {
        return Err(Index);
      }
      refs := refs[slab.id := buf];
      return if io(1) then Ok(()) else Err(Index);
    }

    method Lookup(id: Uuid) returns (r: Option<seq<SlabExtent>>)
      ensures r == Row(refs, id)
    {
      if id !in refs {
        return None;
      }
      r := ParseRecords(refs[id], EXTENT_LEN, ExtentOf);
    }

    /** Reads the slab's chunk from the fabric, parses it and lays the index's counts over its extents. */
    method GetSlab<E>(id: Uuid, read: nat -> Result<Bytes, E>, io: nat -> bool) returns (r: Result<Slab, StoreError<E>>)
      ensures var fetched := Fetched(refs, id, read(SlabChunk(id)));
              r == if fetched.Ok? && !io(0) then Err(Index) else fetched
    {
      var got := read(SlabChunk(id));
      if got.Err? {
        return Err(Fabric(got.error));
      }
      var parsed := DeserialiseSlab(id, got.value);
      if parsed.Err? {
        return Err(Codec(parsed.error));
      }
      if !io(0) {
        return Err(Index);
      }
      var slab := parsed.value;
      var live := Lookup(id);
      if live.Some? {
        var extents := slab.extents;
        for n := 0 to |live.value|
          invariant extents == Overlaid(slab.extents, live.value[..n])
        {
          TakeTake(live.value, n, n + 1);
          var at := Find(extents, live.value[n].chunkId);
          if at.Some? {
            extents := extents[at.value := extents[at.value].(refcount := live.value[n].refcount)];
          }
        }
        TakeAll(live.value);
        slab := slab.(extents := extents);
      }
      return Ok(slab);
    }

    method DecrementRefcount(id: Uuid, chunk: ChunkId, io: nat -> bool) returns (r: Result<(), StoreError<()>>)
      modifies this`refs
      ensures var row := Row(old(refs), id);
              && r == (if !io(0) then Err(Index)
                       else if row.None? then Err(Codec(SlabNotFound(id)))
                       else if Find(row.value, chunk).None? || (io(1) && io(2)) then Ok(())
                       else Err(Index))
              && refs == if io(0) && io(1) then Released(old(refs), id, chunk) else old(refs)
    {
      if !io(0) {
        return Err(Index);
      }
      var row := Lookup(id);
      if row.None? {
        return Err(Codec(SlabNotFound(id)));
      }
      var at := Find(row.value, chunk);
      if at.Some? {
        if !io(1) {
          return Err(Index);
        }
        var e := row.value[at.value];
        refs := refs[id := Table(row.value[at.value := e.(refcount := SaturatingSub(e.refcount, 1))])];
        if !io(2) {
          return Err(Index);
        }
      }
      return Ok(());
    }

    /** Once nothing in a slab is referenced, deletes its chunk from the fabric, whatever comes of that, and drops both
        its rows. The first result is the chunk the fabric is asked to delete. */
    method GcSlab(id: Uuid, io: nat -> bool) returns (deleted: Option<nat>, r: Result<(), StoreError<()>>)
      modifies this
      ensures var row := Row(old(refs), id);
              if io(0) && row.Some? && AllDead(row.value) then
                && deleted == Some(SlabChunk(id)) && r == (if io(1) && io(2) && io(3) then Ok(()) else Err(Index))
                && refs == (if io(1) then old(refs) - {id} else old(refs))
                && owners == if io(1) && io(2) then old(owners) - {id} else old(owners)
              else
                deleted == None && r == (if io(0) then Ok(()) else Err(Index)) && refs == old(refs) && owners == old(owners)
    {
      if !io(0) {
        return None, Err(Index);
      }
      var row := Lookup(id);
      if row.None? {
        return None, Ok(());
      }
      for i := 0 to |row.value|
        invariant refs == old(refs) && owners == old(owners)
        invariant forall j :: 0 <= j < i ==> row.value[j].refcount == 0
      {
        if row.value[i].refcount != 0 {
          return None, Ok(());
        }
      }
      deleted := Some(SlabChunk(id));
      if !io(1) {
        return deleted, Err(Index);
      }
      refs := refs - {id};
      if !io(2) {
        return deleted, Err(Index);
      }
      owners := owners - {id};
      r := if io(3) then Ok(()) else Err(Index);
    }

    method RecordOwners(id: Uuid, list: seq<Owner>, io: nat -> bool) returns (r: Result<(), StoreError<()>>)
      modifies this`owners
      ensures r == if io(0) && io(1) then Ok(()) else Err(Index)
      ensures owners == if io(0) then old(owners)[id := Records(list, OwnerBytes)] else old(owners)
    {
      var buf: Bytes := [];
      for i := 0 to |list|
        invariant buf == Records(list[..i], OwnerBytes) && owners == old(owners)
      {
        TakeTake(list, i, i + 1);
        buf := buf + OwnerBytes(list[i]);
      }
      TakeAll(list);
      if !io(0) {
        return Err(Index);
      }
      owners := owners[id := buf];
      return if io(1) then Ok(()) else Err(Index);
    }

    method OwnersFor(id: Uuid, io: nat -> bool) returns (r: Result<seq<Owner>, StoreError<()>>)
      ensures r == if io(0) then Ok(OwnerRow(owners, id)) else Err(Index)
    {
      if !io(0) {
        return Err(Index);
      }
      if id !in owners {
        return Ok([]);
      }
      var parsed := ParseRecords(owners[id], OWNER_LEN, OwnerOf);
      return Ok(if parsed.None? then [] else parsed.value);
    }
  }

  /* ---------------------------------------------------------------- the index over a run of releases */

  function ReleasedAll(table: map<Uuid, Bytes>, id: Uuid, ids: seq<ChunkId>): map<Uuid, Bytes> {
    if ids == [] then table else Released(ReleasedAll(table, id, ids[..|ids| - 1]), id, ids[|ids| - 1])
  }

  /** The bytes of the index say, after any run of releases, what the counts are. */
  lemma {:induction false} IndexTracks(table: map<Uuid, Bytes>, slab: Slab, ids: seq<ChunkId>)
    requires ExtentsFit(slab.extents)
    ensures ExtentsFit(DecrementedAll(slab.extents, ids))
    ensures Row(ReleasedAll(AfterPut(table, slab), slab.id, ids), slab.id) == Some(DecrementedAll(slab.extents, ids))
  {
    if ids == [] {
      IndexRoundTrip(slab.extents);
    } else {
      var front := ids[..|ids| - 1];
      IndexTracks(table, slab, front);
      DecrementedFits(DecrementedAll(slab.extents, front), ids[|ids| - 1]);
      IndexRoundTrip(DecrementedAll(slab.extents, ids));
    }
  }

  lemma {:induction false} DecrementedFits(extents: seq<SlabExtent>, id: ChunkId)
    requires ExtentsFit(extents)
    ensures ExtentsFit(Decremented(extents, id))
  {
  }
}
