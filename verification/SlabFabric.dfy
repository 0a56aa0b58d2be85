/** A slab stored as one erasure-coded chunk and read back without its length:
    crates/kiseki-chunk-cluster/src/slab_store.rs over crates/kiseki-chunk-cluster/src/lib.rs. */
module SlabFabric {
  import opened Base
  import opened Slabs
  import opened SlabCodec
  import opened SlabStore
  import Cluster
  import ClusterRead
  import C = Compactor
  import Durability

  lemma {:induction false} LeValueAppend(a: Bytes, b: Bytes)
    ensures LeValue(a + b) == LeValue(a) + Pow256(|a|) * LeValue(b)
  {
    if a == [] {
      assert a + b == b;
    } else {
      LeValueAppend(a[1..], b);
      assert (a + b)[1..] == a[1..] + b;
      assert 256 * (Pow256(|a| - 1) * LeValue(b)) == Pow256(|a|) * LeValue(b);
    }
  }

  lemma {:induction false} SlabChunkInjective(a: Uuid, b: Uuid)
    requires a < Pow256(16) && b < Pow256(16) && SlabChunk(a) == SlabChunk(b)
    ensures a == b
  {
    var marker: Bytes := [0x53, 0x4c, 0x41, 0x42] + Zeros(12);
    forall id | id in {a, b}
      ensures SlabChunk(id) == LeValue(LeBytes(id, 16)) + Pow256(16) * LeValue(marker)
    {
      LeValueAppend(LeBytes(id, 16), marker);
      assert LeBytes(id, 16) + [0x53, 0x4c, 0x41, 0x42] + Zeros(12) == LeBytes(id, 16) + marker;
    }
    LeRoundTrip(a, 16);
    LeRoundTrip(b, 16);
  }

  /** Dropping the trailing zeros of a serialised slab loses it, and nothing else does. */
  lemma {:induction false} StrippedSlab(slab: Slab)
    requires SlabFits(slab) && CountsAgree(slab)
    ensures var b := Serialised(slab);
            && b != []
            && Deserialised(slab.id, StripZeros(b)) == if b[|b| - 1] != 0 then Ok(slab) else Err(SlabNotFound(slab.id))
  {
    var b := Serialised(slab);
    AppendNothing(b);
    ParsedFields(slab, []);
    PrefixIs(StripZeros(b), b);
    if b[|b| - 1] != 0 {
      SlabRoundTrip(slab, []);
    } else {
      SlabTruncated(slab, |StripZeros(b)|);
    }
  }

  /** What the store gets from the fabric: the bytes of an envelope. */
  function Payload(r: Result<ClusterRead.Envelope, ClusterRead.ReadError>): Result<Bytes, ClusterRead.ReadError> {
    match r
    case Ok(e) => Ok(e.bytes)
    case Err(error) => Err(error)
  }

  /** The read `get_slab` makes: no length, fetches served at any points of the run. */
  function FabricRead(cfg: Cluster.Config, events: seq<Cluster.Event>, reader: ClusterRead.Reader, id: Uuid,
                      order: seq<nat>, times: seq<nat>): Result<Bytes, ClusterRead.ReadError>
    requires ClusterRead.Timed(events, order, times)
  {
    Payload(ClusterRead.ReadEc(cfg, reader, SlabChunk(id), ClusterRead.FetchesAt(cfg, events, order, times), None))
  }

  predicate EndsInZero(b: Bytes) { b != [] && b[|b| - 1] == 0 }

  /** Over every run, from every node, in every completion order: the serialised slab is read and parses back exactly
      when k fragments answer, crypto fields are found and its bytes do not end in zero. */
  lemma {:induction false} SlabThroughFabric(cfg: Cluster.Config, events: seq<Cluster.Event>, slab: Slab,
                                             reader: ClusterRead.Reader,
                                             order: seq<nat>, times: seq<nat>)
    requires Cluster.Configured(cfg) && NoDup(order) && ClusterRead.Timed(events, order, times)
    requires SlabFits(slab) && CountsAgree(slab)
    requires var content := Cluster.Run(cfg, events).content;
             SlabChunk(slab.id) in content && content[SlabChunk(slab.id)] == Serialised(slab)
    ensures var r := FabricRead(cfg, events, reader, slab.id, order, times);
            && (r.Ok? <==> ClusterRead.Readable(cfg, reader, SlabChunk(slab.id), ClusterRead.FetchesAt(cfg, events, order, times)))
            && (r.Ok? ==> Deserialised(slab.id, r.value) ==
                          if EndsInZero(Serialised(slab)) then Err(SlabNotFound(slab.id)) else Ok(slab))
  {
    ClusterRead.ReadWithoutLength(cfg, events, reader, SlabChunk(slab.id), order, times);
    StrippedSlab(slab);
  }

  /** `get_slab` after `put_slab` and any run of releases, over every run of the cluster: the slab comes back, with the
      counts of the index, exactly when k fragments answer, crypto fields are found, its bytes do not end in zero, and
      for every chunk the first extent's count is the last one's. With no releases this is the slab as it was put. */
  lemma {:induction false} GetAfterPut(cfg: Cluster.Config, events: seq<Cluster.Event>, table: map<Uuid, Bytes>,
                                       slab: Slab, ids: seq<ChunkId>, reader: ClusterRead.Reader, order: seq<nat>,
                                       times: seq<nat>)
    requires Cluster.Configured(cfg) && NoDup(order) && ClusterRead.Timed(events, order, times)
    requires SlabFits(slab) && CountsAgree(slab)
    requires var content := Cluster.Run(cfg, events).content;
             SlabChunk(slab.id) in content && content[SlabChunk(slab.id)] == Serialised(slab)
    ensures var counted := DecrementedAll(slab.extents, ids);
            Fetched(ReleasedAll(AfterPut(table, slab), slab.id, ids), slab.id, FabricRead(cfg, events, reader, slab.id, order, times))
              == Ok(slab.(extents := counted)) <==>
            && ClusterRead.Readable(cfg, reader, SlabChunk(slab.id), ClusterRead.FetchesAt(cfg, events, order, times))
            && !EndsInZero(Serialised(slab)) && FirstIsLast(counted)
  {
    SlabThroughFabric(cfg, events, slab, reader, order, times);
    var read := FabricRead(cfg, events, reader, slab.id, order, times);
    if read.Ok? && !EndsInZero(Serialised(slab)) {
      FetchedAfterReleases(table, slab, ids, read);
    }
  }

  /** So a slab whose put returned Ok is read back as it was put, as long as the reader reaches k of its acknowledged
      fragments that are not lost and crypto fields are found, if it does not end in zero and no count differs between
      copies of a chunk. */
  lemma {:induction false} SlabSurvives(cfg: Cluster.Config, events: seq<Cluster.Event>, t0: nat, w: nat,
                                        have: set<nat>, table: map<Uuid, Bytes>, slab: Slab, reader: ClusterRead.Reader,
                                        order: seq<nat>, times: seq<nat>)
    requires Cluster.Configured(cfg) && NoDup(order) && ClusterRead.Timed(events, order, times)
    requires SlabFits(slab) && CountsAgree(slab) && !EndsInZero(Serialised(slab)) && FirstIsLast(slab.extents)
    requires t0 <= |events| && forall n :: 0 <= n < |times| ==> t0 <= times[n]
    requires w in Cluster.Run(cfg, events[..t0]).writes && Cluster.Run(cfg, events[..t0]).writes[w].status.Succeeded?
    requires w in Cluster.Run(cfg, events).writes
    requires var s := Cluster.Run(cfg, events);
             && s.writes[w].chunk == SlabChunk(slab.id)
             && SlabChunk(slab.id) in s.content && s.content[SlabChunk(slab.id)] == Serialised(slab)
             && have <= Durability.Safe(s.writes[w]) && |have| >= cfg.k
    requires forall i :: i in have ==> i in order && Durability.Reaches(cfg, reader, SlabChunk(slab.id), i)
    requires ClusterRead.CryptoFound(cfg, reader, SlabChunk(slab.id), ClusterRead.FetchesAt(cfg, events, order, times)).Some?
    ensures Fetched(AfterPut(table, slab), slab.id, FabricRead(cfg, events, reader, slab.id, order, times)) == Ok(slab)
  {
    Durability.SafeAnswers(cfg, events, t0, w, have, reader, order, times);
    SubsetSize(have, ClusterRead.Answering(cfg, reader.at, SlabChunk(slab.id), ClusterRead.FetchesAt(cfg, events, order, times)));
    GetAfterPut(cfg, events, table, slab, [], reader, order, times);
  }

  lemma {:induction false} LastRefOne(extents: seq<SlabExtent>, i: nat)
    requires i < |extents| && forall j :: 0 <= j < |extents| ==> extents[j].refcount == 1
    ensures LastRef(extents, extents[i].chunkId) == Some(1)
  {
    if i < |extents| - 1 {
      LastRefOne(extents[..|extents| - 1], i);
    }
  }

  /** A slab the compactor packs is one of the good ones when its last chunk is not empty and does not end in a zero,
      as a serialised envelope never does; a chunk packed twice does not matter until it is released. */
  lemma {:induction false} PackedSlabIsGood(id: Uuid, chunks: seq<Chunk>, k: nat, m: nat)
    requires Packable(chunks) && |chunks| < U32 && k < U16 && m < U16 && TotalLen(chunks) < U64
    requires forall i :: 0 <= i < |chunks| ==> chunks[i].id < Pow256(32)
    ensures SlabFits(Packed(id, chunks, k, m)) && CountsAgree(Packed(id, chunks, k, m))
    ensures FirstIsLast(Packed(id, chunks, k, m).extents)
    ensures chunks != [] && (var last := chunks[|chunks| - 1].bytes; last != [] && last[|last| - 1] != 0) ==>
              var b := Serialised(Packed(id, chunks, k, m)); b != [] && b[|b| - 1] != 0
  {
    Widths();
    forall i | 0 <= i < |chunks|
      ensures ExtentFits(ExtentsOf(chunks)[i])
    {
      PackedAt(chunks, i);
      PrefixLen(chunks, i);
    }
    OnesFirstIsLast(chunks);
  }

  lemma {:induction false} OnesFirstIsLast(chunks: seq<Chunk>)
    ensures FirstIsLast(ExtentsOf(chunks))
  {
    var extents := ExtentsOf(chunks);
    forall i | 0 <= i < |extents|
      ensures extents[i].refcount == 1
    {
      PackedAt(chunks, i);
    }
    forall i | 0 <= i < |extents|
      ensures LastRef(extents, extents[i].chunkId) == Some(1)
    {
      LastRefOne(extents, i);
    }
  }

  lemma {:induction false} PrefixLen(chunks: seq<Chunk>, i: nat)
    requires i <= |chunks|
    ensures TotalLen(chunks[..i]) <= TotalLen(chunks)
  {
    if i < |chunks| {
      PrefixLen(chunks[..|chunks| - 1], i);
      assert chunks[..|chunks| - 1][..i] == chunks[..i];
    } else {
      assert chunks[..i] == chunks;
    }
  }

  /** A fetch after any run of releases returns the packed data with the counts of the index exactly when, for every
      chunk, the first extent's count is the last one's. */
  lemma {:induction false} FetchedAfterReleases<E>(table: map<Uuid, Bytes>, slab: Slab, ids: seq<ChunkId>,
                                                   read: Result<Bytes, E>)
    requires SlabFits(slab) && read.Ok? && Deserialised(slab.id, read.value) == Ok(slab)
    ensures var counted := DecrementedAll(slab.extents, ids);
            Fetched(ReleasedAll(AfterPut(table, slab), slab.id, ids), slab.id, read) == Ok(slab.(extents := counted))
            <==> FirstIsLast(counted)
  {
    IndexTracks(table, slab, ids);
    OverlayIff(slab.extents, ids);
  }

  /** That is so when no chunk was packed twice. */
  lemma {:induction false} DistinctFirstIsLast(extents: seq<SlabExtent>, ids: seq<ChunkId>)
    requires DistinctChunks(extents)
    ensures FirstIsLast(DecrementedAll(extents, ids))
  {
    DecrementedAt(extents, ids);
    var counted := DecrementedAll(extents, ids);
    forall i | 0 <= i < |counted|
      ensures LastRef(counted, counted[i].chunkId) == Some(counted[i].refcount)
    {
      LastRefAt(counted, i);
    }
  }

  lemma {:induction false} LastRefAt(live: seq<SlabExtent>, i: nat)
    requires DistinctChunks(live) && i < |live|
    ensures LastRef(live, live[i].chunkId) == Some(live[i].refcount)
  {
    if i < |live| - 1 {
      LastRefAt(live[..|live| - 1], i);
    }
  }

  /** They no longer agree once a chunk packed twice is released: the first count is down, the last is not. */
  lemma {:induction false} ReleasedTwin(x: ChunkId, bytes: Bytes)
    ensures !FirstIsLast(DecrementedAll(ExtentsOf([Chunk(x, bytes), Chunk(x, bytes)]), [x]))
  {
    var chunks := [Chunk(x, bytes), Chunk(x, bytes)];
    var extents := ExtentsOf(chunks);
    PackedAt(chunks, 0);
    PackedAt(chunks, 1);
    FindFirst(extents, x);
    DecrementedAt(extents, [x]);
    assert [x][..0] == [] && Count([x], x) == 1;
    var counted := DecrementedAll(extents, [x]);
    FindFrom(counted, extents, x);
    assert counted[0].refcount == 0 && counted[1].refcount == 1 && counted[1].chunkId == x;
    assert LastRef(counted, x) == Some(1);
  }

  /* ---------------------------------------------------------------- from a delta to the bytes */

  /** What the compactor reads: chunk ids of 32 bytes, and serialised envelopes, which never end in a zero. */
  predicate Envelopes(items: seq<C.Item>) {
    forall i :: 0 <= i < |items| ==>
      var bytes := items[i].chunk.bytes;
      items[i].chunk.id < Pow256(32) && bytes != [] && bytes[|bytes| - 1] != 0
  }

  /** A batch within the caps, but for its last chunk, fits every width of a slab. */
  lemma {:induction false} BatchFits(batch: seq<C.Item>)
    requires C.Bounded(batch) && Packable(C.ChunksOf(batch))
    ensures |C.ChunksOf(batch)| < U32 && TotalLen(C.ChunksOf(batch)) < U64
  {
    var n := |batch| - 1;
    C.ChunksOfPrefix(batch, n);
    assert C.ChunksOf(batch)[..n] == C.ChunksOf(batch[..n]);
    assert |C.ChunksOf(batch)[n].bytes| < U32;
  }

  lemma {:induction false} BatchEnvelopes(env: C.Env, items: seq<C.Item>, n: nat)
    requires n < |C.PassCuts(env, items).batches| && Envelopes(items)
    ensures Envelopes(C.PassCuts(env, items).batches[n])
  {
    var p := C.PassCuts(env, items);
    C.CutsKeepItems(env, items);
    forall i | 0 <= i < |p.batches[n]|
      ensures p.batches[n][i] in items
    {
      C.FlatAt(p.batches, n, i);
      assert p.All()[|C.Flat(p.batches[..n])| + i] == p.batches[n][i];
    }
  }

  /** A slab the fabric gives back whole. */
  ghost predicate Whole(slab: Slab) {
    SlabFits(slab) && CountsAgree(slab) && !EndsInZero(Serialised(slab)) && FirstIsLast(slab.extents)
  }

  /** Chunks that fit the widths of a slab and do not end it in a zero. */
  ghost predicate Fitting(chunks: seq<Chunk>) {
    && Packable(chunks) && |chunks| < U32 && TotalLen(chunks) < U64 && chunks != []
    && (forall i :: 0 <= i < |chunks| ==> chunks[i].id < Pow256(32))
    && var last := chunks[|chunks| - 1].bytes; last != [] && last[|last| - 1] != 0
  }

  lemma {:induction false} PackedWhole(id: Uuid, chunks: seq<Chunk>, k: nat, m: nat)
    requires Fitting(chunks) && k < U16 && m < U16
    ensures Whole(Packed(id, chunks, k, m))
  {
    PackedSlabIsGood(id, chunks, k, m);
  }

  lemma {:induction false} EnvelopesFit(batch: seq<C.Item>, chunks: seq<Chunk>)
    requires Envelopes(batch) && |chunks| == |batch| > 0
    requires forall i :: 0 <= i < |batch| ==> chunks[i] == batch[i].chunk
    requires Packable(chunks) && |chunks| < U32 && TotalLen(chunks) < U64
    ensures Fitting(chunks)
  {
  }

  /** Every slab a pass stores comes back from the fabric whole. */
  lemma {:induction false} PassSlabIsGood(cfg: C.Cfg, env: C.Env, items: seq<C.Item>, slab: Slab)
    requires slab in C.SlabsOf(cfg, env, C.PassCuts(env, items).batches) && cfg.k < U16 && cfg.m < U16 && Envelopes(items)
    ensures Whole(slab)
  {
    var batches := C.PassCuts(env, items).batches;
    var n := C.SlabFrom(cfg, env, batches, slab);
    C.SlabsBounded(env, items);
    C.FlushedIs(cfg, env, n, batches[n]);
    BatchEnvelopes(env, items, n);
    BatchFits(batches[n]);
    EnvelopesFit(batches[n], C.ChunksOf(batches[n]));
    PackedWhole(env.newId(n), C.ChunksOf(batches[n]), cfg.k, cfg.m);
  }

  lemma {:induction false} ParsedData<E>(table: map<Uuid, Bytes>, slab: Slab, read: Result<Bytes, E>)
    requires read.Ok? && Deserialised(slab.id, read.value) == Ok(slab)
    ensures var r := Fetched(table, slab.id, read); r.Ok? && r.value.data == slab.data
  {
  }

  /** Whatever the index says, a readable fetch of a good slab gives its data. */
  lemma {:induction false} FetchedData(fabric: Cluster.Config, events: seq<Cluster.Event>, slab: Slab,
                                       table: map<Uuid, Bytes>,
                                       reader: ClusterRead.Reader, order: seq<nat>, times: seq<nat>)
    requires Cluster.Configured(fabric) && NoDup(order) && ClusterRead.Timed(events, order, times)
    requires SlabFits(slab) && CountsAgree(slab) && !EndsInZero(Serialised(slab))
    requires var content := Cluster.Run(fabric, events).content;
             SlabChunk(slab.id) in content && content[SlabChunk(slab.id)] == Serialised(slab)
    requires ClusterRead.Readable(fabric, reader, SlabChunk(slab.id), ClusterRead.FetchesAt(fabric, events, order, times))
    ensures var r := Fetched(table, slab.id, FabricRead(fabric, events, reader, slab.id, order, times));
            r.Ok? && r.value.data == slab.data
  {
    SlabThroughFabric(fabric, events, slab, reader, order, times);
    ParsedData(table, slab, FabricRead(fabric, events, reader, slab.id, order, times));
  }

  /** The cold read, end to end: for every entry of every delta in the log of a pass there is a slab the pass stored and an
      item it read, such that over every run of the cluster that wrote that slab, and under any index, a readable
      fetch of the delta's slab gives, at the entry's offset and length, exactly the item's bytes. */
  lemma {:induction false} ColdRead(cfg: C.Cfg, env: C.Env, items: seq<C.Item>, delta: C.Delta, j: nat,
                                    fabric: Cluster.Config, events: seq<Cluster.Event>, table: map<Uuid, Bytes>,
                                    reader: ClusterRead.Reader, order: seq<nat>, times: seq<nat>)
    returns (slab: Slab, i: nat)
    requires C.Lawful(env) && delta in C.LogOf(cfg, env, C.PassCuts(env, items).batches) && j < |delta.entries|
    requires cfg.k < U16 && cfg.m < U16 && Envelopes(items)
    requires Cluster.Configured(fabric) && NoDup(order) && ClusterRead.Timed(events, order, times)
    ensures slab in C.SlabsOf(cfg, env, C.PassCuts(env, items).batches) && slab.id == delta.slab
    ensures i < |items| && items[i].comp == delta.comp && delta.entries[j].index == items[i].index % U32
    ensures var content, id := Cluster.Run(fabric, events).content, delta.slab;
            SlabChunk(id) in content && content[SlabChunk(id)] == Serialised(slab)
            && ClusterRead.Readable(fabric, reader, SlabChunk(id), ClusterRead.FetchesAt(fabric, events, order, times)) ==>
              var r := Fetched(table, id, FabricRead(fabric, events, reader, id, order, times));
              r.Ok? && Extracted(r.value.data, delta.entries[j].offset, delta.entries[j].length) == Ok(items[i].chunk.bytes)
  {
    slab, i := C.LogSelects(cfg, env, items, delta, j);
    PassSlabIsGood(cfg, env, items, slab);
    var content := Cluster.Run(fabric, events).content;
    if SlabChunk(slab.id) in content && content[SlabChunk(slab.id)] == Serialised(slab)
       && ClusterRead.Readable(fabric, reader, SlabChunk(slab.id), ClusterRead.FetchesAt(fabric, events, order, times)) {
      FetchedData(fabric, events, slab, table, reader, order, times);
    }
  }
}
