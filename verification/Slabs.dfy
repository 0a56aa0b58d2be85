/** Slabs: many chunks packed into one buffer: crates/kiseki-chunk/src/slab.rs. */
module Slabs {
  import opened Base
  import opened Erasure

  // An identifier is the number its bytes spell: 32 bytes for a chunk, 16 for a slab or a composition.
  type ChunkId = nat
  type Uuid = nat

  const SLAB_FORMAT_VERSION: nat := 1
  const SLAB_BYTE_BUDGET: nat := 64 * 1024 * 1024
  const SLAB_MAX_CHUNKS: nat := 1024
  const SLAB_AGE_TIMEOUT: nat := 30_000 // milliseconds

  datatype SlabHeader = SlabHeader(version: nat, dataShards: nat, parityShards: nat, byteSize: nat, extentCount: nat,
                                   originalLen: nat)

  datatype SlabExtent = SlabExtent(chunkId: ChunkId, offset: nat, length: nat, refcount: nat)

  datatype Slab = Slab(id: Uuid, header: SlabHeader, extents: seq<SlabExtent>, data: Bytes)

  datatype Chunk = Chunk(id: ChunkId, bytes: Bytes)

  /* ---------------------------------------------------------------- packing */

  function TotalLen(chunks: seq<Chunk>): nat {
    if chunks == [] then 0 else TotalLen(chunks[..|chunks| - 1]) + |chunks[|chunks| - 1].bytes|
  }

  function DataOf(chunks: seq<Chunk>): (data: Bytes)
    ensures |data| == TotalLen(chunks)
  {
    if chunks == [] then [] else DataOf(chunks[..|chunks| - 1]) + chunks[|chunks| - 1].bytes
  }

  function ExtentsOf(chunks: seq<Chunk>): (extents: seq<SlabExtent>)
    ensures |extents| == |chunks|
  {
    if chunks == [] then []
    else
      var front, last := chunks[..|chunks| - 1], chunks[|chunks| - 1];
      ExtentsOf(front) + [SlabExtent(last.id, TotalLen(front), |last.bytes|, 1)]
  }

  predicate Packable(chunks: seq<Chunk>) { forall i :: 0 <= i < |chunks| ==> |chunks[i].bytes| < U32 }

  function Packed(id: Uuid, chunks: seq<Chunk>, k: nat, m: nat): Slab {
    Slab(id, SlabHeader(SLAB_FORMAT_VERSION, k, m, TotalLen(chunks), |chunks|, TotalLen(chunks)), ExtentsOf(chunks),
         DataOf(chunks))
  }

  /** Whether packing succeeds. */
  predicate Encodes(code: Code, chunks: seq<Chunk>, k: nat, m: nat) {
    Packable(chunks) && Refused(code, DataOf(chunks), k, m).None?
  }

  method EncodeSlab(code: Code, id: Uuid, chunks: seq<Chunk>, k: nat, m: nat)
    returns (r: Result<(Slab, EcEncoded), EcError>)
    ensures r.Ok? <==> Encodes(code, chunks, k, m)
    ensures r.Ok? ==> r.value.0 == Packed(id, chunks, k, m) && r.value.1.fragments == Fragments(code, DataOf(chunks), k, m)
    ensures r.Err? ==> r.error == if Packable(chunks) then Refused(code, DataOf(chunks), k, m).value else EcInvalidConfig
  {
    if k == 0 || m == 0 {
      return Err(EcInvalidConfig);
    }
    var data: Bytes, extents: seq<SlabExtent>, offset := [], [], 0;
    for n := 0 to |chunks|
      invariant Packable(chunks[..n])
      invariant data == DataOf(chunks[..n]) && extents == ExtentsOf(chunks[..n]) && offset == TotalLen(chunks[..n])
    {
      TakeTake(chunks, n, n + 1);
      var length := |chunks[n].bytes|;
      if length >= U32 {
        return Err(EcInvalidConfig);
      }
      extents := extents + [SlabExtent(chunks[n].id, offset, length, 1)];
      data := data + chunks[n].bytes;
      offset := offset + length;
    }
    TakeAll(chunks);
    var header := SlabHeader(SLAB_FORMAT_VERSION, k, m, offset, |extents|, |data|);
    var encoded := Encode(code, data, k, m);
    if encoded.Err? {
      return Err(encoded.error);
    }
    return Ok((Slab(id, header, extents, data), encoded.value));
  }

  function Extracted(data: Bytes, offset: nat, length: nat): Result<Bytes, EcError> {
    if offset + length > |data| then Err(ChunkLost) else Ok(data[offset..offset + length])
  }

  /** Every extent of a packed slab selects its chunk's bytes. */
  lemma {:induction false} PackedAt(chunks: seq<Chunk>, i: nat)
    requires i < |chunks|
    ensures ExtentsOf(chunks)[i] == SlabExtent(chunks[i].id, TotalLen(chunks[..i]), |chunks[i].bytes|, 1)
    ensures Extracted(DataOf(chunks), TotalLen(chunks[..i]), |chunks[i].bytes|) == Ok(chunks[i].bytes)
  {
    var n := |chunks| - 1;
    var front, at := DataOf(chunks[..n]), TotalLen(chunks[..i]);
    if i < n {
      PackedAt(chunks[..n], i);
      TakeTake(chunks, i, n);
      SliceLeft(front, chunks[n].bytes, at, at + |chunks[i].bytes|);
    } else {
      assert at == |front|;
      SliceEnd(front, chunks[n].bytes);
    }
  }

  /* ---------------------------------------------------------------- the builder */

  class SlabBuilder {
    const byteBudget: nat
    const maxChunks: nat
    const ageTimeout: nat
    var firstArrived: Option<nat>
    var chunks: seq<Chunk>
    var bytes: nat

    ghost predicate Valid()
      reads this
    {
      bytes == TotalLen(chunks) && (chunks == [] <==> firstArrived.None?)
    }

    /** The caps of the compactor's builder. */
    predicate Default() { byteBudget == SLAB_BYTE_BUDGET && maxChunks == SLAB_MAX_CHUNKS && ageTimeout == SLAB_AGE_TIMEOUT }

    constructor WithCaps(byteBudget: nat, maxChunks: nat, ageTimeout: nat)
      ensures Valid() && chunks == []
      ensures this.byteBudget == byteBudget && this.maxChunks == maxChunks && this.ageTimeout == ageTimeout
    {
      this.byteBudget, this.maxChunks, this.ageTimeout := byteBudget, maxChunks, ageTimeout;
      this.firstArrived, this.chunks, this.bytes := None, [], 0;
    }

    method Push(now: nat, chunk: Chunk)
      requires Valid()
      modifies this
      ensures Valid() && chunks == old(chunks) + [chunk]
      ensures firstArrived == if old(chunks) == [] then Some(now) else old(firstArrived)
    {
      if firstArrived.None? {
        firstArrived := Some(now);
      }
      bytes := bytes + |chunk.bytes|;
      chunks := chunks + [chunk];
      assert chunks[..|chunks| - 1] == old(chunks);
    }

    /** A cap has been reached: bytes, count, or age of the oldest chunk. */
    predicate ShouldFlush(now: nat)
      reads this
    {
      && chunks != []
      && (bytes >= byteBudget || |chunks| >= maxChunks
          || (firstArrived.Some? && SaturatingSub(now, firstArrived.value) >= ageTimeout))
    }

    method Drain() returns (out: seq<Chunk>)
      requires Valid()
      modifies this
      ensures Valid() && out == old(chunks) && chunks == []
    {
      out := chunks;
      firstArrived, bytes, chunks := None, 0, [];
    }
  }
}
