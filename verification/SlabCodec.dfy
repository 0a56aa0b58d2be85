/** The byte formats of slabs and of the slab index: crates/kiseki-chunk-cluster/src/slab_store.rs. */
module SlabCodec {
  import opened Base
  import opened Slabs
  import opened Compactor

  /* ---------------------------------------------------------------- fixed-size records */

  function Records<T>(items: seq<T>, enc: T -> Bytes): Bytes {
    if items == [] then [] else Records(items[..|items| - 1], enc) + enc(items[|items| - 1])
  }

  /** The first n records of width w. */
  function Parsed<T>(bytes: Bytes, w: nat, dec: Bytes -> T, n: nat): (items: seq<T>)
    requires n * w <= |bytes|
    ensures |items| == n
  {
    if n == 0 then [] else Parsed(bytes, w, dec, n - 1) + [dec(bytes[(n - 1) * w..n * w])]
  }

  ghost predicate Inverse<T>(items: seq<T>, enc: T -> Bytes, dec: Bytes -> T, w: nat) {
    forall i :: 0 <= i < |items| ==> |enc(items[i])| == w && dec(enc(items[i])) == items[i]
  }

  lemma {:induction false} NextRecord(front: Bytes, last: Bytes, rest: Bytes, n: nat, w: nat)
    requires |front| == n * w && |last| == w
    ensures |front + last| == (n + 1) * w && ((front + last) + rest)[n * w..(n + 1) * w] == last
  {
    assert (n + 1) * w == n * w + w;
  }

  lemma {:induction false} RecordsParse<T>(items: seq<T>, enc: T -> Bytes, dec: Bytes -> T, w: nat, rest: Bytes)
    requires Inverse(items, enc, dec, w)
    ensures |Records(items, enc)| == |items| * w
    ensures Parsed(Records(items, enc) + rest, w, dec, |items|) == items
  {
    if items != [] {
      var n := |items| - 1;
      var last := enc(items[n]);
      RecordsParse(items[..n], enc, dec, w, last + rest);
      var front := Records(items[..n], enc);
      assert front + (last + rest) == (front + last) + rest;
      NextRecord(front, last, rest, n, w);
    }
  }

  /* ---------------------------------------------------------------- extents and owners */

  const EXTENT_LEN: nat := 48
  const OWNER_LEN: nat := 52

  function ExtentBytes(e: SlabExtent): Bytes {
    (LeBytes(e.chunkId, 32) + LeBytes(e.offset, 8)) + (LeBytes(e.length, 4) + LeBytes(e.refcount, 4))
  }

  function ExtentOf(b: Bytes): SlabExtent {
    if |b| != EXTENT_LEN then SlabExtent(0, 0, 0, 0)
    else SlabExtent(LeValue(b[0..32]), LeValue(b[32..40]), LeValue(b[40..44]), LeValue(b[44..48]))
  }

  function OwnerBytes(o: Owner): Bytes { LeBytes(o.comp, 16) + LeBytes(o.index, 4) + LeBytes(o.chunk, 32) }

  function OwnerOf(b: Bytes): Owner {
    if |b| != OWNER_LEN then Owner(0, 0, 0) else Owner(LeValue(b[..16]), LeValue(b[16..20]), LeValue(b[20..]))
  }

  predicate ExtentFits(e: SlabExtent) {
    e.chunkId < Pow256(32) && e.offset < Pow256(8) && e.length < Pow256(4) && e.refcount < Pow256(4)
  }

  predicate OwnerFits(o: Owner) { o.comp < Pow256(16) && o.index < Pow256(4) && o.chunk < Pow256(32) }

  lemma {:induction false} TwoFields(a: Bytes, b: Bytes)
    ensures (a + b)[0..|a|] == a && (a + b)[|a|..|a| + |b|] == b
  {
  }

  lemma {:induction false} ExtentRoundTrip(e: SlabExtent)
    requires ExtentFits(e)
    ensures |ExtentBytes(e)| == EXTENT_LEN && ExtentOf(ExtentBytes(e)) == e
  {
    LeRoundTrip(e.chunkId, 32);
    LeRoundTrip(e.offset, 8);
    LeRoundTrip(e.length, 4);
    LeRoundTrip(e.refcount, 4);
    TwoFields(LeBytes(e.chunkId, 32), LeBytes(e.offset, 8));
    TwoFields(LeBytes(e.length, 4), LeBytes(e.refcount, 4));
    var place, counts := LeBytes(e.chunkId, 32) + LeBytes(e.offset, 8), LeBytes(e.length, 4) + LeBytes(e.refcount, 4);
    SliceLeft(place, counts, 0, 32);
    SliceLeft(place, counts, 32, 40);
    SliceRight(place, counts, 0, 4);
    SliceRight(place, counts, 4, 8);
  }

  lemma {:induction false} OwnerRoundTrip(o: Owner)
    requires OwnerFits(o)
    ensures |OwnerBytes(o)| == OWNER_LEN && OwnerOf(OwnerBytes(o)) == o
  {
    LeRoundTrip(o.comp, 16);
    LeRoundTrip(o.index, 4);
    LeRoundTrip(o.chunk, 32);
    var b := OwnerBytes(o);
    assert b[..16] == LeBytes(o.comp, 16) && b[16..20] == LeBytes(o.index, 4) && b[20..] == LeBytes(o.chunk, 32);
  }

  predicate ExtentsFit(extents: seq<SlabExtent>) { forall i :: 0 <= i < |extents| ==> ExtentFits(extents[i]) }

  function Table(extents: seq<SlabExtent>): Bytes { Records(extents, ExtentBytes) }

  lemma {:induction false} TableParses(extents: seq<SlabExtent>, rest: Bytes)
    requires ExtentsFit(extents)
    ensures |Table(extents)| == |extents| * EXTENT_LEN
    ensures Parsed(Table(extents) + rest, EXTENT_LEN, ExtentOf, |extents|) == extents
  {
    forall i | 0 <= i < |extents|
      ensures |ExtentBytes(extents[i])| == EXTENT_LEN && ExtentOf(ExtentBytes(extents[i])) == extents[i]
    {
      ExtentRoundTrip(extents[i]);
    }
    RecordsParse(extents, ExtentBytes, ExtentOf, EXTENT_LEN, rest);
  }

  /** A stored value that is not a whole number of records reads as absent. */
  function Stored<T>(raw: Bytes, w: nat, dec: Bytes -> T): Option<seq<T>>
    requires w > 0
  {
    if |raw| % w != 0 then None
    else
      assert |raw| / w * w <= |raw|;
      Some(Parsed(raw, w, dec, |raw| / w))
  }

  /** The index row of a slab reads back as what was put. */
  lemma {:induction false} IndexRoundTrip(extents: seq<SlabExtent>)
    requires ExtentsFit(extents)
    ensures Stored(Table(extents), EXTENT_LEN, ExtentOf) == Some(extents)
  {
    TableParses(extents, []);
    assert Table(extents) + [] == Table(extents);
    MulDiv(|extents|, EXTENT_LEN);
  }

  lemma {:induction false} OwnersRoundTrip(owners: seq<Owner>)
    requires forall i :: 0 <= i < |owners| ==> OwnerFits(owners[i])
    ensures Stored(Records(owners, OwnerBytes), OWNER_LEN, OwnerOf) == Some(owners)
  {
    forall i | 0 <= i < |owners|
      ensures |OwnerBytes(owners[i])| == OWNER_LEN && OwnerOf(OwnerBytes(owners[i])) == owners[i]
    {
      OwnerRoundTrip(owners[i]);
    }
    RecordsParse(owners, OwnerBytes, OwnerOf, OWNER_LEN, []);
    assert Records(owners, OwnerBytes) + [] == Records(owners, OwnerBytes);
    MulDiv(|owners|, OWNER_LEN);
  }

  /** The parse loops, with their cursor. */
  method ParseRecords<T>(raw: Bytes, w: nat, dec: Bytes -> T) returns (r: Option<seq<T>>)
    requires w > 0
    ensures r == Stored(raw, w, dec)
  {
    if |raw| % w != 0 {
      return None;
    }
    var items: seq<T>, pos := [], 0;
    ghost var n := 0;
    while pos + w <= |raw|
      invariant pos == n * w <= |raw|
      invariant items == Parsed(raw, w, dec, n)
      decreases |raw| - pos
    {
      assert (n + 1) * w == n * w + w;
      items := items + [dec(raw[pos..pos + w])];
      pos := pos + w;
      n := n + 1;
    }
    DivUnique(|raw|, w, n, |raw| - pos);
    return Some(items);
  }

  /* ---------------------------------------------------------------- whole slabs */

  const HEADER_LEN: nat := 32

  datatype CodecError = SlabNotFound(id: Uuid)

  function ShapeBytes(h: SlabHeader): Bytes {
    LeBytes(h.version, 2) + LeBytes(h.dataShards, 2) + LeBytes(h.parityShards, 2) + LeBytes(0, 2)
  }

  function SizeBytes(h: SlabHeader): Bytes { LeBytes(h.byteSize, 8) + LeBytes(h.extentCount,
                     8) + LeBytes(h.originalLen, 8) }

  function HeaderBytes(h: SlabHeader): Bytes { ShapeBytes(h) + SizeBytes(h) }

  function Preamble(slab: Slab): Bytes { HeaderBytes(slab.header) + LeBytes(|slab.extents|, 4) }

  function Serialised(slab: Slab): Bytes { Preamble(slab) + (Table(slab.extents) + slab.data) }

  method SerialiseSlab(slab: Slab) returns (out: Bytes)
    ensures out == Serialised(slab)
  {
    out := HeaderBytes(slab.header);
    out := out + LeBytes(|slab.extents|, 4);
    ghost var front := out;
    for i := 0 to |slab.extents|
      invariant out == front + Table(slab.extents[..i])
    {
      TakeTake(slab.extents, i, i + 1);
      Assoc(front, Table(slab.extents[..i]), ExtentBytes(slab.extents[i]));
      out := out + ExtentBytes(slab.extents[i]);
    }
    TakeAll(slab.extents);
    Assoc(front, Table(slab.extents), slab.data);
    out := out + slab.data;
  }

  /** Parsing trusts the inner count, not the header's. */
  function Deserialised(id: Uuid, bytes: Bytes): Result<Slab, CodecError> {
    if |bytes| < HEADER_LEN + 4 then Err(SlabNotFound(id))
    else
      var count, len := LeValue(bytes[32..36]), LeValue(bytes[24..32]);
      var table := 36 + count * EXTENT_LEN;
      if table + len > |bytes| then Err(SlabNotFound(id))
      else
        var header := SlabHeader(LeValue(bytes[0..2]), LeValue(bytes[2..4]), LeValue(bytes[4..6]),
                                 LeValue(bytes[8..16]), count, len);
        Ok(Slab(id, header, Parsed(bytes[36..], EXTENT_LEN, ExtentOf, count), bytes[table..table + len]))
  }

  method ParseExtents(bytes: Bytes, count: nat) returns (extents: seq<SlabExtent>, pos: nat)
    requires 36 + count * EXTENT_LEN <= |bytes|
    ensures extents == Parsed(bytes[36..], EXTENT_LEN, ExtentOf, count) && pos == 36 + count * EXTENT_LEN
  {
    extents, pos := [], 36;
    for i := 0 to count
      invariant pos == 36 + i * EXTENT_LEN
      invariant extents == Parsed(bytes[36..], EXTENT_LEN, ExtentOf, i)
    {
      SubSlice(bytes, 36, bytes[36..], i * EXTENT_LEN, (i + 1) * EXTENT_LEN);
      extents := extents + [ExtentOf(bytes[pos..pos + EXTENT_LEN])];
      pos := pos + EXTENT_LEN;
    }
  }

  method DeserialiseSlab(id: Uuid, bytes: Bytes) returns (r: Result<Slab, CodecError>)
    ensures r == Deserialised(id, bytes)
  {
    if |bytes| < HEADER_LEN + 4 {
      return Err(SlabNotFound(id));
    }
    var version, k, m := LeValue(bytes[0..2]), LeValue(bytes[2..4]), LeValue(bytes[4..6]);
    var byteSize, len := LeValue(bytes[8..16]), LeValue(bytes[24..32]);
    var count := LeValue(bytes[32..36]);
    if 36 + count * EXTENT_LEN + len > |bytes| {
      return Err(SlabNotFound(id));
    }
    var extents, pos := ParseExtents(bytes, count);
    return Ok(Slab(id, SlabHeader(version, k, m, byteSize, count, len), extents, bytes[pos..pos + len]));
  }

  predicate SlabFits(slab: Slab) {
    var h := slab.header;
    && h.version < U16 && h.dataShards < U16 && h.parityShards < U16 && h.byteSize < U64 && h.extentCount < U64
    && h.originalLen < U64 && |slab.extents| < U32 && ExtentsFit(slab.extents)
  }

  predicate CountsAgree(slab: Slab) { slab.header.extentCount == |slab.extents| && slab.header.originalLen == |slab.data| }

  lemma {:induction false} ShapeParts(h: SlabHeader)
    ensures var b := ShapeBytes(h);
            && |b| == 8 && b[0..2] == LeBytes(h.version, 2) && b[2..4] == LeBytes(h.dataShards, 2)
            && b[4..6] == LeBytes(h.parityShards, 2)
  {
  }

  lemma {:induction false} SizeParts(h: SlabHeader)
    ensures var b := SizeBytes(h);
            |b| == 24 && b[0..8] == LeBytes(h.byteSize, 8) && b[16..24] == LeBytes(h.originalLen, 8)
  {
  }

  lemma {:induction false} HeaderParts(h: SlabHeader)
    ensures var b := HeaderBytes(h);
            && |b| == HEADER_LEN && b[0..2] == LeBytes(h.version, 2) && b[2..4] == LeBytes(h.dataShards, 2)
            && b[4..6] == LeBytes(h.parityShards, 2) && b[8..16] == LeBytes(h.byteSize, 8)
            && b[24..32] == LeBytes(h.originalLen, 8)
  {
    ShapeParts(h);
    SizeParts(h);
    var shape, sizes := ShapeBytes(h), SizeBytes(h);
    SliceLeft(shape, sizes, 0, 2);
    SliceLeft(shape, sizes, 2, 4);
    SliceLeft(shape, sizes, 4, 6);
    SliceRight(shape, sizes, 0, 8);
    SliceRight(shape, sizes, 16, 24);
  }

  lemma {:induction false} HeaderFields(h: SlabHeader, count: nat, b: Bytes)
    requires h.version < U16 && h.dataShards < U16 && h.parityShards < U16 && h.byteSize < U64 && h.originalLen < U64
    requires count < U32 && |b| >= 36 && b[..32] == HeaderBytes(h) && b[32..36] == LeBytes(count, 4)
    ensures LeValue(b[0..2]) == h.version && LeValue(b[2..4]) == h.dataShards && LeValue(b[4..6]) == h.parityShards
    ensures LeValue(b[8..16]) == h.byteSize && LeValue(b[24..32]) == h.originalLen && LeValue(b[32..36]) == count
  {
    Widths();
    LeRoundTrip(h.version, 2);
    LeRoundTrip(h.dataShards, 2);
    LeRoundTrip(h.parityShards, 2);
    LeRoundTrip(h.byteSize, 8);
    LeRoundTrip(h.originalLen, 8);
    LeRoundTrip(count, 4);
    HeaderParts(h);
    assert b[0..2] == b[..32][0..2] && b[2..4] == b[..32][2..4] && b[4..6] == b[..32][4..6];
    assert b[8..16] == b[..32][8..16] && b[24..32] == b[..32][24..32];
  }

  lemma {:induction false} PreambleParts(slab: Slab)
    ensures |Preamble(slab)| == 36
    ensures Preamble(slab)[..32] == HeaderBytes(slab.header) && Preamble(slab)[32..36] == LeBytes(|slab.extents|, 4)
  {
    HeaderParts(slab.header);
  }

  lemma {:induction false} SerialisedParts(slab: Slab, rest: Bytes)
    ensures var b := Serialised(slab) + rest;
            && |b| >= 36 && b[..32] == HeaderBytes(slab.header) && b[32..36] == LeBytes(|slab.extents|, 4)
            && b[36..] == Table(slab.extents) + (slab.data + rest)
  {
    PreambleParts(slab);
    var p, tail := Preamble(slab), Table(slab.extents) + (slab.data + rest);
    Assoc(p, Table(slab.extents) + slab.data, rest);
    Assoc(Table(slab.extents), slab.data, rest);
    SliceLeft(p, tail, 0, 32);
    SliceLeft(p, tail, 32, 36);
  }

  lemma {:induction false} ParsedFields(slab: Slab, rest: Bytes)
    requires SlabFits(slab)
    ensures var b := Serialised(slab) + rest;
            && |b| == 36 + |slab.extents| * EXTENT_LEN + |slab.data| + |rest|
            && LeValue(b[32..36]) == |slab.extents| && LeValue(b[24..32]) == slab.header.originalLen
            && LeValue(b[0..2]) == slab.header.version && LeValue(b[2..4]) == slab.header.dataShards
            && LeValue(b[4..6]) == slab.header.parityShards && LeValue(b[8..16]) == slab.header.byteSize
            && Parsed(b[36..], EXTENT_LEN, ExtentOf, |slab.extents|) == slab.extents
  {
    SerialisedParts(slab, rest);
    HeaderFields(slab.header, |slab.extents|, Serialised(slab) + rest);
    TableParses(slab.extents, slab.data + rest);
  }

  lemma {:induction false} DataSlice(slab: Slab, rest: Bytes)
    requires SlabFits(slab)
    ensures var at := 36 + |slab.extents| * EXTENT_LEN;
            && at + |slab.data| <= |Serialised(slab) + rest|
            && (Serialised(slab) + rest)[at..at + |slab.data|] == slab.data
  {
    PreambleParts(slab);
    TableParses(slab.extents, []);
    var front := Preamble(slab) + Table(slab.extents);
    assert Serialised(slab) == front + slab.data;
  }

  /** Bytes whose fields are those of a slab parse to it exactly when the counts in its header agree with what it holds. */
  lemma {:induction false} DeserialisedIs(slab: Slab, b: Bytes, at: nat)
    requires |b| >= 36 && LeValue(b[32..36]) == |slab.extents| && LeValue(b[24..32]) == slab.header.originalLen
    requires LeValue(b[0..2]) == slab.header.version && LeValue(b[2..4]) == slab.header.dataShards
    requires LeValue(b[4..6]) == slab.header.parityShards && LeValue(b[8..16]) == slab.header.byteSize
    requires at == 36 + |slab.extents| * EXTENT_LEN && at + |slab.data| <= |b| && b[at..at + |slab.data|] == slab.data
    requires Parsed(b[36..], EXTENT_LEN, ExtentOf, |slab.extents|) == slab.extents
    ensures Deserialised(slab.id, b) == Ok(slab) <==> CountsAgree(slab)
  {
  }

  /** Printing and parsing, with anything behind the slab: it comes back exactly when the counts in its header
      agree with what it holds. */
  lemma {:induction false} SlabRoundTrip(slab: Slab, rest: Bytes)
    requires SlabFits(slab)
    ensures Deserialised(slab.id, Serialised(slab) + rest) == Ok(slab) <==> CountsAgree(slab)
  {
    ParsedFields(slab, rest);
    DataSlice(slab, rest);
    DeserialisedIs(slab, Serialised(slab) + rest, 36 + |slab.extents| * EXTENT_LEN);
  }

  lemma {:induction false} TooShort(id: Uuid, b: Bytes)
    requires |b| >= 36 ==> 36 + LeValue(b[32..36]) * EXTENT_LEN + LeValue(b[24..32]) > |b|
    ensures Deserialised(id, b) == Err(SlabNotFound(id))
  {
  }

  /** Cut short, a slab is refused. */
  lemma {:induction false} SlabTruncated(slab: Slab, n: nat)
    requires SlabFits(slab) && CountsAgree(slab) && n < |Serialised(slab)|
    ensures Deserialised(slab.id, Serialised(slab)[..n]) == Err(SlabNotFound(slab.id))
  {
    var b := Serialised(slab);
    AppendNothing(b);
    ParsedFields(slab, []);
    if n >= 36 {
      SameStretch(b, n, 24, 32);
      SameStretch(b, n, 32, 36);
    }
    TooShort(slab.id, b[..n]);
  }

  lemma {:induction false} SameStretch(b: Bytes, n: nat, lo: nat, hi: nat)
    requires lo <= hi <= n <= |b|
    ensures b[..n][lo..hi] == b[lo..hi]
  {
  }
}
