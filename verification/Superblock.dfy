/** The on-disk superblock and the layout it describes: crates/kiseki-block/src/superblock.rs. */
module Superblock {
  import opened Base

  const SUPERBLOCK_SIZE: nat := 4096
  const FORMAT_VERSION: nat := 1
  const MAGIC: Bytes := [0x4b, 0x49, 0x53, 0x45, 0x4b, 0x49, 0x01, 0x00]

  datatype Superblock = Superblock(
    magic: Bytes, version: nat, deviceId: Bytes, blockSize: nat, totalBlocks: nat, bitmapOffset: nat,
    bitmapMirrorOffset: nat, bitmapBlocks: nat, dataOffset: nat, generation: nat)

  datatype BlockError =
    | BufferTooSmall | NotInitialized | UnsupportedVersion | BadBlockSize | BadBitmapOffset | BadMirrorOffset
    | BadDataOffset | NoBlocks

  predicate PowerOfTwo(n: nat) { n == 1 || (n > 1 && n % 2 == 0 && PowerOfTwo(n / 2)) }

  /** The blocks of one bitmap, for the blocks the device would have without any. */
  function BitmapBlocks(deviceBytes: nat, blockSize: nat): nat
    requires blockSize > 0
  {
    DivCeil(DivCeil(SaturatingSub(deviceBytes, SUPERBLOCK_SIZE) / blockSize, 8), blockSize)
  }

  /** Bitmap, mirror and data, one after the other; both bitmaps take `region` bytes. */
  function Arranged(deviceBytes: nat, blockSize: nat, deviceId: Bytes, bitmapBlocks: nat, region: nat): Superblock
    requires blockSize > 0
  {
    var bitmapOffset := SUPERBLOCK_SIZE;
    var mirrorOffset := bitmapOffset + region;
    var dataOffset := mirrorOffset + region;
    var totalBlocks := SaturatingSub(deviceBytes, dataOffset) / blockSize;
    Superblock(MAGIC, FORMAT_VERSION, deviceId, blockSize, totalBlocks, bitmapOffset, mirrorOffset, bitmapBlocks,
               dataOffset, 0)
  }

  /** A new superblock for a device of a given size; the id is drawn by the caller. */
  function Format(deviceBytes: nat, blockSize: nat, deviceId: Bytes): Superblock
    requires blockSize > 0
  {
    var bitmapBlocks := BitmapBlocks(deviceBytes, blockSize);
    Arranged(deviceBytes, blockSize, deviceId, bitmapBlocks, bitmapBlocks * blockSize)
  }

  /* ---------------------------------------------------------------- layout */

  /** Regions in order, bitmaps big enough, data inside the device. */
  predicate LaidOut(sb: Superblock, deviceBytes: nat) {
    var region := sb.bitmapBlocks * sb.blockSize;
    && SUPERBLOCK_SIZE <= sb.bitmapOffset
    && sb.bitmapOffset + region <= sb.bitmapMirrorOffset
    && sb.bitmapMirrorOffset + region <= sb.dataOffset
    && DivCeil(sb.totalBlocks, 8) <= region && sb.totalBlocks <= 8 * region
    && (sb.totalBlocks > 0 ==> sb.dataOffset + sb.totalBlocks * sb.blockSize <= deviceBytes && region > 0)
  }

  lemma {:induction false} DivMonotone(a: nat, b: nat, d: nat)
    requires a <= b && d > 0
    ensures a / d <= b / d && a / d * d <= a
  {
    var p, q := a / d, b / d;
    assert a == p * d + a % d && b == q * d + b % d;
    if q < p {
      MulAtLeast(q + 1, p, d);
    }
  }

  /** One bitmap has room for every block of the device. */
  lemma {:induction false} RegionHolds(blocks: nat, blockSize: nat)
    requires blockSize > 0
    ensures blocks <= 8 * DivCeil(blocks, 8) <= 8 * (DivCeil(DivCeil(blocks, 8), blockSize) * blockSize)
  {
    DivCeilBounds(blocks, 8);
    DivCeilBounds(DivCeil(blocks, 8), blockSize);
  }

  lemma {:induction false} ArrangedHolds(deviceBytes: nat, blockSize: nat, deviceId: Bytes, bitmapBlocks: nat)
    requires blockSize > 0
    requires var blocks := SaturatingSub(deviceBytes, SUPERBLOCK_SIZE) / blockSize;
             blocks <= 8 * DivCeil(blocks, 8) <= 8 * (bitmapBlocks * blockSize)
    ensures LaidOut(Arranged(deviceBytes, blockSize, deviceId, bitmapBlocks, bitmapBlocks * blockSize), deviceBytes)
  {
    var sb := Arranged(deviceBytes, blockSize, deviceId, bitmapBlocks, bitmapBlocks * blockSize);
    var usable := SaturatingSub(deviceBytes, SUPERBLOCK_SIZE);
    var data := SaturatingSub(deviceBytes, sb.dataOffset);
    DivMonotone(data, usable, blockSize);
    DivMonotone(sb.totalBlocks + 7, usable / blockSize + 7, 8);
  }

  /** The layout law, for every device size and block size. */
  lemma {:induction false} LayoutHolds(deviceBytes: nat, blockSize: nat, deviceId: Bytes)
    requires blockSize > 0
    ensures LaidOut(Format(deviceBytes, blockSize, deviceId), deviceBytes)
  {
    RegionHolds(SaturatingSub(deviceBytes, SUPERBLOCK_SIZE) / blockSize, blockSize);
    ArrangedHolds(deviceBytes, blockSize, deviceId, BitmapBlocks(deviceBytes, blockSize));
  }

  /** All fields fit their on-disk widths. */
  predicate Fits(sb: Superblock) {
    && |sb.magic| == 8 && |sb.deviceId| == 16 && sb.version < U32 && sb.blockSize < U32
    && sb.totalBlocks < U64 && sb.bitmapOffset < U64 && sb.bitmapMirrorOffset < U64 && sb.bitmapBlocks < U64
    && sb.dataOffset < U64 && sb.generation < U64
  }

  /** The bytes one bitmap takes. */
  lemma {:induction false} RegionSmall(blocks: nat, blockSize: nat)
    requires blocks < U64 && 0 < blockSize < U32
    ensures var n := DivCeil(DivCeil(blocks, 8), blockSize); n <= n * blockSize <= U64 / 8 + U32
  {
    var bytes := DivCeil(blocks, 8);
    var n := DivCeil(bytes, blockSize);
    DivCeilBounds(blocks, 8);
    DivCeilBounds(bytes, blockSize);
    MulAtLeast(1, blockSize, n);
  }

  lemma {:induction false} FormatFits(deviceBytes: nat, blockSize: nat, deviceId: Bytes)
    requires 0 < blockSize < U32 && deviceBytes < U64 && |deviceId| == 16
    ensures Fits(Format(deviceBytes, blockSize, deviceId))
  {
    var usable := SaturatingSub(deviceBytes, SUPERBLOCK_SIZE);
    DivShrinks(usable, blockSize);
    RegionSmall(usable / blockSize, blockSize);
    var sb := Format(deviceBytes, blockSize, deviceId);
    DivShrinks(SaturatingSub(deviceBytes, sb.dataOffset), blockSize);
  }

  lemma {:induction false} DivShrinks(a: nat, d: nat)
    requires d > 0
    ensures a / d <= a
  {
    MulAtLeast(1, d, a / d);
    assert a == a / d * d + a % d;
  }

  /* ---------------------------------------------------------------- bytes */

  function FirstHalf(sb: Superblock): Bytes {
    sb.magic + LeBytes(sb.version, 4) + sb.deviceId + LeBytes(sb.blockSize, 4) + LeBytes(sb.totalBlocks, 8)
  }

  function SecondHalf(sb: Superblock): Bytes {
    LeBytes(sb.bitmapOffset, 8) + LeBytes(sb.bitmapMirrorOffset, 8) + LeBytes(sb.bitmapBlocks, 8)
    + LeBytes(sb.dataOffset, 8) + LeBytes(sb.generation, 8)
  }

  function Head(sb: Superblock): Bytes { FirstHalf(sb) + SecondHalf(sb) }

  /** The superblock's bytes: ten fields, then zeros up to the block size. */
  function Serialized(sb: Superblock): Bytes { Head(sb) + Zeros(SaturatingSub(SUPERBLOCK_SIZE, |Head(sb)|)) }

  function Patch(buf: Bytes, at: nat, bytes: Bytes): Bytes
    requires at + |bytes| <= |buf|
  {
    buf[..at] + bytes + buf[at + |bytes|..]
  }

  lemma {:induction false} PatchNext(front: Bytes, n: nat, bytes: Bytes)
    requires |bytes| <= n
    ensures Patch(front + Zeros(n), |front|, bytes) == (front + bytes) + Zeros(n - |bytes|)
  {
  }

  method ToBytes(sb: Superblock) returns (buf: Bytes)
    requires |sb.magic| == 8 && |sb.deviceId| == 16
    ensures buf == Serialized(sb) && |buf| == SUPERBLOCK_SIZE
  {
    var fields := [sb.magic, LeBytes(sb.version, 4), sb.deviceId, LeBytes(sb.blockSize, 4), LeBytes(sb.totalBlocks, 8),
                   LeBytes(sb.bitmapOffset, 8), LeBytes(sb.bitmapMirrorOffset, 8), LeBytes(sb.bitmapBlocks, 8),
                   LeBytes(sb.dataOffset, 8), LeBytes(sb.generation, 8)];
    buf := PatchAll(fields);
    ConcatTen(fields);
    assert Concat(fields) == Head(sb);
  }

  /** The fields one after the other into a block of zeros. */
  method PatchAll(fields: seq<Bytes>) returns (buf: Bytes)
    requires |fields| <= 10 && forall i :: 0 <= i < |fields| ==> |fields[i]| <= 16
    ensures |Concat(fields)| <= SUPERBLOCK_SIZE && buf == Concat(fields) + Zeros(SUPERBLOCK_SIZE - |Concat(fields)|)
  {
    buf := Zeros(SUPERBLOCK_SIZE);
    ghost var front: Bytes := [];
    var at := 0;
    for i := 0 to |fields|
      invariant front == Concat(fields[..i]) && at == |front| <= 16 * i
      invariant buf == front + Zeros(SUPERBLOCK_SIZE - at)
    {
      PatchNext(front, SUPERBLOCK_SIZE - at, fields[i]);
      buf := Patch(buf, at, fields[i]);
      TakeTake(fields, i, i + 1);
      front := front + fields[i];
      at := at + |fields[i]|;
    }
    TakeAll(fields);
  }

  lemma {:induction false} ConcatTen(f: seq<Bytes>)
    requires |f| == 10
    ensures Concat(f) == f[0] + f[1] + f[2] + f[3] + f[4] + f[5] + f[6] + f[7] + f[8] + f[9]
  {
    ConcatFive(f[..5]);
    ConcatFive(f[5..]);
    assert f == f[..5] + f[5..];
    ConcatAppend(f[..5], f[5..]);
  }

  lemma {:induction false} ConcatFive(f: seq<Bytes>)
    requires |f| == 5
    ensures Concat(f) == f[0] + f[1] + f[2] + f[3] + f[4]
  {
    assert f[..4][..3] == f[..3] && f[..3][..2] == f[..2] && f[..2][..1] == f[..1] && f[..1][..0] == [];
    assert Concat(f[..1]) == f[0];
    assert Concat(f[..2]) == f[0] + f[1];
    assert Concat(f[..3]) == f[0] + f[1] + f[2];
    assert Concat(f[..4]) == f[0] + f[1] + f[2] + f[3];
  }

  function FromBytes(buf: Bytes): Result<Superblock, BlockError> {
    if |buf| < SUPERBLOCK_SIZE then Err(BufferTooSmall)
    else if buf[0..8] != MAGIC then Err(NotInitialized)
    else if LeValue(buf[8..12]) != FORMAT_VERSION then Err(UnsupportedVersion)
    else
      var sb := Superblock(buf[0..8], LeValue(buf[8..12]), buf[12..28], LeValue(buf[28..32]), LeValue(buf[32..40]),
                           LeValue(buf[40..48]), LeValue(buf[48..56]), LeValue(buf[56..64]), LeValue(buf[64..72]),
                           LeValue(buf[72..80]));
      if !PowerOfTwo(sb.blockSize) then Err(BadBlockSize)
      else if sb.bitmapOffset < SUPERBLOCK_SIZE then Err(BadBitmapOffset)
      else if sb.bitmapMirrorOffset <= sb.bitmapOffset then Err(BadMirrorOffset)
      else if sb.dataOffset <= sb.bitmapMirrorOffset then Err(BadDataOffset)
      else if sb.totalBlocks == 0 then Err(NoBlocks)
      else Ok(sb)
  }

  lemma {:induction false} FirstFields(sb: Superblock, b: Bytes)
    requires Fits(sb) && |b| >= 40 && b[0..40] == FirstHalf(sb)
    ensures b[0..8] == sb.magic && b[12..28] == sb.deviceId
    ensures LeValue(b[8..12]) == sb.version && LeValue(b[28..32]) == sb.blockSize && LeValue(b[32..40]) == sb.totalBlocks
  {
    Widths();
    LeRoundTrip(sb.version, 4);
    LeRoundTrip(sb.blockSize, 4);
    LeRoundTrip(sb.totalBlocks, 8);
    var half := FirstHalf(sb);
    FirstParts(sb);
    SubSlice(b, 0, half, 0, 8);
    SubSlice(b, 0, half, 8, 12);
    SubSlice(b, 0, half, 12, 28);
    SubSlice(b, 0, half, 28, 32);
    SubSlice(b, 0, half, 32, 40);
  }

  lemma {:induction false} FirstParts(sb: Superblock)
    requires |sb.magic| == 8 && |sb.deviceId| == 16
    ensures var half := FirstHalf(sb);
            && |half| == 40 && half[0..8] == sb.magic && half[8..12] == LeBytes(sb.version, 4) && half[12..28] == sb.deviceId
            && half[28..32] == LeBytes(sb.blockSize, 4) && half[32..40] == LeBytes(sb.totalBlocks, 8)
  {
  }

  lemma {:induction false} SecondFields(sb: Superblock, b: Bytes)
    requires Fits(sb) && |b| >= 80 && b[40..80] == SecondHalf(sb)
    ensures LeValue(b[40..48]) == sb.bitmapOffset && LeValue(b[48..56]) == sb.bitmapMirrorOffset
    ensures LeValue(b[56..64]) == sb.bitmapBlocks && LeValue(b[64..72]) == sb.dataOffset && LeValue(b[72..80]) == sb.generation
  {
    Widths();
    LeRoundTrip(sb.bitmapOffset, 8);
    LeRoundTrip(sb.bitmapMirrorOffset, 8);
    LeRoundTrip(sb.bitmapBlocks, 8);
    LeRoundTrip(sb.dataOffset, 8);
    LeRoundTrip(sb.generation, 8);
    var half := SecondHalf(sb);
    SecondParts(sb);
    SubSlice(b, 40, half, 0, 8);
    SubSlice(b, 40, half, 8, 16);
    SubSlice(b, 40, half, 16, 24);
    SubSlice(b, 40, half, 24, 32);
    SubSlice(b, 40, half, 32, 40);
  }

  lemma {:induction false} SecondParts(sb: Superblock)
    ensures var half := SecondHalf(sb);
            && |half| == 40 && half[0..8] == LeBytes(sb.bitmapOffset, 8) && half[8..16] == LeBytes(sb.bitmapMirrorOffset, 8)
            && half[16..24] == LeBytes(sb.bitmapBlocks, 8) && half[24..32] == LeBytes(sb.dataOffset, 8)
            && half[32..40] == LeBytes(sb.generation, 8)
  {
  }

  lemma {:induction false} HeadFields(sb: Superblock, rest: Bytes)
    requires Fits(sb)
    ensures var b := Head(sb) + rest;
            && |Head(sb)| == 80
            && b[0..8] == sb.magic && b[12..28] == sb.deviceId
            && LeValue(b[8..12]) == sb.version && LeValue(b[28..32]) == sb.blockSize
            && LeValue(b[32..40]) == sb.totalBlocks && LeValue(b[40..48]) == sb.bitmapOffset
            && LeValue(b[48..56]) == sb.bitmapMirrorOffset && LeValue(b[56..64]) == sb.bitmapBlocks
            && LeValue(b[64..72]) == sb.dataOffset && LeValue(b[72..80]) == sb.generation
  {
    var first, second := FirstHalf(sb), SecondHalf(sb);
    var b := (first + second) + rest;
    assert |first| == 40 && |second| == 40;
    assert b[0..40] == first && b[40..80] == second;
    FirstFields(sb, b);
    SecondFields(sb, b);
  }

  /** Printing and parsing: a freshly formatted superblock comes back, whatever follows it on the device, exactly
      when the block size is a power of two and the device is large enough to have a block; otherwise the
      parser refuses it. */
  lemma {:induction false} FormatRoundTrip(deviceBytes: nat, blockSize: nat, deviceId: Bytes, rest: Bytes)
    requires 0 < blockSize < U32 && deviceBytes < U64 && |deviceId| == 16
    ensures var sb := Format(deviceBytes, blockSize, deviceId);
            var r := FromBytes(Serialized(sb) + rest);
            && (r == Ok(sb) <==> PowerOfTwo(blockSize) && sb.totalBlocks > 0)
            && (r.Ok? ==> r == Ok(sb))
  {
    var sb := Format(deviceBytes, blockSize, deviceId);
    FormatFits(deviceBytes, blockSize, deviceId);
    LayoutHolds(deviceBytes, blockSize, deviceId);
    var tail := Zeros(SaturatingSub(SUPERBLOCK_SIZE, |Head(sb)|)) + rest;
    HeadFields(sb, tail);
    assert Serialized(sb) + rest == Head(sb) + tail;
  }
}
