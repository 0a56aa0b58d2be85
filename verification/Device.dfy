/** A file-backed block device, with the file as a byte sequence: crates/kiseki-block/src/file.rs. */
module Device {
  import opened Base
  import opened Allocator
  import opened Superblock

  const HEADER_SIZE: nat := 4
  const CRC_SIZE: nat := 4
  const OVERHEAD: nat := HEADER_SIZE + CRC_SIZE
  const BLOCK_SIZE: nat := 4096

  datatype IoError =
    | AlreadyInitialized | Truncated | InvalidInput | Faulted | Corruption(offset: nat) | BadSuperblock(error: BlockError)

  datatype Device = Device(sb: Superblock, blocks: Blocks, file: Bytes)

  /** Writing at an offset: the file grows when needed, a gap reads as zeros; writing nothing does nothing. */
  function WriteAt(file: Bytes, at: nat, bytes: Bytes): Bytes {
    if bytes == [] then file
    else
      var base := if |file| < at then file + Zeros(at - |file|) else file;
      base[..at] + bytes + if at + |bytes| < |base| then base[at + |bytes|..] else []
  }

  /* ---------------------------------------------------------------- operations on values */

  function Init(existing: Option<Bytes>, deviceBytes: nat, deviceId: Bytes): Result<Device, IoError> {
    if existing.Some? && |existing.value| >= 8 && existing.value[..8] == MAGIC then Err(AlreadyInitialized)
    else
      var sb := Format(deviceBytes, BLOCK_SIZE, deviceId);
      var blank := Zeros(DivCeil(sb.totalBlocks, 8));
      var file := WriteAt(Zeros(deviceBytes), 0, Serialized(sb));
      Ok(Device(sb, Fresh(sb.totalBlocks, sb.blockSize),
                WriteAt(WriteAt(file, sb.bitmapOffset, blank), sb.bitmapMirrorOffset, blank)))
  }

  function Open(file: Bytes): Result<Device, IoError> {
    if |file| < SUPERBLOCK_SIZE then Err(Truncated)
    else
      match FromBytes(file[..SUPERBLOCK_SIZE])
      case Err(e) => Err(BadSuperblock(e))
      case Ok(sb) =>
        var n := DivCeil(sb.totalBlocks, 8);
        if |file| < sb.bitmapOffset + n || |file| < sb.bitmapMirrorOffset + n then Err(Truncated)
        // A mirror that differs is only logged; the primary bitmap wins.
        else Ok(Device(sb, Opened(file[sb.bitmapOffset..sb.bitmapOffset + n], sb.totalBlocks, sb.blockSize), file))
  }

  /** Length header, payload, checksum. */
  function Frame(crc: Bytes -> u32, data: Bytes): Bytes { LeBytes(|data|, 4) + data + LeBytes(crc(data), 4) }

  function Capacity(e: Extent): nat { SaturatingSub(e.length, OVERHEAD) }

  /** A write to an extent; when the file fails, `reach` says how many bytes of the frame got there before. */
  function Written(crc: Bytes -> u32, d: Device, e: Extent, data: Bytes,
                   reach: Option<nat>): (Device, Result<(), IoError>) {
    if |data| >= U32 || |data| > Capacity(e) then (d, Err(InvalidInput))
    else
      var at, frame := d.sb.dataOffset + e.offset, Frame(crc, data);
      if reach.Some? && reach.value < |frame| then (d.(file := WriteAt(d.file, at, frame[..reach.value])), Err(Faulted))
      else (d.(file := WriteAt(d.file, at, frame)), Ok(()))
  }

  /** `write_all` at a position: the new file, what is left of the reach, and whether it succeeded. */
  function WriteAll(file: Bytes, at: nat, bytes: Bytes, reach: Option<nat>): (Bytes, Option<nat>, bool) {
    if reach.None? then (WriteAt(file, at, bytes), None, true)
    else if reach.value < |bytes| then (WriteAt(file, at, bytes[..reach.value]), Some(0), false)
    else (WriteAt(file, at, bytes), Some(reach.value - |bytes|), true)
  }

  function ReadBack(crc: Bytes -> u32, d: Device, e: Extent): Result<Bytes, IoError> {
    var at := d.sb.dataOffset + e.offset;
    if at + 4 > |d.file| then Err(Truncated)
    else
      var len := LeValue(d.file[at..at + 4]);
      if len > Capacity(e) then Err(Corruption(e.offset))
      else if at + 4 + len + 4 > |d.file| then Err(Truncated)
      else
        var data := d.file[at + 4..at + 4 + len];
        if LeValue(d.file[at + 4 + len..at + 4 + len + 4]) != crc(data) then Err(Corruption(e.offset)) else Ok(data)
  }

  function Flushed(d: Device): Device {
    d.(file := WriteAt(WriteAt(d.file, d.sb.bitmapOffset, d.blocks.bitmap), d.sb.bitmapMirrorOffset, d.blocks.bitmap))
  }

  /* ---------------------------------------------------------------- the device object */

  class FileBackedDevice {
    const superblock: Superblock
    const crc: Bytes -> u32
    const allocator: BitmapAllocator
    var file: Bytes

    ghost predicate Valid()
      reads this, allocator
    {
      allocator.Valid()
    }

    ghost function State(): Device
      reads this, allocator
    {
      Device.Device(superblock, allocator.State(), file)
    }

    constructor (superblock: Superblock, crc: Bytes -> u32, allocator: BitmapAllocator, file: Bytes)
      requires allocator.Valid()
      ensures Valid() && State() == Device.Device(superblock, allocator.State(), file)
      ensures this.crc == crc && this.allocator == allocator
    {
      this.superblock, this.crc, this.allocator, this.file := superblock, crc, allocator, file;
    }

    method Alloc(size: nat) returns (r: Result<Extent, AllocError>)
      requires Valid()
      modifies allocator
      ensures Valid() && State() == old(State()).(blocks := AllocOp(old(State()).blocks, size + OVERHEAD).0)
      ensures r == AllocOp(old(State()).blocks, size + OVERHEAD).1
    {
      r := allocator.Alloc(size + OVERHEAD);
    }

    method Write(e: Extent, data: Bytes, reach: Option<nat>) returns (r: Result<(), IoError>)
      requires Valid()
      modifies this
      ensures Valid() && (State(), r) == Written(crc, old(State()), e, data, reach)
    {
      if |data| >= U32 || |data| > Capacity(e) {
        return Err(InvalidInput);
      }
      var sum := crc(data);
      var cursor := superblock.dataOffset + e.offset;
      FrameInParts(file, cursor, LeBytes(|data|, 4), data, LeBytes(sum, 4), reach);
      var (header, rest, ok) := WriteAll(file, cursor, LeBytes(|data|, 4), reach);
      file := header;
      if !ok {
        return Err(Faulted);
      }
      cursor := cursor + HEADER_SIZE;
      var (payload, left, fine) := WriteAll(file, cursor, data, rest);
      file := payload;
      if !fine {
        return Err(Faulted);
      }
      cursor := cursor + |data|;
      var (all, _, whole) := WriteAll(file, cursor, LeBytes(sum, 4), left);
      file := all;
      return if whole then Ok(()) else Err(Faulted);
    }

    method Read(e: Extent) returns (r: Result<Bytes, IoError>)
      requires Valid()
      ensures r == ReadBack(crc, State(), e)
    {
      var at := superblock.dataOffset + e.offset;
      if at + HEADER_SIZE > |file| {
        return Err(Truncated);
      }
      var len := LeValue(file[at..at + HEADER_SIZE]);
      if len > Capacity(e) {
        return Err(Corruption(e.offset));
      }
      at := at + HEADER_SIZE;
      if at + len + CRC_SIZE > |file| {
        return Err(Truncated);
      }
      var data := file[at..at + len];
      at := at + len;
      if LeValue(file[at..at + CRC_SIZE]) != crc(data) {
        return Err(Corruption(e.offset));
      }
      return Ok(data);
    }

    method Free(e: Extent) returns (r: Result<(), AllocError>)
      requires Valid()
      modifies allocator
      ensures Valid() && State() == old(State()).(blocks := FreeOp(old(State()).blocks, e).0)
      ensures r == FreeOp(old(State()).blocks, e).1
    {
      r := allocator.Free(e);
    }

    method Sync()
      requires Valid()
      modifies this
      ensures Valid() && State() == Flushed(old(State()))
    {
      file := WriteAt(file, superblock.bitmapOffset, allocator.bitmap);
      file := WriteAt(file, superblock.bitmapMirrorOffset, allocator.bitmap);
    }
  }

  /* ---------------------------------------------------------------- writes and slices */

  lemma {:induction false} WriteTwiceInside(file: Bytes, at: nat, a: Bytes, b: Bytes)
    requires at <= |file| && a != [] && b != []
    ensures WriteAt(WriteAt(file, at, a), at + |a|, b) == WriteAt(file, at, a + b)
  {
    var once := WriteAt(file, at, a);
    assert once[..at + |a|] == file[..at] + a;
    assert |once| > at + |a| + |b| ==> once[at + |a| + |b|..] == file[at + |a| + |b|..];
  }

  lemma {:induction false} WritePadded(file: Bytes, at: nat, bytes: Bytes)
    requires bytes != [] && |file| < at
    ensures WriteAt(file, at, bytes) == WriteAt(file + Zeros(at - |file|), at, bytes)
  {
  }

  lemma {:induction false} WriteTwice(file: Bytes, at: nat, a: Bytes, b: Bytes)
    ensures WriteAt(WriteAt(file, at, a), at + |a|, b) == WriteAt(file, at, a + b)
  {
    if a == [] {
      assert a + b == b;
    } else if b == [] {
      AppendNothing(a);
    } else if |file| < at {
      WritePadded(file, at, a);
      WritePadded(file, at, a + b);
      WriteTwiceInside(file + Zeros(at - |file|), at, a, b);
    } else {
      WriteTwiceInside(file, at, a, b);
    }
  }

  /** Two writes behind each other are one, also when the second or the first is cut short. */
  lemma {:induction false} WriteAllTwice(file: Bytes, at: nat, a: Bytes, b: Bytes, reach: Option<nat>)
    ensures var (once, rest, ok) := WriteAll(file, at, a, reach);
            var (twice, left, fine) := WriteAll(once, at + |a|, b, rest);
            && (ok ==> (twice, left, fine) == WriteAll(file, at, a + b, reach))
            && (!ok ==> (once, rest, ok) == WriteAll(file, at, a + b, reach))
  {
    WriteTwice(file, at, a, b);
    if reach.Some? {
      if reach.value < |a| {
        assert (a + b)[..reach.value] == a[..reach.value];
      } else if reach.value < |a| + |b| {
        var n := reach.value - |a|;
        assert (a + b)[..reach.value] == a + b[..n];
        WriteTwice(file, at, a, b[..n]);
      }
    }
  }

  lemma {:induction false} FrameInParts(file: Bytes, at: nat, header: Bytes, data: Bytes, sum: Bytes,
                                        reach: Option<nat>)
    ensures var (once, rest, ok) := WriteAll(file, at, header, reach);
            var (twice, left, fine) := WriteAll(once, at + |header|, data, rest);
            var (all, last, whole) := WriteAll(twice, at + |header| + |data|, sum, left);
            WriteAll(file, at, header + data + sum, reach) ==
              if !ok then (once, rest, ok) else if !fine then (twice, left, fine) else (all, last, whole)
  {
    WriteAllTwice(file, at, header, data, reach);
    WriteAllTwice(file, at, header + data, sum, reach);
  }

  /** Reading back what was written, and reading anywhere else. */
  lemma {:induction false} WriteHere(file: Bytes, at: nat, bytes: Bytes)
    ensures bytes != [] ==> at + |bytes| <= |WriteAt(file, at, bytes)| && WriteAt(file, at, bytes)[at..at + |bytes|] == bytes
    ensures |WriteAt(file, at, bytes)| >= |file|
  {
  }

  lemma {:induction false} WriteElsewhere(file: Bytes, at: nat, bytes: Bytes, lo: nat, hi: nat)
    requires lo <= hi <= |file| && (hi <= at || at + |bytes| <= lo)
    ensures |WriteAt(file, at, bytes)| >= |file| && WriteAt(file, at, bytes)[lo..hi] == file[lo..hi]
  {
  }

  /** A frame that is on the file where an extent starts, and fits the extent, is read back, for any checksum. */
  lemma {:induction false} FrameReads(crc: Bytes -> u32, d: Device, e: Extent, data: Bytes)
    requires |data| < U32 && |data| + OVERHEAD <= e.length
    requires var at := d.sb.dataOffset + e.offset;
             at + |data| + OVERHEAD <= |d.file| && d.file[at..at + |data| + OVERHEAD] == Frame(crc, data)
    ensures ReadBack(crc, d, e) == Ok(data)
  {
    var at := d.sb.dataOffset + e.offset;
    var frame := Frame(crc, data);
    Widths();
    LeRoundTrip(|data|, 4);
    LeRoundTrip(crc(data), 4);
    SubSlice(d.file, at, frame, 0, 4);
    SubSlice(d.file, at, frame, 4, 4 + |data|);
    SubSlice(d.file, at, frame, 4 + |data|, 8 + |data|);
    assert frame[0..4] == LeBytes(|data|, 4);
    assert frame[4..4 + |data|] == data;
    assert frame[4 + |data|..8 + |data|] == LeBytes(crc(data), 4);
  }

  /** What `init` writes parses exactly when the device can hold a block. */
  lemma {:induction false} FormattedParses(deviceBytes: nat, deviceId: Bytes)
    requires deviceBytes < U64 && |deviceId| == 16
    ensures var sb := Format(deviceBytes, BLOCK_SIZE, deviceId);
            && |Serialized(sb)| == SUPERBLOCK_SIZE
            && if sb.totalBlocks > 0 then FromBytes(Serialized(sb)) == Ok(sb) else FromBytes(Serialized(sb)).Err?
  {
    var sb := Format(deviceBytes, BLOCK_SIZE, deviceId);
    BlockSizeOk();
    FormatFits(deviceBytes, BLOCK_SIZE, deviceId);
    FormatRoundTrip(deviceBytes, BLOCK_SIZE, deviceId, []);
    assert Serialized(sb) + [] == Serialized(sb);
  }

  lemma {:induction false} BlockSizeOk()
    ensures PowerOfTwo(BLOCK_SIZE)
  {
    assert PowerOfTwo(16);
    assert PowerOfTwo(256);
  }
}
