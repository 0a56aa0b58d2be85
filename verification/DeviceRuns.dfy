/** Whole runs of a file-backed device: what was written last is what is read. */
module DeviceRuns {
  import opened Base
  import opened Allocator
  import opened Superblock
  import opened Device
  import Ledger

  /** The device, the live ranges, what was last written to each, and the books as they were at the last flush. */
  datatype World = World(dev: Device, live: seq<Ledger.Range>, last: seq<Option<Bytes>>, synced: Ledger.Books)

  /** What stays the same over a run. */
  datatype Setup = Setup(crc: Bytes -> u32, deviceBytes: nat, sb: Superblock, head: Bytes, start: Blocks)

  /** A put says how far it gets when the file fails; a crash opens the file again without a flush. */
  datatype Event = Take(size: nat) | Put(i: nat, data: Bytes, reach: Option<nat>) | Return(i: nat) | Sync | Reopen | Crash

  function BooksOf(w: World): Ledger.Books { Ledger.Books(w.dev.blocks, w.live) }

  function Took(w: World, after: Ledger.Books): World {
    w.(dev := w.dev.(blocks := after.blocks), live := after.live,
       last := if |after.live| > |w.live| then w.last + [None] else w.last)
  }

  /** What is known of an extent after a write to it: nothing, if the file failed. */
  function Lasting(before: Option<Bytes>, data: Bytes, r: Result<(), IoError>): Option<Bytes> {
    match r
    case Ok(_) => Some(data)
    case Err(e) => if e.InvalidInput? then before else None
  }

  function Synced(w: World): World { w.(dev := Flushed(w.dev), synced := BooksOf(w)) }

  /** What was last written to a range. */
  function LastOf(live: seq<Ledger.Range>, last: seq<Option<Bytes>>, r: Ledger.Range): Option<Bytes>
    requires |live| == |last|
  {
    if live == [] then None
    else
      var n := |live| - 1;
      if live[n] == r then last[n] else LastOf(live[..n], last[..n], r)
  }

  /** The same for each of a list of ranges. */
  function Remembered(ranges: seq<Ledger.Range>, live: seq<Ledger.Range>,
                      last: seq<Option<Bytes>>): (r: seq<Option<Bytes>>)
    requires |live| == |last|
    ensures |r| == |ranges| && forall i :: 0 <= i < |r| ==> r[i] == LastOf(live, last, ranges[i])
  {
    if ranges == [] then []
    else Remembered(ranges[..|ranges| - 1], live, last) + [LastOf(live, last, ranges[|ranges| - 1])]
  }

  /** Writes and frees go to live extents. Reopening follows a sync; after a crash the ranges live at the last flush are
      live, with what was last written to those blocks as long as they are the same extent. */
  function Step(crc: Bytes -> u32, w: World, e: Event): (r: World)
    requires w.dev.blocks.blockSize > 0 && |w.last| == |w.live|
    ensures r.dev.blocks.blockSize > 0 && |r.last| == |r.live|
  {
    match e
    case Take(size) =>
      Took(w, Ledger.Step(BooksOf(w), Ledger.Take(size + OVERHEAD)))
    case Return(i) =>
      if i >= |w.live| then w
      else
        var after := Ledger.Step(BooksOf(w), Ledger.Return(i));
        w.(dev := w.dev.(blocks := after.blocks), live := after.live, last := Delete(w.last, i))
    case Put(i, data, reach) =>
      if i >= |w.live| then w
      else
        var (dev, r) := Written(crc, w.dev, w.live[i].ToExtent(w.dev.blocks.blockSize), data, reach);
        w.(dev := dev, last := w.last[i := Lasting(w.last[i], data, r)])
    case Sync => Synced(w)
    case Reopen =>
      (match Open(Flushed(w.dev).file)
       case Ok(dev) => Synced(w).(dev := dev)
       case Err(_) => Synced(w))
    case Crash =>
      (match Open(w.dev.file)
       case Ok(dev) => World(dev, w.synced.live, Remembered(w.synced.live, w.live, w.last), w.synced)
       case Err(_) => w)
  }

  /* ---------------------------------------------------------------- the invariant */

  function Lo(sb: Superblock, r: Ledger.Range): nat { sb.dataOffset + r.start * sb.blockSize }

  function Hi(sb: Superblock, r: Ledger.Range): nat { sb.dataOffset + r.start * sb.blockSize + r.count * sb.blockSize }

  /** Live ranges as byte zones of the file: inside the data region, and apart. */
  ghost predicate Zoned(sb: Superblock, live: seq<Ledger.Range>, deviceBytes: nat) {
    && (forall i :: 0 <= i < |live| ==> Hi(sb, live[i]) <= deviceBytes)
    && (forall i, j :: 0 <= i < |live| && 0 <= j < |live| && i != j ==>
                         Hi(sb, live[i]) <= Lo(sb, live[j]) || Hi(sb, live[j]) <= Lo(sb, live[i]))
  }

  /** The frame of a payload starts a zone and fits it. */
  ghost predicate Framed(crc: Bytes -> u32, file: Bytes, lo: nat, hi: nat, data: Bytes) {
    && |data| < U32 && lo + |data| + OVERHEAD <= hi && lo + |data| + OVERHEAD <= |file|
    && file[lo..lo + |data| + OVERHEAD] == Frame(crc, data)
  }

  ghost predicate AllFramed(u: Setup, file: Bytes, live: seq<Ledger.Range>, last: seq<Option<Bytes>>) {
    && |live| == |last|
    && forall i :: 0 <= i < |live| && last[i].Some? ==>
                     Framed(u.crc, file, Lo(u.sb, live[i]), Hi(u.sb, live[i]), last[i].value)
  }

  ghost predicate Proper(u: Setup) {
    && LaidOut(u.sb, u.deviceBytes) && u.sb.blockSize >= OVERHEAD && Consistent(u.start)
    && u.start.total == u.sb.totalBlocks && u.start.blockSize == u.sb.blockSize
    && |u.start.bitmap| == DivCeil(u.sb.totalBlocks, 8)
    && |u.head| == SUPERBLOCK_SIZE
  }

  ghost predicate Parses(u: Setup) {
    if u.sb.totalBlocks > 0 then FromBytes(u.head) == Ok(u.sb) else FromBytes(u.head).Err?
  }

  ghost predicate OnDisk(u: Setup, file: Bytes) {
    SUPERBLOCK_SIZE <= |file| && u.deviceBytes <= |file| && file[..SUPERBLOCK_SIZE] == u.head
  }

  ghost predicate Stored(u: Setup, w: World) {
    && w.dev.sb == u.sb && OnDisk(u, w.dev.file)
    && AllFramed(u, w.dev.file, w.live, w.last)
  }

  /** The bitmap on the file is that of the last flush. */
  ghost predicate FlushedTo(u: Setup, file: Bytes, bitmap: Bytes) {
    u.sb.totalBlocks > 0 ==>
      && u.sb.bitmapOffset + |bitmap| <= |file| && u.sb.bitmapMirrorOffset + |bitmap| <= |file|
      && file[u.sb.bitmapOffset..u.sb.bitmapOffset + |bitmap|] == bitmap
  }

  ghost predicate Inv(u: Setup, w: World) {
    && Stored(u, w) && FlushedTo(u, w.dev.file, w.synced.blocks.bitmap)
    && Ledger.Inv(u.start, BooksOf(w)) && Ledger.Inv(u.start, w.synced)
  }

  /* ---------------------------------------------------------------- each step keeps it */

  lemma {:induction false} Distribute(a: nat, b: nat, size: nat)
    ensures (a + b) * size == a * size + b * size
  {
  }

  lemma {:induction false} ZonedHolds(start: Blocks, s: Ledger.Books, sb: Superblock, deviceBytes: nat)
    requires Ledger.Inv(start, s) && LaidOut(sb, deviceBytes) && s.blocks.total == sb.totalBlocks
    ensures Zoned(sb, s.live, deviceBytes)
  {
    forall i | 0 <= i < |s.live|
      ensures Hi(sb, s.live[i]) <= deviceBytes
    {
      var r := s.live[i];
      assert Live(s.blocks, r.start, r.count);
      MulAtLeast(r.start + r.count, sb.totalBlocks, sb.blockSize);
      Distribute(r.start, r.count, sb.blockSize);
    }
    forall i, j | 0 <= i < j < |s.live|
      ensures Hi(sb, s.live[i]) <= Lo(sb, s.live[j]) || Hi(sb, s.live[j]) <= Lo(sb, s.live[i])
    {
      ZonesApart(sb, s.live[i], s.live[j]);
    }
  }

  lemma {:induction false} ZonesApart(sb: Superblock, a: Ledger.Range, b: Ledger.Range)
    requires a.Apart(b)
    ensures Hi(sb, a) <= Lo(sb, b) || Hi(sb, b) <= Lo(sb, a)
  {
    Distribute(a.start, a.count, sb.blockSize);
    Distribute(b.start, b.count, sb.blockSize);
    if a.start + a.count <= b.start {
      MulAtLeast(a.start + a.count, b.start, sb.blockSize);
    } else {
      MulAtLeast(b.start + b.count, a.start, sb.blockSize);
    }
  }

  /** A write inside one zone leaves every other frame. */
  lemma {:induction false} OtherFrames(u: Setup, file: Bytes, live: seq<Ledger.Range>, last: seq<Option<Bytes>>,
                                       i: nat, bytes: Bytes,
                                       known: Option<Bytes>)
    requires AllFramed(u, file, live, last) && Zoned(u.sb, live, u.deviceBytes) && i < |live|
    requires Lo(u.sb, live[i]) + |bytes| <= Hi(u.sb, live[i])
    requires var after := WriteAt(file, Lo(u.sb, live[i]), bytes);
             known.Some? ==> Framed(u.crc, after, Lo(u.sb, live[i]), Hi(u.sb, live[i]), known.value)
    ensures AllFramed(u, WriteAt(file, Lo(u.sb, live[i]), bytes), live, last[i := known])
  {
    var at := Lo(u.sb, live[i]);
    var after := WriteAt(file, at, bytes);
    forall j | 0 <= j < |live| && last[i := known][j].Some?
      ensures Framed(u.crc, after, Lo(u.sb, live[j]), Hi(u.sb, live[j]), last[i := known][j].value)
    {
      if i != j {
        var lo := Lo(u.sb, live[j]);
        assert Framed(u.crc, file, lo, Hi(u.sb, live[j]), last[j].value);
        WriteElsewhere(file, at, bytes, lo, lo + |last[j].value| + OVERHEAD);
      }
    }
  }

  lemma {:induction false} PutOnDisk(u: Setup, file: Bytes, at: nat, bytes: Bytes)
    requires OnDisk(u, file) && at >= SUPERBLOCK_SIZE
    ensures OnDisk(u, WriteAt(file, at, bytes))
  {
    WriteElsewhere(file, at, bytes, 0, SUPERBLOCK_SIZE);
  }

  /** Every live extent has room for a frame's header and checksum. */
  lemma {:induction false} RoomForFrame(sb: Superblock, r: Ledger.Range, data: Bytes)
    requires r.count > 0 && sb.blockSize >= OVERHEAD && |data| <= Capacity(r.ToExtent(sb.blockSize))
    ensures Lo(sb, r) + |data| + OVERHEAD <= Hi(sb, r)
  {
    MulAtLeast(1, r.count, sb.blockSize);
  }

  /** What a write puts at the start of the zone: its frame, as far as it gets. */
  function Reached(crc: Bytes -> u32, data: Bytes, reach: Option<nat>): Bytes {
    var frame := Frame(crc, data);
    if reach.Some? && reach.value < |frame| then frame[..reach.value] else frame
  }

  predicate Accepts(sb: Superblock, r: Ledger.Range, data: Bytes) {
    |data| < U32 && |data| <= Capacity(r.ToExtent(sb.blockSize))
  }

  lemma {:induction false} PutIs(u: Setup, w: World, i: nat, data: Bytes, reach: Option<nat>)
    requires w.dev.sb == u.sb && w.dev.blocks.blockSize == u.sb.blockSize > 0 && i < |w.live| == |w.last|
    ensures var whole := reach.None? || reach.value >= |Frame(u.crc, data)|;
            Step(u.crc, w, Put(i, data, reach)) ==
            if !Accepts(u.sb, w.live[i], data) then w
            else w.(dev := w.dev.(file := WriteAt(w.dev.file, Lo(u.sb, w.live[i]), Reached(u.crc, data, reach))),
                    last := w.last[i := if whole then Some(data) else None])
  {
  }

  lemma {:induction false} PutStored(u: Setup, w: World, i: nat, data: Bytes, reach: Option<nat>)
    requires Stored(u, w) && Zoned(u.sb, w.live, u.deviceBytes) && w.dev.blocks.blockSize == u.sb.blockSize
    requires u.sb.blockSize >= OVERHEAD && u.sb.dataOffset >= SUPERBLOCK_SIZE
    requires i < |w.live| && w.live[i].count > 0 && Accepts(u.sb, w.live[i], data)
    ensures Stored(u, Step(u.crc, w, Put(i, data, reach)))
  {
    var at, bytes := Lo(u.sb, w.live[i]), Reached(u.crc, data, reach);
    PutIs(u, w, i, data, reach);
    RoomForFrame(u.sb, w.live[i], data);
    WriteHere(w.dev.file, at, bytes);
    OtherFrames(u, w.dev.file, w.live, w.last, i, bytes,
                if reach.None? || reach.value >= |Frame(u.crc, data)| then Some(data) else None);
    PutOnDisk(u, w.dev.file, at, bytes);
  }

  /** A write to the data region leaves the bitmap on the file. */
  lemma {:induction false} BitmapStays(u: Setup, file: Bytes, bitmap: Bytes, at: nat, bytes: Bytes)
    requires Proper(u) && FlushedTo(u, file, bitmap) && |bitmap| == |u.start.bitmap| && u.sb.dataOffset <= at
    ensures FlushedTo(u, WriteAt(file, at, bytes), bitmap)
  {
    if u.sb.totalBlocks > 0 {
      WriteElsewhere(file, at, bytes, u.sb.bitmapOffset, u.sb.bitmapOffset + |bitmap|);
    }
  }

  lemma {:induction false} PutKeeps(u: Setup, w: World, i: nat, data: Bytes, reach: Option<nat>)
    requires Proper(u) && Inv(u, w)
    ensures Inv(u, Step(u.crc, w, Put(i, data, reach)))
  {
    if i < |w.live| {
      assert Live(w.dev.blocks, w.live[i].start, w.live[i].count);
      PutIs(u, w, i, data, reach);
      if Accepts(u.sb, w.live[i], data) {
        ZonedHolds(u.start, BooksOf(w), u.sb, u.deviceBytes);
        PutStored(u, w, i, data, reach);
        BitmapStays(u, w.dev.file, w.synced.blocks.bitmap, Lo(u.sb, w.live[i]), Reached(u.crc, data, reach));
      }
    }
  }

  /** Nothing but the bitmap region differs. */
  ghost predicate SameOutside(sb: Superblock, before: Bytes, after: Bytes) {
    && SUPERBLOCK_SIZE <= |before| <= |after| && after[..SUPERBLOCK_SIZE] == before[..SUPERBLOCK_SIZE]
    && forall k :: sb.dataOffset <= k < |before| ==> after[k] == before[k]
  }

  /** Writing a bitmap touches neither the superblock nor the data region. */
  lemma {:induction false} BitmapWrite(sb: Superblock, file: Bytes, at: nat, bitmap: Bytes)
    requires SUPERBLOCK_SIZE <= |file| && SUPERBLOCK_SIZE <= at && at + |bitmap| <= sb.dataOffset
    ensures SameOutside(sb, file, WriteAt(file, at, bitmap))
  {
    WriteElsewhere(file, at, bitmap, 0, SUPERBLOCK_SIZE);
  }

  lemma {:induction false} FlushedSame(u: Setup, d: Device)
    requires Proper(u) && d.sb == u.sb && |d.blocks.bitmap| == |u.start.bitmap| && OnDisk(u, d.file)
    ensures SameOutside(u.sb, d.file, Flushed(d).file)
  {
    var once := WriteAt(d.file, d.sb.bitmapOffset, d.blocks.bitmap);
    BitmapWrite(u.sb, d.file, d.sb.bitmapOffset, d.blocks.bitmap);
    BitmapWrite(u.sb, once, d.sb.bitmapMirrorOffset, d.blocks.bitmap);
  }

  lemma {:induction false} SameFrames(u: Setup, file: Bytes, after: Bytes, live: seq<Ledger.Range>,
                                      last: seq<Option<Bytes>>)
    requires AllFramed(u, file, live, last) && SameOutside(u.sb, file, after)
    ensures AllFramed(u, after, live, last)
  {
    forall i | 0 <= i < |live| && last[i].Some?
      ensures Framed(u.crc, after, Lo(u.sb, live[i]), Hi(u.sb, live[i]), last[i].value)
    {
      var lo := Lo(u.sb, live[i]);
      assert Framed(u.crc, file, lo, Hi(u.sb, live[i]), last[i].value);
      var hi := lo + |last[i].value| + OVERHEAD;
      assert after[lo..hi] == file[lo..hi];
    }
  }

  lemma {:induction false} FlushedBitmaps(u: Setup, d: Device)
    requires Proper(u) && d.sb == u.sb && |d.blocks.bitmap| == |u.start.bitmap| && u.sb.totalBlocks > 0
    ensures var n, file := |d.blocks.bitmap|, Flushed(d).file;
            && d.sb.bitmapOffset + n <= |file| && d.sb.bitmapMirrorOffset + n <= |file|
            && file[d.sb.bitmapOffset..d.sb.bitmapOffset + n] == d.blocks.bitmap
  {
    var once := WriteAt(d.file, d.sb.bitmapOffset, d.blocks.bitmap);
    WriteHere(d.file, d.sb.bitmapOffset, d.blocks.bitmap);
    WriteHere(once, d.sb.bitmapMirrorOffset, d.blocks.bitmap);
    WriteElsewhere(once, d.sb.bitmapMirrorOffset, d.blocks.bitmap, d.sb.bitmapOffset, d.sb.bitmapOffset + |d.blocks.bitmap|);
  }

  lemma {:induction false} SyncKeeps(u: Setup, w: World)
    requires Proper(u) && Inv(u, w)
    ensures Inv(u, Synced(w))
  {
    FlushedSame(u, w.dev);
    SameFrames(u, w.dev.file, Flushed(w.dev).file, w.live, w.last);
    if u.sb.totalBlocks > 0 {
      FlushedBitmaps(u, w.dev);
    }
  }

  lemma {:induction false} OpenIs(file: Bytes, sb: Superblock)
    requires |file| >= SUPERBLOCK_SIZE && FromBytes(file[..SUPERBLOCK_SIZE]) == Ok(sb)
    requires var n := DivCeil(sb.totalBlocks, 8); sb.bitmapOffset + n <= |file| && sb.bitmapMirrorOffset + n <= |file|
    ensures Open(file) == Ok(Device(sb, Opened(file[sb.bitmapOffset..sb.bitmapOffset + DivCeil(sb.totalBlocks, 8)],
                                               sb.totalBlocks, sb.blockSize), file))
  {
  }

  /** After a sync, opening the file again gives the very same device. */
  lemma {:induction false} SyncThenOpen(u: Setup, d: Device)
    requires Proper(u) && d.sb == u.sb && |d.blocks.bitmap| == |u.start.bitmap| && OnDisk(u, d.file)
    requires Consistent(d.blocks) && d.blocks.total == u.start.total && d.blocks.blockSize == u.start.blockSize
    requires Parses(u) && u.sb.totalBlocks > 0
    ensures Open(Flushed(d).file) == Ok(Flushed(d))
  {
    HeadStays(u, d);
    FlushedBitmaps(u, d);
    OpensTo(u, Flushed(d).file, d.blocks);
  }

  lemma {:induction false} HeadStays(u: Setup, d: Device)
    requires Proper(u) && d.sb == u.sb && |d.blocks.bitmap| == |u.start.bitmap| && OnDisk(u, d.file)
    ensures OnDisk(u, Flushed(d).file)
  {
    FlushedSame(u, d);
  }

  /** Reopening is a sync, also when the device is too small to be opened at all. */
  lemma {:induction false} ReopenIsSync(u: Setup, w: World)
    requires Proper(u) && Parses(u) && w.dev.sb == u.sb && OnDisk(u, w.dev.file) && |w.last| == |w.live|
    requires Consistent(w.dev.blocks) && |w.dev.blocks.bitmap| == |u.start.bitmap|
    requires w.dev.blocks.total == u.start.total && w.dev.blocks.blockSize == u.start.blockSize
    ensures Step(u.crc, w, Reopen) == Synced(w)
    ensures u.sb.totalBlocks > 0 ==> Open(Flushed(w.dev).file) == Ok(Flushed(w.dev))
  {
    if u.sb.totalBlocks > 0 {
      SyncThenOpen(u, w.dev);
    } else {
      FlushedSame(u, w.dev);
    }
  }

  lemma {:induction false} ReopenKeeps(u: Setup, w: World)
    requires Proper(u) && Parses(u) && Inv(u, w)
    ensures Inv(u, Step(u.crc, w, Reopen))
    ensures u.sb.totalBlocks > 0 ==> Open(Flushed(w.dev).file) == Ok(Flushed(w.dev))
  {
    ReopenIsSync(u, w);
    SyncKeeps(u, w);
  }

  /* ---------------------------------------------------------------- crashes */

  lemma {:induction false} LastOfFramed(u: Setup, file: Bytes, live: seq<Ledger.Range>, last: seq<Option<Bytes>>,
                                        r: Ledger.Range)
    requires AllFramed(u, file, live, last)
    ensures var data := LastOf(live, last, r);
            data.Some? ==> Framed(u.crc, file, Lo(u.sb, r), Hi(u.sb, r), data.value)
  {
    if live != [] {
      var n := |live| - 1;
      if live[n] == r {
        assert last[n].Some? ==> Framed(u.crc, file, Lo(u.sb, live[n]), Hi(u.sb, live[n]), last[n].value);
      } else {
        FramedFront(u, file, live, last);
        LastOfFramed(u, file, live[..n], last[..n], r);
      }
    }
  }

  lemma {:induction false} FramedFront(u: Setup, file: Bytes, live: seq<Ledger.Range>, last: seq<Option<Bytes>>)
    requires AllFramed(u, file, live, last) && live != []
    ensures AllFramed(u, file, live[..|live| - 1], last[..|live| - 1])
  {
    forall i | 0 <= i < |live| - 1 && last[i].Some?
      ensures Framed(u.crc, file, Lo(u.sb, live[i]), Hi(u.sb, live[i]), last[i].value)
    {
    }
  }

  lemma {:induction false} RememberedFramed(u: Setup, file: Bytes, ranges: seq<Ledger.Range>, live: seq<Ledger.Range>,
                                            last: seq<Option<Bytes>>)
    requires AllFramed(u, file, live, last)
    ensures AllFramed(u, file, ranges, Remembered(ranges, live, last))
  {
    forall i | 0 <= i < |ranges| && Remembered(ranges, live, last)[i].Some?
      ensures Framed(u.crc, file, Lo(u.sb, ranges[i]), Hi(u.sb, ranges[i]), Remembered(ranges, live, last)[i].value)
    {
      LastOfFramed(u, file, live, last, ranges[i]);
    }
  }

  /** Opening a file that was not flushed gives the allocator of the last flush. */
  lemma {:induction false} CrashIs(u: Setup, w: World)
    requires Proper(u) && Parses(u) && Inv(u, w) && u.sb.totalBlocks > 0
    ensures Open(w.dev.file) == Ok(Device(u.sb, w.synced.blocks, w.dev.file))
    ensures Step(u.crc, w, Crash) == World(Device(u.sb, w.synced.blocks, w.dev.file), w.synced.live,
                                           Remembered(w.synced.live, w.live, w.last), w.synced)
  {
    OpensTo(u, w.dev.file, w.synced.blocks);
  }

  lemma {:induction false} OpensTo(u: Setup, file: Bytes, blocks: Blocks)
    requires Proper(u) && Parses(u) && OnDisk(u, file) && FlushedTo(u, file, blocks.bitmap) && u.sb.totalBlocks > 0
    requires Consistent(blocks) && |blocks.bitmap| == |u.start.bitmap|
    requires blocks.total == u.start.total && blocks.blockSize == u.start.blockSize
    ensures Open(file) == Ok(Device(u.sb, blocks, file))
  {
    ReopenIsIdentity(blocks);
    OpenIs(file, u.sb);
  }

  lemma {:induction false} CrashKeeps(u: Setup, w: World)
    requires Proper(u) && Parses(u) && Inv(u, w)
    ensures Inv(u, Step(u.crc, w, Crash))
  {
    if u.sb.totalBlocks > 0 {
      CrashIs(u, w);
      RememberedFramed(u, w.dev.file, w.synced.live, w.live, w.last);
    }
  }

  lemma {:induction false} TakeStored(u: Setup, w: World, size: nat)
    requires Stored(u, w) && w.dev.blocks.blockSize > 0
    ensures Stored(u, Step(u.crc, w, Take(size)))
  {
    var after := Ledger.Step(BooksOf(w), Ledger.Take(size + OVERHEAD));
    Ledger.TakeShape(BooksOf(w), size + OVERHEAD);
    forall i | 0 <= i < |w.live|
      ensures after.live[i] == w.live[i]
    {
      assert after.live[..|w.live|][i] == w.live[i];
    }
  }

  lemma {:induction false} ReturnStored(u: Setup, w: World, i: nat)
    requires Stored(u, w) && w.dev.blocks.blockSize > 0
    ensures Stored(u, Step(u.crc, w, Return(i)))
  {
  }

  lemma {:induction false} BooksKeep(u: Setup, w: World, e: Event)
    requires Ledger.Inv(u.start, BooksOf(w)) && |w.last| == |w.live| && (e.Take? || e.Return?)
    ensures Ledger.Inv(u.start, BooksOf(Step(u.crc, w, e)))
  {
    if e.Take? {
      Ledger.TakeKeeps(u.start, BooksOf(w), e.size + OVERHEAD);
    } else if e.i < |w.live| {
      Ledger.ReturnKeeps(u.start, BooksOf(w), e.i);
    }
  }

  lemma {:induction false} BooksStepKeeps(u: Setup, w: World, e: Event)
    requires Inv(u, w) && (e.Take? || e.Return?)
    ensures Inv(u, Step(u.crc, w, e))
  {
    BooksKeep(u, w, e);
    if e.Take? {
      TakeStored(u, w, e.size);
    } else {
      ReturnStored(u, w, e.i);
    }
  }

  /* ---------------------------------------------------------------- whole runs */

  function Run(crc: Bytes -> u32, start: Device, events: seq<Event>): (w: World)
    requires start.blocks.blockSize > 0
    ensures w.dev.blocks.blockSize > 0 && |w.last| == |w.live|
  {
    if events == [] then World(start, [], [], Ledger.Books(start.blocks, []))
    else Step(crc, Run(crc, start, events[..|events| - 1]), events[|events| - 1])
  }

  lemma {:induction false} StepKeeps(u: Setup, w: World, e: Event)
    requires Proper(u) && Parses(u) && Inv(u, w)
    ensures Inv(u, Step(u.crc, w, e))
  {
    match e
    case Take(size) => BooksStepKeeps(u, w, e);
    case Put(i, data, reach) => PutKeeps(u, w, i, data, reach);
    case Return(i) => BooksStepKeeps(u, w, e);
    case Sync => SyncKeeps(u, w);
    case Reopen => ReopenKeeps(u, w);
    case Crash => CrashKeeps(u, w);
  }

  /** What every run keeps. */
  lemma {:induction false} RunInv(u: Setup, start: Device, events: seq<Event>)
    requires Proper(u) && Parses(u) && start.sb == u.sb && start.blocks == u.start && OnDisk(u, start.file)
    requires FlushedTo(u, start.file, start.blocks.bitmap)
    ensures Inv(u, Run(u.crc, start, events))
  {
    if events == [] {
      Ledger.RunInv(u.start, []);
    } else {
      RunInv(u, start, events[..|events| - 1]);
      StepKeeps(u, Run(u.crc, start, events[..|events| - 1]), events[|events| - 1]);
    }
  }

  lemma {:induction false} InitFile(u: Setup, d: Device)
    requires Proper(u) && d.sb == u.sb && |d.blocks.bitmap| == |u.start.bitmap|
    requires d.file == WriteAt(Zeros(u.deviceBytes), 0, u.head)
    ensures OnDisk(u, Flushed(d).file) && FlushedTo(u, Flushed(d).file, d.blocks.bitmap)
  {
    WriteHere(Zeros(u.deviceBytes), 0, u.head);
    assert d.file[..SUPERBLOCK_SIZE] == d.file[0..0 + |u.head|];
    FlushedSame(u, d);
    if u.sb.totalBlocks > 0 {
      FlushedBitmaps(u, d);
    }
  }

  /** A freshly initialised device is a proper start. */
  lemma {:induction false} InitProper(crc: Bytes -> u32, existing: Option<Bytes>, deviceBytes: nat, deviceId: Bytes)
    returns (u: Setup)
    requires deviceBytes < U64 && |deviceId| == 16 && Init(existing, deviceBytes, deviceId).Ok?
    ensures var d := Init(existing, deviceBytes, deviceId).value;
            && Proper(u) && Parses(u) && u.crc == crc && u.sb == d.sb && u.start == d.blocks
            && OnDisk(u, d.file) && FlushedTo(u, d.file, d.blocks.bitmap)
  {
    var sb := Format(deviceBytes, BLOCK_SIZE, deviceId);
    var start := Fresh(sb.totalBlocks, sb.blockSize);
    u := Setup(crc, deviceBytes, sb, Serialized(sb), start);
    LayoutHolds(deviceBytes, BLOCK_SIZE, deviceId);
    OpenedConsistent(start.bitmap, sb.totalBlocks, sb.blockSize);
    FormattedParses(deviceBytes, deviceId);
    InitFile(u, Device(sb, start, WriteAt(Zeros(deviceBytes), 0, u.head)));
  }

  /** Over every run on a freshly initialised device of any size, for any checksum function: reading a live extent
      gives back what was last written to it, whatever was written, freed, allocated, synced, reopened or lost in a
      crash since, and however far failing writes to other extents got; and at every point a sync followed by
      opening the file gives the same device back. */
  lemma {:induction false} LastWriteWins(crc: Bytes -> u32, existing: Option<Bytes>, deviceBytes: nat,
                                         deviceId: Bytes, events: seq<Event>)
    requires deviceBytes < U64 && |deviceId| == 16 && Init(existing, deviceBytes, deviceId).Ok?
    ensures var w := Run(crc, Init(existing, deviceBytes, deviceId).value, events);
            && (forall i :: 0 <= i < |w.live| && w.last[i].Some? ==>
                              ReadBack(crc, w.dev, w.live[i].ToExtent(w.dev.sb.blockSize)) == Ok(w.last[i].value))
            && (w.dev.sb.totalBlocks > 0 ==> Open(Flushed(w.dev).file) == Ok(Flushed(w.dev)))
  {
    var d := Init(existing, deviceBytes, deviceId).value;
    var u := InitProper(crc, existing, deviceBytes, deviceId);
    RunInv(u, d, events);
    var w := Run(crc, d, events);
    ReopenKeeps(u, w);
    forall i | 0 <= i < |w.live| && w.last[i].Some?
      ensures ReadBack(crc, w.dev, w.live[i].ToExtent(u.sb.blockSize)) == Ok(w.last[i].value)
    {
      ReadsBack(u, w, i);
    }
  }

  lemma {:induction false} ReadsBack(u: Setup, w: World, i: nat)
    requires Stored(u, w) && i < |w.live| && w.last[i].Some?
    ensures ReadBack(u.crc, w.dev, w.live[i].ToExtent(u.sb.blockSize)) == Ok(w.last[i].value)
  {
    assert Framed(u.crc, w.dev.file, Lo(u.sb, w.live[i]), Hi(u.sb, w.live[i]), w.last[i].value);
    FrameReads(u.crc, w.dev, w.live[i].ToExtent(u.sb.blockSize), w.last[i].value);
  }

  predicate Flushes(e: Event) { e.Sync? || e.Reopen? }

  lemma {:induction false} StepSynced(crc: Bytes -> u32, w: World, e: Event)
    requires w.dev.blocks.blockSize > 0 && |w.last| == |w.live|
    ensures Step(crc, w, e).synced == if Flushes(e) then BooksOf(w) else w.synced
  {
  }

  lemma {:induction false} RunSynced(crc: Bytes -> u32, start: Device, events: seq<Event>)
    requires start.blocks.blockSize > 0 && events != []
    ensures var before := Run(crc, start, events[..|events| - 1]);
            Run(crc, start, events).synced == if Flushes(events[|events| - 1]) then BooksOf(before) else before.synced
  {
    StepSynced(crc, Run(crc, start, events[..|events| - 1]), events[|events| - 1]);
  }

  /** What `synced` remembers: the books before the last flush, or those of the start. */
  lemma {:induction false} SyncedMeans(crc: Bytes -> u32, start: Device, events: seq<Event>, t: nat)
    requires start.blocks.blockSize > 0 && t <= |events| && (t > 0 ==> Flushes(events[t - 1]))
    requires forall n :: t <= n < |events| ==> !Flushes(events[n])
    ensures t == 0 ==> Run(crc, start, events).synced == Ledger.Books(start.blocks, [])
    ensures t > 0 ==> Run(crc, start, events).synced == BooksOf(Run(crc, start, events[..t - 1]))
  {
    if events != [] {
      RunSynced(crc, start, events);
      if t < |events| {
        SyncedMeans(crc, start, events[..|events| - 1], t);
        if t > 0 {
          TakeTake(events, t - 1, |events| - 1);
        }
      }
    }
  }

  lemma {:induction false} LastOfIs(live: seq<Ledger.Range>, last: seq<Option<Bytes>>, j: nat)
    requires |live| == |last| && j < |live| && forall i :: j < i < |live| ==> live[i] != live[j]
    ensures LastOf(live, last, live[j]) == last[j]
  {
    if j < |live| - 1 {
      LastOfIs(live[..|live| - 1], last[..|live| - 1], j);
    }
  }

  lemma {:induction false} LiveDistinct(start: Blocks, s: Ledger.Books, j: nat)
    requires Ledger.Inv(start, s) && j < |s.live|
    ensures forall i :: j < i < |s.live| ==> s.live[i] != s.live[j]
  {
    forall i | j < i < |s.live|
      ensures s.live[i] != s.live[j]
    {
      assert s.live[j].Apart(s.live[i]);
      assert Live(s.blocks, s.live[j].start, s.live[j].count);
    }
  }

  /** Over every run on a freshly initialised device, a crash at its end: opening the file gives the allocator of the last
      flush, so the ranges live then are in use and nothing else is; and an extent live then and still live at the crash
      reads what was last written to it, before or after the flush. */
  lemma {:induction false} CrashRecovers(crc: Bytes -> u32, existing: Option<Bytes>, deviceBytes: nat, deviceId: Bytes,
                                         events: seq<Event>, i: nat, j: nat)
    requires deviceBytes < U64 && |deviceId| == 16 && Init(existing, deviceBytes, deviceId).Ok?
    requires var w := Run(crc, Init(existing, deviceBytes, deviceId).value, events);
             w.dev.sb.totalBlocks > 0 && i < |w.synced.live| && j < |w.live| && w.synced.live[i] == w.live[j]
    ensures var d := Init(existing, deviceBytes, deviceId).value;
            var w := Run(crc, d, events);
            var after := Step(crc, w, Crash);
            && Open(w.dev.file) == Ok(after.dev) && BooksOf(after) == w.synced && Ledger.Inv(d.blocks, w.synced)
            && after.last[i] == w.last[j]
            && (w.last[j].Some? ==> ReadBack(crc, after.dev, w.live[j].ToExtent(w.dev.sb.blockSize)) == Ok(w.last[j].value))
  {
    var d := Init(existing, deviceBytes, deviceId).value;
    var u := InitProper(crc, existing, deviceBytes, deviceId);
    RunInv(u, d, events);
    var w := Run(crc, d, events);
    CrashIs(u, w);
    CrashKeeps(u, w);
    LiveDistinct(u.start, BooksOf(w), j);
    LastOfIs(w.live, w.last, j);
    if w.last[j].Some? {
      ReadsBack(u, Step(crc, w, Crash), i);
    }
  }
}
