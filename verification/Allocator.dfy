/** The bitmap extent allocator: crates/kiseki-block/src/allocator.rs. */
module Allocator {
  import opened Base
  import opened Bitmap
  import opened FreeList

  /** A byte range of the data region. */
  datatype Extent = Extent(offset: nat, length: nat)

  datatype AllocError = DeviceFull(requested: nat, available: nat) | RequestTooLarge(requested: nat, max: nat) | Inconsistency

  const MAX_EXTENT_BYTES: nat := 16 * 1024 * 1024 + 8

  /** The state of an allocator. */
  datatype Blocks = Blocks(total: nat, blockSize: nat, bitmap: Bytes, freeList: Runs)

  function MaxExtentBlocks(blockSize: nat): nat
    requires blockSize > 0
  {
    DivCeil(MAX_EXTENT_BYTES, blockSize)
  }

  /** The blocks as the bitmap has them. */
  function Used(bitmap: Bytes, total: nat): seq<bool> { seq(total, b requires 0 <= b < total => GetBit(bitmap, b)) }

  /** The free list is the cache of the bitmap. */
  ghost predicate Consistent(a: Blocks) { a.blockSize > 0 && Agrees(Used(a.bitmap, a.total), a.freeList) }

  /** An allocator over bits that are already there. */
  function Opened(bitmap: Bytes, total: nat, blockSize: nat): Blocks {
    Blocks(total, blockSize, bitmap, Rebuilt(Used(bitmap, total)))
  }

  function Fresh(total: nat, blockSize: nat): Blocks { Opened(Zeros(DivCeil(total, 8)), total, blockSize) }

  function AllocOp(a: Blocks, size: nat): (Blocks, Result<Extent, AllocError>)
    requires a.blockSize > 0
  {
    var need := DivCeil(size, a.blockSize);
    if need == 0 then (a, Err(Inconsistency))
    else if need > MaxExtentBlocks(a.blockSize) then (a, Err(RequestTooLarge(size, MAX_EXTENT_BYTES)))
    else
      match BestFit(a.freeList, need, a.total)
      case None => (a, Err(DeviceFull(size, Longest(a.freeList, a.total) * a.blockSize)))
      case Some(o) =>
        (a.(bitmap := SetRange(a.bitmap, o, need, true), freeList := TakeFront(a.freeList, o, need)),
         Ok(Extent(o * a.blockSize, need * a.blockSize)))
  }

  function FreeOp(a: Blocks, e: Extent): (Blocks, Result<(), AllocError>)
    requires a.blockSize > 0
  {
    FreeRange(a, e.offset / a.blockSize, e.length / a.blockSize)
  }

  function FreeRange(a: Blocks, s: nat, n: nat): (Blocks, Result<(), AllocError>) {
    if s + n > a.total then (a, Err(Inconsistency))
    else (a.(bitmap := SetRange(a.bitmap, s, n, false), freeList := GiveBack(a.freeList, s, n)), Ok(()))
  }

  /* ---------------------------------------------------------------- the allocator object */

  class BitmapAllocator {
    const totalBlocks: nat
    const blockSize: nat
    const maxExtentBlocks: nat
    var bitmap: Bytes
    var freeList: Runs

    ghost predicate Valid()
      reads this
    {
      blockSize > 0 && maxExtentBlocks == MaxExtentBlocks(blockSize)
    }

    ghost function State(): Blocks
      reads this
    {
      Blocks(totalBlocks, blockSize, bitmap, freeList)
    }

    constructor New(total: nat, blockSize: nat)
      requires blockSize > 0
      ensures Valid() && State() == Fresh(total, blockSize)
    {
      this.totalBlocks, this.blockSize, this.maxExtentBlocks := total, blockSize, MaxExtentBlocks(blockSize);
      this.bitmap, this.freeList := Zeros(DivCeil(total, 8)), map[];
      new;
      RebuildFreeList();
    }

    constructor FromBitmap(bitmap: Bytes, total: nat, blockSize: nat)
      requires blockSize > 0
      ensures Valid() && State() == Opened(bitmap, total, blockSize)
    {
      this.totalBlocks, this.blockSize, this.maxExtentBlocks := total, blockSize, MaxExtentBlocks(blockSize);
      this.bitmap, this.freeList := bitmap, map[];
      new;
      RebuildFreeList();
    }

    method Alloc(size: nat) returns (r: Result<Extent, AllocError>)
      requires Valid()
      modifies this
      ensures Valid() && (State(), r) == AllocOp(old(State()), size)
    {
      var need := DivCeil(size, blockSize);
      if need == 0 {
        return Err(Inconsistency);
      }
      if need > maxExtentBlocks {
        return Err(RequestTooLarge(size, MAX_EXTENT_BYTES));
      }
      var best: Option<nat> := None;
      for o := 0 to totalBlocks
        invariant best == BestFit(freeList, need, o)
        invariant unchanged(this)
      {
        if o in freeList && freeList[o] >= need && (best.None? || freeList[o] < freeList[best.value]) {
          best := Some(o);
        }
      }
      if best.None? {
        var longest := 0;
        for o := 0 to totalBlocks
          invariant longest == Longest(freeList, o)
          invariant unchanged(this)
        {
          if o in freeList {
            longest := Max(longest, freeList[o]);
          }
        }
        return Err(DeviceFull(size, longest * blockSize));
      }
      var offset := best.value;
      var freeLen := freeList[offset];
      freeList := freeList - {offset};
      if freeLen > need {
        freeList := freeList[offset + need := freeLen - need];
      }
      MarkRange(offset, need, true);
      return Ok(Extent(offset * blockSize, need * blockSize));
    }

    method Free(e: Extent) returns (r: Result<(), AllocError>)
      requires Valid()
      modifies this
      ensures Valid() && (State(), r) == FreeOp(old(State()), e)
    {
      var offset, count := e.offset / blockSize, e.length / blockSize;
      if offset + count > totalBlocks {
        return Err(Inconsistency);
      }
      MarkRange(offset, count, false);
      freeList := freeList[offset := count];
      Coalesce(offset);
      return Ok(());
    }

    method MarkRange(offset: nat, count: nat, taken: bool)
      modifies this`bitmap
      ensures bitmap == SetRange(old(bitmap), offset, count, taken)
    {
      for i := 0 to count
        invariant bitmap == SetRange(old(bitmap), offset, i, taken)
      {
        MarkBit(offset + i, taken);
      }
    }

    method MarkBit(block: nat, taken: bool)
      modifies this`bitmap
      ensures bitmap == SetBit(old(bitmap), block, taken)
    {
      var at := block / 8;
      if at < |bitmap| {
        bitmap := bitmap[at := SetByte(bitmap[at], block % 8, taken)];
      }
    }

    method RebuildFreeList()
      modifies this`freeList
      ensures freeList == Rebuilt(Used(bitmap, totalBlocks))
    {
      freeList := map[];
      var runStart: Option<nat> := None;
      ghost var used := Used(bitmap, totalBlocks);
      for block := 0 to totalBlocks
        invariant (freeList, runStart) == Scan(used, block)
        invariant runStart.Some? ==> runStart.value < block
      {
        if GetBit(bitmap, block) {
          if runStart.Some? {
            freeList := freeList[runStart.value := block - runStart.value];
            runStart := None;
          }
        } else if runStart.None? {
          runStart := Some(block);
        }
      }
      if runStart.Some? {
        freeList := freeList[runStart.value := totalBlocks - runStart.value];
      }
    }

    method Coalesce(offset: nat)
      modifies this`freeList
      ensures freeList == Coalesced(old(freeList), offset)
    {
      var prev := LastBefore(freeList, offset);
      if prev.Some? && prev.value + freeList[prev.value] == offset {
        var prevLen := freeList[prev.value];
        var curLen := if offset in freeList then freeList[offset] else 0;
        freeList := freeList - {offset};
        freeList := freeList[prev.value := prevLen + curLen];
        CoalesceNext(prev.value);
      } else {
        CoalesceNext(offset);
      }
    }

    method CoalesceNext(offset: nat)
      modifies this`freeList
      ensures freeList == JoinNext(old(freeList), offset)
    {
      if offset in freeList {
        var curLen := freeList[offset];
        var next := offset + curLen;
        if next in freeList {
          var nextLen := freeList[next];
          freeList := freeList - {next};
          freeList := freeList[offset := curLen + nextLen];
        }
      }
    }

    method FreeBlocks() returns (n: nat)
      requires Valid() && Consistent(State())
      ensures n == CountFree(Used(bitmap, totalBlocks))
    {
      n := 0;
      for o := 0 to totalBlocks
        invariant n == Sum(freeList, o)
      {
        if o in freeList {
          n := n + freeList[o];
        }
      }
      SumCounts(Used(bitmap, totalBlocks), freeList);
    }
  }

  /* ---------------------------------------------------------------- cache agreement */

  /** Every block of the range has its bit in the bitmap. */
  predicate Backed(bitmap: Bytes, s: nat, n: nat) { s + n <= 8 * |bitmap| || n == 0 }

  lemma {:induction false} UsedAfter(bitmap: Bytes, total: nat, s: nat, n: nat, v: bool)
    requires s + n <= total && Backed(bitmap, s, n)
    ensures Used(SetRange(bitmap, s, n, v), total) == Fill(Used(bitmap, total), s, n, v)
  {
    forall b: nat | b < total
      ensures Used(SetRange(bitmap, s, n, v), total)[b] == Fill(Used(bitmap, total), s, n, v)[b]
    {
      GetSetRange(bitmap, s, n, v, b);
    }
  }

  /** Every way of opening an allocator gives a list that agrees with its bitmap, and it is the only one: so
      writing the bitmap out and opening it again changes nothing. */
  lemma {:induction false} ReopenIsIdentity(a: Blocks)
    requires Consistent(a)
    ensures Opened(a.bitmap, a.total, a.blockSize) == a
  {
    RebuiltAgrees(Used(a.bitmap, a.total));
    AgreesUnique(Used(a.bitmap, a.total), a.freeList, Rebuilt(Used(a.bitmap, a.total)));
  }

  lemma {:induction false} OpenedConsistent(bitmap: Bytes, total: nat, blockSize: nat)
    requires blockSize > 0
    ensures Consistent(Opened(bitmap, total, blockSize))
  {
    RebuiltAgrees(Used(bitmap, total));
  }

  /** Allocation is best fit and complete: it succeeds exactly when the request is between one block and the cap
      and the bitmap has a free stretch that long; it then takes the front of the shortest maximal run that is
      long enough, the lowest one on ties, and keeps cache and bitmap in agreement. A full device reports
      its longest free run (`FullReportsLongest`). */
  lemma {:induction false} AllocExact(a: Blocks, size: nat)
    requires Consistent(a)
    ensures var used := Used(a.bitmap, a.total);
            var need := DivCeil(size, a.blockSize);
            var (after, r) := AllocOp(a, size);
            && (r.Ok? <==> 1 <= need <= MaxExtentBlocks(a.blockSize) && exists s: nat :: Stretch(used, s, need))
            && (r.Err? ==> after == a)
            && (r.Ok? ==> size <= r.value.length < size + a.blockSize)
            && (r.Ok? ==> exists o: nat, len: nat ::
                  Chosen(used, need, o, len) && r.value == Extent(o * a.blockSize, need * a.blockSize)
                  && after.bitmap == SetRange(a.bitmap, o, need, true)
                  && Used(after.bitmap, a.total) == Fill(used, o, need, true))
            && Consistent(after)
  {
    var used := Used(a.bitmap, a.total);
    var need := DivCeil(size, a.blockSize);
    DivCeilBounds(size, a.blockSize);
    if 1 <= need <= MaxExtentBlocks(a.blockSize) {
      var best := BestFit(a.freeList, need, a.total);
      BestFitIs(a.freeList, need, a.total);
      StretchIffRun(used, a.freeList, need);
      forall s | s in a.freeList
        ensures s < a.total
      {
        assert IsRun(used, s, a.freeList[s]);
      }
      if best.Some? {
        var o := best.value;
        TakenRun(a, o, need);
        assert Chosen(used, need, o, a.freeList[o]);
      }
    }
  }

  /** The run best fit must choose. */
  ghost predicate Chosen(used: seq<bool>, need: nat, o: nat, len: nat) {
    && IsRun(used, o, len) && len >= need
    && forall s: nat, l: nat :: IsRun(used, s, l) && l >= need ==> len < l || (len == l && o <= s)
  }

  lemma {:induction false} TakenRun(a: Blocks, o: nat, need: nat)
    requires Consistent(a) && o in a.freeList && 0 < need <= a.freeList[o]
    ensures o + need <= a.total && Backed(a.bitmap, o, need)
    ensures Used(SetRange(a.bitmap, o, need, true), a.total) == Fill(Used(a.bitmap, a.total), o, need, true)
    ensures Agrees(Fill(Used(a.bitmap, a.total), o, need, true), TakeFront(a.freeList, o, need))
  {
    var used := Used(a.bitmap, a.total);
    assert IsRun(used, o, a.freeList[o]);
    assert !used[o + need - 1];
    UsedAfter(a.bitmap, a.total, o, need, true);
    TakeAgrees(used, a.freeList, o, need);
  }

  lemma {:induction false} FullReportsLongest(a: Blocks, size: nat)
    requires Consistent(a) && AllocOp(a, size).1.Err? && AllocOp(a, size).1.error.DeviceFull?
    ensures var used := Used(a.bitmap, a.total);
            exists longest: nat ::
              && AllocOp(a, size).1.error == DeviceFull(size, longest * a.blockSize)
              && longest < DivCeil(size, a.blockSize)
              && (longest > 0 ==> exists s: nat :: IsRun(used, s, longest))
              && (forall s: nat, l: nat :: IsRun(used, s, l) ==> l <= longest)
  {
    var used := Used(a.bitmap, a.total);
    var longest := Longest(a.freeList, a.total);
    LongestIs(a.freeList, a.total);
    BestFitIs(a.freeList, DivCeil(size, a.blockSize), a.total);
    if longest > 0 {
      var s: nat :| s in a.freeList && s < a.total && a.freeList[s] == longest;
      assert IsRun(used, s, longest);
    }
    forall s: nat, l: nat | IsRun(used, s, l)
      ensures l <= longest
    {
      assert s in a.freeList && a.freeList[s] == l;
    }
  }

  /** Freeing in terms of blocks. */
  predicate FreeQualifies(a: Blocks, s: nat, n: nat)
    requires s + n <= a.total
  {
    Backed(a.bitmap, s, n) && MayGiveBack(Used(a.bitmap, a.total), s, n)
  }

  /** `free` checks only the bounds. It keeps cache and bitmap in agreement exactly when the blocks named are
      backed by the bitmap and the free ones among them are a whole run at the front, which is so for every
      live extent; for any other extent the free list is wrong afterwards. */
  lemma {:induction false} FreeExact(a: Blocks, s: nat, n: nat)
    requires Consistent(a) && s + n <= a.total
    ensures FreeRange(a, s, n).1.Ok?
    ensures Consistent(FreeRange(a, s, n).0) <==> FreeQualifies(a, s, n)
  {
    var used := Used(a.bitmap, a.total);
    var after := FreeRange(a, s, n).0;
    if Backed(a.bitmap, s, n) {
      UsedAfter(a.bitmap, a.total, s, n, false);
      if n == 0 {
        assert Fill(used, s, 0, false) == used;
        GiveBackNothing(used, a.freeList, s);
      } else if MayGiveBack(used, s, n) {
        GiveBackAgrees(used, a.freeList, s, n);
      } else if Consistent(after) {
        GiveBackOnlyIf(used, a.freeList, s, n);
        assert false;
      }
    } else {
      GiveBackIs(a.freeList, s, n);
      var start := MergedStart(a.freeList, s);
      var b := s + n - 1;
      GetSetRange(a.bitmap, s, n, false, b);
      assert Used(after.bitmap, a.total)[b];
      assert !IsRun(Used(after.bitmap, a.total), start, after.freeList[start]);
    }
  }

  /** A live extent: whole blocks, inside the device, all marked used. */
  ghost predicate Live(a: Blocks, s: nat, n: nat) {
    0 < n && s + n <= a.total && Backed(a.bitmap, s, n) && forall b :: s <= b < s + n ==> GetBit(a.bitmap, b)
  }

  lemma {:induction false} FreeLive(a: Blocks, s: nat, n: nat)
    requires Consistent(a) && Live(a, s, n)
    ensures var (after, r) := FreeRange(a, s, n);
            && r.Ok? && Consistent(after) && after.bitmap == SetRange(a.bitmap, s, n, false)
            && Used(after.bitmap, a.total) == Fill(Used(a.bitmap, a.total), s, n, false)
  {
    UsedAfter(a.bitmap, a.total, s, n, false);
    assert MayGiveBack(Used(a.bitmap, a.total), s, n);
    FreeExact(a, s, n);
  }

  /** Freeing the byte extent of whole blocks frees exactly those blocks. */
  lemma {:induction false} FreeAligned(a: Blocks, s: nat, n: nat)
    requires a.blockSize > 0
    ensures FreeOp(a, Extent(s * a.blockSize, n * a.blockSize)) == FreeRange(a, s, n)
  {
    MulDiv(s, a.blockSize);
    MulDiv(n, a.blockSize);
  }

  /** A concrete double free that breaks the cache: one block of a fresh two-block device. */
  lemma {:induction false} DoubleFreeBreaks()
    ensures FreeRange(Fresh(2, 4096), 0, 1).1.Ok? && !Consistent(FreeRange(Fresh(2, 4096), 0, 1).0)
  {
    var a := Fresh(2, 4096);
    OpenedConsistent(a.bitmap, 2, 4096);
    assert a.bitmap == [0];
    assert !Used(a.bitmap, 2)[0] && !Used(a.bitmap, 2)[1];
    FreeExact(a, 0, 1);
  }
}
