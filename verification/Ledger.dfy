/** Whole runs of the extent allocator: what every sequence of allocations, frees and reopenings keeps. */
module Ledger {
  import opened Base
  import opened Bitmap
  import opened FreeList
  import opened Allocator

  /** A range of blocks, and its extent in bytes. */
  datatype Range = Range(start: nat, count: nat) {
    function ToExtent(blockSize: nat): Extent { Extent(start * blockSize, count * blockSize) }
    predicate Has(b: nat) { start <= b < start + count }
    predicate Apart(other: Range) { start + count <= other.start || other.start + other.count <= start }
  }

  function RangeOf(e: Extent, blockSize: nat): Range
    requires blockSize > 0
  {
    Range(e.offset / blockSize, e.length / blockSize)
  }

  /** The allocator and the ranges handed out and not yet given back. */
  datatype Books = Books(blocks: Blocks, live: seq<Range>)

  datatype Event = Take(size: nat) | Return(i: nat) | Reopen

  function Step(s: Books, e: Event): Books
    requires s.blocks.blockSize > 0
  {
    match e
    case Take(size) =>
      var (after, r) := AllocOp(s.blocks, size);
      if r.Err? then s.(blocks := after)
      else Books(after, s.live + [RangeOf(r.value, s.blocks.blockSize)])
    case Return(i) =>
      if i >= |s.live| then s
      else Books(FreeOp(s.blocks, s.live[i].ToExtent(s.blocks.blockSize)).0, Delete(s.live, i))
    case Reopen => s.(blocks := Opened(s.blocks.bitmap, s.blocks.total, s.blocks.blockSize))
  }

  function Run(start: Blocks, events: seq<Event>): (s: Books)
    requires start.blockSize > 0
    ensures s.blocks.blockSize == start.blockSize
  {
    if events == [] then Books(start, []) else Step(Run(start, events[..|events| - 1]), events[|events| - 1])
  }

  function Total(live: seq<Range>): nat { if live == [] then 0 else Total(live[..|live| - 1]) + live[|live| - 1].count }

  predicate Holds(live: seq<Range>, b: nat) { exists i :: 0 <= i < |live| && live[i].Has(b) }

  ghost predicate LiveAll(a: Blocks, live: seq<Range>) {
    forall i :: 0 <= i < |live| ==> Live(a, live[i].start, live[i].count)
  }

  ghost predicate ApartAll(live: seq<Range>) { forall i, j :: 0 <= i < j < |live| ==> live[i].Apart(live[j]) }

  /** A block is in use exactly when it was before or some live range has it, and not both. */
  ghost predicate Marks(before: Bytes, bitmap: Bytes, live: seq<Range>) {
    && (forall b: nat :: GetBit(bitmap, b) <==> GetBit(before, b) || Holds(live, b))
    && (forall b: nat :: Holds(live, b) ==> !GetBit(before, b))
  }

  /** Live ranges are whole, in bounds and apart; the bitmap is that of the start plus the live ranges; and free
      blocks plus live blocks add up to what was free at the start. */
  ghost predicate Inv(start: Blocks, s: Books) {
    && Consistent(s.blocks) && s.blocks.total == start.total && s.blocks.blockSize == start.blockSize
    && |s.blocks.bitmap| == |start.bitmap|
    && LiveAll(s.blocks, s.live) && ApartAll(s.live) && Marks(start.bitmap, s.blocks.bitmap, s.live)
    && CountFree(Used(s.blocks.bitmap, s.blocks.total)) + Total(s.live) == CountFree(Used(start.bitmap, start.total))
  }

  lemma {:induction false} ChosenFree(a: Blocks, need: nat, o: nat, len: nat)
    requires Chosen(Used(a.bitmap, a.total), need, o, len) && need <= len
    ensures forall b: nat :: o <= b < o + need ==> !GetBit(a.bitmap, b)
  {
    var used := Used(a.bitmap, a.total);
    forall b: nat | o <= b < o + need
      ensures !GetBit(a.bitmap, b)
    {
      assert !used[b];
    }
  }

  /** The range a successful allocation takes. */
  lemma {:induction false} TakenAt(a: Blocks, size: nat) returns (o: nat, n: nat)
    requires Consistent(a) && AllocOp(a, size).1.Ok?
    ensures var (after, r) := AllocOp(a, size);
            && 0 < n && o + n <= a.total && RangeOf(r.value, a.blockSize) == Range(o, n)
            && (forall b: nat :: o <= b < o + n ==> !GetBit(a.bitmap, b))
            && Consistent(after) && after.total == a.total && after.blockSize == a.blockSize
            && after.bitmap == SetRange(a.bitmap, o, n, true)
            && Used(after.bitmap, after.total) == Fill(Used(a.bitmap, after.total), o, n, true)
  {
    AllocExact(a, size);
    var (after, r) := AllocOp(a, size);
    var used := Used(a.bitmap, a.total);
    n := DivCeil(size, a.blockSize);
    var at: nat, len: nat :| Chosen(used, n, at, len) && r.value == Extent(at * a.blockSize, n * a.blockSize)
      && after.bitmap == SetRange(a.bitmap, at, n, true) && Used(after.bitmap, a.total) == Fill(used, at, n, true);
    o := at;
    ExtentRange(o, n, a.blockSize);
    ChosenFree(a, n, o, len);
  }

  lemma {:induction false} TakeKeeps(start: Blocks, s: Books, size: nat)
    requires Inv(start, s)
    ensures Inv(start, Step(s, Take(size)))
  {
    var (after, r) := AllocOp(s.blocks, size);
    if r.Ok? {
      var o, n := TakenAt(s.blocks, size);
      TakenInv(start, s, o, n, after);
    } else {
      AllocExact(s.blocks, size);
    }
  }

  lemma {:induction false} ExtentRange(o: nat, n: nat, blockSize: nat)
    requires blockSize > 0
    ensures RangeOf(Extent(o * blockSize, n * blockSize), blockSize) == Range(o, n)
  {
    MulDiv(o, blockSize);
    MulDiv(n, blockSize);
  }

  /** A successful allocation enters in the books the very extent it returns. */
  lemma {:induction false} TakeExtent(s: Books, size: nat)
    requires s.blocks.blockSize > 0
    ensures var after := Step(s, Take(size));
            var r := AllocOp(s.blocks, size).1;
            && after.blocks == AllocOp(s.blocks, size).0 && after.blocks.blockSize == s.blocks.blockSize
            && (r.Err? ==> after.live == s.live)
            && (r.Ok? ==> |after.live| == |s.live| + 1 && after.live[..|s.live|] == s.live
                          && after.live[|s.live|].ToExtent(s.blocks.blockSize) == r.value)
  {
    var a, need := s.blocks, DivCeil(size, s.blocks.blockSize);
    var r := AllocOp(a, size).1;
    if r.Ok? {
      ExtentRange(BestFit(a.freeList, need, a.total).value, need, a.blockSize);
    }
  }

  lemma {:induction false} TakeShape(s: Books, size: nat)
    requires s.blocks.blockSize > 0
    ensures var after := Step(s, Take(size));
            && after.blocks.blockSize == s.blocks.blockSize
            && (after.live == s.live || (|after.live| == |s.live| + 1 && after.live[..|s.live|] == s.live))
  {
  }

  lemma {:induction false} TakenInv(start: Blocks, s: Books, o: nat, n: nat, after: Blocks)
    requires Inv(start, s) && 0 < n && o + n <= s.blocks.total
    requires forall b: nat :: o <= b < o + n ==> !GetBit(s.blocks.bitmap, b)
    requires Consistent(after) && after.total == s.blocks.total && after.blockSize == s.blocks.blockSize
    requires after.bitmap == SetRange(s.blocks.bitmap, o, n, true)
    requires Used(after.bitmap, after.total) == Fill(Used(s.blocks.bitmap, after.total), o, n, true)
    ensures Inv(start, Books(after, s.live + [Range(o, n)]))
  {
    var live := s.live + [Range(o, n)];
    TakenMarks(start.bitmap, s.blocks.bitmap, s.live, o, n);
    TakenApart(s, o, n);
    TakenLive(start.bitmap, s, o, n, after);
    CountFill(Used(s.blocks.bitmap, after.total), o, n, true);
    assert live[..|s.live|] == s.live;
  }

  lemma {:induction false} TakenMarks(before: Bytes, bitmap: Bytes, live: seq<Range>, o: nat, n: nat)
    requires Marks(before, bitmap, live) && 0 < n && forall b: nat :: o <= b < o + n ==> !GetBit(bitmap, b)
    ensures Backed(bitmap, o, n) && Marks(before, SetRange(bitmap, o, n, true), live + [Range(o, n)])
  {
    assert !GetBit(bitmap, o + n - 1);
    forall b: nat
      ensures GetBit(SetRange(bitmap, o, n, true), b) <==> GetBit(before, b) || Holds(live + [Range(o, n)], b)
      ensures Holds(live + [Range(o, n)], b) ==> !GetBit(before, b)
    {
      GetSetRange(bitmap, o, n, true, b);
      HoldsMore(live, Range(o, n), b);
      assert GetBit(bitmap, b) <==> GetBit(before, b) || Holds(live, b);
    }
  }

  lemma {:induction false} TakenApart(s: Books, o: nat, n: nat)
    requires LiveAll(s.blocks, s.live) && ApartAll(s.live) && 0 < n
    requires forall b: nat :: o <= b < o + n ==> !GetBit(s.blocks.bitmap, b)
    ensures ApartAll(s.live + [Range(o, n)])
  {
    forall i | 0 <= i < |s.live|
      ensures s.live[i].Apart(Range(o, n))
    {
      ApartFromUsed(s.blocks, s.live[i], o, n);
    }
  }

  lemma {:induction false} TakenLive(before: Bytes, s: Books, o: nat, n: nat, after: Blocks)
    requires LiveAll(s.blocks, s.live) && 0 < n && o + n <= after.total == s.blocks.total
    requires |after.bitmap| == |s.blocks.bitmap| && Backed(s.blocks.bitmap, o, n)
    requires Marks(before, after.bitmap, s.live + [Range(o, n)])
    ensures LiveAll(after, s.live + [Range(o, n)])
  {
    var live := s.live + [Range(o, n)];
    forall i | 0 <= i < |live|
      ensures Live(after, live[i].start, live[i].count)
    {
      if i < |s.live| {
        assert Live(s.blocks, s.live[i].start, s.live[i].count);
      }
      MarkedLive(before, after, live, i);
    }
  }

  /** A range of the list is in use. */
  lemma {:induction false} MarkedLive(before: Bytes, a: Blocks, live: seq<Range>, i: nat)
    requires Marks(before, a.bitmap, live) && i < |live|
    requires 0 < live[i].count && live[i].start + live[i].count <= a.total && Backed(a.bitmap, live[i].start, live[i].count)
    ensures Live(a, live[i].start, live[i].count)
  {
    forall b: nat | live[i].start <= b < live[i].start + live[i].count
      ensures GetBit(a.bitmap, b)
    {
      assert live[i].Has(b);
      assert Holds(live, b);
    }
  }

  lemma {:induction false} ApartFromUsed(a: Blocks, r: Range, o: nat, n: nat)
    requires Live(a, r.start, r.count) && 0 < n && forall b: nat :: o <= b < o + n ==> !GetBit(a.bitmap, b)
    ensures r.Apart(Range(o, n))
  {
    assert GetBit(a.bitmap, r.start);
    assert !GetBit(a.bitmap, o);
  }

  lemma {:induction false} HoldsMore(live: seq<Range>, r: Range, b: nat)
    ensures Holds(live + [r], b) <==> Holds(live, b) || r.Has(b)
  {
    var more := live + [r];
    if Holds(live, b) {
      var i :| 0 <= i < |live| && live[i].Has(b);
      assert more[i].Has(b);
    }
    assert r.Has(b) ==> more[|live|].Has(b);
  }

  lemma {:induction false} HoldsLess(live: seq<Range>, i: nat, b: nat)
    requires i < |live|
    ensures Holds(live, b) <==> Holds(Delete(live, i), b) || live[i].Has(b)
  {
    var less := Delete(live, i);
    if Holds(live, b) && !live[i].Has(b) {
      var j :| 0 <= j < |live| && live[j].Has(b);
      assert less[if j < i then j else j - 1].Has(b);
    }
    if Holds(less, b) {
      var j :| 0 <= j < |less| && less[j].Has(b);
      assert live[if j < i then j else j + 1].Has(b);
    }
  }

  lemma {:induction false} TotalLess(live: seq<Range>, i: nat)
    requires i < |live|
    ensures Total(live) == Total(Delete(live, i)) + live[i].count
  {
    var n := |live| - 1;
    if i < n {
      TotalLess(live[..n], i);
      assert Delete(live, i)[..n - 1] == Delete(live[..n], i);
    } else {
      assert Delete(live, i) == live[..n];
    }
  }

  lemma {:induction false} ReturnedMarks(before: Bytes, bitmap: Bytes, live: seq<Range>, i: nat)
    requires Marks(before, bitmap, live) && ApartAll(live) && i < |live| && Backed(bitmap, live[i].start, live[i].count)
    ensures Marks(before, SetRange(bitmap, live[i].start, live[i].count, false), Delete(live, i))
  {
    var r, less := live[i], Delete(live, i);
    forall b: nat
      ensures GetBit(SetRange(bitmap, r.start, r.count, false), b) <==> GetBit(before, b) || Holds(less, b)
      ensures Holds(less, b) ==> !GetBit(before, b)
    {
      GetSetRange(bitmap, r.start, r.count, false, b);
      HoldsLess(live, i, b);
      NotHeldTwice(live, i, b);
      assert GetBit(bitmap, b) <==> GetBit(before, b) || Holds(live, b);
    }
  }

  lemma {:induction false} ReturnedLive(before: Bytes, s: Books, i: nat, after: Blocks)
    requires LiveAll(s.blocks, s.live) && i < |s.live| && after.total == s.blocks.total
    requires |after.bitmap| == |s.blocks.bitmap| && Marks(before, after.bitmap, Delete(s.live, i))
    ensures LiveAll(after, Delete(s.live, i))
  {
    var less := Delete(s.live, i);
    forall j | 0 <= j < |less|
      ensures Live(after, less[j].start, less[j].count)
    {
      var k := if j < i then j else j + 1;
      assert less[j] == s.live[k];
      assert Live(s.blocks, s.live[k].start, s.live[k].count);
      MarkedLive(before, after, less, j);
    }
  }

  lemma {:induction false} ReturnedApart(live: seq<Range>, i: nat)
    requires ApartAll(live) && i < |live|
    ensures ApartAll(Delete(live, i))
  {
    var less := Delete(live, i);
    forall j, k | 0 <= j < k < |less|
      ensures less[j].Apart(less[k])
    {
      assert live[if j < i then j else j + 1].Apart(live[if k < i then k else k + 1]);
    }
  }

  lemma {:induction false} NotHeldTwice(live: seq<Range>, i: nat, b: nat)
    requires i < |live| && ApartAll(live)
    ensures Holds(Delete(live, i), b) ==> !live[i].Has(b)
  {
    var less := Delete(live, i);
    if Holds(less, b) {
      var j :| 0 <= j < |less| && less[j].Has(b);
      var k := if j < i then j else j + 1;
      assert live[k] == less[j];
      assert k < i ==> live[k].Apart(live[i]);
      assert i < k ==> live[i].Apart(live[k]);
    }
  }

  lemma {:induction false} ReturnKeeps(start: Blocks, s: Books, i: nat)
    requires Inv(start, s)
    ensures Inv(start, Step(s, Return(i)))
  {
    if i < |s.live| {
      var r := s.live[i];
      assert Live(s.blocks, r.start, r.count);
      FreeAligned(s.blocks, r.start, r.count);
      FreeLive(s.blocks, r.start, r.count);
      ReturnedMarks(start.bitmap, s.blocks.bitmap, s.live, i);
      ReturnedLive(start.bitmap, s, i, FreeRange(s.blocks, r.start, r.count).0);
      ReturnedApart(s.live, i);
      CountFill(Used(s.blocks.bitmap, s.blocks.total), r.start, r.count, false);
      TotalLess(s.live, i);
    }
  }

  /** Over every run of allocations, frees of live extents and reopenings, from any opened device: cache and
      bitmap agree, live extents are in bounds and disjoint, and no block is lost or handed out twice. */
  lemma {:induction false} RunInv(start: Blocks, events: seq<Event>)
    requires Consistent(start)
    ensures Inv(start, Run(start, events))
  {
    if events != [] {
      var before := Run(start, events[..|events| - 1]);
      RunInv(start, events[..|events| - 1]);
      match events[|events| - 1]
      case Take(size) => TakeKeeps(start, before, size);
      case Return(i) => ReturnKeeps(start, before, i);
      case Reopen => ReopenIsIdentity(before.blocks);
    }
  }

  /* ---------------------------------------------------------------- freeing in any order */

  function FreeAll(a: Blocks, ranges: seq<Range>): (r: Blocks)
    requires a.blockSize > 0
    ensures r.blockSize == a.blockSize
  {
    if ranges == [] then a
    else FreeOp(FreeAll(a, ranges[..|ranges| - 1]), ranges[|ranges| - 1].ToExtent(a.blockSize)).0
  }

  ghost predicate Freeable(a: Blocks, ranges: seq<Range>) {
    Consistent(a) && LiveAll(a, ranges) && ApartAll(ranges)
  }

  lemma {:induction false} FreeAllIs(a: Blocks, ranges: seq<Range>)
    requires Freeable(a, ranges)
    ensures var after := FreeAll(a, ranges);
            && Consistent(after) && after.total == a.total && |after.bitmap| == |a.bitmap|
            && forall b: nat :: GetBit(after.bitmap, b) <==> GetBit(a.bitmap, b) && !Holds(ranges, b)
  {
    if ranges != [] {
      var n := |ranges| - 1;
      var front, r := ranges[..n], ranges[n];
      FreeAllIs(a, front);
      var before := FreeAll(a, front);
      assert ranges == front + [r];
      forall b: nat | r.start <= b < r.start + r.count
        ensures GetBit(before.bitmap, b)
      {
        assert Live(a, r.start, r.count);
        NotHeldTwice(ranges, n, b);
        assert Delete(ranges, n) == front;
      }
      FreeAligned(before, r.start, r.count);
      FreeLive(before, r.start, r.count);
      forall b: nat
        ensures GetBit(FreeAll(a, ranges).bitmap, b) <==> GetBit(a.bitmap, b) && !Holds(ranges, b)
      {
        GetSetRange(before.bitmap, r.start, r.count, false, b);
        HoldsMore(front, r, b);
      }
    }
  }

  /** Freeing the same live extents in any order gives the same state, byte for byte and run for run. */
  lemma {:induction false} FreeAnyOrder(a: Blocks, ranges: seq<Range>, shuffled: seq<Range>)
    requires Freeable(a, ranges) && Freeable(a, shuffled)
    requires forall r :: r in ranges <==> r in shuffled
    ensures FreeAll(a, ranges) == FreeAll(a, shuffled)
  {
    FreeAllIs(a, ranges);
    FreeAllIs(a, shuffled);
    var x, y := FreeAll(a, ranges), FreeAll(a, shuffled);
    forall b: nat
      ensures Holds(ranges, b) <==> Holds(shuffled, b)
    {
      SameHolds(ranges, shuffled, b);
      SameHolds(shuffled, ranges, b);
    }
    SameBits(x.bitmap, y.bitmap);
    AgreesUnique(Used(x.bitmap, a.total), x.freeList, y.freeList);
  }

  lemma {:induction false} SameHolds(ranges: seq<Range>, shuffled: seq<Range>, b: nat)
    requires forall r :: r in ranges ==> r in shuffled
    ensures Holds(ranges, b) ==> Holds(shuffled, b)
  {
    if Holds(ranges, b) {
      var i :| 0 <= i < |ranges| && ranges[i].Has(b);
      assert ranges[i] in shuffled;
      var j :| 0 <= j < |shuffled| && shuffled[j] == ranges[i];
      assert shuffled[j].Has(b);
    }
  }
}
