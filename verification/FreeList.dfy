/** The free list as a set of maximal runs of free blocks: the cache of crates/kiseki-block/src/allocator.rs
    against the bitmap it is derived from, block by block. */
module FreeList {
  import opened Base

  /** Free runs by start block. */
  type Runs = map<nat, nat>

  predicate AllFree(used: seq<bool>, lo: nat, hi: nat) {
    hi <= |used| && forall b :: lo <= b < hi ==> !used[b]
  }

  /** [s, s + l) is a run of free blocks that cannot be extended on either side. */
  predicate IsRun(used: seq<bool>, s: nat, l: nat) {
    && l > 0 && AllFree(used, s, s + l)
    && (s > 0 ==> used[s - 1])
    && (s + l < |used| ==> used[s + l])
  }

  /** The list holds exactly the maximal free runs. */
  ghost predicate Agrees(used: seq<bool>, runs: Runs) {
    forall s: nat, l: nat :: (s in runs && runs[s] == l) <==> IsRun(used, s, l)
  }

  /** There is only one list that agrees with given blocks. */
  lemma {:induction false} AgreesUnique(used: seq<bool>, a: Runs, b: Runs)
    requires Agrees(used, a) && Agrees(used, b)
    ensures a == b
  {
    forall s | s in a
      ensures s in b && b[s] == a[s]
    {
      assert IsRun(used, s, a[s]);
    }
    forall s | s in b
      ensures s in a && a[s] == b[s]
    {
      assert IsRun(used, s, b[s]);
    }
  }

  lemma {:induction false} RunsApart(used: seq<bool>, s: nat, l: nat, t: nat, k: nat)
    requires IsRun(used, s, l) && IsRun(used, t, k) && s < t
    ensures s + l < t
  {
    assert used[t - 1] && !used[t];
  }

  lemma {:induction false} SameLength(used: seq<bool>, s: nat, l: nat, k: nat)
    requires IsRun(used, s, l) && IsRun(used, s, k)
    ensures l == k
  {
  }

  lemma {:induction false} StartsAfterUsed(used: seq<bool>, runs: Runs, t: nat)
    requires Agrees(used, runs) && t in runs && t > 0
    ensures t < |used| && used[t - 1]
  {
    assert IsRun(used, t, runs[t]);
  }

  /** Extending a free block to the left and to the right as far as it goes. */
  lemma {:induction false} RunAround(used: seq<bool>, b: nat) returns (s: nat, l: nat)
    requires b < |used| && !used[b]
    ensures IsRun(used, s, l) && s <= b < s + l
  {
    s := b;
    while s > 0 && !used[s - 1]
      invariant s <= b && AllFree(used, s, b + 1)
    {
      s := s - 1;
    }
    var e := b + 1;
    while e < |used| && !used[e]
      invariant b < e <= |used| && AllFree(used, s, e)
    {
      e := e + 1;
    }
    l := e - s;
  }

  /** Blocks s to s + n - 1 marked used or free. */
  function Fill(used: seq<bool>, s: nat, n: nat, v: bool): (r: seq<bool>)
    requires s + n <= |used|
    ensures |r| == |used|
    ensures forall b :: 0 <= b < |used| ==> r[b] == if s <= b < s + n then v else used[b]
  {
    used[..s] + Repeat(v, n) + used[s + n..]
  }

  /* ---------------------------------------------------------------- taking the front of a run */

  function TakeFront(runs: Runs, o: nat, n: nat): Runs
    requires o in runs && n <= runs[o]
  {
    var rest := runs - {o};
    if runs[o] > n then rest[o + n := runs[o] - n] else rest
  }

  lemma {:induction false} RunAway(used: seq<bool>, after: seq<bool>, lo: nat, hi: nat, x: nat, l: nat)
    requires |used| == |after| && forall b :: 0 <= b < |used| && !(lo <= b < hi) ==> used[b] == after[b]
    requires x + l < lo || hi < x
    ensures IsRun(used, x, l) <==> IsRun(after, x, l)
  {
  }

  lemma {:induction false} OtherApart(used: seq<bool>, s: nat, l: nat, t: nat, k: nat)
    requires IsRun(used, s, l) && IsRun(used, t, k) && s != t
    ensures t + k < s || s + l < t
  {
    if s < t { RunsApart(used, s, l, t, k); } else { RunsApart(used, t, k, s, l); }
  }

  lemma {:induction false} TakeAway(used: seq<bool>, o: nat, len: nat, n: nat, s: nat, l: nat)
    requires IsRun(used, o, len) && 0 < n <= len && IsRun(Fill(used, o, n, true), s, l) && s != o + n
    ensures s + l < o || o + len < s
  {
    var after := Fill(used, o, n, true);
    assert after[o] && (o > 0 ==> after[o - 1]);
    if s >= o {
      assert after[s - 1] && !after[s];
      assert used[s - 1] || s <= o + n;
    }
  }

  /** The runs after taking the front of one: its rest, and the others. */
  lemma {:induction false} TakeRun(used: seq<bool>, o: nat, len: nat, n: nat, s: nat, l: nat)
    requires IsRun(used, o, len) && 0 < n <= len
    ensures IsRun(Fill(used, o, n, true), s, l) <==>
            (s == o + n && n < len && l == len - n) || (s != o && IsRun(used, s, l))
  {
    var after := Fill(used, o, n, true);
    if s == o + n {
      TakeRest(used, o, len, n, l);
    } else if IsRun(after, s, l) {
      TakeAway(used, o, len, n, s, l);
      RunAway(used, after, o, o + n, s, l);
    } else if s != o && IsRun(used, s, l) {
      OtherApart(used, o, len, s, l);
      RunAway(used, after, o, o + n, s, l);
    }
  }

  lemma {:induction false} TakeRest(used: seq<bool>, o: nat, len: nat, n: nat, l: nat)
    requires IsRun(used, o, len) && 0 < n <= len
    ensures IsRun(Fill(used, o, n, true), o + n, l) <==> n < len && l == len - n
    ensures !IsRun(used, o + n, l)
  {
    var after := Fill(used, o, n, true);
    assert after[o + n - 1] && !used[o + n - 1];
    if n < len {
      assert IsRun(after, o + n, len - n);
    }
  }

  /** Taking blocks from the front of a run keeps the list in agreement. */
  lemma {:induction false} TakeAgrees(used: seq<bool>, runs: Runs, o: nat, n: nat)
    requires Agrees(used, runs) && o in runs && 0 < n <= runs[o]
    ensures o + n <= |used| && Agrees(Fill(used, o, n, true), TakeFront(runs, o, n))
  {
    assert IsRun(used, o, runs[o]);
    var after, list := Fill(used, o, n, true), TakeFront(runs, o, n);
    forall x | x in runs && o < x
      ensures o + runs[o] < x
    {
      RunsApart(used, o, runs[o], x, runs[x]);
    }
    forall s: nat, l: nat
      ensures (s in list && list[s] == l) <==> IsRun(after, s, l)
    {
      TakeRun(used, o, runs[o], n, s, l);
      assert (s in runs && runs[s] == l) <==> IsRun(used, s, l);
    }
  }

  /* ---------------------------------------------------------------- giving blocks back */

  /** The greatest start below s, if any: `range(..s).next_back()`. */
  function LastBefore(runs: Runs, s: nat): (r: Option<nat>)
    ensures r.Some? ==> r.value < s && r.value in runs && forall t :: r.value < t < s ==> t !in runs
    ensures r.None? ==> forall t :: 0 <= t < s ==> t !in runs
  {
    if s == 0 then None else if s - 1 in runs then Some(s - 1) else LastBefore(runs, s - 1)
  }

  /** Join a run with the one that starts where it ends. */
  function JoinNext(runs: Runs, o: nat): Runs {
    if o !in runs then runs
    else
      var next := o + runs[o];
      if next in runs then (runs - {next})[o := runs[o] + runs[next]] else runs
  }

  /** Join a freshly inserted run with its neighbours. */
  function Coalesced(runs: Runs, s: nat): Runs {
    var prev := LastBefore(runs, s);
    if prev.Some? && prev.value + runs[prev.value] == s then
      var cur := if s in runs then runs[s] else 0;
      JoinNext((runs - {s})[prev.value := runs[prev.value] + cur], prev.value)
    else JoinNext(runs, s)
  }

  function GiveBack(runs: Runs, s: nat, n: nat): Runs { Coalesced(runs[s := n], s) }

  /** What has to hold of the blocks [s, s + n) so that giving them back leaves the list in agreement: the
      free ones among them, if any, are a whole run that starts at s. No free block at all, the case of a
      live extent, qualifies; so does freeing an exact run twice. Giving back nothing at all is harmless
      only where a run ends. */
  predicate MayGiveBack(used: seq<bool>, s: nat, n: nat)
    requires s + n <= |used|
  {
    if n == 0 then s > 0 && !used[s - 1] && (s < |used| ==> used[s]) else
    && (forall t :: s < t < s + n && !used[t] ==> !used[t - 1])
    && (!used[s] && s > 0 ==> used[s - 1])
    && (!used[s + n - 1] && s + n < |used| ==> used[s + n])
  }

  /** Where the merged run starts and where it ends. */
  function MergedStart(runs: Runs, s: nat): (a: nat)
    ensures a <= s
  {
    var prev := LastBefore(runs, s);
    if prev.Some? && prev.value + runs[prev.value] == s then prev.value else s
  }

  function MergedEnd(runs: Runs, e: nat): (z: nat)
    ensures z >= e
  {
    if e in runs then e + runs[e] else e
  }

  lemma {:induction false} RunEndingAt(used: seq<bool>, runs: Runs, s: nat, x: nat)
    requires Agrees(used, runs) && x in runs && x + runs[x] == s
    ensures x < s && LastBefore(runs, s) == Some(x)
  {
    assert IsRun(used, x, runs[x]);
    forall t | t in runs && x < t
      ensures t > s
    {
      RunsApart(used, x, runs[x], t, runs[t]);
    }
  }

  lemma {:induction false} MergedLeft(used: seq<bool>, runs: Runs, s: nat, n: nat)
    requires Agrees(used, runs) && 0 < n && s + n <= |used| && MayGiveBack(used, s, n)
    ensures var a := MergedStart(runs, s);
            AllFree(used, a, s) && (a > 0 ==> used[a - 1]) && (a < s ==> a in runs && a + runs[a] == s)
  {
    var a := MergedStart(runs, s);
    if a < s {
      assert IsRun(used, a, runs[a]);
    } else if s > 0 && !used[s - 1] {
      var q, l := RunAround(used, s - 1);
      assert q in runs && runs[q] == l;
      assert q + l == s;
      RunEndingAt(used, runs, s, q);
    }
  }

  lemma {:induction false} MergedRight(used: seq<bool>, runs: Runs, s: nat, n: nat)
    requires Agrees(used, runs) && 0 < n && s + n <= |used| && MayGiveBack(used, s, n)
    ensures var z := MergedEnd(runs, s + n);
            AllFree(used, s + n, z) && (z < |used| ==> used[z])
  {
    var e := s + n;
    if e in runs {
      assert IsRun(used, e, runs[e]);
    } else if e < |used| && !used[e] {
      var _, _ := RunAround(used, e);
      assert false;
    }
  }

  lemma {:induction false} MergedRun(used: seq<bool>, runs: Runs, s: nat, n: nat)
    requires Agrees(used, runs) && 0 < n && s + n <= |used| && MayGiveBack(used, s, n)
    ensures var a, z := MergedStart(runs, s), MergedEnd(runs, s + n);
            IsRun(Fill(used, s, n, false), a, z - a)
  {
    MergedLeft(used, runs, s, n);
    MergedRight(used, runs, s, n);
  }

  lemma {:induction false} AwayAfter(used: seq<bool>, runs: Runs, s: nat, n: nat, x: nat, l: nat)
    requires Agrees(used, runs) && 0 < n && s + n <= |used| && MayGiveBack(used, s, n)
    requires IsRun(Fill(used, s, n, false), x, l) && x != MergedStart(runs, s)
    ensures x + l < MergedStart(runs, s) || MergedEnd(runs, s + n) < x
  {
    var a, z := MergedStart(runs, s), MergedEnd(runs, s + n);
    MergedRun(used, runs, s, n);
    OtherApart(Fill(used, s, n, false), a, z - a, x, l);
  }

  lemma {:induction false} AwayBefore(used: seq<bool>, runs: Runs, s: nat, n: nat, x: nat, l: nat)
    requires Agrees(used, runs) && 0 < n && s + n <= |used| && MayGiveBack(used, s, n)
    requires IsRun(used, x, l) && x != MergedStart(runs, s) && x != s && x != s + n
    ensures x + l < MergedStart(runs, s) || MergedEnd(runs, s + n) < x
  {
    if x < s {
      BelowMerged(used, runs, s, n, x, l);
    } else {
      AboveMerged(used, runs, s, n, x, l);
    }
  }

  /** The runs away from the merged one are those there were before. */
  lemma {:induction false} OtherRuns(used: seq<bool>, runs: Runs, s: nat, n: nat, x: nat, l: nat)
    requires Agrees(used, runs) && 0 < n && s + n <= |used| && MayGiveBack(used, s, n)
    ensures var a := MergedStart(runs, s);
            x != a ==> (IsRun(Fill(used, s, n, false), x, l) <==> IsRun(used, x, l) && x != s && x != s + n)
  {
    var after := Fill(used, s, n, false);
    if x != MergedStart(runs, s) {
      if IsRun(after, x, l) {
        AwayAfter(used, runs, s, n, x, l);
        RunAway(used, after, s, s + n, x, l);
      }
      if x != s && x != s + n && IsRun(used, x, l) {
        AwayBefore(used, runs, s, n, x, l);
        RunAway(used, after, s, s + n, x, l);
      }
    }
  }

  lemma {:induction false} BelowMerged(used: seq<bool>, runs: Runs, s: nat, n: nat, x: nat, l: nat)
    requires Agrees(used, runs) && 0 < n && s + n <= |used| && MayGiveBack(used, s, n)
    requires IsRun(used, x, l) && x < s && x != MergedStart(runs, s)
    ensures x + l < MergedStart(runs, s)
  {
    var a := MergedStart(runs, s);
    MergedLeft(used, runs, s, n);
    assert x in runs && runs[x] == l;
    assert !used[s] ==> used[s - 1];
    assert x + l <= s;
    if x + l == s {
      RunEndingAt(used, runs, s, x);
    } else if x < a < s {
      assert IsRun(used, a, runs[a]);
      RunsApart(used, x, l, a, runs[a]);
    }
  }

  lemma {:induction false} AboveMerged(used: seq<bool>, runs: Runs, s: nat, n: nat, x: nat, l: nat)
    requires Agrees(used, runs) && 0 < n && s + n <= |used| && MayGiveBack(used, s, n)
    requires IsRun(used, x, l) && x > s && x != s + n
    ensures x > MergedEnd(runs, s + n)
  {
    var e := s + n;
    assert !used[x] && used[x - 1];
    assert x > e;
    if e in runs {
      assert IsRun(used, e, runs[e]);
      RunsApart(used, e, runs[e], x, l);
    }
  }

  lemma {:induction false} SameLast(runs: Runs, s: nat, n: nat)
    ensures LastBefore(runs[s := n], s) == LastBefore(runs, s)
  {
    var more := runs[s := n];
    var prev, other := LastBefore(runs, s), LastBefore(more, s);
    assert other.Some? ==> other.value in runs;
    assert prev.Some? ==> prev.value in more;
  }

  lemma {:induction false} GiveBackIs(runs: Runs, s: nat, n: nat)
    requires 0 < n
    ensures var a, z := MergedStart(runs, s), MergedEnd(runs, s + n);
            GiveBack(runs, s, n) == (runs - {a, s, s + n})[a := z - a]
  {
    SameLast(runs, s, n);
    var more := runs[s := n];
    var a := MergedStart(runs, s);
    if a < s {
      var joined := (more - {s})[a := runs[a] + n];
      assert GiveBack(runs, s, n) == JoinNext(joined, a);
    } else {
      assert GiveBack(runs, s, n) == JoinNext(more, s);
    }
  }

  lemma {:induction false} MergedOnly(used: seq<bool>, runs: Runs, s: nat, n: nat, l: nat)
    requires Agrees(used, runs) && 0 < n && s + n <= |used| && MayGiveBack(used, s, n)
    ensures IsRun(Fill(used, s, n, false), MergedStart(runs, s), l) <==> l == MergedEnd(runs, s + n) - MergedStart(runs, s)
  {
    var a, z, after := MergedStart(runs, s), MergedEnd(runs, s + n), Fill(used, s, n, false);
    MergedRun(used, runs, s, n);
    if IsRun(after, a, l) {
      SameLength(after, a, l, z - a);
    }
  }

  lemma {:induction false} GiveBackAt(used: seq<bool>, runs: Runs, s: nat, n: nat, x: nat, l: nat)
    requires Agrees(used, runs) && 0 < n && s + n <= |used| && MayGiveBack(used, s, n)
    ensures (x in GiveBack(runs, s, n) && GiveBack(runs, s, n)[x] == l) <==> IsRun(Fill(used, s, n, false), x, l)
  {
    GiveBackIs(runs, s, n);
    if x == MergedStart(runs, s) {
      MergedOnly(used, runs, s, n, l);
    } else {
      OtherRuns(used, runs, s, n, x, l);
      assert (x in runs && runs[x] == l) <==> IsRun(used, x, l);
    }
  }

  /** Giving back blocks that qualify keeps the list in agreement. */
  lemma {:induction false} GiveBackAgrees(used: seq<bool>, runs: Runs, s: nat, n: nat)
    requires Agrees(used, runs) && 0 < n && s + n <= |used| && MayGiveBack(used, s, n)
    ensures Agrees(Fill(used, s, n, false), GiveBack(runs, s, n))
  {
    forall x: nat, l: nat
      ensures (x in GiveBack(runs, s, n) && GiveBack(runs, s, n)[x] == l) <==> IsRun(Fill(used, s, n, false), x, l)
    {
      GiveBackAt(used, runs, s, n, x, l);
    }
  }

  lemma {:induction false} StartHere(used: seq<bool>, runs: Runs, t: nat)
    requires Agrees(used, runs) && 0 < t < |used| && !used[t]
    ensures used[t - 1] ==> t in runs
  {
    var q, l := RunAround(used, t);
    assert q in runs && runs[q] == l;
    assert used[t - 1] ==> q == t;
  }

  /** Inside blocks that were given back no run of the old list may start. */
  lemma {:induction false} NoStartInside(used: seq<bool>, runs: Runs, s: nat, n: nat, t: nat)
    requires Agrees(used, runs) && 0 < n && s + n <= |used|
    requires Agrees(Fill(used, s, n, false), GiveBack(runs, s, n)) && s < t < s + n
    ensures t !in runs
  {
    if t in runs {
      GiveBackIs(runs, s, n);
      StartsAfterUsed(Fill(used, s, n, false), GiveBack(runs, s, n), t);
    }
  }

  /** And only those: from any other blocks the list comes out wrong. */
  lemma {:induction false} GiveBackOnlyIf(used: seq<bool>, runs: Runs, s: nat, n: nat)
    requires Agrees(used, runs) && 0 < n && s + n <= |used|
    requires Agrees(Fill(used, s, n, false), GiveBack(runs, s, n))
    ensures MayGiveBack(used, s, n)
  {
    forall t | s < t < s + n && !used[t]
      ensures !used[t - 1]
    {
      StartHere(used, runs, t);
      NoStartInside(used, runs, s, n, t);
    }
    OnlyIfEdges(used, runs, s, n);
  }

  lemma {:induction false} OnlyIfEdges(used: seq<bool>, runs: Runs, s: nat, n: nat)
    requires Agrees(used, runs) && 0 < n && s + n <= |used|
    requires Agrees(Fill(used, s, n, false), GiveBack(runs, s, n))
    ensures !used[s] && s > 0 ==> used[s - 1]
    ensures !used[s + n - 1] && s + n < |used| ==> used[s + n]
  {
    var after := Fill(used, s, n, false);
    var a, z := MergedStart(runs, s), MergedEnd(runs, s + n);
    GiveBackIs(runs, s, n);
    assert IsRun(after, a, z - a);
    if a < s {
      assert IsRun(used, a, runs[a]);
    } else {
      assert s > 0 ==> after[s - 1];
    }
    if s + n in runs {
      assert IsRun(used, s + n, runs[s + n]);
    } else {
      assert s + n < |used| ==> after[s + n];
    }
  }

  lemma {:induction false} GiveBackNone(runs: Runs, s: nat)
    ensures MergedStart(runs, s) < s && s !in runs ==> GiveBack(runs, s, 0) == runs
    ensures MergedStart(runs, s) == s ==> s in GiveBack(runs, s, 0) && GiveBack(runs, s, 0)[s] == 0
  {
    SameLast(runs, s, 0);
  }

  /** The same for an empty range: the entry of length zero disappears only into a run that ends there. */
  lemma {:induction false} GiveBackNothing(used: seq<bool>, runs: Runs, s: nat)
    requires Agrees(used, runs) && s <= |used|
    ensures Agrees(used, GiveBack(runs, s, 0)) <==> MayGiveBack(used, s, 0)
  {
    GiveBackNone(runs, s);
    if MayGiveBack(used, s, 0) {
      var q, l := RunAround(used, s - 1);
      assert q in runs && runs[q] == l;
      RunEndingAt(used, runs, s, q);
      NoStartAtEnd(used, runs, s);
    } else {
      NoRunEnds(used, runs, s);
      assert !IsRun(used, s, 0);
    }
  }

  lemma {:induction false} NoRunEnds(used: seq<bool>, runs: Runs, s: nat)
    requires Agrees(used, runs) && s <= |used| && !MayGiveBack(used, s, 0)
    ensures forall t :: t in runs ==> t + runs[t] != s
  {
    forall t | t in runs
      ensures t + runs[t] != s
    {
      assert IsRun(used, t, runs[t]);
    }
  }

  lemma {:induction false} NoStartAtEnd(used: seq<bool>, runs: Runs, s: nat)
    requires Agrees(used, runs) && s > 0 && s - 1 < |used| && !used[s - 1]
    ensures s !in runs
  {
    forall t | t in runs && t > 0
      ensures t < |used| && used[t - 1]
    {
      StartsAfterUsed(used, runs, t);
    }
  }

  /* ---------------------------------------------------------------- choosing a run */

  /** Scanning the starts below `hi` upward: the first of the shortest runs of at least `need` blocks. */
  function BestFit(runs: Runs, need: nat, hi: nat): (best: Option<nat>)
    ensures best.Some? ==> best.value in runs && best.value < hi && runs[best.value] >= need
  {
    if hi == 0 then None
    else
      var best := BestFit(runs, need, hi - 1);
      if hi - 1 in runs && runs[hi - 1] >= need && (best.None? || runs[hi - 1] < runs[best.value])
      then Some(hi - 1) else best
  }

  function Longest(runs: Runs, hi: nat): nat {
    if hi == 0 then 0 else if hi - 1 in runs then Max(Longest(runs, hi - 1), runs[hi - 1]) else Longest(runs, hi - 1)
  }

  lemma {:induction false} BestFitIs(runs: Runs, need: nat, hi: nat)
    ensures var best := BestFit(runs, need, hi);
            && (best.None? ==> forall s :: s in runs && s < hi ==> runs[s] < need)
            && (best.Some? ==> forall s :: s in runs && s < hi && runs[s] >= need ==>
                                             runs[best.value] < runs[s] || (runs[best.value] == runs[s] && best.value <= s))
  {
    if hi > 0 {
      BestFitIs(runs, need, hi - 1);
    }
  }

  lemma {:induction false} LongestIs(runs: Runs, hi: nat)
    ensures forall s :: s in runs && s < hi ==> runs[s] <= Longest(runs, hi)
    ensures Longest(runs, hi) == 0 || exists s :: s in runs && s < hi && runs[s] == Longest(runs, hi)
  {
    if hi > 0 {
      LongestIs(runs, hi - 1);
    }
  }

  predicate Stretch(used: seq<bool>, s: nat, n: nat) { AllFree(used, s, s + n) }

  /** A stretch of n free blocks exists exactly when some listed run is that long. */
  lemma {:induction false} StretchIffRun(used: seq<bool>, runs: Runs, n: nat)
    requires Agrees(used, runs) && n > 0
    ensures (exists s: nat :: Stretch(used, s, n)) <==> exists s :: s in runs && runs[s] >= n
  {
    if exists s: nat :: Stretch(used, s, n) {
      var s: nat :| Stretch(used, s, n);
      var q: nat, l: nat := RunAround(used, s);
      assert q in runs && runs[q] == l;
      assert q + l < |used| ==> used[q + l];
    }
    if exists s :: s in runs && runs[s] >= n {
      var s: nat :| s in runs && runs[s] >= n;
      assert IsRun(used, s, runs[s]);
      assert Stretch(used, s, n);
    }
  }

  /* ---------------------------------------------------------------- counting free blocks */

  function Sum(runs: Runs, hi: nat): nat {
    if hi == 0 then 0 else Sum(runs, hi - 1) + if hi - 1 in runs then runs[hi - 1] else 0
  }

  function CountFree(used: seq<bool>): nat {
    if used == [] then 0 else CountFree(used[..|used| - 1]) + if used[|used| - 1] then 0 else 1
  }

  /** The listed blocks below `hi`, counting runs that start below `lo`. */
  function Part(runs: Runs, lo: nat, hi: nat): nat
    requires lo <= hi
  {
    if lo == 0 then 0 else Part(runs, lo - 1, hi) + if lo - 1 in runs then Min(runs[lo - 1], hi - (lo - 1)) else 0
  }

  predicate CoveredBelow(runs: Runs, lo: nat, b: nat) { exists s :: s in runs && s < lo && s <= b < s + runs[s] }

  lemma {:induction false} PartStep(used: seq<bool>, runs: Runs, lo: nat, hi: nat)
    requires Agrees(used, runs) && lo <= hi
    ensures Part(runs, lo, hi + 1) == Part(runs, lo, hi) + if CoveredBelow(runs, lo, hi) then 1 else 0
  {
    if lo > 0 {
      PartStep(used, runs, lo - 1, hi);
      var s := lo - 1;
      if s in runs && hi < s + runs[s] {
        forall t | t in runs && t < s
          ensures t + runs[t] < s
        {
          RunsApart(used, t, runs[t], s, runs[s]);
        }
        assert CoveredBelow(runs, lo, hi);
      } else {
        assert CoveredBelow(runs, lo, hi) <==> CoveredBelow(runs, lo - 1, hi);
      }
    }
  }

  lemma {:induction false} CoveredIffFree(used: seq<bool>, runs: Runs, b: nat)
    requires Agrees(used, runs) && b < |used|
    ensures CoveredBelow(runs, b + 1, b) <==> !used[b]
  {
    if CoveredBelow(runs, b + 1, b) {
      var s: nat :| s in runs && s < b + 1 && s <= b < s + runs[s];
      assert IsRun(used, s, runs[s]);
    }
    if !used[b] {
      var q, l := RunAround(used, b);
      assert q in runs && runs[q] == l;
    }
  }

  lemma {:induction false} PartCounts(used: seq<bool>, runs: Runs, hi: nat)
    requires Agrees(used, runs) && hi <= |used|
    ensures Part(runs, hi, hi) == CountFree(used[..hi])
  {
    if hi > 0 {
      PartCounts(used, runs, hi - 1);
      PartStep(used, runs, hi - 1, hi - 1);
      CoveredIffFree(used, runs, hi - 1);
      assert used[..hi][..hi - 1] == used[..hi - 1];
      var b := hi - 1;
      assert CoveredBelow(runs, hi, b) <==> CoveredBelow(runs, b, b) || (b in runs && runs[b] > 0);
      if b in runs {
        assert IsRun(used, b, runs[b]);
        assert !CoveredBelow(runs, b, b) by {
          forall t | t in runs && t < b
            ensures t + runs[t] < b
          {
            RunsApart(used, t, runs[t], b, runs[b]);
          }
        }
      }
    }
  }

  lemma {:induction false} PartIsSum(used: seq<bool>, runs: Runs, lo: nat)
    requires Agrees(used, runs) && lo <= |used|
    ensures Part(runs, lo, |used|) == Sum(runs, lo)
  {
    if lo > 0 {
      PartIsSum(used, runs, lo - 1);
      if lo - 1 in runs {
        assert IsRun(used, lo - 1, runs[lo - 1]);
      }
    }
  }

  /** The lengths in the list add up to the number of free blocks. */
  lemma {:induction false} SumCounts(used: seq<bool>, runs: Runs)
    requires Agrees(used, runs)
    ensures Sum(runs, |used|) == CountFree(used)
  {
    PartIsSum(used, runs, |used|);
    PartCounts(used, runs, |used|);
    TakeAll(used);
  }

  lemma {:induction false} CountSet(used: seq<bool>, b: nat, v: bool)
    requires b < |used| && used[b] != v
    ensures CountFree(used[b := v]) == if v then CountFree(used) - 1 else CountFree(used) + 1
  {
    var last := |used| - 1;
    if b < last {
      CountSet(used[..last], b, v);
      assert used[b := v][..last] == used[..last][b := v];
    } else {
      assert used[b := v][..last] == used[..last];
    }
  }

  /** `after` is `used` with blocks s to s + n - 1 turned to v. */
  ghost predicate Turned(used: seq<bool>, after: seq<bool>, s: nat, n: nat, v: bool) {
    && |after| == |used| && s + n <= |used|
    && forall b :: 0 <= b < |used| ==> if s <= b < s + n then after[b] == v != used[b] else after[b] == used[b]
  }

  lemma {:induction false} TurnedLess(used: seq<bool>, after: seq<bool>, s: nat, n: nat, v: bool)
    requires Turned(used, after, s, n + 1, v)
    ensures Turned(used, after[s + n := !v], s, n, v)
    ensures after == after[s + n := !v][s + n := v]
  {
  }

  lemma {:induction false} CountTurned(used: seq<bool>, after: seq<bool>, s: nat, n: nat, v: bool)
    requires Turned(used, after, s, n, v)
    ensures CountFree(after) == if v then CountFree(used) - n else CountFree(used) + n
    decreases n
  {
    if n == 0 {
      assert after == used;
    } else {
      TurnedLess(used, after, s, n - 1, v);
      var before := after[s + n - 1 := !v];
      CountTurned(used, before, s, n - 1, v);
      CountSet(before, s + n - 1, v);
    }
  }

  lemma {:induction false} CountFill(used: seq<bool>, s: nat, n: nat, v: bool)
    requires s + n <= |used| && forall b :: s <= b < s + n ==> used[b] != v
    ensures CountFree(Fill(used, s, n, v)) == if v then CountFree(used) - n else CountFree(used) + n
  {
    CountTurned(used, Fill(used, s, n, v), s, n, v);
  }

  /* ---------------------------------------------------------------- rebuilding */

  /** The rebuild scan over the first i blocks: the runs closed so far and the start of the open one. */
  function Scan(used: seq<bool>, i: nat): (Runs, Option<nat>)
    requires i <= |used|
  {
    if i == 0 then (map[], None)
    else
      var (runs, open) := Scan(used, i - 1);
      if used[i - 1] then
        (if open.Some? && open.value <= i - 1 then runs[open.value := i - 1 - open.value] else runs, None)
      else (runs, if open.None? then Some(i - 1) else open)
  }

  function Rebuilt(used: seq<bool>): Runs {
    var (runs, open) := Scan(used, |used|);
    if open.Some? && open.value <= |used| then runs[open.value := |used| - open.value] else runs
  }

  ghost predicate Scanned(used: seq<bool>, i: nat, runs: Runs, open: Option<nat>) {
    && i <= |used|
    && (forall s: nat, l: nat :: (s in runs && runs[s] == l) <==> IsRun(used, s, l) && s + l < i)
    && (if open.None? then i > 0 ==> used[i - 1]
        else open.value < i && AllFree(used, open.value, i) && (open.value > 0 ==> used[open.value - 1]))
  }

  /** The run that ends at a used block is the one that is open there. */
  lemma {:induction false} RunClosing(used: seq<bool>, i: nat, runs: Runs, open: Option<nat>, s: nat, l: nat)
    requires i < |used| && Scanned(used, i, runs, open)
    ensures IsRun(used, s, l) && s + l == i <==> used[i] && open.Some? && s == open.value && l == i - s
  {
    if used[i] && open.Some? {
      assert IsRun(used, open.value, i - open.value);
      RunEndsOnce(used, open.value, i, s, l);
    }
    if IsRun(used, s, l) && s + l == i {
      assert used[i] && !used[i - 1];
      assert open.Some?;
    }
  }

  /** The next step adds the run that ends at block i, if one does. */
  lemma {:induction false} ScanNext(used: seq<bool>, i: nat, runs: Runs, open: Option<nat>, s: nat, l: nat)
    requires i < |used| && Scanned(used, i, runs, open)
    ensures var next := if used[i] && open.Some? then runs[open.value := i - open.value] else runs;
            (s in next && next[s] == l) <==> IsRun(used, s, l) && s + l < i + 1
  {
    assert (s in runs && runs[s] == l) <==> IsRun(used, s, l) && s + l < i;
    RunClosing(used, i, runs, open, s, l);
    if used[i] && open.Some? && s == open.value {
      assert IsRun(used, s, i - s);
      RunEndsOnce(used, s, i, s, l);
    }
  }

  lemma {:induction false} ScanIs(used: seq<bool>, i: nat)
    requires i <= |used|
    ensures Scanned(used, i, Scan(used, i).0, Scan(used, i).1)
  {
    if i > 0 {
      ScanIs(used, i - 1);
      var (runs, open) := Scan(used, i - 1);
      forall s: nat, l: nat
        ensures (s in Scan(used, i).0 && Scan(used, i).0[s] == l) <==> IsRun(used, s, l) && s + l < i
      {
        ScanNext(used, i - 1, runs, open, s, l);
      }
    }
  }

  /** Two runs that end at the same block, or start at the same block, are one. */
  lemma {:induction false} RunEndsOnce(used: seq<bool>, o: nat, e: nat, s: nat, l: nat)
    requires o < e && IsRun(used, o, e - o)
    ensures IsRun(used, s, l) && (s + l == e || s == o) ==> s == o && l == e - o
  {
    if IsRun(used, s, l) {
      if s < o { RunsApart(used, s, l, o, e - o); } else if o < s { RunsApart(used, o, e - o, s, l); }
    }
  }

  /** The rebuilt list agrees with the blocks. */
  lemma {:induction false} RebuiltAgrees(used: seq<bool>)
    ensures Agrees(used, Rebuilt(used))
  {
    ScanIs(used, |used|);
    var (runs, open) := Scan(used, |used|);
    var list := Rebuilt(used);
    forall s: nat, l: nat
      ensures (s in list && list[s] == l) <==> IsRun(used, s, l)
    {
      assert (s in runs && runs[s] == l) <==> IsRun(used, s, l) && s + l < |used|;
      if open.Some? {
        assert IsRun(used, open.value, |used| - open.value);
        RunEndsOnce(used, open.value, |used|, s, l);
      }
    }
  }
}
