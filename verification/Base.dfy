/** Bytes, results, little-endian integers and small sequence facts shared by every component. */
module Base {
  type byte = x: int | 0 <= x < 256
  type Bytes = seq<byte>
  type u32 = x: int | 0 <= x < 0x1_0000_0000

  datatype Option<+T> = None | Some(value: T)
  datatype Result<+T, +E> = Ok(value: T) | Err(error: E)

  /** Rust's `div_ceil` on unsigned integers. */
  function DivCeil(a: nat, b: nat): nat
    requires b > 0
  {
    (a + b - 1) / b
  }

  lemma {:induction false} DivCeilBounds(a: nat, b: nat)
    requires b > 0
    ensures a <= DivCeil(a, b) * b < a + b
    ensures a > 0 <==> DivCeil(a, b) > 0
  {
    assert (a + b - 1) / b * b + (a + b - 1) % b == a + b - 1;
  }

  lemma {:induction false} MulAtLeast(x: nat, y: nat, b: nat)
    requires x <= y
    ensures x * b <= y * b
  {
    assert y * b == x * b + (y - x) * b;
  }

  lemma {:induction false} MulStep(i: nat, size: nat)
    ensures (i + 1) * size == i * size + size
  {
  }

  /** Quotient and remainder are determined by the division equation. */
  lemma {:induction false} DivUnique(n: nat, b: nat, q: nat, r: nat)
    requires b > 0 && n == q * b + r && r < b
    ensures n / b == q && n % b == r
  {
    var p := n / b;
    assert n == p * b + n % b;
    if p < q {
      MulAtLeast(p + 1, q, b);
    } else if q < p {
      MulAtLeast(q + 1, p, b);
    }
  }

  lemma {:induction false} MulDiv(a: nat, b: nat)
    requires b > 0
    ensures a * b / b == a && a * b % b == 0
  {
    DivUnique(a * b, b, a, 0);
  }

  function SaturatingSub(a: nat, b: nat): nat { if a >= b then a - b else 0 }

  function Min(a: nat, b: nat): nat { if a <= b then a else b }

  function Max(a: nat, b: nat): nat { if a >= b then a else b }

  function Repeat<T>(x: T, n: nat): (r: seq<T>)
    ensures |r| == n
    ensures forall i :: 0 <= i < n ==> r[i] == x
  {
    if n == 0 then [] else Repeat(x, n - 1) + [x]
  }

  function Zeros(n: nat): Bytes { Repeat(0, n) }

  /** `Vec::truncate`: a no-op when the vector is already short enough. */
  function Truncate<T>(s: seq<T>, n: nat): seq<T> { if n <= |s| then s[..n] else s }

  ghost predicate NoDup<T>(s: seq<T>) {
    forall i, j :: 0 <= i < j < |s| ==> s[i] != s[j]
  }

  function ToSet<T>(s: seq<T>): set<T> { set x | x in s }

  lemma {:induction false} SubsetSize<T>(a: set<T>, b: set<T>)
    requires a <= b
    ensures |a| <= |b|
  {
    assert b == a + (b - a);
    assert |b| == |a| + |b - a|;
  }

  /** The indices below n. */
  function Range(n: nat): (r: set<nat>)
    ensures forall i: nat :: i in r <==> i < n
    ensures |r| == n
  {
    if n == 0 then {} else Range(n - 1) + {n - 1}
  }

  function Delete<T>(s: seq<T>, p: nat): seq<T>
    requires p < |s|
  {
    s[..p] + s[p + 1..]
  }

  /* ---------------------------------------------------------------- concatenation */

  function Concat(parts: seq<Bytes>): Bytes
  {
    if parts == [] then [] else Concat(parts[..|parts| - 1]) + parts[|parts| - 1]
  }

  lemma {:induction false} ConcatAppend(a: seq<Bytes>, b: seq<Bytes>)
    ensures Concat(a + b) == Concat(a) + Concat(b)
  {
    if b == [] {
      assert a + b == a;
    } else {
      ConcatAppend(a, b[..|b| - 1]);
      assert (a + b)[..|a + b| - 1] == a + b[..|b| - 1];
    }
  }

  lemma {:induction false} TakeTake<T>(s: seq<T>, i: nat, j: nat)
    requires i <= j <= |s|
    ensures s[..j][..i] == s[..i]
  {
  }

  lemma {:induction false} TakeAll<T>(s: seq<T>)
    ensures s[..|s|] == s
  {
  }

  lemma {:induction false} WithoutLast<T>(s: seq<T>, last: T)
    ensures (s + [last])[..|s|] == s
  {
  }

  lemma {:induction false} AppendNothing<T>(s: seq<T>)
    ensures s + [] == s
  {
  }

  lemma {:induction false} SplitLast<T>(s: seq<T>)
    requires s != []
    ensures s[..|s| - 1] + [s[|s| - 1]] == s
  {
  }

  lemma {:induction false} Assoc<T>(a: seq<T>, b: seq<T>, c: seq<T>)
    ensures (a + b) + c == a + (b + c)
  {
  }

  /** Slices of a concatenation that lie on one side. */
  lemma {:induction false} SliceLeft(a: Bytes, b: Bytes, i: nat, j: nat)
    requires i <= j <= |a|
    ensures (a + b)[i..j] == a[i..j]
  {
  }

  lemma {:induction false} SliceRight(a: Bytes, b: Bytes, i: nat, j: nat)
    requires i <= j <= |b|
    ensures (a + b)[|a| + i..|a| + j] == b[i..j]
  {
  }

  lemma {:induction false} SliceEnd(a: Bytes, b: Bytes)
    ensures (a + b)[|a|..|a| + |b|] == b
  {
  }

  lemma {:induction false} PrefixIs<T>(r: seq<T>, s: seq<T>)
    requires r <= s
    ensures s[..|r|] == r
  {
  }

  /** A slice of a slice. */
  lemma {:induction false} SubSlice(whole: Bytes, at: nat, part: Bytes, lo: nat, hi: nat)
    requires at + |part| <= |whole| && whole[at..at + |part|] == part && lo <= hi <= |part|
    ensures whole[at + lo..at + hi] == part[lo..hi]
  {
    forall i | lo <= i < hi
      ensures whole[at + i] == part[i]
    {
      assert whole[at..at + |part|][i] == whole[at + i];
    }
  }

  /* ---------------------------------------------------------------- trailing zeros */

  /** What remains after dropping every trailing zero byte. */
  function StripZeros(s: Bytes): (r: Bytes)
    ensures r <= s
    ensures r == [] || r[|r| - 1] != 0
    ensures forall i :: |r| <= i < |s| ==> s[i] == 0
  {
    if s == [] || s[|s| - 1] != 0 then s else StripZeros(s[..|s| - 1])
  }

  lemma {:induction false} StripZerosPadded(s: Bytes, n: nat)
    ensures StripZeros(s + Zeros(n)) == StripZeros(s)
  {
    if n == 0 {
      assert s + Zeros(0) == s;
    } else {
      assert Zeros(n) == Zeros(n - 1) + [0];
      assert (s + Zeros(n))[..|s| + n - 1] == s + Zeros(n - 1);
      StripZerosPadded(s, n - 1);
    }
  }

  /* ---------------------------------------------------------------- little-endian integers */

  function Pow256(w: nat): nat { if w == 0 then 1 else 256 * Pow256(w - 1) }

  /** `to_le_bytes` of an integer of `w` bytes; higher digits are cut off as an `as` cast does. */
  function LeBytes(n: nat, w: nat): (b: Bytes)
    ensures |b| == w
  {
    if w == 0 then [] else [n % 256] + LeBytes(n / 256, w - 1)
  }

  /** `from_le_bytes`. */
  function LeValue(b: Bytes): nat { if b == [] then 0 else b[0] + 256 * LeValue(b[1..]) }

  lemma {:induction false} LeRoundTrip(n: nat, w: nat)
    requires n < Pow256(w)
    ensures LeValue(LeBytes(n, w)) == n
  {
    if w > 0 {
      LeRoundTrip(n / 256, w - 1);
      assert LeBytes(n, w)[1..] == LeBytes(n / 256, w - 1);
    }
  }

  const U16: nat := 0x1_0000
  const U32: nat := 0x1_0000_0000
  const U64: nat := 0x1_0000_0000_0000_0000

  lemma {:induction false} Widths()
    ensures Pow256(2) == U16 && Pow256(4) == U32 && Pow256(8) == U64
  {
    assert Pow256(1) == 256 && Pow256(3) == 0x100_0000;
    assert Pow256(5) == 256 * U32 && Pow256(6) == 0x1_0000 * U32 && Pow256(7) == 0x100_0000 * U32;
  }
}
