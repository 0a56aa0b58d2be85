/** What is assumed of the Reed-Solomon library can be had: a lawful code for every number of data shards, with one
    parity shard that makes every column of bytes add up to zero modulo 256. */
module ParityCode {
  import opened Base
  import opened Erasure

  function ByteAt(b: Bytes, c: nat): byte { if c < |b| then b[c] else 0 }

  function Plus(a: byte, b: byte): byte { if a + b < 256 then a + b else a + b - 256 }

  function Negated(a: byte): byte { if a == 0 then 0 else 256 - a }

  /** The sum of one column modulo 256, over the slots that are filled. */
  function Column(slots: seq<Option<Bytes>>, c: nat): byte {
    if slots == [] then 0
    else
      var last := slots[|slots| - 1];
      Plus(Column(slots[..|slots| - 1], c), if last.Some? then ByteAt(last.value, c) else 0)
  }

  /** The shard that brings every column to zero. */
  function Balance(slots: seq<Option<Bytes>>, len: nat): (b: Bytes)
    ensures |b| == len && forall c :: 0 <= c < len ==> b[c] == Negated(Column(slots, c))
  {
    seq(len, c requires 0 <= c < len => Negated(Column(slots, c)))
  }

  function AllFilled(shards: seq<Bytes>): (slots: seq<Option<Bytes>>)
    ensures |slots| == |shards| && forall i :: 0 <= i < |shards| ==> slots[i] == Some(shards[i])
  {
    seq(|shards|, i requires 0 <= i < |shards| => Some(shards[i]))
  }

  /** Every gap filled with the balance of what is there. */
  function Completed(slots: seq<Option<Bytes>>, len: nat): (all: seq<Bytes>)
    ensures |all| == |slots|
    ensures forall i :: 0 <= i < |slots| ==> all[i] == if slots[i].Some? then slots[i].value else Balance(slots, len)
  {
    seq(|slots|, i requires 0 <= i < |slots| => if slots[i].Some? then slots[i].value else Balance(slots, len))
  }

  function Parity(): Code {
    Code((k, m) => k > 0 && m == 1,
         (data: seq<Bytes>, m: nat) => true,
         (data: seq<Bytes>, m: nat) => if data == [] then [] else [Balance(AllFilled(data), |data[0]|)],
         (slots: seq<Option<Bytes>>, k: nat) =>
           match FirstPresent(slots) case None => None case Some(b) => Some(Completed(slots, |b|)))
  }

  /** With one slot emptied, a column lacks just that slot's byte. */
  lemma {:induction false} ColumnWithout(shards: seq<Bytes>, slots: seq<Option<Bytes>>, j: nat, c: nat)
    requires PartOf(slots, shards) && forall i :: 0 <= i < |slots| && i != j ==> slots[i].Some?
    ensures j < |slots| && slots[j].None? ==> Column(AllFilled(shards), c) == Plus(Column(slots, c), ByteAt(shards[j], c))
    ensures (j < |slots| ==> slots[j].Some?) ==> Column(AllFilled(shards), c) == Column(slots, c)
  {
    if shards != [] {
      var n := |shards| - 1;
      ColumnWithout(shards[..n], slots[..n], j, c);
      assert AllFilled(shards)[..n] == AllFilled(shards[..n]);
    }
  }

  /** A codeword's columns are all zero. */
  lemma {:induction false} Balanced(data: seq<Bytes>, len: nat, c: nat)
    requires data != [] && Uniform(data, len) && c < len
    ensures Column(AllFilled(Codeword(Parity(), data, 1)), c) == 0
  {
    var shards := Codeword(Parity(), data, 1);
    assert AllFilled(shards)[..|data|] == AllFilled(data);
    assert shards[|data|] == Balance(AllFilled(data), len);
  }

  lemma {:induction false} FirstPresentLen(slots: seq<Option<Bytes>>, len: nat)
    requires PresentSet(slots) != {}
    requires forall i :: 0 <= i < |slots| && slots[i].Some? ==> |slots[i].value| == len
    ensures FirstPresent(slots).Some? && |FirstPresent(slots).value| == len
  {
    if slots[0].None? {
      var i :| i in PresentSet(slots);
      assert slots[1..][i - 1].Some?;
      assert i - 1 in PresentSet(slots[1..]);
      FirstPresentLen(slots[1..], len);
    }
  }

  /** Of k + 1 slots with k filled at least, at most one is empty. */
  lemma {:induction false} OneGap(slots: seq<Option<Bytes>>, k: nat, i: nat, j: nat)
    requires |slots| == k + 1 && |PresentSet(slots)| >= k && i < j < |slots|
    ensures slots[i].Some? || slots[j].Some?
  {
    if slots[i].None? && slots[j].None? {
      BoundedSize(PresentSet(slots) + {i, j}, k + 1);
    }
  }

  lemma {:induction false} BoundedSize(s: set<nat>, n: nat)
    requires forall x :: x in s ==> x < n
    ensures |s| <= n
  {
    if n == 0 {
      assert s == {};
    } else {
      BoundedSize(s - {n - 1}, n - 1);
    }
  }

  /** The one missing shard is the balance of the others. */
  lemma {:induction false} GapIs(data: seq<Bytes>, len: nat, slots: seq<Option<Bytes>>, j: nat)
    requires data != [] && Uniform(data, len) && PartOf(slots, Codeword(Parity(), data, 1)) && j < |slots|
    requires slots[j].None? && forall i :: 0 <= i < |slots| && i != j ==> slots[i].Some?
    ensures Balance(slots, len) == Codeword(Parity(), data, 1)[j]
  {
    var shards := Codeword(Parity(), data, 1);
    forall c: nat | c < len
      ensures Balance(slots, len)[c] == shards[j][c]
    {
      ColumnWithout(shards, slots, j, c);
      Balanced(data, len, c);
    }
  }

  lemma {:induction false} ParityIsLawful(k: nat)
    requires k > 0
    ensures Mds(Parity(), k, 1)
  {
    var code := Parity();
    forall data, len: nat, slots |
      ShardGrid(data, k, len) && PartOf(slots, Codeword(code, data, 1)) && |PresentSet(slots)| >= k
      ensures code.reconstruct(slots, k) == Some(Codeword(code, data, 1))
    {
      ParityRebuilds(data, k, len, slots);
    }
  }

  lemma {:induction false} ParityRebuilds(data: seq<Bytes>, k: nat, len: nat, slots: seq<Option<Bytes>>)
    requires k > 0 && ShardGrid(data, k, len) && PartOf(slots, Codeword(Parity(), data, 1)) && |PresentSet(slots)| >= k
    ensures Parity().reconstruct(slots, k) == Some(Codeword(Parity(), data, 1))
  {
    var shards := Codeword(Parity(), data, 1);
    assert Uniform(shards, len);
    FirstPresentLen(slots, len);
    forall j | 0 <= j < |slots|
      ensures Completed(slots, len)[j] == shards[j]
    {
      if slots[j].None? {
        forall i | 0 <= i < |slots| && i != j
          ensures slots[i].Some?
        {
          OneGap(slots, k, Min(i, j), if i < j then j else i);
        }
        GapIs(data, len, slots, j);
      }
    }
    assert Completed(slots, len) == shards;
  }
}
