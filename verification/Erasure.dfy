/** Erasure coding of one buffer: crates/kiseki-chunk/src/ec.rs. */
module Erasure {
  import opened Base

  datatype EcError = EcInvalidConfig | EcEncodeFailed | ChunkLost

  /** The Reed-Solomon library as a parameter: which shapes its constructor takes, on which data shards its encoder
      succeeds and with what parity shards, and the reconstruction of missing shards. */
  datatype Code = Code(
    accepts: (nat, nat) -> bool,
    encodes: (seq<Bytes>, nat) -> bool,
    parity: (seq<Bytes>, nat) -> seq<Bytes>,
    reconstruct: (seq<Option<Bytes>>, nat) -> Option<seq<Bytes>>)

  datatype EcEncoded = EcEncoded(fragments: seq<Bytes>, dataShards: nat, parityShards: nat, originalLen: nat)

  predicate Uniform(shards: seq<Bytes>, len: nat) {
    forall i :: 0 <= i < |shards| ==> |shards[i]| == len
  }

  function PresentSet(slots: seq<Option<Bytes>>): set<nat> {
    set i: nat | i < |slots| && slots[i].Some?
  }

  /** Every filled slot holds the shard of its own index. */
  predicate PartOf(slots: seq<Option<Bytes>>, shards: seq<Bytes>) {
    |slots| == |shards| && forall i :: 0 <= i < |slots| && slots[i].Some? ==> slots[i].value == shards[i]
  }

  function Codeword(code: Code, data: seq<Bytes>, m: nat): seq<Bytes> { data + code.parity(data, m) }

  predicate ShardGrid(data: seq<Bytes>, k: nat, len: nat) { |data| == k && len > 0 && Uniform(data, len) }

  /** What is assumed of the library: a systematic code in which any k shards give back all k + m. */
  ghost predicate Mds(code: Code, k: nat, m: nat) {
    && (forall data, len: nat :: ShardGrid(data, k, len) ==>
          code.encodes(data, m) && |code.parity(data, m)| == m && Uniform(code.parity(data, m), len))
    && (forall data, len: nat, slots ::
          ShardGrid(data, k, len) && PartOf(slots, Codeword(code, data, m)) && |PresentSet(slots)| >= k ==>
            code.reconstruct(slots, k) == Some(Codeword(code, data, m)))
  }

  /* ---------------------------------------------------------------- splitting */

  /** The bytes of one shard: one more for every k bytes begun. `ShardSizeCovers` says it is a rounded-up quotient. */
  function ShardSize(len: nat, k: nat): nat
    requires k > 0
    decreases len
  {
    if len == 0 then 0 else 1 + ShardSize(SaturatingSub(len, k), k)
  }

  lemma {:induction false} ShardSizeCovers(len: nat, k: nat)
    requires k > 0
    ensures len <= k * ShardSize(len, k) < len + k
    ensures len > 0 ==> ShardSize(len, k) > 0
    ensures ShardSize(len, k) == DivCeil(len, k)
    decreases len
  {
    var q := ShardSize(len, k);
    if len > 0 {
      ShardSizeCovers(SaturatingSub(len, k), k);
      assert k * q == k + k * (q - 1);
    }
    DivUnique(len + k - 1, k, q, len + k - 1 - k * q);
  }

  /** What is left of a buffer from `start` on, up to `size` bytes, then zeros. */
  function Stretch(data: Bytes, start: nat, size: nat): (s: Bytes)
    ensures |s| == size
  {
    var left := if start < |data| then data[start..Min(start + size, |data|)] else [];
    left + Zeros(size - |left|)
  }

  /** The next n stretches. */
  function Cut(data: Bytes, start: nat, size: nat, n: nat): (s: seq<Bytes>)
    ensures |s| == n && Uniform(s, size)
    decreases n
  {
    if n == 0 then [] else [Stretch(data, start, size)] + Cut(data, start + size, size, n - 1)
  }

  /** The k data shards. */
  function Shards(data: Bytes, k: nat): (s: seq<Bytes>)
    requires k > 0
    ensures |s| == k && Uniform(s, ShardSize(|data|, k))
  {
    Cut(data, 0, ShardSize(|data|, k), k)
  }

  /** The fragments of a buffer: k data shards, then m parity shards; empty fragments for empty input. */
  function Fragments(code: Code, data: Bytes, k: nat, m: nat): seq<Bytes>
    requires k > 0
  {
    if data == [] then Repeat([], k + m) else Codeword(code, Shards(data, k), m)
  }

  /** n times a size, by adding it up. */
  function Times(n: nat, size: nat): nat { if n == 0 then 0 else size + Times(n - 1, size) }

  lemma {:induction false} TimesIs(n: nat, size: nat)
    ensures Times(n, size) == n * size
  {
    if n > 0 {
      TimesIs(n - 1, size);
      MulStep(n - 1, size);
    }
  }

  lemma {:induction false} CutAt(data: Bytes, start: nat, size: nat, n: nat, i: nat)
    requires i < n
    ensures Cut(data, start, size, n)[i] == Stretch(data, start + Times(i, size), size)
    decreases n
  {
    if i > 0 {
      CutAt(data, start + size, size, n - 1, i - 1);
    }
  }

  /** One shard as the encoder builds it, by copying what is left of the input and padding. */
  method CutShard(data: Bytes, size: nat, start: nat, end: nat) returns (shard: Bytes)
    requires end == Min(start + size, |data|)
    ensures shard == Stretch(data, start, size)
  {
    if start < |data| {
      shard := data[start..end];
    } else {
      shard := [];
    }
    shard := shard + Zeros(size - |shard|);
  }

  method CutShards(data: Bytes, k: nat, size: nat) returns (shards: seq<Bytes>)
    ensures shards == Cut(data, 0, size, k)
  {
    shards := [];
    for i := 0 to k
      invariant shards == Cut(data, 0, size, k)[..i]
    {
      MulStep(i, size);
      TimesIs(i, size);
      CutAt(data, 0, size, k, i);
      var shard := CutShard(data, size, i * size, Min((i + 1) * size, |data|));
      shards := shards + [shard];
    }
  }

  /** Why `encode` fails, if it does: a zero shard count, a shape the library refuses, or its encoder. */
  function Refused(code: Code, data: Bytes, k: nat, m: nat): Option<EcError> {
    if k == 0 || m == 0 then Some(EcInvalidConfig)
    else if data == [] then None
    else if !code.accepts(k, m) then Some(EcInvalidConfig)
    else if !code.encodes(Shards(data, k), m) then Some(EcEncodeFailed)
    else None
  }

  /** A lawful code's encoder takes everything its constructor accepts. */
  lemma {:induction false} LawfulEncodes(code: Code, data: Bytes, k: nat, m: nat)
    requires k > 0 && m > 0 && Mds(code, k, m)
    ensures Refused(code, data, k, m) == if data == [] || code.accepts(k, m) then None else Some(EcInvalidConfig)
  {
    if data != [] {
      ShardSizeCovers(|data|, k);
      assert ShardGrid(Shards(data, k), k, ShardSize(|data|, k));
    }
  }

  method Encode(code: Code, data: Bytes, k: nat, m: nat) returns (r: Result<EcEncoded, EcError>)
    ensures r == match Refused(code, data, k, m)
                 case Some(error) => Err(error)
                 case None => Ok(EcEncoded(Fragments(code, data, k, m), k, m, |data|))
  {
    if k == 0 || m == 0 {
      return Err(EcInvalidConfig);
    }
    if |data| == 0 {
      return Ok(EcEncoded(Repeat([], k + m), k, m, 0));
    }
    if !code.accepts(k, m) {
      return Err(EcInvalidConfig);
    }
    ShardSizeCovers(|data|, k);
    var shards := CutShards(data, k, DivCeil(|data|, k));
    if !code.encodes(shards, m) {
      return Err(EcEncodeFailed);
    }
    return Ok(EcEncoded(shards + code.parity(shards, m), k, m, |data|));
  }

  /* ---------------------------------------------------------------- joining */

  /** What `decode` answers for a list of slots. */
  function Decoded(code: Code, slots: seq<Option<Bytes>>, k: nat, m: nat, len: nat): Result<Bytes, EcError> {
    if |slots| != k + m then Err(EcInvalidConfig)
    else if len == 0 then Ok([])
    else if |PresentSet(slots)| < k then Err(ChunkLost)
    else if !code.accepts(k, m) then Err(EcInvalidConfig)
    else match code.reconstruct(slots, k)
      case None => Err(ChunkLost)
      case Some(all) => Ok(Truncate(Concat(Truncate(all, k)), len))
  }

  method Decode(code: Code, slots: seq<Option<Bytes>>, k: nat, m: nat, len: nat) returns (r: Result<Bytes, EcError>)
    ensures r == Decoded(code, slots, k, m, len)
  {
    if |slots| != k + m {
      return Err(EcInvalidConfig);
    }
    if len == 0 {
      return Ok([]);
    }
    var present := 0;
    for i := 0 to |slots|
      invariant present == |PresentSet(slots[..i])|
    {
      assert slots[..i + 1] == slots[..i] + [slots[i]];
      assert PresentSet(slots[..i + 1]) == PresentSet(slots[..i]) + (if slots[i].Some? then {i} else {});
      if slots[i].Some? {
        present := present + 1;
      }
    }
    TakeAll(slots);
    if present < k {
      return Err(ChunkLost);
    }
    if !code.accepts(k, m) {
      return Err(EcInvalidConfig);
    }
    match code.reconstruct(slots, k)
    case None =>
      return Err(ChunkLost);
    case Some(all) =>
      var taken := Truncate(all, k);
      var result: Bytes := [];
      for i := 0 to |taken|
        invariant result == Concat(taken[..i])
      {
        TakeTake(taken, i, i + 1);
        result := result + taken[i];
      }
      TakeAll(taken);
      return Ok(Truncate(result, len));
  }

  /* ---------------------------------------------------------------- the laws */

  /** The buffer filled up with zeros to a whole number of shards. */
  function Padded(data: Bytes, k: nat): (p: Bytes)
    requires k > 0
    ensures |p| == k * ShardSize(|data|, k)
    ensures |data| <= |p| && p == data + Zeros(|p| - |data|)
  {
    ShardSizeCovers(|data|, k);
    data + Zeros(k * ShardSize(|data|, k) - |data|)
  }

  lemma {:induction false} StretchIs(data: Bytes, pad: nat, start: nat, size: nat)
    requires start + size <= |data| + pad
    ensures Stretch(data, start, size) == (data + Zeros(pad))[start..start + size]
  {
  }

  lemma {:induction false} NextStretch(p: Bytes, start: nat, mid: nat, end: nat)
    requires start <= mid <= end <= |p|
    ensures p[start..end] == p[start..mid] + p[mid..end]
  {
  }

  lemma {:induction false} CutJoins(data: Bytes, pad: nat, start: nat, size: nat, n: nat)
    requires start + Times(n, size) <= |data| + pad
    ensures Concat(Cut(data, start, size, n)) == (data + Zeros(pad))[start..start + Times(n, size)]
    decreases n
  {
    if n > 0 {
      CutJoins(data, pad, start + size, size, n - 1);
      StretchIs(data, pad, start, size);
      NextStretch(data + Zeros(pad), start, start + size, start + Times(n, size));
      ConcatFirst(Stretch(data, start, size), Cut(data, start + size, size, n - 1));
    }
  }

  lemma {:induction false} CutPrefix(data: Bytes, start: nat, size: nat, n: nat, k: nat)
    requires n <= k
    ensures Cut(data, start, size, k)[..n] == Cut(data, start, size, n)
    decreases n
  {
    if n > 0 {
      CutPrefix(data, start + size, size, n - 1, k - 1);
    }
  }

  lemma {:induction false} ConcatFirst(first: Bytes, rest: seq<Bytes>)
    ensures Concat([first] + rest) == first + Concat(rest)
  {
    ConcatAppend([first], rest);
    assert Concat([first]) == first;
  }

  lemma {:induction false} CutsJoin(data: Bytes, pad: nat, size: nat, n: nat, k: nat, end: nat)
    requires n <= k && end == n * size <= |data| + pad
    ensures Concat(Cut(data, 0, size, k)[..n]) == (data + Zeros(pad))[..end]
  {
    TimesIs(n, size);
    CutPrefix(data, 0, size, n, k);
    CutJoins(data, pad, 0, size, n);
  }

  /** The first n data shards joined are that much of the padded buffer. */
  lemma {:induction false} ShardsJoin(data: Bytes, k: nat, n: nat, end: nat)
    requires 0 < k && n <= k && end == n * ShardSize(|data|, k)
    ensures end <= |Padded(data, k)| && Concat(Shards(data, k)[..n]) == Padded(data, k)[..end]
  {
    MulAtLeast(n, k, ShardSize(|data|, k));
    CutsJoin(data, |Padded(data, k)| - |data|, ShardSize(|data|, k), n, k, end);
  }

  lemma {:induction false} AllShardsJoin(data: Bytes, k: nat)
    requires k > 0
    ensures Concat(Shards(data, k)) == Padded(data, k)
  {
    ShardsJoin(data, k, k, |Padded(data, k)|);
    TakeAll(Shards(data, k));
    TakeAll(Padded(data, k));
  }

  lemma {:induction false} Reconstructs(code: Code, shards: seq<Bytes>, k: nat, m: nat, size: nat,
                                        slots: seq<Option<Bytes>>)
    requires Mds(code, k, m) && ShardGrid(shards, k, size)
    requires PartOf(slots, Codeword(code, shards, m)) && |PresentSet(slots)| >= k
    ensures |slots| == k + m
    ensures code.reconstruct(slots, k) == Some(Codeword(code, shards, m))
    ensures Truncate(Codeword(code, shards, m), k) == shards
  {
  }

  /** Reconstruction of any k fragments of a non-empty buffer, cut at `len`. */
  lemma {:induction false} DecodePadded(code: Code, data: Bytes, k: nat, m: nat, slots: seq<Option<Bytes>>, len: nat)
    requires k > 0 && data != [] && code.accepts(k, m) && Mds(code, k, m)
    requires PartOf(slots, Fragments(code, data, k, m)) && |PresentSet(slots)| >= k
    requires 0 < len <= |Padded(data, k)|
    ensures Decoded(code, slots, k, m, len) == Ok(Padded(data, k)[..len])
  {
    var shards := Shards(data, k);
    ShardSizeCovers(|data|, k);
    Reconstructs(code, shards, k, m, ShardSize(|data|, k), slots);
    AllShardsJoin(data, k);
  }

  /** The round trip: whichever k or more fragments survive, decoding with the true length gives the
      buffer back, for lengths not divisible by k and for the empty buffer alike. */
  lemma {:induction false} RoundTrip(code: Code, data: Bytes, k: nat, m: nat, slots: seq<Option<Bytes>>)
    requires k > 0 && Mds(code, k, m) && (data == [] || code.accepts(k, m))
    requires PartOf(slots, Fragments(code, data, k, m)) && |PresentSet(slots)| >= k
    ensures Decoded(code, slots, k, m, |data|) == Ok(data)
  {
    if data != [] {
      ShardSizeCovers(|data|, k);
      DecodePadded(code, data, k, m, slots, |data|);
    }
  }

  lemma {:induction false} FragmentsShape(code: Code, data: Bytes, k: nat, m: nat)
    requires k > 0 && Mds(code, k, m)
    ensures |Fragments(code, data, k, m)| == k + m
    ensures Uniform(Fragments(code, data, k, m), ShardSize(|data|, k))
  {
    if data != [] {
      ShardSizeCovers(|data|, k);
      assert ShardGrid(Shards(data, k), k, ShardSize(|data|, k));
    }
  }

  /* ---------------------------------------------------------------- lawful codes exist */

  function FirstPresent(slots: seq<Option<Bytes>>): Option<Bytes> {
    if slots == [] then None else if slots[0].Some? then slots[0] else FirstPresent(slots[1..])
  }

  /** Mirroring, the lawful code with a single data shard. */
  function Mirror(): Code {
    Code((k, m) => k == 1 && m > 0,
         (data: seq<Bytes>, m: nat) => true,
         (data: seq<Bytes>, m: nat) => if data == [] then [] else Repeat(data[0], m),
         (slots: seq<Option<Bytes>>, k: nat) =>
           match FirstPresent(slots) case None => None case Some(b) => Some(Repeat(b, |slots|)))
  }

  lemma {:induction false} FirstPresentIs(slots: seq<Option<Bytes>>, b: Bytes)
    requires PresentSet(slots) != {}
    requires forall i :: 0 <= i < |slots| && slots[i].Some? ==> slots[i].value == b
    ensures FirstPresent(slots) == Some(b)
  {
    if slots[0].None? {
      var i :| i in PresentSet(slots);
      assert slots[1..][i - 1].Some?;
      assert i - 1 in PresentSet(slots[1..]);
      FirstPresentIs(slots[1..], b);
    }
  }

  lemma {:induction false} MirrorRebuilds(data: seq<Bytes>, m: nat, slots: seq<Option<Bytes>>)
    requires |data| == 1 && PartOf(slots, Codeword(Mirror(), data, m)) && |PresentSet(slots)| >= 1
    ensures Mirror().reconstruct(slots, 1) == Some(Codeword(Mirror(), data, m))
  {
    var all := Codeword(Mirror(), data, m);
    assert |all| == 1 + m && forall i :: 0 <= i < |all| ==> all[i] == data[0];
    FirstPresentIs(slots, data[0]);
    assert Repeat(data[0], 1 + m) == all;
  }

  lemma {:induction false} MirrorIsLawful(m: nat)
    ensures Mds(Mirror(), 1, m)
  {
    var code := Mirror();
    forall data, len: nat, slots |
      ShardGrid(data, 1, len) && PartOf(slots, Codeword(code, data, m)) && |PresentSet(slots)| >= 1
      ensures code.reconstruct(slots, 1) == Some(Codeword(code, data, m))
    {
      MirrorRebuilds(data, m, slots);
    }
  }
}
