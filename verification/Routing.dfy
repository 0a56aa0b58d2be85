/** Fragments to peers and back: crates/kiseki-chunk-cluster/src/ec.rs. */
module Routing {
  import opened Base
  import opened Erasure

  datatype EcStrategy = Replication(copies: nat) | Ec(data: nat, parity: nat) {
    function TotalFragments(): nat {
      match this
      case Replication(copies) => copies
      case Ec(data, parity) => data + parity
    }

    function MinFragmentsForRead(): nat {
      match this
      case Replication(_) => 1
      case Ec(data, _) => data
    }
  }

  datatype FragmentRoute = FragmentRoute(peer: nat, index: nat, bytes: Bytes)
  datatype FragmentResponse = FragmentResponse(index: nat, bytes: Bytes)
  datatype RoutingError = PlacementSizeMismatch(placement: nat, expected: nat) | Chunk(error: EcError)

  /* ---------------------------------------------------------------- encode and route */

  /** Fragment i goes to the i-th placement node; the pairing stops at the shorter list. */
  function RoutesFor(placement: seq<nat>, fragments: seq<Bytes>): (routes: seq<FragmentRoute>)
    ensures |routes| == Min(|placement|, |fragments|)
  {
    seq(Min(|placement|, |fragments|), i requires 0 <= i < Min(|placement|, |fragments|) =>
      FragmentRoute(placement[i], i, fragments[i]))
  }

  function Routed(code: Code, strategy: EcStrategy, ciphertext: Bytes, placement: seq<nat>)
    : Result<seq<FragmentRoute>, RoutingError>
  {
    if |placement| != strategy.TotalFragments() then
      Err(PlacementSizeMismatch(|placement|, strategy.TotalFragments()))
    else match strategy
      case Replication(_) =>
        Ok(seq(|placement|, i requires 0 <= i < |placement| => FragmentRoute(placement[i], 0, ciphertext)))
      case Ec(k, m) =>
        match Refused(code, ciphertext, k, m)
        case Some(error) => Err(Chunk(error))
        case None => Ok(RoutesFor(placement, Fragments(code, ciphertext, k, m)))
  }

  method EncodeForPlacement(code: Code, strategy: EcStrategy, ciphertext: Bytes, placement: seq<nat>)
    returns (r: Result<seq<FragmentRoute>, RoutingError>)
    ensures r == Routed(code, strategy, ciphertext, placement)
  {
    if |placement| != strategy.TotalFragments() {
      return Err(PlacementSizeMismatch(|placement|, strategy.TotalFragments()));
    }
    match strategy
    case Replication(_) =>
      return Ok(seq(|placement|, i requires 0 <= i < |placement| => FragmentRoute(placement[i], 0, ciphertext)));
    case Ec(data, parity) =>
      var encoded := Encode(code, ciphertext, data, parity);
      if encoded.Err? {
        return Err(Chunk(encoded.error));
      }
      return Ok(RoutesFor(placement, encoded.value.fragments));
  }

  /* ---------------------------------------------------------------- gather and decode */

  /** The slot table after the responses have been dropped into it in order; a later response for the
      same index replaces an earlier one and an index out of range is ignored. */
  function FillSlots(responses: seq<FragmentResponse>, total: nat): (slots: seq<Option<Bytes>>)
    ensures |slots| == total
  {
    if responses == [] then seq(total, _ => None)
    else
      var slots := FillSlots(responses[..|responses| - 1], total);
      var last := responses[|responses| - 1];
      if last.index < total then slots[last.index := Some(last.bytes)] else slots
  }

  function DecodedResponses(code: Code, strategy: EcStrategy, responses: seq<FragmentResponse>, len: nat)
    : Result<Bytes, RoutingError>
  {
    if |responses| < strategy.MinFragmentsForRead() then Err(Chunk(ChunkLost))
    else match strategy
      case Replication(_) => Ok(responses[0].bytes)
      case Ec(data, parity) =>
        match Decoded(code, FillSlots(responses, data + parity), data, parity, len)
        case Ok(bytes) => Ok(bytes)
        case Err(e) => Err(Chunk(e))
  }

  method DecodeFromResponses(code: Code, strategy: EcStrategy, responses: seq<FragmentResponse>, len: nat)
    returns (r: Result<Bytes, RoutingError>)
    ensures r == DecodedResponses(code, strategy, responses, len)
  {
    if |responses| < strategy.MinFragmentsForRead() {
      return Err(Chunk(ChunkLost));
    }
    match strategy
    case Replication(_) =>
      return Ok(responses[0].bytes);
    case Ec(data, parity) =>
      var total := data + parity;
      var slots: seq<Option<Bytes>> := seq(total, _ => None);
      for n := 0 to |responses|
        invariant slots == FillSlots(responses[..n], total)
      {
        TakeTake(responses, n, n + 1);
        var response := responses[n];
        if response.index < total {
          slots := slots[response.index := Some(response.bytes)];
        }
      }
      TakeAll(responses);
      var decoded := Decode(code, slots, data, parity, len);
      match decoded
      case Ok(bytes) => return Ok(bytes);
      case Err(e) => return Err(Chunk(e));
  }

  /* ---------------------------------------------------------------- the laws */

  /** The valid fragment indices a response list covers. */
  function Covered(responses: seq<FragmentResponse>, total: nat): set<nat> {
    set n | 0 <= n < |responses| && responses[n].index < total :: responses[n].index
  }

  /** At least k distinct fragments are covered. */
  predicate Enough(responses: seq<FragmentResponse>, k: nat, m: nat) { |Covered(responses, k + m)| >= k }

  /** Every response that names a valid index carries the fragment of that index. */
  ghost predicate Genuine(responses: seq<FragmentResponse>, fragments: seq<Bytes>) {
    forall n :: 0 <= n < |responses| && responses[n].index < |fragments| ==>
                  responses[n].bytes == fragments[responses[n].index]
  }

  lemma {:induction false} FilledSlots(responses: seq<FragmentResponse>, fragments: seq<Bytes>)
    requires Genuine(responses, fragments)
    ensures PartOf(FillSlots(responses, |fragments|), fragments)
    ensures PresentSet(FillSlots(responses, |fragments|)) == Covered(responses, |fragments|)
  {
    var total := |fragments|;
    if responses != [] {
      var n := |responses| - 1;
      FilledSlots(responses[..n], fragments);
      assert Covered(responses, total) ==
             Covered(responses[..n], total) + (if responses[n].index < total then {responses[n].index} else {});
    }
  }

  lemma {:induction false} CoveredSize(responses: seq<FragmentResponse>, total: nat)
    ensures |Covered(responses, total)| <= |responses|
  {
    if responses != [] {
      var n := |responses| - 1;
      CoveredSize(responses[..n], total);
      assert Covered(responses, total) ==
             Covered(responses[..n], total) + (if responses[n].index < total then {responses[n].index} else {});
    }
  }

  /** The round trip through routing: any list of genuine responses, in any order, with duplicates and
      stray indices, decodes to the original as soon as it covers k distinct fragments. */
  lemma {:induction false} RouteRoundTrip(code: Code, k: nat, m: nat, ciphertext: Bytes,
                                          responses: seq<FragmentResponse>)
    requires k > 0 && Mds(code, k, m) && (ciphertext == [] || code.accepts(k, m))
    requires Genuine(responses, Fragments(code, ciphertext, k, m))
    requires Enough(responses, k, m)
    ensures DecodedResponses(code, Ec(k, m), responses, |ciphertext|) == Ok(ciphertext)
  {
    FragmentsShape(code, ciphertext, k, m);
    FilledSlots(responses, Fragments(code, ciphertext, k, m));
    CoveredSize(responses, k + m);
    RoundTrip(code, ciphertext, k, m, FillSlots(responses, k + m));
  }

  /** A non-empty original is reported lost when fewer than k distinct fragments are covered. */
  lemma {:induction false} RouteTooFew(code: Code, k: nat, m: nat, ciphertext: Bytes, responses: seq<FragmentResponse>)
    requires k > 0 && Mds(code, k, m) && ciphertext != []
    requires Genuine(responses, Fragments(code, ciphertext, k, m))
    requires !Enough(responses, k, m)
    ensures DecodedResponses(code, Ec(k, m), responses, |ciphertext|) == Err(Chunk(ChunkLost))
  {
    FragmentsShape(code, ciphertext, k, m);
    FilledSlots(responses, Fragments(code, ciphertext, k, m));
  }

  /** Decoding without the length: the whole padded stripe comes back. */
  lemma {:induction false} RoutePadded(code: Code, k: nat, m: nat, ciphertext: Bytes, responses: seq<FragmentResponse>)
    requires k > 0 && Mds(code, k, m) && ciphertext != [] && code.accepts(k, m)
    requires Genuine(responses, Fragments(code, ciphertext, k, m))
    requires Enough(responses, k, m)
    ensures DecodedResponses(code, Ec(k, m), responses, |Padded(ciphertext, k)|) == Ok(Padded(ciphertext, k))
  {
    FragmentsShape(code, ciphertext, k, m);
    FilledSlots(responses, Fragments(code, ciphertext, k, m));
    CoveredSize(responses, k + m);
    var p := Padded(ciphertext, k);
    DecodePadded(code, ciphertext, k, m, FillSlots(responses, k + m), |p|);
    TakeAll(p);
  }

  /** Without the length, the size of the first response times k stands in for it; what is lost is exactly
      the difference between trailing zeros of the original and padding. */
  lemma {:induction false} RouteNoLength(code: Code, k: nat, m: nat, ciphertext: Bytes,
                                         responses: seq<FragmentResponse>)
    requires k > 0 && Mds(code, k, m) && (ciphertext == [] || code.accepts(k, m))
    requires Genuine(responses, Fragments(code, ciphertext, k, m))
    requires Enough(responses, k, m) && responses != [] && responses[0].index < k + m
    ensures var r := DecodedResponses(code, Ec(k, m), responses, |responses[0].bytes| * k);
            r.Ok? && StripZeros(r.value) == StripZeros(ciphertext)
  {
    FirstSize(code, k, m, ciphertext, responses);
    if ciphertext == [] {
      RouteRoundTrip(code, k, m, ciphertext, responses);
    } else {
      RoutePadded(code, k, m, ciphertext, responses);
      StripZerosPadded(ciphertext, |Padded(ciphertext, k)| - |ciphertext|);
    }
  }

  /** The first response times k is the size of the padded stripe. */
  lemma {:induction false} FirstSize(code: Code, k: nat, m: nat, ciphertext: Bytes, responses: seq<FragmentResponse>)
    requires k > 0 && Mds(code, k, m) && Genuine(responses, Fragments(code, ciphertext, k, m))
    requires responses != [] && responses[0].index < k + m
    ensures |responses[0].bytes| * k == |Padded(ciphertext, k)|
    ensures ciphertext == [] ==> |responses[0].bytes| * k == 0
  {
    FragmentsShape(code, ciphertext, k, m);
    assert |responses[0].bytes| == ShardSize(|ciphertext|, k);
    Commutes(ShardSize(|ciphertext|, k), k);
  }

  lemma {:induction false} Commutes(a: nat, b: nat)
    ensures a * b == b * a
  {
  }
}
