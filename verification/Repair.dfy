/** Rebuilding one lost fragment: crates/kiseki-chunk-cluster/src/scrub_adapters.rs. */
module Repair {
  import opened Base
  import opened Erasure
  import opened Routing

  /** Where one fragment of one chunk lives: on a node, under its index. */
  datatype Slot = Slot(node: nat, chunk: nat, index: nat)

  type Stores = map<Slot, Bytes>

  /* ---------------------------------------------------------------- repair of one fragment */

  datatype RepairError =
    | TooFewPeers(need: nat, got: nat)
    | TooFewSources(need: nat, got: nat)
    | Undecodable(error: RoutingError)
    | Unencodable(error: RoutingError)
    | IndexNotEncoded(index: nat)
    | DestinationFailed(node: nat)

  /** Which peer calls go through: a fetch from, and a put to, a node for a chunk. */
  datatype Net = Net(fetches: (nat, nat) -> bool, puts: (nat, nat) -> bool)

  /** The responses fetched from a list of (node, index) sources, in order. */
  function Gathered(stores: Stores, net: Net, chunk: nat, sources: seq<(nat, nat)>): seq<FragmentResponse>
  {
    if sources == [] then []
    else
      var (node, index) := sources[|sources| - 1];
      Gathered(stores, net, chunk, sources[..|sources| - 1]) +
      if net.fetches(chunk, node) && Slot(node, chunk, index) in stores
      then [FragmentResponse(index, stores[Slot(node, chunk, index)])] else []
  }

  /** The bytes of the first route that carries an index. */
  function FindRoute(routes: seq<FragmentRoute>, index: nat): Option<Bytes> {
    if routes == [] then None
    else if routes[0].index == index then Some(routes[0].bytes)
    else FindRoute(routes[1..], index)
  }

  function Upto(n: nat): seq<nat> { seq(n, i => i) }

  function Repaired(code: Code, strategy: EcStrategy, stores: Stores, net: Net, chunk: nat,
                    healthy: seq<(nat, nat)>, missing: (nat, nat), len: nat): Result<Stores, RepairError>
  {
    var need := strategy.MinFragmentsForRead();
    if |healthy| < need then Err(TooFewPeers(need, |healthy|)) else
    var responses := Gathered(stores, net, chunk, healthy);
    if |responses| < need then Err(TooFewSources(need, |responses|)) else
    match DecodedResponses(code, strategy, responses, len)
    case Err(e) => Err(Undecodable(e))
    case Ok(plaintext) =>
      match Routed(code, strategy, plaintext, Upto(strategy.TotalFragments()))
      case Err(e) => Err(Unencodable(e))
      case Ok(routes) =>
        match FindRoute(routes, missing.1)
        case None => Err(IndexNotEncoded(missing.1))
        case Some(bytes) =>
          if net.puts(chunk, missing.0)
          then Ok(stores[Slot(missing.0, chunk, missing.1) := bytes])
          else Err(DestinationFailed(missing.0))
  }

  method RepairEc(code: Code, strategy: EcStrategy, stores: Stores, net: Net, chunk: nat,
                  healthy: seq<(nat, nat)>, missing: (nat, nat), len: nat) returns (r: Result<Stores, RepairError>)
    ensures r == Repaired(code, strategy, stores, net, chunk, healthy, missing, len)
  {
    var need := strategy.MinFragmentsForRead();
    if |healthy| < need {
      return Err(TooFewPeers(need, |healthy|));
    }
    var responses: seq<FragmentResponse> := [];
    for n := 0 to |healthy|
      invariant responses == Gathered(stores, net, chunk, healthy[..n])
    {
      TakeTake(healthy, n, n + 1);
      var (node, index) := healthy[n];
      if net.fetches(chunk, node) && Slot(node, chunk, index) in stores {
        responses := responses + [FragmentResponse(index, stores[Slot(node, chunk, index)])];
      }
    }
    TakeAll(healthy);
    if |responses| < need {
      return Err(TooFewSources(need, |responses|));
    }
    var decoded := DecodeFromResponses(code, strategy, responses, len);
    if decoded.Err? {
      return Err(Undecodable(decoded.error));
    }
    var routed := EncodeForPlacement(code, strategy, decoded.value, Upto(strategy.TotalFragments()));
    if routed.Err? {
      return Err(Unencodable(routed.error));
    }
    var bytes := FindRoute(routed.value, missing.1);
    if bytes.None? {
      return Err(IndexNotEncoded(missing.1));
    }
    if !net.puts(chunk, missing.0) {
      return Err(DestinationFailed(missing.0));
    }
    return Ok(stores[Slot(missing.0, chunk, missing.1) := bytes.value]);
  }

  /* ---------------------------------------------------------------- what the stores may hold */

  /** Every stored fragment is, byte for byte, the one the encoder assigned to its chunk and index. */
  ghost predicate Sound(code: Code, k: nat, m: nat, content: map<nat, Bytes>, stores: Stores)
    requires k > 0
  {
    forall s :: s in stores ==>
                  s.chunk in content && s.index < |Fragments(code, content[s.chunk], k, m)|
                  && stores[s] == Fragments(code, content[s.chunk], k, m)[s.index]
  }

  /** The shape the cluster runs with: a lawful code, and every chunk's ciphertext accepted by it. */
  ghost predicate Lawful(code: Code, k: nat, m: nat, content: map<nat, Bytes>) {
    k > 0 && m > 0 && Mds(code, k, m) && Accepted(code, k, m, content)
  }

  ghost predicate Accepted(code: Code, k: nat, m: nat, content: map<nat, Bytes>) {
    code.accepts(k, m) || forall c :: c in content ==> content[c] == []
  }

  lemma {:induction false} GatheredGenuine(code: Code, k: nat, m: nat, content: map<nat, Bytes>, stores: Stores,
                                           net: Net, chunk: nat, sources: seq<(nat, nat)>)
    requires k > 0 && Sound(code, k, m, content, stores) && chunk in content
    ensures Genuine(Gathered(stores, net, chunk, sources), Fragments(code, content[chunk], k, m))
  {
    if sources != [] {
      GatheredGenuine(code, k, m, content, stores, net, chunk, sources[..|sources| - 1]);
    }
  }

  lemma {:induction false} FindRouteAt(placement: seq<nat>, fragments: seq<Bytes>, from: nat, index: nat)
    requires |placement| == |fragments| && from <= index < |fragments|
    ensures FindRoute(RoutesFor(placement, fragments)[from..], index) == Some(fragments[index])
    decreases index - from
  {
    var routes := RoutesFor(placement, fragments);
    if from < index {
      assert routes[from..][1..] == routes[from + 1..];
      FindRouteAt(placement, fragments, from + 1, index);
    }
  }

  lemma {:induction false} FindRouteNone(routes: seq<FragmentRoute>, index: nat)
    requires forall i :: 0 <= i < |routes| ==> routes[i].index != index
    ensures FindRoute(routes, index) == None
  {
    if routes != [] {
      FindRouteNone(routes[1..], index);
    }
  }

  /** What a repair decodes is the ciphertext, if it decodes at all. */
  lemma {:induction false} RepairDecodes(code: Code, k: nat, m: nat, content: map<nat, Bytes>, stores: Stores,
                                         net: Net, chunk: nat,
                                         healthy: seq<(nat, nat)>)
    requires Lawful(code, k, m, content) && Sound(code, k, m, content, stores) && chunk in content
    ensures var responses := Gathered(stores, net, chunk, healthy);
            var r := DecodedResponses(code, Ec(k, m), responses, |content[chunk]|);
            && (r.Ok? ==> r.value == content[chunk])
            && (Enough(responses, k, m) ==> r == Ok(content[chunk]) && |responses| >= k)
  {
    var responses := Gathered(stores, net, chunk, healthy);
    GatheredGenuine(code, k, m, content, stores, net, chunk, healthy);
    CoveredSize(responses, k + m);
    if Enough(responses, k, m) {
      RouteRoundTrip(code, k, m, content[chunk], responses);
    } else if content[chunk] != [] {
      RouteTooFew(code, k, m, content[chunk], responses);
    }
  }

  /** The route found for an index is the fragment of that index. */
  lemma {:induction false} RerouteFinds(code: Code, k: nat, m: nat, ciphertext: Bytes, index: nat)
    requires k > 0 && m > 0 && Mds(code, k, m) && (ciphertext == [] || code.accepts(k, m))
    ensures var r := Routed(code, Ec(k, m), ciphertext, Upto(k + m));
            var fragments := Fragments(code, ciphertext, k, m);
            && |fragments| == k + m
            && r.Ok? && FindRoute(r.value, index) == if index < k + m then Some(fragments[index]) else None
  {
    var fragments := Fragments(code, ciphertext, k, m);
    FragmentsShape(code, ciphertext, k, m);
    LawfulEncodes(code, ciphertext, k, m);
    var routes := RoutesFor(Upto(k + m), fragments);
    assert routes[0..] == routes;
    if index < k + m {
      FindRouteAt(Upto(k + m), fragments, 0, index);
    } else {
      FindRouteNone(routes, index);
    }
  }

  /** Repair is exact: from sound stores and the true length, whatever sources answer, either nothing is
      written or the destination receives exactly the fragment the original encoding gave that index. */
  lemma {:induction false} RepairExact(code: Code, k: nat, m: nat, content: map<nat, Bytes>, stores: Stores, net: Net,
                                       chunk: nat,
                                       healthy: seq<(nat, nat)>, missing: (nat, nat))
    requires Lawful(code, k, m, content) && Sound(code, k, m, content, stores) && chunk in content
    ensures var r := Repaired(code, Ec(k, m), stores, net, chunk, healthy, missing, |content[chunk]|);
            var fragments := Fragments(code, content[chunk], k, m);
            r.Ok? ==> missing.1 < |fragments|
                      && r.value == stores[Slot(missing.0, chunk, missing.1) := fragments[missing.1]]
    ensures Enough(Gathered(stores, net, chunk, healthy), k, m) && |healthy| >= k
            && missing.1 < k + m && net.puts(chunk, missing.0) ==>
              Repaired(code, Ec(k, m), stores, net, chunk, healthy, missing, |content[chunk]|).Ok?
  {
    RepairDecodes(code, k, m, content, stores, net, chunk, healthy);
    RerouteFinds(code, k, m, content[chunk], missing.1);
  }

  lemma {:induction false} RepairSucceeds(code: Code, k: nat, m: nat, content: map<nat, Bytes>, stores: Stores,
                                          net: Net, chunk: nat,
                                          healthy: seq<(nat, nat)>, missing: (nat, nat))
    requires Lawful(code, k, m, content) && Sound(code, k, m, content, stores) && chunk in content
    requires Enough(Gathered(stores, net, chunk, healthy), k, m) && |healthy| >= k
    requires missing.1 < k + m && net.puts(chunk, missing.0)
    ensures var fragments := Fragments(code, content[chunk], k, m);
            && missing.1 < |fragments|
            && Repaired(code, Ec(k, m), stores, net, chunk, healthy, missing, |content[chunk]|)
               == Ok(stores[Slot(missing.0, chunk, missing.1) := fragments[missing.1]])
  {
    RepairExact(code, k, m, content, stores, net, chunk, healthy, missing);
  }

  /** So a repair keeps the stores sound and takes nothing away. */
  lemma {:induction false} RepairSound(code: Code, k: nat, m: nat, content: map<nat, Bytes>, stores: Stores, net: Net,
                                       chunk: nat,
                                       healthy: seq<(nat, nat)>, missing: (nat, nat))
    requires Lawful(code, k, m, content) && Sound(code, k, m, content, stores) && chunk in content
    ensures var r := Repaired(code, Ec(k, m), stores, net, chunk, healthy, missing, |content[chunk]|);
            r.Ok? ==> Sound(code, k, m, content, r.value) && stores.Keys <= r.value.Keys
  {
    var r := Repaired(code, Ec(k, m), stores, net, chunk, healthy, missing, |content[chunk]|);
    RepairExact(code, k, m, content, stores, net, chunk, healthy, missing);
    if r.Ok? {
      SoundMore(code, k, m, content, stores, Slot(missing.0, chunk, missing.1));
    }
  }

  lemma {:induction false} SoundMore(code: Code, k: nat, m: nat, content: map<nat, Bytes>, stores: Stores, slot: Slot)
    requires k > 0 && Sound(code, k, m, content, stores) && slot.chunk in content
    requires slot.index < |Fragments(code, content[slot.chunk], k, m)|
    ensures Sound(code, k, m, content, stores[slot := Fragments(code, content[slot.chunk], k, m)[slot.index]])
  {
  }

  lemma {:induction false} RepairNeeds(code: Code, k: nat, m: nat, stores: Stores, net: Net, chunk: nat,
                                       healthy: seq<(nat, nat)>,
                                       missing: (nat, nat), len: nat)
    requires |healthy| < k
    ensures Repaired(code, Ec(k, m), stores, net, chunk, healthy, missing, len).Err?
  {
  }
}
