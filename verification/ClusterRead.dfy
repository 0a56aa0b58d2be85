/** Reading an erasure-coded chunk back while the cluster goes on changing:
    crates/kiseki-chunk-cluster/src/lib.rs. */
module ClusterRead {
  import opened Base
  import opened Erasure
  import opened Routing
  import opened Repair
  import opened Cluster

  datatype Envelope = Envelope(bytes: Bytes, crypto: nat)
  datatype ReadError = ReadChunkLost | ReadIo(error: RoutingError) | ReadNotFound

  /** A fetch of one fragment index, and the stores at the moment it was served. */
  datatype Fetch = Fetch(index: nat, stores: Stores)

  /** The reader: its node, the crypto fields each peer would send, and its own envelope registry. */
  datatype Reader = Reader(at: Node, peerCrypto: nat -> nat, registry: Option<nat>)

  /** Whether a fetch launched from `at` can answer. */
  predicate Answers(cfg: Config, at: Node, chunk: nat, f: Fetch) {
    var place := cfg.place(chunk);
    f.index < |place| && (at.IsSelf(place[f.index]) || place[f.index] in at.peers) && SlotAt(cfg, chunk, f.index) in f.stores
  }

  /** The responses in the order the fetches completed. */
  function Responses(cfg: Config, at: Node, chunk: nat, fetches: seq<Fetch>): seq<FragmentResponse> {
    if fetches == [] then []
    else
      var f := fetches[|fetches| - 1];
      Responses(cfg, at, chunk, fetches[..|fetches| - 1]) +
      if Answers(cfg, at, chunk, f) then [FragmentResponse(f.index, f.stores[SlotAt(cfg, chunk, f.index)])] else []
  }

  /** The crypto fields of the first response that came from a peer; local fragments carry none. */
  function FirstCrypto(cfg: Config, reader: Reader, chunk: nat, fetches: seq<Fetch>): Option<nat> {
    if fetches == [] then None
    else
      var earlier := FirstCrypto(cfg, reader, chunk, fetches[..|fetches| - 1]);
      var f := fetches[|fetches| - 1];
      if earlier.None? && Answers(cfg, reader.at, chunk, f) && !reader.at.IsSelf(cfg.place(chunk)[f.index])
      then Some(reader.peerCrypto(cfg.place(chunk)[f.index])) else earlier
  }

  function OrElse<T>(a: Option<T>, b: Option<T>): Option<T> { if a.Some? then a else b }

  /** The crypto fields a read ends up with. */
  function CryptoFound(cfg: Config, reader: Reader, chunk: nat, fetches: seq<Fetch>): Option<nat> {
    OrElse(FirstCrypto(cfg, reader, chunk, fetches), reader.registry)
  }

  function ReadEc(cfg: Config, reader: Reader, chunk: nat, fetches: seq<Fetch>,
                  len: Option<nat>): Result<Envelope, ReadError> {
    var responses := Responses(cfg, reader.at, chunk, fetches);
    if |responses| < cfg.k || responses == [] then Err(ReadChunkLost) else
    var decodeLen := if len.Some? then len.value else |responses[0].bytes| * cfg.k;
    match DecodedResponses(cfg.code, Ec(cfg.k, cfg.m), responses, decodeLen)
    case Err(e) => Err(ReadIo(e))
    case Ok(plain) =>
      match CryptoFound(cfg, reader, chunk, fetches)
      case None => Err(ReadNotFound)
      case Some(crypto) => Ok(Envelope(if len.Some? then plain else StripZeros(plain), crypto))
  }

  /** The read loop: responses are pushed as they arrive, the first peer's crypto fields are kept. */
  method ReadChunkEc(cfg: Config, reader: Reader, chunk: nat, fetches: seq<Fetch>, len: Option<nat>)
    returns (r: Result<Envelope, ReadError>)
    ensures r == ReadEc(cfg, reader, chunk, fetches, len)
  {
    var responses, crypto := GatherResponses(cfg, reader, chunk, fetches);
    if |responses| < cfg.k || responses == [] {
      return Err(ReadChunkLost);
    }
    var decodeLen := if len.Some? then len.value else |responses[0].bytes| * cfg.k;
    var decoded := DecodeFromResponses(cfg.code, Ec(cfg.k, cfg.m), responses, decodeLen);
    if decoded.Err? {
      return Err(ReadIo(decoded.error));
    }
    var plain := decoded.value;
    if len.None? {
      while plain != [] && plain[|plain| - 1] == 0
        invariant StripZeros(plain) == StripZeros(decoded.value)
        decreases |plain|
      {
        plain := plain[..|plain| - 1];
      }
    }
    crypto := OrElse(crypto, reader.registry);
    if crypto.None? {
      return Err(ReadNotFound);
    }
    return Ok(Envelope(plain, crypto.value));
  }

  method GatherResponses(cfg: Config, reader: Reader, chunk: nat, fetches: seq<Fetch>)
    returns (responses: seq<FragmentResponse>, crypto: Option<nat>)
    ensures responses == Responses(cfg, reader.at, chunk, fetches) && crypto == FirstCrypto(cfg, reader, chunk, fetches)
  {
    var place := cfg.place(chunk);
    responses, crypto := [], None;
    for n := 0 to |fetches|
      invariant responses == Responses(cfg, reader.at, chunk, fetches[..n])
      invariant crypto == FirstCrypto(cfg, reader, chunk, fetches[..n])
    {
      TakeTake(fetches, n, n + 1);
      var f := fetches[n];
      if Answers(cfg, reader.at, chunk, f) {
        if crypto.None? && !reader.at.IsSelf(place[f.index]) {
          crypto := Some(reader.peerCrypto(place[f.index]));
        }
        responses := responses + [FragmentResponse(f.index, f.stores[SlotAt(cfg, chunk, f.index)])];
      }
    }
    TakeAll(fetches);
  }

  /* ---------------------------------------------------------------- what answers */

  /** One fetch per index. */
  ghost predicate OncePerIndex(fetches: seq<Fetch>) {
    forall i, j :: 0 <= i < j < |fetches| ==> fetches[i].index != fetches[j].index
  }

  /** The indices that answer. */
  function Answering(cfg: Config, at: Node, chunk: nat, fetches: seq<Fetch>): set<nat> {
    set n | 0 <= n < |fetches| && Answers(cfg, at, chunk, fetches[n]) :: fetches[n].index
  }

  ghost predicate Covers(responses: seq<FragmentResponse>, total: nat, have: set<nat>) {
    && Covered(responses, total) == have && |responses| == |have|
    && forall n :: 0 <= n < |responses| ==> responses[n].index < total
  }

  lemma {:induction false} CoversSnoc(responses: seq<FragmentResponse>, total: nat, have: set<nat>, r: FragmentResponse)
    requires Covers(responses, total, have) && r.index < total && r.index !in have
    ensures Covers(responses + [r], total, have + {r.index})
  {
    Scrub.CoveredSnoc(responses, r, total);
  }

  lemma {:induction false} AnsweringStep(cfg: Config, at: Node, chunk: nat, fetches: seq<Fetch>)
    requires fetches != [] && OncePerIndex(fetches)
    ensures var n := |fetches| - 1;
            var before := Answering(cfg, at, chunk, fetches[..n]);
            && fetches[n].index !in before
            && Answering(cfg, at, chunk, fetches) ==
               before + if Answers(cfg, at, chunk, fetches[n]) then {fetches[n].index} else {}
  {
    var n := |fetches| - 1;
    var front := fetches[..n];
    forall i | i in Answering(cfg, at, chunk, front)
      ensures i in Answering(cfg, at, chunk, fetches) && i != fetches[n].index
    {
      var q :| 0 <= q < n && Answers(cfg, at, chunk, front[q]) && front[q].index == i;
      assert fetches[q] == front[q];
    }
    forall i | i in Answering(cfg, at, chunk, fetches) && i != fetches[n].index
      ensures i in Answering(cfg, at, chunk, front)
    {
      var q :| 0 <= q <= n && Answers(cfg, at, chunk, fetches[q]) && fetches[q].index == i;
      assert front[q] == fetches[q];
    }
    forall q | 0 <= q <= n && fetches[q].index == fetches[n].index
      ensures q == n
    {
    }
  }

  lemma {:induction false} ResponsesCover(cfg: Config, at: Node, chunk: nat, fetches: seq<Fetch>)
    requires OncePerIndex(fetches)
    ensures Covers(Responses(cfg, at, chunk, fetches), |cfg.place(chunk)|, Answering(cfg, at, chunk, fetches))
  {
    if fetches != [] {
      var n := |fetches| - 1;
      var f := fetches[n];
      ResponsesCover(cfg, at, chunk, fetches[..n]);
      AnsweringStep(cfg, at, chunk, fetches);
      var before := Responses(cfg, at, chunk, fetches[..n]);
      if Answers(cfg, at, chunk, f) {
        CoversSnoc(before, |cfg.place(chunk)|, Answering(cfg, at, chunk, fetches[..n]),
                   FragmentResponse(f.index, f.stores[SlotAt(cfg, chunk, f.index)]));
      } else {
        assert Responses(cfg, at, chunk, fetches) == before;
        assert Answering(cfg, at, chunk, fetches) == Answering(cfg, at, chunk, fetches[..n]);
      }
    }
  }

  lemma {:induction false} EnoughArrived(cfg: Config, at: Node, chunk: nat, fetches: seq<Fetch>)
    requires OncePerIndex(fetches) && |cfg.place(chunk)| == cfg.Total()
    requires |Responses(cfg, at, chunk, fetches)| >= cfg.k
    ensures Enough(Responses(cfg, at, chunk, fetches), cfg.k, cfg.m)
    ensures forall r :: r in Responses(cfg, at, chunk, fetches) ==> r.index < cfg.k + cfg.m
  {
    ResponsesCover(cfg, at, chunk, fetches);
  }

  /* ---------------------------------------------------------------- what a read returns */

  /** Every fetch was served from stores that held only genuine fragments of some content. */
  ghost predicate Trusted(cfg: Config, content: map<nat, Bytes>, chunk: nat, fetches: seq<Fetch>) {
    && cfg.k > 0 && cfg.m > 0 && Accepted(cfg.code, cfg.k, cfg.m, content)
    && (forall n :: 0 <= n < |fetches| ==> Sound(cfg.code, cfg.k, cfg.m, content, fetches[n].stores))
    && (chunk in content ==> |cfg.place(chunk)| == cfg.Total())
  }

  lemma {:induction false} ResponsesGenuine(cfg: Config, at: Node, content: map<nat, Bytes>, chunk: nat,
                                            fetches: seq<Fetch>)
    requires Trusted(cfg, content, chunk, fetches) && chunk in content
    ensures Genuine(Responses(cfg, at, chunk, fetches), Fragments(cfg.code, content[chunk], cfg.k, cfg.m))
  {
    if fetches != [] {
      ResponsesGenuine(cfg, at, content, chunk, fetches[..|fetches| - 1]);
      assert Sound(cfg.code, cfg.k, cfg.m, content, fetches[|fetches| - 1].stores);
    }
  }

  lemma {:induction false} NothingStored(cfg: Config, at: Node, content: map<nat, Bytes>, chunk: nat,
                                         fetches: seq<Fetch>)
    requires Trusted(cfg, content, chunk, fetches) && chunk !in content
    ensures Responses(cfg, at, chunk, fetches) == []
  {
    if fetches != [] {
      NothingStored(cfg, at, content, chunk, fetches[..|fetches| - 1]);
      assert Sound(cfg.code, cfg.k, cfg.m, content, fetches[|fetches| - 1].stores);
    }
  }

  /** Decoding the arrivals, with the true length and without one. */
  lemma {:induction false} ArrivalsDecode(cfg: Config, at: Node, content: map<nat, Bytes>, chunk: nat,
                                          fetches: seq<Fetch>)
    requires Configured(cfg) && Trusted(cfg, content, chunk, fetches) && chunk in content && OncePerIndex(fetches)
    requires |Responses(cfg, at, chunk, fetches)| >= cfg.k
    ensures var responses := Responses(cfg, at, chunk, fetches);
            var blind := DecodedResponses(cfg.code, Ec(cfg.k, cfg.m), responses, |responses[0].bytes| * cfg.k);
            && DecodedResponses(cfg.code, Ec(cfg.k, cfg.m), responses, |content[chunk]|) == Ok(content[chunk])
            && blind.Ok? && StripZeros(blind.value) == StripZeros(content[chunk])
  {
    var responses := Responses(cfg, at, chunk, fetches);
    ResponsesGenuine(cfg, at, content, chunk, fetches);
    EnoughArrived(cfg, at, chunk, fetches);
    RouteRoundTrip(cfg.code, cfg.k, cfg.m, content[chunk], responses);
    RouteNoLength(cfg.code, cfg.k, cfg.m, content[chunk], responses);
  }

  /** What a read succeeds on. */
  predicate Readable(cfg: Config, reader: Reader, chunk: nat, fetches: seq<Fetch>) {
    |Answering(cfg, reader.at, chunk, fetches)| >= cfg.k && CryptoFound(cfg, reader, chunk, fetches).Some?
  }

  lemma {:induction false} ReadWith(cfg: Config, reader: Reader, content: map<nat, Bytes>, chunk: nat,
                                    fetches: seq<Fetch>)
    requires Configured(cfg) && Trusted(cfg, content, chunk, fetches) && OncePerIndex(fetches)
    ensures var r := ReadEc(cfg, reader, chunk, fetches, Some(if chunk in content then |content[chunk]| else 0));
            && (r.Ok? <==> Readable(cfg, reader, chunk, fetches))
            && (r.Ok? ==> chunk in content && r.value.bytes == content[chunk])
  {
    ResponsesCover(cfg, reader.at, chunk, fetches);
    if chunk !in content {
      NothingStored(cfg, reader.at, content, chunk, fetches);
    } else if |Responses(cfg, reader.at, chunk, fetches)| >= cfg.k {
      ArrivalsDecode(cfg, reader.at, content, chunk, fetches);
    }
  }

  lemma {:induction false} ReadBlind(cfg: Config, reader: Reader, content: map<nat, Bytes>, chunk: nat,
                                     fetches: seq<Fetch>)
    requires Configured(cfg) && Trusted(cfg, content, chunk, fetches) && OncePerIndex(fetches)
    ensures var r := ReadEc(cfg, reader, chunk, fetches, None);
            && (r.Ok? <==> Readable(cfg, reader, chunk, fetches))
            && (r.Ok? ==> chunk in content && r.value.bytes == StripZeros(content[chunk]))
  {
    ResponsesCover(cfg, reader.at, chunk, fetches);
    if chunk !in content {
      NothingStored(cfg, reader.at, content, chunk, fetches);
    } else if |Responses(cfg, reader.at, chunk, fetches)| >= cfg.k {
      ArrivalsDecode(cfg, reader.at, content, chunk, fetches);
    }
  }

  /* ---------------------------------------------------------------- over a run */

  /** Fetches that complete in the given order, the n-th served after the first times[n] events of the run. */
  function FetchesAt(cfg: Config, events: seq<Event>, order: seq<nat>, times: seq<nat>): (fetches: seq<Fetch>)
    requires |order| == |times| && forall n :: 0 <= n < |times| ==> times[n] <= |events|
    ensures |fetches| == |order|
    ensures forall n :: 0 <= n < |order| ==> fetches[n] == Fetch(order[n], Run(cfg, events[..times[n]]).stores)
  {
    if order == [] then []
    else
      var n := |order| - 1;
      FetchesAt(cfg, events, order[..n], times[..n]) + [Fetch(order[n], Run(cfg, events[..times[n]]).stores)]
  }

  predicate Timed(events: seq<Event>, order: seq<nat>, times: seq<nat>) {
    |order| == |times| && forall n :: 0 <= n < |times| ==> times[n] <= |events|
  }

  predicate LaterContent(a: map<nat, Bytes>, b: map<nat, Bytes>) { forall c :: c in a ==> c in b && b[c] == a[c] }

  /** A write at a later point of a run. */
  predicate Later(a: Write, b: Write) {
    && b.chunk == a.chunk && a.landed <= b.landed && a.lost <= b.lost && a.acked <= b.acked
    && (a.status.Succeeded? ==> b.status.Succeeded? && b.acked == a.acked)
  }

  lemma {:induction false} CompletedLater(cfg: Config, w: Write, i: nat, ok: bool)
    ensures Later(w, Completed(cfg, w, i, ok))
  {
  }

  lemma {:induction false} ContentGrows(cfg: Config, s: State, e: Event)
    ensures LaterContent(s.content, Apply(cfg, s, e).content)
  {
  }

  lemma {:induction false} WriteGrows(cfg: Config, s: State, e: Event, w: nat)
    requires w in s.writes
    ensures w in Apply(cfg, s, e).writes && Later(s.writes[w], Apply(cfg, s, e).writes[w])
  {
    if e.Complete? {
      CompletedLater(cfg, s.writes[w], e.index, e.ok);
    }
  }

  lemma {:induction false} ApplyGrows(cfg: Config, s: State, e: Event)
    ensures var after := Apply(cfg, s, e);
            && LaterContent(s.content, after.content)
            && forall w :: w in s.writes ==> w in after.writes && Later(s.writes[w], after.writes[w])
  {
    ContentGrows(cfg, s, e);
    forall w | w in s.writes
      ensures w in Apply(cfg, s, e).writes && Later(s.writes[w], Apply(cfg, s, e).writes[w])
    {
      WriteGrows(cfg, s, e, w);
    }
  }

  /** Contents stay; writes only move on. */
  lemma {:induction false} RunGrows(cfg: Config, events: seq<Event>, t: nat)
    requires t <= |events|
    ensures var s, after := Run(cfg, events[..t]), Run(cfg, events);
            && LaterContent(s.content, after.content)
            && forall w :: w in s.writes ==> w in after.writes && Later(s.writes[w], after.writes[w])
  {
    if t == |events| {
      assert events[..t] == events;
    } else {
      var front := events[..|events| - 1];
      assert front[..t] == events[..t];
      RunGrows(cfg, front, t);
      ApplyGrows(cfg, Run(cfg, front), events[|events| - 1]);
    }
  }

  lemma {:induction false} SoundLater(cfg: Config, a: map<nat, Bytes>, b: map<nat, Bytes>, stores: Stores)
    requires cfg.k > 0 && Sound(cfg.code, cfg.k, cfg.m, a, stores) && LaterContent(a, b)
    ensures Sound(cfg.code, cfg.k, cfg.m, b, stores)
  {
  }

  lemma {:induction false} RunTrusted(cfg: Config, events: seq<Event>, chunk: nat, order: seq<nat>, times: seq<nat>)
    requires Configured(cfg) && Timed(events, order, times)
    ensures Trusted(cfg, Run(cfg, events).content, chunk, FetchesAt(cfg, events, order, times))
  {
    var content := Run(cfg, events).content;
    assert BytesOk(cfg, Run(cfg, events)) by { RunInv(cfg, events); }
    forall n | 0 <= n < |order|
      ensures Sound(cfg.code, cfg.k, cfg.m, content, Run(cfg, events[..times[n]]).stores)
    {
      var past := Run(cfg, events[..times[n]]);
      assert BytesOk(cfg, past) by { RunInv(cfg, events[..times[n]]); }
      RunGrows(cfg, events, times[n]);
      SoundLater(cfg, past.content, content, past.stores);
    }
  }

  lemma {:induction false} RunOnce(cfg: Config, events: seq<Event>, order: seq<nat>, times: seq<nat>)
    requires Timed(events, order, times) && NoDup(order)
    ensures OncePerIndex(FetchesAt(cfg, events, order, times))
  {
  }

  /** Over every run, from every node, for fetches served at any points of the run and completing in any order: a
      read with the true length succeeds exactly when k fragments answer and some crypto source exists, and
      what it returns is the ciphertext that was written; a chunk never written is never invented. */
  lemma {:induction false} ReadExact(cfg: Config, events: seq<Event>, reader: Reader, chunk: nat, order: seq<nat>,
                                     times: seq<nat>)
    requires Configured(cfg) && NoDup(order) && Timed(events, order, times)
    ensures var content := Run(cfg, events).content;
            var fetches := FetchesAt(cfg, events, order, times);
            var r := ReadEc(cfg, reader, chunk, fetches, Some(if chunk in content then |content[chunk]| else 0));
            && (r.Ok? <==> Readable(cfg, reader, chunk, fetches))
            && (r.Ok? ==> chunk in content && r.value.bytes == content[chunk])
  {
    RunTrusted(cfg, events, chunk, order, times);
    RunOnce(cfg, events, order, times);
    ReadWith(cfg, reader, Run(cfg, events).content, chunk, FetchesAt(cfg, events, order, times));
  }

  /** Without the length the padding cannot be told from the data: the read returns the ciphertext with its
      trailing zeros stripped, so it is right exactly when the ciphertext does not end in a zero byte. */
  lemma {:induction false} ReadWithoutLength(cfg: Config, events: seq<Event>, reader: Reader, chunk: nat,
                                             order: seq<nat>, times: seq<nat>)
    requires Configured(cfg) && NoDup(order) && Timed(events, order, times)
    ensures var content := Run(cfg, events).content;
            var fetches := FetchesAt(cfg, events, order, times);
            var r := ReadEc(cfg, reader, chunk, fetches, None);
            && (r.Ok? <==> Readable(cfg, reader, chunk, fetches))
            && (r.Ok? ==> chunk in content && r.value.bytes == StripZeros(content[chunk]))
            && (r.Ok? ==> (r.value.bytes == content[chunk] <==>
                           content[chunk] == [] || content[chunk][|content[chunk]| - 1] != 0))
  {
    RunTrusted(cfg, events, chunk, order, times);
    RunOnce(cfg, events, order, times);
    ReadBlind(cfg, reader, Run(cfg, events).content, chunk, FetchesAt(cfg, events, order, times));
  }

  /** Two nodes that mirror every chunk. */
  function Pair(): Config { Config(Mirror(), 1, 1, 1, c => [1, 2]) }

  lemma {:induction false} PairConfigured()
    ensures Configured(Pair())
  {
    MirrorIsLawful(1);
  }

  lemma {:induction false} PairStores(chunk: nat, ciphertext: Bytes)
    requires ciphertext != []
    ensures var s := Run(Pair(), [Begin(Node(1, {}), 0, chunk, ciphertext, {0})]);
            s.content == map[chunk := ciphertext] && Slot(1, chunk, 0) in s.stores
  {
    var cfg, events := Pair(), [Begin(Node(1, {}), 0, chunk, ciphertext, {0})];
    PairConfigured();
    LawfulEncodes(cfg.code, ciphertext, 1, 1);
    FragmentsShape(cfg.code, ciphertext, 1, 1);
    assert events[..0] == [];
    var routes := RoutesFor([1, 2], Fragments(cfg.code, ciphertext, 1, 1));
    assert Routed(cfg.code, Ec(1, 1), ciphertext, cfg.place(chunk)) == Ok(routes);
    var mine := Mine(Node(1, {}), routes, {0}, |routes|);
    assert 0 in mine;
    assert Slot(routes[0].peer, chunk, 0) in SlotsOf(chunk, routes, mine);
  }

  lemma {:induction false} PairAnswers(chunk: nat, reader: Reader, fetches: seq<Fetch>)
    requires reader.at == Node(1, {}) && reader.registry.Some? && |fetches| == 1
    requires fetches[0].index == 0 && Slot(1, chunk, 0) in fetches[0].stores
    ensures Readable(Pair(), reader, chunk, fetches)
  {
    assert Answers(Pair(), reader.at, chunk, fetches[0]);
    assert 0 in Answering(Pair(), reader.at, chunk, fetches);
  }

  lemma {:induction false} PairFetch(events: seq<Event>)
    requires |events| == 1
    ensures Timed(events, [0], [1]) && NoDup([0])
    ensures FetchesAt(Pair(), events, [0], [1]) == [Fetch(0, Run(Pair(), events).stores)]
  {
    assert events[..1] == events;
  }

  /** The one-byte ciphertext zero, written on such a pair and read on the same node without its length, comes back empty. */
  lemma {:induction false} FinalZeroIsLost(chunk: nat, crypto: nat)
    ensures var cfg, events := Pair(), [Begin(Node(1, {}), 0, chunk, [0], {0})];
            var reader := Reader(Node(1, {}), n => 0, Some(crypto));
            var r := ReadEc(cfg, reader, chunk, FetchesAt(cfg, events, [0], [1]), None);
            && Run(cfg, events).content == map[chunk := [0]]
            && r.Ok? && r.value.bytes == []
  {
    var cfg, events := Pair(), [Begin(Node(1, {}), 0, chunk, [0], {0})];
    var reader := Reader(Node(1, {}), n => 0, Some(crypto));
    PairFetch(events);
    PairConfigured();
    PairStores(chunk, [0]);
    PairAnswers(chunk, reader, FetchesAt(cfg, events, [0], [1]));
    ReadWithoutLength(cfg, events, reader, chunk, [0], [1]);
  }
}
