/** Erasure-coded writes and reads over a cluster of nodes that fail:
    crates/kiseki-chunk-cluster/src/lib.rs, as a machine of single steps. */
module Cluster {
  import opened Base
  import opened Erasure
  import opened Routing
  import opened Repair
  import Scrub

  /** What every node agrees on: the code and its shape, the acknowledgement threshold, and the node of
      every fragment index of a chunk. */
  datatype Config = Config(code: Code, k: nat, m: nat, minAcks: nat, place: nat -> seq<nat>) {
    function Required(): nat { Max(minAcks, k) }
    function Total(): nat { k + m }
  }

  /** The node a call runs on: its own id (0 when it is not part of the cluster) and the peers it can reach. */
  datatype Node = Node(self: nat, peers: set<nat>) {
    predicate IsSelf(node: nat) { self != 0 && node == self }
  }

  datatype Status = Waiting | Succeeded | QuorumLost(acks: nat, required: nat)

  /** A running or finished `write_chunk_ec`: the fragments it put on the wire; the indices whose fragment reached
      its node, and of those the ones erased from it since; the puts it still waits for, the indices acknowledged. */
  datatype Write = Write(chunk: nat, sent: map<nat, Bytes>, landed: set<nat>, lost: set<nat>, waiting: set<nat>,
                         acked: set<nat>, status: Status)

  datatype State = State(content: map<nat, Bytes>, stores: Stores, writes: map<nat, Write>)

  const Empty := State(map[], map[], map[])

  /** A put that was sent may land at any time, also after the writer has given up on it or returned. */
  datatype Event =
    | Begin(at: Node, write: nat, chunk: nat, ciphertext: Bytes, localOk: set<nat>)
    | Land(write: nat, index: nat)
    | Complete(write: nat, index: nat, ok: bool)
    | Lose(slots: set<Slot>)
    | ScrubRun(policy: Scrub.Policy, oracle: (Stores, Scrub.Candidate) -> seq<bool>, net: Net, rows: seq<Scrub.Candidate>)

  /* ---------------------------------------------------------------- starting a write */

  /** The routes among the first n that go to this node and are written there. */
  function Mine(at: Node, routes: seq<FragmentRoute>, localOk: set<nat>, n: nat): set<nat>
    requires n <= |routes|
  {
    set i: nat | i < n && at.IsSelf(routes[i].peer) && i in localOk
  }

  /** The routes among the first n that go to another node this one has a handle for. */
  function Remote(at: Node, routes: seq<FragmentRoute>, n: nat): set<nat>
    requires n <= |routes|
  {
    set i: nat | i < n && !at.IsSelf(routes[i].peer) && routes[i].peer in at.peers
  }

  function SlotsOf(chunk: nat, routes: seq<FragmentRoute>, some: set<nat>): (s: Stores)
    requires forall i: nat :: i in some ==> i < |routes|
  {
    map i | i in some :: Slot(routes[i].peer, chunk, i) := routes[i].bytes
  }

  function BytesOf(routes: seq<FragmentRoute>, some: set<nat>): map<nat, Bytes>
    requires forall i: nat :: i in some ==> i < |routes|
  {
    map i | i in some :: routes[i].bytes
  }

  lemma {:induction false} SlotsOfMore(chunk: nat, routes: seq<FragmentRoute>, some: set<nat>, n: nat)
    requires n < |routes| && forall i: nat :: i in some ==> i < |routes|
    ensures SlotsOf(chunk, routes, some + {n}) == SlotsOf(chunk, routes, some)[Slot(routes[n].peer, chunk, n) := routes[n].bytes]
    ensures BytesOf(routes, some + {n}) == BytesOf(routes, some)[n := routes[n].bytes]
  {
  }

  /** Status once no put is outstanding. */
  function Verdict(cfg: Config, waiting: set<nat>, acked: set<nat>): Status {
    if waiting != {} then Waiting
    else if |acked| >= cfg.Required() then Succeeded
    else QuorumLost(|acked|, cfg.minAcks)
  }

  function NewWrite(cfg: Config, chunk: nat, routes: seq<FragmentRoute>, mine: set<nat>, remote: set<nat>): Write
    requires forall i: nat :: i in remote ==> i < |routes|
  {
    Write(chunk, BytesOf(routes, remote), mine, {}, remote, mine, Verdict(cfg, remote, mine))
  }

  function Started(cfg: Config, s: State, at: Node, w: nat, chunk: nat, ciphertext: Bytes, localOk: set<nat>): State {
    match Routed(cfg.code, Ec(cfg.k, cfg.m), ciphertext, cfg.place(chunk))
    case Err(_) => s
    case Ok(routes) =>
      var mine := Mine(at, routes, localOk, |routes|);
      var remote := Remote(at, routes, |routes|);
      State(s.content[chunk := ciphertext], s.stores + SlotsOf(chunk, routes, mine),
            s.writes[w := NewWrite(cfg, chunk, routes, mine, remote)])
  }

  /** The fan-out loop: local fragments are written at once, each with its own outcome, remote ones are put on
      the wire, unknown nodes are skipped. */
  method SendAll(at: Node, chunk: nat, routes: seq<FragmentRoute>, localOk: set<nat>)
    returns (acked: set<nat>, waiting: set<nat>, local: Stores, wire: map<nat, Bytes>)
    requires forall i :: 0 <= i < |routes| ==> routes[i].index == i
    ensures acked == Mine(at, routes, localOk, |routes|) && waiting == Remote(at, routes, |routes|)
    ensures local == SlotsOf(chunk, routes, acked) && wire == BytesOf(routes, waiting)
  {
    acked, waiting, local, wire := {}, {}, map[], map[];
    for n := 0 to |routes|
      invariant acked == Mine(at, routes, localOk, n) && waiting == Remote(at, routes, n)
      invariant local == SlotsOf(chunk, routes, acked) && wire == BytesOf(routes, waiting)
    {
      var route := routes[n];
      if at.IsSelf(route.peer) {
        if n in localOk {
          SlotsOfMore(chunk, routes, acked, n);
          local := local[Slot(route.peer, chunk, route.index) := route.bytes];
          acked := acked + {n};
        }
      } else if route.peer in at.peers {
        SlotsOfMore(chunk, routes, waiting, n);
        wire := wire[n := route.bytes];
        waiting := waiting + {n};
      }
    }
  }

  method FanOut(cfg: Config, s: State, at: Node, w: nat, chunk: nat, ciphertext: Bytes, localOk: set<nat>)
    returns (after: State)
    ensures after == Started(cfg, s, at, w, chunk, ciphertext, localOk)
  {
    var routed := EncodeForPlacement(cfg.code, Ec(cfg.k, cfg.m), ciphertext, cfg.place(chunk));
    if routed.Err? {
      return s;
    }
    var acked, waiting, local, wire := SendAll(at, chunk, routed.value, localOk);
    after := State(s.content[chunk := ciphertext], s.stores + local,
                   s.writes[w := Write(chunk, wire, acked, {}, waiting, acked, Verdict(cfg, waiting, acked))]);
  }

  /* ---------------------------------------------------------------- draining completions */

  /** A completion arrives: a success may reach quorum and end the write at once, a failure only ends it
      when nothing else is outstanding. */
  function Completed(cfg: Config, w: Write, index: nat, ok: bool): Write {
    if !w.status.Waiting? || index !in w.waiting then w
    else
      var waiting := w.waiting - {index};
      if ok && |w.acked + {index}| >= cfg.Required()
      then w.(waiting := waiting, acked := w.acked + {index}, status := Succeeded)
      else
        var acked := if ok then w.acked + {index} else w.acked;
        w.(waiting := waiting, acked := acked, status := Verdict(cfg, waiting, acked))
  }

  function Quorum(cfg: Config, acks: nat): Status {
    if acks >= cfg.Required() then Succeeded else QuorumLost(acks, cfg.minAcks)
  }

  /** The acknowledgements among the first n completions, when the puts in `good` succeed. */
  function AckedBy(order: seq<nat>, good: set<nat>, n: nat): set<nat>
    requires n <= |order|
  {
    if n == 0 then {} else AckedBy(order, good, n - 1) + if order[n - 1] in good then {order[n - 1]} else {}
  }

  lemma {:induction false} AckedByIs(order: seq<nat>, good: set<nat>, n: nat)
    requires n <= |order| && NoDup(order)
    ensures AckedBy(order, good, n) == ToSet(order[..n]) * good
    ensures n < |order| ==> order[n] !in AckedBy(order, good, n)
  {
    if n > 0 {
      AckedByIs(order, good, n - 1);
      assert order[..n] == order[..n - 1] + [order[n - 1]];
    }
  }

  lemma {:induction false} AckedGrows(order: seq<nat>, good: set<nat>, n: nat)
    requires n < |order| && NoDup(order)
    ensures |AckedBy(order, good, n + 1)| == |AckedBy(order, good, n)| + if order[n] in good then 1 else 0
  {
    AckedByIs(order, good, n);
  }

  lemma {:induction false} AckedAtMost(order: seq<nat>, good: set<nat>, n: nat)
    requires n <= |order| && NoDup(order)
    ensures |AckedBy(order, good, n)| <= |ToSet(order) * good|
    ensures n == |order| ==> |AckedBy(order, good, n)| == |ToSet(order) * good|
  {
    AckedByIs(order, good, n);
    TakeAll(order);
    SubsetSize(AckedBy(order, good, n), ToSet(order) * good);
  }

  /** The drain loop: acknowledgements are counted in arrival order, with an early exit at quorum. Whatever
      the order, the verdict is that of the number of puts that succeeded. */
  method CollectAcks(cfg: Config, localAcks: nat, order: seq<nat>, good: set<nat>) returns (status: Status)
    requires NoDup(order)
    ensures status == Quorum(cfg, localAcks + |ToSet(order) * good|)
  {
    var acks := localAcks;
    for n := 0 to |order|
      invariant acks == localAcks + |AckedBy(order, good, n)|
    {
      AckedGrows(order, good, n);
      if order[n] in good {
        acks := acks + 1;
        if acks >= cfg.Required() {
          AckedAtMost(order, good, n + 1);
          return Succeeded;
        }
      }
    }
    AckedAtMost(order, good, |order|);
    return Quorum(cfg, acks);
  }

  /** A write after a list of completions. */
  function Drained(cfg: Config, w: Write, order: seq<nat>, good: set<nat>, n: nat): Write
    requires n <= |order|
  {
    if n == 0 then w
    else Completed(cfg, Drained(cfg, w, order, good, n - 1), order[n - 1], order[n - 1] in good)
  }

  lemma {:induction false} CompletedStep(cfg: Config, w: Write, i: nat, ok: bool)
    requires w.status == Verdict(cfg, w.waiting, w.acked) && i in w.waiting
    ensures var after := Completed(cfg, w, i, ok);
            && after.waiting == w.waiting - {i}
            && after.acked == w.acked + (if ok then {i} else {})
            && (after.status.Succeeded? ==> |after.acked| >= cfg.Required())
            && (!after.status.Succeeded? ==> after.status == Verdict(cfg, after.waiting, after.acked))
  {
  }

  ghost predicate SoFar(cfg: Config, w: Write, done: set<nat>, acked: set<nat>, after: Write) {
    if after.status.Succeeded? then |w.acked + acked| >= cfg.Required()
    else after.waiting == w.waiting - done && after.acked == w.acked + acked
         && after.status == Verdict(cfg, after.waiting, after.acked)
  }

  /** The indices of the first n completions. */
  function DoneBy(order: seq<nat>, n: nat): set<nat>
    requires n <= |order|
  {
    if n == 0 then {} else DoneBy(order, n - 1) + {order[n - 1]}
  }

  lemma {:induction false} DoneByIs(order: seq<nat>, n: nat)
    requires n <= |order|
    ensures DoneBy(order, n) == ToSet(order[..n])
  {
    if n > 0 {
      DoneByIs(order, n - 1);
      assert order[..n] == order[..n - 1] + [order[n - 1]];
    }
  }

  lemma {:induction false} NotDone(order: seq<nat>, n: nat)
    requires n < |order| && NoDup(order)
    ensures order[n] !in DoneBy(order, n)
  {
    DoneByIs(order, n);
  }

  lemma {:induction false} SoFarStep(cfg: Config, w: Write, done: set<nat>, acked: set<nat>, before: Write, i: nat,
                                     ok: bool)
    requires SoFar(cfg, w, done, acked, before) && i in w.waiting && i !in done
    ensures SoFar(cfg, w, done + {i}, acked + (if ok then {i} else {}), Completed(cfg, before, i, ok))
  {
    if before.status.Succeeded? {
      SubsetSize(w.acked + acked, w.acked + (acked + if ok then {i} else {}));
    } else {
      CompletedStep(cfg, before, i, ok);
      assert w.acked + (acked + if ok then {i} else {}) == before.acked + if ok then {i} else {};
    }
  }

  ghost predicate Outstanding(order: seq<nat>, waiting: set<nat>) {
    forall i :: 0 <= i < |order| ==> order[i] in waiting
  }

  lemma {:induction false} DrainedSoFar(cfg: Config, w: Write, order: seq<nat>, good: set<nat>, n: nat)
    requires w.status.Waiting? && w.waiting != {} && NoDup(order) && Outstanding(order, w.waiting) && n <= |order|
    ensures SoFar(cfg, w, DoneBy(order, n), AckedBy(order, good, n), Drained(cfg, w, order, good, n))
  {
    if n > 0 {
      var i := order[n - 1];
      DrainedSoFar(cfg, w, order, good, n - 1);
      NotDone(order, n - 1);
      SoFarStep(cfg, w, DoneBy(order, n - 1), AckedBy(order, good, n - 1), Drained(cfg, w, order, good, n - 1), i, i in good);
    }
  }

  lemma {:induction false} DrainedAll(cfg: Config, w: Write, good: set<nat>, after: Write)
    requires w.waiting !! w.acked && SoFar(cfg, w, w.waiting, w.waiting * good, after)
    ensures after.status == Quorum(cfg, |w.acked| + |w.waiting * good|)
  {
    assert |w.acked + w.waiting * good| == |w.acked| + |w.waiting * good|;
    assert w.waiting - w.waiting == {};
  }

  /** Order does not matter to the machine either: once every outstanding put has completed, the verdict
      depends only on how many succeeded. */
  lemma {:induction false} DrainOrder(cfg: Config, w: Write, order: seq<nat>, good: set<nat>)
    requires w.status.Waiting? && w.waiting != {} && w.waiting !! w.acked
    requires NoDup(order) && ToSet(order) == w.waiting
    ensures Drained(cfg, w, order, good, |order|).status == Quorum(cfg, |w.acked| + |w.waiting * good|)
  {
    OrderIs(order, w.waiting, good);
    DrainedSoFar(cfg, w, order, good, |order|);
    DrainedAll(cfg, w, good, Drained(cfg, w, order, good, |order|));
  }

  lemma {:induction false} OrderIs(order: seq<nat>, waiting: set<nat>, good: set<nat>)
    requires NoDup(order) && ToSet(order) == waiting
    ensures Outstanding(order, waiting) && DoneBy(order, |order|) == waiting && AckedBy(order, good, |order|) == waiting * good
  {
    forall i | 0 <= i < |order|
      ensures order[i] in waiting
    {
      assert order[i] in ToSet(order);
    }
    DoneByIs(order, |order|);
    AckedByIs(order, good, |order|);
    TakeAll(order);
  }

  /* ---------------------------------------------------------------- steps and runs */

  /** The slot of a fragment index of a chunk. */
  function SlotAt(cfg: Config, chunk: nat, i: nat): Slot
    requires i < |cfg.place(chunk)|
  {
    Slot(cfg.place(chunk)[i], chunk, i)
  }

  /** What a write has lost once some slots are erased. */
  function Bereft(cfg: Config, w: Write, slots: set<Slot>): Write {
    w.(lost := w.lost + set i | i in w.landed && i < |cfg.place(w.chunk)| && SlotAt(cfg, w.chunk, i) in slots)
  }

  function Scrubber(cfg: Config, policy: Scrub.Policy, oracle: (Stores, Scrub.Candidate) -> seq<bool>,
                    net: Net): Scrub.Env {
    Scrub.Env(policy, oracle, Scrub.Fabric(cfg.code, Ec(cfg.k, cfg.m), net))
  }

  function Apply(cfg: Config, s: State, e: Event): State {
    match e
    case Begin(at, w, chunk, ciphertext, localOk) =>
      // A chunk id names one ciphertext.
      if w in s.writes || (chunk in s.content && s.content[chunk] != ciphertext) then s
      else Started(cfg, s, at, w, chunk, ciphertext, localOk)
    case Land(w, i) =>
      // A put lands once.
      if w !in s.writes || i !in s.writes[w].sent || i in s.writes[w].landed || i >= |cfg.place(s.writes[w].chunk)| then s
      else
        var write := s.writes[w];
        s.(stores := s.stores[SlotAt(cfg, write.chunk, i) := write.sent[i]],
           writes := s.writes[w := write.(landed := write.landed + {i})])
    case Complete(w, i, ok) =>
      // A put is acknowledged only after it reached its node.
      if w !in s.writes || (ok && i !in s.writes[w].landed) then s
      else s.(writes := s.writes[w := Completed(cfg, s.writes[w], i, ok)])
    case Lose(slots) =>
      s.(stores := s.stores - slots, writes := map w | w in s.writes :: Bereft(cfg, s.writes[w], slots))
    case ScrubRun(policy, oracle, net, rows) =>
      if exists j :: 0 <= j < |rows| && !Scrub.TrueRow(s.content, rows[j]) then s
      else s.(stores := Scrub.ScrubPass(Scrubber(cfg, policy, oracle, net), s.stores, rows).0)
  }

  function Run(cfg: Config, events: seq<Event>): State {
    if events == [] then Empty else Apply(cfg, Run(cfg, events[..|events| - 1]), events[|events| - 1])
  }

  /* ---------------------------------------------------------------- the invariant */

  /** The puts of a write carry the fragments the encoder made. */
  ghost predicate SentOk(cfg: Config, content: map<nat, Bytes>, w: Write)
    requires cfg.k > 0
  {
    && w.chunk in content
    && forall i :: i in w.sent ==> i < |Fragments(cfg.code, content[w.chunk], cfg.k, cfg.m)|
                                   && w.sent[i] == Fragments(cfg.code, content[w.chunk], cfg.k, cfg.m)[i]
  }

  /** Whatever sits on a node or on the wire is genuine. */
  ghost predicate BytesOk(cfg: Config, s: State) {
    && cfg.k > 0 && cfg.m > 0
    && Accepted(cfg.code, cfg.k, cfg.m, s.content)
    && Sound(cfg.code, cfg.k, cfg.m, s.content, s.stores)
    && (forall w :: w in s.writes ==> SentOk(cfg, s.content, s.writes[w]))
    && (forall c :: c in s.content ==> |cfg.place(c)| == cfg.Total())
  }

  /** Acknowledged fragments landed; landed ones that were not lost since are on their nodes; the status ties out. */
  ghost predicate WriteOk(cfg: Config, stores: Stores, w: Write) {
    && |cfg.place(w.chunk)| == cfg.Total()
    && w.waiting <= Range(cfg.Total()) && w.landed <= Range(cfg.Total()) && w.waiting !! w.acked
    && w.acked <= w.landed && w.lost <= w.landed
    && (forall i :: i in w.landed && i !in w.lost ==> SlotAt(cfg, w.chunk, i) in stores)
    && match w.status
       case Waiting => w.waiting != {}
       case Succeeded => |w.acked| >= cfg.Required()
       case QuorumLost(acks, _) => w.waiting == {} && acks == |w.acked| < cfg.Required()
  }

  ghost predicate WritesOk(cfg: Config, s: State) { forall w :: w in s.writes ==> WriteOk(cfg, s.stores, s.writes[w]) }

  ghost predicate Inv(cfg: Config, s: State) { BytesOk(cfg, s) && WritesOk(cfg, s) }

  ghost predicate Configured(cfg: Config) { cfg.k > 0 && cfg.m > 0 && Mds(cfg.code, cfg.k, cfg.m) }

  /* ---------------------------------------------------------------- genuine bytes */

  lemma {:induction false} RoutesGenuine(cfg: Config, content: map<nat, Bytes>, chunk: nat, ciphertext: Bytes,
                                         routes: seq<FragmentRoute>, some: set<nat>)
    requires Configured(cfg)
    requires Routed(cfg.code, Ec(cfg.k, cfg.m), ciphertext, cfg.place(chunk)) == Ok(routes)
    requires forall i: nat :: i in some ==> i < |routes|
    ensures |routes| == cfg.Total() == |cfg.place(chunk)|
    ensures forall i: nat :: i < |routes| ==> routes[i].peer == cfg.place(chunk)[i]
    ensures Sound(cfg.code, cfg.k, cfg.m, content[chunk := ciphertext], SlotsOf(chunk, routes, some))
    ensures forall i :: i in some ==> i < |Fragments(cfg.code, ciphertext, cfg.k, cfg.m)|
                                      && routes[i].bytes == Fragments(cfg.code, ciphertext, cfg.k, cfg.m)[i]
  {
    FragmentsShape(cfg.code, ciphertext, cfg.k, cfg.m);
  }

  /** Adding routed fragments keeps a store sound, for the content that now includes their chunk. */
  lemma {:induction false} SoundWith(cfg: Config, content: map<nat, Bytes>, chunk: nat, ciphertext: Bytes,
                                     routes: seq<FragmentRoute>,
                                     some: set<nat>, stores: Stores)
    requires Configured(cfg) && Sound(cfg.code, cfg.k, cfg.m, content, stores)
    requires chunk in content ==> content[chunk] == ciphertext
    requires Routed(cfg.code, Ec(cfg.k, cfg.m), ciphertext, cfg.place(chunk)) == Ok(routes)
    requires forall i: nat :: i in some ==> i < |routes|
    ensures Sound(cfg.code, cfg.k, cfg.m, content[chunk := ciphertext], stores + SlotsOf(chunk, routes, some))
  {
    RoutesGenuine(cfg, content, chunk, ciphertext, routes, some);
  }

  lemma {:induction false} StartedSent(cfg: Config, s: State, at: Node, w: nat, chunk: nat, ciphertext: Bytes,
                                       routes: seq<FragmentRoute>, mine: set<nat>)
    requires Configured(cfg) && BytesOk(cfg, s) && (chunk in s.content ==> s.content[chunk] == ciphertext)
    requires Routed(cfg.code, Ec(cfg.k, cfg.m), ciphertext, cfg.place(chunk)) == Ok(routes)
    ensures var writes := s.writes[w := NewWrite(cfg, chunk, routes, mine, Remote(at, routes, |routes|))];
            forall x :: x in writes ==> SentOk(cfg, s.content[chunk := ciphertext], writes[x])
  {
    RoutesGenuine(cfg, s.content, chunk, ciphertext, routes, Remote(at, routes, |routes|));
  }

  lemma {:induction false} StartedBytes(cfg: Config, s: State, at: Node, w: nat, chunk: nat, ciphertext: Bytes,
                                        localOk: set<nat>)
    requires Configured(cfg) && BytesOk(cfg, s)
    requires chunk in s.content ==> s.content[chunk] == ciphertext
    ensures BytesOk(cfg, Started(cfg, s, at, w, chunk, ciphertext, localOk))
  {
    var routed := Routed(cfg.code, Ec(cfg.k, cfg.m), ciphertext, cfg.place(chunk));
    if routed.Ok? {
      var mine := Mine(at, routed.value, localOk, |routed.value|);
      SoundWith(cfg, s.content, chunk, ciphertext, routed.value, mine, s.stores);
      StartedSent(cfg, s, at, w, chunk, ciphertext, routed.value, mine);
    }
  }

  lemma {:induction false} ScrubKeeps(cfg: Config, s: State, policy: Scrub.Policy,
                                      oracle: (Stores, Scrub.Candidate) -> seq<bool>,
                                      net: Net, rows: seq<Scrub.Candidate>)
    requires Configured(cfg) && BytesOk(cfg, s) && forall j :: 0 <= j < |rows| ==> Scrub.TrueRow(s.content, rows[j])
    ensures var after := Scrub.ScrubPass(Scrubber(cfg, policy, oracle, net), s.stores, rows).0;
            Sound(cfg.code, cfg.k, cfg.m, s.content, after) && s.stores.Keys <= after.Keys
  {
    Scrub.FabricMends(cfg.code, cfg.k, cfg.m, s.content, net);
    Scrub.ScrubPassSound(Scrubber(cfg, policy, oracle, net), cfg.code, cfg.k, cfg.m, s.content, s.stores, rows);
  }

  lemma {:induction false} ApplyBytes(cfg: Config, s: State, e: Event)
    requires Configured(cfg) && BytesOk(cfg, s)
    ensures BytesOk(cfg, Apply(cfg, s, e))
  {
    match e
    case Begin(at, w, chunk, ciphertext, localOk) =>
      if chunk in s.content ==> s.content[chunk] == ciphertext {
        StartedBytes(cfg, s, at, w, chunk, ciphertext, localOk);
      }
    case ScrubRun(policy, oracle, net, rows) => ScrubBytes(cfg, s, policy, oracle, net, rows);
    case Land(w, i) => LandBytes(cfg, s, w, i);
    case Complete(w, i, ok) => CompleteBytes(cfg, s, w, i, ok);
    case Lose(slots) => LoseBytes(cfg, s, slots);
  }

  lemma {:induction false} ScrubBytes(cfg: Config, s: State, policy: Scrub.Policy,
                                      oracle: (Stores, Scrub.Candidate) -> seq<bool>,
                                      net: Net, rows: seq<Scrub.Candidate>)
    requires Configured(cfg) && BytesOk(cfg, s)
    ensures BytesOk(cfg, Apply(cfg, s, ScrubRun(policy, oracle, net, rows)))
  {
    if forall j :: 0 <= j < |rows| ==> Scrub.TrueRow(s.content, rows[j]) {
      ScrubKeeps(cfg, s, policy, oracle, net, rows);
    }
  }

  lemma {:induction false} CompleteBytes(cfg: Config, s: State, w: nat, i: nat, ok: bool)
    requires BytesOk(cfg, s)
    ensures BytesOk(cfg, Apply(cfg, s, Complete(w, i, ok)))
  {
  }

  lemma {:induction false} LoseBytes(cfg: Config, s: State, slots: set<Slot>)
    requires BytesOk(cfg, s)
    ensures BytesOk(cfg, Apply(cfg, s, Lose(slots)))
  {
  }

  lemma {:induction false} LandBytes(cfg: Config, s: State, w: nat, i: nat)
    requires BytesOk(cfg, s)
    ensures BytesOk(cfg, Apply(cfg, s, Land(w, i)))
  {
    if w in s.writes {
      assert SentOk(cfg, s.content, s.writes[w]);
    }
  }

  /* ---------------------------------------------------------------- acknowledged fragments */

  lemma {:induction false} MoreStored(cfg: Config, stores: Stores, more: Stores, w: Write)
    requires WriteOk(cfg, stores, w) && stores.Keys <= more.Keys
    ensures WriteOk(cfg, more, w)
  {
  }

  lemma {:induction false} NewWriteOk(cfg: Config, stores: Stores, chunk: nat, routes: seq<FragmentRoute>,
                                      mine: set<nat>,
                                      remote: set<nat>)
    requires |routes| == cfg.Total() == |cfg.place(chunk)| && mine !! remote
    requires forall i: nat :: i < |routes| ==> routes[i].peer == cfg.place(chunk)[i]
    requires forall i: nat :: i in mine || i in remote ==> i < |routes|
    requires SlotsOf(chunk, routes, mine).Keys <= stores.Keys
    ensures WriteOk(cfg, stores, NewWrite(cfg, chunk, routes, mine, remote))
  {
    forall i: nat | i in mine
      ensures SlotAt(cfg, chunk, i) in stores
    {
      assert Slot(routes[i].peer, chunk, i) in SlotsOf(chunk, routes, mine);
    }
  }

  lemma {:induction false} StartedWrites(cfg: Config, s: State, at: Node, w: nat, chunk: nat, ciphertext: Bytes,
                                         localOk: set<nat>)
    requires Configured(cfg) && WritesOk(cfg, s)
    ensures WritesOk(cfg, Started(cfg, s, at, w, chunk, ciphertext, localOk))
  {
    var routed := Routed(cfg.code, Ec(cfg.k, cfg.m), ciphertext, cfg.place(chunk));
    if routed.Ok? {
      var routes := routed.value;
      RoutesGenuine(cfg, s.content, chunk, ciphertext, routes, {});
      var after := Started(cfg, s, at, w, chunk, ciphertext, localOk);
      NewWriteOk(cfg, after.stores, chunk, routes, Mine(at, routes, localOk, |routes|), Remote(at, routes, |routes|));
      forall x | x in s.writes
        ensures WriteOk(cfg, after.stores, s.writes[x])
      {
        MoreStored(cfg, s.stores, after.stores, s.writes[x]);
      }
    }
  }

  lemma {:induction false} CompletedOk(cfg: Config, stores: Stores, w: Write, i: nat, ok: bool)
    requires WriteOk(cfg, stores, w) && (ok ==> i in w.landed)
    ensures WriteOk(cfg, stores, Completed(cfg, w, i, ok))
  {
  }

  lemma {:induction false} LandedOk(cfg: Config, stores: Stores, w: Write, i: nat, bytes: Bytes)
    requires WriteOk(cfg, stores, w) && i < |cfg.place(w.chunk)|
    ensures WriteOk(cfg, stores[SlotAt(cfg, w.chunk, i) := bytes], w.(landed := w.landed + {i}))
  {
  }

  lemma {:induction false} BereftOk(cfg: Config, stores: Stores, w: Write, slots: set<Slot>)
    requires WriteOk(cfg, stores, w)
    ensures WriteOk(cfg, stores - slots, Bereft(cfg, w, slots))
  {
    var after := Bereft(cfg, w, slots);
    forall i | i in after.landed && i !in after.lost
      ensures SlotAt(cfg, w.chunk, i) in stores - slots
    {
      assert SlotAt(cfg, w.chunk, i) in stores;
    }
  }

  lemma {:induction false} LandWrites(cfg: Config, s: State, w: nat, i: nat)
    requires WritesOk(cfg, s)
    ensures WritesOk(cfg, Apply(cfg, s, Land(w, i)))
  {
    var after := Apply(cfg, s, Land(w, i));
    forall x | x in after.writes
      ensures WriteOk(cfg, after.stores, after.writes[x])
    {
      assert WriteOk(cfg, s.stores, s.writes[x]);
      if x == w && after != s {
        LandedOk(cfg, s.stores, s.writes[w], i, s.writes[w].sent[i]);
      } else {
        MoreStored(cfg, s.stores, after.stores, s.writes[x]);
      }
    }
  }

  lemma {:induction false} CompleteWrites(cfg: Config, s: State, w: nat, i: nat, ok: bool)
    requires WritesOk(cfg, s)
    ensures WritesOk(cfg, Apply(cfg, s, Complete(w, i, ok)))
  {
    if w in s.writes && (ok ==> i in s.writes[w].landed) {
      CompletedOk(cfg, s.stores, s.writes[w], i, ok);
    }
  }

  lemma {:induction false} LoseWrites(cfg: Config, s: State, slots: set<Slot>)
    requires WritesOk(cfg, s)
    ensures WritesOk(cfg, Apply(cfg, s, Lose(slots)))
  {
    forall x | x in s.writes
      ensures WriteOk(cfg, s.stores - slots, Bereft(cfg, s.writes[x], slots))
    {
      BereftOk(cfg, s.stores, s.writes[x], slots);
    }
  }

  lemma {:induction false} ScrubWrites(cfg: Config, s: State, policy: Scrub.Policy,
                                       oracle: (Stores, Scrub.Candidate) -> seq<bool>,
                                       net: Net, rows: seq<Scrub.Candidate>)
    requires Configured(cfg) && BytesOk(cfg, s) && WritesOk(cfg, s)
    ensures WritesOk(cfg, Apply(cfg, s, ScrubRun(policy, oracle, net, rows)))
  {
    if forall j :: 0 <= j < |rows| ==> Scrub.TrueRow(s.content, rows[j]) {
      ScrubKeeps(cfg, s, policy, oracle, net, rows);
      var after := Scrub.ScrubPass(Scrubber(cfg, policy, oracle, net), s.stores, rows).0;
      forall x | x in s.writes
        ensures WriteOk(cfg, after, s.writes[x])
      {
        MoreStored(cfg, s.stores, after, s.writes[x]);
      }
    }
  }

  lemma {:induction false} ApplyWrites(cfg: Config, s: State, e: Event)
    requires Configured(cfg) && BytesOk(cfg, s) && WritesOk(cfg, s)
    ensures WritesOk(cfg, Apply(cfg, s, e))
  {
    match e
    case Begin(at, w, chunk, ciphertext, localOk) => StartedWrites(cfg, s, at, w, chunk, ciphertext, localOk);
    case Land(w, i) => LandWrites(cfg, s, w, i);
    case Complete(w, i, ok) => CompleteWrites(cfg, s, w, i, ok);
    case Lose(slots) => LoseWrites(cfg, s, slots);
    case ScrubRun(policy, oracle, net, rows) => ScrubWrites(cfg, s, policy, oracle, net, rows);
  }

  /** The invariant holds in every state any run reaches. */
  lemma {:induction false} RunInv(cfg: Config, events: seq<Event>)
    requires Configured(cfg)
    ensures Inv(cfg, Run(cfg, events))
  {
    if events != [] {
      var before := Run(cfg, events[..|events| - 1]);
      RunInv(cfg, events[..|events| - 1]);
      ApplyBytes(cfg, before, events[|events| - 1]);
      ApplyWrites(cfg, before, events[|events| - 1]);
    }
  }
}
