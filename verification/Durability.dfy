/** What an acknowledged write is worth, whatever happens afterwards:
    crates/kiseki-chunk-cluster/src/lib.rs with the placement of crates/kiseki-chunk-cluster/src/placement.rs. */
module Durability {
  import opened Base
  import opened Cluster
  import opened ClusterRead
  import Placement

  /* ---------------------------------------------------------------- what a write may have lost */

  /** The n-th event erased fragment i of write w from its node, after w's put of it had landed there. */
  ghost predicate ErasedBy(cfg: Config, events: seq<Event>, n: nat, w: nat, i: nat)
    requires n < |events|
  {
    var before := Run(cfg, events[..n]);
    && events[n].Lose? && w in before.writes && i in before.writes[w].landed
    && i < |cfg.place(before.writes[w].chunk)| && SlotAt(cfg, before.writes[w].chunk, i) in events[n].slots
  }

  lemma {:induction false} LostStep(cfg: Config, s: State, e: Event, w: nat, i: nat)
    requires w in Apply(cfg, s, e).writes
    ensures i in Apply(cfg, s, e).writes[w].lost <==>
            w in s.writes && (i in s.writes[w].lost
                              || (e.Lose? && i in s.writes[w].landed && i < |cfg.place(s.writes[w].chunk)|
                                  && SlotAt(cfg, s.writes[w].chunk, i) in e.slots))
  {
  }

  lemma {:induction false} ErasedFront(cfg: Config, events: seq<Event>, n: nat, w: nat, i: nat)
    requires n + 1 < |events|
    ensures ErasedBy(cfg, events, n, w, i) <==> ErasedBy(cfg, events[..|events| - 1], n, w, i)
    ensures ErasedBy(cfg, events, n, w, i) ==> w in Run(cfg, events[..|events| - 1]).writes
  {
    var front := events[..|events| - 1];
    TakeTake(events, n, |events| - 1);
    RunGrows(cfg, front, n);
  }

  /** A write has lost exactly the fragments that were erased after its own put of them had landed: nothing that
      happened before counts against it. */
  lemma {:induction false} LostMeans(cfg: Config, events: seq<Event>, w: nat, i: nat)
    requires w in Run(cfg, events).writes
    ensures i in Run(cfg, events).writes[w].lost <==> exists n: nat :: n < |events| && ErasedBy(cfg, events, n, w, i)
  {
    if events != [] {
      var last := |events| - 1;
      var before := Run(cfg, events[..last]);
      LostStep(cfg, before, events[last], w, i);
      if w in before.writes {
        LostMeans(cfg, events[..last], w, i);
      }
      if i in Run(cfg, events).writes[w].lost {
        if i in before.writes[w].lost {
          var n: nat :| n < last && ErasedBy(cfg, events[..last], n, w, i);
          ErasedFront(cfg, events, n, w, i);
        } else {
          assert ErasedBy(cfg, events, last, w, i);
        }
      }
      if n: nat :| n < |events| && ErasedBy(cfg, events, n, w, i) {
        if n < last {
          ErasedFront(cfg, events, n, w, i);
        }
      }
    }
  }

  /* ---------------------------------------------------------------- acknowledged writes */

  /** A write that returned Ok has at least max(min_acks, k) distinct fragments acknowledged, in whatever order the
      acknowledgements came, and each of them sits on its placement node unless it was erased after it had
      landed there; a write that reported a lost quorum has fewer. */
  lemma {:induction false} DurableWrite(cfg: Config, events: seq<Event>, w: nat)
    requires Configured(cfg) && w in Run(cfg, events).writes
    ensures var s := Run(cfg, events);
            var write := s.writes[w];
            && write.chunk in s.content && |cfg.place(write.chunk)| == cfg.k + cfg.m
            && (write.status.Succeeded? ==> |write.acked| >= Max(cfg.minAcks, cfg.k))
            && (write.status.QuorumLost? ==> |write.acked| < Max(cfg.minAcks, cfg.k))
            && (forall i: nat :: i in write.acked ==> i < cfg.k + cfg.m)
            && (forall i: nat :: i in write.acked && i !in write.lost ==> SlotAt(cfg, write.chunk, i) in s.stores)
  {
    var s := Run(cfg, events);
    assert Inv(cfg, s) by { RunInv(cfg, events); }
    assert WriteOk(cfg, s.stores, s.writes[w]) && SentOk(cfg, s.content, s.writes[w]);
  }

  predicate Reaches(cfg: Config, reader: Reader, chunk: nat, i: nat) {
    i < |cfg.place(chunk)| && (reader.at.IsSelf(cfg.place(chunk)[i]) || cfg.place(chunk)[i] in reader.at.peers)
  }

  /** An acknowledged fragment that was never lost is there at every moment since the write returned. */
  lemma {:induction false} StaysThere(cfg: Config, events: seq<Event>, t0: nat, t: nat, w: nat, i: nat)
    requires Configured(cfg) && t0 <= t <= |events|
    requires w in Run(cfg, events[..t0]).writes && i in Run(cfg, events[..t0]).writes[w].acked
    ensures w in Run(cfg, events).writes && Run(cfg, events).writes[w].chunk == Run(cfg, events[..t0]).writes[w].chunk
    ensures i !in Run(cfg, events).writes[w].lost ==>
              var chunk := Run(cfg, events).writes[w].chunk;
              i < |cfg.place(chunk)| && SlotAt(cfg, chunk, i) in Run(cfg, events[..t]).stores
  {
    assert events[..t][..t0] == events[..t0];
    RunGrows(cfg, events[..t], t0);
    RunGrows(cfg, events, t);
    DurableWrite(cfg, events[..t], w);
  }

  /** The fragments a write can count on. */
  function Safe(w: Write): set<nat> { w.acked - w.lost }

  /** Durability end to end: once a write has returned Ok, a read whose fetches are served at any later moments, while
      anything else goes on, gets exactly the written ciphertext, as long as the reader reaches some k acknowledged
      fragments that are not lost by the end of it, and crypto fields are found. */
  lemma {:induction false} DurableRead(cfg: Config, events: seq<Event>, t0: nat, w: nat, have: set<nat>,
                                       reader: Reader, order: seq<nat>,
                                       times: seq<nat>)
    requires Configured(cfg) && NoDup(order) && Timed(events, order, times)
    requires t0 <= |events| && forall n :: 0 <= n < |times| ==> t0 <= times[n]
    requires w in Run(cfg, events[..t0]).writes && Run(cfg, events[..t0]).writes[w].status.Succeeded?
    requires w in Run(cfg, events).writes && have <= Safe(Run(cfg, events).writes[w]) && |have| >= cfg.k
    requires forall i :: i in have ==> i in order && Reaches(cfg, reader, Run(cfg, events).writes[w].chunk, i)
    requires CryptoFound(cfg, reader, Run(cfg, events).writes[w].chunk, FetchesAt(cfg, events, order, times)).Some?
    ensures var s := Run(cfg, events);
            var chunk := s.writes[w].chunk;
            && chunk in s.content
            && var r := ReadEc(cfg, reader, chunk, FetchesAt(cfg, events, order, times), Some(|s.content[chunk]|));
               r.Ok? && r.value.bytes == s.content[chunk]
  {
    var chunk := Run(cfg, events).writes[w].chunk;
    SafeAnswers(cfg, events, t0, w, have, reader, order, times);
    SubsetSize(have, Answering(cfg, reader.at, chunk, FetchesAt(cfg, events, order, times)));
    DurableWrite(cfg, events, w);
    ReadExact(cfg, events, reader, chunk, order, times);
  }

  lemma {:induction false} SafeAnswers(cfg: Config, events: seq<Event>, t0: nat, w: nat, have: set<nat>,
                                       reader: Reader, order: seq<nat>,
                                       times: seq<nat>)
    requires Configured(cfg) && Timed(events, order, times)
    requires t0 <= |events| && forall n :: 0 <= n < |times| ==> t0 <= times[n]
    requires w in Run(cfg, events[..t0]).writes && Run(cfg, events[..t0]).writes[w].status.Succeeded?
    requires w in Run(cfg, events).writes && have <= Safe(Run(cfg, events).writes[w])
    requires forall i :: i in have ==> i in order && Reaches(cfg, reader, Run(cfg, events).writes[w].chunk, i)
    ensures have <= Answering(cfg, reader.at, Run(cfg, events).writes[w].chunk, FetchesAt(cfg, events, order, times))
  {
    var chunk := Run(cfg, events).writes[w].chunk;
    var fetches := FetchesAt(cfg, events, order, times);
    RunGrows(cfg, events, t0);
    forall i | i in have
      ensures i in Answering(cfg, reader.at, chunk, fetches)
    {
      var n :| 0 <= n < |order| && order[n] == i;
      StaysThere(cfg, events, t0, times[n], w, i);
      assert Answers(cfg, reader.at, chunk, fetches[n]);
    }
  }

  /* ---------------------------------------------------------------- losing whole nodes */

  /** The indices placed on some of the nodes. */
  function PlacedOn(place: seq<nat>, nodes: set<nat>, n: nat): set<nat>
    requires n <= |place|
  {
    if n == 0 then {} else PlacedOn(place, nodes, n - 1) + if place[n - 1] in nodes then {n - 1} else {}
  }

  lemma {:induction false} PlacedOnIs(place: seq<nat>, nodes: set<nat>, n: nat, i: nat)
    requires n <= |place|
    ensures i in PlacedOn(place, nodes, n) <==> i < n && place[i] in nodes
  {
    if n > 0 {
      PlacedOnIs(place, nodes, n - 1, i);
    }
  }

  /** With distinct placement nodes, d nodes hold at most d fragments of a chunk. */
  lemma {:induction false} PlacedOnFew(place: seq<nat>, nodes: set<nat>, n: nat)
    requires n <= |place| && NoDup(place)
    ensures |PlacedOn(place, nodes, n)| <= |nodes|
  {
    if n > 0 {
      var x := place[n - 1];
      if x in nodes {
        PlacedOnFew(place, nodes - {x}, n - 1);
        WithoutUnused(place, nodes, x, n - 1);
        assert |nodes - {x}| == |nodes| - 1;
      } else {
        PlacedOnFew(place, nodes, n - 1);
      }
    }
  }

  lemma {:induction false} WithoutUnused(place: seq<nat>, nodes: set<nat>, x: nat, n: nat)
    requires n <= |place| && forall i :: 0 <= i < n ==> place[i] != x
    ensures PlacedOn(place, nodes - {x}, n) == PlacedOn(place, nodes, n)
  {
    if n > 0 {
      WithoutUnused(place, nodes, x, n - 1);
    }
  }

  /** Rendezvous placement over the cluster's nodes, for some score of every chunk and node. */
  ghost predicate Rendezvous(cfg: Config, score: nat -> nat -> nat, nodes: seq<nat>) {
    NoDup(nodes) && forall c :: cfg.place(c) == Placement.PickPlacement(score(c), nodes, cfg.Total())
  }

  /** Since the write began, fragments were erased from these nodes only. */
  ghost predicate LosesOnly(cfg: Config, events: seq<Event>, w: nat, nodes: set<nat>) {
    forall n {:trigger events[n]} :: 0 <= n < |events| && events[n].Lose? && w in Run(cfg, events[..n]).writes ==>
      forall slot :: slot in events[n].slots ==> slot.node in nodes
  }

  lemma {:induction false} LostOnDead(cfg: Config, events: seq<Event>, w: nat, dead: set<nat>)
    requires w in Run(cfg, events).writes && LosesOnly(cfg, events, w, dead)
    ensures var write := Run(cfg, events).writes[w];
            forall i :: i in write.lost ==> i < |cfg.place(write.chunk)| && cfg.place(write.chunk)[i] in dead
  {
    var write := Run(cfg, events).writes[w];
    forall i | i in write.lost
      ensures i < |cfg.place(write.chunk)| && cfg.place(write.chunk)[i] in dead
    {
      LostMeans(cfg, events, w, i);
      var n: nat :| n < |events| && ErasedBy(cfg, events, n, w, i);
      RunGrows(cfg, events, n);
    }
  }

  /** The acknowledged fragments on other nodes. */
  function Living(place: seq<nat>, acked: set<nat>, dead: set<nat>): set<nat> {
    set i | i in acked && i < |place| && place[i] !in dead
  }

  /** Losing d nodes leaves all but d. */
  lemma {:induction false} LivingCount(place: seq<nat>, acked: set<nat>, dead: set<nat>)
    requires NoDup(place) && forall i :: i in acked ==> i < |place|
    ensures |Living(place, acked, dead)| + |dead| >= |acked|
  {
    var living := Living(place, acked, dead);
    PlacedOnFew(place, dead, |place|);
    forall i | i in acked - living
      ensures i in PlacedOn(place, dead, |place|)
    {
      PlacedOnIs(place, dead, |place|, i);
    }
    SubsetSize(acked - living, PlacedOn(place, dead, |place|));
    assert acked == living + (acked - living);
  }

  /** None of them is lost. */
  lemma {:induction false} LivingSafe(cfg: Config, events: seq<Event>, w: nat, dead: set<nat>)
    requires w in Run(cfg, events).writes && LosesOnly(cfg, events, w, dead)
    ensures var write := Run(cfg, events).writes[w];
            Living(cfg.place(write.chunk), write.acked, dead) <= Safe(write)
  {
    LostOnDead(cfg, events, w, dead);
  }

  /** Any answer from another node brings crypto fields. */
  lemma {:induction false} PeerBringsCrypto(cfg: Config, reader: Reader, chunk: nat, fetches: seq<Fetch>, i: nat)
    requires i in Answering(cfg, reader.at, chunk, fetches) && OncePerIndex(fetches)
    requires i < |cfg.place(chunk)| && !reader.at.IsSelf(cfg.place(chunk)[i])
    ensures FirstCrypto(cfg, reader, chunk, fetches).Some?
  {
    var n := |fetches| - 1;
    AnsweringStep(cfg, reader.at, chunk, fetches);
    if fetches[n].index != i {
      PeerBringsCrypto(cfg, reader, chunk, fetches[..n], i);
    }
  }

  /** A set of two or more indices has one that is not on the reader's own node. */
  lemma {:induction false} SomePeer(cfg: Config, reader: Reader, chunk: nat, have: set<nat>) returns (i: nat)
    requires |have| >= 2 && NoDup(cfg.place(chunk)) && forall i :: i in have ==> i < |cfg.place(chunk)|
    ensures i in have && !reader.at.IsSelf(cfg.place(chunk)[i])
  {
    var a :| a in have;
    var rest := have - {a};
    assert |rest| >= 1;
    var b :| b in rest;
    i := if reader.at.IsSelf(cfg.place(chunk)[a]) then b else a;
  }

  /** With rendezvous placement, a write that returned Ok survives the loss of any |acked| - k whole nodes, at any time
      and in any order since it began: a reader that reaches the other placement nodes, with fetches served at any
      later moments, gets exactly the written ciphertext. Crypto fields come from a peer when k is at least two,
      and otherwise from the reader's registry. */
  lemma {:induction false} SurvivesNodeLoss(cfg: Config, score: nat -> nat -> nat, nodes: seq<nat>,
                                            events: seq<Event>, t0: nat, w: nat,
                                            dead: set<nat>, reader: Reader, order: seq<nat>, times: seq<nat>)
    requires Configured(cfg) && Rendezvous(cfg, score, nodes) && NoDup(order) && Timed(events, order, times)
    requires t0 <= |events| && forall n :: 0 <= n < |times| ==> t0 <= times[n]
    requires w in Run(cfg, events[..t0]).writes && Run(cfg, events[..t0]).writes[w].status.Succeeded?
    requires LosesOnly(cfg, events, w, dead) && |dead| + cfg.k <= |Run(cfg, events[..t0]).writes[w].acked|
    requires var place := cfg.place(Run(cfg, events[..t0]).writes[w].chunk);
             forall i: nat :: i < |place| && place[i] !in dead ==>
               i in order && (reader.at.IsSelf(place[i]) || place[i] in reader.at.peers)
    requires cfg.k >= 2 || reader.registry.Some?
    ensures var s := Run(cfg, events);
            && w in s.writes && s.writes[w].chunk in s.content
            && var chunk := s.writes[w].chunk;
               var r := ReadEc(cfg, reader, chunk, FetchesAt(cfg, events, order, times), Some(|s.content[chunk]|));
               r.Ok? && r.value.bytes == s.content[chunk]
  {
    RunGrows(cfg, events, t0);
    var write := Run(cfg, events).writes[w];
    var have := Living(cfg.place(write.chunk), write.acked, dead);
    Placement.PlacementShape(score(write.chunk), nodes, cfg.Total());
    DurableWrite(cfg, events, w);
    LivingCount(cfg.place(write.chunk), write.acked, dead);
    LivingSafe(cfg, events, w, dead);
    SafeAnswers(cfg, events, t0, w, have, reader, order, times);
    if reader.registry.None? {
      var i := SomePeer(cfg, reader, write.chunk, have);
      RunOnce(cfg, events, order, times);
      PeerBringsCrypto(cfg, reader, write.chunk, FetchesAt(cfg, events, order, times), i);
    }
    DurableRead(cfg, events, t0, w, have, reader, order, times);
  }
}
