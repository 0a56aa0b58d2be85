/** Losses against scrubbing: how long a chunk stays readable when both go on, over crates/kiseki-chunk-cluster/src/lib.rs
    and crates/kiseki-chunk-cluster/src/scrub.rs. */
module Upkeep {
  import opened Base
  import opened Repair
  import opened Cluster
  import opened ClusterRead
  import opened Durability
  import Scrub

  /* ---------------------------------------------------------------- fragments present */

  /** The fragment indices of a chunk that sit on their placement nodes. */
  function Present(cfg: Config, stores: Stores, chunk: nat): set<nat> {
    set i: nat | i < |cfg.place(chunk)| && SlotAt(cfg, chunk, i) in stores
  }

  /** The ones among them that a loss takes away. */
  function Hit(cfg: Config, stores: Stores, chunk: nat, slots: set<Slot>): set<nat> {
    set i: nat | i < |cfg.place(chunk)| && SlotAt(cfg, chunk, i) in stores && SlotAt(cfg, chunk, i) in slots
  }

  lemma {:induction false} PresentMore(cfg: Config, stores: Stores, more: Stores, chunk: nat)
    requires stores.Keys <= more.Keys
    ensures |Present(cfg, stores, chunk)| <= |Present(cfg, more, chunk)|
  {
    SubsetSize(Present(cfg, stores, chunk), Present(cfg, more, chunk));
  }

  lemma {:induction false} PresentLess(cfg: Config, stores: Stores, chunk: nat, slots: set<Slot>)
    ensures |Present(cfg, stores - slots, chunk)| + |Hit(cfg, stores, chunk, slots)| == |Present(cfg, stores, chunk)|
  {
    var left, hit := Present(cfg, stores - slots, chunk), Hit(cfg, stores, chunk, slots);
    assert left !! hit && left + hit == Present(cfg, stores, chunk);
  }

  /** No event but a loss takes anything away. */
  lemma {:induction false} StepGrows(cfg: Config, s: State, e: Event, chunk: nat)
    requires Configured(cfg) && BytesOk(cfg, s) && !e.Lose?
    ensures |Present(cfg, s.stores, chunk)| <= |Present(cfg, Apply(cfg, s, e).stores, chunk)|
  {
    KeysGrow(cfg, s, e);
    PresentMore(cfg, s.stores, Apply(cfg, s, e).stores, chunk);
  }

  lemma {:induction false} KeysGrow(cfg: Config, s: State, e: Event)
    requires Configured(cfg) && BytesOk(cfg, s) && !e.Lose?
    ensures s.stores.Keys <= Apply(cfg, s, e).stores.Keys
  {
    match e
    case Begin(at, w, chunk, ciphertext, localOk) => StartedKeys(cfg, s, at, w, chunk, ciphertext, localOk);
    case Land(_, _) =>
    case Complete(_, _, _) =>
    case ScrubRun(policy, oracle, net, rows) =>
      if forall j :: 0 <= j < |rows| ==> Scrub.TrueRow(s.content, rows[j]) {
        ScrubKeeps(cfg, s, policy, oracle, net, rows);
      }
  }

  lemma {:induction false} StartedKeys(cfg: Config, s: State, at: Node, w: nat, chunk: nat, ciphertext: Bytes,
                                       localOk: set<nat>)
    ensures s.stores.Keys <= Started(cfg, s, at, w, chunk, ciphertext, localOk).stores.Keys
  {
  }

  /* ---------------------------------------------------------------- a calm pass */

  predicate RowFor(cfg: Config, chunk: nat, row: Scrub.Candidate) {
    row.chunk == chunk && row.placement == cfg.place(chunk)
  }

  /** A scrub pass that visits the chunk with a truthful oracle while peer calls go through, under a policy that asks for
      at least `goal` fragments. */
  ghost predicate CalmPass(cfg: Config, s: State, chunk: nat, goal: nat, e: Event) {
    && e.ScrubRun? && Scrub.Truthful(e.oracle) && Scrub.Calm(e.net) && Scrub.Table(s.content, cfg.Total(), e.rows)
    && (exists j :: 0 <= j < |e.rows| && RowFor(cfg, chunk, e.rows[j]))
    && goal <= Scrub.Goal(e.policy, cfg.Total())
  }

  lemma {:induction false} SameCount(cfg: Config, stores: Stores, chunk: nat, row: Scrub.Candidate)
    requires RowFor(cfg, chunk, row)
    ensures Scrub.Have(stores, row) == |Present(cfg, stores, chunk)|
  {
    assert Scrub.PresentIndices(stores, row) == Present(cfg, stores, chunk);
  }

  lemma {:induction false} PassCountsHere(cfg: Config, s: State, policy: Scrub.Policy,
                                          oracle: (Stores, Scrub.Candidate) -> seq<bool>,
                                          net: Net, rows: seq<Scrub.Candidate>, j: nat)
    requires Configured(cfg) && BytesOk(cfg, s) && Scrub.Truthful(oracle) && Scrub.Calm(net)
    requires Scrub.Table(s.content, cfg.Total(), rows) && j < |rows|
    ensures Scrub.Have(Scrub.ScrubPass(Scrubber(cfg, policy, oracle, net), s.stores, rows).0, rows[j]) ==
            Scrub.NextCount(Scrub.Have(s.stores, rows[j]), cfg.k, Scrub.Goal(policy, cfg.Total()))
  {
    var env := Scrubber(cfg, policy, oracle, net);
    Scrub.FabricSetting(env, cfg.code, cfg.k, cfg.m, s.content, net);
    Scrub.PassCounts(env, cfg.code, cfg.k, cfg.m, s.content, s.stores, rows, j);
  }

  /** It restores one fragment, from k up to the goal. */
  lemma {:induction false} CalmGains(cfg: Config, s: State, chunk: nat, goal: nat, e: Event)
    requires Configured(cfg) && BytesOk(cfg, s) && CalmPass(cfg, s, chunk, goal, e) && cfg.k <= |Present(cfg, s.stores, chunk)|
    ensures |Present(cfg, Apply(cfg, s, e).stores, chunk)| >= Min(|Present(cfg, s.stores, chunk)| + 1, goal)
  {
    var j :| 0 <= j < |e.rows| && RowFor(cfg, chunk, e.rows[j]);
    PassCountsHere(cfg, s, e.policy, e.oracle, e.net, e.rows, j);
    SameCount(cfg, s.stores, chunk, e.rows[j]);
    SameCount(cfg, Apply(cfg, s, e).stores, chunk, e.rows[j]);
  }

  /* ---------------------------------------------------------------- losses against passes */

  /** How far behind its goal a chunk may be after an event: a loss adds what it takes, a calm pass takes one off. */
  ghost function Behind(cfg: Config, s: State, e: Event, chunk: nat, goal: nat, d: nat): nat {
    if e.Lose? then d + |Hit(cfg, s.stores, chunk, e.slots)|
    else if CalmPass(cfg, s, chunk, goal, e) then SaturatingSub(d, 1)
    else d
  }

  /** The number of fragments present after the first u events of a run. */
  ghost function Counts(cfg: Config, events: seq<Event>, chunk: nat): nat -> nat {
    (u: nat) => if u <= |events| then |Present(cfg, Run(cfg, events[..u]).stores, chunk)| else 0
  }

  /** What the u-th event makes of a deficit. */
  ghost function Tolls(cfg: Config, events: seq<Event>, chunk: nat, goal: nat): (nat, nat) -> nat {
    (u: nat, d: nat) => if u < |events| then Behind(cfg, Run(cfg, events[..u]), events[u], chunk, goal, d) else d
  }

  /** The deficit at time t, from d0 at t0. */
  ghost function Deficit(tolls: (nat, nat) -> nat, t0: nat, d0: nat, t: nat): nat
    requires t0 <= t
  {
    if t == t0 then d0 else tolls(t - 1, Deficit(tolls, t0, d0, t - 1))
  }

  /** Losses were never further ahead of calm passes than goal - k. */
  ghost predicate Bearable(tolls: (nat, nat) -> nat, k: nat, goal: nat, t0: nat, d0: nat, t: nat)
    requires t0 <= t
  {
    forall u :: t0 <= u <= t ==> Deficit(tolls, t0, d0, u) + k <= goal
  }

  /** At every step the count and the deficit together stay at the goal, while at least k are left. */
  ghost predicate Balanced(counts: nat -> nat, tolls: (nat, nat) -> nat, k: nat, goal: nat, t0: nat, t: nat) {
    forall u: nat, d: nat :: t0 <= u < t && d + k <= goal <= counts(u) + d ==> goal <= counts(u + 1) + tolls(u, d)
  }

  /** A count that a bearable deficit makes up for at every step is never below k. */
  lemma {:induction false} NeverBelow(counts: nat -> nat, tolls: (nat, nat) -> nat, k: nat, goal: nat, t0: nat,
                                      d0: nat, t: nat)
    requires t0 <= t && Bearable(tolls, k, goal, t0, d0, t) && goal <= counts(t0) + d0
    requires Balanced(counts, tolls, k, goal, t0, t)
    ensures goal <= counts(t) + Deficit(tolls, t0, d0, t) && k <= counts(t)
  {
    assert Deficit(tolls, t0, d0, t) + k <= goal;
    if t > t0 {
      NeverBelow(counts, tolls, k, goal, t0, d0, t - 1);
      assert Deficit(tolls, t0, d0, t - 1) + k <= goal;
    }
  }

  lemma {:induction false} BehindHolds(cfg: Config, s: State, e: Event, chunk: nat, goal: nat, d: nat)
    requires Configured(cfg) && BytesOk(cfg, s)
    requires d + cfg.k <= goal <= |Present(cfg, s.stores, chunk)| + d
    ensures goal <= |Present(cfg, Apply(cfg, s, e).stores, chunk)| + Behind(cfg, s, e, chunk, goal, d)
  {
    if e.Lose? {
      PresentLess(cfg, s.stores, chunk, e.slots);
    } else {
      StepGrows(cfg, s, e, chunk);
      if CalmPass(cfg, s, chunk, goal, e) {
        CalmGains(cfg, s, chunk, goal, e);
      }
    }
  }

  lemma {:induction false} RunNext(cfg: Config, events: seq<Event>, t: nat)
    requires 0 < t <= |events|
    ensures Run(cfg, events[..t]) == Apply(cfg, Run(cfg, events[..t - 1]), events[t - 1])
  {
    TakeTake(events, t - 1, t);
  }

  lemma {:induction false} NextHolds(cfg: Config, events: seq<Event>, chunk: nat, goal: nat, d: nat, t: nat)
    requires Configured(cfg) && 0 < t <= |events|
    requires d + cfg.k <= goal <= |Present(cfg, Run(cfg, events[..t - 1]).stores, chunk)| + d
    ensures goal <= |Present(cfg, Run(cfg, events[..t]).stores, chunk)|
                    + Behind(cfg, Run(cfg, events[..t - 1]), events[t - 1], chunk, goal, d)
  {
    var s := Run(cfg, events[..t - 1]);
    assert BytesOk(cfg, s) by { RunInv(cfg, events[..t - 1]); }
    RunNext(cfg, events, t);
    BehindHolds(cfg, s, events[t - 1], chunk, goal, d);
  }

  lemma {:induction false} TollHolds(cfg: Config, events: seq<Event>, chunk: nat, goal: nat, u: nat, d: nat)
    requires Configured(cfg) && u < |events| && d + cfg.k <= goal <= Counts(cfg, events, chunk)(u) + d
    ensures goal <= Counts(cfg, events, chunk)(u + 1) + Tolls(cfg, events, chunk, goal)(u, d)
  {
    NextHolds(cfg, events, chunk, goal, d, u + 1);
  }

  lemma {:induction false} RunBalanced(cfg: Config, events: seq<Event>, chunk: nat, goal: nat, t0: nat)
    requires Configured(cfg)
    ensures Balanced(Counts(cfg, events, chunk), Tolls(cfg, events, chunk, goal), cfg.k, goal, t0, |events|)
  {
    var counts, tolls := Counts(cfg, events, chunk), Tolls(cfg, events, chunk, goal);
    forall u: nat, d: nat | t0 <= u < |events| && d + cfg.k <= goal <= counts(u) + d
      ensures goal <= counts(u + 1) + tolls(u, d)
    {
      TollHolds(cfg, events, chunk, goal, u, d);
    }
  }

  /** Over every run with bearable losses the chunk never has fewer than goal - deficit fragments, and so never fewer than
      k, however many are lost in total. */
  lemma {:induction false} KeepsUp(cfg: Config, events: seq<Event>, chunk: nat, goal: nat, t0: nat, d0: nat, t: nat)
    requires Configured(cfg) && t0 <= t <= |events|
    requires Bearable(Tolls(cfg, events, chunk, goal), cfg.k, goal, t0, d0, t) && goal <= Counts(cfg, events, chunk)(t0) + d0
    ensures goal <= Counts(cfg, events, chunk)(t) + Deficit(Tolls(cfg, events, chunk, goal), t0, d0, t)
    ensures cfg.k <= Counts(cfg, events, chunk)(t)
  {
    RunBalanced(cfg, events, chunk, goal, t0);
    NeverBelow(Counts(cfg, events, chunk), Tolls(cfg, events, chunk, goal), cfg.k, goal, t0, d0, t);
  }

  /* ---------------------------------------------------------------- from an acknowledged write on */

  /** What a write that returned Ok starts with. */
  lemma {:induction false} StartsWith(cfg: Config, events: seq<Event>, w: nat)
    requires Configured(cfg) && w in Run(cfg, events).writes
    ensures var s := Run(cfg, events);
            |Safe(s.writes[w])| <= |Present(cfg, s.stores, s.writes[w].chunk)|
  {
    var s := Run(cfg, events);
    DurableWrite(cfg, events, w);
    SubsetSize(Safe(s.writes[w]), Present(cfg, s.stores, s.writes[w].chunk));
  }

  function Now(order: seq<nat>, t: nat): (times: seq<nat>)
    ensures |times| == |order| && forall n :: 0 <= n < |times| ==> times[n] == t
  {
    seq(|order|, _ => t)
  }

  /** A reader that asks every placement node hears from every fragment that is there. */
  lemma {:induction false} AllAnswer(cfg: Config, events: seq<Event>, reader: Reader, chunk: nat, order: seq<nat>)
    requires forall i: nat :: i < |cfg.place(chunk)| ==> i in order && Reaches(cfg, reader, chunk, i)
    ensures Present(cfg, Run(cfg, events).stores, chunk) <=
            Answering(cfg, reader.at, chunk, FetchesAt(cfg, events, order, Now(order, |events|)))
  {
    var fetches := FetchesAt(cfg, events, order, Now(order, |events|));
    TakeAll(events);
    forall i | i in Present(cfg, Run(cfg, events).stores, chunk)
      ensures i in Answering(cfg, reader.at, chunk, fetches)
    {
      assert Reaches(cfg, reader, chunk, i);
      var n :| 0 <= n < |order| && order[n] == i;
      assert fetches[n] == Fetch(i, Run(cfg, events).stores);
    }
  }

  /** Such a reader gets the ciphertext when k fragments are there and crypto fields are found. */
  lemma {:induction false} ReadsAll(cfg: Config, events: seq<Event>, reader: Reader, chunk: nat, order: seq<nat>)
    requires Configured(cfg) && NoDup(order) && chunk in Run(cfg, events).content
    requires cfg.k <= |Present(cfg, Run(cfg, events).stores, chunk)|
    requires forall i: nat :: i < |cfg.place(chunk)| ==> i in order && Reaches(cfg, reader, chunk, i)
    requires CryptoFound(cfg, reader, chunk, FetchesAt(cfg, events, order, Now(order, |events|))).Some?
    ensures var content := Run(cfg, events).content;
            var r := ReadEc(cfg, reader, chunk, FetchesAt(cfg, events, order, Now(order, |events|)), Some(|content[chunk]|));
            r.Ok? && r.value.bytes == content[chunk]
  {
    AllAnswer(cfg, events, reader, chunk, order);
    SubsetSize(Present(cfg, Run(cfg, events).stores, chunk),
               Answering(cfg, reader.at, chunk, FetchesAt(cfg, events, order, Now(order, |events|))));
    ReadExact(cfg, events, reader, chunk, order, Now(order, |events|));
  }

  /** What a write was short of the goal when it returned. */
  function Short(goal: nat, w: Write): nat { SaturatingSub(goal, |Safe(w)|) }

  lemma {:induction false} StillThere(cfg: Config, events: seq<Event>, t0: nat, w: nat, goal: nat)
    requires Configured(cfg) && t0 <= |events| && w in Run(cfg, events[..t0]).writes
    requires var write := Run(cfg, events[..t0]).writes[w];
             Bearable(Tolls(cfg, events, write.chunk, goal), cfg.k, goal, t0, Short(goal, write), |events|)
    ensures var chunk := Run(cfg, events[..t0]).writes[w].chunk;
            chunk in Run(cfg, events).content && cfg.k <= |Present(cfg, Run(cfg, events).stores, chunk)|
  {
    var write := Run(cfg, events[..t0]).writes[w];
    StartsWith(cfg, events[..t0], w);
    KeepsUp(cfg, events, write.chunk, goal, t0, Short(goal, write), |events|);
    TakeAll(events);
    DurableWrite(cfg, events[..t0], w);
    RunGrows(cfg, events, t0);
  }

  /** So once a write has returned, the chunk is read back exactly, at any later moment and after any number of losses, as
      long as losses never got further ahead of calm passes than goal - k, counting what the write was short of the
      goal when it returned. */
  lemma {:induction false} ReadableForGood(cfg: Config, events: seq<Event>, t0: nat, w: nat, goal: nat,
                                           reader: Reader, order: seq<nat>)
    requires Configured(cfg) && t0 <= |events| && NoDup(order) && w in Run(cfg, events[..t0]).writes
    requires var write := Run(cfg, events[..t0]).writes[w];
             && Bearable(Tolls(cfg, events, write.chunk, goal), cfg.k, goal, t0, Short(goal, write), |events|)
             && (forall i: nat :: i < |cfg.place(write.chunk)| ==> i in order && Reaches(cfg, reader, write.chunk, i))
             && CryptoFound(cfg, reader, write.chunk, FetchesAt(cfg, events, order, Now(order, |events|))).Some?
    ensures var chunk, content := Run(cfg, events[..t0]).writes[w].chunk, Run(cfg, events).content;
            && chunk in content
            && var r := ReadEc(cfg, reader, chunk, FetchesAt(cfg, events, order, Now(order, |events|)), Some(|content[chunk]|));
               r.Ok? && r.value.bytes == content[chunk]
  {
    StillThere(cfg, events, t0, w, goal);
    ReadsAll(cfg, events, reader, Run(cfg, events[..t0]).writes[w].chunk, order);
  }
}
