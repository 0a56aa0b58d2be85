/** The under-replication scrub: crates/kiseki-chunk-cluster/src/scrub.rs. */
module Scrub {
  import opened Base
  import opened Erasure
  import opened Routing
  import opened Repair

  datatype Decision = Healthy | Repair | Critical | Lost

  datatype Policy = Policy(targetCopies: nat, minAcks: nat)

  /** One row of the chunk table: the chunk, the node of each fragment index, the ciphertext length. */
  datatype Candidate = Candidate(chunk: nat, placement: seq<nat>, len: nat)

  datatype Report = Report(scanned: nat, healthy: nat, repaired: nat, critical: nat, lost: nat, repairErrors: nat)

  function CountTrue(s: seq<bool>): nat {
    if s == [] then 0 else CountTrue(s[..|s| - 1]) + if s[|s| - 1] then 1 else 0
  }

  function Evaluate(policy: Policy, present: seq<bool>): Decision {
    var healthy := CountTrue(present);
    if healthy == 0 then Lost
    else if healthy < policy.minAcks then Critical
    else if healthy < policy.targetCopies && healthy < |present| then Repair
    else Healthy
  }

  /* ---------------------------------------------------------------- one candidate */

  /** The (node, index) pairs reported present among the first n placement entries. */
  function HealthyPairs(placement: seq<nat>, presence: seq<bool>, n: nat): seq<(nat, nat)>
    requires n <= |placement| && n <= |presence|
  {
    if n == 0 then []
    else HealthyPairs(placement, presence, n - 1) + if presence[n - 1] then [(placement[n - 1], n - 1)] else []
  }

  /** The first (node, index) pair reported absent, from index n on. */
  function FirstMissing(placement: seq<nat>, presence: seq<bool>, n: nat): Option<(nat, nat)>
    requires n <= |placement| && n <= |presence|
    decreases |placement| - n
  {
    if n == |placement| || n == |presence| then None
    else if !presence[n] then Some((placement[n], n))
    else FirstMissing(placement, presence, n + 1)
  }

  datatype Outcome = WasHealthy | WasLost | WasRepaired(critical: bool) | RepairFailed

  /** A repairer: from the stores, a chunk, its (node, index) sources, the missing pair and the length, new stores. */
  type Repairer = (Stores, nat, seq<(nat, nat)>, (nat, nat), nat) -> Result<Stores, RepairError>

  /** The repairer over the chunk fabric. */
  function Fabric(code: Code, strategy: EcStrategy, net: Net): Repairer {
    (stores: Stores, chunk: nat, healthy: seq<(nat, nat)>, missing: (nat, nat), len: nat) =>
      Repaired(code, strategy, stores, net, chunk, healthy, missing, len)
  }

  /** The copy of the replication strategy: from the stores, a chunk, a source and a destination node, new stores. */
  type Copier = (Stores, nat, nat, nat) -> Result<Stores, RepairError>

  /** Copying from the first node that has the chunk, as a repairer. */
  function Copying(copy: Copier): Repairer {
    (stores: Stores, chunk: nat, healthy: seq<(nat, nat)>, missing: (nat, nat), len: nat) =>
      if healthy == [] then Err(TooFewPeers(1, 0)) else copy(stores, chunk, healthy[0].0, missing.0)
  }

  /** A pass's collaborators: the policy, the presence oracle and the repairer. */
  datatype Env = Env(policy: Policy, oracle: (Stores, Candidate) -> seq<bool>, repair: Repairer)

  function ScrubOne(env: Env, stores: Stores, c: Candidate): (Stores, Outcome) {
    var presence := env.oracle(stores, c);
    var n := Min(|c.placement|, |presence|);
    match Evaluate(env.policy, presence)
    case Healthy => (stores, WasHealthy)
    case Lost => (stores, WasLost)
    case _ =>
      var healthy := HealthyPairs(c.placement, presence, n);
      var missing := FirstMissing(c.placement, presence, 0);
      if healthy == [] || missing.None? then (stores, WasLost)
      else match env.repair(stores, c.chunk, healthy, missing.value, c.len)
        case Ok(after) => (after, WasRepaired(Evaluate(env.policy, presence).Critical?))
        case Err(_) => (stores, RepairFailed)
  }

  method SplitByPresence(placement: seq<nat>, presence: seq<bool>)
    returns (healthy: seq<(nat, nat)>, missing: Option<(nat, nat)>)
    ensures healthy == HealthyPairs(placement, presence, Min(|placement|, |presence|))
    ensures missing == FirstMissing(placement, presence, 0)
  {
    healthy, missing := [], None;
    for n := 0 to Min(|placement|, |presence|)
      invariant healthy == HealthyPairs(placement, presence, n)
      invariant FirstMissing(placement, presence, 0) ==
                if missing.Some? then missing else FirstMissing(placement, presence, n)
    {
      if presence[n] {
        healthy := healthy + [(placement[n], n)];
      } else if missing.None? {
        missing := Some((placement[n], n));
      }
    }
  }

  /* ---------------------------------------------------------------- a whole pass */

  const EmptyReport := Report(0, 0, 0, 0, 0, 0)

  function Counted(r: Report, o: Outcome): Report {
    var s := r.(scanned := r.scanned + 1);
    match o
    case WasHealthy => s.(healthy := r.healthy + 1)
    case WasLost => s.(lost := r.lost + 1)
    case WasRepaired(critical) => s.(repaired := r.repaired + 1, critical := r.critical + if critical then 1 else 0)
    case RepairFailed => s.(repairErrors := r.repairErrors + 1)
  }

  function ScrubPass(env: Env, stores: Stores, candidates: seq<Candidate>): (Stores, Report) {
    if candidates == [] then (stores, EmptyReport)
    else
      var (before, report) := ScrubPass(env, stores, candidates[..|candidates| - 1]);
      var (after, outcome) := ScrubOne(env, before, candidates[|candidates| - 1]);
      (after, Counted(report, outcome))
  }

  method Visit(env: Env, stores: Stores, c: Candidate) returns (after: Stores, outcome: Outcome)
    ensures (after, outcome) == ScrubOne(env, stores, c)
  {
    var presence := env.oracle(stores, c);
    match Evaluate(env.policy, presence)
    case Healthy => return stores, WasHealthy;
    case Lost => return stores, WasLost;
    case decision =>
      var healthy, missing := SplitByPresence(c.placement, presence);
      if healthy == [] || missing.None? {
        return stores, WasLost;
      }
      match env.repair(stores, c.chunk, healthy, missing.value, c.len)
      case Ok(value) => return value, WasRepaired(decision.Critical?);
      case Err(_) => return stores, RepairFailed;
  }

  predicate TiesOut(r: Report, n: nat) {
    r.scanned == n == r.healthy + r.lost + r.repaired + r.repairErrors && r.critical <= r.repaired
  }

  lemma {:induction false} CountedTiesOut(r: Report, o: Outcome, n: nat)
    requires TiesOut(r, n)
    ensures TiesOut(Counted(r, o), n + 1)
  {
  }

  lemma {:induction false} PassNext(env: Env, stores: Stores, candidates: seq<Candidate>, n: nat)
    requires n < |candidates|
    ensures var (before, report) := ScrubPass(env, stores, candidates[..n]);
            var (after, outcome) := ScrubOne(env, before, candidates[n]);
            ScrubPass(env, stores, candidates[..n + 1]) == (after, Counted(report, outcome))
  {
    TakeTake(candidates, n, n + 1);
  }

  method RunCoded(env: Env, stores: Stores, candidates: seq<Candidate>) returns (after: Stores, report: Report)
    ensures (after, report) == ScrubPass(env, stores, candidates) && TiesOut(report, |candidates|)
  {
    after, report := stores, EmptyReport;
    for n := 0 to |candidates|
      invariant (after, report) == ScrubPass(env, stores, candidates[..n]) && TiesOut(report, n)
    {
      PassNext(env, stores, candidates, n);
      var outcome: Outcome;
      after, outcome := Visit(env, after, candidates[n]);
      CountedTiesOut(report, outcome, n);
      report := Counted(report, outcome);
    }
    TakeAll(candidates);
  }

  /** The nodes that have the chunk and those that do not, in placement order. */
  method PeersByPresence(placement: seq<nat>, presence: seq<bool>) returns (healthy: seq<nat>, missing: seq<nat>)
    ensures var pairs := HealthyPairs(placement, presence, Min(|placement|, |presence|));
            |healthy| == |pairs| && forall i :: 0 <= i < |pairs| ==> healthy[i] == pairs[i].0
    ensures var first := FirstMissing(placement, presence, 0);
            if missing == [] then first.None? else first.Some? && first.value.0 == missing[0]
  {
    healthy, missing := [], [];
    for n := 0 to Min(|placement|, |presence|)
      invariant var pairs := HealthyPairs(placement, presence, n);
                |healthy| == |pairs| && forall i :: 0 <= i < |pairs| ==> healthy[i] == pairs[i].0
      invariant var first := FirstMissing(placement, presence, 0);
                if missing == [] then first == FirstMissing(placement, presence, n)
                else first.Some? && first.value.0 == missing[0]
    {
      HealthyNext(placement, presence, n);
      if presence[n] {
        healthy := healthy + [placement[n]];
      } else {
        missing := missing + [placement[n]];
      }
    }
  }

  method VisitCopy(env: Env, copy: Copier, stores: Stores, c: Candidate) returns (after: Stores, outcome: Outcome)
    requires env.repair == Copying(copy)
    ensures (after, outcome) == ScrubOne(env, stores, c)
  {
    var presence := env.oracle(stores, c);
    match Evaluate(env.policy, presence)
    case Healthy => return stores, WasHealthy;
    case Lost => return stores, WasLost;
    case decision =>
      var healthy, missing := PeersByPresence(c.placement, presence);
      if healthy == [] || missing == [] {
        return stores, WasLost;
      }
      match copy(stores, c.chunk, healthy[0], missing[0])
      case Ok(value) => return value, WasRepaired(decision.Critical?);
      case Err(_) => return stores, RepairFailed;
  }

  /** The replication pass. */
  method RunReplicated(env: Env, copy: Copier, stores: Stores, candidates: seq<Candidate>)
    returns (after: Stores, report: Report)
    requires env.repair == Copying(copy)
    ensures (after, report) == ScrubPass(env, stores, candidates) && TiesOut(report, |candidates|)
  {
    after, report := stores, EmptyReport;
    for n := 0 to |candidates|
      invariant (after, report) == ScrubPass(env, stores, candidates[..n]) && TiesOut(report, n)
    {
      PassNext(env, stores, candidates, n);
      var outcome: Outcome;
      after, outcome := VisitCopy(env, copy, after, candidates[n]);
      CountedTiesOut(report, outcome, n);
      report := Counted(report, outcome);
    }
    TakeAll(candidates);
  }

  /** The repairer a pass works with: that of its strategy, or copying when it has none. */
  function RepairerFor(strategy: Option<EcStrategy>, coded: EcStrategy -> Repairer, copy: Copier): Repairer {
    if strategy.None? then Copying(copy) else coded(strategy.value)
  }

  /** One pass: every candidate is counted once, and the counts tie out for any oracle, any repairer and any faults. */
  method RunEc(policy: Policy, oracle: (Stores, Candidate) -> seq<bool>, strategy: Option<EcStrategy>,
               coded: EcStrategy -> Repairer, copy: Copier, stores: Stores, candidates: seq<Candidate>)
    returns (after: Stores, report: Report)
    ensures (after, report) == ScrubPass(Env(policy, oracle, RepairerFor(strategy, coded, copy)), stores, candidates)
    ensures report.scanned == |candidates|
    ensures report.scanned == report.healthy + report.lost + report.repaired + report.repairErrors
    ensures report.critical <= report.repaired
  {
    if strategy.None? {
      after, report := RunReplicated(Env(policy, oracle, Copying(copy)), copy, stores, candidates);
    } else {
      after, report := RunCoded(Env(policy, oracle, coded(strategy.value)), stores, candidates);
    }
  }

  /* ---------------------------------------------------------------- safety, for any oracle and any faults */

  /** The candidate's row is true: its chunk exists and its length is the ciphertext's. */
  predicate TrueRow(content: map<nat, Bytes>, c: Candidate) {
    c.chunk in content && c.len == |content[c.chunk]|
  }

  /** A repairer that adds at most genuine fragments. */
  ghost predicate Mends(repair: Repairer, code: Code, k: nat, m: nat, content: map<nat, Bytes>)
    requires k > 0
  {
    forall stores, chunk, healthy, missing, len ::
      Sound(code, k, m, content, stores) && chunk in content && len == |content[chunk]| ==>
        var r := repair(stores, chunk, healthy, missing, len);
        r.Ok? ==> Sound(code, k, m, content, r.value) && stores.Keys <= r.value.Keys
  }

  /** The repairer over the fabric is one, whatever peer calls fail. */
  lemma {:induction false} FabricMends(code: Code, k: nat, m: nat, content: map<nat, Bytes>, net: Net)
    requires Lawful(code, k, m, content)
    ensures Mends(Fabric(code, Ec(k, m), net), code, k, m, content)
  {
    forall stores, chunk, healthy, missing, len |
      Sound(code, k, m, content, stores) && chunk in content && len == |content[chunk]|
      ensures var r := Fabric(code, Ec(k, m), net)(stores, chunk, healthy, missing, len);
              r.Ok? ==> Sound(code, k, m, content, r.value) && stores.Keys <= r.value.Keys
    {
      RepairSound(code, k, m, content, stores, net, chunk, healthy, missing);
    }
  }

  lemma {:induction false} ScrubOneSound(env: Env, code: Code, k: nat, m: nat, content: map<nat, Bytes>,
                                         stores: Stores, c: Candidate)
    requires k > 0 && Mends(env.repair, code, k, m, content) && TrueRow(content, c) && Sound(code, k, m, content, stores)
    ensures Sound(code, k, m, content, ScrubOne(env, stores, c).0)
    ensures stores.Keys <= ScrubOne(env, stores, c).0.Keys
  {
  }

  /** A pass never damages a fragment, even when the oracle lies or peers fail. */
  lemma {:induction false} ScrubPassSound(env: Env, code: Code, k: nat, m: nat, content: map<nat, Bytes>,
                                          stores: Stores, candidates: seq<Candidate>)
    requires k > 0 && Mends(env.repair, code, k, m, content) && Sound(code, k, m, content, stores)
    requires forall j :: 0 <= j < |candidates| ==> TrueRow(content, candidates[j])
    ensures Sound(code, k, m, content, ScrubPass(env, stores, candidates).0)
    ensures forall s :: s in stores ==>
              s in ScrubPass(env, stores, candidates).0 && ScrubPass(env, stores, candidates).0[s] == stores[s]
  {
    if candidates != [] {
      var n := |candidates| - 1;
      ScrubPassSound(env, code, k, m, content, stores, candidates[..n]);
      ScrubOneSound(env, code, k, m, content, ScrubPass(env, stores, candidates[..n]).0, candidates[n]);
    }
  }

  /* ---------------------------------------------------------------- progress, with a truthful oracle */

  predicate Holds(stores: Stores, c: Candidate, i: nat)
    requires i < |c.placement|
  {
    Slot(c.placement[i], c.chunk, i) in stores
  }

  /** The fragment indices of a candidate that sit on their placement nodes. */
  function PresentIndices(stores: Stores, c: Candidate): set<nat> {
    set i: nat | i < |c.placement| && Holds(stores, c, i)
  }

  function Have(stores: Stores, c: Candidate): nat { |PresentIndices(stores, c)| }

  function TruePresence(stores: Stores, c: Candidate): seq<bool> {
    seq(|c.placement|, i requires 0 <= i < |c.placement| => Holds(stores, c, i))
  }

  /** The oracle reports what the nodes hold. */
  ghost predicate Truthful(oracle: (Stores, Candidate) -> seq<bool>) { forall s, c :: oracle(s, c) == TruePresence(s,
                           c) }

  /** Every peer call goes through. */
  ghost predicate Calm(net: Net) { forall c, n :: net.fetches(c, n) && net.puts(c, n) }

  function PresentBelow(stores: Stores, c: Candidate, n: nat): set<nat>
    requires n <= |c.placement|
  {
    set i: nat | i < n && Holds(stores, c, i)
  }

  lemma {:induction false} PresentStep(stores: Stores, c: Candidate, n: nat)
    requires 0 < n <= |c.placement|
    ensures PresentBelow(stores, c, n) ==
            PresentBelow(stores, c, n - 1) + if Holds(stores, c, n - 1) then {n - 1} else {}
  {
  }

  lemma {:induction false} PresenceCounts(stores: Stores, c: Candidate, n: nat)
    requires n <= |c.placement|
    ensures CountTrue(TruePresence(stores, c)[..n]) == |PresentBelow(stores, c, n)|
    ensures |HealthyPairs(c.placement, TruePresence(stores, c), n)| == |PresentBelow(stores, c, n)|
  {
    if n > 0 {
      PresenceCounts(stores, c, n - 1);
      PresentStep(stores, c, n);
      var p := TruePresence(stores, c);
      assert p[..n][..n - 1] == p[..n - 1];
    }
  }

  lemma {:induction false} HealthyNext(placement: seq<nat>, presence: seq<bool>, n: nat)
    requires n < |placement| && n < |presence|
    ensures var pairs := HealthyPairs(placement, presence, n);
            HealthyPairs(placement, presence, n + 1) == if presence[n] then pairs + [(placement[n], n)] else pairs
  {
  }

  lemma {:induction false} GatheredMore(stores: Stores, net: Net, chunk: nat, pairs: seq<(nat, nat)>, node: nat,
                                        index: nat)
    requires net.fetches(chunk, node) && Slot(node, chunk, index) in stores
    ensures Gathered(stores, net, chunk, pairs + [(node, index)]) ==
            Gathered(stores, net, chunk, pairs) + [FragmentResponse(index, stores[Slot(node, chunk, index)])]
  {
    WithoutLast(pairs, (node, index));
  }

  lemma {:induction false} CoversNext(stores: Stores, net: Net, c: Candidate, pairs: seq<(nat, nat)>, i: nat,
                                      total: nat)
    requires i < |c.placement| <= total && Holds(stores, c, i) && net.fetches(c.chunk, c.placement[i])
    ensures Covered(Gathered(stores, net, c.chunk, pairs + [(c.placement[i], i)]), total) ==
            Covered(Gathered(stores, net, c.chunk, pairs), total) + {i}
  {
    var node := c.placement[i];
    GatheredMore(stores, net, c.chunk, pairs, node, i);
    CoveredSnoc(Gathered(stores, net, c.chunk, pairs), FragmentResponse(i, stores[Slot(node, c.chunk, i)]), total);
  }

  lemma {:induction false} GatheredFrom(stores: Stores, net: Net, c: Candidate, presence: seq<bool>, n: nat, total: nat)
    requires n <= |c.placement| == |presence| <= total && forall x, y :: net.fetches(x, y)
    requires forall i :: 0 <= i < |presence| ==> presence[i] == Holds(stores, c, i)
    ensures Covered(Gathered(stores, net, c.chunk, HealthyPairs(c.placement, presence, n)), total) == PresentBelow(stores, c, n)
  {
    if n > 0 {
      GatheredFrom(stores, net, c, presence, n - 1, total);
      PresentStep(stores, c, n);
      HealthyNext(c.placement, presence, n - 1);
      if presence[n - 1] {
        CoversNext(stores, net, c, HealthyPairs(c.placement, presence, n - 1), n - 1, total);
      }
    }
  }

  lemma {:induction false} GatheredCovers(stores: Stores, net: Net, c: Candidate, n: nat, total: nat)
    requires n <= |c.placement| <= total && forall x, y :: net.fetches(x, y)
    ensures Covered(Gathered(stores, net, c.chunk, HealthyPairs(c.placement, TruePresence(stores, c), n)), total)
            == PresentBelow(stores, c, n)
  {
    GatheredFrom(stores, net, c, TruePresence(stores, c), n, total);
  }

  lemma {:induction false} CoveredSnoc(responses: seq<FragmentResponse>, r: FragmentResponse, total: nat)
    requires r.index < total
    ensures Covered(responses + [r], total) == Covered(responses, total) + {r.index}
  {
    var all := responses + [r];
    forall i | i in Covered(responses, total)
      ensures i in Covered(all, total)
    {
      var n :| 0 <= n < |responses| && responses[n].index == i;
      assert all[n].index == i;
    }
    assert all[|responses|].index == r.index;
  }

  lemma {:induction false} FirstMissingIs(placement: seq<nat>, presence: seq<bool>, n: nat)
    requires n <= |placement| == |presence|
    ensures var r := FirstMissing(placement, presence, n);
            if r.None? then forall i :: n <= i < |presence| ==> presence[i]
            else n <= r.value.1 < |presence| && r.value.0 == placement[r.value.1] && !presence[r.value.1]
                 && forall i :: n <= i < r.value.1 ==> presence[i]
    decreases |placement| - n
  {
    if n < |placement| && presence[n] {
      FirstMissingIs(placement, presence, n + 1);
    }
  }

  /** How many fragments the policy asks for: the larger of its two thresholds, at most one per node. */
  function Goal(policy: Policy, n: nat): nat { Min(n, Max(policy.minAcks, policy.targetCopies)) }

  /** The decision in terms of the number of fragments present. */
  lemma {:induction false} DecisionIs(policy: Policy, stores: Stores, c: Candidate)
    ensures var have := |PresentIndices(stores, c)|;
            var n := |c.placement|;
            var d := Evaluate(policy, TruePresence(stores, c));
            && have <= n
            && (d.Lost? <==> have == 0)
            && (d.Critical? <==> 0 < have < policy.minAcks)
            && (d.Repair? <==> 0 < have && policy.minAcks <= have < Min(n, policy.targetCopies))
  {
    var n := |c.placement|;
    PresenceCounts(stores, c, n);
    assert TruePresence(stores, c)[..n] == TruePresence(stores, c);
    assert PresentBelow(stores, c, n) == PresentIndices(stores, c);
    SubsetSize(PresentIndices(stores, c), Range(n));
  }

  lemma {:induction false} MissingIs(stores: Stores, c: Candidate)
    ensures var have := PresentIndices(stores, c);
            var missing := FirstMissing(c.placement, TruePresence(stores, c), 0);
            && (missing.None? <==> |have| == |c.placement|)
            && (missing.Some? ==> missing.value.1 < |c.placement| && missing.value.1 !in have
                                  && missing.value.0 == c.placement[missing.value.1])
  {
    var have := PresentIndices(stores, c);
    var all := Range(|c.placement|);
    var missing := FirstMissing(c.placement, TruePresence(stores, c), 0);
    FirstMissingIs(c.placement, TruePresence(stores, c), 0);
    assert all == have + (all - have);
    if missing.None? {
      forall i | i in all
        ensures i in have
      {
        assert TruePresence(stores, c)[i];
      }
      assert have == all;
    } else {
      assert missing.value.1 in all - have;
    }
  }

  /** The repair a visit asks for. */
  function Ask(repair: Repairer, stores: Stores, c: Candidate, missing: (nat, nat)): Result<Stores, RepairError> {
    repair(stores, c.chunk, HealthyPairs(c.placement, TruePresence(stores, c), |c.placement|), missing, c.len)
  }

  /** With a truthful oracle a repair has as many sources as fragments are present. */
  lemma {:induction false} SourcesAre(net: Net, k: nat, m: nat, stores: Stores, c: Candidate)
    requires Calm(net) && |c.placement| == k + m
    ensures var healthy := HealthyPairs(c.placement, TruePresence(stores, c), k + m);
            && |healthy| == |PresentIndices(stores, c)|
            && (Enough(Gathered(stores, net, c.chunk, healthy), k, m) <==> k <= |PresentIndices(stores, c)|)
  {
    var total := k + m;
    PresenceCounts(stores, c, total);
    assert PresentBelow(stores, c, total) == PresentIndices(stores, c);
    GatheredCovers(stores, net, c, total, total);
  }

  /** What a repair with true presence should give: the genuine fragment, if k others are there. */
  ghost predicate Mended(code: Code, k: nat, m: nat, content: map<nat, Bytes>, stores: Stores, c: Candidate,
                         missing: (nat, nat), r: Result<Stores, RepairError>)
    requires k > 0 && c.chunk in content
  {
    var fragments := Fragments(code, content[c.chunk], k, m);
    && missing.1 < |fragments|
    && if |PresentIndices(stores, c)| < k then r.Err?
       else r == Ok(stores[Slot(missing.0, c.chunk, missing.1) := fragments[missing.1]])
  }

  ghost predicate Restoring(repair: Repairer, code: Code, k: nat, m: nat, content: map<nat, Bytes>)
    requires k > 0
  {
    forall stores, c, missing: (nat, nat) ::
      Sound(code, k, m, content, stores) && TrueRow(content, c) && |c.placement| == k + m && missing.1 < k + m ==>
        Mended(code, k, m, content, stores, c, missing, Ask(repair, stores, c, missing))
  }

  lemma {:induction false} RepairWorks(code: Code, k: nat, m: nat, content: map<nat, Bytes>, net: Net, stores: Stores,
                                       c: Candidate,
                                       missing: (nat, nat))
    requires Lawful(code, k, m, content) && Calm(net) && TrueRow(content, c) && |c.placement| == k + m
    requires Sound(code, k, m, content, stores) && missing.1 < k + m
    ensures Mended(code, k, m, content, stores, c, missing,
                   Repaired(code, Ec(k, m), stores, net, c.chunk, HealthyPairs(c.placement, TruePresence(stores, c), k + m),
                            missing, |content[c.chunk]|))
  {
    var healthy := HealthyPairs(c.placement, TruePresence(stores, c), k + m);
    SourcesAre(net, k, m, stores, c);
    if |healthy| < k {
      RepairNeeds(code, k, m, stores, net, c.chunk, healthy, missing, |content[c.chunk]|);
      FragmentsShape(code, content[c.chunk], k, m);
    } else {
      RepairSucceeds(code, k, m, content, stores, net, c.chunk, healthy, missing);
    }
  }

  /** The repairer over the fabric gives it when every peer call goes through. */
  lemma {:induction false} FabricRestores(code: Code, k: nat, m: nat, content: map<nat, Bytes>, net: Net)
    requires Lawful(code, k, m, content) && Calm(net)
    ensures Restoring(Fabric(code, Ec(k, m), net), code, k, m, content)
  {
    forall stores, c, missing: (nat, nat) |
      Sound(code, k, m, content, stores) && TrueRow(content, c) && |c.placement| == k + m && missing.1 < k + m
      ensures Mended(code, k, m, content, stores, c, missing, Ask(Fabric(code, Ec(k, m), net), stores, c, missing))
    {
      RepairWorks(code, k, m, content, net, stores, c, missing);
    }
  }

  lemma {:induction false} VisitIs(env: Env, stores: Stores, c: Candidate)
    requires env.oracle(stores, c) == TruePresence(stores, c)
    ensures var d := Evaluate(env.policy, TruePresence(stores, c));
            var missing := FirstMissing(c.placement, TruePresence(stores, c), 0);
            var after := ScrubOne(env, stores, c).0;
            if (d.Repair? || d.Critical?) && missing.Some? && Ask(env.repair, stores, c, missing.value).Ok?
               && HealthyPairs(c.placement, TruePresence(stores, c), |c.placement|) != []
            then after == Ask(env.repair, stores, c, missing.value).value
            else after == stores
  {
  }

  /** One visit with a truthful oracle adds exactly one genuine fragment, when at least k are there but fewer
      than the policy's goal, and otherwise changes nothing. */
  lemma {:induction false} ScrubOneProgress(env: Env, code: Code, k: nat, m: nat, content: map<nat, Bytes>,
                                            stores: Stores, c: Candidate)
    requires Setting(env, code, k, m, content) && Sound(code, k, m, content, stores)
    requires TrueRow(content, c) && |c.placement| == k + m
    ensures k <= |PresentIndices(stores, c)| < Goal(env.policy, k + m) ==>
              exists i: nat :: Restores(code, k, m, content, stores, c, i, ScrubOne(env, stores, c).0)
    ensures !(k <= |PresentIndices(stores, c)| < Goal(env.policy, k + m)) ==> ScrubOne(env, stores, c).0 == stores
  {
    DecisionIs(env.policy, stores, c);
    MissingIs(stores, c);
    VisitIs(env, stores, c);
    var missing := FirstMissing(c.placement, TruePresence(stores, c), 0);
    if missing.Some? {
      assert Mended(code, k, m, content, stores, c, missing.value, Ask(env.repair, stores, c, missing.value));
      HealthyNonEmpty(stores, c);
      if k <= |PresentIndices(stores, c)| < Goal(env.policy, k + m) {
        assert Restores(code, k, m, content, stores, c, missing.value.1, ScrubOne(env, stores, c).0);
      }
    }
  }

  lemma {:induction false} HealthyNonEmpty(stores: Stores, c: Candidate)
    ensures HealthyPairs(c.placement, TruePresence(stores, c), |c.placement|) == [] <==> |PresentIndices(stores, c)| == 0
  {
    PresenceCounts(stores, c, |c.placement|);
    assert PresentBelow(stores, c, |c.placement|) == PresentIndices(stores, c);
  }

  /** The stores gained exactly the genuine fragment of a missing index, on its placement node. */
  ghost predicate Restores(code: Code, k: nat, m: nat, content: map<nat, Bytes>, before: Stores, c: Candidate, i: nat,
                           after: Stores)
    requires k > 0 && c.chunk in content
  {
    && i < |c.placement| && i < |Fragments(code, content[c.chunk], k, m)| && i !in PresentIndices(before, c)
    && after == before[Slot(c.placement[i], c.chunk, i) := Fragments(code, content[c.chunk], k, m)[i]]
  }

  /* ---------------------------------------------------------------- convergence over passes */

  /** A table of true rows, one per chunk, each with a full placement. */
  ghost predicate Table(content: map<nat, Bytes>, total: nat, candidates: seq<Candidate>) {
    && (forall i :: 0 <= i < |candidates| ==> TrueRow(content, candidates[i]) && |candidates[i].placement| == total)
    && (forall i, j :: 0 <= i < j < |candidates| ==> candidates[i].chunk != candidates[j].chunk)
  }

  /** The number of fragments after one more visit. */
  function NextCount(have: nat, k: nat, goal: nat): nat { if k <= have < goal then have + 1 else have }

  /** The fixed hypotheses of a calm run of passes: `FabricSetting` says the fabric meets them. */
  ghost predicate Setting(env: Env, code: Code, k: nat, m: nat, content: map<nat, Bytes>) {
    match env
    case Env(_, oracle, repair) =>
      k > 0 && Truthful(oracle) && Mends(repair, code, k, m, content) && Restoring(repair, code, k, m, content)
  }

  /** A scrub over the fabric while all is calm: a lawful code, a truthful oracle, and peer calls that go through. */
  ghost predicate CalmFabric(env: Env, code: Code, k: nat, m: nat, content: map<nat, Bytes>, net: Net) {
    Lawful(code, k, m, content) && Truthful(env.oracle) && Calm(net) && env.repair == Fabric(code, Ec(k, m), net)
  }

  lemma {:induction false} FabricSetting(env: Env, code: Code, k: nat, m: nat, content: map<nat, Bytes>, net: Net)
    requires CalmFabric(env, code, k, m, content, net)
    ensures Setting(env, code, k, m, content)
  {
    FabricMends(code, k, m, content, net);
    FabricRestores(code, k, m, content, net);
  }

  lemma {:induction false} OneMore(stores: Stores, c: Candidate, i: nat, bytes: Bytes)
    requires i < |c.placement| && i !in PresentIndices(stores, c)
    ensures var after := stores[Slot(c.placement[i], c.chunk, i) := bytes];
            |PresentIndices(after, c)| == |PresentIndices(stores, c)| + 1
  {
    var after := stores[Slot(c.placement[i], c.chunk, i) := bytes];
    assert PresentIndices(after, c) == PresentIndices(stores, c) + {i};
  }

  lemma {:induction false} OthersSame(stores: Stores, slot: Slot, bytes: Bytes, d: Candidate)
    requires slot.chunk != d.chunk
    ensures PresentIndices(stores[slot := bytes], d) == PresentIndices(stores, d)
  {
  }

  lemma {:induction false} VisitCounts(env: Env, code: Code, k: nat, m: nat, content: map<nat, Bytes>, stores: Stores,
                                       c: Candidate)
    requires Setting(env, code, k, m, content) && Sound(code, k, m, content, stores)
    requires TrueRow(content, c) && |c.placement| == k + m
    ensures Have(ScrubOne(env, stores, c).0, c) ==
            NextCount(Have(stores, c), k, Goal(env.policy, k + m))
  {
    ScrubOneProgress(env, code, k, m, content, stores, c);
    if k <= Have(stores, c) < Goal(env.policy, k + m) {
      var i: nat :| Restores(code, k, m, content, stores, c, i, ScrubOne(env, stores, c).0);
      OneMore(stores, c, i, Fragments(code, content[c.chunk], k, m)[i]);
    }
  }

  lemma {:induction false} VisitOthers(env: Env, code: Code, k: nat, m: nat, content: map<nat, Bytes>, stores: Stores,
                                       c: Candidate,
                                       d: Candidate)
    requires Setting(env, code, k, m, content) && Sound(code, k, m, content, stores)
    requires TrueRow(content, c) && |c.placement| == k + m && d.chunk != c.chunk
    ensures PresentIndices(ScrubOne(env, stores, c).0, d) == PresentIndices(stores, d)
  {
    ScrubOneProgress(env, code, k, m, content, stores, c);
    if k <= Have(stores, c) < Goal(env.policy, k + m) {
      var i: nat :| Restores(code, k, m, content, stores, c, i, ScrubOne(env, stores, c).0);
      OthersSame(stores, Slot(c.placement[i], c.chunk, i), Fragments(code, content[c.chunk], k, m)[i], d);
    }
  }

  lemma {:induction false} LastKeeps(env: Env, code: Code, k: nat, m: nat, content: map<nat, Bytes>, stores: Stores,
                                     candidates: seq<Candidate>, d: Candidate)
    requires Setting(env, code, k, m, content) && Sound(code, k, m, content, stores)
    requires Table(content, k + m, candidates) && candidates != [] && d.chunk != candidates[|candidates| - 1].chunk
    ensures Have(ScrubPass(env, stores, candidates).0, d) == Have(ScrubPass(env, stores, candidates[..|candidates| - 1]).0, d)
  {
    var n := |candidates| - 1;
    ScrubPassSound(env, code, k, m, content, stores, candidates[..n]);
    VisitOthers(env, code, k, m, content, ScrubPass(env, stores, candidates[..n]).0, candidates[n], d);
  }

  lemma {:induction false} LastGains(env: Env, code: Code, k: nat, m: nat, content: map<nat, Bytes>, stores: Stores,
                                     candidates: seq<Candidate>)
    requires Setting(env, code, k, m, content) && Sound(code, k, m, content, stores)
    requires Table(content, k + m, candidates) && candidates != []
    ensures var n := |candidates| - 1;
            Have(ScrubPass(env, stores, candidates).0, candidates[n]) ==
            NextCount(Have(ScrubPass(env, stores, candidates[..n]).0, candidates[n]), k, Goal(env.policy, k + m))
  {
    var n := |candidates| - 1;
    ScrubPassSound(env, code, k, m, content, stores, candidates[..n]);
    VisitCounts(env, code, k, m, content, ScrubPass(env, stores, candidates[..n]).0, candidates[n]);
  }

  lemma {:induction false} PassUntouched(env: Env, code: Code, k: nat, m: nat, content: map<nat, Bytes>, stores: Stores,
                                         candidates: seq<Candidate>, c: Candidate)
    requires Setting(env, code, k, m, content) && Sound(code, k, m, content, stores)
    requires Table(content, k + m, candidates)
    requires forall i :: 0 <= i < |candidates| ==> candidates[i].chunk != c.chunk
    ensures Have(ScrubPass(env, stores, candidates).0, c) == Have(stores, c)
  {
    if candidates != [] {
      PassUntouched(env, code, k, m, content, stores, candidates[..|candidates| - 1], c);
      LastKeeps(env, code, k, m, content, stores, candidates, c);
    }
  }

  lemma {:induction false} LastCounts(env: Env, code: Code, k: nat, m: nat, content: map<nat, Bytes>, stores: Stores,
                                      candidates: seq<Candidate>)
    requires Setting(env, code, k, m, content) && Sound(code, k, m, content, stores)
    requires Table(content, k + m, candidates) && candidates != []
    ensures var c := candidates[|candidates| - 1];
            Have(ScrubPass(env, stores, candidates).0, c) == NextCount(Have(stores, c), k, Goal(env.policy, k + m))
  {
    var n := |candidates| - 1;
    PassUntouched(env, code, k, m, content, stores, candidates[..n], candidates[n]);
    LastGains(env, code, k, m, content, stores, candidates);
  }

  /** One pass adds one fragment to every chunk that can be repaired and is short of the goal. */
  lemma {:induction false} PassCounts(env: Env, code: Code, k: nat, m: nat, content: map<nat, Bytes>, stores: Stores,
                                      candidates: seq<Candidate>, j: nat)
    requires Setting(env, code, k, m, content) && Sound(code, k, m, content, stores)
    requires Table(content, k + m, candidates) && j < |candidates|
    ensures Have(ScrubPass(env, stores, candidates).0, candidates[j]) ==
            NextCount(Have(stores, candidates[j]), k, Goal(env.policy, k + m))
  {
    var n := |candidates| - 1;
    if j < n {
      PassCounts(env, code, k, m, content, stores, candidates[..n], j);
      LastKeeps(env, code, k, m, content, stores, candidates, candidates[j]);
    } else {
      LastCounts(env, code, k, m, content, stores, candidates);
    }
  }

  function Passes(env: Env, stores: Stores, candidates: seq<Candidate>, n: nat): Stores {
    if n == 0 then stores else ScrubPass(env, Passes(env, stores, candidates, n - 1), candidates).0
  }

  /** No number of passes changes a fragment that was there, or adds one that is not genuine. */
  lemma {:induction false} PassesSound(env: Env, code: Code, k: nat, m: nat, content: map<nat, Bytes>, stores: Stores,
                                       candidates: seq<Candidate>, n: nat)
    requires k > 0 && Mends(env.repair, code, k, m, content)
    requires Table(content, k + m, candidates) && Sound(code, k, m, content, stores)
    ensures Sound(code, k, m, content, Passes(env, stores, candidates, n))
    ensures forall s :: s in stores ==>
              s in Passes(env, stores, candidates, n) && Passes(env, stores, candidates, n)[s] == stores[s]
  {
    if n > 0 {
      PassesSound(env, code, k, m, content, stores, candidates, n - 1);
      ScrubPassSound(env, code, k, m, content, Passes(env, stores, candidates, n - 1), candidates);
    }
  }

  lemma {:induction false} ConvergenceStep(env: Env, code: Code, k: nat, m: nat, content: map<nat, Bytes>,
                                           stores: Stores,
                                           candidates: seq<Candidate>, j: nat, have: nat, n: nat)
    requires Setting(env, code, k, m, content) && Sound(code, k, m, content, stores)
    requires Table(content, k + m, candidates) && j < |candidates|
    requires Have(stores, candidates[j]) == Settled(have, k, Goal(env.policy, k + m), n)
    ensures Have(ScrubPass(env, stores, candidates).0, candidates[j]) ==
            Settled(have, k, Goal(env.policy, k + m), n + 1)
  {
    PassCounts(env, code, k, m, content, stores, candidates, j);
    SettledStep(have, k, Goal(env.policy, k + m), n + 1);
  }

  lemma {:induction false} CountAfter(env: Env, code: Code, k: nat, m: nat, content: map<nat, Bytes>, stores: Stores,
                                      candidates: seq<Candidate>, j: nat, n: nat)
    requires Setting(env, code, k, m, content) && Sound(code, k, m, content, stores)
    requires Table(content, k + m, candidates) && j < |candidates|
    ensures Have(Passes(env, stores, candidates, n), candidates[j]) ==
            Settled(Have(stores, candidates[j]), k, Goal(env.policy, k + m), n)
  {
    if n > 0 {
      CountAfter(env, code, k, m, content, stores, candidates, j, n - 1);
      PassesSound(env, code, k, m, content, stores, candidates, n - 1);
      ConvergenceStep(env, code, k, m, content, Passes(env, stores, candidates, n - 1), candidates, j,
                      Have(stores, candidates[j]), n - 1);
    }
  }

  /** After n calm passes a chunk that started with at least k fragments has n more of them, up to the goal;
      one that started below k stays as it was. */
  lemma {:induction false} Convergence(env: Env, code: Code, k: nat, m: nat, content: map<nat, Bytes>, net: Net,
                                       stores: Stores,
                                       candidates: seq<Candidate>, j: nat, n: nat)
    requires CalmFabric(env, code, k, m, content, net) && Sound(code, k, m, content, stores)
    requires Table(content, k + m, candidates) && j < |candidates|
    ensures |PresentIndices(Passes(env, stores, candidates, n), candidates[j])| ==
            Settled(|PresentIndices(stores, candidates[j])|, k, Goal(env.policy, k + m), n)
  {
    FabricSetting(env, code, k, m, content, net);
    CountAfter(env, code, k, m, content, stores, candidates, j, n);
  }

  lemma {:induction false} SettledStep(have: nat, k: nat, goal: nat, n: nat)
    requires n > 0
    ensures Settled(have, k, goal, n) == NextCount(Settled(have, k, goal, n - 1), k, goal)
  {
  }

  function Settled(have: nat, k: nat, goal: nat, n: nat): nat {
    if have < k then have else Max(have, Min(have + n, goal))
  }

  /** When every chunk has at least k fragments and the acknowledgement threshold is attainable, as many
      passes as the worst chunk is short of its goal make the next pass report everything healthy. */
  lemma {:induction false} AllHealthy(env: Env, code: Code, k: nat, m: nat, content: map<nat, Bytes>, net: Net,
                                      stores: Stores,
                                      candidates: seq<Candidate>, n: nat)
    requires CalmFabric(env, code, k, m, content, net) && Sound(code, k, m, content, stores)
    requires Table(content, k + m, candidates) && env.policy.minAcks <= k + m
    requires forall j :: 0 <= j < |candidates| ==>
               var have := |PresentIndices(stores, candidates[j])|;
               k <= have && Goal(env.policy, k + m) <= have + n
    ensures ScrubPass(env, Passes(env, stores, candidates, n), candidates) ==
            (Passes(env, stores, candidates, n), EmptyReport.(scanned := |candidates|, healthy := |candidates|))
  {
    var settled := Passes(env, stores, candidates, n);
    FabricSetting(env, code, k, m, content, net);
    forall j | 0 <= j < |candidates|
      ensures Evaluate(env.policy, TruePresence(settled, candidates[j])) == Healthy
    {
      CountAfter(env, code, k, m, content, stores, candidates, j, n);
      DecisionIs(env.policy, settled, candidates[j]);
    }
    QuietPass(env, settled, candidates);
  }

  lemma {:induction false} QuietPass(env: Env, stores: Stores, candidates: seq<Candidate>)
    requires Truthful(env.oracle)
    requires forall j :: 0 <= j < |candidates| ==> Evaluate(env.policy, TruePresence(stores, candidates[j])) == Healthy
    ensures ScrubPass(env, stores, candidates) ==
            (stores, EmptyReport.(scanned := |candidates|, healthy := |candidates|))
  {
    if candidates != [] {
      QuietPass(env, stores, candidates[..|candidates| - 1]);
    }
  }
}
