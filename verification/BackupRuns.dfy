/** Runs of snapshot creation and deletion over a blob store whose operations fail:
    crates/kiseki-backup/src/lib.rs, as a machine of single blob operations. */
module BackupRuns {
  import opened Sorting
  import opened Backup

  /** A snapshot id; each stands for the timestamp and uuid of one creation. */
  type Id = nat

  datatype Source = Source(shards: seq<Shard>, includeData: bool) {
    function Tar(): seq<Entry> { TarOf(shards, includeData) }
  }

  /** The blob operation a running call does next. */
  datatype Op = PutTar(id: Id) | PutManifest(id: Id) | DropManifest(id: Id) | DropTar(id: Id) {
    predicate Creates(i: Id) { (PutTar? || PutManifest?) && id == i }
  }

  /** The blobs, what every id was ever created from, and the calls that are running. */
  datatype State = State(tars: map<Id, seq<Entry>>, manifests: set<Id>, origin: map<Id, Source>, calls: map<nat, Op>)

  const Empty := State(map[], {}, map[], map[])

  /** `ran` says whether the blob operation took effect, `ok` whether it was reported as done: a call gives up on
      a reported failure, which may still have taken effect. */
  datatype Event =
    | BeginCreate(call: nat, id: Id, source: Source)
    | BeginDelete(call: nat, id: Id)
    | Act(call: nat, ran: bool, ok: bool)

  function Step(s: State, e: Event): State {
    match e
    case BeginCreate(call, id, source) =>
      if call in s.calls || id in s.origin then s
      else s.(origin := s.origin[id := source], calls := s.calls[call := PutTar(id)])
    case BeginDelete(call, id) => if call in s.calls then s else s.(calls := s.calls[call := DropManifest(id)])
    case Act(call, ran, ok) => if call in s.calls then Acted(s, call, ran, ran && ok) else s
  }

  function Acted(s: State, call: nat, ran: bool, ok: bool): State
    requires call in s.calls
  {
    match s.calls[call]
    case PutTar(id) =>
      s.(tars := if ran && id in s.origin then s.tars[id := s.origin[id].Tar()] else s.tars,
         calls := if ok then s.calls[call := PutManifest(id)] else s.calls - {call})
    case PutManifest(id) => s.(manifests := if ran then s.manifests + {id} else s.manifests, calls := s.calls - {call})
    case DropManifest(id) =>
      s.(manifests := if ran then s.manifests - {id} else s.manifests,
         calls := if ok then s.calls[call := DropTar(id)] else s.calls - {call})
    case DropTar(id) => s.(tars := if ran then s.tars - {id} else s.tars, calls := s.calls - {call})
  }

  function Run(s: State, events: seq<Event>): State {
    if events == [] then s else Step(Run(s, events[..|events| - 1]), events[|events| - 1])
  }

  /* ---------------------------------------------------------------- which deletes are safe */

  predicate Creating(s: State, id: Id) { exists call :: call in s.calls && s.calls[call].Creates(id) }

  /** The id was created and its creation is over. */
  predicate Settled(s: State, id: Id) { id in s.origin && !Creating(s, id) }

  predicate Careful(s: State, e: Event) { e.BeginDelete? ==> Settled(s, e.id) }

  ghost predicate CarefulRun(s: State, events: seq<Event>) {
    forall n {:trigger events[n]} :: 0 <= n < |events| ==> Careful(Run(s, events[..n]), events[n])
  }

  /* ---------------------------------------------------------------- the invariant */

  /** Every manifest has its tarball: the property itself. */
  predicate Published(s: State) {
    forall id :: id in s.manifests ==> id in s.tars && id in s.origin && s.tars[id] == s.origin[id].Tar()
  }

  ghost predicate CallOk(s: State, op: Op) {
    && op.id in s.origin
    && (op.PutManifest? ==> op.id in s.tars)
    && (op.DropManifest? || op.DropTar? ==> !Creating(s, op.id))
    && (op.DropTar? ==> op.id !in s.manifests)
  }

  /** Both create the same snapshot. */
  predicate Rivals(a: Op, b: Op) { a.Creates(b.id) && b.Creates(b.id) }

  ghost predicate Inv(s: State) {
    && (forall id :: id in s.tars ==> id in s.origin && s.tars[id] == s.origin[id].Tar())
    && (forall id :: id in s.manifests ==> id in s.tars && !Creating(s, id))
    && (forall call :: call in s.calls ==> CallOk(s, s.calls[call]))
    && (forall a, b :: a in s.calls && b in s.calls && Rivals(s.calls[a], s.calls[b]) ==> a == b)
  }

  lemma {:induction false} BeginCreateKeeps(s: State, call: nat, id: Id, source: Source)
    requires Inv(s)
    ensures Inv(Step(s, BeginCreate(call, id, source)))
  {
    var t := Step(s, BeginCreate(call, id, source));
    if t != s {
      assert id !in s.manifests;
      forall x | x != id
        ensures Creating(t, x) <==> Creating(s, x)
      {
        if c :| c in s.calls && s.calls[c].Creates(x) {
          assert t.calls[c].Creates(x);
        }
      }
    }
  }

  lemma {:induction false} BeginDeleteKeeps(s: State, call: nat, id: Id)
    requires Inv(s) && Settled(s, id)
    ensures Inv(Step(s, BeginDelete(call, id)))
  {
    var t := Step(s, BeginDelete(call, id));
    if t != s {
      forall x
        ensures Creating(t, x) <==> Creating(s, x)
      {
        if c :| c in s.calls && s.calls[c].Creates(x) {
          assert t.calls[c].Creates(x);
        }
      }
    }
  }

  /** A call that moves on or ends can only end a creation. */
  lemma {:induction false} CreatingAfter(s: State, call: nat, ran: bool, ok: bool, x: Id)
    requires Inv(s) && call in s.calls
    ensures Creating(Acted(s, call, ran, ok), x) ==> Creating(s, x)
    ensures s.calls[call].PutManifest? ==> !Creating(Acted(s, call, ran, ok), s.calls[call].id)
  {
    var t := Acted(s, call, ran, ok);
    if c :| c in t.calls && t.calls[c].Creates(x) {
      assert s.calls[c].Creates(x);
    }
    if s.calls[call].PutManifest? {
      forall c | c in t.calls
        ensures !t.calls[c].Creates(s.calls[call].id)
      {
        assert Rivals(s.calls[c], s.calls[call]) ==> c == call;
      }
    }
  }

  lemma {:induction false} ActKeeps(s: State, call: nat, ran: bool, ok: bool)
    requires Inv(s) && call in s.calls && (ok ==> ran)
    ensures Inv(Acted(s, call, ran, ok))
  {
    var t, op := Acted(s, call, ran, ok), s.calls[call];
    assert CallOk(s, op);
    forall x
      ensures Creating(t, x) ==> Creating(s, x)
    {
      CreatingAfter(s, call, ran, ok, x);
    }
    CreatingAfter(s, call, ran, ok, op.id);
    forall c | c in t.calls
      ensures CallOk(t, t.calls[c])
    {
      OtherCallOk(s, call, ran, ok, c);
    }
  }

  lemma {:induction false} OtherCallOk(s: State, call: nat, ran: bool, ok: bool, c: nat)
    requires Inv(s) && call in s.calls && (ok ==> ran) && c in Acted(s, call, ran, ok).calls
    ensures CallOk(Acted(s, call, ran, ok), Acted(s, call, ran, ok).calls[c])
  {
    var t, op := Acted(s, call, ran, ok), s.calls[call];
    assert CallOk(s, op) && CallOk(s, s.calls[c]);
    CreatingAfter(s, call, ran, ok, t.calls[c].id);
    assert s.calls[c].PutManifest? ==> s.calls[c].Creates(s.calls[c].id);
    assert op.PutManifest? ==> op.Creates(op.id);
  }

  lemma {:induction false} StepKeeps(s: State, e: Event)
    requires Inv(s) && Careful(s, e)
    ensures Inv(Step(s, e))
  {
    match e
    case BeginCreate(call, id, source) => BeginCreateKeeps(s, call, id, source);
    case BeginDelete(call, id) => BeginDeleteKeeps(s, call, id);
    case Act(call, ran, ok) =>
      if call in s.calls {
        ActKeeps(s, call, ran, ran && ok);
      }
  }

  lemma {:induction false} RunInv(s: State, events: seq<Event>)
    requires Inv(s) && CarefulRun(s, events)
    ensures Inv(Run(s, events))
  {
    if events != [] {
      var n := |events| - 1;
      forall i | 0 <= i < n
        ensures Careful(Run(s, events[..n][..i]), events[..n][i])
      {
        assert events[..n][..i] == events[..i];
        assert events[..n][i] == events[i];
      }
      RunInv(s, events[..n]);
      assert Careful(Run(s, events[..n]), events[n]);
      StepKeeps(Run(s, events[..n]), events[n]);
    }
  }

  /** In every state of every run of creations and of deletions of settled ids, whatever blob operations fail and
      however calls interleave: a manifest has its tarball, and the tarball restores to the shards the snapshot
      was created from, in order of id, with data only if it was included. */
  lemma {:induction false} ManifestHasTarball(events: seq<Event>, id: Id)
    requires CarefulRun(Empty, events) && id in Run(Empty, events).manifests
    ensures var s := Run(Empty, events);
            && id in s.tars && id in s.origin
            && var source := s.origin[id];
               DistinctIds(source.shards) ==>
                 Sorted(Restored(s.tars[id]), ById)
                 && multiset(Restored(s.tars[id])) == multiset(KeptAll(source.shards, source.includeData))
  {
    RunInv(Empty, events);
    var source := Run(Empty, events).origin[id];
    if DistinctIds(source.shards) {
      RestoreExact(source.shards, source.includeData);
    }
  }

  /* ---------------------------------------------------------------- exactly which deletes are safe */

  lemma {:induction false} RunMore(s: State, events: seq<Event>, e: Event)
    ensures Run(s, events + [e]) == Step(Run(s, events), e)
  {
    assert (events + [e])[..|events|] == events;
  }

  lemma {:induction false} SettledStep(s: State, e: Event, id: Id)
    requires Settled(s, id)
    ensures Settled(Step(s, e), id)
  {
    var t := Step(s, e);
    forall c | c in t.calls
      ensures !t.calls[c].Creates(id)
    {
      assert c in s.calls ==> !s.calls[c].Creates(id);
    }
  }

  lemma {:induction false} SettledStays(s: State, events: seq<Event>, id: Id)
    requires Settled(s, id)
    ensures Settled(Run(s, events), id)
  {
    if events != [] {
      SettledStays(s, events[..|events| - 1], id);
      SettledStep(Run(s, events[..|events| - 1]), events[|events| - 1], id);
    }
  }

  /** An id that was listed once, because its manifest was there, may be deleted at any later point: by hand or by
      a cleanup working from an old listing. */
  lemma {:induction false} ListedIsSafe(s: State, later: seq<Event>, id: Id)
    requires Inv(s) && id in s.manifests
    ensures Settled(Run(s, later), id)
  {
    SettledStays(s, later, id);
  }

  /** From the point where the creation has only the manifest to put, the delete slips its two steps in. */
  lemma {:induction false} SlipsIn(s: State, id: Id, deleter: nat, creator: nat)
    requires deleter in s.calls && creator in s.calls && deleter != creator
    requires s.calls[deleter] == DropManifest(id) && s.calls[creator] == PutManifest(id)
    ensures var t := Step(Step(Step(s, Act(deleter, true, true)), Act(deleter, true, true)), Act(creator, true, true));
            id in t.manifests && id !in t.tars
  {
  }

  lemma {:induction false} RunThree(s: State, events: seq<Event>, a: Event, b: Event, c: Event)
    ensures Run(s, events + [a] + [b] + [c]) == Step(Step(Step(Run(s, events), a), b), c)
  {
    RunMore(s, events, a);
    RunMore(s, events + [a], b);
    RunMore(s, events + [a] + [b], c);
  }

  /** A delete of any other id can break the property: while the creation runs, or before it starts, the delete
      slips its two steps in between the two puts. */
  lemma {:induction false} OtherDeletesBreak(s: State, id: Id, deleter: nat, creator: nat, source: Source)
    returns (events: seq<Event>)
    requires !Settled(s, id) && deleter !in s.calls && deleter != creator
    requires if id in s.origin then creator in s.calls && s.calls[creator].Creates(id) else creator !in s.calls
    ensures events != [] && events[0] == BeginDelete(deleter, id) && !Published(Run(s, events))
  {
    events := [BeginDelete(deleter, id)];
    assert events == [] + [BeginDelete(deleter, id)];
    RunMore(s, [], BeginDelete(deleter, id));
    if id !in s.origin {
      RunMore(s, events, BeginCreate(creator, id, source));
      events := events + [BeginCreate(creator, id, source)];
    }
    if Run(s, events).calls[creator].PutTar? {
      RunMore(s, events, Act(creator, true, true));
      events := events + [Act(creator, true, true)];
    }
    SlipsIn(Run(s, events), id, deleter, creator);
    RunThree(s, events, Act(deleter, true, true), Act(deleter, true, true), Act(creator, true, true));
    events := events + [Act(deleter, true, true)] + [Act(deleter, true, true)] + [Act(creator, true, true)];
  }
}
