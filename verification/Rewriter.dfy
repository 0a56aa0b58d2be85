/** The maintenance pass that rewrites fragmented slabs: crates/kiseki-chunk-cluster/src/slab_compactor.rs. */
module Rewriter {
  import opened Base
  import opened Erasure
  import opened Slabs
  import opened Compactor

  /** What the pass does not control, for the n-th slab of the snapshot: the slab and the owners the store returns,
      the new id, whether the new slab is stored and its owners are recorded, which deltas the log takes and the
      order of the map walk. */
  datatype Env = Env(get: nat -> Option<Slab>, newId: nat -> Uuid, putOk: nat -> bool, owners: nat -> Option<seq<Owner>>,
                     recordOk: nat -> bool, emitOk: (nat, Uuid) -> bool, order: (nat, set<Uuid>) -> seq<Uuid>)

  ghost predicate Lawful(env: Env) { forall n, keys :: Walks(env.order(n, keys), keys) }

  /* ---------------------------------------------------------------- what is carried over */

  function ByteCount(extents: seq<SlabExtent>, dead: bool): nat {
    if extents == [] then 0
    else
      var last := extents[|extents| - 1];
      ByteCount(extents[..|extents| - 1], dead) + if dead && last.refcount != 0 then 0 else last.length
  }

  /** When rewriting is due: the quotient of two byte counts, rounded in whatever way, and what it has to reach. */
  datatype Limit = Limit(share: (nat, nat) -> real, threshold: real)

  /** Rewriting is due when the dead share reaches the threshold. */
  predicate Due(extents: seq<SlabExtent>, limit: Limit) {
    var total := ByteCount(extents, false);
    total != 0 && limit.share(ByteCount(extents, true), total) >= limit.threshold
  }

  predicate Carried(slab: Slab, e: SlabExtent) { e.refcount != 0 && e.offset + e.length <= |slab.data| }

  /** The live extents that lie inside the data, in order, with their bytes. */
  function LiveChunks(slab: Slab, n: nat): seq<Chunk>
    requires n <= |slab.extents|
  {
    if n == 0 then []
    else
      var e := slab.extents[n - 1];
      LiveChunks(slab, n - 1) + if Carried(slab, e) then [Chunk(e.chunkId, slab.data[e.offset..e.offset + e.length])] else []
  }

  /** Where a chunk lies in the new slab: its last copy among the live ones. */
  function NewOffsets(live: seq<Chunk>): map<ChunkId, (nat, nat)> {
    if live == [] then map[]
    else
      var front, last := live[..|live| - 1], live[|live| - 1];
      NewOffsets(front)[last.id := (TotalLen(front), |last.bytes|)]
  }

  function Survivors(owners: seq<Owner>, at: map<ChunkId, (nat, nat)>): seq<Owner> {
    if owners == [] then []
    else
      var last := owners[|owners| - 1];
      Survivors(owners[..|owners| - 1], at) + if last.chunk in at then [last] else []
  }

  function EntryFor(o: Owner, at: map<ChunkId, (nat, nat)>): Entry
    requires o.chunk in at
  {
    Entry(o.index, at[o.chunk].0, at[o.chunk].1)
  }

  function EntriesLookup(groups: map<Uuid, seq<Entry>>, c: Uuid): seq<Entry> { if c in groups then groups[c] else [] }

  /** Surviving owners grouped by composition. */
  function ByComp(owners: seq<Owner>, at: map<ChunkId, (nat, nat)>): map<Uuid, seq<Entry>> {
    if owners == [] then map[]
    else
      var groups, last := ByComp(owners[..|owners| - 1], at), owners[|owners| - 1];
      if last.chunk in at then groups[last.comp := EntriesLookup(groups, last.comp) + [EntryFor(last, at)]] else groups
  }

  function DeltasOf(env: Env, n: nat, groups: map<Uuid, seq<Entry>>, order: seq<Uuid>): seq<Delta> {
    if order == [] then []
    else
      var c := order[|order| - 1];
      DeltasOf(env, n, groups, order[..|order| - 1]) +
      if env.emitOk(n, c) then [Delta(c, env.newId(n), EntriesLookup(groups, c))] else []
  }

  /** A rewritten slab, the owners recorded for it and the deltas sent. */
  datatype Rewritten = Rewritten(slab: Slab, owners: seq<Owner>, deltas: seq<Delta>)

  function Rewrite(code: Code, k: nat, m: nat, env: Env, n: nat, extents: seq<SlabExtent>,
                   limit: Limit): Option<Rewritten> {
    if !Due(extents, limit) || env.get(n).None? then None
    else
      var slab := env.get(n).value;
      var live := LiveChunks(slab, |slab.extents|);
      if live == [] || !Encodes(code, live, k, m) || !env.putOk(n) then None
      else
        var packed := Packed(env.newId(n), live, k, m);
        var owners := if env.owners(n).Some? then env.owners(n).value else [];
        if owners == [] then Some(Rewritten(packed, [], []))
        else
          var at := NewOffsets(live);
          var groups := ByComp(owners, at);
          Some(Rewritten(packed, if env.recordOk(n) then Survivors(owners, at) else [],
                         DeltasOf(env, n, groups, env.order(n, groups.Keys))))
  }

  /* ---------------------------------------------------------------- the pass */

  method MeasureDead(extents: seq<SlabExtent>) returns (total: nat, dead: nat)
    ensures total == ByteCount(extents, false) && dead == ByteCount(extents, true)
  {
    total, dead := 0, 0;
    for i := 0 to |extents|
      invariant total == ByteCount(extents[..i], false) && dead == ByteCount(extents[..i], true)
    {
      TakeTake(extents, i, i + 1);
      total := total + extents[i].length;
      if extents[i].refcount == 0 {
        dead := dead + extents[i].length;
      }
    }
    TakeAll(extents);
  }

  method CollectLive(slab: Slab) returns (live: seq<Chunk>)
    ensures live == LiveChunks(slab, |slab.extents|)
  {
    live := [];
    for i := 0 to |slab.extents|
      invariant live == LiveChunks(slab, i)
    {
      var e := slab.extents[i];
      if e.refcount == 0 {
        continue;
      }
      var start, end := e.offset, e.offset + e.length;
      if end > |slab.data| {
        continue;
      }
      live := live + [Chunk(e.chunkId, slab.data[start..end])];
    }
  }

  method Relocate(live: seq<Chunk>) returns (at: map<ChunkId, (nat, nat)>)
    ensures at == NewOffsets(live)
  {
    at := map[];
    var running := 0;
    for i := 0 to |live|
      invariant at == NewOffsets(live[..i]) && running == TotalLen(live[..i])
    {
      TakeTake(live, i, i + 1);
      at := at[live[i].id := (running, |live[i].bytes|)];
      running := running + |live[i].bytes|;
    }
    TakeAll(live);
  }

  method GroupOwners(owners: seq<Owner>, at: map<ChunkId, (nat, nat)>)
    returns (groups: map<Uuid, seq<Entry>>, kept: seq<Owner>)
    ensures groups == ByComp(owners, at) && kept == Survivors(owners, at)
  {
    groups, kept := map[], [];
    for i := 0 to |owners|
      invariant groups == ByComp(owners[..i], at) && kept == Survivors(owners[..i], at)
    {
      TakeTake(owners, i, i + 1);
      var o := owners[i];
      if o.chunk in at {
        groups := groups[o.comp := EntriesLookup(groups, o.comp) + [Entry(o.index, at[o.chunk].0, at[o.chunk].1)]];
        kept := kept + [o];
      }
    }
    TakeAll(owners);
  }

  method Emit(env: Env, n: nat, groups: map<Uuid, seq<Entry>>) returns (deltas: seq<Delta>)
    ensures deltas == DeltasOf(env, n, groups, env.order(n, groups.Keys))
  {
    deltas := [];
    var order := env.order(n, groups.Keys);
    for i := 0 to |order|
      invariant deltas == DeltasOf(env, n, groups, order[..i])
    {
      TakeTake(order, i, i + 1);
      if env.emitOk(n, order[i]) {
        deltas := deltas + [Delta(order[i], env.newId(n), EntriesLookup(groups, order[i]))];
      }
    }
    TakeAll(order);
  }

  method RewriteSlab(code: Code, k: nat, m: nat, env: Env, n: nat, extents: seq<SlabExtent>, limit: Limit)
    returns (r: Option<Rewritten>)
    ensures r == Rewrite(code, k, m, env, n, extents, limit)
  {
    var total, dead := MeasureDead(extents);
    if total == 0 {
      return None;
    }
    if limit.share(dead, total) < limit.threshold || env.get(n).None? {
      return None;
    }
    var live := CollectLive(env.get(n).value);
    if live == [] {
      return None;
    }
    var encoded := EncodeSlab(code, env.newId(n), live, k, m);
    if encoded.Err? || !env.putOk(n) {
      return None;
    }
    var slab := encoded.value.0;
    var owners := env.owners(n);
    if owners.None? || owners.value == [] {
      return Some(Rewritten(slab, [], []));
    }
    var at := Relocate(live);
    var groups, kept := GroupOwners(owners.value, at);
    if !env.recordOk(n) {
      kept := [];
    }
    var deltas := Emit(env, n, groups);
    return Some(Rewritten(slab, kept, deltas));
  }

  function Rewrites(code: Code, k: nat, m: nat, env: Env, snapshot: seq<seq<SlabExtent>>,
                    limit: Limit): seq<Rewritten> {
    if snapshot == [] then []
    else
      var n := |snapshot| - 1;
      var r := Rewrite(code, k, m, env, n, snapshot[n], limit);
      Rewrites(code, k, m, env, snapshot[..n], limit) + if r.Some? then [r.value] else []
  }

  lemma {:induction false} RewritesNext(code: Code, k: nat, m: nat, env: Env, snapshot: seq<seq<SlabExtent>>,
                                        limit: Limit, n: nat,
                                        r: Option<Rewritten>)
    requires n < |snapshot| && r == Rewrite(code, k, m, env, n, snapshot[n], limit)
    ensures Rewrites(code, k, m, env, snapshot[..n + 1], limit) ==
            Rewrites(code, k, m, env, snapshot[..n], limit) + if r.Some? then [r.value] else []
  {
    TakeTake(snapshot, n, n + 1);
  }

  method RunMaintenancePass(code: Code, k: nat, m: nat, env: Env, snapshot: seq<seq<SlabExtent>>, limit: Limit)
    returns (count: nat, done: seq<Rewritten>)
    ensures done == Rewrites(code, k, m, env, snapshot, limit) && count == |done|
  {
    count, done := 0, [];
    for n := 0 to |snapshot|
      invariant done == Rewrites(code, k, m, env, snapshot[..n], limit) && count == |done|
    {
      var r := RewriteSlab(code, k, m, env, n, snapshot[n], limit);
      RewritesNext(code, k, m, env, snapshot, limit, n, r);
      if r.Some? {
        done := done + [r.value];
        count := count + 1;
      }
    }
    TakeAll(snapshot);
  }

  /* ---------------------------------------------------------------- what the new slab holds */

  /** The extents carried over, by position. */
  function CarriedAt(slab: Slab, n: nat): (p: seq<nat>)
    requires n <= |slab.extents|
    ensures forall j :: 0 <= j < |p| ==> p[j] < n && Carried(slab, slab.extents[p[j]])
    ensures forall i, j :: 0 <= i < j < |p| ==> p[i] < p[j]
    ensures forall i :: 0 <= i < n && Carried(slab, slab.extents[i]) ==> i in p
  {
    if n == 0 then [] else CarriedAt(slab, n - 1) + if Carried(slab, slab.extents[n - 1]) then [n - 1] else []
  }

  /** The new slab is made of the bytes of exactly the carried extents, in their old order. */
  lemma {:induction false} LiveAre(slab: Slab, n: nat)
    requires n <= |slab.extents|
    ensures var live, p := LiveChunks(slab, n), CarriedAt(slab, n);
            && |live| == |p|
            && forall j :: 0 <= j < |p| ==>
                 var e := slab.extents[p[j]]; live[j] == Chunk(e.chunkId, slab.data[e.offset..e.offset + e.length])
  {
    if n > 0 {
      LiveAre(slab, n - 1);
    }
  }

  function LastCopy(live: seq<Chunk>, id: ChunkId): (r: Option<nat>)
    ensures r.Some? ==> r.value < |live| && live[r.value].id == id
    ensures r.Some? ==> forall i :: r.value < i < |live| ==> live[i].id != id
    ensures r.None? ==> forall i :: 0 <= i < |live| ==> live[i].id != id
  {
    if live == [] then None
    else if live[|live| - 1].id == id then Some(|live| - 1) else LastCopy(live[..|live| - 1], id)
  }

  /** A chunk has a new place exactly when a copy of it is carried over, and the place selects the last copy. */
  lemma {:induction false} Relocated(live: seq<Chunk>, id: ChunkId)
    ensures id in NewOffsets(live) <==> LastCopy(live, id).Some?
    ensures id in NewOffsets(live) ==>
              var i, at := LastCopy(live, id).value, NewOffsets(live)[id];
              at == (TotalLen(live[..i]), |live[i].bytes|) && Extracted(DataOf(live), at.0, at.1) == Ok(live[i].bytes)
  {
    if live != [] {
      var n := |live| - 1;
      Relocated(live[..n], id);
      if live[n].id != id && id in NewOffsets(live) {
        var i := LastCopy(live, id).value;
        assert live[..n][..i] == live[..i];
      }
      if id in NewOffsets(live) {
        PackedAt(live, LastCopy(live, id).value);
      }
    }
  }

  /** Copies of a chunk that are carried over have the same bytes, as content addressing has it. */
  ghost predicate CopiesAgree(live: seq<Chunk>) {
    forall i, j :: 0 <= i < |live| && 0 <= j < |live| && live[i].id == live[j].id ==> live[i].bytes == live[j].bytes
  }

  ghost predicate KeepsMeaning(live: seq<Chunk>) {
    forall i :: 0 <= i < |live| ==>
      && live[i].id in NewOffsets(live)
      && var at := NewOffsets(live)[live[i].id]; Extracted(DataOf(live), at.0, at.1) == Ok(live[i].bytes)
  }

  /** Every carried chunk reads the same in the new slab as in the old one exactly when copies of a chunk agree, in
      particular when no chunk was packed twice. */
  lemma {:induction false} MeaningIff(live: seq<Chunk>)
    ensures KeepsMeaning(live) <==> CopiesAgree(live)
  {
    forall i | 0 <= i < |live|
      ensures LastCopy(live, live[i].id).Some? && live[i].id in NewOffsets(live)
      ensures var at := NewOffsets(live)[live[i].id];
              Extracted(DataOf(live), at.0, at.1) == Ok(live[LastCopy(live, live[i].id).value].bytes)
    {
      Relocated(live, live[i].id);
    }
    if KeepsMeaning(live) {
      forall i, j | 0 <= i < |live| && 0 <= j < |live| && live[i].id == live[j].id
        ensures live[i].bytes == live[j].bytes
      {
        var at := NewOffsets(live)[live[i].id];
        assert Extracted(DataOf(live), at.0, at.1) == Ok(live[i].bytes);
        assert Extracted(DataOf(live), at.0, at.1) == Ok(live[j].bytes);
      }
    }
  }

  /* ---------------------------------------------------------------- what the deltas say */

  /** A composition's surviving owners, in order. */
  function Mine(owners: seq<Owner>, at: map<ChunkId, (nat, nat)>, c: Uuid): (mine: seq<Owner>)
    ensures forall o :: o in mine <==> o in owners && o.comp == c && o.chunk in at
  {
    if owners == [] then []
    else
      var last := owners[|owners| - 1];
      Mine(owners[..|owners| - 1], at, c) + if last.comp == c && last.chunk in at then [last] else []
  }

  function EntriesFor(mine: seq<Owner>, at: map<ChunkId, (nat, nat)>): (e: seq<Entry>)
    requires forall o :: o in mine ==> o.chunk in at
    ensures |e| == |mine| && forall j :: 0 <= j < |e| ==> e[j] == EntryFor(mine[j], at)
  {
    if mine == [] then [] else EntriesFor(mine[..|mine| - 1], at) + [EntryFor(mine[|mine| - 1], at)]
  }

  lemma {:induction false} EntriesMore(mine: seq<Owner>, last: Owner, at: map<ChunkId, (nat, nat)>)
    requires last.chunk in at && forall o :: o in mine ==> o.chunk in at
    ensures EntriesFor(mine + [last], at) == EntriesFor(mine, at) + [EntryFor(last, at)]
  {
    WithoutLast(mine, last);
  }

  lemma {:induction false} GroupIs(owners: seq<Owner>, at: map<ChunkId, (nat, nat)>, c: Uuid)
    ensures EntriesLookup(ByComp(owners, at), c) == EntriesFor(Mine(owners, at, c), at)
    ensures c in ByComp(owners, at) <==> Mine(owners, at, c) != []
  {
    if owners != [] {
      var front, last := owners[..|owners| - 1], owners[|owners| - 1];
      GroupIs(front, at, c);
      if last.chunk in at && last.comp == c {
        EntriesMore(Mine(front, at, c), last, at);
      } else {
        assert Mine(owners, at, c) == Mine(front, at, c);
      }
    }
  }

  lemma {:induction false} SurvivorsAre(owners: seq<Owner>, at: map<ChunkId, (nat, nat)>, o: Owner)
    ensures o in Survivors(owners, at) <==> o in owners && o.chunk in at
  {
    if owners != [] {
      SurvivorsAre(owners[..|owners| - 1], at, o);
      SplitLast(owners);
    }
  }

  /** One delta for every composition of the walk whose delta the log accepts, no other. */
  ghost predicate DeltasMatch(env: Env, n: nat, groups: map<Uuid, seq<Entry>>, order: seq<Uuid>, deltas: seq<Delta>) {
    && (forall i :: 0 <= i < |deltas| ==>
          && deltas[i].slab == env.newId(n) && deltas[i].comp in order && env.emitOk(n, deltas[i].comp)
          && deltas[i].entries == EntriesLookup(groups, deltas[i].comp))
    && (forall c :: c in order && env.emitOk(n, c) ==> Delta(c, env.newId(n), EntriesLookup(groups, c)) in deltas)
  }

  lemma {:induction false} DeltasAre(env: Env, n: nat, groups: map<Uuid, seq<Entry>>, order: seq<Uuid>)
    ensures DeltasMatch(env, n, groups, order, DeltasOf(env, n, groups, order))
  {
    if order != [] {
      DeltasAre(env, n, groups, order[..|order| - 1]);
      SplitLast(order);
    }
  }

  /** The rewrite of one slab: the new slab holds exactly the carried chunks in order; its owner records are
      exactly the owners of carried chunks; and a delta gives each of its composition's surviving owners, in
      order, a place that selects the last carried copy of that owner's chunk. Nothing is said of dead chunks. */
  lemma {:induction false} RewriteExact(code: Code, k: nat, m: nat, env: Env, n: nat, extents: seq<SlabExtent>,
                                        limit: Limit, d: nat,
                                        j: nat)
    requires Lawful(env) && Rewrite(code, k, m, env, n, extents, limit).Some?
    requires var r := Rewrite(code, k, m, env, n, extents, limit).value; d < |r.deltas| && j < |r.deltas[d].entries|
    ensures var r := Rewrite(code, k, m, env, n, extents, limit).value;
            && env.get(n).Some? && env.owners(n).Some?
            && var live := LiveChunks(env.get(n).value, |env.get(n).value.extents|);
               var mine := Mine(env.owners(n).value, NewOffsets(live), r.deltas[d].comp);
               && r.slab == Packed(env.newId(n), live, k, m) && r.deltas[d].slab == r.slab.id
               && |r.deltas[d].entries| == |mine| && r.deltas[d].entries[j].index == mine[j].index
               && LastCopy(live, mine[j].chunk).Some?
               && Extracted(r.slab.data, r.deltas[d].entries[j].offset, r.deltas[d].entries[j].length)
                  == Ok(live[LastCopy(live, mine[j].chunk).value].bytes)
  {
    var r := Rewrite(code, k, m, env, n, extents, limit).value;
    var live := LiveChunks(env.get(n).value, |env.get(n).value.extents|);
    var at, owners := NewOffsets(live), env.owners(n).value;
    var groups := ByComp(owners, at);
    DeltasAre(env, n, groups, env.order(n, groups.Keys));
    GroupIs(owners, at, r.deltas[d].comp);
    var mine := Mine(owners, at, r.deltas[d].comp);
    assert mine[j] in mine;
    Relocated(live, mine[j].chunk);
  }

  /** The entry selects, in the new slab, the bytes of every carried copy of the chunk in the old one. */
  ghost predicate ReadsTheSame(slab: Slab, anew: Slab, entry: Entry, chunk: ChunkId) {
    forall i :: 0 <= i < |slab.extents| && Carried(slab, slab.extents[i]) && slab.extents[i].chunkId == chunk ==>
      var e := slab.extents[i];
      Extracted(anew.data, entry.offset, entry.length) == Ok(slab.data[e.offset..e.offset + e.length])
  }

  /** Every carried extent is among the live chunks. */
  lemma {:induction false} LiveHas(slab: Slab, n: nat, i: nat) returns (j: nat)
    requires i < n <= |slab.extents| && Carried(slab, slab.extents[i])
    ensures var e := slab.extents[i];
            j < |LiveChunks(slab, n)| && LiveChunks(slab, n)[j] == Chunk(e.chunkId, slab.data[e.offset..e.offset + e.length])
  {
    if i < n - 1 {
      j := LiveHas(slab, n - 1, i);
    } else {
      j := |LiveChunks(slab, n - 1)|;
    }
  }

  lemma {:induction false} CopyReadsTheSame(slab: Slab, anew: Slab, entry: Entry, chunk: ChunkId)
    requires var live := LiveChunks(slab, |slab.extents|);
             && CopiesAgree(live) && LastCopy(live, chunk).Some?
             && Extracted(anew.data, entry.offset, entry.length) == Ok(live[LastCopy(live, chunk).value].bytes)
    ensures ReadsTheSame(slab, anew, entry, chunk)
  {
    var live := LiveChunks(slab, |slab.extents|);
    var last := LastCopy(live, chunk).value;
    forall i | 0 <= i < |slab.extents| && Carried(slab, slab.extents[i]) && slab.extents[i].chunkId == chunk
      ensures var e := slab.extents[i];
              Extracted(anew.data, entry.offset, entry.length) == Ok(slab.data[e.offset..e.offset + e.length])
    {
      var j := LiveHas(slab, |slab.extents|, i);
      assert live[j].bytes == live[last].bytes;
    }
  }

  /** A rewrite preserves what a composition reads: every entry of every delta belongs to an owner that was recorded,
      and selects in the new slab the very bytes its chunk had in the old one, wherever the old one held it. */
  lemma {:induction false} RewriteReadsTheSame(code: Code, k: nat, m: nat, env: Env, n: nat, extents: seq<SlabExtent>,
                                               limit: Limit,
                                               d: nat, j: nat)
    returns (o: Owner)
    requires Lawful(env) && Rewrite(code, k, m, env, n, extents, limit).Some?
    requires CopiesAgree(LiveChunks(env.get(n).value, |env.get(n).value.extents|))
    requires var r := Rewrite(code, k, m, env, n, extents, limit).value; d < |r.deltas| && j < |r.deltas[d].entries|
    ensures var r := Rewrite(code, k, m, env, n, extents, limit).value;
            && env.owners(n).Some? && o in env.owners(n).value
            && o.comp == r.deltas[d].comp && o.index == r.deltas[d].entries[j].index
            && ReadsTheSame(env.get(n).value, r.slab, r.deltas[d].entries[j], o.chunk)
  {
    RewriteExact(code, k, m, env, n, extents, limit, d, j);
    var r := Rewrite(code, k, m, env, n, extents, limit).value;
    var slab := env.get(n).value;
    var mine := Mine(env.owners(n).value, NewOffsets(LiveChunks(slab, |slab.extents|)), r.deltas[d].comp);
    o := mine[j];
    assert o in mine;
    CopyReadsTheSame(slab, r.slab, r.deltas[d].entries[j], o.chunk);
  }

  /** An owner is recorded exactly when a copy of its chunk is carried over and the records are taken; and whether
      or not they are, it is told unless the log refuses its composition's delta. */
  lemma {:induction false} RewriteComplete(code: Code, k: nat, m: nat, env: Env, n: nat, extents: seq<SlabExtent>,
                                           limit: Limit, o: Owner)
    requires Lawful(env) && Rewrite(code, k, m, env, n, extents, limit).Some?
    requires env.owners(n).Some? && o in env.owners(n).value
    ensures var r := Rewrite(code, k, m, env, n, extents, limit).value;
            var live := LiveChunks(env.get(n).value, |env.get(n).value.extents|);
            var at := NewOffsets(live);
            && (o in r.owners <==> env.recordOk(n) && LastCopy(live, o.chunk).Some?)
            && (LastCopy(live, o.chunk).Some? && env.emitOk(n, o.comp) ==>
                  && o.chunk in at
                  && exists i :: 0 <= i < |r.deltas| && r.deltas[i].comp == o.comp && EntryFor(o, at) in r.deltas[i].entries)
  {
    var r := Rewrite(code, k, m, env, n, extents, limit).value;
    var live := LiveChunks(env.get(n).value, |env.get(n).value.extents|);
    var at, owners := NewOffsets(live), env.owners(n).value;
    var groups := ByComp(owners, at);
    Relocated(live, o.chunk);
    SurvivorsAre(owners, at, o);
    if o.chunk in at && env.emitOk(n, o.comp) {
      var i := DeltaOf(env, n, owners, at, o);
    }
  }

  lemma {:induction false} DeltaOf(env: Env, n: nat, owners: seq<Owner>, at: map<ChunkId, (nat, nat)>, o: Owner)
    returns (i: nat)
    requires Lawful(env) && o in owners && o.chunk in at && env.emitOk(n, o.comp)
    ensures var groups := ByComp(owners, at);
            var deltas := DeltasOf(env, n, groups, env.order(n, groups.Keys));
            i < |deltas| && deltas[i].comp == o.comp && EntryFor(o, at) in deltas[i].entries
  {
    var groups := ByComp(owners, at);
    var order := env.order(n, groups.Keys);
    var mine := Mine(owners, at, o.comp);
    GroupIs(owners, at, o.comp);
    assert Walks(order, groups.Keys);
    DeltasAre(env, n, groups, order);
    assert o in mine;
    var q :| 0 <= q < |mine| && mine[q] == o;
    assert EntriesFor(mine, at)[q] == EntryFor(o, at);
    var deltas := DeltasOf(env, n, groups, order);
    assert Delta(o.comp, env.newId(n), EntriesLookup(groups, o.comp)) in deltas;
    i :| 0 <= i < |deltas| && deltas[i] == Delta(o.comp, env.newId(n), EntriesLookup(groups, o.comp));
  }
}
