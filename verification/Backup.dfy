/** Snapshots as two blobs each, and the order in which they come and go: crates/kiseki-backup/src/lib.rs. */
module Backup {
  import opened Base
  import opened Sorting
  import opened Calendar

  datatype Shard = Shard(id: string, metadata: Bytes, data: Option<Bytes>)

  /** One file of a tarball. */
  datatype Entry = Entry(name: string, body: Bytes)

  const META: string := ".meta.json"
  const DATA: string := ".data"

  /* ---------------------------------------------------------------- the tarball */

  function EntriesOf(s: Shard, includeData: bool): seq<Entry> {
    [Entry(s.id + META, s.metadata)] +
    if includeData && s.data.Some? then [Entry(s.id + DATA, s.data.value)] else []
  }

  function TarOf(shards: seq<Shard>, includeData: bool): seq<Entry> {
    if shards == [] then [] else TarOf(shards[..|shards| - 1], includeData) + EntriesOf(shards[|shards| - 1], includeData)
  }

  ghost predicate AllFit(tar: seq<Entry>, fits: string -> bool) {
    forall i :: 0 <= i < |tar| ==> fits(tar[i].name)
  }

  lemma {:induction false} TarGrows(shards: seq<Shard>, n: nat, includeData: bool)
    requires n <= |shards|
    ensures TarOf(shards[..n], includeData) <= TarOf(shards, includeData)
  {
    if n == |shards| {
      TakeAll(shards);
    } else {
      TarGrows(shards[..|shards| - 1], n, includeData);
      TakeTake(shards, n, |shards| - 1);
    }
  }

  /** Nothing comes of it as soon as one name does not fit a header. */
  method BuildTar(shards: seq<Shard>, includeData: bool, fits: string -> bool) returns (r: Result<seq<Entry>, ()>)
    ensures r.Ok? <==> AllFit(TarOf(shards, includeData), fits)
    ensures r.Ok? ==> r.value == TarOf(shards, includeData)
  {
    var tar: seq<Entry> := [];
    for i := 0 to |shards|
      invariant tar == TarOf(shards[..i], includeData) && AllFit(tar, fits)
    {
      TakeTake(shards, i, i + 1);
      TarGrows(shards, i + 1, includeData);
      var s := shards[i];
      ghost var before := tar;
      ghost var after := before + EntriesOf(s, includeData);
      assert after == TarOf(shards[..i + 1], includeData);
      var meta := Entry(s.id + META, s.metadata);
      if !fits(meta.name) {
        assert after[|before|] == meta;
        return Err(());
      }
      tar := tar + [meta];
      if includeData && s.data.Some? {
        var data := Entry(s.id + DATA, s.data.value);
        if !fits(data.name) {
          assert after[|before| + 1] == data;
          return Err(());
        }
        tar := tar + [data];
      }
      assert tar == after;
    }
    TakeAll(shards);
    r := Ok(tar);
  }

  function StripSuffix(name: string, suffix: string): Option<string> {
    if |suffix| <= |name| && name[|name| - |suffix|..] == suffix then Some(name[..|name| - |suffix|]) else None
  }

  function IndexOf(shards: seq<Shard>, id: string): (r: Option<nat>)
    ensures r.Some? ==> r.value < |shards| && shards[r.value].id == id
    ensures r.None? ==> forall i :: 0 <= i < |shards| ==> shards[i].id != id
  {
    if shards == [] then None
    else
      var n := |shards| - 1;
      if shards[n].id == id then Some(n) else IndexOf(shards[..n], id)
  }

  /** The entry for an id, made if it is not there yet. */
  function Ensured(shards: seq<Shard>, id: string): (r: seq<Shard>)
    ensures IndexOf(r, id).Some?
  {
    if IndexOf(shards, id).Some? then shards else shards + [Shard(id, [], None)]
  }

  function Absorbed(shards: seq<Shard>, e: Entry): seq<Shard> {
    match StripSuffix(e.name, META)
    case Some(id) =>
      var all := Ensured(shards, id);
      var i := IndexOf(all, id).value;
      all[i := all[i].(metadata := e.body)]
    case None =>
      match StripSuffix(e.name, DATA)
      case Some(id) =>
        var all := Ensured(shards, id);
        var i := IndexOf(all, id).value;
        all[i := all[i].(data := Some(e.body))]
      case None => shards
  }

  function Collected(tar: seq<Entry>): seq<Shard> {
    if tar == [] then [] else Absorbed(Collected(tar[..|tar| - 1]), tar[|tar| - 1])
  }

  /* ---------------------------------------------------------------- shards in order of id */

  predicate LexLe(a: string, b: string) {
    a == [] || (b != [] && (a[0] < b[0] || (a[0] == b[0] && LexLe(a[1..], b[1..]))))
  }

  lemma {:induction false} LexTotal(a: string, b: string)
    ensures LexLe(a, b) || LexLe(b, a)
    ensures LexLe(a, b) && LexLe(b, a) ==> a == b
  {
    if a != [] && b != [] {
      LexTotal(a[1..], b[1..]);
      assert a == [a[0]] + a[1..] && b == [b[0]] + b[1..];
    }
  }

  lemma {:induction false} LexTransitive(a: string, b: string, c: string)
    requires LexLe(a, b) && LexLe(b, c)
    ensures LexLe(a, c)
  {
    if a != [] && a[0] == b[0] == c[0] {
      LexTransitive(a[1..], b[1..], c[1..]);
    }
  }

  predicate ById(a: Shard, b: Shard) { LexLe(a.id, b.id) }

  lemma {:induction false} ByIdIsPreorder()
    ensures TotalPreorder(ById)
  {
    forall x: Shard, y: Shard
      ensures ById(x, y) || ById(y, x)
    {
      LexTotal(x.id, y.id);
    }
    forall x: Shard, y: Shard, z: Shard | ById(x, y) && ById(y, z)
      ensures ById(x, z)
    {
      LexTransitive(x.id, y.id, z.id);
    }
  }

  /** Restoring: entries are gathered by id, then listed in order of id. */
  function Restored(tar: seq<Entry>): seq<Shard> { Sort(Collected(tar), ById) }

  /** Takes in the i-th entry. */
  method Absorb(tar: seq<Entry>, i: nat, found: seq<Shard>) returns (r: seq<Shard>)
    requires i < |tar| && found == Collected(tar[..i])
    ensures r == Collected(tar[..i + 1])
  {
    TakeTake(tar, i, i + 1);
    r := Absorbed(found, tar[i]);
  }

  ghost predicate AllReadable(n: nat, readable: nat -> bool) { forall i: nat :: i < n ==> readable(i) }

  /** `readable` says which entries of the archive can be read; one that cannot ends the restore with an error. */
  method Collect(tar: seq<Entry>, readable: nat -> bool) returns (r: Result<seq<Shard>, ()>)
    ensures r.Ok? <==> AllReadable(|tar|, readable)
    ensures r.Ok? ==> r.value == Collected(tar)
  {
    var found: seq<Shard> := [];
    for i := 0 to |tar|
      invariant found == Collected(tar[..i]) && AllReadable(i, readable)
    {
      if !readable(i) {
        return Err(());
      }
      found := Absorb(tar, i, found);
    }
    TakeAll(tar);
    r := Ok(found);
  }

  method Restore(tar: seq<Entry>, readable: nat -> bool) returns (r: Result<seq<Shard>, ()>)
    ensures r.Ok? <==> AllReadable(|tar|, readable)
    ensures r.Ok? ==> r.value == Restored(tar)
  {
    var found := Collect(tar, readable);
    r := match found case Ok(shards) => Ok(Sort(shards, ById)) case Err(e) => Err(e);
  }

  /* ---------------------------------------------------------------- what comes back */

  function Kept(s: Shard, includeData: bool): Shard { if includeData then s else s.(data := None) }

  function KeptAll(shards: seq<Shard>, includeData: bool): (r: seq<Shard>)
    ensures |r| == |shards| && forall i :: 0 <= i < |r| ==> r[i] == Kept(shards[i], includeData)
  {
    if shards == [] then []
    else KeptAll(shards[..|shards| - 1], includeData) + [Kept(shards[|shards| - 1], includeData)]
  }

  ghost predicate DistinctIds(shards: seq<Shard>) {
    forall i, j :: 0 <= i < j < |shards| ==> shards[i].id != shards[j].id
  }

  lemma {:induction false} Suffixes(id: string)
    ensures StripSuffix(id + META, META) == Some(id)
    ensures StripSuffix(id + DATA, META) == None && StripSuffix(id + DATA, DATA) == Some(id)
  {
    assert (id + META)[|id|..] == META && (id + META)[..|id|] == id;
    assert (id + DATA)[|id|..] == DATA && (id + DATA)[..|id|] == id;
    var name := id + DATA;
    if |META| <= |name| {
      assert name[|name| - 1] == 'a' && META[|META| - 1] == 'n';
      assert name[|name| - |META|..][|META| - 1] == name[|name| - 1];
    }
  }

  /** Absorbing the entries of a shard that is not there yet adds it. */
  lemma {:induction false} AbsorbShard(found: seq<Shard>, s: Shard, includeData: bool)
    requires IndexOf(found, s.id).None?
    ensures var once := Absorbed(found, Entry(s.id + META, s.metadata));
            && once == found + [Shard(s.id, s.metadata, None)]
            && (includeData && s.data.Some? ==>
                  Absorbed(once, Entry(s.id + DATA, s.data.value)) == found + [Kept(s, includeData)])
            && (!(includeData && s.data.Some?) ==> once == found + [Kept(s, includeData)])
  {
    Suffixes(s.id);
    var blank := found + [Shard(s.id, [], None)];
    assert IndexOf(blank, s.id) == Some(|found|);
    var once := found + [Shard(s.id, s.metadata, None)];
    assert blank[|found| := Shard(s.id, s.metadata, None)] == once;
    assert IndexOf(once, s.id) == Some(|found|);
  }

  lemma {:induction false} CollectedMore(tar: seq<Entry>, s: Shard, includeData: bool)
    requires IndexOf(Collected(tar), s.id).None?
    ensures Collected(tar + EntriesOf(s, includeData)) == Collected(tar) + [Kept(s, includeData)]
  {
    AbsorbShard(Collected(tar), s, includeData);
    var once := tar + [Entry(s.id + META, s.metadata)];
    assert once[..|tar|] == tar;
    if includeData && s.data.Some? {
      var twice := once + [Entry(s.id + DATA, s.data.value)];
      assert twice[..|once|] == once;
      assert tar + EntriesOf(s, includeData) == twice;
    } else {
      assert tar + EntriesOf(s, includeData) == once;
    }
  }

  lemma {:induction false} NewId(shards: seq<Shard>, includeData: bool)
    requires DistinctIds(shards) && shards != []
    ensures IndexOf(KeptAll(shards[..|shards| - 1], includeData), shards[|shards| - 1].id).None?
  {
  }

  lemma {:induction false} CollectedIs(shards: seq<Shard>, includeData: bool)
    requires DistinctIds(shards)
    ensures Collected(TarOf(shards, includeData)) == KeptAll(shards, includeData)
  {
    if shards != [] {
      var front, s := shards[..|shards| - 1], shards[|shards| - 1];
      CollectedIs(front, includeData);
      NewId(shards, includeData);
      CollectedMore(TarOf(front, includeData), s, includeData);
      assert TarOf(shards, includeData) == TarOf(front, includeData) + EntriesOf(s, includeData);
      assert KeptAll(shards, includeData) == KeptAll(front, includeData) + [Kept(s, includeData)];
    }
  }

  /** A snapshot of shards with distinct ids restores to exactly those shards, in order of id, with their data only
      if it was included. */
  lemma {:induction false} RestoreExact(shards: seq<Shard>, includeData: bool)
    requires DistinctIds(shards)
    ensures var r := Restored(TarOf(shards, includeData));
            Sorted(r, ById) && multiset(r) == multiset(KeptAll(shards, includeData))
  {
    CollectedIs(shards, includeData);
    ByIdIsPreorder();
    SortSorts(KeptAll(shards, includeData), ById);
  }

  /* ---------------------------------------------------------------- cleaning up */

  /** What a listing says of a snapshot. */
  datatype Listed = Listed(id: string, createdAt: string)

  /** What a cleanup makes of a snapshot; where the arithmetic overflows the process stops. */
  datatype Verdict = Keep | Remove | Overflows

  /** By its printed creation time; no retention means everything goes. */
  function Judged(snap: Listed, retentionDays: nat, now: nat): Verdict {
    if retentionDays == 0 then Remove
    else
      match Parsed(snap.createdAt)
      case Refused => Keep
      case Overflow => Overflows
      case Epoch(secs) =>
        if secs + retentionDays * 86400 >= U64 then Overflows
        else if secs + retentionDays * 86400 < now then Remove
        else Keep
  }

  function Verdicts(snaps: seq<Listed>, judge: Listed -> Verdict): (vs: seq<Verdict>)
    ensures |vs| == |snaps| && forall i :: 0 <= i < |snaps| ==> vs[i] == judge(snaps[i])
  {
    if snaps == [] then [] else Verdicts(snaps[..|snaps| - 1], judge) + [judge(snaps[|snaps| - 1])]
  }

  function Due(snaps: seq<Listed>, vs: seq<Verdict>): seq<string>
    requires |vs| == |snaps|
  {
    if snaps == [] then []
    else
      var n := |snaps| - 1;
      Due(snaps[..n], vs[..n]) + if vs[n].Remove? then [snaps[n].id] else []
  }

  /** How many snapshots of a listing come before the first that overflows. */
  function Reached(vs: seq<Verdict>): (n: nat)
    ensures n <= |vs| && (n < |vs| ==> vs[n].Overflows?)
    ensures forall i :: 0 <= i < n ==> !vs[i].Overflows?
  {
    if vs == [] then 0
    else
      var n := Reached(vs[..|vs| - 1]);
      if n == |vs| - 1 && !vs[n].Overflows? then n + 1 else n
  }

  function CountOf(ids: seq<string>, deletes: string -> bool): nat {
    if ids == [] then 0 else CountOf(ids[..|ids| - 1], deletes) + if deletes(ids[|ids| - 1]) then 1 else 0
  }

  /** Deletes in listing order; a snapshot counts when its deletion succeeds; an overflow ends it there. */
  method Cleanup(snaps: seq<Listed>, judge: Listed -> Verdict, deletes: string -> bool)
    returns (tried: seq<string>, deleted: nat, finished: bool)
    ensures var vs := Verdicts(snaps, judge);
            var n := Reached(vs);
            tried == Due(snaps[..n], vs[..n]) && deleted == CountOf(tried, deletes) && (finished <==> n == |snaps|)
  {
    tried, deleted := [], 0;
    ghost var vs := Verdicts(snaps, judge);
    for i := 0 to |snaps|
      invariant i <= Reached(vs)
      invariant tried == Due(snaps[..i], vs[..i]) && deleted == CountOf(tried, deletes)
    {
      var v := judge(snaps[i]);
      assert v == vs[i];
      if v.Overflows? {
        return tried, deleted, false;
      }
      DueNext(snaps, vs, i);
      if v.Remove? {
        CountOfNext(tried, snaps[i].id, deletes);
        tried := tried + [snaps[i].id];
        if deletes(snaps[i].id) {
          deleted := deleted + 1;
        }
      }
    }
    finished := true;
  }

  lemma {:induction false} DueNext(snaps: seq<Listed>, vs: seq<Verdict>, i: nat)
    requires |vs| == |snaps| && i < |snaps|
    ensures Due(snaps[..i + 1], vs[..i + 1]) == Due(snaps[..i], vs[..i]) + if vs[i].Remove? then [snaps[i].id] else []
  {
    TakeTake(snaps, i, i + 1);
    TakeTake(vs, i, i + 1);
  }

  lemma {:induction false} CountOfNext(ids: seq<string>, id: string, deletes: string -> bool)
    ensures CountOf(ids + [id], deletes) == CountOf(ids, deletes) + if deletes(id) then 1 else 0
  {
    WithoutLast(ids, id);
  }

  function Judge(retentionDays: nat, now: nat): Listed -> Verdict { snap => Judged(snap, retentionDays, now) }

  method CleanupOld(snaps: seq<Listed>, retentionDays: nat, now: nat, deletes: string -> bool)
    returns (tried: seq<string>, deleted: nat, finished: bool)
    ensures var vs := Verdicts(snaps, Judge(retentionDays, now));
            var n := Reached(vs);
            tried == Due(snaps[..n], vs[..n]) && deleted == CountOf(tried, deletes) && (finished <==> n == |snaps|)
  {
    tried, deleted, finished := Cleanup(snaps, Judge(retentionDays, now), deletes);
  }

  /** A snapshot created at a given second goes exactly when that second is more than the retention in the past,
      although the cleanup only has the printed text to go by, and stops the cleanup exactly when the second its
      retention ends in does not fit 64 bits. */
  lemma {:induction false} ExpiredIff(id: string, secs: nat, t: Time, retentionDays: nat, now: nat)
    requires secs < U64 && IsTime(secs, t)
    ensures Judged(Listed(id, Text(t)), retentionDays, now) ==
            if retentionDays == 0 then Remove
            else if secs + retentionDays * 86400 >= U64 then Overflows
            else if secs + retentionDays * 86400 < now then Remove
            else Keep
  {
    IsoRoundTrip(secs, t);
  }
}
