/** The audit log and its command-log store: crates/kiseki-audit/src/store.rs and raft_store.rs. */
module Audit {
  import opened Base
  import opened Sorting

  datatype EventType =
    | KeyGeneration | KeyRotation | KeyDestruction | KeyAccess | ReEncryption | DataRead | DataWrite | DataDelete
    | AuthSuccess | AuthFailure | TenantLifecycle | AdminAction | PolicyChange | MaintenanceMode | AdvisoryWorkflow
    | AdvisoryHint | AdvisoryBudgetExceeded | SecurityDowngradeEnabled

  /** No tenant means the system shard. */
  type Key = Option<nat>

  datatype Event = Event(sequence: nat, timestamp: nat, eventType: EventType, tenant: Key, actor: string, description: string)
  datatype Shard = Shard(events: seq<Event>, tip: nat)
  datatype Command = AppendEvent(tenant: Key, eventType: string, actor: string, description: string)
  datatype Query = Query(tenant: Key, from: nat, limit: nat, eventType: Option<EventType>)

  type Shards = map<Key, Shard>

  /* ---------------------------------------------------------------- event types as text */

  function ToStr(t: EventType): string {
    match t
    case KeyGeneration => "KeyGeneration"
    case KeyRotation => "KeyRotation"
    case KeyDestruction => "KeyDestruction"
    case KeyAccess => "KeyAccess"
    case ReEncryption => "ReEncryption"
    case DataRead => "DataRead"
    case DataWrite => "DataWrite"
    case DataDelete => "DataDelete"
    case AuthSuccess => "AuthSuccess"
    case AuthFailure => "AuthFailure"
    case TenantLifecycle => "TenantLifecycle"
    case AdminAction => "AdminAction"
    case PolicyChange => "PolicyChange"
    case MaintenanceMode => "MaintenanceMode"
    case AdvisoryWorkflow => "AdvisoryWorkflow"
    case AdvisoryHint => "AdvisoryHint"
    case AdvisoryBudgetExceeded => "AdvisoryBudgetExceeded"
    case SecurityDowngradeEnabled => "SecurityDowngradeEnabled"
  }

  function FromStr(s: string): EventType {
    if s == "KeyGeneration" then KeyGeneration
    else if s == "KeyRotation" then KeyRotation
    else if s == "KeyDestruction" then KeyDestruction
    else if s == "KeyAccess" then KeyAccess
    else if s == "ReEncryption" then ReEncryption
    else if s == "DataRead" then DataRead
    else if s == "DataWrite" then DataWrite
    else if s == "DataDelete" then DataDelete
    else if s == "AuthSuccess" then AuthSuccess
    else if s == "AuthFailure" then AuthFailure
    else if s == "TenantLifecycle" then TenantLifecycle
    else if s == "PolicyChange" then PolicyChange
    else if s == "MaintenanceMode" then MaintenanceMode
    else if s == "AdvisoryWorkflow" then AdvisoryWorkflow
    else if s == "AdvisoryHint" then AdvisoryHint
    else if s == "AdvisoryBudgetExceeded" then AdvisoryBudgetExceeded
    else AdminAction
  }

  function Kept(t: EventType): EventType { if t == SecurityDowngradeEnabled then AdminAction else t }

  lemma {:induction false} KeyTypes(t: EventType)
    requires t in {KeyGeneration, KeyRotation, KeyDestruction, KeyAccess, ReEncryption, DataRead, DataWrite, DataDelete}
    ensures FromStr(ToStr(t)) == t
  {
    var s := ToStr(t);
    assert s[0] == 'K' ==> s in ["KeyGeneration", "KeyRotation", "KeyDestruction", "KeyAccess"];
    assert s[0] == 'D' ==> s in ["DataRead", "DataWrite", "DataDelete"];
  }

  lemma {:induction false} AccessTypes(t: EventType)
    requires t in {AuthSuccess, AuthFailure, TenantLifecycle, PolicyChange, MaintenanceMode}
    ensures FromStr(ToStr(t)) == t
  {
    var s := ToStr(t);
    assert s[0] == 'A' ==> s in ["AuthSuccess", "AuthFailure"];
  }

  lemma {:induction false} AdvisoryTypes(t: EventType)
    requires t in {AdvisoryWorkflow, AdvisoryHint, AdvisoryBudgetExceeded, AdminAction, SecurityDowngradeEnabled}
    ensures FromStr(ToStr(t)) == Kept(t)
  {
    var s := ToStr(t);
    assert s[0] == 'A' ==> s in ["AdminAction", "AdvisoryWorkflow", "AdvisoryHint", "AdvisoryBudgetExceeded"];
  }

  /** Every event type survives printing and parsing except one, which comes back as AdminAction. */
  lemma {:induction false} TypeRoundTrip(t: EventType)
    ensures FromStr(ToStr(t)) == Kept(t)
  {
    if t in {KeyGeneration, KeyRotation, KeyDestruction, KeyAccess, ReEncryption, DataRead, DataWrite, DataDelete} {
      KeyTypes(t);
    } else if t in {AuthSuccess, AuthFailure, TenantLifecycle, PolicyChange, MaintenanceMode} {
      AccessTypes(t);
    } else {
      AdvisoryTypes(t);
    }
  }

  /* ---------------------------------------------------------------- appending */

  function ShardAt(shards: Shards, k: Key): Shard { if k in shards then shards[k] else Shard([], 0) }

  function Appended(shards: Shards, e: Event): Shards {
    var shard := ShardAt(shards, e.tenant);
    shards[e.tenant := Shard(shard.events + [e.(sequence := shard.tip + 1)], shard.tip + 1)]
  }

  /** The shards after a run of appends. */
  function Live(events: seq<Event>): Shards {
    if events == [] then map[] else Appended(Live(events[..|events| - 1]), events[|events| - 1])
  }

  function CommandOf(e: Event): Command { AppendEvent(e.tenant, ToStr(e.eventType), e.actor, e.description) }

  /** The log of the same run: commands numbered from one. */
  function LogOf(events: seq<Event>): (log: seq<(nat, Command)>)
    ensures |log| == |events|
  {
    if events == [] then [] else LogOf(events[..|events| - 1]) + [(|events|, CommandOf(events[|events| - 1]))]
  }

  /** The event a command stands for; its time is made from its index. */
  function EventOf(index: nat, c: Command): Event { Event(0, index, FromStr(c.eventType), c.tenant, c.actor,
                   c.description) }

  /** Replay skips every index that does not go up. */
  function Applied(state: (Shards, nat), entry: (nat, Command)): (Shards, nat) {
    if entry.0 <= state.1 then state else (Appended(state.0, EventOf(entry.0, entry.1)), entry.0)
  }

  function Replayed(log: seq<(nat, Command)>): (Shards, nat) {
    if log == [] then (map[], 0) else Applied(Replayed(log[..|log| - 1]), log[|log| - 1])
  }

  /* ---------------------------------------------------------------- reading */

  predicate Matches(q: Query, e: Event) {
    e.sequence >= q.from && (q.eventType.None? || e.eventType == q.eventType.value)
  }

  function Filtered(q: Query, events: seq<Event>): seq<Event> {
    if events == [] then []
    else Filtered(q, events[..|events| - 1]) + if Matches(q, events[|events| - 1]) then [events[|events| - 1]] else []
  }

  function Answer(shards: Shards, q: Query): seq<Event> { Truncate(Filtered(q, ShardAt(shards, q.tenant).events),
                  q.limit) }

  predicate BySequence(a: Event, b: Event) { a.sequence <= b.sequence }

  method RunQuery(shards: Shards, q: Query) returns (out: seq<Event>)
    ensures out == Answer(shards, q)
  {
    if q.tenant !in shards {
      return [];
    }
    var events := shards[q.tenant].events;
    out := [];
    ghost var all: seq<Event> := [];
    for i := 0 to |events|
      invariant all == Filtered(q, events[..i]) && out == Truncate(all, q.limit)
    {
      TakeTake(events, i, i + 1);
      if Matches(q, events[i]) {
        if |out| < q.limit {
          out := out + [events[i]];
        }
        all := all + [events[i]];
      }
    }
    TakeAll(events);
  }

  /* ---------------------------------------------------------------- the two stores */

  class AuditLog {
    var shards: Shards

    constructor ()
      ensures shards == Live([])
    {
      shards := map[];
    }

    method Append(e: Event)
      modifies this
      ensures shards == Appended(old(shards), e)
    {
      var shard := if e.tenant in shards then shards[e.tenant] else Shard([], 0);
      var next := shard.tip + 1;
      shards := shards[e.tenant := Shard(shard.events + [e.(sequence := next)], next)];
    }
  }

  class RaftAuditStore {
    var shards: Shards
    var log: seq<(nat, Command)>
    var lastApplied: nat

    constructor ()
      ensures shards == Live([]) && log == LogOf([]) && lastApplied == 0
    {
      shards, log, lastApplied := map[], [], 0;
    }

    constructor FromCommands(commands: seq<(nat, Command)>)
      ensures log == commands && (shards, lastApplied) == Replayed(commands)
    {
      shards, log, lastApplied := map[], [], 0;
      new;
      for i := 0 to |commands|
        invariant log == commands[..i]
      {
        log := log + [commands[i]];
      }
      TakeAll(commands);
      Replay();
    }

    method Append(e: Event)
      modifies this
      ensures shards == Appended(old(shards), e)
      ensures log == old(log) + [(|old(log)| + 1, CommandOf(e))] && lastApplied == |log|
    {
      var index := |log| + 1;
      log := log + [(index, AppendEvent(e.tenant, ToStr(e.eventType), e.actor, e.description))];
      lastApplied := index;
      var shard := if e.tenant in shards then shards[e.tenant] else Shard([], 0);
      var next := shard.tip + 1;
      shards := shards[e.tenant := Shard(shard.events + [e.(sequence := next)], next)];
    }

    method Replay()
      modifies this`shards, this`lastApplied
      ensures (shards, lastApplied) == Replayed(log)
    {
      shards, lastApplied := map[], 0;
      for i := 0 to |log|
        invariant (shards, lastApplied) == Replayed(log[..i])
      {
        TakeTake(log, i, i + 1);
        assert Replayed(log[..i + 1]) == Applied((shards, lastApplied), log[i]);
        var (index, c) := log[i];
        if index <= lastApplied {
          continue;
        }
        lastApplied := index;
        var shard := if c.tenant in shards then shards[c.tenant] else Shard([], 0);
        var next := shard.tip + 1;
        shards := shards[c.tenant :=
          Shard(shard.events + [Event(next, index, FromStr(c.eventType), c.tenant, c.actor, c.description)], next)];
      }
      TakeAll(log);
    }

    method TenantExport(tenant: nat) returns (events: seq<Event>)
      ensures events == Sort(ShardAt(shards, Some(tenant)).events, BySequence)
    {
      events := [];
      if Some(tenant) in shards {
        events := shards[Some(tenant)].events;
      }
      events := Sort(events, BySequence);
    }
  }

  /* ---------------------------------------------------------------- replay */

  /** An event as it comes back from the log: its index as time, and one type lost. */
  function Restamped(e: Event, index: nat): Event { e.(timestamp := index, eventType := Kept(e.eventType)) }

  lemma {:induction false} CommandKeeps(shards: Shards, e: Event, index: nat)
    ensures Appended(shards, EventOf(index, CommandOf(e))) == Appended(shards, Restamped(e, index))
  {
    TypeRoundTrip(e.eventType);
  }

  function RestampedAll(events: seq<Event>): (r: seq<Event>)
    ensures |r| == |events|
  {
    if events == [] then []
    else RestampedAll(events[..|events| - 1]) + [Restamped(events[|events| - 1], |events|)]
  }

  /** Replaying the log of any run of appends gives exactly the shards of that run, but for times and the one
      event type that does not survive; nothing is skipped. */
  lemma {:induction false} ReplayIsLive(events: seq<Event>)
    ensures Replayed(LogOf(events)) == (Live(RestampedAll(events)), |events|)
  {
    if events != [] {
      var n := |events| - 1;
      ReplayIsLive(events[..n]);
      CommandKeeps(Live(RestampedAll(events[..n])), events[n], n + 1);
      assert LogOf(events)[..n] == LogOf(events[..n]);
      assert RestampedAll(events)[..n] == RestampedAll(events[..n]);
    }
  }

  /* ---------------------------------------------------------------- what the shards are */

  function OfKey(events: seq<Event>, k: Key): seq<Event> {
    if events == [] then []
    else OfKey(events[..|events| - 1], k) + if events[|events| - 1].tenant == k then [events[|events| - 1]] else []
  }

  function Numbered(events: seq<Event>): (r: seq<Event>)
    ensures |r| == |events| && forall i :: 0 <= i < |r| ==> r[i] == events[i].(sequence := i + 1)
  {
    if events == [] then [] else Numbered(events[..|events| - 1]) + [events[|events| - 1].(sequence := |events|)]
  }

  /** Each shard holds exactly the events of its tenant, in the order they were appended, numbered 1 to its tip. */
  lemma {:induction false} ShardIs(events: seq<Event>, k: Key)
    ensures ShardAt(Live(events), k) == Shard(Numbered(OfKey(events, k)), |OfKey(events, k)|)
    ensures k in Live(events) <==> OfKey(events, k) != []
  {
    ShardHolds(events, k);
    ShardExists(events, k);
  }

  lemma {:induction false} ShardHolds(events: seq<Event>, k: Key)
    ensures ShardAt(Live(events), k) == Shard(Numbered(OfKey(events, k)), |OfKey(events, k)|)
  {
    if events != [] {
      var n := |events| - 1;
      ShardHolds(events[..n], k);
      OfKeyNext(events, k);
      if events[n].tenant == k {
        ShardNext(Live(events[..n]), events[n], OfKey(events[..n], k));
      } else {
        assert ShardAt(Live(events), k) == ShardAt(Live(events[..n]), k);
      }
    }
  }

  lemma {:induction false} ShardExists(events: seq<Event>, k: Key)
    ensures k in Live(events) <==> OfKey(events, k) != []
  {
    if events != [] {
      ShardExists(events[..|events| - 1], k);
      OfKeyNext(events, k);
    }
  }

  lemma {:induction false} OfKeyNext(events: seq<Event>, k: Key)
    requires events != []
    ensures var before, e := OfKey(events[..|events| - 1], k), events[|events| - 1];
            OfKey(events, k) == if e.tenant == k then before + [e] else before
  {
    AppendNothing(OfKey(events[..|events| - 1], k));
  }

  lemma {:induction false} ShardNext(shards: Shards, e: Event, mine: seq<Event>)
    requires ShardAt(shards, e.tenant) == Shard(Numbered(mine), |mine|)
    ensures ShardAt(Appended(shards, e), e.tenant) == Shard(Numbered(mine + [e]), |mine + [e]|)
  {
    NumberedMore(mine, e);
  }

  lemma {:induction false} NumberedMore(front: seq<Event>, last: Event)
    ensures Numbered(front + [last]) == Numbered(front) + [last.(sequence := |front| + 1)]
  {
    WithoutLast(front, last);
  }

  predicate Alike(a: Event, b: Event) { b == Restamped(a, b.timestamp) }

  lemma {:induction false} OfKeyRestamped(events: seq<Event>, k: Key)
    ensures |OfKey(RestampedAll(events), k)| == |OfKey(events, k)|
    ensures forall i :: 0 <= i < |OfKey(events, k)| ==> Alike(OfKey(events, k)[i], OfKey(RestampedAll(events), k)[i])
  {
    if events != [] {
      var n := |events| - 1;
      OfKeyRestamped(events[..n], k);
      assert RestampedAll(events)[..n] == RestampedAll(events[..n]);
    }
  }

  /** Shard by shard, event by event: what replay changes and what it keeps. */
  lemma {:induction false} ReplayKeeps(events: seq<Event>, k: Key)
    ensures var live, again := ShardAt(Live(events), k), ShardAt(Replayed(LogOf(events)).0, k);
            && again.tip == live.tip == |live.events| == |again.events|
            && forall i :: 0 <= i < |live.events| ==>
                 var a, b := live.events[i], again.events[i];
                 && a.sequence == b.sequence == i + 1 && a.tenant == b.tenant == k
                 && a.actor == b.actor && a.description == b.description
                 && b.eventType == Kept(a.eventType)
  {
    ReplayIsLive(events);
    ShardIs(events, k);
    ShardIs(RestampedAll(events), k);
    OfKeyRestamped(events, k);
    var mine, theirs := OfKey(events, k), OfKey(RestampedAll(events), k);
    forall i | 0 <= i < |mine|
      ensures mine[i].tenant == k && Alike(mine[i], theirs[i])
    {
      OfKeyTenant(events, k, i);
    }
  }

  lemma {:induction false} OfKeyTenant(events: seq<Event>, k: Key, i: nat)
    requires i < |OfKey(events, k)|
    ensures OfKey(events, k)[i].tenant == k
  {
    if i < |OfKey(events[..|events| - 1], k)| {
      OfKeyTenant(events[..|events| - 1], k, i);
    }
  }

  /** An export needs no sorting: it is the tenant's shard. */
  lemma {:induction false} ExportIs(events: seq<Event>, tenant: nat)
    ensures Sort(ShardAt(Live(events), Some(tenant)).events, BySequence) == Numbered(OfKey(events, Some(tenant)))
  {
    ShardIs(events, Some(tenant));
    SortSorted(Numbered(OfKey(events, Some(tenant))), BySequence);
  }

  /* ---------------------------------------------------------------- totals */

  /** The events of all shards, in whatever order the map is walked. */
  function TotalOver(shards: Shards, order: seq<Key>): nat {
    if order == [] then 0 else TotalOver(shards, order[..|order| - 1]) + |ShardAt(shards, order[|order| - 1]).events|
  }

  lemma {:induction false} TotalMore(shards: Shards, e: Event, order: seq<Key>)
    requires NoDup(order)
    ensures TotalOver(Appended(shards, e), order) == TotalOver(shards, order) + if e.tenant in order then 1 else 0
  {
    if order != [] {
      var n := |order| - 1;
      TotalMore(shards, e, order[..n]);
      assert order == order[..n] + [order[n]];
    }
  }

  lemma {:induction false} TotalNone(order: seq<Key>)
    ensures TotalOver(map[], order) == 0
  {
    if order != [] {
      TotalNone(order[..|order| - 1]);
    }
  }

  /** No event is lost or counted twice: over any walk of the shards the total is the number of appends, and the
      length of the log. */
  lemma {:induction false} TotalIs(events: seq<Event>, order: seq<Key>)
    requires NoDup(order) && forall i :: 0 <= i < |events| ==> events[i].tenant in order
    ensures TotalOver(Live(events), order) == |events| == |LogOf(events)|
  {
    if events == [] {
      TotalNone(order);
    } else {
      TotalIs(events[..|events| - 1], order);
      TotalMore(Live(events[..|events| - 1]), events[|events| - 1], order);
    }
  }

  /* ---------------------------------------------------------------- logs with other indices */

  predicate Rising(log: seq<(nat, Command)>) {
    (log == [] || log[0].0 > 0) && forall i, j :: 0 <= i < j < |log| ==> log[i].0 < log[j].0
  }

  function EventsOf(log: seq<(nat, Command)>): (events: seq<Event>)
    ensures |events| == |log| && forall i :: 0 <= i < |log| ==> events[i] == EventOf(log[i].0, log[i].1)
  {
    if log == [] then [] else EventsOf(log[..|log| - 1]) + [EventOf(log[|log| - 1].0, log[|log| - 1].1)]
  }

  /** What a log replays to, as a list of the commands that were not skipped. */
  function Taken(log: seq<(nat, Command)>): seq<(nat, Command)> {
    if log == [] then []
    else
      var n := |log| - 1;
      Taken(log[..n]) + if log[n].0 <= Replayed(log[..n]).1 then [] else [log[n]]
  }

  function LastIndex(log: seq<(nat, Command)>): nat { if log == [] then 0 else log[|log| - 1].0 }

  lemma {:induction false} RisingMore(log: seq<(nat, Command)>, x: (nat, Command))
    requires Rising(log)
    ensures Rising(log + [x]) <==> x.0 > LastIndex(log)
  {
    var more := log + [x];
    if Rising(more) && log != [] {
      assert more[|log| - 1].0 < more[|log|].0;
    }
    if x.0 > LastIndex(log) {
      forall i, j | 0 <= i < j < |more|
        ensures more[i].0 < more[j].0
      {
        if j < |log| {
          assert log[i].0 < log[j].0;
        } else if i < |log| - 1 {
          assert log[i].0 < log[|log| - 1].0;
        }
      }
    }
  }

  lemma {:induction false} TakenRises(log: seq<(nat, Command)>)
    ensures Rising(Taken(log)) && Replayed(log).1 == LastIndex(Taken(log))
  {
    if log != [] {
      var n := |log| - 1;
      TakenRises(log[..n]);
      RisingMore(Taken(log[..n]), log[n]);
    }
  }

  lemma {:induction false} LiveMore(log: seq<(nat, Command)>, x: (nat, Command))
    ensures Live(EventsOf(log + [x])) == Appended(Live(EventsOf(log)), EventOf(x.0, x.1))
  {
    assert EventsOf(log + [x])[..|log|] == EventsOf(log);
  }

  lemma {:induction false} TakenIs(log: seq<(nat, Command)>)
    ensures Replayed(log).0 == Live(EventsOf(Taken(log)))
  {
    if log != [] {
      var n := |log| - 1;
      var front := Taken(log[..n]);
      TakenIs(log[..n]);
      if log[n].0 <= Replayed(log[..n]).1 {
        assert Taken(log) == front;
      } else {
        LiveMore(front, log[n]);
        assert Taken(log) == front + [log[n]];
      }
    }
  }

  /** A log replays in full exactly when its indices rise from above zero. A store rebuilt from a log with gaps numbers
      new commands by length, so its next command can be one that a later replay skips. */
  lemma {:induction false} ReplaysInFull(log: seq<(nat, Command)>)
    ensures Taken(log) == log <==> Rising(log)
  {
    TakenRises(log);
    if Rising(log) {
      RisingTaken(log);
    }
  }

  lemma {:induction false} RisingTaken(log: seq<(nat, Command)>)
    requires Rising(log)
    ensures Taken(log) == log
  {
    if log != [] {
      var front, last := log[..|log| - 1], log[|log| - 1];
      assert Rising(front) && last.0 > LastIndex(front);
      RisingTaken(front);
      TakenRises(front);
      assert front + [last] == log;
    }
  }

  lemma {:induction false} TakenMore(log: seq<(nat, Command)>, x: (nat, Command))
    ensures Taken(log + [x]) == if x.0 <= Replayed(log).1 then Taken(log) else Taken(log) + [x]
  {
    WithoutLast(log, x);
    AppendNothing(Taken(log));
  }

  /** A command appended to a store rebuilt from any log survives the next replay exactly when the last index replayed is
      at most the length of the log; otherwise that command, and no other, is missing from the shards. */
  lemma {:induction false} NextSurvivesIff(log: seq<(nat, Command)>, c: Command)
    ensures var next := (|log| + 1, c);
            var kept := if Replayed(log).1 <= |log| then Taken(log) + [next] else Taken(log);
            Taken(log + [next]) == kept && Replayed(log + [next]).0 == Live(EventsOf(kept))
  {
    TakenMore(log, (|log| + 1, c));
    TakenIs(log + [(|log| + 1, c)]);
  }

  /** For a log that replays in full this compares its own last index with its length. */
  lemma {:induction false} RisingLast(log: seq<(nat, Command)>)
    requires Rising(log)
    ensures Taken(log) == log && Replayed(log).1 == LastIndex(log)
  {
    RisingTaken(log);
    TakenRises(log);
  }

  /** And that is so exactly when the indices are 1, 2, 3 and so on. */
  lemma {:induction false} NoGapIff(log: seq<(nat, Command)>)
    requires Rising(log)
    ensures LastIndex(log) <= |log| <==> forall i :: 0 <= i < |log| ==> log[i].0 == i + 1
  {
    if LastIndex(log) <= |log| {
      forall i | 0 <= i < |log|
        ensures log[i].0 == i + 1
      {
        RisingAtLeast(log, i);
        RisingGap(log, i);
      }
    }
  }

  lemma {:induction false} RisingAtLeast(log: seq<(nat, Command)>, i: nat)
    requires Rising(log) && i < |log|
    ensures log[i].0 >= i + 1
  {
    if i > 0 {
      RisingAtLeast(log, i - 1);
      assert log[i - 1].0 < log[i].0;
    }
  }

  lemma {:induction false} RisingGap(log: seq<(nat, Command)>, i: nat)
    requires Rising(log) && i < |log|
    ensures log[i].0 + (|log| - 1 - i) <= LastIndex(log)
    decreases |log| - i
  {
    if i < |log| - 1 {
      RisingGap(log, i + 1);
      assert log[i].0 < log[i + 1].0;
    }
  }

  lemma {:induction false} GapLosesNext(c: Command, d: Command)
    ensures var rebuilt := [(5, c)];
            var next := rebuilt + [(|rebuilt| + 1, d)];
            Taken(rebuilt) == rebuilt && Taken(next) == rebuilt
  {
    var rebuilt := [(5, c)];
    var next := rebuilt + [(|rebuilt| + 1, d)];
    assert rebuilt[..0] == [] && next[..1] == rebuilt;
    assert Replayed(rebuilt).1 == 5;
  }
}
