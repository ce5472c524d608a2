/** Right-to-forget by query: what it deletes, the guards it leaves behind, and why no later write
    brings a forgotten text back. */
module RightToForget {
  import opened Wrappers
  import opened DeletionGuards
  import opened EpisodeText
  import opened WorkingMemoryState
  import opened WorkingMemoryLaws

  datatype Tables = Tables(
    working: Rows,
    episodic: map<nat, Episode>,
    checkpoints: map<nat, string>,
    guards: Guards,
    nextEventId: nat,
    nextCheckpointId: nat)

  datatype MemoryType = Working | Episodic | All

  function WorkingText(key: string, v: Json): string {
    key + " " + v.search
  }

  /** The selector's substring test, on normalised texts. */
  ghost predicate Matches(text: string, query: string) {
    Contains(Normalize(text), Normalize(query))
  }

  /** Whether a selector finds an event: not by the text of a record an earlier request left. */
  ghost predicate EventMatches(id: nat, e: Episode, query: string) {
    SelectorText(id, e).Some? && Matches(SelectorText(id, e).value, query)
  }

  method TextMatches(text: string, query: string) returns (found: bool)
    ensures found <==> Matches(text, query)
  {
    hide Normalize;
    var haystack, needle := Normalize(text), Normalize(query);
    var i := 0;
    while i + |needle| <= |haystack|
      invariant forall j :: 0 <= j < i ==> !OccursAt(haystack, needle, j)
    {
      if haystack[i..i + |needle|] == needle {
        assert OccursAt(haystack, needle, i);
        return true;
      }
      i := i + 1;
    }
    return false;
  }

  // ----- What one request does -----

  ghost function WorkingMatches(rows: Rows, query: string): set<string> {
    set k | k in rows && Matches(WorkingText(k, rows[k]), query)
  }

  ghost function EpisodicMatches(rows: map<nat, Episode>, query: string): set<nat> {
    set id | id in rows && EventMatches(id, rows[id], query)
  }

  ghost function CheckpointMatches(rows: map<nat, string>, query: string): set<nat> {
    set id | id in rows && Matches(rows[id], query)
  }

  function Guarding(g: Guards, query: string, kind: MemoryType): Guards {
    var q := {QueryGuardHash(g.hashKey, query)};
    g.(working := if kind.Episodic? then g.working else g.working + q,
       episodic := if kind.Working? then g.episodic else g.episodic + q,
       checkpoint := if kind.All? then g.checkpoint + q else g.checkpoint)
  }

  /** What a request has besides its query: the selector's hash, and the runtime keys and review rows
      it deleted. */
  datatype Extras = Extras(selectorHash: string, runtimeKeys: nat, reviewRows: nat)

  /** The rows a request deletes. */
  datatype Targets = Targets(keys: set<string>, events: set<nat>, checkpoints: set<nat>)

  ghost function TargetsOf(t: Tables, query: string, kind: MemoryType): Targets {
    Targets(if kind.Episodic? then {} else WorkingMatches(t.working, query),
            if kind.Working? then {} else EpisodicMatches(t.episodic, query),
            if kind.All? then CheckpointMatches(t.checkpoints, query) else {})
  }

  /** The counts in the record of a request. */
  function ReportOf(g: Targets, x: Extras): Report {
    Report(x.selectorHash, |g.keys| + x.runtimeKeys, |g.events|, |g.events| + |g.checkpoints| + x.reviewRows)
  }

  function Deleted(t: Tables, g: Targets, x: Extras): Tables {
    t.(working := t.working - g.keys,
       episodic := (t.episodic - g.events)[t.nextEventId := DeletionRecord(ReportOf(g, x))],
       checkpoints := t.checkpoints - g.checkpoints,
       nextEventId := t.nextEventId + 1)
  }

  ghost function Forgotten(t: Tables, query: string, kind: MemoryType, x: Extras): Tables {
    Deleted(t, TargetsOf(t, query, kind), x).(guards := Guarding(t.guards, query, kind))
  }

  ghost function RecordOf(t: Tables, query: string, kind: MemoryType, x: Extras): Report {
    ReportOf(TargetsOf(t, query, kind), x)
  }

  // ----- What a request touches, told from the tables before and after it -----

  /** A working row goes if and only if the request reaches working memory and the row's text matches. */
  ghost predicate WorkingSpared(before: Rows, after: Rows, query: string, kind: MemoryType) {
    && (forall k :: k in after <==> k in before && (kind.Episodic? || !Matches(WorkingText(k, before[k]), query)))
    && (forall k :: k in after ==> after[k] == before[k])
  }

  /** The same for the events with ids other than the one of the request's record. */
  ghost predicate EventsSpared(
      before: map<nat, Episode>, after: map<nat, Episode>, query: string, kind: MemoryType, record: nat) {
    forall id :: id != record ==>
      && (id in after <==> id in before && (kind.Working? || !EventMatches(id, before[id], query)))
      && (id in after ==> after[id] == before[id])
  }

  /** Checkpoints go only by a request of type "all". */
  ghost predicate CheckpointsSpared(
      before: map<nat, string>, after: map<nat, string>, query: string, kind: MemoryType) {
    && (forall id :: id in after <==> id in before && !(kind.All? && Matches(before[id], query)))
    && (forall id :: id in after ==> after[id] == before[id])
  }

  /** Exactly one event is new: the record, which counts the rows that went. */
  ghost predicate LeavesRecord(before: Tables, after: Tables, x: Extras) {
    var working, events, checkpoints :=
      |before.working| - |after.working|, |before.episodic| + 1 - |after.episodic|,
      |before.checkpoints| - |after.checkpoints|;
    && working >= 0 && events >= 0 && checkpoints >= 0
    && before.nextEventId in after.episodic
    && after.episodic[before.nextEventId]
       == DeletionRecord(Report(x.selectorHash, working + x.runtimeKeys, events, events + checkpoints + x.reviewRows))
  }

  /** One scope gains the query's guard, or no guard at all. */
  ghost predicate GainsGuard(before: set<QueryGuard>, after: set<QueryGuard>, guard: QueryGuard, reached: bool) {
    forall g :: g in after <==> g in before || (reached && g == guard)
  }

  ghost predicate GuardsGained(before: Guards, after: Guards, query: string, kind: MemoryType) {
    var guard := QueryGuardHash(before.hashKey, query);
    && GainsGuard(before.working, after.working, guard, !kind.Episodic?)
    && GainsGuard(before.episodic, after.episodic, guard, !kind.Working?)
    && GainsGuard(before.checkpoint, after.checkpoint, guard, kind.All?)
    && after.hashKey == before.hashKey && after.neverStore == before.neverStore && after.keys == before.keys
  }

  ghost predicate NewIdIsFree(t: Tables) {
    forall id :: id in t.episodic ==> id < t.nextEventId
  }

  lemma LostRows<K, V>(rows: map<K, V>, gone: set<K>)
    requires gone <= rows.Keys
    ensures |rows - gone| == |rows| - |gone|
  {
    assert (rows - gone).Keys == rows.Keys - gone;
    assert |rows.Keys - gone| == |rows.Keys| - |gone|;
  }

  lemma OneMoreRow<V>(rows: map<nat, V>, id: nat, v: V)
    requires id !in rows
    ensures |rows[id := v]| == |rows| + 1
  {
    assert rows[id := v].Keys == rows.Keys + {id};
  }

  lemma RowsSpared(t: Tables, query: string, kind: MemoryType)
    ensures var g := TargetsOf(t, query, kind);
            && g.keys <= t.working.Keys && g.events <= t.episodic.Keys && g.checkpoints <= t.checkpoints.Keys
            && WorkingSpared(t.working, t.working - g.keys, query, kind)
            && EventsSpared(t.episodic, t.episodic - g.events, query, kind, t.nextEventId)
            && CheckpointsSpared(t.checkpoints, t.checkpoints - g.checkpoints, query, kind)
  {
    hide Matches, EventMatches, WorkingText;
  }

  lemma EventsBesideRecord(before: map<nat, Episode>, after: map<nat, Episode>, query: string, kind: MemoryType,
                           id: nat, record: Episode)
    requires EventsSpared(before, after, query, kind, id)
    ensures EventsSpared(before, after[id := record], query, kind, id)
  {
    hide EventMatches;
  }

  lemma RecordLeft(t: Tables, u: Tables, g: Targets, x: Extras)
    requires NewIdIsFree(t) && g.keys <= t.working.Keys && g.events <= t.episodic.Keys
    requires g.checkpoints <= t.checkpoints.Keys
    requires u.working == t.working - g.keys && u.checkpoints == t.checkpoints - g.checkpoints
    requires u.episodic == (t.episodic - g.events)[t.nextEventId := DeletionRecord(ReportOf(g, x))]
    ensures LeavesRecord(t, u, x)
  {
    var record := DeletionRecord(ReportOf(g, x));
    hide DeletionRecord, ReportOf, LeavesRecord;
    LostRows(t.working, g.keys);
    LostRows(t.episodic, g.events);
    LostRows(t.checkpoints, g.checkpoints);
    OneMoreRow(t.episodic - g.events, t.nextEventId, record);
    RecordOfCounts(t, u, g, x, record);
  }

  lemma RecordOfCounts(t: Tables, u: Tables, g: Targets, x: Extras, record: Episode)
    requires |u.working| == |t.working| - |g.keys| && |u.checkpoints| == |t.checkpoints| - |g.checkpoints|
    requires |u.episodic| == |t.episodic| - |g.events| + 1
    requires record == DeletionRecord(ReportOf(g, x))
    requires t.nextEventId in u.episodic && u.episodic[t.nextEventId] == record
    ensures LeavesRecord(t, u, x)
  {
    hide DeletionRecord;
  }

  lemma GuardAdded(g: Guards, query: string, kind: MemoryType)
    ensures GuardsGained(g, Guarding(g, query, kind), query, kind)
  {
    hide QueryGuardHash;
  }

  /** A request deletes what matches in the scopes it reaches and spares everything else. */
  lemma RequestSparesTheRest(t: Tables, query: string, kind: MemoryType, x: Extras)
    ensures var u := Forgotten(t, query, kind, x);
            && WorkingSpared(t.working, u.working, query, kind)
            && EventsSpared(t.episodic, u.episodic, query, kind, t.nextEventId)
            && CheckpointsSpared(t.checkpoints, u.checkpoints, query, kind)
            && (NewIdIsFree(t) ==> LeavesRecord(t, u, x))
            && GuardsGained(t.guards, u.guards, query, kind)
            && u.nextEventId == t.nextEventId + 1 && u.nextCheckpointId == t.nextCheckpointId
  {
    RowsSpared(t, query, kind);
    GuardAdded(t.guards, query, kind);
    RequestInParts(t, query, kind, x);
    var g, record := TargetsOf(t, query, kind), DeletionRecord(RecordOf(t, query, kind, x));
    hide *;
    EventsBesideRecord(t.episodic, t.episodic - g.events, query, kind, t.nextEventId, record);
    if NewIdIsFree(t) {
      RecordLeft(t, Forgotten(t, query, kind, x), g, x);
    }
  }

  lemma RequestInParts(t: Tables, query: string, kind: MemoryType, x: Extras)
    ensures var g, u := TargetsOf(t, query, kind), Forgotten(t, query, kind, x);
            && u.working == t.working - g.keys && u.checkpoints == t.checkpoints - g.checkpoints
            && u.episodic == (t.episodic - g.events)[t.nextEventId := DeletionRecord(ReportOf(g, x))]
            && u.guards == Guarding(t.guards, query, kind)
            && RecordOf(t, query, kind, x) == ReportOf(g, x)
            && u.nextEventId == t.nextEventId + 1 && u.nextCheckpointId == t.nextCheckpointId
  {
    hide TargetsOf, ReportOf, DeletionRecord, Guarding;
  }

  /** The tables of one brain file under the operations that write texts into them. */
  class SqliteBrain {
    var tables: Tables

    constructor (tables: Tables)
      ensures this.tables == tables
    {
      this.tables := tables;
    }

    method MatchingWorkingKeys(query: string) returns (keys: set<string>)
      ensures keys == WorkingMatches(tables.working, query)
    {
      hide Matches;
      var rows := tables.working;
      var todo := rows.Keys;
      keys := {};
      while todo != {}
        invariant todo <= rows.Keys
        invariant keys == set k | k in rows && k !in todo && Matches(WorkingText(k, rows[k]), query)
      {
        var key :| key in todo;
        var found := TextMatches(WorkingText(key, rows[key]), query);
        keys := if found then keys + {key} else keys;
        todo := todo - {key};
      }
    }

    method MatchingEpisodicIds(query: string) returns (ids: set<nat>)
      ensures ids == EpisodicMatches(tables.episodic, query)
    {
      hide Matches, SelectorText;
      var rows := tables.episodic;
      var todo := rows.Keys;
      ids := {};
      while todo != {}
        invariant todo <= rows.Keys
        invariant ids == set id | id in rows && id !in todo && EventMatches(id, rows[id], query)
      {
        var id :| id in todo;
        var text := SelectorText(id, rows[id]);
        if text.Some? {
          var found := TextMatches(text.value, query);
          ids := if found then ids + {id} else ids;
        }
        todo := todo - {id};
      }
    }

    method MatchingCheckpointIds(query: string) returns (ids: set<nat>)
      ensures ids == CheckpointMatches(tables.checkpoints, query)
    {
      hide Matches;
      var rows := tables.checkpoints;
      var todo := rows.Keys;
      ids := {};
      while todo != {}
        invariant todo <= rows.Keys
        invariant ids == set id | id in rows && id !in todo && Matches(rows[id], query)
      {
        var id :| id in todo;
        var found := TextMatches(rows[id], query);
        ids := if found then ids + {id} else ids;
        todo := todo - {id};
      }
    }

    /** Forgets a query: deletes what it matches, guards against its return, leaves a record with the
        counts. Queries with fewer than eight normalised characters are refused. */
    method RightToForget(query: string, kind: MemoryType, dryRun: bool, x: Extras) returns (done: bool)
      modifies this
      ensures done <==> |Normalize(query)| >= MIN_QUERY_GUARD_CHUNK_LENGTH && !dryRun
      ensures tables == if done then Forgotten(old(tables), query, kind, x) else old(tables)
      ensures done ==>
        && WorkingSpared(old(tables).working, tables.working, query, kind)
        && EventsSpared(old(tables).episodic, tables.episodic, query, kind, old(tables).nextEventId)
        && CheckpointsSpared(old(tables).checkpoints, tables.checkpoints, query, kind)
        && (NewIdIsFree(old(tables)) ==> LeavesRecord(old(tables), tables, x))
        && GuardsGained(old(tables).guards, tables.guards, query, kind)
        && tables.nextEventId == old(tables).nextEventId + 1
    {
      if |Normalize(query)| < MIN_QUERY_GUARD_CHUNK_LENGTH || dryRun {
        return false;
      }
      hide WorkingMatches, EpisodicMatches, CheckpointMatches, Deleted, Normalize, Guarding, WorkingSpared,
           EventsSpared, CheckpointsSpared, NewIdIsFree, LeavesRecord, GuardsGained;
      RequestSparesTheRest(tables, query, kind, x);
      var keys, events, checkpoints := {}, {}, {};
      if !kind.Episodic? {
        keys := MatchingWorkingKeys(query);
      }
      if !kind.Working? {
        events := MatchingEpisodicIds(query);
      }
      if kind.All? {
        checkpoints := MatchingCheckpointIds(query);
      }
      tables := Deleted(tables, Targets(keys, events, checkpoints), x);
      tables := tables.(guards := Guarding(tables.guards, query, kind));
      return true;
    }

    /** Records an event unless a guard refuses its text. */
    method Record(e: Episode) returns (ok: bool)
      modifies this
      ensures ok <==> !QueryRefused(tables.guards.episodic, tables.guards.hashKey, FullText(e))
      ensures tables == if ok then Recorded(old(tables), e) else old(tables)
      ensures ok ==> old(tables).nextEventId in tables.episodic && tables.episodic[old(tables).nextEventId] == e
      ensures NewIdIsFree(old(tables)) ==> NewIdIsFree(tables) && forall id :: id in old(tables).episodic ==>
        id in tables.episodic && tables.episodic[id] == old(tables).episodic[id]
    {
      hide QueryRefused, FullText;
      var refused := HasAnyDeletionQueryGuard(tables.guards.episodic, tables.guards.hashKey, FullText(e));
      if refused {
        return false;
      }
      tables := Recorded(tables, e);
      return true;
    }
  }

  function Recorded(t: Tables, e: Episode): Tables {
    t.(episodic := t.episodic[t.nextEventId := e], nextEventId := t.nextEventId + 1)
  }

  // ----- Later runs -----

  /** Every operation that writes or removes rows: flushes of any cache, single persisted keys,
      expiry and retention deletions, records, checkpoints, and further requests. */
  datatype Step =
    | Flush(cache: Cache, now: int)
    | PersistKey(key: string, value: Json)
    | RemoveRows(keys: set<string>, events: set<nat>, checkpoints: set<nat>)
    | Record(event: Episode)
    | Checkpoint(state: string)
    | Forget(query: string, kind: MemoryType, extras: Extras)
    | NeverStore(key: string)

  ghost predicate Allowed(t: Tables, s: Step) {
    match s
    case Flush(c, _) => Consistent(c)
    case PersistKey(key, v) => !WorkingRefused(t.guards, key, v.search)
    case RemoveRows(_, _, _) => true
    case Record(e) => !e.details.Malformed? && !QueryRefused(t.guards.episodic, t.guards.hashKey, FullText(e))
    case Checkpoint(state) => !QueryRefused(t.guards.checkpoint, t.guards.hashKey, state)
    case Forget(query, kind, x) =>
      |Normalize(query)| >= MIN_QUERY_GUARD_CHUNK_LENGTH && ValidReport(RecordOf(t, query, kind, x))
    case NeverStore(_) => true
  }

  ghost function After(t: Tables, s: Step): Tables
    requires Allowed(t, s)
  {
    match s
    case Flush(c, now) => t.(working := FlushedTable(c, t.working, t.guards, now))
    case PersistKey(key, v) => t.(working := t.working[key := v])
    case RemoveRows(keys, events, ids) =>
      t.(working := t.working - keys, episodic := t.episodic - events, checkpoints := t.checkpoints - ids)
    case Record(e) => Recorded(t, e)
    case Checkpoint(state) =>
      t.(checkpoints := t.checkpoints[t.nextCheckpointId := state], nextCheckpointId := t.nextCheckpointId + 1)
    case Forget(query, kind, x) => Forgotten(t, query, kind, x)
    case NeverStore(key) =>
      t.(working := t.working - {key}, guards := t.guards.(neverStore := t.guards.neverStore + {key}))
  }

  ghost predicate IsRun(t: Tables, steps: seq<Step>)
    decreases |steps|
  {
    steps == [] || (Allowed(t, steps[0]) && IsRun(After(t, steps[0]), steps[1..]))
  }

  ghost function RunFrom(t: Tables, steps: seq<Step>): Tables
    requires IsRun(t, steps)
    decreases |steps|
  {
    if steps == [] then t else RunFrom(After(t, steps[0]), steps[1..])
  }

  /** The id of the next event stays free, so no event is ever written over. */
  lemma {:induction false} NewIdsStayFree(t: Tables, steps: seq<Step>)
    requires NewIdIsFree(t) && IsRun(t, steps)
    ensures NewIdIsFree(RunFrom(t, steps)) && t.nextEventId <= RunFrom(t, steps).nextEventId
    decreases |steps|
  {
    hide Matches, Normalize, QueryRefused, FlushedTable, WorkingText, FullText, Guarding, DeletionRecord, ReportOf,
         ValidReport, WorkingRefused, SelectorText;
    if steps != [] {
      NewIdsStayFree(After(t, steps[0]), steps[1..]);
    }
  }

  ghost predicate GuardsWellFormed(g: Guards) {
    WellFormed(g.working, g.hashKey) && WellFormed(g.episodic, g.hashKey) && WellFormed(g.checkpoint, g.hashKey)
  }

  ghost predicate WorkingFree(rows: Rows, query: string) {
    forall k :: k in rows ==> !Matches(WorkingText(k, rows[k]), query)
  }

  ghost predicate SeenEventsFree(rows: map<nat, Episode>, query: string) {
    forall id :: id in rows && !Exempt(id, rows[id]) ==> !Matches(FullText(rows[id]), query)
  }

  ghost predicate CheckpointsFree(rows: map<nat, string>, query: string) {
    forall id :: id in rows ==> !Matches(rows[id], query)
  }

  /** In every scope a request of this type reaches, the query is guarded and no row contains it but
      events selectors do not see whole: the records requests leave, and quarantine envelopes. */
  ghost predicate IsForgotten(t: Tables, query: string, kind: MemoryType) {
    var q := Normalize(query);
    && (!kind.Episodic? ==> q in ForgottenQueries(t.guards.working) && WorkingFree(t.working, query))
    && (!kind.Working? ==> q in ForgottenQueries(t.guards.episodic) && SeenEventsFree(t.episodic, query))
    && (kind.All? ==> q in ForgottenQueries(t.guards.checkpoint) && CheckpointsFree(t.checkpoints, query))
  }

  /** A flush writes only rows that were there or that no guard refuses. */
  lemma FlushedRowIsOldOrAllowed(c: Cache, table: Rows, g: Guards, now: int, k: string)
    requires Consistent(c) && k in FlushedTable(c, table, g, now)
    ensures var v := FlushedTable(c, table, g, now)[k];
            (k in table && table[k] == v) || !WorkingRefused(g, k, v.search)
  {
    hide WorkingRefused, FlushedTable;
    FlushIsPerKeyMerge(c, table, g, now, k);
  }

  /** A guarded query is in no text a guard lets through. */
  lemma AllowedTextDoesNotMatch(guards: set<QueryGuard>, hashKey: string, text: string, query: string)
    requires WellFormed(guards, hashKey) && Normalize(query) in ForgottenQueries(guards)
    requires !QueryRefused(guards, hashKey, text)
    ensures !Matches(text, query)
  {
    hide QueryRefused, Normalize;
    if Matches(text, query) {
      ForgottenTextIsRefused(guards, hashKey, text, Normalize(query));
    }
  }

  lemma AddingGuard(guards: set<QueryGuard>, hashKey: string, query: string)
    requires WellFormed(guards, hashKey) && Normalize(query) != ""
    ensures var more := guards + {QueryGuardHash(hashKey, query)};
            && WellFormed(more, hashKey)
            && ForgottenQueries(more) == ForgottenQueries(guards) + {Normalize(query)}
  {
    hide Normalize, IsNormal;
    NormalizeIsNormal(query);
    var h := QueryGuardHash(hashKey, query);
    var more := guards + {h};
    assert h in more && h.hash.text == Normalize(query);
  }

  /** A request adds its query to the forgotten ones of each scope it reaches, and to no other. */
  lemma GuardingKeepsGuards(g: Guards, query: string, kind: MemoryType)
    requires GuardsWellFormed(g) && Normalize(query) != ""
    ensures var g', q := Guarding(g, query, kind), {Normalize(query)};
            && GuardsWellFormed(g')
            && ForgottenQueries(g'.working) == ForgottenQueries(g.working) + (if kind.Episodic? then {} else q)
            && ForgottenQueries(g'.episodic) == ForgottenQueries(g.episodic) + (if kind.Working? then {} else q)
            && ForgottenQueries(g'.checkpoint) == ForgottenQueries(g.checkpoint) + (if kind.All? then q else {})
            && g'.hashKey == g.hashKey && g'.neverStore == g.neverStore && g'.keys == g.keys
  {
    hide Normalize, WellFormed, ForgottenQueries, QueryGuardHash;
    AddingGuard(g.working, g.hashKey, query);
    AddingGuard(g.episodic, g.hashKey, query);
    AddingGuard(g.checkpoint, g.hashKey, query);
  }

  /** Right after a request, only exempt events of the scopes it reaches may still contain the query. */
  lemma RequestForgets(t: Tables, query: string, kind: MemoryType, x: Extras)
    requires GuardsWellFormed(t.guards) && |Normalize(query)| >= MIN_QUERY_GUARD_CHUNK_LENGTH
    requires ValidReport(RecordOf(t, query, kind, x))
    ensures IsForgotten(Forgotten(t, query, kind, x), query, kind)
    ensures GuardsWellFormed(Forgotten(t, query, kind, x).guards)
  {
    hide Matches, Normalize, ReportOf, SelectorText, Exempt, DeletionRecord, FullText, Guarding, WellFormed,
         ForgottenQueries;
    GuardingKeepsGuards(t.guards, query, kind);
    EveryEventChecked(t, query);
    RecordStaysExempt(t.nextEventId, RecordOf(t, query, kind, x));
  }

  lemma EveryEventChecked(t: Tables, query: string)
    ensures SeenEventsFree(t.episodic - EpisodicMatches(t.episodic, query), query)
  {
    hide Matches, SelectorText, Exempt, FullText;
    forall id | id in t.episodic ensures !Exempt(id, t.episodic[id]) ==>
      SelectorText(id, t.episodic[id]) == Some(FullText(t.episodic[id]))
    {
      SeenWhole(id, t.episodic[id]);
    }
  }

  lemma RecordStaysExempt(id: nat, r: Report)
    requires ValidReport(r)
    ensures Exempt(id, DeletionRecord(r))
  {
    hide IsDeletionRecord, DeletionRecord, ValidReport;
    RecordIsExempt(r);
  }

  lemma StepKeepsForgotten(t: Tables, s: Step, query: string, kind: MemoryType)
    requires GuardsWellFormed(t.guards) && Allowed(t, s) && IsForgotten(t, query, kind)
    ensures GuardsWellFormed(After(t, s).guards) && IsForgotten(After(t, s), query, kind)
  {
    hide Matches, Normalize, QueryRefused, FlushedTable, WorkingText, FullText, WellFormed, ForgottenQueries,
         Guarding, DeletionRecord, ReportOf, ValidReport, Exempt, SelectorText;
    match s
    case Flush(c, now) =>
      if !kind.Episodic? {
        FlushKeepsFree(t, c, now, query);
      }
    case PersistKey(key, v) =>
      if !kind.Episodic? {
        AllowedWorkingDoesNotMatch(t.guards, key, v, query);
      }
    case RemoveRows(_, _, _) =>
    case Record(e) =>
      if !kind.Working? {
        AllowedTextDoesNotMatch(t.guards.episodic, t.guards.hashKey, FullText(e), query);
      }
    case Checkpoint(state) =>
      if kind.All? {
        AllowedTextDoesNotMatch(t.guards.checkpoint, t.guards.hashKey, state, query);
      }
    case Forget(other, reach, x) =>
      GuardingKeepsGuards(t.guards, other, reach);
      RecordStaysExempt(t.nextEventId, RecordOf(t, other, reach, x));
    case NeverStore(_) =>
  }

  lemma FlushKeepsFree(t: Tables, c: Cache, now: int, query: string)
    requires GuardsWellFormed(t.guards) && Consistent(c) && WorkingFree(t.working, query)
    requires Normalize(query) in ForgottenQueries(t.guards.working)
    ensures WorkingFree(FlushedTable(c, t.working, t.guards, now), query)
  {
    hide Matches, Normalize, FlushedTable, WorkingText, WorkingRefused, ForgottenQueries, WellFormed;
    var after := FlushedTable(c, t.working, t.guards, now);
    forall k | k in after ensures !Matches(WorkingText(k, after[k]), query) {
      FlushedRowIsOldOrAllowed(c, t.working, t.guards, now, k);
      if !WorkingRefused(t.guards, k, after[k].search) {
        AllowedWorkingDoesNotMatch(t.guards, k, after[k], query);
      }
    }
  }

  lemma AllowedWorkingDoesNotMatch(g: Guards, key: string, v: Json, query: string)
    requires GuardsWellFormed(g) && Normalize(query) in ForgottenQueries(g.working)
    requires !WorkingRefused(g, key, v.search)
    ensures !Matches(WorkingText(key, v), query)
  {
    hide Matches, Normalize, QueryRefused, WellFormed;
    AllowedTextDoesNotMatch(g.working, g.hashKey, WorkingText(key, v), query);
  }

  /** Forgetting is permanent: no run of writes, flushes and further requests brings the query back
      into a scope it was forgotten in. */
  lemma {:induction false} ForgottenForever(t: Tables, steps: seq<Step>, query: string, kind: MemoryType)
    requires GuardsWellFormed(t.guards) && IsForgotten(t, query, kind) && IsRun(t, steps)
    ensures IsForgotten(RunFrom(t, steps), query, kind)
    decreases |steps|
  {
    hide IsForgotten, GuardsWellFormed, Allowed, After;
    if steps != [] {
      StepKeepsForgotten(t, steps[0], query, kind);
      ForgottenForever(After(t, steps[0]), steps[1..], query, kind);
    }
  }

  lemma ForgottenAfterRequest(t: Tables, query: string, kind: MemoryType, x: Extras, steps: seq<Step>)
    requires GuardsWellFormed(t.guards) && |Normalize(query)| >= MIN_QUERY_GUARD_CHUNK_LENGTH
    requires ValidReport(RecordOf(t, query, kind, x)) && IsRun(Forgotten(t, query, kind, x), steps)
    ensures IsForgotten(RunFrom(Forgotten(t, query, kind, x), steps), query, kind)
  {
    hide IsForgotten, GuardsWellFormed, Forgotten, ValidReport, ReportOf;
    RequestForgets(t, query, kind, x);
    ForgottenForever(Forgotten(t, query, kind, x), steps, query, kind);
  }

  // ----- When no row at all contains the query -----

  ghost predicate EventsFree(rows: map<nat, Episode>, query: string) {
    forall id :: id in rows ==> !Matches(FullText(rows[id]), query)
  }

  /** No row of the scopes a request of this type reaches contains the query, records of requests
      included. */
  ghost predicate TraceFree(t: Tables, query: string, kind: MemoryType) {
    && (!kind.Episodic? ==> WorkingFree(t.working, query))
    && (!kind.Working? ==> EventsFree(t.episodic, query))
    && (kind.All? ==> CheckpointsFree(t.checkpoints, query))
  }

  /** An event a request leaves although it contains the query. */
  ghost predicate Spared(id: nat, e: Episode, query: string) {
    Matches(FullText(e), query) && !EventMatches(id, e, query)
  }

  lemma SparedIsExempt(id: nat, e: Episode, query: string)
    requires Spared(id, e, query)
    ensures Exempt(id, e)
  {
    hide Exempt, SelectorText, FullText, Matches;
    SeenWhole(id, e);
  }

  lemma EventsLeft(rows: map<nat, Episode>, query: string, n: nat, record: Episode)
    requires n !in rows
    ensures EventsFree((rows - EpisodicMatches(rows, query))[n := record], query) <==>
      !Matches(FullText(record), query) && forall id :: id in rows ==> !Spared(id, rows[id], query)
  {
    hide Matches, SelectorText, FullText, EventMatches;
    var left := (rows - EpisodicMatches(rows, query))[n := record];
    forall id | id in rows ensures EventsFree(left, query) ==> !Spared(id, rows[id], query) {
      if !EventMatches(id, rows[id], query) {
        assert id in left && left[id] == rows[id];
      }
    }
    assert left[n] == record;
  }

  lemma OtherRowsLeft(t: Tables, query: string)
    ensures WorkingFree(t.working - WorkingMatches(t.working, query), query)
    ensures CheckpointsFree(t.checkpoints - CheckpointMatches(t.checkpoints, query), query)
  {
    hide Matches, WorkingText;
  }

  /** After one request no row of the scopes it reaches contains the query if and only if it does not
      reach events, or neither its own record contains the query nor an event it has to spare. */
  lemma RequestLeavesNoTrace(t: Tables, query: string, kind: MemoryType, x: Extras)
    requires NewIdIsFree(t)
    ensures TraceFree(Forgotten(t, query, kind, x), query, kind) <==>
      || kind.Working?
      || (&& !Matches(FullText(DeletionRecord(RecordOf(t, query, kind, x))), query)
          && forall id :: id in t.episodic ==> !Spared(id, t.episodic[id], query))
  {
    EventsLeft(t.episodic, query, t.nextEventId, DeletionRecord(RecordOf(t, query, kind, x)));
    OtherRowsLeft(t, query);
    hide Matches, FullText, DeletionRecord, ReportOf, Spared, EventsFree, WorkingFree, CheckpointsFree,
         WorkingMatches, EpisodicMatches, CheckpointMatches, Guarding;
  }

  /** The record a step leaves, if it is a request. */
  ghost predicate LeavesTrace(t: Tables, s: Step, query: string) {
    s.Forget? && Matches(FullText(DeletionRecord(RecordOf(t, s.query, s.kind, s.extras))), query)
  }

  ghost predicate TraceFreeThroughout(t: Tables, steps: seq<Step>, query: string, kind: MemoryType)
    requires IsRun(t, steps)
    decreases |steps|
  {
    TraceFree(t, query, kind) && (steps != [] ==> TraceFreeThroughout(After(t, steps[0]), steps[1..], query, kind))
  }

  ghost predicate NoRecordMatches(t: Tables, steps: seq<Step>, query: string)
    requires IsRun(t, steps)
    decreases |steps|
  {
    steps != [] ==>
      !LeavesTrace(t, steps[0], query) && NoRecordMatches(After(t, steps[0]), steps[1..], query)
  }

  lemma RecordedEvent(t: Tables, s: Step, query: string, kind: MemoryType)
    requires GuardsWellFormed(t.guards) && Allowed(t, s) && IsForgotten(t, query, kind) && !kind.Working?
    requires EventsFree(t.episodic, query)
    ensures EventsFree(After(t, s).episodic, query) <==> !LeavesTrace(t, s, query)
  {
    hide Matches, Normalize, QueryRefused, FlushedTable, WorkingText, FullText, WellFormed, ForgottenQueries,
         Guarding, DeletionRecord, ReportOf, ValidReport, Exempt, SelectorText, WorkingRefused;
    var next := After(t, s);
    match s
    case Record(e) => AllowedTextDoesNotMatch(t.guards.episodic, t.guards.hashKey, FullText(e), query);
    case Forget(other, reach, x) =>
      assert next.episodic[t.nextEventId] == DeletionRecord(RecordOf(t, other, reach, x));
    case _ =>
  }

  /** Once a query is forgotten, no row of any later state contains it, in the scopes it was forgotten
      in, if and only if none does at first and no later request leaves a record that does. */
  lemma {:induction false} RunLeavesNoTrace(t: Tables, steps: seq<Step>, query: string, kind: MemoryType)
    requires GuardsWellFormed(t.guards) && IsForgotten(t, query, kind) && IsRun(t, steps)
    ensures TraceFreeThroughout(t, steps, query, kind) <==>
      TraceFree(t, query, kind) && (kind.Working? || NoRecordMatches(t, steps, query))
    decreases |steps|
  {
    hide GuardsWellFormed, Allowed, After, LeavesTrace, Matches, Normalize, ForgottenQueries, EventsFree,
         WorkingFree, SeenEventsFree, CheckpointsFree;
    if steps != [] && TraceFree(t, query, kind) {
      StepKeepsForgotten(t, steps[0], query, kind);
      RunLeavesNoTrace(After(t, steps[0]), steps[1..], query, kind);
      if !kind.Working? {
        RecordedEvent(t, steps[0], query, kind);
      }
    }
  }

  lemma TrimmedText(s: string)
    requires s != "" && !IsSpace(s[0]) && !IsSpace(s[|s| - 1])
    ensures Normalize(s) == Lower(s)
  {
    assert TrimStart(s) == s && TrimEnd(s) == s;
  }

  /** A query about forgetting is found again in the record of having forgotten it. */
  lemma RecordMayMatch(r: Report)
    requires ValidReport(r)
    ensures Matches(FullText(DeletionRecord(r)), AUDIT_STEP)
    ensures |Normalize(AUDIT_STEP)| >= MIN_QUERY_GUARD_CHUNK_LENGTH
  {
    hide Normalize, TrimStart, TrimEnd, FullText, DeletionRecord;
    var text, q := FullText(DeletionRecord(r)), AUDIT_STEP;
    RecordEndsVisibly(r);
    assert IsNormal(q);
    NormalizeFixesNormal(q);
    assert text[0] == text[..15][0];
    TrimmedText(text);
    assert forall i :: 0 <= i < 15 ==> Lower(text)[i] == LowerChar(text[i]) == LowerChar(text[..15][i]) == q[i];
    assert OccursAt(Lower(text), q, 0);
  }

  /** A request whose own record contains the query it forgets. */
  lemma RequestMayLeaveTrace(t: Tables, hash: string)
    requires t.working == map[] && t.episodic == map[] && t.checkpoints == map[] && IsSelectorHash(hash)
    ensures !TraceFree(Forgotten(t, AUDIT_STEP, All, Extras(hash, 0, 0)), AUDIT_STEP, All)
  {
    hide Matches, Normalize, FullText, DeletionRecord;
    RecordMayMatch(RecordOf(t, AUDIT_STEP, All, Extras(hash, 0, 0)));
    RequestLeavesNoTrace(t, AUDIT_STEP, All, Extras(hash, 0, 0));
  }
}
