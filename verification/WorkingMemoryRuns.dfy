/** The cache invariants over every run of calls, failing ones and other writers included: each call
    keeps them exactly when it meets its condition. */
module WorkingMemoryRuns {
  import opened Wrappers
  import opened DeletionGuards
  import opened WorkingMemoryState
  import opened WorkingMemoryLaws
  import opened WorkingMemoryCalls
  import opened WorkingMemoryInvariants

  datatype Process = Process(cache: Cache, table: Rows, guards: Guards)

  /** Every call that changes the cache, with what decides its outcome, and whatever other writers do
      to the table and the guards. */
  datatype Call =
    | Set(key: string, value: Option<Json>, now: int, auditOk: bool, stop: Stop)
    | Delete(key: string, auditOk: bool)
    | Restore(snap: map<string, Option<Json>>, auditOk: bool)
    | Clear(auditOk: bool)
    | Flush(now: int, auditOk: bool, seen: set<string>)
    | SetAndFlush(key: string, value: Option<Json>, now: int, setAuditOk: bool, flushAuditOk: bool)
    | Persist(key: string, value: Option<Json>, now: int, mode: Mode, stop: Stop)
    | Purge(key: string, mode: Mode)
    | Checkpoint(now: int, checks: Checks, seen: set<string>)
    | Elsewhere(table: Rows, guards: Guards)

  ghost function AfterCall(w: Process, limits: Limits, call: Call): Outcome {
    var c, table, g := w.cache, w.table, w.guards;
    match call
    case Set(key, value, now, auditOk, stop) => AfterSet(c, limits, g, table, key, value, now, auditOk, stop)
    case Delete(key, auditOk) => Outcome(AfterDelete(c, key, auditOk), table)
    case Restore(snap, auditOk) => Outcome(AfterRestore(c, limits, g, snap, auditOk), table)
    case Clear(auditOk) => Outcome(AfterClear(c, auditOk), table)
    case Flush(now, auditOk, seen) => AfterFlush(c, limits, g, table, now, auditOk, seen)
    case SetAndFlush(key, value, now, setAuditOk, flushAuditOk) =>
      AfterSetAndFlush(c, limits, g, table, key, value, now, setAuditOk, flushAuditOk)
    case Persist(key, value, now, mode, stop) => AfterPersist(c, limits, g, table, key, value, now, mode, stop)
    case Purge(key, mode) => AfterPurge(c, table, key, mode)
    case Checkpoint(now, checks, seen) => AfterCheckpoint(c, limits, g, table, now, checks, seen)
    case Elsewhere(other, _) => Outcome(c, other)
  }

  ghost function Next(w: Process, limits: Limits, call: Call): Process {
    var o := AfterCall(w, limits, call);
    Process(o.cache, o.table, if call.Elsewhere? then call.guards else w.guards)
  }

  /** A sweep that fails stops at a row too large. */
  ghost predicate Possible(w: Process, limits: Limits, call: Call) {
    (call.Set? || call.Persist?) && SweepFails(w.cache, limits, w.table, call.now) ==>
      StopsAt(w.cache, limits, w.table, call.now, call.stop)
  }

  // ----- The condition of each call -----

  /** A store that gets as far as its audit record, which fails. */
  ghost predicate RollsBack(w: Process, limits: Limits, call: Call) {
    && call.Set? && !call.auditOk && Acceptable(limits, w.guards, call.key, call.value)
    && Fits(w.cache, limits, w.table, call.now, call.key, call.value.value)
  }

  /** A flush that fails after it has reloaded the view. */
  ghost predicate FailsToFlush(w: Process, limits: Limits, call: Call) {
    && (call.Flush? || (call.Checkpoint? && call.checks.accepted))
    && RowKeysValid(w.table)
    && !PreparedFits(limits, Candidate(w.cache, w.table, call.now), w.table, w.guards, call.now)
  }

  /** A call that leaves the cache as the expiry sweep left it. */
  ghost predicate OnlySweeps(w: Process, limits: Limits, call: Call) {
    && (call.Set? || call.Persist?)
    && Acceptable(limits, w.guards, call.key, call.value)
    && (|| !Fits(w.cache, limits, w.table, call.now, call.key, call.value.value)
        || (call.Persist? && call.mode.RolledBack?))
  }

  ghost predicate CountsKept(w: Process, limits: Limits, call: Call) {
    RollsBack(w, limits, call) ==> SweepKeepsBytesBeside(w.cache, w.table, call.now, call.key)
  }

  ghost predicate ViewKept(w: Process, limits: Limits, call: Call) {
    && (RollsBack(w, limits, call) ==> !CleanAndExpired(w.cache, call.now, call.key))
    && (FailsToFlush(w, limits, call) ==>
         TableExplains(w.cache, w.table) && call.seen !! Lapsing(w.cache, w.table, call.now))
  }

  ghost predicate LimitsKept(w: Process, limits: Limits, call: Call) {
    OnlySweeps(w, limits, call) ==> SweepStaysSmall(w.cache, limits, w.table, call.now, call.stop)
  }

  // ----- Byte count and maps -----

  lemma SetKeepsAccounting(w: Process, limits: Limits, call: Call)
    requires call.Set? && Accounted(w.cache, limits) && Possible(w, limits, call)
    ensures Accounted(Next(w, limits, call).cache, limits) <==> CountsKept(w, limits, call)
  {
    hide Accounted, WorkingRefused, Preparable, SweepFails, HasRoom, WithEntry, SetRolledBack, Swept,
         SweptTable, Stopped, SweepKeepsBytesBeside, ExpiredKeys, StopsAt;
    var c := w.cache;
    SweepOutcomeIsAccounted(c, limits, w.table, call.now, call.stop);
    if Acceptable(limits, w.guards, call.key, call.value)
       && Fits(c, limits, w.table, call.now, call.key, call.value.value) {
      StoreKeepsAccounting(AllSwept(c, w.table, call.now).cache, limits, call.key, call.value.value);
      SetRollbackAccounting(c, limits, w.table, call.now, call.key);
    }
  }

  lemma PersistKeepsAccounting(w: Process, limits: Limits, call: Call)
    requires call.Persist? && Accounted(w.cache, limits) && Possible(w, limits, call)
    ensures Accounted(Next(w, limits, call).cache, limits)
  {
    hide Accounted, WorkingRefused, Preparable, SweepFails, HasRoom, Persisted, Swept, SweptTable, Stopped, StopsAt;
    SweepOutcomeIsAccounted(w.cache, limits, w.table, call.now, call.stop);
    if Acceptable(limits, w.guards, call.key, call.value) {
      var swept := AfterSweep(w.cache, limits, w.table, call.now, call.stop).cache;
      PersistingKeepsAccounting(swept, limits, call.key, call.value.value);
    }
  }

  lemma FlushOutcomeIsAccounted(
      c: Cache, limits: Limits, g: Guards, table: Rows, now: int, auditOk: bool, seen: set<string>)
    requires Accounted(c, limits)
    ensures Accounted(AfterFlush(c, limits, g, table, now, auditOk, seen).cache, limits)
  {
    hide Accounted, PreparedFits, RowKeysValid, FailedRefresh, Refreshed, InStep, WithinLimits, Settled, FlushedTable;
    if PreparedFits(limits, Candidate(c, table, now), table, g, now) {
      RefreshedIsAccounted(c, limits, table, g, now);
      FlushedCacheIsAccounted(c, limits, table, g, now);
    }
    FailedRefreshIsAccounted(c, limits, table, now, seen);
  }

  lemma UndoneIsAccounted(c: Cache, limits: Limits, g: Guards, table: Rows, now: int)
    requires PreparedFits(limits, Candidate(c, table, now), table, g, now)
    ensures Accounted(FlushUndone(c, g, table, now), limits) && InStep(FlushUndone(c, g, table, now))
    ensures WithinLimits(FlushUndone(c, g, table, now), limits)
  {
    hide Accounted, PreparedFits, Refreshed, InStep, WithinLimits, Settled;
    RefreshedIsAccounted(c, limits, table, g, now);
    SettledIsAccounted(Refreshed(c, table, g, now), limits);
  }

  lemma CheckpointIsAccounted(w: Process, limits: Limits, call: Call)
    requires call.Checkpoint? && Accounted(w.cache, limits)
    ensures Accounted(Next(w, limits, call).cache, limits)
  {
    hide Accounted, PreparedFits, AfterFlush, FlushUndone, InStep, WithinLimits;
    FlushOutcomeIsAccounted(w.cache, limits, w.guards, w.table, call.now, call.checks.flushAuditOk, call.seen);
    if PreparedFits(limits, Candidate(w.cache, w.table, call.now), w.table, w.guards, call.now) {
      UndoneIsAccounted(w.cache, limits, w.guards, w.table, call.now);
    }
  }

  lemma SetAndFlushIsFlushed(w: Process, limits: Limits, call: Call)
    requires call.SetAndFlush?
    ensures var after := Next(w, limits, call).cache;
            after == w.cache || (Accounted(after, limits) && InStep(after) && WithinLimits(after, limits))
  {
    hide Accounted, InStep, WithinLimits, PreparedFits, FlushedCache, FlushedTable, WithEntry, Swept,
         SweptTable, Preparable, WorkingRefused, Fits;
    var c, g := w.cache, w.guards;
    if StoresAndFlushes(c, limits, g, w.table, call.key, call.value, call.now, call.setAuditOk, call.flushAuditOk) {
      var swept := AllSwept(c, w.table, call.now);
      FlushedCacheIsAccounted(WithEntry(swept.cache, call.key, call.value.value), limits, swept.table, g, call.now);
    }
  }

  /** A call keeps the accounting if and only if it is no rolled-back store after a sweep that changed
      the byte count of the other keys. */
  lemma CallKeepsCounts(w: Process, limits: Limits, call: Call)
    requires Accounted(w.cache, limits) && Possible(w, limits, call)
    ensures Accounted(Next(w, limits, call).cache, limits) <==> CountsKept(w, limits, call)
  {
    hide Accounted, Possible, AfterSet, AfterFlush, AfterPersist, AfterCheckpoint, AfterSetAndFlush,
         WithoutEntry, Erased, Restored, SnapshotFits, InStep, WithinLimits, Acceptable, Fits,
         SweepKeepsBytesBeside, SizeMap;
    var c := w.cache;
    match call
    case Set(_, _, _, _, _) => SetKeepsAccounting(w, limits, call);
    case Delete(key, _) => DeleteKeepsAccounting(c, limits, key);
    case Restore(snap, _) =>
      if SnapshotFits(limits, w.guards, snap) {
        RestoredIsAccounted(c, limits, w.guards, snap);
      }
    case Clear(_) => ClearedIsAccounted(c, limits);
    case Flush(now, auditOk, seen) => FlushOutcomeIsAccounted(c, limits, w.guards, w.table, now, auditOk, seen);
    case SetAndFlush(_, _, _, _, _) => SetAndFlushIsFlushed(w, limits, call);
    case Persist(_, _, _, _, _) => PersistKeepsAccounting(w, limits, call);
    case Purge(key, _) => ErasingKeepsAccounting(c, limits, key);
    case Checkpoint(_, _, _) => CheckpointIsAccounted(w, limits, call);
    case Elsewhere(_, _) =>
  }

  lemma ClearedIsAccounted(c: Cache, limits: Limits)
    ensures Accounted(Restored(c, map[]), limits) && InStep(Restored(c, map[]))
    ensures WithinLimits(Restored(c, map[]), limits)
  {
    TotalOfNothing();
    EmptySizeMap();
    hide Total, SizeMap, Preparable;
  }

  // ----- Clean keys and the persisted view -----

  lemma SetStaysInStep(w: Process, limits: Limits, call: Call)
    requires call.Set? && Accounted(w.cache, limits) && InStep(w.cache) && Possible(w, limits, call)
    ensures InStep(Next(w, limits, call).cache) <==> ViewKept(w, limits, call)
  {
    hide Accounted, InStep, WorkingRefused, Preparable, SweepFails, HasRoom, WithEntry, SetRolledBack, Swept,
         SweptTable, Stopped, CleanAndExpired, ExpiredKeys, StopsAt, PreparedFits;
    var c := w.cache;
    SweepOutcomeIsAccounted(c, limits, w.table, call.now, call.stop);
    SweepOutcomeStaysInStep(c, limits, w.table, call.now, call.stop);
    if Acceptable(limits, w.guards, call.key, call.value)
       && Fits(c, limits, w.table, call.now, call.key, call.value.value) {
      StoreKeepsAccounting(AllSwept(c, w.table, call.now).cache, limits, call.key, call.value.value);
      SetRollbackStaysInStep(c, limits, w.table, call.now, call.key);
    }
  }

  lemma PersistStaysInStep(w: Process, limits: Limits, call: Call)
    requires call.Persist? && Accounted(w.cache, limits) && InStep(w.cache) && Possible(w, limits, call)
    ensures InStep(Next(w, limits, call).cache)
  {
    hide Accounted, InStep, WorkingRefused, Preparable, SweepFails, HasRoom, Persisted, Swept, SweptTable,
         Stopped, StopsAt;
    SweepOutcomeIsAccounted(w.cache, limits, w.table, call.now, call.stop);
    SweepOutcomeStaysInStep(w.cache, limits, w.table, call.now, call.stop);
    if Acceptable(limits, w.guards, call.key, call.value) {
      var swept := AfterSweep(w.cache, limits, w.table, call.now, call.stop).cache;
      PersistingKeepsAccounting(swept, limits, call.key, call.value.value);
    }
  }

  lemma FlushOutcomeInStep(w: Process, limits: Limits, call: Call, auditOk: bool)
    requires call.Flush? || call.Checkpoint?
    requires Accounted(w.cache, limits) && InStep(w.cache)
    ensures var c, table, g := w.cache, w.table, w.guards;
            InStep(AfterFlush(c, limits, g, table, call.now, auditOk, call.seen).cache) <==>
              (RowKeysValid(table) && !PreparedFits(limits, Candidate(c, table, call.now), table, g, call.now) ==>
                TableExplains(c, table) && call.seen !! Lapsing(c, table, call.now))
  {
    hide Accounted, PreparedFits, RowKeysValid, FailedRefresh, Refreshed, InStep, WithinLimits, Settled,
         FlushedTable, TableExplains, Lapsing, Lapsed, Candidate;
    var c, table, g := w.cache, w.table, w.guards;
    if PreparedFits(limits, Candidate(c, table, call.now), table, g, call.now) {
      RefreshedIsAccounted(c, limits, table, g, call.now);
      FlushedCacheIsAccounted(c, limits, table, g, call.now);
    }
    AccountedFields(c, limits);
    FailedFlushStaysInStep(c, limits, table, call.now, call.seen);
    LapsedAreLapsing(c, table, call.now);
  }

  lemma CheckpointInStep(w: Process, limits: Limits, call: Call)
    requires call.Checkpoint? && Accounted(w.cache, limits) && InStep(w.cache)
    ensures InStep(Next(w, limits, call).cache) <==> ViewKept(w, limits, call)
  {
    hide Accounted, PreparedFits, AfterFlush, FlushUndone, InStep, WithinLimits, TableExplains, Lapsing,
         RowKeysValid, Acceptable, Fits, Candidate;
    FlushOutcomeInStep(w, limits, call, call.checks.flushAuditOk);
    if PreparedFits(limits, Candidate(w.cache, w.table, call.now), w.table, w.guards, call.now) {
      UndoneIsAccounted(w.cache, limits, w.guards, w.table, call.now);
    }
  }

  lemma FlushInStep(w: Process, limits: Limits, call: Call)
    requires call.Flush? && Accounted(w.cache, limits) && InStep(w.cache)
    ensures InStep(Next(w, limits, call).cache) <==> ViewKept(w, limits, call)
  {
    hide Accounted, PreparedFits, AfterFlush, InStep, TableExplains, Lapsing, RowKeysValid, Candidate, Acceptable, Fits;
    FlushOutcomeInStep(w, limits, call, call.auditOk);
  }

  /** A call keeps clean keys in step with the persisted view if and only if it is no rolled-back
      store of a clean entry that had expired, and no flush failing over rows others changed or over
      entries that lapsed. */
  lemma CallKeepsView(w: Process, limits: Limits, call: Call)
    requires Accounted(w.cache, limits) && InStep(w.cache) && Possible(w, limits, call)
    ensures InStep(Next(w, limits, call).cache) <==> ViewKept(w, limits, call)
  {
    hide Accounted, Possible, AfterSet, AfterFlush, AfterPersist, AfterCheckpoint, AfterSetAndFlush,
         WithoutEntry, Erased, Restored, SnapshotFits, InStep, WithinLimits, Acceptable, Fits, TableExplains,
         Lapsing, CleanAndExpired, SizeMap, PreparedFits, RowKeysValid;
    var c := w.cache;
    match call
    case Set(_, _, _, _, _) => SetStaysInStep(w, limits, call);
    case Delete(key, _) => DeleteKeepsAccounting(c, limits, key);
    case Restore(snap, _) =>
      if SnapshotFits(limits, w.guards, snap) {
        RestoredIsAccounted(c, limits, w.guards, snap);
      }
    case Clear(_) => ClearedIsAccounted(c, limits);
    case Flush(_, _, _) => FlushInStep(w, limits, call);
    case SetAndFlush(_, _, _, _, _) => SetAndFlushIsFlushed(w, limits, call);
    case Persist(_, _, _, _, _) => PersistStaysInStep(w, limits, call);
    case Purge(key, _) => ErasingKeepsAccounting(c, limits, key);
    case Checkpoint(_, _, _) => CheckpointInStep(w, limits, call);
    case Elsewhere(_, _) =>
  }

  // ----- Limits -----

  lemma SetStaysWithinLimits(w: Process, limits: Limits, call: Call)
    requires call.Set? && Accounted(w.cache, limits) && WithinLimits(w.cache, limits) && Possible(w, limits, call)
    ensures WithinLimits(Next(w, limits, call).cache, limits) <==> LimitsKept(w, limits, call)
  {
    hide Accounted, WithinLimits, WorkingRefused, Preparable, SweepFails, HasRoom, WithEntry, SetRolledBack,
         Swept, SweptTable, Stopped, StopsAt, SweepStaysSmall;
    var c := w.cache;
    SweepKeepsLimits(c, limits, w.table, call.now, call.stop);
    if Acceptable(limits, w.guards, call.key, call.value)
       && Fits(c, limits, w.table, call.now, call.key, call.value.value) {
      SweptFewEnough(c, limits, w.table, call.now);
      StoreStaysWithinLimits(AllSwept(c, w.table, call.now).cache, limits, call.key, call.value.value);
      SetRollbackStaysWithinLimits(c, limits, w.table, call.now, call.key);
    }
  }

  lemma SweptFewEnough(c: Cache, limits: Limits, table: Rows, now: int)
    requires WithinLimits(c, limits)
    ensures |AllSwept(c, table, now).cache.store| <= limits.maxEntries
  {
    hide SizeMap, Total, SweptStore;
    SweptSize(c, table, ExpiredKeys(c.store, now), now);
  }

  lemma PersistStaysWithinLimits(w: Process, limits: Limits, call: Call)
    requires call.Persist? && Accounted(w.cache, limits) && WithinLimits(w.cache, limits) && Possible(w, limits, call)
    ensures WithinLimits(Next(w, limits, call).cache, limits) <==> LimitsKept(w, limits, call)
  {
    hide Accounted, WithinLimits, WorkingRefused, Preparable, SweepFails, HasRoom, Persisted, Swept, SweptTable,
         Stopped, StopsAt, SweepStaysSmall;
    var c := w.cache;
    SweepKeepsLimits(c, limits, w.table, call.now, call.stop);
    if Acceptable(limits, w.guards, call.key, call.value)
       && Fits(c, limits, w.table, call.now, call.key, call.value.value) {
      SweptFewEnough(c, limits, w.table, call.now);
      PersistedStaysWithinLimits(AllSwept(c, w.table, call.now).cache, limits, call.key, call.value.value);
    }
  }

  lemma PersistedStaysWithinLimits(c: Cache, limits: Limits, key: string, v: Json)
    requires |c.store| <= limits.maxEntries && HasRoom(c, limits, key, v)
    ensures WithinLimits(Persisted(c, key, v), limits)
  {
    hide HasRoom, Total, SizeMap;
    StoreStaysWithinLimits(c, limits, key, v);
  }

  lemma FewerStayWithinLimits(c: Cache, limits: Limits, key: string)
    requires Accounted(c, limits) && WithinLimits(c, limits)
    ensures WithinLimits(WithoutEntry(c, key), limits) && WithinLimits(Erased(c, key), limits)
  {
    hide EntrySize, SizeMap, Preparable, Total;
    TotalWithout(c.store, key);
    SubsetSize((c.store - {key}).Keys, c.store.Keys);
  }

  lemma FlushOutcomeWithinLimits(
      c: Cache, limits: Limits, g: Guards, table: Rows, now: int, auditOk: bool, seen: set<string>)
    requires WithinLimits(c, limits)
    ensures WithinLimits(AfterFlush(c, limits, g, table, now, auditOk, seen).cache, limits)
  {
    hide Accounted, PreparedFits, RowKeysValid, Candidate, Refreshed, InStep, Settled, FlushedTable, LiveSoFar, Lapsed;
    if PreparedFits(limits, Candidate(c, table, now), table, g, now) {
      RefreshedIsAccounted(c, limits, table, g, now);
      FlushedCacheIsAccounted(c, limits, table, g, now);
    }
  }

  lemma CheckpointWithinLimits(w: Process, limits: Limits, call: Call)
    requires call.Checkpoint? && WithinLimits(w.cache, limits)
    ensures WithinLimits(Next(w, limits, call).cache, limits)
  {
    hide Accounted, PreparedFits, AfterFlush, FlushUndone, InStep, WithinLimits;
    FlushOutcomeWithinLimits(w.cache, limits, w.guards, w.table, call.now, call.checks.flushAuditOk, call.seen);
    if PreparedFits(limits, Candidate(w.cache, w.table, call.now), w.table, w.guards, call.now) {
      UndoneIsAccounted(w.cache, limits, w.guards, w.table, call.now);
    }
  }

  /** A call keeps the limits if and only if it does not end right after a sweep that took over more
      than there is room for. */
  lemma CallKeepsLimits(w: Process, limits: Limits, call: Call)
    requires Accounted(w.cache, limits) && WithinLimits(w.cache, limits) && Possible(w, limits, call)
    ensures WithinLimits(Next(w, limits, call).cache, limits) <==> LimitsKept(w, limits, call)
  {
    hide Accounted, Possible, AfterSet, AfterFlush, AfterPersist, AfterCheckpoint, AfterSetAndFlush,
         WithoutEntry, Erased, Restored, SnapshotFits, InStep, WithinLimits, Acceptable, Fits, SweepStaysSmall,
         SizeMap;
    var c := w.cache;
    match call
    case Set(_, _, _, _, _) => SetStaysWithinLimits(w, limits, call);
    case Delete(key, _) => FewerStayWithinLimits(c, limits, key);
    case Restore(snap, _) =>
      if SnapshotFits(limits, w.guards, snap) {
        RestoredIsAccounted(c, limits, w.guards, snap);
      }
    case Clear(_) => ClearedIsAccounted(c, limits);
    case Flush(now, auditOk, seen) => FlushOutcomeWithinLimits(c, limits, w.guards, w.table, now, auditOk, seen);
    case SetAndFlush(_, _, _, _, _) => SetAndFlushIsFlushed(w, limits, call);
    case Persist(_, _, _, _, _) => PersistStaysWithinLimits(w, limits, call);
    case Purge(key, _) => FewerStayWithinLimits(c, limits, key);
    case Checkpoint(_, _, _) => CheckpointWithinLimits(w, limits, call);
    case Elsewhere(_, _) =>
  }

  // ----- Runs -----

  /** Byte count, maps, clean keys and limits are all as they should be. */
  ghost predicate Sound(c: Cache, limits: Limits) {
    Accounted(c, limits) && InStep(c) && WithinLimits(c, limits)
  }

  ghost predicate MeetsCondition(w: Process, limits: Limits, call: Call) {
    CountsKept(w, limits, call) && ViewKept(w, limits, call) && LimitsKept(w, limits, call)
  }

  lemma CallKeepsSound(w: Process, limits: Limits, call: Call)
    requires Sound(w.cache, limits) && Possible(w, limits, call)
    ensures Sound(Next(w, limits, call).cache, limits) <==> MeetsCondition(w, limits, call)
  {
    hide Accounted, InStep, WithinLimits, Next, Possible, CountsKept, ViewKept, LimitsKept;
    CallKeepsCounts(w, limits, call);
    CallKeepsView(w, limits, call);
    CallKeepsLimits(w, limits, call);
  }

  ghost predicate PossibleRun(w: Process, limits: Limits, calls: seq<Call>)
    decreases |calls|
  {
    calls != [] ==> Possible(w, limits, calls[0]) && PossibleRun(Next(w, limits, calls[0]), limits, calls[1..])
  }

  ghost predicate SoundThroughout(w: Process, limits: Limits, calls: seq<Call>)
    decreases |calls|
  {
    Sound(w.cache, limits) && (calls != [] ==> SoundThroughout(Next(w, limits, calls[0]), limits, calls[1..]))
  }

  ghost predicate EveryCallMeets(w: Process, limits: Limits, calls: seq<Call>)
    decreases |calls|
  {
    calls != [] ==>
      MeetsCondition(w, limits, calls[0]) && EveryCallMeets(Next(w, limits, calls[0]), limits, calls[1..])
  }

  /** Over every run of stores, deletions, restores, clears, flushes, single keys and checkpoints,
      succeeding or failing, with other writers in between: the invariants hold in every state if and
      only if they hold in the first and every call meets its condition. */
  lemma {:induction false} RunIsSound(w: Process, limits: Limits, calls: seq<Call>)
    requires PossibleRun(w, limits, calls)
    ensures SoundThroughout(w, limits, calls) <==> Sound(w.cache, limits) && EveryCallMeets(w, limits, calls)
    decreases |calls|
  {
    hide Sound, MeetsCondition, Next, Possible;
    if calls != [] && Sound(w.cache, limits) {
      CallKeepsSound(w, limits, calls[0]);
      RunIsSound(Next(w, limits, calls[0]), limits, calls[1..]);
    }
  }
}
