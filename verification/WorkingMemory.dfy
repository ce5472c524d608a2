/** The write-back working-memory cache over a shared database, and the checkpoint that flushes it
    inside its own transaction. */
module WorkingMemory {
  import opened Wrappers
  import opened DeletionGuards
  import opened WorkingMemoryState
  import opened WorkingMemoryLaws
  import opened WorkingMemoryCalls

  /** The tables working memory and recovery write. */
  datatype Tables = Tables(
    working: Rows,
    provenance: set<string>,
    checkpoints: map<nat, string>,
    nextCheckpointId: nat)

  /** One database file. A transaction keeps the tables it started from; guards do not change here. */
  class Database {
    var tables: Tables
    var saved: Option<Tables>
    const guards: Guards

    constructor (tables: Tables, guards: Guards)
      ensures this.tables == tables && saved.None? && this.guards == guards
    {
      this.tables, this.saved, this.guards := tables, None, guards;
    }

    predicate InTransaction()
      reads `saved
    {
      saved.Some?
    }

    method Begin()
      requires !InTransaction()
      modifies `saved
      ensures saved == Some(tables)
    {
      saved := Some(tables);
    }

    method Commit()
      requires InTransaction()
      modifies `saved
      ensures saved.None?
    {
      saved := None;
    }

    method Rollback()
      requires InTransaction()
      modifies `tables, `saved
      ensures saved.None? && tables == old(saved).value
    {
      tables, saved := saved.value, None;
    }
  }

  /** What a flush inside an outer transaction leaves to be done once that transaction commits. */
  datatype Finalizer = Finalizer(dirty: set<string>, deleted: set<string>)

  /** One entry written inside the caller's transaction, to be shown by the cache once it commits. */
  datatype PendingEntry = PendingEntry(key: string, value: Json, size: nat, total: int)

  class SqliteWorkingMemory {
    const db: Database
    const limits: Limits
    var store: Rows
    var sizes: map<string, int>
    var serialized: Rows
    var persistedSerialized: Rows
    var dirtyKeys: set<string>
    var deletedKeys: set<string>
    var replacePersistedState: bool
    var totalBytes: int

    ghost function State(): Cache
      reads this
    {
      Cache(store, sizes, serialized, persistedSerialized, dirtyKeys, deletedKeys, replacePersistedState, totalBytes)
    }

    ghost predicate Valid()
      reads this
    {
      Accounted(State(), limits)
    }

    /** A cache that does not hydrate from the table: only the persisted view is loaded. */
    constructor (db: Database, limits: Limits)
      ensures this.db == db && this.limits == limits && Valid() && InStep(State()) && WithinLimits(State(), limits)
      ensures State() == Cache(map[], map[], map[], db.tables.working, {}, {}, false, 0)
    {
      this.db, this.limits := db, limits;
      store, sizes, serialized := map[], map[], map[];
      persistedSerialized := db.tables.working;
      dirtyKeys, deletedKeys := {}, {};
      replacePersistedState, totalBytes := false, 0;
    }

    // ----- Expiry -----

    method DropRuntimeKey(key: string)
      requires Valid() && key in store
      modifies this
      ensures State() == Dropped(old(State()), key) && Valid()
    {
      hide Accounted, EntrySize, SizeMap, Total;
      AccountedFields(State(), limits);
      DropKeepsAccounting(State(), limits, key);
      TotalWithout(store, key);
      SizeMapUpdates(store, key, store[key]);
      totalBytes := totalBytes - sizes[key];
      store, sizes, serialized := store - {key}, sizes - {key}, serialized - {key};
      dirtyKeys, deletedKeys := dirtyKeys - {key}, deletedKeys - {key};
    }

    method AdoptPersistedValue(key: string, v: Json)
      requires Valid() && key !in store && key !in deletedKeys && Preparable(limits, key, v)
      modifies this
      ensures State() == Adopted(old(State()), key, v) && Valid()
    {
      hide Accounted, EntrySize, SizeMap, Total, Preparable;
      AccountedFields(State(), limits);
      AdoptKeepsAccounting(State(), limits, key, v);
      TotalInsert(store, key, v);
      TotalWithout(store, key);
      SizeMapUpdates(store, key, v);
      store := store[key := v];
      sizes := sizes[key := EntrySize(key, v)];
      serialized := serialized[key := v];
      totalBytes := totalBytes + EntrySize(key, v);
    }

    /** Drops the row of an expired entry, unless another writer has put something else there. */
    method DeleteExpiredPersistedRow(key: string, serializedValue: Json, now: int)
      requires Expired(serializedValue, now)
      modifies `persistedSerialized, `dirtyKeys, `deletedKeys, db`tables
      ensures var after := TableWithoutExpired(old(db.tables).working, key, serializedValue);
              && db.tables == old(db.tables).(working := after)
              && persistedSerialized ==
                   (if key in after then old(persistedSerialized)[key := after[key]]
                    else old(persistedSerialized) - {key})
              && deletedKeys == (if key in after then old(deletedKeys) else old(deletedKeys) - {key})
      ensures var table := old(db.tables).working;
              var otherHeld := key in table && key in serialized && serialized[key] != serializedValue;
              var stays := key in TableWithoutExpired(table, key, serializedValue) || otherHeld;
              dirtyKeys == if stays then old(dirtyKeys) else old(dirtyKeys) - {key}
    {
      if key !in db.tables.working {
        persistedSerialized := persistedSerialized - {key};
        deletedKeys := deletedKeys - {key};
        dirtyKeys := dirtyKeys - {key};
        return;
      }
      var current := db.tables.working[key];
      if current != serializedValue {
        persistedSerialized := persistedSerialized[key := current];
        return;
      }
      db.tables := db.tables.(working := db.tables.working - {key});
      persistedSerialized := persistedSerialized - {key};
      deletedKeys := deletedKeys - {key};
      if key !in serialized || serialized[key] == current {
        dirtyKeys := dirtyKeys - {key};
      }
    }

    /** Drops one expired runtime entry, or swaps in the live row that superseded it; fails on a
        superseding row too large for this cache, with the entry dropped all the same. */
    method ExpireRuntimeKey(key: string, now: int) returns (failure: Option<Failure>)
      requires Valid() && key in store && Expired(store[key], now)
      modifies this, db`tables
      ensures failure != Some(AuditFailed)
      ensures db.tables == old(db.tables).(working := TableWithoutExpired(old(db.tables).working, key, old(store)[key]))
      ensures var row := old(db.tables).working;
              failure.Some? <==> Superseded(row, key, old(store)[key], now) && !Preparable(limits, key, row[key])
      ensures failure.None? ==> State() == WithoutExpired(old(State()), old(db.tables).working, key, now)
      ensures failure.Some? ==>
        State() == Viewed(Dropped(old(State()), key), key, db.tables.working)
      ensures Valid()
    {
      hide EntrySize, SizeMap, Total, Preparable;
      var value := store[key];
      DropRuntimeKey(key);
      ghost var dropped := State();
      DeleteExpiredPersistedRow(key, value, now);
      assert State() == Viewed(dropped, key, db.tables.working);
      if key in persistedSerialized && persistedSerialized[key] != value && !Expired(persistedSerialized[key], now) {
        var parsed := persistedSerialized[key];
        if !Preparable(limits, key, parsed) {
          return Some(LimitExceeded);
        }
        AdoptPersistedValue(key, parsed);
      }
      return None;
    }

    /** Handles every expired runtime entry; fails as soon as a superseding row is too large. */
    method ExpireRuntimeTtlKeys(now: int) returns (failure: Option<Failure>, ghost stop: Stop)
      requires Valid()
      modifies this, db`tables
      ensures failure != Some(AuditFailed)
      ensures failure.Some? <==> SweepFails(old(State()), limits, old(db.tables).working, now)
      ensures var c, table := old(State()), old(db.tables).working;
              && Outcome(State(), db.tables.working) == AfterSweep(c, limits, table, now, stop)
              && (failure.Some? ==> StopsAt(c, limits, table, now, stop))
      ensures db.tables == old(db.tables).(working := db.tables.working)
      ensures Valid() && (old(InStep(State())) ==> InStep(State()))
      ensures |store| <= |old(store)|
    {
      hide Accounted, Preparable, SizeMap, Total, Swept, SweptTable, SweepFails, StopsAt, TooLarge, Superseded,
           InStep, WithoutExpired, Viewed, Dropped, TableWithoutExpired, ExpiredKeys, Expired, AllSwept,
           Stopped;
      stop := Stop({}, "");
      ghost var c, table := State(), db.tables.working;
      AccountedFields(c, limits);
      SweepNothing(c, table, now);
      ExpiredAt(c.store, now, "");
      var todo := store.Keys;
      ghost var gone: set<string> := {};
      while todo != {}
        invariant todo <= c.store.Keys && gone == ExpiredKeys(c.store, now) - todo
        invariant Valid() && State() == Swept(c, table, gone, now)
        invariant db.tables == old(db.tables).(working := SweptTable(c, table, gone))
        invariant forall k :: k in gone ==> !TooLarge(c, limits, table, now, k)
      {
        var key :| key in todo;
        SweepOneMore(c, table, gone, key, now);
        ExpiredAt(c.store, now, key);
        if Expired(store[key], now) {
          TooLargeByRow(c, limits, table, db.tables.working, now, key);
          failure := ExpireRuntimeKey(key, now);
          if failure.Some? {
            stop := Stop(gone, key);
            SweepStopsHere(c, limits, table, now, gone, key);
            StoppedSize(c, table, now, stop);
            if InStep(c) {
              SweepStaysInStep(c, table, gone, now);
              DropStaysInStep(Swept(c, table, gone, now), key, db.tables.working);
            }
            return;
          }
          gone := gone + {key};
        }
        todo := todo - {key};
      }
      SweepEnds(c, limits, table, now, gone);
      SweptSize(c, table, gone, now);
      if InStep(c) {
        SweepStaysInStep(c, table, gone, now);
      }
      failure := None;
    }

    // ----- Local changes -----

    method StoreEntry(key: string, v: Json)
      requires Valid() && Preparable(limits, key, v)
      modifies this
      ensures State() == WithEntry(old(State()), key, v) && Valid()
      ensures old(InStep(State())) ==> InStep(State())
    {
      hide Accounted, InStep, EntrySize, SizeMap, Total, Preparable;
      AccountedFields(State(), limits);
      StoreKeepsAccounting(State(), limits, key, v);
      TotalInsert(store, key, v);
      TotalWithout(store, key);
      SizeMapUpdates(store, key, v);
      if key in store {
        SizeMapUpdates(store, key, store[key]);
      }
      totalBytes := totalBytes - (if key in sizes then sizes[key] else 0) + EntrySize(key, v);
      store := store[key := v];
      sizes := sizes[key := EntrySize(key, v)];
      serialized := serialized[key := v];
      if key in persistedSerialized && persistedSerialized[key] == v {
        dirtyKeys := dirtyKeys - {key};
      } else {
        dirtyKeys := dirtyKeys + {key};
      }
      deletedKeys := deletedKeys - {key};
    }

    /** Puts one key and the byte count back to what they were. */
    method RollBackEntry(key: string, value: Option<Json>, bytes: int, wasDirty: bool, wasDeleted: bool,
                         ghost before: Cache, ghost swept: Cache, ghost v: Json)
      requires State() == WithEntry(swept, key, v)
      requires value == Lookup(before.store, key) && bytes == before.totalBytes
      requires wasDirty == (key in before.dirty) && wasDeleted == (key in before.deleted)
      modifies this
      ensures State() == SetRolledBack(before, swept, key)
    {
      hide EntrySize, SizeMap, Total;
      LastUpdateWins(swept.store, key, v, if value.Some? then value.value else v);
      SetFlip(swept.dirty, key);
      SetFlip(swept.deleted, key);
      SizeMapUpdates(store, key, if value.Some? then value.value else v);
      if value.Some? {
        store := store[key := value.value];
        sizes := sizes[key := EntrySize(key, value.value)];
        serialized := serialized[key := value.value];
      } else {
        store, sizes, serialized := store - {key}, sizes - {key}, serialized - {key};
      }
      totalBytes := bytes;
      dirtyKeys := if wasDirty then dirtyKeys + {key} else dirtyKeys - {key};
      deletedKeys := if wasDeleted then deletedKeys + {key} else deletedKeys - {key};
    }

    /** Sweeps expired entries, then checks that the entry fits. */
    method MakeRoom(key: string, v: Json, now: int) returns (failure: Option<Failure>, ghost stop: Stop)
      requires Valid()
      modifies this, db`tables
      ensures var c, table := old(State()), old(db.tables).working;
              && (failure.None? <==> Fits(c, limits, table, now, key, v))
              && Outcome(State(), db.tables.working) == AfterSweep(c, limits, table, now, stop)
              && (SweepFails(c, limits, table, now) ==> StopsAt(c, limits, table, now, stop))
      ensures db.tables == old(db.tables).(working := db.tables.working)
      ensures Valid() && (old(InStep(State())) ==> InStep(State()))
      ensures |store| <= |old(store)| && failure != Some(AuditFailed)
    {
      hide Accounted, InStep, EntrySize, SizeMap, Total, SweepFails, StopsAt, Stopped, AllSwept;
      failure, stop := ExpireRuntimeTtlKeys(now);
      if failure.Some? {
        return;
      }
      AccountedFields(State(), limits);
      TotalWithout(store, key);
      SizeMapUpdates(store, key, if key in store then store[key] else v);
      if key !in store && |store| >= limits.maxEntries {
        failure := Some(LimitExceeded);
        return;
      }
      var newTotal := totalBytes - (if key in sizes then sizes[key] else 0) + EntrySize(key, v);
      if newTotal > MAX_SAFE_INTEGER || newTotal > limits.maxTotalBytes {
        failure := Some(LimitExceeded);
        return;
      }
      failure := None;
    }

    /** Stores one value. Expired entries are swept first; a failing audit record rolls the key and
        the byte count back, but not the sweep. */
    method Set(key: string, value: Option<Json>, now: int, auditOk: bool)
      returns (failure: Option<Failure>, ghost stop: Stop)
      requires Valid()
      modifies this, db`tables
      ensures var c, table := old(State()), old(db.tables).working;
              var stores := Acceptable(limits, db.guards, key, value) && Fits(c, limits, table, now, key, value.value);
              && (failure.None? <==> stores && auditOk)
              && (failure == Some(AuditFailed) <==> stores && !auditOk)
              && Outcome(State(), db.tables.working)
                 == AfterSet(c, limits, db.guards, table, key, value, now, auditOk, stop)
              && (SweepFails(c, limits, table, now) && Acceptable(limits, db.guards, key, value) ==>
                   StopsAt(c, limits, table, now, stop))
      ensures failure != Some(AuditFailed) ==> Valid() && (old(InStep(State())) ==> InStep(State()))
      ensures failure.None? && |old(store)| <= limits.maxEntries ==> WithinLimits(State(), limits)
      ensures db.tables == old(db.tables).(working := db.tables.working)
    {
      hide Accounted, InStep, EntrySize, SizeMap, Total, Utf8Bytes, ValidKey, WorkingRefused, SweepFails,
           HasRoom, StopsAt, Stopped, AllSwept;
      stop := Stop({}, "");
      ghost var c := State();
      var previousValue, previousTotalBytes := Lookup(store, key), totalBytes;
      var previousWasDirty, previousWasDeleted := key in dirtyKeys, key in deletedKeys;
      if !ValidKey(key) {
        failure := Some(InvalidKey);
        return;
      }
      if value.None? {
        failure := Some(NotSerialisable);
        return;
      }
      var v := value.value;
      if Utf8Bytes(v.text) > limits.maxValueBytes {
        failure := Some(LimitExceeded);
        return;
      }
      var refused := IsWorkingRefused(db.guards, key, v.search);
      if refused {
        failure := Some(Guarded);
        return;
      }
      failure, stop := MakeRoom(key, v, now);
      if failure.Some? {
        return;
      }
      ghost var swept := State();
      StoreEntry(key, v);
      if |c.store| <= limits.maxEntries {
        StoreStaysWithinLimits(swept, limits, key, v);
      }
      if !auditOk {
        RollBackEntry(key, previousValue, previousTotalBytes, previousWasDirty, previousWasDeleted, c, swept, v);
        failure := Some(AuditFailed);
        return;
      }
      failure := None;
    }

    /** Removes one entry; a failing audit record puts everything back. */
    method Delete(key: string, auditOk: bool) returns (r: Result<bool, Failure>)
      requires Valid()
      modifies this
      ensures r == if auditOk then Ok(key in old(store)) else Err(AuditFailed)
      ensures State() == AfterDelete(old(State()), key, auditOk)
      ensures Valid() && (old(InStep(State())) ==> InStep(State()))
    {
      hide Accounted, InStep, EntrySize, SizeMap, Total, Preparable;
      AccountedFields(State(), limits);
      DeleteKeepsAccounting(State(), limits, key);
      if key !in store {
        return if auditOk then Ok(false) else Err(AuditFailed);
      }
      TotalWithout(store, key);
      SizeMapUpdates(store, key, store[key]);
      var previousValue, previousSize, previousSerialized := store[key], sizes[key], serialized[key];
      var previousDirty, previousDeleted, previousTotalBytes := dirtyKeys, deletedKeys, totalBytes;
      totalBytes := totalBytes - sizes[key];
      sizes, serialized := sizes - {key}, serialized - {key};
      dirtyKeys := dirtyKeys - {key};
      if key in persistedSerialized {
        deletedKeys := deletedKeys + {key};
      } else {
        deletedKeys := deletedKeys - {key};
      }
      store := store - {key};
      if !auditOk {
        store := store[key := previousValue];
        sizes := sizes[key := previousSize];
        serialized := serialized[key := previousSerialized];
        totalBytes := previousTotalBytes;
        dirtyKeys, deletedKeys := previousDirty, previousDeleted;
        PutBack(old(store), key);
        PutBack(old(sizes), key);
        return Err(AuditFailed);
      }
      return Ok(true);
    }

    /** Fills the emptied maps from prepared entries: an entry is no longer to be deleted, and is
        dirty unless the persisted view holds it. */
    method Install(prepared: Rows)
      requires store == map[] == serialized && sizes == map[] && dirtyKeys == {}
      modifies `store, `sizes, `serialized, `dirtyKeys, `deletedKeys
      ensures store == prepared == serialized && sizes == SizeMap(prepared)
      ensures dirtyKeys == Unpersisted(prepared, persistedSerialized)
      ensures deletedKeys == old(deletedKeys) - prepared.Keys
    {
      hide EntrySize, SizeMap, Unpersisted, Done;
      EmptySizeMap();
      NothingDone(prepared, persistedSerialized);
      var todo := prepared.Keys;
      while todo != {}
        invariant todo <= prepared.Keys
        invariant store == serialized == Done(prepared, todo)
        invariant sizes == SizeMap(store)
        invariant dirtyKeys == Unpersisted(store, persistedSerialized)
        invariant deletedKeys == old(deletedKeys) - (prepared.Keys - todo)
      {
        var key :| key in todo;
        SizeMapUpdates(store, key, prepared[key]);
        OneMoreDone(prepared, todo, key, persistedSerialized);
        store := store[key := prepared[key]];
        sizes := sizes[key := EntrySize(key, prepared[key])];
        serialized := serialized[key := prepared[key]];
        deletedKeys := deletedKeys - {key};
        if key !in persistedSerialized || persistedSerialized[key] != prepared[key] {
          dirtyKeys := dirtyKeys + {key};
        }
        todo := todo - {key};
      }
    }

    /** Empties the cache; the next flush replaces the table. */
    method Clear(auditOk: bool) returns (failure: Option<Failure>)
      requires Valid()
      modifies this
      ensures failure == if auditOk then None else Some(AuditFailed)
      ensures State() == AfterClear(old(State()), auditOk)
      ensures Valid() && (auditOk ==> InStep(State()))
    {
      var before := (store, sizes, serialized, dirtyKeys, deletedKeys, replacePersistedState, totalBytes);
      store, sizes, serialized, dirtyKeys := map[], map[], map[], {};
      deletedKeys := persistedSerialized.Keys;
      replacePersistedState := true;
      totalBytes := 0;
      if !auditOk {
        store, sizes, serialized, dirtyKeys := before.0, before.1, before.2, before.3;
        deletedKeys, replacePersistedState, totalBytes := before.4, before.5, before.6;
        return Some(AuditFailed);
      }
      return None;
    }

    /** Checks a whole snapshot without changing anything. */
    method PrepareSnapshot(snap: map<string, Option<Json>>) returns (r: Result<Rows, Failure>, total: int)
      ensures r.Ok? <==> SnapshotFits(limits, db.guards, snap)
      ensures r.Ok? ==> r.value == SnapshotRows(snap) && total == Total(r.value)
    {
      hide WorkingRefused, EntrySize, Total, Preparable;
      total := 0;
      if |snap| > limits.maxEntries {
        return Err(LimitExceeded), total;
      }
      var prepared: Rows := map[];
      var todo := snap.Keys;
      TotalOfNothing();
      while todo != {}
        invariant todo <= snap.Keys
        invariant prepared == map k | k in SnapshotRows(snap) && k !in todo :: snap[k].value
        invariant total == Total(prepared)
        invariant forall k :: k in snap && k !in todo ==>
          snap[k].Some? && Preparable(limits, k, snap[k].value) && !WorkingRefused(db.guards, k, snap[k].value.search)
      {
        var key :| key in todo;
        if snap[key].None? {
          return Err(NotSerialisable), total;
        }
        var v := snap[key].value;
        if !Preparable(limits, key, v) {
          return Err(LimitExceeded), total;
        }
        var refused := IsWorkingRefused(db.guards, key, v.search);
        if refused {
          return Err(Guarded), total;
        }
        TotalInsert(prepared, key, v);
        assert prepared - {key} == prepared;
        total := total + EntrySize(key, v);
        prepared := prepared[key := v];
        todo := todo - {key};
      }
      assert prepared == SnapshotRows(snap);
      if total > MAX_SAFE_INTEGER || total > limits.maxTotalBytes {
        return Err(LimitExceeded), total;
      }
      return Ok(prepared), total;
    }

    /** Replaces the store by a snapshot, or changes nothing at all. */
    method Restore(snap: map<string, Option<Json>>, auditOk: bool) returns (failure: Option<Failure>)
      requires Valid()
      modifies this
      ensures failure.None? <==> SnapshotFits(limits, db.guards, snap) && auditOk
      ensures State() == AfterRestore(old(State()), limits, db.guards, snap, auditOk)
      ensures Valid() && (failure.None? ==> InStep(State()) && WithinLimits(State(), limits))
    {
      hide WorkingRefused, EntrySize, Total, Preparable, SizeMap, Accounted, InStep;
      var checked, total := PrepareSnapshot(snap);
      if checked.Err? {
        return Some(checked.error);
      }
      var prepared := checked.value;
      ghost var c := State();
      RestoredIsAccounted(c, limits, db.guards, snap);
      var before := (store, sizes, serialized, dirtyKeys, deletedKeys, replacePersistedState, totalBytes);
      var cleared := Clear(true);
      deletedKeys := persistedSerialized.Keys;
      EmptySizeMap();
      Install(prepared);
      totalBytes := total;
      if !auditOk {
        store, sizes, serialized, dirtyKeys := before.0, before.1, before.2, before.3;
        deletedKeys, replacePersistedState, totalBytes := before.4, before.5, before.6;
        return Some(AuditFailed);
      }
      return None;
    }

    // ----- Flush -----

    /** The local changes over the refreshed persisted view. */
    method MergeWithPersisted(now: int) returns (merged: Rows)
      ensures merged == Candidate(State(), persistedSerialized, now)
    {
      if replacePersistedState {
        return store;
      }
      merged := store;
      var todo := store.Keys;
      while todo != {}
        invariant todo <= store.Keys && merged.Keys <= store.Keys
        invariant forall k :: k in store ==>
          Lookup(merged, k) == if k in todo || k in dirtyKeys || k in deletedKeys || k in persistedSerialized
                               then Some(store[k]) else None
      {
        var key :| key in todo;
        if key !in dirtyKeys && key !in deletedKeys && key !in persistedSerialized {
          merged := merged - {key};
        }
        todo := todo - {key};
      }
      ghost var local := merged;
      todo := persistedSerialized.Keys;
      while todo != {}
        invariant todo <= persistedSerialized.Keys
        invariant forall k :: k !in persistedSerialized || k in todo || k in dirtyKeys || k in deletedKeys ==>
          Lookup(merged, k) == Lookup(local, k)
        invariant forall k :: k in persistedSerialized && k !in todo && k !in dirtyKeys && k !in deletedKeys ==>
          Lookup(merged, k) == if Expired(persistedSerialized[k], now) then None else Some(persistedSerialized[k])
      {
        var key :| key in todo;
        if key !in dirtyKeys && key !in deletedKeys {
          if Expired(persistedSerialized[key], now) {
            merged := merged - {key};
          } else {
            merged := merged[key := persistedSerialized[key]];
          }
        }
        todo := todo - {key};
      }
      ghost var cand := Candidate(State(), persistedSerialized, now);
      forall k ensures Lookup(merged, k) == Lookup(cand, k) {
      }
      LookupExtensional(merged, cand);
    }

    /** What one candidate contributes: its own value, the row that takes its place, or nothing. */
    method PrepareCandidate(key: string, v: Json, now: int) returns (r: Result<Option<Json>, Failure>)
      requires persistedSerialized == db.tables.working && key !in deletedKeys
      requires Expired(v, now) ==> key in serialized && serialized[key] == v
      modifies `persistedSerialized, `dirtyKeys, `deletedKeys, db`tables
      ensures var table := old(db.tables).working;
              && db.tables == old(db.tables).(
                   working := if Expired(v, now) then TableWithoutExpired(table, key, v) else table)
              && (r.Ok? <==> EntryFits(limits, table, db.guards, now, key, v))
              && (r.Ok? ==> r.value == PreparedValue(table, db.guards, now, key, v))
      ensures var table := old(db.tables).working;
              var lapsed := Expired(v, now) && (key in table ==> table[key] == v);
              dirtyKeys == if lapsed then old(dirtyKeys) - {key} else old(dirtyKeys)
      ensures persistedSerialized == db.tables.working && deletedKeys == old(deletedKeys)
    {
      hide WorkingRefused, Preparable;
      if Expired(v, now) {
        var persisted := Lookup(persistedSerialized, key);
        DeleteExpiredPersistedRow(key, v, now);
        if persisted.Some? && persisted.value != v && !Expired(persisted.value, now) {
          return if Preparable(limits, key, persisted.value) then Ok(persisted) else Err(LimitExceeded);
        }
        return Ok(None);
      }
      if !Preparable(limits, key, v) {
        return Err(LimitExceeded);
      }
      var refused := IsWorkingRefused(db.guards, key, v.search);
      if !refused {
        return Ok(Some(v));
      }
      if key !in persistedSerialized {
        return Ok(None);
      }
      refused := IsWorkingRefused(db.guards, key, persistedSerialized[key].search);
      if refused {
        return Ok(None);
      }
      var persisted := persistedSerialized[key];
      return if Preparable(limits, key, persisted) then Ok(Some(persisted)) else Err(LimitExceeded);
    }

    /** Looks at every candidate in turn; "seen" tells which before a failing one. */
    method PrepareCandidates(cand: Rows, now: int)
      returns (failure: Option<Failure>, prepared: Rows, total: int, ghost seen: set<string>)
      requires persistedSerialized == db.tables.working && deletedKeys !! cand.Keys
      requires forall k :: k in cand && Expired(cand[k], now) ==> k in serialized && serialized[k] == cand[k]
      modifies `persistedSerialized, `dirtyKeys, `deletedKeys, db`tables
      ensures var table := old(db.tables).working;
              && (failure.None? <==> forall k :: k in cand ==> EntryFits(limits, table, db.guards, now, k, cand[k]))
              && (failure.None? ==>
                   seen == cand.Keys && prepared == Prepared(cand, table, db.guards, now) && total == Total(prepared))
              && db.tables == old(db.tables).(working := LiveSoFar(cand, table, cand.Keys - seen, now))
              && dirtyKeys == old(dirtyKeys) - seen * Lapsed(cand, table, now)
              && seen <= cand.Keys
              && (forall k :: k in seen ==> EntryFits(limits, table, db.guards, now, k, cand[k]))
              && (failure.Some? ==>
                   exists k :: k in cand && k !in seen && !EntryFits(limits, table, db.guards, now, k, cand[k]))
      ensures persistedSerialized == db.tables.working && deletedKeys == old(deletedKeys)
    {
      hide EntryFits, PreparedValue, Prepared, LiveSoFar, Live, Total, EntrySize, Expired, Done, Lapsed;
      ghost var table := db.tables.working;
      prepared, total, seen := map[], 0, {};
      TotalOfNothing();
      PrepareBounds(cand, table, db.guards, now);
      var todo := cand.Keys;
      while todo != {}
        invariant todo <= cand.Keys && seen == cand.Keys - todo
        invariant prepared == Done(Prepared(cand, table, db.guards, now), todo) && total == Total(prepared)
        invariant db.tables == old(db.tables).(working := LiveSoFar(cand, table, todo, now))
        invariant persistedSerialized == db.tables.working && deletedKeys == old(deletedKeys)
        invariant dirtyKeys == old(dirtyKeys) - seen * Lapsed(cand, table, now)
        invariant forall k :: k in seen ==> EntryFits(limits, table, db.guards, now, k, cand[k])
      {
        var key :| key in todo;
        PrepareOneMore(cand, table, db.guards, now, todo, key);
        SameRowSameEntry(limits, table, db.tables.working, db.guards, now, key, cand[key]);
        LapsedAt(cand, table, now, key);
        assert cand.Keys - seen == todo;
        var r := PrepareCandidate(key, cand[key], now);
        if r.Err? {
          FailingIsNotLapsed(limits, cand, table, db.guards, now, key);
          failure := Some(r.error);
          return;
        }
        if r.value.Some? {
          TotalInsert(prepared, key, r.value.value);
          TotalWithout(prepared, key);
          total := total + EntrySize(key, r.value.value);
          prepared := prepared[key := r.value.value];
        }
        todo, seen := todo - {key}, seen + {key};
      }
      assert seen == cand.Keys && cand.Keys - seen == {};
      failure := None;
    }

    /** Makes the prepared entries the store, and works out what differs from the persisted view. */
    method InstallPrepared(prepared: Rows, total: int, requestedDeletedKeys: set<string>)
      modifies this
      ensures State() == Cache(prepared, SizeMap(prepared), prepared, old(persistedSerialized),
        Unpersisted(prepared, old(persistedSerialized)),
        (if replacePersistedState then persistedSerialized.Keys else requestedDeletedKeys * persistedSerialized.Keys)
          - prepared.Keys,
        old(replacePersistedState), total)
    {
      hide SizeMap, Unpersisted;
      store, sizes, serialized, dirtyKeys := map[], map[], map[], {};
      if replacePersistedState {
        deletedKeys := persistedSerialized.Keys;
      } else {
        deletedKeys := set k | k in requestedDeletedKeys && k in persistedSerialized;
      }
      totalBytes := total;
      Install(prepared);
    }

    /** Brings the cache up to date with the table and recomputes what is pending. On failure the
        entries and their count stay as they were. */
    method RefreshPreparedStateForFlush(now: int) returns (failure: Option<Failure>, ghost seen: set<string>)
      requires Valid()
      modifies this, db`tables
      ensures var c, table, g := old(State()), old(db.tables).working, db.guards;
              && (failure.None? <==> PreparedFits(limits, Candidate(c, table, now), table, g, now))
              && State() == AfterRefresh(c, limits, g, table, now, seen)
              && (failure.None? ==>
                   && InStep(State()) && WithinLimits(State(), limits)
                   && db.tables == old(db.tables).(working := State().persisted))
              && (failure.Some? && RowKeysValid(table) ==> FailsAfter(c, limits, g, table, now, seen))
      ensures Valid() && db.tables == old(db.tables).(working := db.tables.working)
    {
      hide Accounted, InStep, WithinLimits, EntryFits, Prepared, Live, LiveSoFar, Lapsed, Total, SizeMap,
           Candidate, Utf8Bytes, Unpersisted, Expired, ValidKey;
      seen := {};
      ghost var c, table := State(), db.tables.working;
      AccountedFields(c, limits);
      if k :| k in db.tables.working && !ValidKey(k) {
        failure := Some(InvalidKey);
        return;
      }
      var requestedDeletedKeys := deletedKeys;
      persistedSerialized := db.tables.working;
      var cand := MergeWithPersisted(now);
      CandidateFields(c, State(), table, now);
      CandidatesAreOwn(c, table, now);
      PrepareBounds(cand, table, db.guards, now);
      var prepared, total;
      failure, prepared, total, seen := PrepareCandidates(cand, now);
      assert State() == FailedRefresh(c, table, now, seen);
      PendingShrinks(c, limits, State());
      if failure.Some? {
        return;
      }
      if |prepared| > limits.maxEntries || total > MAX_SAFE_INTEGER || total > limits.maxTotalBytes {
        failure := Some(LimitExceeded);
        return;
      }
      assert cand.Keys - seen == {};
      RefreshedIsAccounted(c, limits, table, db.guards, now);
      InstallPrepared(prepared, total, requestedDeletedKeys);
      failure := None;
    }

    method WriteDeletions()
      modifies db`tables
      ensures db.tables == old(db.tables).(
        working := old(db.tables).working - (deletedKeys - dirtyKeys),
        provenance := old(db.tables).provenance - deletedKeys)
    {
      ghost var before := db.tables;
      var todo := deletedKeys;
      while todo != {}
        invariant todo <= deletedKeys
        invariant db.tables == before.(
          working := before.working - ((deletedKeys - dirtyKeys) - todo),
          provenance := before.provenance - (deletedKeys - todo))
      {
        var key :| key in todo;
        var row := if key in dirtyKeys then {} else {key};
        assert before.working - ((deletedKeys - dirtyKeys) - todo) - row
            == before.working - ((deletedKeys - dirtyKeys) - (todo - {key}));
        assert before.provenance - (deletedKeys - todo) - {key} == before.provenance - (deletedKeys - (todo - {key}));
        db.tables := db.tables.(provenance := db.tables.provenance - {key}, working := db.tables.working - row);
        todo := todo - {key};
      }
    }

    method WriteChangedRows()
      requires dirtyKeys <= store.Keys && serialized == store
      modifies db`tables
      ensures db.tables == old(db.tables).(
        working := old(db.tables).working + (map k | k in dirtyKeys :: store[k]),
        provenance := old(db.tables).provenance - dirtyKeys)
    {
      ghost var before := db.tables;
      var todo := dirtyKeys;
      while todo != {}
        invariant todo <= dirtyKeys
        invariant db.tables == before.(
          working := before.working + (map k | k in dirtyKeys - todo :: store[k]),
          provenance := before.provenance - (dirtyKeys - todo))
      {
        var key :| key in todo;
        assert (before.working + (map k | k in dirtyKeys - todo :: store[k]))[key := store[key]]
            == before.working + (map k | k in dirtyKeys - (todo - {key}) :: store[k]);
        assert before.provenance - (dirtyKeys - todo) - {key} == before.provenance - (dirtyKeys - (todo - {key}));
        db.tables := db.tables.(
          provenance := db.tables.provenance - {key},
          working := db.tables.working[key := serialized[key]]);
        todo := todo - {key};
      }
    }

    /** Writes the pending deletions and changes; a written or deleted key loses its provenance. */
    method WriteChanges()
      requires dirtyKeys <= store.Keys && serialized == store
      modifies db`tables
      ensures db.tables == old(db.tables).(
        working := Written(State(), old(db.tables).working),
        provenance := old(db.tables).provenance - deletedKeys - dirtyKeys)
    {
      ghost var rows := db.tables.working;
      WriteDeletions();
      WriteChangedRows();
      assert db.tables.working == Written(State(), rows);
    }

    /** Marks the written changes as persisted. */
    method FinalizeFlush(f: Finalizer)
      requires f == Finalizer(dirtyKeys, deletedKeys) && dirtyKeys <= store.Keys && serialized == store
      modifies this
      ensures State() == Settled(old(State()))
    {
      var written := map k | k in f.dirty && k in serialized :: serialized[k];
      persistedSerialized := (persistedSerialized - f.deleted) + written;
      deletedKeys, dirtyKeys, replacePersistedState := {}, {}, false;
    }

    /** Flushes the cache, in a transaction of its own or as part of the caller's. Inside the
        caller's transaction the changes stay pending until the returned finalizer runs. */
    method FlushToDb(now: int, auditOk: bool)
      returns (r: Result<Option<Finalizer>, Failure>, ghost seen: set<string>)
      requires Valid()
      modifies this, db`tables, db`saved
      ensures var c, table, g := old(State()), old(db.tables).working, db.guards;
              && (r.Ok? <==> Flushes(c, limits, g, table, now, auditOk))
              && (r.Ok? ==>
                   && db.tables == old(db.tables).(
                        working := FlushedTable(c, table, g, now),
                        provenance := FlushedProvenance(c, table, old(db.tables).provenance, g, now))
                   && (if r.value.None? then State() == FlushedCache(c, table, g, now)
                       else
                         State() == Refreshed(c, table, g, now) && r.value.value == Finalizer(dirtyKeys, deletedKeys))
                   && (r.value.None? <==> db.saved.None? || NothingPending(Refreshed(c, table, g, now)))
                   && InStep(State()) && WithinLimits(State(), limits))
              && (r.Err? ==> State() == AfterRefresh(c, limits, g, table, now, seen))
              && (!PreparedFits(limits, Candidate(c, table, now), table, g, now) && RowKeysValid(table) ==>
                   FailsAfter(c, limits, g, table, now, seen))
      ensures r.Err? && old(db.saved).None? ==> db.tables == old(db.tables)
      ensures db.saved == old(db.saved) && Valid()
    {
      hide Accounted, InStep, WithinLimits, PreparedFits, Candidate, Prepared, Live, Total, SizeMap,
           Unpersisted, FailedRefresh, FailsAfter, RowKeysValid;
      ghost var c, table, g := State(), db.tables.working, db.guards;
      var outer := db.InTransaction();
      if !outer {
        db.Begin();
      }
      var failure;
      failure, seen := RefreshPreparedStateForFlush(now);
      if failure.Some? || !auditOk {
        if !outer {
          db.Rollback();
        }
        r := Err(if failure.Some? then failure.value else AuditFailed);
        return;
      }
      AccountedFields(State(), limits);
      SettledIsAccounted(State(), limits);
      NothingToWrite(State(), db.tables.working);
      var finalizer := Finalizer(dirtyKeys, deletedKeys);
      if dirtyKeys == {} && deletedKeys == {} {
        replacePersistedState := false;
        assert State() == Settled(Refreshed(c, table, g, now));
      } else {
        WriteChanges();
      }
      if !outer {
        db.Commit();
      }
      if finalizer == Finalizer({}, {}) {
        r := Ok(None);
      } else if outer {
        r := Ok(Some(finalizer));
      } else {
        FinalizeFlush(finalizer);
        r := Ok(None);
      }
    }

    // ----- Single keys, for decisions of the review queue -----

    /** Writes one row in the caller's transaction, or in none, and shows the entry in the cache only
        once the row is committed. */
    method PersistKeyAfterCommit(key: string, value: Option<Json>, now: int)
      returns (r: Result<Option<PendingEntry>, Failure>, ghost stop: Stop)
      requires Valid()
      modifies this, db`tables
      ensures var c, table, g := old(State()), old(db.tables).working, db.guards;
              && (r.Ok? <==> Acceptable(limits, g, key, value) && Fits(c, limits, table, now, key, value.value))
              && (db.saved.None? ==>
                   Outcome(State(), db.tables.working)
                   == AfterPersist(c, limits, g, table, key, value, now, Alone, stop))
              && (db.saved.Some? ==>
                   State() == AfterPersist(c, limits, g, table, key, value, now, RolledBack, stop).cache)
              && (SweepFails(c, limits, table, now) && Acceptable(limits, g, key, value) ==>
                   StopsAt(c, limits, table, now, stop))
              && (r.Ok? ==>
                   && db.tables.working == AfterPersist(c, limits, g, table, key, value, now, Committed, stop).table
                   && (r.value.None? <==> db.saved.None?)
                   && (r.value.Some? ==>
                        r.value.value == PendingEntry(key, value.value, EntrySize(key, value.value),
                                                      Total(store - {key}) + EntrySize(key, value.value))))
      ensures db.tables == old(db.tables).(working := db.tables.working)
      ensures Valid() && (old(InStep(State())) ==> InStep(State()))
    {
      hide Accounted, InStep, EntrySize, SizeMap, Total, Utf8Bytes, ValidKey, WorkingRefused, SweepFails,
           HasRoom, Persisted, StopsAt, Stopped, AllSwept;
      stop := Stop({}, "");
      if !ValidKey(key) {
        r := Err(InvalidKey);
        return;
      }
      if value.None? {
        r := Err(NotSerialisable);
        return;
      }
      var v := value.value;
      if Utf8Bytes(v.text) > limits.maxValueBytes {
        r := Err(LimitExceeded);
        return;
      }
      var refused := IsWorkingRefused(db.guards, key, v.search);
      if refused {
        r := Err(Guarded);
        return;
      }
      var failure;
      failure, stop := MakeRoom(key, v, now);
      if failure.Some? {
        r := Err(failure.value);
        return;
      }
      AccountedFields(State(), limits);
      TotalWithout(store, key);
      SizeMapUpdates(store, key, if key in store then store[key] else v);
      var newTotal := totalBytes - (if key in sizes then sizes[key] else 0) + EntrySize(key, v);
      var matches := key in persistedSerialized && persistedSerialized[key] == v
                     && key in db.tables.working && db.tables.working[key] == v;
      if !matches {
        db.tables := db.tables.(working := db.tables.working[key := v]);
      }
      var pending := PendingEntry(key, v, EntrySize(key, v), newTotal);
      if db.InTransaction() {
        r := Ok(Some(pending));
        return;
      }
      ShowEntry(pending);
      r := Ok(None);
    }

    /** The committed entry taken into the cache. */
    method ShowEntry(p: PendingEntry)
      requires Valid() && Preparable(limits, p.key, p.value)
      requires p.size == EntrySize(p.key, p.value) && p.total == Total(store - {p.key}) + p.size
      modifies this
      ensures State() == Persisted(old(State()), p.key, p.value) && Valid()
      ensures old(InStep(State())) ==> InStep(State())
    {
      hide Accounted, InStep, EntrySize, SizeMap, Total, Preparable;
      AccountedFields(State(), limits);
      PersistingKeepsAccounting(State(), limits, p.key, p.value);
      TotalInsert(store, p.key, p.value);
      SizeMapUpdates(store, p.key, p.value);
      store := store[p.key := p.value];
      sizes := sizes[p.key := p.size];
      serialized := serialized[p.key := p.value];
      totalBytes := p.total;
      persistedSerialized := persistedSerialized[p.key := p.value];
      deletedKeys, dirtyKeys := deletedKeys - {p.key}, dirtyKeys - {p.key};
    }

    /** Deletes one row, and forgets the key once the deletion is committed. */
    method PurgeKey(key: string) returns (pending: bool)
      requires Valid()
      modifies this, db`tables
      ensures db.tables == old(db.tables).(working := old(db.tables).working - {key})
      ensures pending <==> db.saved.Some?
      ensures var mode := if pending then RolledBack else Alone;
              State() == AfterPurge(old(State()), old(db.tables).working, key, mode).cache
      ensures Valid() && (old(InStep(State())) ==> InStep(State()))
    {
      hide Accounted, InStep, Erased;
      db.tables := db.tables.(working := db.tables.working - {key});
      if db.InTransaction() {
        return true;
      }
      ForgetKey(key);
      return false;
    }

    method ForgetKey(key: string)
      requires Valid()
      modifies this
      ensures State() == Erased(old(State()), key) && Valid()
      ensures old(InStep(State())) ==> InStep(State())
    {
      hide Accounted, InStep, EntrySize, SizeMap, Total, Preparable;
      AccountedFields(State(), limits);
      ErasingKeepsAccounting(State(), limits, key);
      TotalWithout(store, key);
      if key in store {
        SizeMapUpdates(store, key, store[key]);
        totalBytes := totalBytes - sizes[key];
        store, sizes, serialized := store - {key}, sizes - {key}, serialized - {key};
      } else {
        assert store - {key} == store;
      }
      persistedSerialized := persistedSerialized - {key};
      deletedKeys, dirtyKeys := deletedKeys - {key}, dirtyKeys - {key};
    }

    /** Stores and flushes one value in one transaction; whatever fails, cache and tables are as
        before. */
    method SetAndFlush(key: string, value: Option<Json>, now: int, setAuditOk: bool, flushAuditOk: bool)
      returns (failure: Option<Failure>)
      requires Valid() && db.saved.None?
      modifies this, db`tables, db`saved
      ensures failure.Some? ==> State() == old(State()) && db.tables == old(db.tables)
      ensures var c, table, g := old(State()), old(db.tables).working, db.guards;
              && (failure.None? <==> StoresAndFlushes(c, limits, g, table, key, value, now, setAuditOk, flushAuditOk))
              && Outcome(State(), db.tables.working)
                 == AfterSetAndFlush(c, limits, g, table, key, value, now, setAuditOk, flushAuditOk)
              && (failure.None? ==>
                   var swept := AllSwept(c, table, now);
                   db.tables == old(db.tables).(
                     working := db.tables.working,
                     provenance := FlushedProvenance(WithEntry(swept.cache, key, value.value), swept.table,
                                                     old(db.tables).provenance, g, now)))
      ensures db.saved.None? && Valid()
      ensures failure.None? ==> InStep(State()) && WithinLimits(State(), limits)
    {
      hide Accounted, InStep, WithinLimits, Acceptable, WithEntry, Swept, SweptTable, SweepFails, HasRoom,
           Stopped, StopsAt, Refreshed, FlushedTable, FlushedProvenance, SetRolledBack, Settled, FailsAfter,
           RowKeysValid, Flushes, AfterRefresh, NothingPending;
      var previous := (store, sizes, serialized, persistedSerialized, dirtyKeys, deletedKeys, replacePersistedState,
            totalBytes);
      db.Begin();
      ghost var stop, seen;
      failure, stop := Set(key, value, now, setAuditOk);
      var flushed: Result<Option<Finalizer>, Failure> := Ok(None);
      if failure.None? {
        flushed, seen := FlushToDb(now, flushAuditOk);
        if flushed.Err? {
          failure := Some(flushed.error);
        }
      }
      if failure.Some? {
        db.Rollback();
        store, sizes, serialized, persistedSerialized := previous.0, previous.1, previous.2, previous.3;
        dirtyKeys, deletedKeys, replacePersistedState, totalBytes := previous.4, previous.5, previous.6, previous.7;
        return;
      }
      db.Commit();
      if flushed.value.Some? {
        RefreshedMayFinalize(State(), limits);
        FinalizeFlush(flushed.value.value);
      }
    }
  }

  /** Recovery checkpoints, each taken together with a flush of working memory. */
  class SqliteRecoveryMemory {
    const db: Database
    const working: SqliteWorkingMemory
    const maxCheckpointBytes: nat

    constructor (working: SqliteWorkingMemory, maxCheckpointBytes: nat)
      ensures this.db == working.db && this.working == working && this.maxCheckpointBytes == maxCheckpointBytes
    {
      this.db, this.working, this.maxCheckpointBytes := working.db, working, maxCheckpointBytes;
    }

    /** The state text passes the size limit and the guards. */
    ghost predicate Accepts(state: string) {
      Utf8Bytes(state) <= maxCheckpointBytes && !QueryRefused(db.guards.checkpoint, db.guards.hashKey, state)
    }

    /** Takes a checkpoint. The flushed rows and the checkpoint appear together or not at all; each
        failure leaves the cache in a state of its own. */
    method Checkpoint(state: string, now: int, flushAuditOk: bool, insertOk: bool, auditOk: bool)
      returns (r: Result<nat, Failure>, ghost seen: set<string>)
      requires working.Valid() && db == working.db && db.saved.None?
      modifies working, db`tables, db`saved
      ensures var c, table, g, limits := old(working.State()), old(db.tables).working, db.guards, working.limits;
              var checks := Checks(Accepts(state), flushAuditOk, insertOk, auditOk);
              && (r.Ok? <==> Accepts(state) && Flushes(c, limits, g, table, now, flushAuditOk) && insertOk && auditOk)
              && Outcome(working.State(), db.tables.working) == AfterCheckpoint(c, limits, g, table, now, checks, seen)
              && (Accepts(state) && RowKeysValid(table)
                  && !PreparedFits(limits, Candidate(c, table, now), table, g, now) ==>
                   FailsAfter(c, limits, g, table, now, seen))
              && (r.Ok? ==>
                   && r.value == old(db.tables).nextCheckpointId
                   && db.tables == Tables(
                        FlushedTable(c, table, g, now),
                        FlushedProvenance(c, table, old(db.tables).provenance, g, now),
                        old(db.tables).checkpoints[r.value := state],
                        r.value + 1))
      ensures r.Err? ==> db.tables == old(db.tables)
      ensures db.saved.None? && working.Valid()
    {
      hide Accounted, InStep, WithinLimits, QueryRefused, FlushedTable, FlushedProvenance, PreparedFits,
           Candidate, Refreshed, Settled, Live, Utf8Bytes, FailedRefresh, FailsAfter, RowKeysValid;
      seen := {};
      if Utf8Bytes(state) > maxCheckpointBytes {
        r := Err(LimitExceeded);
        return;
      }
      var refused := HasAnyDeletionQueryGuard(db.guards.checkpoint, db.guards.hashKey, state);
      if refused {
        r := Err(Guarded);
        return;
      }
      db.Begin();
      var flushed;
      flushed, seen := working.FlushToDb(now, flushAuditOk);
      if flushed.Err? {
        db.Rollback();
        r := Err(flushed.error);
        return;
      }
      var id := db.tables.nextCheckpointId;
      if insertOk {
        db.tables := db.tables.(checkpoints := db.tables.checkpoints[id := state], nextCheckpointId := id + 1);
      }
      if !insertOk || !auditOk {
        db.Rollback();
        r := Err(if insertOk then AuditFailed else InsertFailed);
        return;
      }
      db.Commit();
      if flushed.value.Some? {
        RefreshedMayFinalize(working.State(), working.limits);
        working.FinalizeFlush(flushed.value.value);
      }
      r := Ok(id);
    }
  }
}
