/** What a call of a working-memory cache comes to, told by rows alone: what the store shows after it
    and what the next flush leaves in the table, whatever other writers have put there by then. */
module WorkingMemoryEffects {
  import opened Wrappers
  import opened DeletionGuards
  import opened WorkingMemoryState
  import opened WorkingMemoryLaws
  import opened WorkingMemoryCalls

  /** A value a flush writes as it is. */
  ghost predicate Writable(g: Guards, now: int, key: string, v: Json) {
    !Expired(v, now) && !WorkingRefused(g, key, v.search)
  }

  /** The row of "key" once "c" has been flushed over "table". */
  ghost function FlushedRow(c: Cache, table: Rows, g: Guards, now: int, key: string): Option<Json> {
    Lookup(FlushedTable(c, table, g, now), key)
  }

  /** A flush leaves the same row of a key for two caches that agree on that key. */
  lemma SameKeySameRow(c: Cache, d: Cache, table: Rows, g: Guards, now: int, k: string)
    requires Consistent(c) && Consistent(d) && c.replace == d.replace && Lookup(c.store, k) == Lookup(d.store, k)
    requires (k in c.dirty <==> k in d.dirty) && (k in c.deleted <==> k in d.deleted)
    ensures FlushedRow(c, table, g, now, k) == FlushedRow(d, table, g, now, k)
  {
    hide FlushedTable, PreparedValue, WorkingRefused, Expired;
    FlushIsPerKeyMerge(c, table, g, now, k);
    FlushIsPerKeyMerge(d, table, g, now, k);
    assert k in c.store ==> c.store[k] == d.store[k];
  }

  lemma PendingValueIsWritten(c: Cache, table: Rows, g: Guards, now: int, k: string)
    requires Consistent(c) && k in c.store && Writable(g, now, k, c.store[k])
    ensures FlushedRow(c, table, g, now, k)
            == if c.replace || k in c.dirty then Some(c.store[k]) else Lookup(table, k)
  {
    FlushIsPerKeyMerge(c, table, g, now, k);
    hide FlushedTable, WorkingRefused, Expired;
  }

  lemma NothingPendingKeepsRow(c: Cache, table: Rows, g: Guards, now: int, k: string)
    requires Consistent(c) && k !in c.store
    ensures FlushedRow(c, table, g, now, k) == if c.replace || k in c.deleted then None else Lookup(table, k)
  {
    FlushIsPerKeyMerge(c, table, g, now, k);
    hide FlushedTable, WorkingRefused, Expired;
  }

  // ----- Deleting -----

  /** After a deletion the next flush leaves no row of the key, provided the cache has ever seen it
      persisted; every other key is as it would have been. */
  lemma DeleteRemovesRow(c: Cache, key: string, table: Rows, g: Guards, now: int)
    requires Consistent(c) && key in c.store
    ensures var d := AfterDelete(c, key, true);
            && Consistent(d)
            && (forall k :: Lookup(d.store, k) == if k == key then None else Lookup(c.store, k))
            && FlushedRow(d, table, g, now, key)
               == (if c.replace || key in c.persisted then None else Lookup(table, key))
            && (forall k :: k != key ==> FlushedRow(d, table, g, now, k) == FlushedRow(c, table, g, now, k))
  {
    hide FlushedTable, SizeMap, Total, FlushedRow;
    var d := AfterDelete(c, key, true);
    NothingPendingKeepsRow(d, table, g, now, key);
    forall k | k != key ensures FlushedRow(d, table, g, now, k) == FlushedRow(c, table, g, now, k) {
      SameKeySameRow(c, d, table, g, now, k);
    }
  }

  /** Deleting what is not there, or without its audit record, changes nothing. */
  lemma FailedDeleteChangesNothing(c: Cache, key: string, auditOk: bool)
    ensures key !in c.store || !auditOk ==> AfterDelete(c, key, auditOk) == c
  {
  }

  // ----- Sweeping -----

  ghost predicate Lapses(c: Cache, now: int, k: string) {
    k in c.store && Expired(c.store[k], now)
  }

  /** The live row of another writer an expired entry gives way to. */
  ghost function RowInPlace(c: Cache, table: Rows, now: int, k: string): Option<Json>
    requires k in c.store
  {
    if k in table && table[k] != c.store[k] && !Expired(table[k], now) then Some(table[k]) else None
  }

  /** The entry of a key once expired entries have been swept. */
  ghost function SweptEntry(c: Cache, table: Rows, now: int, k: string): Option<Json> {
    if Lapses(c, now, k) then RowInPlace(c, table, now, k) else Lookup(c.store, k)
  }

  /** Its row: only an expired entry's own row goes. */
  ghost function SweptRow(c: Cache, table: Rows, now: int, k: string): Option<Json> {
    if Lapses(c, now, k) && Lookup(table, k) == Lookup(c.store, k) then None else Lookup(table, k)
  }

  /** What the cache takes the persisted row for. */
  ghost function SweptView(c: Cache, table: Rows, now: int, k: string): Option<Json> {
    if Lapses(c, now, k) then SweptRow(c, table, now, k) else Lookup(c.persisted, k)
  }

  /** A sweep, key by key: an expired entry gives way to a live row another writer left, takes its own
      row with it, and is no longer pending. */
  lemma SweepByKey(c: Cache, table: Rows, now: int, k: string)
    requires Consistent(c)
    ensures var o := AllSwept(c, table, now);
            && Consistent(o.cache)
            && Lookup(o.cache.store, k) == SweptEntry(c, table, now, k)
            && Lookup(o.table, k) == SweptRow(c, table, now, k)
            && Lookup(o.cache.persisted, k) == SweptView(c, table, now, k)
            && (k in o.cache.dirty <==> k in c.dirty && !Lapses(c, now, k))
            && (k in o.cache.deleted <==> k in c.deleted)
            && o.cache.replace == c.replace
  {
    hide SizeMap, Total, Expired;
  }

  // ----- Storing -----

  ghost predicate Stores(c: Cache, limits: Limits, g: Guards, table: Rows, key: string, value: Option<Json>, now: int) {
    Acceptable(limits, g, key, value) && Fits(c, limits, table, now, key, value.value)
  }

  /** A store shows the value, sweeps the expired entries and leaves the rest. */
  lemma SetShowsValue(c: Cache, limits: Limits, g: Guards, table: Rows, key: string, value: Option<Json>, now: int,
                      s: Stop, k: string)
    requires Consistent(c) && Stores(c, limits, g, table, key, value, now)
    ensures var o := AfterSet(c, limits, g, table, key, value, now, true, s);
            && Consistent(o.cache)
            && Lookup(o.cache.store, k) == (if k == key then value else SweptEntry(c, table, now, k))
            && Lookup(o.table, k) == SweptRow(c, table, now, k)
            && Lookup(o.cache.persisted, k) == SweptView(c, table, now, k)
            && o.cache.replace == c.replace
            && (k in o.cache.dirty <==>
                 if k == key then SweptView(c, table, now, key) != value else k in c.dirty && !Lapses(c, now, k))
            && (k in o.cache.deleted <==> k in c.deleted && k != key)
  {
    hide AllSwept, SizeMap, Total, Preparable, WorkingRefused, SweepFails, HasRoom, SweptEntry, SweptRow, SweptView;
    SweepByKey(c, table, now, k);
    SweepByKey(c, table, now, key);
  }

  /** The flush after a store writes the value, unless that is what the cache took the row for; a swept
      key keeps its row, and every other key is as it would have been. */
  lemma SetWritesRow(c: Cache, limits: Limits, g: Guards, table: Rows, key: string, value: Option<Json>, now: int,
                     s: Stop, later: Rows, g': Guards, at: int, k: string)
    requires Consistent(c) && Stores(c, limits, g, table, key, value, now)
    ensures var d := AfterSet(c, limits, g, table, key, value, now, true, s).cache;
            && (k == key && Writable(g', at, key, value.value) ==>
                 FlushedRow(d, later, g', at, k)
                 == if c.replace || SweptView(c, table, now, key) != value then value else Lookup(later, key))
            && (k != key && !Lapses(c, now, k) ==>
                 FlushedRow(d, later, g', at, k) == FlushedRow(c, later, g', at, k))
            && (k != key && Lapses(c, now, k) && !c.replace ==>
                 FlushedRow(d, later, g', at, k) == Lookup(later, k))
  {
    var d := AfterSet(c, limits, g, table, key, value, now, true, s).cache;
    SetShowsValue(c, limits, g, table, key, value, now, s, k);
    hide AfterSet, Stores, FlushedRow, SweptView, RowInPlace;
    if k == key {
      if Writable(g', at, key, value.value) {
        PendingValueIsWritten(d, later, g', at, k);
      }
    } else if !Lapses(c, now, k) {
      SameKeySameRow(c, d, later, g', at, k);
    } else if !c.replace {
      CleanKeyRow(d, later, g', at, k);
    }
  }

  lemma CleanKeyRow(c: Cache, table: Rows, g: Guards, now: int, k: string)
    requires Consistent(c) && !c.replace && k !in c.dirty && k !in c.deleted
    ensures FlushedRow(c, table, g, now, k) == Lookup(table, k)
  {
    CleanKeyKeepsItsRow(c, table, g, now, k);
  }

  /** A store whose audit record fails leaves the key's entry and what the next flush does with it. */
  lemma RolledBackSetKeepsKey(c: Cache, limits: Limits, g: Guards, table: Rows, key: string, value: Option<Json>,
                              now: int, s: Stop, later: Rows, g': Guards, at: int, k: string)
    requires Consistent(c) && Stores(c, limits, g, table, key, value, now)
    ensures var o := AfterSet(c, limits, g, table, key, value, now, false, s);
            && Consistent(o.cache)
            && Lookup(o.cache.store, k) == (if k == key then Lookup(c.store, key) else SweptEntry(c, table, now, k))
            && Lookup(o.table, k) == SweptRow(c, table, now, k)
            && (k == key || !Lapses(c, now, k) ==>
                 FlushedRow(o.cache, later, g', at, k) == FlushedRow(c, later, g', at, k))
  {
    hide AllSwept, SizeMap, Total, Preparable, WorkingRefused, SweepFails, HasRoom, SweptRow, SweptView, FlushedRow,
         RowInPlace;
    SweepByKey(c, table, now, k);
    SweepByKey(c, table, now, key);
    var d := AfterSet(c, limits, g, table, key, value, now, false, s).cache;
    if k == key || !Lapses(c, now, k) {
      SameKeySameRow(c, d, later, g', at, k);
    }
  }

  /** A store that is refused changes nothing; one that finds no room only sweeps. */
  lemma RefusedSetStoresNothing(c: Cache, limits: Limits, g: Guards, table: Rows, key: string, value: Option<Json>,
                                now: int, auditOk: bool, s: Stop, k: string)
    requires Consistent(c) && !Stores(c, limits, g, table, key, value, now)
    ensures var o := AfterSet(c, limits, g, table, key, value, now, auditOk, s);
            && (!Acceptable(limits, g, key, value) ==> o == Outcome(c, table))
            && (Acceptable(limits, g, key, value) && !SweepFails(c, limits, table, now) ==>
                 Lookup(o.cache.store, k) == SweptEntry(c, table, now, k)
                 && Lookup(o.table, k) == SweptRow(c, table, now, k))
  {
    hide AllSwept, SizeMap, Total, Preparable, WorkingRefused, SweepFails, HasRoom, SweptEntry, SweptRow, SweptView;
    SweepByKey(c, table, now, k);
  }

  /** A store within its limits has room for an entry if and only if it would be within them with it. */
  lemma RoomIffWithinLimits(c: Cache, limits: Limits, key: string, v: Json)
    requires WithinLimits(c, limits)
    ensures HasRoom(c, limits, key, v) <==>
      && WithinLimits(WithEntry(c, key, v), limits)
      && Total(WithEntry(c, key, v).store) <= MAX_SAFE_INTEGER
  {
    hide EntrySize, Total, SizeMap;
    TotalInsert(c.store, key, v);
    assert c.store[key := v].Keys == c.store.Keys + {key};
    assert |c.store.Keys + {key}| == |c.store| + (if key in c.store then 0 else 1);
  }

  // ----- Replacing the store -----

  /** After a restore the store is the snapshot, and the next flush leaves no row but those of the
      snapshot, the rows of other writers included in what goes. */
  lemma RestoreReplacesRows(c: Cache, limits: Limits, g: Guards, snap: map<string, Option<Json>>, table: Rows,
                            g': Guards, now: int, k: string)
    requires SnapshotFits(limits, g, snap)
    ensures var d := AfterRestore(c, limits, g, snap, true);
            && Consistent(d)
            && Lookup(d.store, k) == (if k in snap then snap[k] else None)
            && (k in d.deleted <==> k in c.persisted && k !in snap)
            && (k !in snap ==> FlushedRow(d, table, g', now, k) == None)
            && (k in snap && Writable(g', now, k, snap[k].value) ==> FlushedRow(d, table, g', now, k) == snap[k])
  {
    hide Preparable, WorkingRefused, SizeMap, Total, FlushedRow, Writable;
    var d := AfterRestore(c, limits, g, snap, true);
    if k !in snap {
      NothingPendingKeepsRow(d, table, g', now, k);
    } else if Writable(g', now, k, snap[k].value) {
      PendingValueIsWritten(d, table, g', now, k);
    }
  }

  /** A snapshot fits if and only if each of its entries could be stored and together they are within
      the limits. */
  lemma SnapshotFitsIffWithinLimits(c: Cache, limits: Limits, g: Guards, snap: map<string, Option<Json>>)
    ensures SnapshotFits(limits, g, snap) <==>
      && (forall k :: k in snap ==> Acceptable(limits, g, k, snap[k]))
      && WithinLimits(Restored(c, SnapshotRows(snap)), limits)
      && Total(SnapshotRows(snap)) <= MAX_SAFE_INTEGER
  {
    hide Preparable, WorkingRefused, Total, SizeMap;
    if forall k :: k in snap ==> snap[k].Some? {
      assert SnapshotRows(snap).Keys == snap.Keys;
      assert |SnapshotRows(snap)| == |SnapshotRows(snap).Keys| && |snap| == |snap.Keys|;
    }
  }

  /** A snapshot that does not fit, or a failing audit record, changes nothing. */
  lemma FailedRestoreChangesNothing(
      c: Cache, limits: Limits, g: Guards, snap: map<string, Option<Json>>, auditOk: bool)
    ensures !SnapshotFits(limits, g, snap) || !auditOk ==> AfterRestore(c, limits, g, snap, auditOk) == c
    ensures !auditOk ==> AfterClear(c, auditOk) == c
  {
  }

  /** After a clear the next flush leaves no row at all. */
  lemma ClearRemovesEveryRow(c: Cache, table: Rows, g: Guards, now: int)
    ensures AfterClear(c, true).store == map[]
    ensures FlushedTable(AfterClear(c, true), table, g, now) == map[]
  {
    hide FlushedTable;
    var d := AfterClear(c, true);
    forall k ensures Lookup(FlushedTable(d, table, g, now), k) == Lookup(map[], k) {
      NothingPendingKeepsRow(d, table, g, now, k);
    }
    LookupExtensional(FlushedTable(d, table, g, now), map[]);
  }

  // ----- Single keys -----

  /** A committed single key has its row and its entry at once, and is not pending. */
  lemma PersistWritesRow(c: Cache, limits: Limits, g: Guards, table: Rows, key: string, value: Option<Json>, now: int,
                         mode: Mode, s: Stop, later: Rows, g': Guards, at: int, k: string)
    requires Consistent(c) && Stores(c, limits, g, table, key, value, now) && !mode.RolledBack?
    ensures var o := AfterPersist(c, limits, g, table, key, value, now, mode, s);
            && Consistent(o.cache)
            && Lookup(o.cache.store, k) == (if k == key then value else SweptEntry(c, table, now, k))
            && Lookup(o.table, k) == (if k == key then value else SweptRow(c, table, now, k))
            && Lookup(o.cache.persisted, k) == (if k == key then value else SweptView(c, table, now, k))
            && (k == key && !c.replace ==> FlushedRow(o.cache, later, g', at, k) == Lookup(later, k))
            && (k != key && !Lapses(c, now, k) ==>
                 FlushedRow(o.cache, later, g', at, k) == FlushedRow(c, later, g', at, k))
  {
    hide AllSwept, SizeMap, Total, Preparable, WorkingRefused, SweepFails, HasRoom, SweptRow, SweptView,
         FlushedRow, RowInPlace;
    SweepByKey(c, table, now, k);
    SweepByKey(c, table, now, key);
    var d := AfterPersist(c, limits, g, table, key, value, now, mode, s).cache;
    if k == key && !c.replace {
      CleanKeyRow(d, later, g', at, k);
    }
    if k != key && !Lapses(c, now, k) {
      SameKeySameRow(c, d, later, g', at, k);
    }
  }

  /** A single key whose transaction is rolled back leaves the table alone, and the cache but for the
      sweep. */
  lemma RolledBackPersistWritesNothing(c: Cache, limits: Limits, g: Guards, table: Rows, key: string,
                                       value: Option<Json>, now: int, s: Stop, k: string)
    requires Consistent(c)
    ensures var o := AfterPersist(c, limits, g, table, key, value, now, RolledBack, s);
            && o.table == table
            && (!Acceptable(limits, g, key, value) ==> o.cache == c)
            && (Acceptable(limits, g, key, value) && !SweepFails(c, limits, table, now) ==>
                 Lookup(o.cache.store, k) == SweptEntry(c, table, now, k))
  {
    hide AllSwept, SizeMap, Total, Preparable, WorkingRefused, SweepFails, HasRoom, SweptEntry, SweptRow, SweptView;
    SweepByKey(c, table, now, k);
  }

  /** A purged key has neither row nor entry, nor anything pending; a rolled-back purge leaves both. */
  lemma PurgeRemovesRow(c: Cache, table: Rows, key: string, mode: Mode, later: Rows, g: Guards, now: int, k: string)
    requires Consistent(c) && !mode.RolledBack?
    ensures AfterPurge(c, table, key, RolledBack) == Outcome(c, table)
    ensures var o := AfterPurge(c, table, key, mode);
            && Consistent(o.cache)
            && Lookup(o.cache.store, k) == (if k == key then None else Lookup(c.store, k))
            && Lookup(o.table, k) == (if k == key then None else Lookup(table, k))
            && Lookup(o.cache.persisted, k) == (if k == key then None else Lookup(c.persisted, k))
            && FlushedRow(o.cache, later, g, now, k)
               == (if k != key then FlushedRow(c, later, g, now, k) else if c.replace then None else Lookup(later, k))
  {
    hide SizeMap, Total, FlushedRow;
    var d := AfterPurge(c, table, key, mode).cache;
    if k == key {
      NothingPendingKeepsRow(d, later, g, now, k);
    } else {
      SameKeySameRow(c, d, later, g, now, k);
    }
  }

  /** Storing and flushing at once: the row of the key is the value, an expired entry's own row is gone,
      and every other row is what a flush alone would have left. */
  lemma SetAndFlushWritesRow(c: Cache, limits: Limits, g: Guards, table: Rows, key: string, value: Option<Json>,
                             now: int, k: string)
    requires Consistent(c) && StoresAndFlushes(c, limits, g, table, key, value, now, true, true)
    ensures var o := AfterSetAndFlush(c, limits, g, table, key, value, now, true, true);
            && (k == key && !Expired(value.value, now) && (c.replace || SweptView(c, table, now, key) != value) ==>
                 Lookup(o.table, k) == value)
            && (k == key && !Expired(value.value, now) && !c.replace && SweptView(c, table, now, key) == value ==>
                 Lookup(o.table, k) == SweptRow(c, table, now, k))
            && (k != key && !Lapses(c, now, k) ==> Lookup(o.table, k) == FlushedRow(c, table, g, now, k))
            && (k != key && Lapses(c, now, k) && !c.replace ==> Lookup(o.table, k) == SweptRow(c, table, now, k))
  {
    var swept := AllSwept(c, table, now);
    SweepByKey(c, table, now, k);
    SetWritesRow(c, limits, g, table, key, value, now, Stop({}, ""), swept.table, g, now, k);
    SetShowsValue(c, limits, g, table, key, value, now, Stop({}, ""), k);
    hide AllSwept, Preparable, SweepFails, HasRoom, Flushes, FlushedTable, FlushedCache, SweptView, SweptEntry,
         RowInPlace, WithEntry;
    assert AfterSet(c, limits, g, table, key, value, now, true, Stop({}, "")).cache
           == WithEntry(swept.cache, key, value.value);
    if k != key && !Lapses(c, now, k) {
      SameRowSameMerge(c, table, swept.table, g, now, k);
    }
  }

  /** What a flush leaves of a key depends on no row but its own. */
  lemma SameRowSameMerge(c: Cache, a: Rows, b: Rows, g: Guards, now: int, k: string)
    requires Consistent(c) && Lookup(a, k) == Lookup(b, k)
    ensures FlushedRow(c, a, g, now, k) == FlushedRow(c, b, g, now, k)
  {
    hide FlushedTable, WorkingRefused, Expired;
    FlushIsPerKeyMerge(c, a, g, now, k);
    FlushIsPerKeyMerge(c, b, g, now, k);
  }

  // ----- Flushing -----

  /** After a flush the cache shows only rows of the table, as they are, and all of them that are neither
      expired nor guarded. */
  lemma FlushShowsRows(c: Cache, table: Rows, g: Guards, now: int, k: string)
    requires Consistent(c)
    ensures var store, after := FlushedCache(c, table, g, now).store, FlushedTable(c, table, g, now);
            && (k in store ==> Lookup(after, k) == Some(store[k]))
            && (k in after && Writable(g, now, k, after[k]) ==> k in store)
  {
    hide WorkingRefused, SizeMap, Total, Expired;
    var cand := Candidate(c, table, now);
    var r := Refreshed(c, table, g, now);
    assert k in r.store <==> k in cand && PreparedValue(table, g, now, k, cand[k]).Some?;
    if k in r.store {
      assert k !in r.deleted;
    }
  }

  /** A flush can go through if and only if the row keys are valid, every entry it serialises is, and the
      refreshed store is within the limits. */
  lemma FlushFitsIffWithinLimits(c: Cache, limits: Limits, table: Rows, g: Guards, now: int)
    ensures PreparedFits(limits, Candidate(c, table, now), table, g, now) <==>
      && RowKeysValid(table)
      && (forall k :: k in Candidate(c, table, now) ==>
            EntryFits(limits, table, g, now, k, Candidate(c, table, now)[k]))
      && WithinLimits(Refreshed(c, table, g, now), limits)
      && Total(Refreshed(c, table, g, now).store) <= MAX_SAFE_INTEGER
  {
    hide Candidate, Prepared, EntryFits, Total, SizeMap, Live, Unpersisted, ValidKey;
    assert |Refreshed(c, table, g, now).store| == |Prepared(Candidate(c, table, now), table, g, now)|;
  }

  /** A checkpoint that fails after its flush leaves the table alone, but the cache shows what the flush
      would have left. */
  lemma LateFailureKeepsRefresh(
      c: Cache, limits: Limits, g: Guards, table: Rows, now: int, x: Checks, seen: set<string>)
    requires x.accepted && Flushes(c, limits, g, table, now, x.flushAuditOk) && !(x.insertOk && x.auditOk)
    ensures var o := AfterCheckpoint(c, limits, g, table, now, x, seen);
            o.table == table && o.cache.store == FlushedCache(c, table, g, now).store
  {
    hide PreparedFits, Candidate, Prepared, Live, SizeMap, Total, Unpersisted;
  }

  /** The row an expired entry takes with it. */
  ghost predicate TakesRow(c: Cache, table: Rows, now: int, k: string) {
    Lapses(c, now, k) && (c.replace || k in c.dirty) && Lookup(table, k) == Some(c.store[k])
  }

  /** A flush strikes the provenance of a key if and only if it changes the key's row, other than by
      taking an expired entry's row away. */
  lemma ProvenanceFollowsRow(c: Cache, table: Rows, provenance: set<string>, g: Guards, now: int, k: string)
    requires Consistent(c)
    ensures k in FlushedProvenance(c, table, provenance, g, now) <==>
      && k in provenance
      && (FlushedRow(c, table, g, now, k) == Lookup(table, k) || TakesRow(c, table, now, k))
  {
    hide WorkingRefused, SizeMap, Total, Expired;
    FlushIsPerKeyMerge(c, table, g, now, k);
    var cand := Candidate(c, table, now);
    var r := Refreshed(c, table, g, now);
    assert k in r.store <==> k in cand && PreparedValue(table, g, now, k, cand[k]).Some?;
  }
}
