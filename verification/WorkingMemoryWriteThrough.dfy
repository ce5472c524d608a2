/** A write-back cache refines a table that is written directly: any run of local calls followed by one
    flush leaves the rows that making the same changes to the rows themselves would have left. */
module WorkingMemoryWriteThrough {
  import opened Wrappers
  import opened DeletionGuards
  import opened WorkingMemoryState
  import opened WorkingMemoryLaws
  import opened WorkingMemoryCalls
  import opened WorkingMemoryEffects

  /** The calls that change the cache alone, whether their audit records are written or not. */
  datatype Edit =
    | Put(key: string, value: Option<Json>, now: int, auditOk: bool)
    | Remove(key: string, auditOk: bool)
    | Replace(snap: map<string, Option<Json>>, auditOk: bool)
    | Empty(auditOk: bool)

  ghost function AfterEdit(c: Cache, limits: Limits, g: Guards, table: Rows, e: Edit): Cache {
    match e
    case Put(key, value, now, auditOk) => AfterSet(c, limits, g, table, key, value, now, auditOk, Stop({}, "")).cache
    case Remove(key, auditOk) => AfterDelete(c, key, auditOk)
    case Replace(snap, auditOk) => AfterRestore(c, limits, g, snap, auditOk)
    case Empty(auditOk) => AfterClear(c, auditOk)
  }

  ghost predicate HasRoomFor(rows: Rows, limits: Limits, key: string, v: Json) {
    && (key in rows || |rows| < limits.maxEntries)
    && Total(rows - {key}) + EntrySize(key, v) <= limits.maxTotalBytes
    && Total(rows - {key}) + EntrySize(key, v) <= MAX_SAFE_INTEGER
  }

  /** The same change made to the rows themselves. */
  ghost function Direct(rows: Rows, limits: Limits, g: Guards, e: Edit): Rows {
    match e
    case Put(key, value, _, auditOk) =>
      if auditOk && Acceptable(limits, g, key, value) && HasRoomFor(rows, limits, key, value.value)
      then rows[key := value.value] else rows
    case Remove(key, auditOk) => if auditOk then rows - {key} else rows
    case Replace(snap, auditOk) =>
      if auditOk && SnapshotFits(limits, g, snap) then map k | k in snap && snap[k].Some? :: snap[k].value else rows
    case Empty(auditOk) => if auditOk then map[] else rows
  }

  // ----- Nothing expires until "end" -----

  ghost predicate Lasts(rows: Rows, end: int) {
    forall k :: k in rows ==> !Expired(rows[k], end)
  }

  ghost predicate EditLasts(e: Edit, end: int) {
    match e
    case Put(_, value, now, _) => now <= end && (value.Some? ==> !Expired(value.value, end))
    case Replace(snap, _) => forall k :: k in snap && snap[k].Some? ==> !Expired(snap[k].value, end)
    case _ => true
  }

  /** The cache is the table plus its pending changes, none of which a guard refuses. */
  ghost predicate Explains(c: Cache, limits: Limits, g: Guards, table: Rows, end: int) {
    && Accounted(c, limits) && InStep(c) && c.persisted == table && Lasts(c.store, end)
    && (forall k :: k in table ==> k in c.store || k in c.deleted || c.replace)
    && (forall k :: k in c.store && (k in c.dirty || c.replace) ==> !WorkingRefused(g, k, c.store[k].search))
  }

  lemma FlushLeavesStore(c: Cache, limits: Limits, g: Guards, table: Rows, end: int, now: int)
    requires Explains(c, limits, g, table, end) && now <= end
    ensures FlushedTable(c, table, g, now) == c.store
  {
    hide FlushedTable, WorkingRefused, SizeMap, Total, Preparable;
    forall k ensures Lookup(FlushedTable(c, table, g, now), k) == Lookup(c.store, k) {
      if k !in c.store {
        NothingPendingKeepsRow(c, table, g, now, k);
      } else if k in c.dirty || c.replace {
        PendingValueIsWritten(c, table, g, now, k);
      } else {
        CleanKeyKeepsItsRow(c, table, g, now, k);
      }
    }
    LookupExtensional(FlushedTable(c, table, g, now), c.store);
  }

  lemma NothingToSweep(c: Cache, limits: Limits, table: Rows, end: int, now: int)
    requires Accounted(c, limits) && Lasts(c.store, end) && now <= end
    ensures AllSwept(c, table, now) == Outcome(c, table) && !SweepFails(c, limits, table, now)
  {
    hide Preparable;
    AccountedFields(c, limits);
    SweepNothing(c, table, now);
    assert ExpiredKeys(c.store, now) == {};
  }

  lemma RollingBackRestores(c: Cache, limits: Limits, key: string)
    requires Accounted(c, limits)
    ensures SetRolledBack(c, c, key) == c
  {
    hide SizeMap, Total, Preparable;
    assert key !in c.store ==> c.store - {key} == c.store;
    assert key in c.store ==> c.store[key := c.store[key]] == c.store;
    assert key in c.dirty ==> c.dirty + {key} == c.dirty;
    assert key !in c.dirty ==> c.dirty - {key} == c.dirty;
    assert key in c.deleted ==> c.deleted + {key} == c.deleted;
    assert key !in c.deleted ==> c.deleted - {key} == c.deleted;
  }

  lemma EntryIsExplained(
      c: Cache, limits: Limits, g: Guards, table: Rows, end: int, key: string, v: Json)
    requires Explains(c, limits, g, table, end) && Preparable(limits, key, v)
    requires !WorkingRefused(g, key, v.search) && !Expired(v, end)
    ensures Explains(WithEntry(c, key, v), limits, g, table, end)
  {
    hide SizeMap, Total, Preparable, WorkingRefused, Accounted, InStep;
    StoreKeepsAccounting(c, limits, key, v);
  }

  lemma PutOutcome(c: Cache, limits: Limits, g: Guards, table: Rows, end: int, e: Edit)
    requires e.Put? && Accounted(c, limits) && Lasts(c.store, end) && e.now <= end
    ensures AfterEdit(c, limits, g, table, e)
            == if e.auditOk && Acceptable(limits, g, e.key, e.value)
                  && HasRoomFor(c.store, limits, e.key, e.value.value)
               then WithEntry(c, e.key, e.value.value) else c
  {
    hide Total, EntrySize, Preparable, WorkingRefused, AllSwept, SweepFails, Accounted, SetRolledBack, WithEntry,
         Lasts, Acceptable;
    NothingToSweep(c, limits, table, end, e.now);
    RollingBackRestores(c, limits, e.key);
  }

  lemma PutIsDirect(c: Cache, limits: Limits, g: Guards, table: Rows, end: int, e: Edit)
    requires e.Put? && Explains(c, limits, g, table, end) && EditLasts(e, end)
    ensures var d := AfterEdit(c, limits, g, table, e);
            Explains(d, limits, g, table, end) && d.store == Direct(c.store, limits, g, e)
  {
    PutOutcome(c, limits, g, table, end, e);
    hide Total, SizeMap, Preparable, WorkingRefused, Explains, AfterEdit, HasRoomFor;
    if Acceptable(limits, g, e.key, e.value) {
      EntryIsExplained(c, limits, g, table, end, e.key, e.value.value);
    }
  }

  lemma RemoveIsDirect(c: Cache, limits: Limits, g: Guards, table: Rows, end: int, e: Edit)
    requires e.Remove? && Explains(c, limits, g, table, end)
    ensures var d := AfterEdit(c, limits, g, table, e);
            Explains(d, limits, g, table, end) && d.store == Direct(c.store, limits, g, e)
  {
    hide SizeMap, Total, WorkingRefused, Accounted;
    DeleteKeepsAccounting(c, limits, e.key);
    assert e.key !in c.store ==> c.store - {e.key} == c.store;
  }

  lemma ReplaceIsDirect(c: Cache, limits: Limits, g: Guards, table: Rows, end: int, e: Edit)
    requires e.Replace? && Explains(c, limits, g, table, end) && EditLasts(e, end)
    ensures var d := AfterEdit(c, limits, g, table, e);
            Explains(d, limits, g, table, end) && d.store == Direct(c.store, limits, g, e)
  {
    hide Accounted, InStep, WorkingRefused, Preparable, Total;
    if SnapshotFits(limits, g, e.snap) {
      RestoredIsAccounted(c, limits, g, e.snap);
    }
  }

  lemma EmptyIsDirect(c: Cache, limits: Limits, g: Guards, table: Rows, end: int, e: Edit)
    requires e.Empty? && Explains(c, limits, g, table, end)
    ensures var d := AfterEdit(c, limits, g, table, e);
            Explains(d, limits, g, table, end) && d.store == Direct(c.store, limits, g, e)
  {
    TotalOfNothing();
    EmptySizeMap();
    hide SizeMap, Total, WorkingRefused, Preparable;
  }

  lemma EditIsDirect(c: Cache, limits: Limits, g: Guards, table: Rows, end: int, e: Edit)
    requires Explains(c, limits, g, table, end) && EditLasts(e, end)
    ensures var d := AfterEdit(c, limits, g, table, e);
            Explains(d, limits, g, table, end) && d.store == Direct(c.store, limits, g, e)
  {
    hide Explains, AfterEdit, Direct, EditLasts;
    match e
    case Put(_, _, _, _) => PutIsDirect(c, limits, g, table, end, e);
    case Remove(_, _) => RemoveIsDirect(c, limits, g, table, end, e);
    case Replace(_, _) => ReplaceIsDirect(c, limits, g, table, end, e);
    case Empty(_) => EmptyIsDirect(c, limits, g, table, end, e);
  }

  ghost function AfterEdits(c: Cache, limits: Limits, g: Guards, table: Rows, es: seq<Edit>): Cache
    decreases |es|
  {
    if es == [] then c else AfterEdits(AfterEdit(c, limits, g, table, es[0]), limits, g, table, es[1..])
  }

  ghost function DirectAll(rows: Rows, limits: Limits, g: Guards, es: seq<Edit>): Rows
    decreases |es|
  {
    if es == [] then rows else DirectAll(Direct(rows, limits, g, es[0]), limits, g, es[1..])
  }

  /** Write-back is write-through, later: until something expires, a flush after any run of local calls
      leaves exactly the rows the same changes made directly would have left. */
  lemma {:induction false} EditsAreWriteThrough(
      c: Cache, limits: Limits, g: Guards, table: Rows, end: int, es: seq<Edit>, now: int)
    requires Explains(c, limits, g, table, end) && now <= end && forall e :: e in es ==> EditLasts(e, end)
    ensures FlushedTable(AfterEdits(c, limits, g, table, es), table, g, now) == DirectAll(c.store, limits, g, es)
    decreases |es|
  {
    hide Explains, FlushedTable, AfterEdit, Direct, EditLasts;
    if es == [] {
      FlushLeavesStore(c, limits, g, table, end, now);
    } else {
      EditIsDirect(c, limits, g, table, end, es[0]);
      EditsAreWriteThrough(AfterEdit(c, limits, g, table, es[0]), limits, g, table, end, es[1..], now);
    }
  }

  /** A cache that has just been flushed, and holds the whole table, starts such a run. */
  lemma FlushedCacheExplains(c: Cache, limits: Limits, g: Guards, table: Rows, end: int)
    requires Accounted(c, limits) && NothingPending(c) && !c.replace && c.store == c.persisted == table
    requires Lasts(table, end)
    ensures Explains(c, limits, g, table, end)
  {
    hide SizeMap, Total, Preparable, WorkingRefused;
  }
}
