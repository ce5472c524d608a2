/** Laws of a flush: the per-key merge it amounts to, what it leaves in the cache, what a retry
    after a rolled-back flush writes, and what any interleaving of several caches leaves behind. */
module WorkingMemoryLaws {
  import opened Wrappers
  import opened DeletionGuards
  import opened WorkingMemoryState

  function Lookup(rows: Rows, k: string): Option<Json> {
    if k in rows then Some(rows[k]) else None
  }

  ghost predicate Consistent(c: Cache) {
    c.dirty <= c.store.Keys && c.deleted !! c.store.Keys
  }

  /** The merge as seen from one key: what its row is after a flush of "c" over "table". */
  ghost function MergedRow(c: Cache, table: Rows, g: Guards, now: int, k: string): Option<Json>
    requires Consistent(c)
  {
    if c.replace then
      if k !in c.store then None
      else if Expired(c.store[k], now) then
        if k in table && table[k] != c.store[k] && !Expired(table[k], now) then Some(table[k]) else None
      else if WorkingRefused(g, k, c.store[k].search) then
        if k in table && !WorkingRefused(g, k, table[k].search) then Some(table[k]) else None
      else Some(c.store[k])
    else if k in c.deleted then None
    else if k in c.dirty then
      if Expired(c.store[k], now) then
        if Lookup(table, k) == Some(c.store[k]) then None else Lookup(table, k)
      else if WorkingRefused(g, k, c.store[k].search) then Lookup(table, k)
      else Some(c.store[k])
    else Lookup(table, k)
  }

  /** A flush is a three-way merge, key by key, expired and guarded values included. */
  lemma FlushIsPerKeyMerge(c: Cache, table: Rows, g: Guards, now: int, k: string)
    requires Consistent(c)
    ensures Lookup(FlushedTable(c, table, g, now), k) == MergedRow(c, table, g, now, k)
  {
    hide WorkingRefused;
    var cand := Candidate(c, table, now);
    var r := Refreshed(c, table, g, now);
    assert k in r.store <==> k in cand && PreparedValue(table, g, now, k, cand[k]).Some?;
    assert k in r.store ==> k !in r.deleted;
  }

  /** A key the cache neither changed nor deleted keeps its row: a stale clean copy neither
      overwrites nor resurrects another writer's row. */
  lemma CleanKeyKeepsItsRow(c: Cache, table: Rows, g: Guards, now: int, k: string)
    requires Consistent(c) && !c.replace && k !in c.dirty && k !in c.deleted
    ensures Lookup(FlushedTable(c, table, g, now), k) == Lookup(table, k)
  {
    FlushIsPerKeyMerge(c, table, g, now, k);
  }

  /** A cache with nothing pending writes nothing, whatever the table has become. */
  lemma SettledCacheWritesNothing(c: Cache, table: Rows, g: Guards, now: int)
    requires !c.replace && c.dirty == {} == c.deleted
    ensures FlushedTable(c, table, g, now) == table
  {
    forall k ensures Lookup(FlushedTable(c, table, g, now), k) == Lookup(table, k) {
      CleanKeyKeepsItsRow(c, table, g, now, k);
    }
    LookupExtensional(FlushedTable(c, table, g, now), table);
  }

  /** Neither expiry nor a guard takes part in the flush. */
  ghost predicate Undisturbed(c: Cache, table: Rows, g: Guards, now: int) {
    && (forall k :: k in c.store && (c.replace || k in c.dirty) ==>
          !Expired(c.store[k], now) && !WorkingRefused(g, k, c.store[k].search))
    && (!c.replace ==> forall k :: k in table && k !in c.dirty && k !in c.deleted ==>
          !Expired(table[k], now) && !WorkingRefused(g, k, table[k].search))
  }

  /** The pending changes of one cache. */
  datatype Delta = Delta(replace: bool, deleted: set<string>, values: Rows)

  ghost function DeltaOf(c: Cache): Delta {
    if c.replace then Delta(true, {}, c.store)
    else Delta(false, c.deleted, map k | k in c.dirty && k in c.store :: c.store[k])
  }

  function Apply(table: Rows, d: Delta): Rows {
    if d.replace then d.values else (table - d.deleted) + d.values
  }

  lemma UndisturbedMerge(c: Cache, table: Rows, g: Guards, now: int, k: string)
    requires Consistent(c) && Undisturbed(c, table, g, now)
    ensures MergedRow(c, table, g, now, k) == Lookup(Apply(table, DeltaOf(c)), k)
    ensures Lookup(Prepared(Candidate(c, table, now), table, g, now), k) == Lookup(Apply(table, DeltaOf(c)), k)
  {
    hide WorkingRefused;
  }

  /** Without expiry or guards the flush writes exactly the cache's changes over the table, and
      afterwards store and table are the same with nothing pending. */
  lemma FlushAppliesDelta(c: Cache, table: Rows, g: Guards, now: int)
    requires Consistent(c) && Undisturbed(c, table, g, now)
    ensures FlushedTable(c, table, g, now) == Apply(table, DeltaOf(c))
    ensures FlushedCache(c, table, g, now).store == FlushedTable(c, table, g, now)
    ensures FlushedCache(c, table, g, now).persisted == FlushedTable(c, table, g, now)
    ensures FlushedCache(c, table, g, now).dirty == {} == FlushedCache(c, table, g, now).deleted
  {
    var want := Apply(table, DeltaOf(c));
    assert FlushedTable(c, table, g, now) == want && Prepared(Candidate(c, table, now), table, g, now) == want by {
      hide WorkingRefused, MergedRow, FlushedTable, Candidate, Prepared, Undisturbed, DeltaOf, Apply, Lookup;
      forall k
        ensures Lookup(FlushedTable(c, table, g, now), k) == Lookup(want, k)
        ensures Lookup(Prepared(Candidate(c, table, now), table, g, now), k) == Lookup(want, k)
      {
        FlushIsPerKeyMerge(c, table, g, now, k);
        UndisturbedMerge(c, table, g, now, k);
      }
      LookupExtensional(FlushedTable(c, table, g, now), want);
      LookupExtensional(Prepared(Candidate(c, table, now), table, g, now), want);
    }
    hide *;
    FlushedCacheFields(c, table, g, now);
  }

  lemma FlushedCacheFields(c: Cache, table: Rows, g: Guards, now: int)
    ensures FlushedCache(c, table, g, now).store == Prepared(Candidate(c, table, now), table, g, now)
    ensures FlushedCache(c, table, g, now).persisted == FlushedTable(c, table, g, now)
    ensures FlushedCache(c, table, g, now).dirty == {} == FlushedCache(c, table, g, now).deleted
  {
    hide Prepared, Candidate, Live, Written, SizeMap, Total;
  }

  lemma LookupExtensional(a: Rows, b: Rows)
    requires forall k :: Lookup(a, k) == Lookup(b, k)
    ensures a == b
  {
    forall k ensures k in a <==> k in b {
      assert Lookup(a, k) == Lookup(b, k);
    }
    forall k | k in a ensures a[k] == b[k] {
      assert Lookup(a, k) == Lookup(b, k);
    }
  }

  lemma SetFlip(s: set<string>, k: string)
    ensures (s + {k}) - {k} == s - {k} && (s - {k}) + {k} == s + {k}
    ensures (s + {k}) + {k} == s + {k} && (s - {k}) - {k} == s - {k}
  {
  }

  lemma LastUpdateWins(rows: Rows, k: string, v: Json, w: Json)
    ensures rows[k := v] - {k} == rows - {k}
    ensures rows[k := v][k := w] == rows[k := w]
  {
  }

  lemma PutBack<T>(m: map<string, T>, k: string)
    requires k in m
    ensures (m - {k})[k := m[k]] == m
  {
  }

  /** The entries of "rows" whose keys are no longer in "todo". */
  ghost function Done(rows: Rows, todo: set<string>): Rows {
    map k | k in rows && k !in todo :: rows[k]
  }

  lemma NothingDone(rows: Rows, persisted: Rows)
    ensures Done(rows, rows.Keys) == map[] && Done(rows, {}) == rows
    ensures Unpersisted(map[], persisted) == {}
  {
  }

  lemma OneMoreDone(rows: Rows, todo: set<string>, k: string, persisted: Rows)
    requires k in rows && k in todo
    ensures var done := Done(rows, todo);
            && k !in done
            && Done(rows, todo - {k}) == done[k := rows[k]]
            && Unpersisted(done[k := rows[k]], persisted) ==
                 Unpersisted(done, persisted) + (if k in persisted && persisted[k] == rows[k] then {} else {k})
  {
  }

  // ----- Accounting -----

  lemma PreparedIsPreparable(limits: Limits, cand: Rows, table: Rows, g: Guards, now: int)
    requires PreparedFits(limits, cand, table, g, now)
    ensures forall k :: k in Prepared(cand, table, g, now) ==> Preparable(limits, k, Prepared(cand, table, g, now)[k])
  {
    hide Preparable, PreparedValue, Total;
    forall k | k in Prepared(cand, table, g, now)
      ensures Preparable(limits, k, Prepared(cand, table, g, now)[k])
    {
      assert EntryFits(limits, table, g, now, k, cand[k]);
    }
  }

  /** One more candidate looked at. */
  lemma PrepareOneMore(cand: Rows, table: Rows, g: Guards, now: int, todo: set<string>, k: string)
    requires k in cand && k in todo
    ensures var p, t := Prepared(cand, table, g, now), LiveSoFar(cand, table, todo, now);
            var v := PreparedValue(table, g, now, k, cand[k]);
            && Lookup(t, k) == Lookup(table, k)
            && k !in Done(p, todo)
            && Done(p, todo - {k}) == (if v.Some? then Done(p, todo)[k := v.value] else Done(p, todo))
            && LiveSoFar(cand, table, todo - {k}, now) ==
                 (if Expired(cand[k], now) then TableWithoutExpired(t, k, cand[k]) else t)
  {
    hide PreparedValue, Expired;
    var p, t := Prepared(cand, table, g, now), LiveSoFar(cand, table, todo, now);
    assert Lookup(p, k) == PreparedValue(table, g, now, k, cand[k]);
    assert LiveSoFar(cand, table, todo - {k}, now) ==
      (if Expired(cand[k], now) then TableWithoutExpired(t, k, cand[k]) else t);
  }

  /** What a candidate contributes depends on no row but its own. */
  lemma SameRowSameEntry(limits: Limits, a: Rows, b: Rows, g: Guards, now: int, k: string, v: Json)
    requires Lookup(a, k) == Lookup(b, k)
    ensures EntryFits(limits, a, g, now, k, v) <==> EntryFits(limits, b, g, now, k, v)
    ensures PreparedValue(a, g, now, k, v) == PreparedValue(b, g, now, k, v)
  {
    hide WorkingRefused, Preparable;
  }

  lemma CandidateFields(c: Cache, d: Cache, table: Rows, now: int)
    requires c.store == d.store && c.dirty == d.dirty && c.deleted == d.deleted && c.replace == d.replace
    ensures Candidate(c, table, now) == Candidate(d, table, now)
  {
  }

  /** Losing pending marks and reloading the persisted view does not touch the accounting. */
  lemma PendingShrinks(c: Cache, limits: Limits, d: Cache)
    requires Accounted(c, limits) && d.dirty <= c.dirty && d.deleted <= c.deleted
    requires d.store == c.store && d.sizes == c.sizes && d.serialized == c.serialized && d.totalBytes == c.totalBytes
    ensures Accounted(d, limits)
  {
    hide Preparable, SizeMap, Total;
  }

  lemma PrepareBounds(cand: Rows, table: Rows, g: Guards, now: int)
    ensures Done(Prepared(cand, table, g, now), cand.Keys) == map[]
    ensures Done(Prepared(cand, table, g, now), {}) == Prepared(cand, table, g, now)
    ensures LiveSoFar(cand, table, cand.Keys, now) == table
    ensures LiveSoFar(cand, table, {}, now) == Live(cand, table, now)
  {
    hide PreparedValue, Expired;
  }

  lemma RefreshedIsAccounted(c: Cache, limits: Limits, table: Rows, g: Guards, now: int)
    requires PreparedFits(limits, Candidate(c, table, now), table, g, now)
    ensures Accounted(Refreshed(c, table, g, now), limits) && InStep(Refreshed(c, table, g, now))
    ensures WithinLimits(Refreshed(c, table, g, now), limits)
  {
    hide WorkingRefused, Preparable, Candidate, Live, SizeMap, Total, PreparedValue, EntryFits;
    PreparedIsPreparable(limits, Candidate(c, table, now), table, g, now);
    var r := Refreshed(c, table, g, now);
    assert |r.store| == |r.store.Keys|;
  }

  lemma RefreshedMayFinalize(c: Cache, limits: Limits)
    requires Accounted(c, limits) && InStep(c)
    ensures c.serialized == c.store && c.dirty <= c.store.Keys
    ensures Accounted(Settled(c), limits) && InStep(Settled(c))
    ensures WithinLimits(c, limits) ==> WithinLimits(Settled(c), limits)
  {
    hide Settled, InStep, WithinLimits;
    AccountedFields(c, limits);
    SettledIsAccounted(c, limits);
  }

  lemma NothingToWrite(c: Cache, table: Rows)
    ensures c.dirty == {} == c.deleted ==> Written(c, table) == table
  {
  }

  lemma SettledStaysInStep(r: Cache)
    requires InStep(r) && Consistent(r)
    ensures InStep(Settled(r))
  {
    hide SizeMap, Total;
    var s := Settled(r);
    forall k | k in s.store ensures k in s.persisted && s.persisted[k] == s.store[k] {
      if k in r.dirty {
        assert s.persisted[k] == r.store[k];
      }
    }
  }

  lemma SettledIsAccounted(r: Cache, limits: Limits)
    requires Accounted(r, limits) && InStep(r)
    ensures Accounted(Settled(r), limits) && InStep(Settled(r))
    ensures WithinLimits(r, limits) ==> WithinLimits(Settled(r), limits)
  {
    hide Preparable, SizeMap, Total, Written, InStep;
    SettledStaysInStep(r);
  }

  /** A successful flush leaves a cache that is accounted for, in step with the table it wrote, and
      within its limits. */
  lemma FlushedCacheIsAccounted(c: Cache, limits: Limits, table: Rows, g: Guards, now: int)
    requires PreparedFits(limits, Candidate(c, table, now), table, g, now)
    ensures Accounted(FlushedCache(c, table, g, now), limits) && InStep(FlushedCache(c, table, g, now))
    ensures WithinLimits(FlushedCache(c, table, g, now), limits)
  {
    hide Accounted, InStep, PreparedFits, Refreshed;
    RefreshedIsAccounted(c, limits, table, g, now);
    SettledIsAccounted(Refreshed(c, table, g, now), limits);
  }

  lemma SweepStaysInStep(c: Cache, table: Rows, gone: set<string>, now: int)
    requires InStep(c) && c.deleted !! c.store.Keys
    ensures InStep(Swept(c, table, gone, now))
  {
    hide Total, SizeMap;
    var s := Swept(c, table, gone, now);
    forall k | k in s.store && k !in s.dirty
      ensures k in s.persisted && s.persisted[k] == s.store[k]
    {
    }
  }

  lemma SweepNothing(c: Cache, table: Rows, now: int)
    requires c.serialized == c.store && c.sizes == SizeMap(c.store) && c.totalBytes == Total(c.store)
    ensures Swept(c, table, {}, now) == c && SweptTable(c, table, {}) == table
  {
    assert SweptStore(c, table, {}, now) == c.store;
    assert SweptPersisted(c, table, {}) == c.persisted;
  }

  lemma SweepOneMoreRow(c: Cache, table: Rows, gone: set<string>, key: string)
    requires key in c.store && key !in gone
    ensures var t := SweptTable(c, table, gone);
            && Lookup(t, key) == Lookup(table, key)
            && SweptTable(c, table, gone + {key}) == TableWithoutExpired(t, key, c.store[key])
  {
  }

  lemma SweepOneMoreEntry(c: Cache, table: Rows, gone: set<string>, key: string, now: int)
    requires key in c.store && key !in gone
    ensures var s := SweptStore(c, table, gone, now);
            && key in s && s[key] == c.store[key]
            && SweptStore(c, table, gone + {key}, now)
               == if Superseded(table, key, c.store[key], now) then s[key := table[key]] else s - {key}
  {
    hide Expired;
  }

  lemma SweepOneMorePersisted(c: Cache, table: Rows, gone: set<string>, key: string)
    requires key in c.store && key !in gone
    ensures var p, after := SweptPersisted(c, table, gone), SweptTable(c, table, gone + {key});
            SweptPersisted(c, table, gone + {key}) == if key in after then p[key := after[key]] else p - {key}
  {
  }

  /** Handling one more expired runtime key extends the sweep by that key. */
  lemma SweepOneMore(c: Cache, table: Rows, gone: set<string>, key: string, now: int)
    requires key in c.store && key !in gone
    ensures var s, t := Swept(c, table, gone, now), SweptTable(c, table, gone);
            && key in s.store && s.store[key] == c.store[key] && Lookup(t, key) == Lookup(table, key)
            && SweptTable(c, table, gone + {key}) == TableWithoutExpired(t, key, c.store[key])
            && Swept(c, table, gone + {key}, now) == WithoutExpired(s, t, key, now)
  {
    hide SizeMap, Total, SweptStore, SweptTable, SweptPersisted, TableWithoutExpired, Expired;
    SweepOneMoreRow(c, table, gone, key);
    SweepOneMoreEntry(c, table, gone, key, now);
    SweepOneMorePersisted(c, table, gone, key);
    if Superseded(table, key, c.store[key], now) {
      var store := SweptStore(c, table, gone, now);
      assert (store - {key})[key := table[key]] == store[key := table[key]];
    }
  }

  lemma DropKeepsAccounting(c: Cache, limits: Limits, key: string)
    requires Accounted(c, limits)
    ensures Accounted(Dropped(c, key), limits)
  {
    hide Preparable, SizeMap, Total;
  }

  lemma AdoptKeepsAccounting(c: Cache, limits: Limits, key: string, v: Json)
    requires Accounted(c, limits) && Preparable(limits, key, v) && key !in c.deleted
    ensures Accounted(Adopted(c, key, v), limits)
  {
    hide Preparable, SizeMap, Total;
  }

  lemma SweptSize(c: Cache, table: Rows, gone: set<string>, now: int)
    ensures |Swept(c, table, gone, now).store| <= |c.store|
  {
    SubsetSize(SweptStore(c, table, gone, now).Keys, c.store.Keys);
  }

  lemma DropStaysInStep(c: Cache, key: string, table: Rows)
    requires InStep(c)
    ensures InStep(Viewed(Dropped(c, key), key, table))
  {
    hide SizeMap, Total;
  }

  lemma RestoredIsAccounted(c: Cache, limits: Limits, g: Guards, snap: map<string, Option<Json>>)
    requires SnapshotFits(limits, g, snap)
    ensures Accounted(Restored(c, SnapshotRows(snap)), limits) && InStep(Restored(c, SnapshotRows(snap)))
    ensures WithinLimits(Restored(c, SnapshotRows(snap)), limits)
  {
    hide Preparable, SizeMap, Total, WorkingRefused;
    SubsetSize(SnapshotRows(snap).Keys, snap.Keys);
  }

  lemma DeleteKeepsAccounting(c: Cache, limits: Limits, key: string)
    requires Accounted(c, limits)
    ensures Accounted(WithoutEntry(c, key), limits)
    ensures InStep(c) ==> InStep(WithoutEntry(c, key))
  {
    hide Preparable, SizeMap, Total;
  }

  lemma StoreKeepsAccounting(c: Cache, limits: Limits, key: string, v: Json)
    requires Accounted(c, limits) && Preparable(limits, key, v)
    ensures Accounted(WithEntry(c, key, v), limits)
    ensures InStep(c) ==> InStep(WithEntry(c, key, v))
  {
    hide Preparable, SizeMap, Total;
  }

  lemma PersistingKeepsAccounting(c: Cache, limits: Limits, key: string, v: Json)
    requires Accounted(c, limits) && Preparable(limits, key, v)
    ensures Accounted(Persisted(c, key, v), limits)
    ensures InStep(c) ==> InStep(Persisted(c, key, v))
  {
    hide EntrySize, Total, SizeMap, Preparable;
    StoreKeepsAccounting(c, limits, key, v);
  }

  lemma ErasingKeepsAccounting(c: Cache, limits: Limits, key: string)
    requires Accounted(c, limits)
    ensures Accounted(Erased(c, key), limits)
    ensures InStep(c) ==> InStep(Erased(c, key))
  {
    hide EntrySize, Total, SizeMap, Preparable;
  }

  lemma StoreStaysWithinLimits(c: Cache, limits: Limits, key: string, v: Json)
    requires |c.store| <= limits.maxEntries && HasRoom(c, limits, key, v)
    ensures WithinLimits(WithEntry(c, key, v), limits)
  {
    hide EntrySize;
    TotalInsert(c.store, key, v);
    assert c.store[key := v].Keys == c.store.Keys + {key};
    assert |c.store.Keys + {key}| == |c.store| + (if key in c.store then 0 else 1);
  }

  /** A rolled-back store is accounted for if and only if the sweep before it left the other keys'
      bytes as they were. */
  lemma RollbackTotals(c: Cache, limits: Limits, swept: Cache, key: string)
    requires Accounted(c, limits) && Accounted(swept, limits)
    ensures Accounted(SetRolledBack(c, swept, key), limits)
            <==> Total(c.store - {key}) == Total(swept.store - {key})
  {
    hide Preparable, SizeMap, EntrySize;
    var r := SetRolledBack(c, swept, key);
    assert r.store - {key} == swept.store - {key};
    TotalWithout(c.store, key);
    TotalWithout(r.store, key);
  }

  // ----- Retrying a flush whose transaction was rolled back -----

  /** The keys on which the retried flush can differ from the one rolled back. */
  ghost predicate RetryDiffersAt(c: Cache, table: Rows, g: Guards, now: int, k: string) {
    && k in c.store && k in table
    && var v := c.store[k];
       if c.replace then
         || (Superseded(table, k, v, now) && Expired(v, now) && WorkingRefused(g, k, table[k].search))
         || (!Expired(v, now) && WorkingRefused(g, k, v.search)
             && !WorkingRefused(g, k, table[k].search) && Expired(table[k], now))
       else k in c.dirty && Expired(v, now) && table[k] == v
  }

  lemma RetryAtKey(c: Cache, table: Rows, g: Guards, now: int, k: string)
    requires Consistent(c)
    ensures var r := Refreshed(c, table, g, now);
            MergedRow(r, table, g, now, k) == MergedRow(c, table, g, now, k) <==> !RetryDiffersAt(c, table, g, now, k)
  {
    hide WorkingRefused;
    var cand := Candidate(c, table, now);
    var r := Refreshed(c, table, g, now);
    assert k in r.store <==> k in cand && PreparedValue(table, g, now, k, cand[k]).Some?;
    if k in cand && k !in r.store && k in c.store && c.replace {
    }
  }

  /** After a rolled-back flush the refreshed cache makes the next flush of the same table write
      the same rows, unless an expired or guarded entry took part in one of the listed ways. */
  lemma RetryWritesTheSame(c: Cache, table: Rows, g: Guards, now: int)
    requires Consistent(c)
    ensures FlushedTable(Refreshed(c, table, g, now), table, g, now) == FlushedTable(c, table, g, now)
            <==> forall k :: !RetryDiffersAt(c, table, g, now, k)
  {
    hide WorkingRefused, RetryDiffersAt, MergedRow;
    var r := Refreshed(c, table, g, now);
    var again := FlushedTable(r, table, g, now);
    var once := FlushedTable(c, table, g, now);
    forall k ensures Lookup(again, k) == Lookup(once, k) <==> !RetryDiffersAt(c, table, g, now, k) {
      FlushIsPerKeyMerge(c, table, g, now, k);
      FlushIsPerKeyMerge(r, table, g, now, k);
      RetryAtKey(c, table, g, now, k);
    }
    if forall k :: !RetryDiffersAt(c, table, g, now, k) {
      LookupExtensional(again, once);
    }
  }

  // ----- Several caches over one table -----

  datatype World = World(table: Rows, caches: seq<Cache>)

  /** Either one cache changes locally, in any way, or it is flushed. */
  datatype Step = Local(i: nat, cache: Cache) | Flush(i: nat, g: Guards, now: int)

  ghost predicate Allowed(w: World, s: Step) {
    && s.i < |w.caches|
    && match s
       case Local(i, c) => Consistent(c)
       case Flush(i, g, now) => Consistent(w.caches[i]) && Undisturbed(w.caches[i], w.table, g, now)
  }

  ghost function After(w: World, s: Step): World
    requires Allowed(w, s)
  {
    match s
    case Local(i, c) => w.(caches := w.caches[i := c])
    case Flush(i, g, now) =>
      World(FlushedTable(w.caches[i], w.table, g, now),
            w.caches[i := FlushedCache(w.caches[i], w.table, g, now)])
  }

  ghost predicate IsRun(w: World, steps: seq<Step>)
    decreases |steps|
  {
    steps == [] || (Allowed(w, steps[0]) && IsRun(After(w, steps[0]), steps[1..]))
  }

  ghost function RunFrom(w: World, steps: seq<Step>): World
    requires IsRun(w, steps)
    decreases |steps|
  {
    if steps == [] then w else RunFrom(After(w, steps[0]), steps[1..])
  }

  /** The pending changes each flush of the run found, in flush order. */
  ghost function FlushedDeltas(w: World, steps: seq<Step>): seq<Delta>
    requires IsRun(w, steps)
    decreases |steps|
  {
    if steps == [] then []
    else
      (if steps[0].Flush? then [DeltaOf(w.caches[steps[0].i])] else [])
      + FlushedDeltas(After(w, steps[0]), steps[1..])
  }

  function ApplyAll(table: Rows, ds: seq<Delta>): Rows
    decreases |ds|
  {
    if ds == [] then table else ApplyAll(Apply(table, ds[0]), ds[1..])
  }

  /** Any interleaving of local changes and flushes of any number of caches leaves the table that
      applying the flushed changes in flush order leaves. */
  lemma {:induction false} RunAppliesDeltasInOrder(w: World, steps: seq<Step>)
    requires IsRun(w, steps)
    ensures RunFrom(w, steps).table == ApplyAll(w.table, FlushedDeltas(w, steps))
    decreases |steps|
  {
    hide FlushedTable, FlushedCache, DeltaOf, Apply, Undisturbed;
    if steps != [] {
      var next := After(w, steps[0]);
      RunAppliesDeltasInOrder(next, steps[1..]);
      if steps[0].Flush? {
        FlushAppliesDelta(w.caches[steps[0].i], w.table, steps[0].g, steps[0].now);
        var rest := FlushedDeltas(next, steps[1..]);
        assert ([DeltaOf(w.caches[steps[0].i])] + rest)[1..] == rest;
      } else {
        assert [] + FlushedDeltas(next, steps[1..]) == FlushedDeltas(next, steps[1..]);
      }
    }
  }

  predicate Touches(d: Delta, k: string) {
    d.replace || k in d.deleted || k in d.values
  }

  /** The row of a key is what the last flush that changed, deleted or replaced it left there. */
  lemma {:induction false} LastWriterWins(table: Rows, ds: seq<Delta>, k: string, last: nat)
    requires forall j :: last < j < |ds| ==> !Touches(ds[j], k)
    requires last < |ds| && Touches(ds[last], k)
    ensures Lookup(ApplyAll(table, ds), k) == Lookup(ds[last].values, k)
    decreases |ds|
  {
    if last > 0 {
      LastWriterWins(Apply(table, ds[0]), ds[1..], k, last - 1);
    } else {
      UntouchedKeyStays(Apply(table, ds[0]), ds[1..], k);
    }
  }

  /** A key no flush of the run touched keeps its row. */
  lemma {:induction false} UntouchedKeyStays(table: Rows, ds: seq<Delta>, k: string)
    requires forall j :: 0 <= j < |ds| ==> !Touches(ds[j], k)
    ensures Lookup(ApplyAll(table, ds), k) == Lookup(table, k)
    decreases |ds|
  {
    if ds != [] {
      assert !Touches(ds[0], k);
      UntouchedKeyStays(Apply(table, ds[0]), ds[1..], k);
    }
  }
}
