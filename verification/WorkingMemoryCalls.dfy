/** What each call of a working-memory cache leaves behind, failing calls included: the state after a
    sweep that stops half-way, after a rolled-back store, and after a flush that fails. */
module WorkingMemoryCalls {
  import opened Wrappers
  import opened DeletionGuards
  import opened WorkingMemoryState
  import opened WorkingMemoryLaws

  /** One cache and the rows of the table it shares. */
  datatype Outcome = Outcome(cache: Cache, table: Rows)

  // ----- The expiry sweep -----

  /** Where a failing sweep stops: what it had handled, and the key whose superseding row was too
      large. */
  datatype Stop = Stop(gone: set<string>, key: string)

  ghost predicate TooLarge(c: Cache, limits: Limits, table: Rows, now: int, key: string) {
    && key in c.store && Expired(c.store[key], now)
    && Superseded(table, key, c.store[key], now) && !Preparable(limits, key, table[key])
  }

  ghost predicate StopsAt(c: Cache, limits: Limits, table: Rows, now: int, s: Stop) {
    && s.gone <= ExpiredKeys(c.store, now) && s.key !in s.gone && TooLarge(c, limits, table, now, s.key)
    && forall k :: k in s.gone ==> !TooLarge(c, limits, table, now, k)
  }

  ghost function Stopped(c: Cache, table: Rows, now: int, s: Stop): Outcome {
    var after := SweptTable(c, table, s.gone);
    Outcome(Viewed(Dropped(Swept(c, table, s.gone, now), s.key), s.key, after), after)
  }

  ghost function AllSwept(c: Cache, table: Rows, now: int): Outcome {
    var gone := ExpiredKeys(c.store, now);
    Outcome(Swept(c, table, gone, now), SweptTable(c, table, gone))
  }

  ghost function AfterSweep(c: Cache, limits: Limits, table: Rows, now: int, s: Stop): Outcome {
    if SweepFails(c, limits, table, now) then Stopped(c, table, now, s) else AllSwept(c, table, now)
  }

  lemma TooLargeByRow(c: Cache, limits: Limits, table: Rows, row: Rows, now: int, key: string)
    requires key in c.store && Expired(c.store[key], now) && Lookup(row, key) == Lookup(table, key)
    ensures Superseded(row, key, c.store[key], now) && !Preparable(limits, key, row[key])
            <==> TooLarge(c, limits, table, now, key)
  {
    hide Preparable;
  }

  lemma ExpiredAt(rows: Rows, now: int, key: string)
    ensures key in ExpiredKeys(rows, now) <==> key in rows && Expired(rows[key], now)
    ensures ExpiredKeys(rows, now) <= rows.Keys
  {
  }

  lemma SweepEnds(c: Cache, limits: Limits, table: Rows, now: int, gone: set<string>)
    requires gone == ExpiredKeys(c.store, now) && forall k :: k in gone ==> !TooLarge(c, limits, table, now, k)
    ensures !SweepFails(c, limits, table, now)
    ensures AllSwept(c, table, now) == Outcome(Swept(c, table, gone, now), SweptTable(c, table, gone))
  {
    hide Preparable;
    forall k | k in c.store && Expired(c.store[k], now) && Superseded(table, k, c.store[k], now)
      ensures Preparable(limits, k, table[k])
    {
      assert !TooLarge(c, limits, table, now, k);
    }
  }

  lemma SweepStopsHere(c: Cache, limits: Limits, table: Rows, now: int, gone: set<string>, key: string)
    requires gone <= ExpiredKeys(c.store, now) && forall k :: k in gone ==> !TooLarge(c, limits, table, now, k)
    requires key !in gone && TooLarge(c, limits, table, now, key)
    ensures SweepFails(c, limits, table, now) && StopsAt(c, limits, table, now, Stop(gone, key))
    ensures var after := SweptTable(c, table, gone);
            && TableWithoutExpired(after, key, c.store[key]) == after
            && Stopped(c, table, now, Stop(gone, key))
               == Outcome(Viewed(Dropped(Swept(c, table, gone, now), key), key, after), after)
  {
    hide Preparable, SweptTable;
    SweepOneMoreRow(c, table, gone, key);
  }

  lemma StoppedSize(c: Cache, table: Rows, now: int, s: Stop)
    ensures |Stopped(c, table, now, s).cache.store| <= |c.store|
  {
    hide SizeMap, Total, SweptStore;
    SweptSize(c, table, s.gone, now);
    SubsetSize((SweptStore(c, table, s.gone, now) - {s.key}).Keys, SweptStore(c, table, s.gone, now).Keys);
  }

  // ----- Storing -----

  /** The entry passes every check made before the sweep. */
  ghost predicate Acceptable(limits: Limits, g: Guards, key: string, value: Option<Json>) {
    value.Some? && Preparable(limits, key, value.value) && !WorkingRefused(g, key, value.value.search)
  }

  /** The sweep succeeds and leaves room for the entry. */
  ghost predicate Fits(c: Cache, limits: Limits, table: Rows, now: int, key: string, v: Json) {
    !SweepFails(c, limits, table, now) && HasRoom(AllSwept(c, table, now).cache, limits, key, v)
  }

  ghost function AfterSet(
      c: Cache, limits: Limits, g: Guards, table: Rows, key: string, value: Option<Json>, now: int, auditOk: bool,
      s: Stop)
    : Outcome
  {
    if !Acceptable(limits, g, key, value) then Outcome(c, table)
    else
      var swept := AfterSweep(c, limits, table, now, s);
      if !Fits(c, limits, table, now, key, value.value) then swept
      else if auditOk then swept.(cache := WithEntry(swept.cache, key, value.value))
      else swept.(cache := SetRolledBack(c, swept.cache, key))
  }

  // ----- Flushing -----

  ghost predicate RowKeysValid(table: Rows) {
    forall k :: k in table ==> ValidKey(k)
  }

  /** The candidates that give way to no row: expired, with their own row or none. */
  ghost function Lapsed(cand: Rows, table: Rows, now: int): set<string> {
    set k | k in cand && Expired(cand[k], now) && (k in table ==> table[k] == cand[k])
  }

  lemma LapsedAt(cand: Rows, table: Rows, now: int, k: string)
    requires k in cand
    ensures k in Lapsed(cand, table, now) <==> Expired(cand[k], now) && (k in table ==> table[k] == cand[k])
  {
  }

  lemma FailingIsNotLapsed(limits: Limits, cand: Rows, table: Rows, g: Guards, now: int, k: string)
    requires k in cand && !EntryFits(limits, table, g, now, k, cand[k])
    ensures k !in Lapsed(cand, table, now)
    ensures Expired(cand[k], now) ==> k in table && table[k] != cand[k]
  {
    hide Preparable, WorkingRefused;
  }

  /** An expired candidate is a local entry, and nothing waiting for deletion is a candidate. */
  lemma CandidatesAreOwn(c: Cache, table: Rows, now: int)
    requires Consistent(c)
    ensures var cand := Candidate(c, table, now);
            && c.deleted !! cand.Keys
            && forall k :: k in cand && Expired(cand[k], now) ==> k in c.store && c.store[k] == cand[k]
  {
  }

  /** A refresh that fails after it has looked at the candidates "seen": the view is reloaded, and
      the lapsed keys it met are no longer pending; entries, count and deletions stay. */
  ghost function FailedRefresh(c: Cache, table: Rows, now: int, seen: set<string>): Cache {
    var cand := Candidate(c, table, now);
    c.(persisted := LiveSoFar(cand, table, cand.Keys - seen, now),
       dirty := c.dirty - seen * Lapsed(cand, table, now))
  }

  /** A failing refresh can have seen exactly these: all of them passed their checks, and either one
      more did not or there are too many or too large ones. */
  ghost predicate FailsAfter(c: Cache, limits: Limits, g: Guards, table: Rows, now: int, seen: set<string>) {
    var cand := Candidate(c, table, now);
    && seen <= cand.Keys
    && (forall k :: k in seen ==> EntryFits(limits, table, g, now, k, cand[k]))
    && (seen == cand.Keys || exists k :: k in cand && k !in seen && !EntryFits(limits, table, g, now, k, cand[k]))
  }

  ghost function AfterRefresh(c: Cache, limits: Limits, g: Guards, table: Rows, now: int, seen: set<string>): Cache {
    if PreparedFits(limits, Candidate(c, table, now), table, g, now) then Refreshed(c, table, g, now)
    else if RowKeysValid(table) then FailedRefresh(c, table, now, seen)
    else c
  }

  ghost predicate Flushes(c: Cache, limits: Limits, g: Guards, table: Rows, now: int, auditOk: bool) {
    PreparedFits(limits, Candidate(c, table, now), table, g, now) && auditOk
  }

  /** A flush in a transaction of its own; a failing one leaves the table alone. */
  ghost function AfterFlush(
      c: Cache, limits: Limits, g: Guards, table: Rows, now: int, auditOk: bool, seen: set<string>): Outcome {
    if Flushes(c, limits, g, table, now, auditOk) then
      Outcome(FlushedCache(c, table, g, now), FlushedTable(c, table, g, now))
    else Outcome(AfterRefresh(c, limits, g, table, now, seen), table)
  }

  /** What a cache is left with when the transaction its flush was part of is rolled back: its
      changes are still pending, but without any it has forgotten that it replaces the table. */
  ghost function FlushUndone(c: Cache, g: Guards, table: Rows, now: int): Cache {
    var r := Refreshed(c, table, g, now);
    if NothingPending(r) then Settled(r) else r
  }

  /** The checks and audit records a checkpoint meets. */
  datatype Checks = Checks(accepted: bool, flushAuditOk: bool, insertOk: bool, auditOk: bool)

  ghost function AfterCheckpoint(
      c: Cache, limits: Limits, g: Guards, table: Rows, now: int, x: Checks, seen: set<string>): Outcome {
    if !x.accepted then Outcome(c, table)
    else if Flushes(c, limits, g, table, now, x.flushAuditOk) && !(x.insertOk && x.auditOk) then
      Outcome(FlushUndone(c, g, table, now), table)
    else AfterFlush(c, limits, g, table, now, x.flushAuditOk, seen)
  }

  ghost predicate StoresAndFlushes(
      c: Cache, limits: Limits, g: Guards, table: Rows, key: string, value: Option<Json>, now: int,
      setAuditOk: bool, flushAuditOk: bool) {
    && Acceptable(limits, g, key, value) && Fits(c, limits, table, now, key, value.value) && setAuditOk
    && var swept := AllSwept(c, table, now);
       Flushes(WithEntry(swept.cache, key, value.value), limits, g, swept.table, now, flushAuditOk)
  }

  /** All or nothing. */
  ghost function AfterSetAndFlush(
      c: Cache, limits: Limits, g: Guards, table: Rows, key: string, value: Option<Json>, now: int,
      setAuditOk: bool, flushAuditOk: bool): Outcome {
    if !StoresAndFlushes(c, limits, g, table, key, value, now, setAuditOk, flushAuditOk) then Outcome(c, table)
    else
      var swept := AllSwept(c, table, now);
      var stored := WithEntry(swept.cache, key, value.value);
      Outcome(FlushedCache(stored, swept.table, g, now), FlushedTable(stored, swept.table, g, now))
  }

  // ----- Single keys -----

  /** A decision's transaction: none, one that commits, one that is rolled back. */
  datatype Mode = Alone | Committed | RolledBack

  ghost function AfterPersist(
      c: Cache, limits: Limits, g: Guards, table: Rows, key: string, value: Option<Json>, now: int, mode: Mode, s: Stop)
    : Outcome
  {
    if !Acceptable(limits, g, key, value) then Outcome(c, table)
    else
      var swept := AfterSweep(c, limits, table, now, s);
      if !Fits(c, limits, table, now, key, value.value) then (if mode.Alone? then swept else swept.(table := table))
      else if mode.RolledBack? then swept.(table := table)
      else Outcome(Persisted(swept.cache, key, value.value), swept.table[key := value.value])
  }

  ghost function AfterPurge(c: Cache, table: Rows, key: string, mode: Mode): Outcome {
    if mode.RolledBack? then Outcome(c, table) else Outcome(Erased(c, key), table - {key})
  }

  ghost function AfterDelete(c: Cache, key: string, auditOk: bool): Cache {
    if auditOk && key in c.store then WithoutEntry(c, key) else c
  }

  ghost function AfterRestore(
      c: Cache, limits: Limits, g: Guards, snap: map<string, Option<Json>>, auditOk: bool): Cache {
    if SnapshotFits(limits, g, snap) && auditOk then Restored(c, SnapshotRows(snap)) else c
  }

  ghost function AfterClear(c: Cache, auditOk: bool): Cache {
    if auditOk then Restored(c, map[]) else c
  }
}
