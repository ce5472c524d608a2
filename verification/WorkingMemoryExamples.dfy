/** Calls that break an invariant of the cache, and flushes whose retry writes something else. */
module WorkingMemoryExamples {
  import opened Wrappers
  import opened DeletionGuards
  import opened WorkingMemoryState
  import opened WorkingMemoryLaws
  import opened WorkingMemoryCalls
  import opened WorkingMemoryInvariants
  import opened WorkingMemoryRuns
  import opened WorkingMemoryRetries

  const OPEN := Guards("", {}, {}, {}, {}, {})
  const LAPSED := Json("{}", "{}", Some(0))
  const SMALL := Json("1", "1", None)
  const LARGE := Json("12345", "12345", None)

  lemma SizesOfExamples()
    ensures EntrySize("k", LAPSED) == 3 && EntrySize("k", LARGE) == 6
    ensures EntrySize("k", SMALL) == EntrySize("x", SMALL) == 2
    ensures Utf8Bytes("{}") == 2 && Utf8Bytes("1") == 1 && Utf8Bytes("12345") == 5
    ensures ValidKey("k") && ValidKey("x")
  {
    assert Utf8Bytes("k") == 1 && Utf8Bytes("x") == 1 && Utf8Bytes("1") == 1;
    assert "{}"[1..] == "}" && Utf8Bytes("}") == 1;
    assert "12345"[1..] == "2345" && "2345"[1..] == "345" && "345"[1..] == "45" && "45"[1..] == "5";
    assert Utf8Bytes("5") == 1;
    assert Utf8Bytes("45") == 2;
    assert Utf8Bytes("345") == 3;
    assert Utf8Bytes("2345") == 4;
  }

  function Single(key: string, v: Json): Rows {
    map[key := v]
  }

  lemma TotalOfSingle(key: string, v: Json)
    ensures Total(Single(key, v)) == EntrySize(key, v) && Total(map[]) == 0
    ensures Single(key, v) - {key} == map[]
  {
    hide EntrySize;
    TotalRemove(Single(key, v), key);
    assert Single(key, v) - {key} == map[];
  }

  /** A cache with one entry. */
  ghost function Holding(key: string, v: Json, persisted: Rows, dirty: set<string>): Cache {
    var rows := Single(key, v);
    Cache(rows, SizeMap(rows), rows, persisted, dirty, {}, false, Total(rows))
  }

  lemma OpenGuards(key: string, text: string)
    ensures !WorkingRefused(OPEN, key, text)
  {
  }

  lemma HoldingIsSound(key: string, v: Json, persisted: Rows, dirty: set<string>, limits: Limits)
    requires dirty <= {key} && Preparable(limits, key, v)
    requires 1 <= limits.maxEntries && EntrySize(key, v) <= limits.maxTotalBytes
    requires key in dirty || (key in persisted && persisted[key] == v)
    ensures Sound(Holding(key, v, persisted, dirty), limits)
  {
    TotalOfSingle(key, v);
    hide Preparable, EntrySize, SizeMap, Total;
  }

  /** What a sweep makes of a single expired entry. */
  lemma SweptSingle(key: string, v: Json, persisted: Rows, dirty: set<string>, table: Rows)
    requires Expired(v, 0)
    ensures var c := Holding(key, v, persisted, dirty);
            && ExpiredKeys(c.store, 0) == {key} && Expiring(c, {key}) == c.store
            && (if Superseded(table, key, v, 0)
                then Superseding(c, table, {key}, 0) == Single(key, table[key]) == AllSwept(c, table, 0).cache.store
                else Superseding(c, table, {key}, 0) == map[] == AllSwept(c, table, 0).cache.store)
  {
    hide SizeMap, Total;
    var c := Holding(key, v, persisted, dirty);
    assert ExpiredKeys(c.store, 0) == {key};
  }

  lemma SmallIsAcceptable(key: string, limits: Limits)
    requires (key == "k" || key == "x") && limits.maxValueBytes >= 1
    ensures Acceptable(limits, OPEN, key, Some(SMALL))
  {
    hide EntrySize, Utf8Bytes, ValidKey, WorkingRefused;
    SizesOfExamples();
    OpenGuards(key, SMALL.search);
  }

  lemma EmptyHasRoom(c: Cache, limits: Limits, key: string, v: Json)
    requires c.store == map[] && 1 <= limits.maxEntries && EntrySize(key, v) <= limits.maxTotalBytes <= MAX_SAFE_INTEGER
    ensures HasRoom(c, limits, key, v)
  {
    TotalOfNothing();
    hide EntrySize, Total;
    assert c.store - {key} == map[];
  }

  lemma BytesBesideDiffer(c: Cache, key: string)
    requires c == Holding("k", LAPSED, map[], {"k"}) && key != "k"
    ensures !SweepKeepsBytesBeside(c, map[], 0, key)
  {
    SizesOfExamples();
    SweptSingle("k", LAPSED, map[], {"k"}, map[]);
    TotalOfSingle("k", LAPSED);
    hide EntrySize, Total, SizeMap, Superseding, Expiring;
    assert c.store - {key} == c.store;
    var none: Rows := map[];
    assert none - {key} == none;
  }

  lemma OwnRowNeverSupersedes(key: string, v: Json, persisted: Rows, dirty: set<string>, limits: Limits, table: Rows)
    requires key in table ==> table[key] == v
    ensures !SweepFails(Holding(key, v, persisted, dirty), limits, table, 0)
  {
    hide SizeMap, Total;
  }

  function RefusedStore(key: string): Call {
    Call.Set(key, Some(SMALL), 0, false, Stop({}, ""))
  }

  /** A store whose audit record fails, as it comes out for a sound cache. */
  lemma RefusedStoreOutcome(c: Cache, table: Rows, limits: Limits, key: string)
    requires Sound(c, limits) && Acceptable(limits, OPEN, key, Some(SMALL)) && Fits(c, limits, table, 0, key, SMALL)
    ensures var w, call := Process(c, table, OPEN), RefusedStore(key);
            && Possible(w, limits, call) && RollsBack(w, limits, call)
            && (Accounted(Next(w, limits, call).cache, limits) <==> SweepKeepsBytesBeside(c, table, 0, key))
            && (InStep(Next(w, limits, call).cache) <==> !CleanAndExpired(c, 0, key))
  {
    hide Acceptable, SweepFails, HasRoom, AllSwept, SweepKeepsBytesBeside, Accounted, InStep, WithinLimits,
         Next, CleanAndExpired, TableExplains, Lapsing, PreparedFits, RowKeysValid;
    CallKeepsCounts(Process(c, table, OPEN), limits, RefusedStore(key));
    CallKeepsView(Process(c, table, OPEN), limits, RefusedStore(key));
  }

  lemma RoomBesideExpired(key: string, persisted: Rows, dirty: set<string>, limits: Limits, table: Rows)
    requires key == "k" || key == "x"
    requires ("k" in table ==> table["k"] == LAPSED) && limits == Limits(10, 100, 100)
    ensures Fits(Holding("k", LAPSED, persisted, dirty), limits, table, 0, key, SMALL)
    ensures Acceptable(limits, OPEN, key, Some(SMALL))
  {
    hide Holding, HasRoom, AllSwept, SweepFails, Acceptable, EntrySize;
    SizesOfExamples();
    SweptSingle("k", LAPSED, persisted, dirty, table);
    OwnRowNeverSupersedes("k", LAPSED, persisted, dirty, limits, table);
    EmptyHasRoom(AllSwept(Holding("k", LAPSED, persisted, dirty), table, 0).cache, limits, key, SMALL);
    SmallIsAcceptable(key, limits);
  }

  /** An entry expires beside a store whose audit record fails: the byte count stays too high. */
  lemma RollbackLosesCount()
    ensures exists w: Process, limits: Limits, call: Call ::
      && Sound(w.cache, limits) && Possible(w, limits, call)
      && RollsBack(w, limits, call) && !Accounted(Next(w, limits, call).cache, limits)
  {
    hide Holding, Sound, Possible, RollsBack, Accounted, Next, EntrySize, Acceptable, Fits,
         SweepKeepsBytesBeside, InStep;
    var limits := Limits(10, 100, 100);
    var c := Holding("k", LAPSED, map[], {"k"});
    SizesOfExamples();
    HoldingIsSound("k", LAPSED, map[], {"k"}, limits);
    RoomBesideExpired("x", map[], {"k"}, limits, map[]);
    RefusedStoreOutcome(c, map[], limits, "x");
    BytesBesideDiffer(c, "x");
  }

  /** A clean entry expires under a store of its own key whose audit record fails: the entry comes back
      clean, without its row. */
  lemma RollbackLosesRow()
    ensures exists w: Process, limits: Limits, call: Call ::
      && Sound(w.cache, limits) && Possible(w, limits, call)
      && RollsBack(w, limits, call) && !InStep(Next(w, limits, call).cache)
  {
    hide Sound, Possible, RollsBack, Accounted, Next, EntrySize, Acceptable, Fits, SweepKeepsBytesBeside,
         InStep, SizeMap, Total;
    var limits := Limits(10, 100, 100);
    var rows := Single("k", LAPSED);
    var c := Holding("k", LAPSED, rows, {});
    SizesOfExamples();
    HoldingIsSound("k", LAPSED, rows, {}, limits);
    RoomBesideExpired("k", rows, {}, limits, rows);
    RefusedStoreOutcome(c, rows, limits, "k");
    assert CleanAndExpired(c, 0, "k");
  }

  lemma LargeFits(c: Cache, limits: Limits, table: Rows)
    requires table == Single("k", LARGE) && limits.maxValueBytes >= 5
    requires c == Holding("k", LAPSED, map[], {"k"})
    ensures !SweepFails(c, limits, table, 0)
  {
    SizesOfExamples();
    hide SizeMap, Total, Utf8Bytes, ValidKey;
  }

  lemma LargeIsTakenOver(c: Cache, limits: Limits, table: Rows)
    requires c == Holding("k", LAPSED, map[], {"k"}) && table == Single("k", LARGE) && limits == Limits(1, 100, 3)
    ensures !SweepFails(c, limits, table, 0) && !Fits(c, limits, table, 0, "x", SMALL)
    ensures !SweepStaysSmall(c, limits, table, 0, Stop({}, ""))
  {
    hide EntrySize, Total, SizeMap, SweepFails, Expiring, Superseding, AllSwept;
    SizesOfExamples();
    SweptSingle("k", LAPSED, map[], {"k"}, table);
    TotalOfSingle("k", LAPSED);
    TotalOfSingle("k", LARGE);
    LargeFits(c, limits, table);
  }

  /** A store that is refused for lack of room has already taken over a row larger than the limit. */
  lemma SweepExceedsLimits()
    ensures exists w: Process, limits: Limits, call: Call ::
      && Sound(w.cache, limits) && Possible(w, limits, call)
      && OnlySweeps(w, limits, call) && !SweepFails(w.cache, limits, w.table, call.now)
      && !WithinLimits(Next(w, limits, call).cache, limits)
  {
    hide Holding, Accounted, InStep, WithinLimits, Next, EntrySize, Acceptable, Fits, SweepFails, SweepStaysSmall;
    var limits := Limits(1, 100, 3);
    var c, table := Holding("k", LAPSED, map[], {"k"}), Single("k", LARGE);
    SizesOfExamples();
    HoldingIsSound("k", LAPSED, map[], {"k"}, limits);
    SmallIsAcceptable("x", limits);
    LargeIsTakenOver(c, limits, table);
    CallKeepsLimits(Process(c, table, OPEN), limits, RefusedStore("x"));
  }

  lemma LargeDoesNotFit(table: Rows, limits: Limits)
    requires table == Single("k", LARGE) && limits.maxValueBytes < 5
    ensures !PreparedFits(limits, table, table, OPEN, 0) && RowKeysValid(table)
  {
    SizesOfExamples();
    hide Utf8Bytes, Total, ValidKey, WorkingRefused;
    assert !EntryFits(limits, table, OPEN, 0, "k", table["k"]);
  }

  /** Another writer puts a row into the table that is too large for this cache: the flush fails, and
      the clean entry no longer holds its persisted value. */
  lemma FailedFlushLosesView()
    ensures exists w: Process, limits: Limits, call: Call ::
      && Sound(w.cache, limits) && Possible(w, limits, call)
      && FailsToFlush(w, limits, call) && !InStep(Next(w, limits, call).cache)
  {
    hide Accounted, InStep, WithinLimits, Next, EntrySize, Acceptable, Fits, SizeMap, Total, PreparedFits,
         RowKeysValid, Utf8Bytes, ValidKey, Lapsing;
    var limits := Limits(10, 2, 100);
    var c, table := Holding("k", SMALL, Single("k", SMALL), {}), Single("k", LARGE);
    var w, call := Process(c, table, OPEN), Call.Flush(0, true, {});
    SizesOfExamples();
    HoldingIsSound("k", SMALL, Single("k", SMALL), {}, limits);
    assert Candidate(c, table, 0) == table;
    LargeDoesNotFit(table, limits);
    assert !TableExplains(c, table);
    CallKeepsView(w, limits, call);
  }

  // ----- Retries that write something else -----

  /** A dirty entry that expired while its row still holds it: the flush drops the row, but a retry
      after a rollback leaves it. */
  lemma RetryLeavesExpiredRow(limits: Limits)
    requires limits.maxEntries >= 1 && limits.maxValueBytes >= 2 && limits.maxTotalBytes >= 3
    ensures exists c: Cache, table: Rows ::
      Sound(c, limits) && FlushedTable(Refreshed(c, table, OPEN, 0), table, OPEN, 0) != FlushedTable(c, table, OPEN, 0)
  {
    hide WorkingRefused, FlushedTable, Refreshed, Sound, EntrySize, ValidKey, Utf8Bytes, SizeMap, Total;
    var c, rows := Holding("k", LAPSED, map[], {"k"}), Single("k", LAPSED);
    SizesOfExamples();
    HoldingIsSound("k", LAPSED, map[], {"k"}, limits);
    assert RetryDiffersAt(c, rows, OPEN, 0, "k");
    RetryWritesTheSame(c, rows, OPEN, 0);
  }

  /** A cache that replaces the table, and has nothing else to change in it. */
  ghost function Replacing(key: string, v: Json): Cache {
    Holding(key, v, Single(key, v), {}).(replace := true)
  }

  lemma ReplacingIsSound(key: string, v: Json, limits: Limits)
    requires Preparable(limits, key, v) && 1 <= limits.maxEntries && EntrySize(key, v) <= limits.maxTotalBytes
    ensures Sound(Replacing(key, v), limits)
  {
    HoldingIsSound(key, v, Single(key, v), {}, limits);
    hide Preparable, SizeMap, Total;
  }

  lemma NothingToReplace(key: string, v: Json)
    requires !WorkingRefused(OPEN, key, v.search)
    ensures NothingPending(Refreshed(Replacing(key, v), Single(key, v), OPEN, 0))
    ensures Live(Candidate(Replacing(key, v), Single(key, v), 0), Single(key, v), 0)
            == if Expired(v, 0) then map[] else Single(key, v)
  {
    hide WorkingRefused, SizeMap, Total;
    var c, table := Replacing(key, v), Single(key, v);
    assert Candidate(c, table, 0) == table;
  }

  /** A checkpoint that fails after a flush without changes: the expired row that flush had removed
      comes back with the rollback, and the next flush leaves it. */
  lemma NoChangeRetryLeavesExpiredRow(limits: Limits)
    requires limits.maxEntries >= 1 && limits.maxValueBytes >= 2 && limits.maxTotalBytes >= 3
    ensures exists c: Cache, table: Rows ::
      && Sound(c, limits) && NothingPending(Refreshed(c, table, OPEN, 0))
      && FlushedTable(FlushUndone(c, OPEN, table, 0), table, OPEN, 0) != FlushedTable(c, table, OPEN, 0)
  {
    hide FlushedTable, FlushUndone, Refreshed, Sound, NothingPending, Live, Candidate, EntrySize, Utf8Bytes,
         ValidKey, WorkingRefused, Replacing;
    var c, rows := Replacing("k", LAPSED), Single("k", LAPSED);
    SizesOfExamples();
    OpenGuards("k", LAPSED.search);
    ReplacingIsSound("k", LAPSED, limits);
    NothingToReplace("k", LAPSED);
    assert "k" in rows;
    RetryAfterNoChange(c, OPEN, rows, 0);
  }

  /** And the cache has forgotten that it replaces the table: a row another writer adds meanwhile, which
      its flush would have removed, stays. */
  lemma ReplaceIsForgotten(limits: Limits)
    requires limits.maxEntries >= 1 && limits.maxValueBytes >= 1 && limits.maxTotalBytes >= 2
    ensures exists c: Cache, table: Rows, other: Rows ::
      && Sound(c, limits) && c.replace && NothingPending(Refreshed(c, table, OPEN, 0))
      && "x" in FlushedTable(FlushUndone(c, OPEN, table, 0), other, OPEN, 0)
      && "x" !in FlushedTable(c, other, OPEN, 0)
  {
    hide FlushedTable, FlushUndone, Refreshed, Sound, NothingPending, Live, Candidate, EntrySize, Utf8Bytes,
         ValidKey, WorkingRefused, SizeMap, Total;
    var c, rows := Replacing("k", SMALL), Single("k", SMALL);
    var other := rows["x" := SMALL];
    SizesOfExamples();
    OpenGuards("k", SMALL.search);
    ReplacingIsSound("k", SMALL, limits);
    NothingToReplace("k", SMALL);
    UndoneWritesNothing(c, OPEN, rows, 0, other, 0);
    FlushIsPerKeyMerge(c, other, OPEN, 0, "x");
  }
}
