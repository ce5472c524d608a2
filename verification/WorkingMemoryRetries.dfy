/** What the next flush writes after a checkpoint or flush that failed. */
module WorkingMemoryRetries {
  import opened Wrappers
  import opened DeletionGuards
  import opened WorkingMemoryState
  import opened WorkingMemoryLaws
  import opened WorkingMemoryCalls
  import opened WorkingMemoryInvariants

  // ----- A flush without changes -----

  lemma UndoneWritesNothing(c: Cache, g: Guards, table: Rows, now: int, other: Rows, later: int)
    requires NothingPending(Refreshed(c, table, g, now))
    ensures FlushedTable(FlushUndone(c, g, table, now), other, g, later) == other
  {
    hide Refreshed, FlushedTable, Written;
    SettledCacheWritesNothing(FlushUndone(c, g, table, now), other, g, later);
  }

  /** A checkpoint that fails after a flush without changes: the next flush writes what that one would
      have written if and only if it had no expired row to remove. */
  lemma RetryAfterNoChange(c: Cache, g: Guards, table: Rows, now: int)
    requires NothingPending(Refreshed(c, table, g, now))
    ensures FlushedTable(FlushUndone(c, g, table, now), table, g, now) == FlushedTable(c, table, g, now)
            <==> Live(Candidate(c, table, now), table, now) == table
  {
    UndoneWritesNothing(c, g, table, now, table, now);
    NothingToWrite(Refreshed(c, table, g, now), Live(Candidate(c, table, now), table, now));
    hide Live, Candidate, Prepared, Written, FlushUndone;
  }

  // ----- A flush that fails in its refresh -----

  /** Met by the failing flush: a pending entry that has expired while its row still holds it. */
  ghost predicate LostExpiry(c: Cache, table: Rows, now: int, seen: set<string>, k: string) {
    && !c.replace && k in seen && k in c.dirty && k in c.store
    && Expired(c.store[k], now) && k in table && table[k] == c.store[k]
  }

  lemma FailedRefreshAtKey(c: Cache, g: Guards, table: Rows, now: int, seen: set<string>, k: string)
    requires Consistent(c) && seen <= Candidate(c, table, now).Keys
    ensures Consistent(FailedRefresh(c, table, now, seen))
    ensures MergedRow(FailedRefresh(c, table, now, seen), table, g, now, k) == MergedRow(c, table, g, now, k)
            <==> !LostExpiry(c, table, now, seen, k)
  {
    hide WorkingRefused, LiveSoFar;
    LapsedAreLapsing(c, table, now);
  }

  /** After a flush that failed in its refresh, the next flush of the same table writes the same rows if
      and only if it had met no pending entry that expired while its row still held it. */
  lemma RetryAfterFailedRefresh(c: Cache, g: Guards, table: Rows, now: int, seen: set<string>)
    requires Consistent(c) && seen <= Candidate(c, table, now).Keys
    ensures FlushedTable(FailedRefresh(c, table, now, seen), table, g, now) == FlushedTable(c, table, g, now)
            <==> forall k :: !LostExpiry(c, table, now, seen, k)
  {
    hide WorkingRefused, MergedRow, FailedRefresh, FlushedTable, LostExpiry, Candidate;
    var f := FailedRefresh(c, table, now, seen);
    var again, once := FlushedTable(f, table, g, now), FlushedTable(c, table, g, now);
    forall k ensures Lookup(again, k) == Lookup(once, k) <==> !LostExpiry(c, table, now, seen, k) {
      FailedRefreshAtKey(c, g, table, now, seen, k);
      FlushIsPerKeyMerge(c, table, g, now, k);
      FlushIsPerKeyMerge(f, table, g, now, k);
    }
    if forall k :: !LostExpiry(c, table, now, seen, k) {
      LookupExtensional(again, once);
    }
  }

  // ----- Undisturbed retries -----

  lemma UndisturbedHasNoLapse(c: Cache, g: Guards, table: Rows, now: int)
    requires Consistent(c) && Undisturbed(c, table, g, now)
    ensures Lapsing(c, table, now) == {} && Live(Candidate(c, table, now), table, now) == table
  {
    hide WorkingRefused;
    var cand := Candidate(c, table, now);
    forall k | k in cand ensures !Expired(cand[k], now) {
    }
  }

  lemma FailedRefreshKeepsDelta(c: Cache, g: Guards, table: Rows, now: int, seen: set<string>, later: int)
    requires Consistent(c) && Undisturbed(c, table, g, now) && Undisturbed(c, table, g, later)
    ensures var f := FailedRefresh(c, table, now, seen);
            Consistent(f) && Undisturbed(f, table, g, later) && DeltaOf(f) == DeltaOf(c)
  {
    hide WorkingRefused, Candidate, LiveSoFar, Lapsed, Lapsing, Live;
    LapsedAreLapsing(c, table, now);
    UndisturbedHasNoLapse(c, g, table, now);
    assert FailedRefresh(c, table, now, seen).dirty == c.dirty;
  }

  /** The refreshed cache as an undisturbed flush leaves it before it writes. */
  lemma RefreshedFields(c: Cache, g: Guards, table: Rows, now: int)
    requires Consistent(c) && Undisturbed(c, table, g, now)
    ensures var r, want := Refreshed(c, table, g, now), Apply(table, DeltaOf(c));
            && r.store == want && r.persisted == table && r.replace == c.replace
            && r.dirty == Unpersisted(want, table)
            && r.deleted == (if c.replace then table.Keys else c.deleted * table.Keys) - want.Keys
            && FlushedTable(c, table, g, now) == want == Written(r, table) && Consistent(r)
  {
    FlushAppliesDelta(c, table, g, now);
    UndisturbedHasNoLapse(c, g, table, now);
    hide Candidate, Prepared, Live, Undisturbed, Apply, DeltaOf, SizeMap, Total;
  }

  lemma RefreshedKeepsDelta(c: Cache, g: Guards, table: Rows, now: int, later: int)
    requires Consistent(c) && Undisturbed(c, table, g, now) && Undisturbed(c, table, g, later)
    ensures var r := Refreshed(c, table, g, now);
            Undisturbed(r, table, g, later) && Apply(table, DeltaOf(r)) == Apply(table, DeltaOf(c))
  {
    hide WorkingRefused, Refreshed, FlushedTable;
    RefreshedFields(c, g, table, now);
    var r := Refreshed(c, table, g, now);
    assert !c.replace ==> Apply(table, DeltaOf(r)) == Written(r, table);
  }

  /** After any checkpoint that failed, the next flush of the same table leaves exactly what the failed
      one would have left, if neither expiry nor guards take part in the two. */
  lemma UndisturbedRetry(
      c: Cache, limits: Limits, g: Guards, table: Rows, now: int, x: Checks, seen: set<string>, later: int)
    requires Consistent(c) && Undisturbed(c, table, g, now) && Undisturbed(c, table, g, later)
    requires !(x.accepted && Flushes(c, limits, g, table, now, x.flushAuditOk) && x.insertOk && x.auditOk)
    ensures var o := AfterCheckpoint(c, limits, g, table, now, x, seen);
            o.table == table && FlushedTable(o.cache, table, g, later) == Apply(table, DeltaOf(c))
  {
    hide Undisturbed, Refreshed, FlushedTable, FailedRefresh, PreparedFits, RowKeysValid, Apply, DeltaOf,
         Candidate, Consistent, Written;
    var r, f := Refreshed(c, table, g, now), FailedRefresh(c, table, now, seen);
    FlushAppliesDelta(c, table, g, later);
    FailedRefreshKeepsDelta(c, g, table, now, seen, later);
    FlushAppliesDelta(f, table, g, later);
    RefreshedFields(c, g, table, now);
    RefreshedKeepsDelta(c, g, table, now, later);
    FlushAppliesDelta(r, table, g, later);
    if NothingPending(r) {
      UndoneWritesNothing(c, g, table, now, table, later);
      NothingToWrite(r, table);
    }
  }
}
