/** When the calls of a working-memory cache keep its invariants: the byte count and the three maps
    agree, a clean key holds its persisted value, and the limits are respected. */
module WorkingMemoryInvariants {
  import opened Wrappers
  import opened DeletionGuards
  import opened WorkingMemoryState
  import opened WorkingMemoryLaws
  import opened WorkingMemoryCalls

  // ----- What a sweep does to the byte count -----

  lemma {:induction false} TotalUnion(a: Rows, b: Rows)
    requires a.Keys !! b.Keys
    ensures Total(a + b) == Total(a) + Total(b)
    decreases |b|
  {
    hide EntrySize, Total;
    if b == map[] {
      TotalOfNothing();
      assert a + b == a;
    } else {
      var k :| k in b;
      TotalUnion(a, b - {k});
      TotalRemove(b, k);
      TotalRemove(a + b, k);
      UnionWithout(a, b, k);
    }
  }

  lemma UnionWithout(a: Rows, b: Rows, k: string)
    requires a.Keys !! b.Keys && k in b
    ensures (a + b) - {k} == a + (b - {k}) && (a + b)[k] == b[k]
  {
  }

  /** The entries a sweep of "gone" drops, and the rows of other writers it takes in their place. */
  ghost function Expiring(c: Cache, gone: set<string>): Rows {
    map k | k in c.store && k in gone :: c.store[k]
  }

  ghost function Superseding(c: Cache, table: Rows, gone: set<string>, now: int): Rows {
    map k | k in c.store && k in gone && Superseded(table, k, c.store[k], now) :: table[k]
  }

  ghost function Staying(c: Cache, gone: set<string>): Rows {
    map k | k in c.store && k !in gone :: c.store[k]
  }

  lemma SweepParts(c: Cache, table: Rows, gone: set<string>, now: int)
    ensures c.store == Staying(c, gone) + Expiring(c, gone)
    ensures SweptStore(c, table, gone, now) == Staying(c, gone) + Superseding(c, table, gone, now)
    ensures Staying(c, gone).Keys !! Expiring(c, gone).Keys
    ensures Staying(c, gone).Keys !! Superseding(c, table, gone, now).Keys
  {
    hide Expired;
  }

  lemma SweptTotal(c: Cache, table: Rows, gone: set<string>, now: int)
    ensures Total(SweptStore(c, table, gone, now))
            == Total(c.store) - Total(Expiring(c, gone)) + Total(Superseding(c, table, gone, now))
  {
    hide Total, SweptStore, Staying, Expiring, Superseding;
    SweepParts(c, table, gone, now);
    TotalUnion(Staying(c, gone), Expiring(c, gone));
    TotalUnion(Staying(c, gone), Superseding(c, table, gone, now));
  }

  lemma SplitWithout(a: Rows, b: Rows, key: string)
    requires a.Keys !! b.Keys
    ensures Total((a + b) - {key}) == Total(a - {key}) + Total(b - {key})
  {
    hide Total;
    assert (a + b) - {key} == (a - {key}) + (b - {key});
    TotalUnion(a - {key}, b - {key});
  }

  /** The same for every key but one. */
  lemma SweptTotalBeside(c: Cache, table: Rows, gone: set<string>, now: int, key: string)
    ensures Total(SweptStore(c, table, gone, now) - {key})
            == Total(c.store - {key}) - Total(Expiring(c, gone) - {key})
               + Total(Superseding(c, table, gone, now) - {key})
  {
    hide Total, SweptStore, Staying, Expiring, Superseding;
    SweepParts(c, table, gone, now);
    SplitWithout(Staying(c, gone), Expiring(c, gone), key);
    SplitWithout(Staying(c, gone), Superseding(c, table, gone, now), key);
  }

  // ----- The sweep -----

  lemma SweptIsAccounted(c: Cache, limits: Limits, table: Rows, gone: set<string>, now: int)
    requires Accounted(c, limits) && gone <= ExpiredKeys(c.store, now)
    requires forall k :: k in gone ==> !TooLarge(c, limits, table, now, k)
    ensures Accounted(Swept(c, table, gone, now), limits)
  {
    hide Preparable, SizeMap, Total, Expired;
    var store := SweptStore(c, table, gone, now);
    forall k | k in store ensures Preparable(limits, k, store[k]) {
    }
  }

  lemma SweepOutcomeIsAccounted(c: Cache, limits: Limits, table: Rows, now: int, s: Stop)
    requires Accounted(c, limits) && (SweepFails(c, limits, table, now) ==> StopsAt(c, limits, table, now, s))
    ensures Accounted(AfterSweep(c, limits, table, now, s).cache, limits)
  {
    hide Accounted, SizeMap, Total, Preparable, Expired, Swept, SweptTable, Dropped, Superseded;
    if SweepFails(c, limits, table, now) {
      SweptIsAccounted(c, limits, table, s.gone, now);
      DropKeepsAccounting(Swept(c, table, s.gone, now), limits, s.key);
      ViewingKeepsAccounting(Dropped(Swept(c, table, s.gone, now), s.key), limits, s.key, SweptTable(c, table, s.gone));
    } else {
      SweptIsAccounted(c, limits, table, ExpiredKeys(c.store, now), now);
    }
  }

  lemma ViewingKeepsAccounting(c: Cache, limits: Limits, key: string, table: Rows)
    requires Accounted(c, limits)
    ensures Accounted(Viewed(c, key, table), limits)
  {
    hide Preparable, SizeMap, Total;
  }

  lemma SweepOutcomeStaysInStep(c: Cache, limits: Limits, table: Rows, now: int, s: Stop)
    requires Accounted(c, limits) && InStep(c)
    ensures InStep(AfterSweep(c, limits, table, now, s).cache)
  {
    hide Accounted, InStep, SizeMap, Total, Swept, SweptTable, Dropped, Viewed, SweepFails;
    AccountedFields(c, limits);
    SweepStaysInStep(c, table, ExpiredKeys(c.store, now), now);
    SweepStaysInStep(c, table, s.gone, now);
    DropStaysInStep(Swept(c, table, s.gone, now), s.key, SweptTable(c, table, s.gone));
  }

  /** Everything a sweep drops or takes over, also when it stops half-way. */
  ghost function Gone(c: Cache, limits: Limits, table: Rows, now: int, s: Stop): set<string> {
    if SweepFails(c, limits, table, now) then s.gone + {s.key} else ExpiredKeys(c.store, now)
  }

  ghost function Taken(c: Cache, limits: Limits, table: Rows, now: int, s: Stop): Rows {
    Superseding(c, table, if SweepFails(c, limits, table, now) then s.gone else ExpiredKeys(c.store, now), now)
  }

  /** The rows a sweep takes over leave the cache within its byte limit. */
  ghost predicate SweepStaysSmall(c: Cache, limits: Limits, table: Rows, now: int, s: Stop) {
    Total(c.store) - Total(Expiring(c, Gone(c, limits, table, now, s))) + Total(Taken(c, limits, table, now, s))
    <= limits.maxTotalBytes
  }

  lemma StoppedTotal(c: Cache, table: Rows, gone: set<string>, now: int, key: string)
    requires key in c.store && key !in gone
    ensures Total(SweptStore(c, table, gone, now) - {key})
            == Total(c.store) - Total(Expiring(c, gone + {key})) + Total(Superseding(c, table, gone, now))
  {
    hide EntrySize, Total, Expired;
    SweptTotal(c, table, gone, now);
    var store := SweptStore(c, table, gone, now);
    assert key in store && store[key] == c.store[key];
    TotalWithout(store, key);
    TotalInsert(Expiring(c, gone), key, c.store[key]);
    assert Expiring(c, gone) - {key} == Expiring(c, gone);
    assert Expiring(c, gone)[key := c.store[key]] == Expiring(c, gone + {key});
  }

  lemma SweepOutcomeTotal(c: Cache, limits: Limits, table: Rows, now: int, s: Stop)
    requires SweepFails(c, limits, table, now) ==> StopsAt(c, limits, table, now, s)
    ensures AfterSweep(c, limits, table, now, s).cache.totalBytes
            == Total(c.store) - Total(Expiring(c, Gone(c, limits, table, now, s)))
               + Total(Taken(c, limits, table, now, s))
    ensures |AfterSweep(c, limits, table, now, s).cache.store| <= |c.store|
  {
    hide Total, SizeMap, SweptStore, SweptTable, SweptPersisted, Expiring, Superseding, ExpiredKeys, Superseded,
         Preparable;
    if SweepFails(c, limits, table, now) {
      StoppedTotal(c, table, s.gone, now, s.key);
      SweptSize(c, table, s.gone, now);
      SubsetSize((SweptStore(c, table, s.gone, now) - {s.key}).Keys, SweptStore(c, table, s.gone, now).Keys);
    } else {
      SweptTotal(c, table, ExpiredKeys(c.store, now), now);
      SweptSize(c, table, ExpiredKeys(c.store, now), now);
    }
  }

  /** A sweep, failing or not, leaves the cache within its limits if and only if the rows it takes
      over are no larger than the limit allows beside what it drops. */
  lemma SweepKeepsLimits(c: Cache, limits: Limits, table: Rows, now: int, s: Stop)
    requires WithinLimits(c, limits) && (SweepFails(c, limits, table, now) ==> StopsAt(c, limits, table, now, s))
    ensures WithinLimits(AfterSweep(c, limits, table, now, s).cache, limits)
            <==> SweepStaysSmall(c, limits, table, now, s)
  {
    hide AfterSweep, Gone, Taken, Expiring, Total, SweepFails, StopsAt;
    SweepOutcomeTotal(c, limits, table, now, s);
  }

  // ----- A rolled-back store -----

  /** Beside the key, the sweep took over exactly as many bytes as it dropped. */
  ghost predicate SweepKeepsBytesBeside(c: Cache, table: Rows, now: int, key: string) {
    var gone := ExpiredKeys(c.store, now);
    Total(Expiring(c, gone) - {key}) == Total(Superseding(c, table, gone, now) - {key})
  }

  ghost predicate CleanAndExpired(c: Cache, now: int, key: string) {
    key in c.store && key !in c.dirty && Expired(c.store[key], now)
  }

  /** A store whose audit record fails keeps the accounting if and only if the sweep before it left
      the byte count of the other keys as it was: the count is put back, the sweep is not. */
  lemma SetRollbackAccounting(c: Cache, limits: Limits, table: Rows, now: int, key: string)
    requires Accounted(c, limits) && !SweepFails(c, limits, table, now)
    ensures Accounted(SetRolledBack(c, AllSwept(c, table, now).cache, key), limits)
            <==> SweepKeepsBytesBeside(c, table, now, key)
  {
    var gone := ExpiredKeys(c.store, now);
    var swept := AllSwept(c, table, now).cache;
    SweptTotalBeside(c, table, gone, now, key);
    SweptIsAccounted(c, limits, table, gone, now);
    assert swept.store == SweptStore(c, table, gone, now);
    hide *;
    RollbackTotals(c, limits, swept, key);
  }

  /** It keeps clean keys in step with the persisted view if and only if the key itself was not a
      clean entry that had expired: that one comes back without its persisted row. */
  lemma SetRollbackStaysInStep(c: Cache, limits: Limits, table: Rows, now: int, key: string)
    requires Accounted(c, limits) && InStep(c)
    ensures InStep(SetRolledBack(c, AllSwept(c, table, now).cache, key)) <==> !CleanAndExpired(c, now, key)
  {
    hide SizeMap, Total, Preparable, Expired;
    var gone := ExpiredKeys(c.store, now);
    var swept := AllSwept(c, table, now).cache;
    var r := SetRolledBack(c, swept, key);
    SweepStaysInStep(c, table, gone, now);
    assert key in c.store ==> key in r.store && r.store[key] == c.store[key] && (key in r.dirty <==> key in c.dirty);
    if !CleanAndExpired(c, now, key) {
      forall k | k in r.store && k !in r.dirty ensures k in r.persisted && r.persisted[k] == r.store[k] {
      }
    }
  }

  lemma SetRollbackStaysWithinLimits(c: Cache, limits: Limits, table: Rows, now: int, key: string)
    requires WithinLimits(c, limits)
    ensures WithinLimits(SetRolledBack(c, AllSwept(c, table, now).cache, key), limits)
  {
    hide SizeMap, Total, Expired;
    var r := SetRolledBack(c, AllSwept(c, table, now).cache, key);
    SubsetSize(r.store.Keys, c.store.Keys);
  }

  // ----- A failing flush -----

  lemma FailedRefreshIsAccounted(c: Cache, limits: Limits, table: Rows, now: int, seen: set<string>)
    requires Accounted(c, limits)
    ensures Accounted(FailedRefresh(c, table, now, seen), limits)
  {
    hide Candidate, LiveSoFar, Lapsed, SizeMap, Total, Preparable;
    PendingShrinks(c, limits, FailedRefresh(c, table, now, seen));
  }

  /** The table still explains what the cache does not hold pending. */
  ghost predicate TableExplains(c: Cache, table: Rows) {
    && c.deleted <= table.Keys
    && forall k :: k in c.store && k !in c.dirty ==> k in table && table[k] == c.store[k]
  }

  lemma LapsedIsStored(c: Cache, table: Rows, now: int, k: string)
    requires Consistent(c) && k in Lapsed(Candidate(c, table, now), table, now)
    ensures k in c.store && c.store[k] == Candidate(c, table, now)[k]
  {
  }

  /** After a failing flush the view is the table as it is now: clean keys are in step with it if and
      only if no other writer changed their rows, and no lapsed key was met. */
  lemma FailedFlushStaysInStep(c: Cache, limits: Limits, table: Rows, now: int, seen: set<string>)
    requires Accounted(c, limits)
    ensures InStep(FailedRefresh(c, table, now, seen))
            <==> TableExplains(c, table) && seen !! Lapsed(Candidate(c, table, now), table, now)
  {
    var cand, f := Candidate(c, table, now), FailedRefresh(c, table, now, seen);
    AccountedFields(c, limits);
    NothingDeletedIsCandidate(c, table, now);
    hide SizeMap, Total, Preparable, Accounted, Expired, Candidate;
    forall k | k in seen && k in Lapsed(cand, table, now) ensures !InStep(f) {
      LapsedIsStored(c, table, now, k);
      assert k in f.store && k !in f.dirty && k !in f.persisted;
    }
    if seen !! Lapsed(cand, table, now) {
      assert f.persisted == table && f.dirty == c.dirty;
    } else {
      assert exists k :: k in seen && k in Lapsed(cand, table, now);
    }
  }

  lemma NothingDeletedIsCandidate(c: Cache, table: Rows, now: int)
    requires c.deleted !! c.store.Keys
    ensures c.deleted !! Candidate(c, table, now).Keys
  {
  }

  /** The pending entries that expired with their own row, or none, behind them. */
  ghost function Lapsing(c: Cache, table: Rows, now: int): set<string> {
    set k | k in c.store && (c.replace || k in c.dirty)
            && Expired(c.store[k], now) && (k in table ==> table[k] == c.store[k])
  }

  lemma LapsedAreLapsing(c: Cache, table: Rows, now: int)
    requires Consistent(c)
    ensures Lapsed(Candidate(c, table, now), table, now) == Lapsing(c, table, now)
    ensures Lapsing(c, table, now) <= Candidate(c, table, now).Keys
  {
  }

  /** Wherever a flush fails: the cache stays in step if and only if no other writer changed or
      removed the row of a key that is not pending, and no pending entry has lapsed. */
  lemma EveryFailedFlushStaysInStep(c: Cache, limits: Limits, table: Rows, now: int)
    requires Accounted(c, limits)
    ensures (forall seen :: seen <= Candidate(c, table, now).Keys ==> InStep(FailedRefresh(c, table, now, seen)))
            <==> TableExplains(c, table) && Lapsing(c, table, now) == {}
  {
    hide Accounted, InStep, Candidate, Lapsed, FailedRefresh, TableExplains, Lapsing, Expired;
    AccountedFields(c, limits);
    LapsedAreLapsing(c, table, now);
    var all := Candidate(c, table, now).Keys;
    FailedFlushStaysInStep(c, limits, table, now, all);
    forall seen | seen <= all
      ensures InStep(FailedRefresh(c, table, now, seen)) <==> TableExplains(c, table) && seen !! Lapsing(c, table, now)
    {
      FailedFlushStaysInStep(c, limits, table, now, seen);
    }
    assert all !! Lapsing(c, table, now) ==> Lapsing(c, table, now) == {};
  }
}
