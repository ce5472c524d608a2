/** How many rows one call deletes: every candidate stands for a row of its own, so a call whose
    candidates exceed the delete cap deletes as many rows as the cap allows. */
module RetentionCounting {
  import opened Wrappers
  import opened RetentionState
  import opened RetentionScan
  import opened RetentionRing
  import opened RetentionLaws
  import opened RetentionRewind

  // ----- No row twice -----

  ghost function RowIds<T>(rows: seq<Row<T>>): set<nat> {
    set r | r in rows :: r.at.id
  }

  ghost predicate RowsOnce<T>(rows: seq<Row<T>>) {
    |RowIds(rows)| == |rows|
  }

  /** No two entries stand for one row. */
  ghost predicate EntriesOnce(es: seq<Entry>) {
    |Ids(es, EpisodicStore)| + |Ids(es, CheckpointStore)| == |es|
  }

  lemma {:induction false} FewRowIds<T>(rows: seq<Row<T>>)
    ensures |RowIds(rows)| <= |rows|
    decreases |rows|
  {
    if rows != [] {
      FewRowIds(rows[1..]);
      assert RowIds(rows) == RowIds(rows[1..]) + {rows[0].at.id};
    }
  }

  lemma {:induction false} DistinctRowsOnce<T>(rows: seq<Row<T>>)
    requires DistinctIds(rows)
    ensures RowsOnce(rows)
    decreases |rows|
  {
    if rows != [] {
      DistinctRowsOnce(rows[1..]);
      assert RowIds(rows) == RowIds(rows[1..]) + {rows[0].at.id};
      forall r | r in rows[1..] ensures r.at.id != rows[0].at.id {
        var i :| 0 <= i < |rows[1..]| && rows[1..][i] == r;
        assert rows[i + 1] == r;
      }
    }
  }

  lemma SameRowsOnce<T>(a: seq<Row<T>>, b: seq<Row<T>>)
    requires RowsOnce(a) && |a| == |b| && forall r :: r in b <==> r in a
    ensures RowsOnce(b)
  {
    assert RowIds(a) == RowIds(b);
  }

  lemma PrefixRowsOnce<T>(rows: seq<Row<T>>, n: nat)
    requires RowsOnce(rows) && n <= |rows|
    ensures RowsOnce(rows[..n])
  {
    FewRowIds(rows[..n]);
    FewRowIds(rows[n..]);
    assert rows == rows[..n] + rows[n..];
    assert RowIds(rows) == RowIds(rows[..n]) + RowIds(rows[n..]);
  }

  lemma ScanFromOnce<T>(rows: seq<Row<T>>, cursor: Option<Position>, limit: nat)
    requires ScanOrdered(rows) && RowsOnce(rows)
    ensures RowsOnce(ScanFrom(rows, cursor, limit))
  {
    hide ScanFrom, Ring, RowsOnce, LeavesOneOut;
    RingSize(rows, cursor);
    SameRowsOnce(rows, Ring(rows, cursor));
    ScanIsRingPrefix(rows, cursor, limit);
    PrefixRowsOnce(Ring(rows, cursor), |ScanFrom(rows, cursor, limit)|);
  }

  lemma {:induction false} ByPositionLength(rows: seq<Row<Checkpoint>>)
    ensures |ByPosition(rows)| == |rows|
    decreases |rows|
  {
    if rows != [] {
      ByPositionLength(rows[1..]);
      InsertByPositionLength(rows[0], ByPosition(rows[1..]));
    }
  }

  lemma {:induction false} InsertByPositionLength(r: Row<Checkpoint>, rows: seq<Row<Checkpoint>>)
    ensures |InsertByPosition(r, rows)| == |rows| + 1
    decreases |rows|
  {
    if rows != [] {
      InsertByPositionLength(r, rows[1..]);
    }
  }

  lemma BackwardScanOnce(rows: seq<Row<Checkpoint>>, limit: nat)
    requires DistinctIds(rows)
    ensures RowsOnce(Take(Reverse(rows), limit))
  {
    hide RowsOnce, Reverse;
    DistinctRowsOnce(rows);
    ReverseKeeps(rows);
    SameRowsOnce(rows, Reverse(rows));
    PrefixRowsOnce(Reverse(rows), |Take(Reverse(rows), limit)|);
  }

  lemma ScansOnce(st: State, limit: nat)
    requires ValidState(st)
    ensures RowsOnce(EpisodicScan(st, limit)) && RowsOnce(CheckpointScan(st, limit))
  {
    hide RowsOnce, TrustedFloor, ByPosition, ScanFrom, Reverse;
    DistinctRowsOnce(st.episodic);
    ScanFromOnce(st.episodic, st.episodicCursor, limit);
    BackwardScanOnce(st.checkpoints, limit);
    if st.floorSearch.Some? {
      var p := BelowId<Checkpoint>(st.floorSearch.value);
      FilterKeepsDistinctIds(st.checkpoints, p);
      BackwardScanOnce(Filter(st.checkpoints, p), limit);
    }
    ByPositionOnce(st.checkpoints);
    ScanFromOnce(ByPosition(st.checkpoints), st.checkpointCursor, limit);
  }

  lemma ByPositionOnce(rows: seq<Row<Checkpoint>>)
    requires DistinctIds(rows)
    ensures ScanOrdered(ByPosition(rows)) && RowsOnce(ByPosition(rows))
  {
    hide RowsOnce, ByPosition;
    DistinctRowsOnce(rows);
    ByPositionOrders(rows);
    ByPositionKeeps(rows);
    ByPositionLength(rows);
    SameRowsOnce(rows, ByPosition(rows));
  }

  // ----- No entry twice -----

  lemma IdsSum(a: seq<Entry>, b: seq<Entry>, store: Store)
    ensures Ids(a + b, store) == Ids(a, store) + Ids(b, store)
  {
  }

  lemma {:induction false} EpisodicEntriesIds(rows: seq<Row<Episode>>)
    ensures |EpisodicEntries(rows)| == |rows|
    ensures Ids(EpisodicEntries(rows), EpisodicStore) == RowIds(rows)
    ensures Ids(EpisodicEntries(rows), CheckpointStore) == {}
    decreases |rows|
  {
    if rows != [] {
      var e, rest := EpisodicEntry(rows[0]), EpisodicEntries(rows[1..]);
      EpisodicEntriesIds(rows[1..]);
      IdsSum([e], rest, EpisodicStore);
      IdsSum([e], rest, CheckpointStore);
      assert RowIds(rows) == {rows[0].at.id} + RowIds(rows[1..]);
    }
  }

  lemma {:induction false} CheckpointEntriesIds(rows: seq<Row<Checkpoint>>, floor: Option<nat>)
    ensures |CheckpointEntries(rows, floor)| == |rows|
    ensures Ids(CheckpointEntries(rows, floor), CheckpointStore) == RowIds(rows)
    ensures Ids(CheckpointEntries(rows, floor), EpisodicStore) == {}
    decreases |rows|
  {
    if rows != [] {
      var e, rest := CheckpointEntry(rows[0], floor), CheckpointEntries(rows[1..], floor);
      CheckpointEntriesIds(rows[1..], floor);
      IdsSum([e], rest, EpisodicStore);
      IdsSum([e], rest, CheckpointStore);
      assert RowIds(rows) == {rows[0].at.id} + RowIds(rows[1..]);
    }
  }

  lemma ScannedOnce(st: State, limit: nat)
    requires ValidState(st)
    ensures EntriesOnce(ScannedEntries(st, limit))
  {
    hide EpisodicScan, CheckpointScan, NewestUsable, EpisodicEntries, CheckpointEntries, Ids;
    var w, v, floor := EpisodicScan(st, limit), CheckpointScan(st, limit), NewestUsable(st, limit);
    ScansOnce(st, limit);
    EpisodicEntriesIds(w);
    CheckpointEntriesIds(v, floor);
    IdsSum(EpisodicEntries(w), CheckpointEntries(v, floor), EpisodicStore);
    IdsSum(EpisodicEntries(w), CheckpointEntries(v, floor), CheckpointStore);
  }

  lemma PartsOnce(a: seq<Entry>, b: seq<Entry>)
    requires EntriesOnce(a + b)
    ensures EntriesOnce(a) && EntriesOnce(b)
    ensures Ids(a, EpisodicStore) !! Ids(b, EpisodicStore) && Ids(a, CheckpointStore) !! Ids(b, CheckpointStore)
  {
    IdsSum(a, b, EpisodicStore);
    IdsSum(a, b, CheckpointStore);
    IdsAreFew(a);
    IdsAreFew(b);
    hide Ids;
    UnionSize(Ids(a, EpisodicStore), Ids(b, EpisodicStore));
    UnionSize(Ids(a, CheckpointStore), Ids(b, CheckpointStore));
  }

  lemma UnionSize(a: set<nat>, b: set<nat>)
    ensures |a + b| <= |a| + |b|
    ensures |a + b| == |a| + |b| ==> a !! b
  {
    assert |a + b| == |a| + |b| - |a * b|;
    forall x | x in a && x in b ensures |a * b| > 0 {
      assert x in a * b;
    }
  }

  lemma {:induction false} FilterOnce(es: seq<Entry>, p: Entry -> bool)
    requires EntriesOnce(es)
    ensures EntriesOnce(Filter(es, p))
    decreases |es|
  {
    if es != [] {
      var rest := Filter(es[1..], p);
      assert es == [es[0]] + es[1..];
      PartsOnce([es[0]], es[1..]);
      FilterOnce(es[1..], p);
      if p(es[0]) {
        assert Filter(es, p) == [es[0]] + rest;
        FirstOnce(es[0], es[1..], rest);
      } else {
        assert Filter(es, p) == rest;
      }
    }
  }

  lemma FirstOnce(e: Entry, all: seq<Entry>, rest: seq<Entry>)
    requires EntriesOnce([e] + all) && EntriesOnce(rest) && forall x :: x in rest ==> x in all
    ensures EntriesOnce([e] + rest)
  {
    PartsOnce([e], all);
    IdsSum([e], rest, EpisodicStore);
    IdsSum([e], rest, CheckpointStore);
    assert Ids(rest, e.store) <= Ids(all, e.store);
    assert e.id in Ids([e], e.store);
    assert e.id !in Ids(rest, e.store);
  }

  lemma {:induction false} RecompactKeepsIds(es: seq<Entry>, chosen: seq<Entry>, store: Store)
    ensures |Recompact(es, chosen)| == |es| && Ids(Recompact(es, chosen), store) == Ids(es, store)
    decreases |es|
  {
    if es != [] {
      RecompactKeepsIds(es[1..], chosen, store);
      var first := if es[0] in chosen then es[0].(action := Compact) else es[0];
      IdsSum([first], Recompact(es[1..], chosen), store);
      IdsSum([es[0]], es[1..], store);
      assert es == [es[0]] + es[1..];
      assert Ids([first], store) == Ids([es[0]], store);
    }
  }

  lemma BudgetedOnce(es: seq<Entry>, persisted: nat, maxEntries: Option<nat>)
    requires EntriesOnce(es)
    ensures EntriesOnce(Budgeted(es, persisted, maxEntries))
  {
    hide Recompact, SortEntries, Filter;
    if maxEntries.Some? {
      var extra := persisted - maxEntries.value - |Filter(es, IsCompact())|;
      var chosen := Take(SortEntries(Filter(es, IsBudgetCandidate())), if extra < 0 then 0 else extra);
      RecompactKeepsIds(es, chosen, EpisodicStore);
      RecompactKeepsIds(es, chosen, CheckpointStore);
    }
  }

  lemma PrefixOnce(es: seq<Entry>, n: nat)
    requires EntriesOnce(es)
    ensures EntriesOnce(Take(es, n))
  {
    hide EntriesOnce;
    if n < |es| {
      assert es == es[..n] + es[n..];
      PartsOnce(es[..n], es[n..]);
    }
  }

  /** Every candidate stands for a row of its own. */
  lemma CandidatesOnce(st: State, o: Options)
    requires ValidState(st)
    ensures EntriesOnce(Candidates(st, o)) && EntriesOnce(Selected(st, o))
  {
    hide ScannedEntries, EntriesOnce, Budgeted;
    var scanned, persisted := ScannedEntries(st, o.maxScanRows), |st.episodic| + |st.checkpoints|;
    ScannedOnce(st, o.maxScanRows);
    BudgetedOnce(scanned, persisted, o.maxEntries);
    FilterOnce(Budgeted(scanned, persisted, o.maxEntries), IsCompact());
    SortedOnce(Filter(Budgeted(scanned, persisted, o.maxEntries), IsCompact()));
    PrefixOnce(Candidates(st, o), o.maxDeletes);
  }

  lemma SortedOnce(es: seq<Entry>)
    requires EntriesOnce(es)
    ensures EntriesOnce(SortEntries(es))
  {
    hide SortEntries;
    SortKeeps(es);
    assert Ids(SortEntries(es), EpisodicStore) == Ids(es, EpisodicStore);
    assert Ids(SortEntries(es), CheckpointStore) == Ids(es, CheckpointStore);
  }

  // ----- Deletions -----

  lemma {:induction false} EachIdIsDeleted<T>(rows: seq<Row<T>>, ids: set<nat>)
    requires forall id :: id in ids ==> exists r :: r in rows && r.at.id == id
    ensures |Without(rows, ids)| + |ids| <= |rows|
    decreases |rows|
  {
    if rows == [] {
      assert ids == {};
    } else {
      WithoutStep(rows, ids);
      var fewer := ids - {rows[0].at.id};
      if rows[0].at.id in ids {
        WithoutFewer(rows[1..], fewer, ids);
      }
      hide Without;
      var tail := set id | id in ids && exists r :: r in rows[1..] && r.at.id == id;
      assert fewer <= tail;
      EachIdIsDeleted(rows[1..], if rows[0].at.id in ids then fewer else ids);
    }
  }

  lemma {:induction false} WithoutFewer<T>(rows: seq<Row<T>>, fewer: set<nat>, ids: set<nat>)
    requires fewer <= ids
    ensures |Without(rows, ids)| <= |Without(rows, fewer)|
    decreases |rows|
  {
    if rows != [] {
      WithoutStep(rows, ids);
      WithoutStep(rows, fewer);
      hide Without;
      WithoutFewer(rows[1..], fewer, ids);
    }
  }

  /** The candidates not selected, by store, are what is still pending. */
  lemma PendingMeansCapped(st: State, o: Options)
    requires PendingIds(st, o, EpisodicStore) != {} || PendingIds(st, o, CheckpointStore) != {}
    ensures |Selected(st, o)| == o.maxDeletes < |Candidates(st, o)|
  {
    hide Candidates;
  }
}
