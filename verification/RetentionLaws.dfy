/** What retention enforcement guarantees over every run: the rollback checkpoint and protected
    entries stay, the delete cap holds, and at a fixed clock every compactible event goes. */
module RetentionLaws {
  import opened Wrappers
  import opened RetentionState
  import opened RetentionScan

  // ----- Lists of entries -----

  lemma {:induction false} InsertKeeps(e: Entry, es: seq<Entry>)
    ensures |InsertEntry(e, es)| == |es| + 1
    ensures forall x :: x in InsertEntry(e, es) <==> x == e || x in es
    decreases |es|
  {
    if es != [] {
      InsertKeeps(e, es[1..]);
    }
  }

  lemma {:induction false} SortKeeps(es: seq<Entry>)
    ensures |SortEntries(es)| == |es|
    ensures forall x :: x in SortEntries(es) <==> x in es
    decreases |es|
  {
    if es != [] {
      SortKeeps(es[1..]);
      InsertKeeps(es[0], SortEntries(es[1..]));
    }
  }

  ghost predicate InCompactionOrder(es: seq<Entry>) {
    forall i, j :: 0 <= i < j < |es| ==> ComesFirst(es[i], es[j])
  }

  lemma {:induction false} InsertKeepsOrder(e: Entry, es: seq<Entry>)
    requires InCompactionOrder(es)
    ensures InCompactionOrder(InsertEntry(e, es))
    decreases |es|
  {
    if es != [] && !ComesFirst(e, es[0]) {
      InsertKeepsOrder(e, es[1..]);
      InsertKeeps(e, es[1..]);
      var rest := InsertEntry(e, es[1..]);
      forall j | 0 <= j < |rest| ensures ComesFirst(es[0], rest[j]) {
        assert rest[j] in rest;
      }
    }
  }

  lemma {:induction false} SortOrders(es: seq<Entry>)
    ensures InCompactionOrder(SortEntries(es))
    decreases |es|
  {
    hide ComesFirst;
    if es != [] {
      SortOrders(es[1..]);
      InsertKeepsOrder(es[0], SortEntries(es[1..]));
    }
  }

  lemma NotInPrefix(all: seq<Entry>, some: seq<Entry>, j: nat)
    requires some <= all && j < |all| && all[j] !in some
    ensures |some| <= j
  {
  }

  /** Under the delete cap the candidates that go are the first in compaction order. */
  lemma SelectionIsFirstInOrder(st: State, o: Options, gone: Entry, left: Entry)
    requires gone in Selected(st, o) && left in Candidates(st, o) && left !in Selected(st, o)
    ensures ComesFirst(gone, left)
  {
    hide ScannedEntries, Budgeted, ComesFirst;
    SortOrders(Filter(
      Budgeted(ScannedEntries(st, o.maxScanRows), |st.episodic| + |st.checkpoints|, o.maxEntries), IsCompact()));
    var all, some := Candidates(st, o), Selected(st, o);
    var i :| 0 <= i < |some| && some[i] == gone;
    var j :| 0 <= j < |all| && all[j] == left;
    assert i < |some| <= |all| && all[i] == gone;
    NotInPrefix(all, some, j);
  }

  lemma {:induction false} EpisodicEntriesOf(rows: seq<Row<Episode>>, e: Entry)
    ensures e in EpisodicEntries(rows) <==> exists r :: r in rows && e == EpisodicEntry(r)
    decreases |rows|
  {
    if rows != [] {
      EpisodicEntriesOf(rows[1..], e);
    }
  }

  lemma {:induction false} CheckpointEntriesOf(rows: seq<Row<Checkpoint>>, floor: Option<nat>, e: Entry)
    ensures e in CheckpointEntries(rows, floor) <==> exists r :: r in rows && e == CheckpointEntry(r, floor)
    decreases |rows|
  {
    if rows != [] {
      CheckpointEntriesOf(rows[1..], floor, e);
    }
  }

  lemma {:induction false} RecompactOf(es: seq<Entry>, chosen: seq<Entry>, e: Entry)
    requires e in Recompact(es, chosen)
    ensures e in es || exists x :: x in es && x in chosen && e == x.(action := Compact)
    decreases |es|
  {
    if e in Recompact(es[1..], chosen) {
      RecompactOf(es[1..], chosen, e);
    }
  }

  ghost predicate SameRow(a: Entry, b: Entry) {
    a.store == b.store && a.id == b.id
  }

  /** A compaction candidate is an unprotected scanned entry, whatever the entry budget. */
  lemma CandidateIsUnprotected(st: State, o: Options, e: Entry)
    requires e in Candidates(st, o)
    ensures exists x :: x in ScannedEntries(st, o.maxScanRows) && SameRow(x, e) && !x.guarded
    ensures o.maxEntries.None? ==> e in ScannedEntries(st, o.maxScanRows) && e.action.Compact?
  {
    hide ScannedEntries, SortEntries;
    var scanned := ScannedEntries(st, o.maxScanRows);
    var persisted := |st.episodic| + |st.checkpoints|;
    var budgeted := Budgeted(scanned, persisted, o.maxEntries);
    SortKeeps(Filter(budgeted, IsCompact()));
    if o.maxEntries.Some? {
      var extra := persisted - o.maxEntries.value - |Filter(scanned, IsCompact())|;
      var retained := Filter(scanned, IsBudgetCandidate());
      var chosen := Take(SortEntries(retained), if extra < 0 then 0 else extra);
      RecompactOf(scanned, chosen, e);
      SortKeeps(retained);
      if e !in scanned {
        var x :| x in scanned && x in chosen && e == x.(action := Compact);
        assert x in SortEntries(retained);
        assert SameRow(x, e) && !x.guarded;
        return;
      }
    }
    ScannedCompactIsUnprotected(st, o.maxScanRows, e);
  }

  lemma ScannedCompactIsUnprotected(st: State, limit: nat, e: Entry)
    requires e in ScannedEntries(st, limit) && e.action.Compact?
    ensures !e.guarded
  {
    hide EpisodicScan, CheckpointScan, NewestUsable;
    EpisodicEntriesOf(EpisodicScan(st, limit), e);
    CheckpointEntriesOf(CheckpointScan(st, limit), NewestUsable(st, limit), e);
  }

  // ----- Scans read the tables -----

  lemma KeysetWindowIsPart<T>(rows: seq<Row<T>>, c: Position, limit: nat, r: Row<T>)
    requires r in KeysetWindow(rows, c, limit)
    ensures r in rows
  {
    var first := AppendSelected([], rows, SameTimeAfter(c), limit);
    var second := AppendSelected(first, rows, Later(c), limit);
    var third := AppendSelected(second, rows, Earlier(c), limit);
    AppendIsPart([], rows, SameTimeAfter(c), limit);
    AppendIsPart(first, rows, Later(c), limit);
    AppendIsPart(second, rows, Earlier(c), limit);
    AppendIsPart(third, rows, SameTimeBefore(c), limit);
  }

  lemma AppendIsPart<T>(acc: seq<Row<T>>, rows: seq<Row<T>>, p: Row<T> -> bool, limit: nat)
    requires forall x :: x in acc ==> x in rows
    ensures forall x :: x in AppendSelected(acc, rows, p, limit) ==> x in rows
  {
  }

  lemma {:induction false} ReverseKeeps<T>(s: seq<T>)
    ensures |Reverse(s)| == |s|
    ensures forall x :: x in Reverse(s) <==> x in s
    decreases |s|
  {
    if s != [] {
      ReverseKeeps(s[1..]);
    }
  }

  lemma {:induction false} InsertByPositionKeeps(r: Row<Checkpoint>, rows: seq<Row<Checkpoint>>)
    ensures forall x :: x in InsertByPosition(r, rows) <==> x == r || x in rows
    decreases |rows|
  {
    if rows != [] {
      InsertByPositionKeeps(r, rows[1..]);
    }
  }

  lemma {:induction false} ByPositionKeeps(rows: seq<Row<Checkpoint>>)
    ensures forall x :: x in ByPosition(rows) <==> x in rows
    decreases |rows|
  {
    if rows != [] {
      ByPositionKeeps(rows[1..]);
      InsertByPositionKeeps(rows[0], ByPosition(rows[1..]));
    }
  }

  lemma EpisodicScanIsPart(st: State, limit: nat, r: Row<Episode>)
    requires r in EpisodicScan(st, limit)
    ensures r in st.episodic
  {
    hide KeysetWindow;
    if st.episodicCursor.Some? {
      KeysetWindowIsPart(st.episodic, st.episodicCursor.value, limit, r);
    }
  }

  lemma CheckpointScanIsPart(st: State, limit: nat, r: Row<Checkpoint>)
    requires r in CheckpointScan(st, limit)
    ensures r in st.checkpoints
  {
    hide KeysetWindow, TrustedFloor, ByPosition, Reverse;
    ByPositionKeeps(st.checkpoints);
    ReverseKeeps(st.checkpoints);
    if st.floorSearch.Some? {
      ReverseKeeps(Filter(st.checkpoints, BelowId(st.floorSearch.value)));
    }
    if st.checkpointCursor.Some? && r in KeysetWindow(ByPosition(st.checkpoints), st.checkpointCursor.value, limit) {
      KeysetWindowIsPart(ByPosition(st.checkpoints), st.checkpointCursor.value, limit, r);
    }
  }

  // ----- The rollback floor -----

  lemma {:induction false} MaxIdIsNewest(rows: seq<Row<Checkpoint>>, floor: Option<nat>)
    ensures var m := MaxId(rows, floor);
            && (forall r :: r in rows && r.data.parses ==> m.Some? && r.at.id <= m.value)
            && (floor.Some? ==> m.Some? && floor.value <= m.value)
            && (m.Some? ==> m == floor || exists r :: r in rows && r.data.parses && r.at.id == m.value)
    decreases |rows|
  {
    if rows != [] {
      var newer := rows[0].data.parses && (floor.None? || rows[0].at.id > floor.value);
      var next := if newer then Some(rows[0].at.id) else floor;
      MaxIdIsNewest(rows[1..], next);
    }
  }

  /** The newest usable checkpoint of an id-ordered table. */
  lemma {:induction false} LastUsableIsNewest(rows: seq<Row<Checkpoint>>)
    requires IdOrdered(rows)
    ensures LastUsable(rows).Some? ==>
      && LastUsable(rows).value in rows && LastUsable(rows).value.data.parses
      && forall r :: r in rows && r.data.parses ==> r.at.id <= LastUsable(rows).value.at.id
    ensures LastUsable(rows).None? ==> forall r :: r in rows ==> !r.data.parses
    decreases |rows|
  {
    if rows != [] {
      hide LastUsable;
      var rest := rows[1..];
      LaterUsableFirst(rows);
      LastUsableIsNewest(rest);
      forall r | r in rest ensures rows[0].at.id < r.at.id {
        var i :| 0 <= i < |rest| && rest[i] == r;
        assert rows[i + 1] == r;
      }
      assert forall r :: r in rows ==> r == rows[0] || r in rest;
    }
  }

  lemma LaterUsableFirst(rows: seq<Row<Checkpoint>>)
    requires rows != []
    ensures LastUsable(rows) ==
      var later := LastUsable(rows[1..]);
      if later.Some? then later else if rows[0].data.parses then Some(rows[0]) else None
  {
  }

  /** If the newest usable checkpoint is scanned at all, it is taken for the rollback floor. */
  lemma ScannedNewestIsFloor(st: State, limit: nat, newest: Row<Checkpoint>)
    requires IdOrdered(st.checkpoints)
    requires newest in CheckpointScan(st, limit) && LastUsable(st.checkpoints) == Some(newest)
    ensures NewestUsable(st, limit) == Some(newest.at.id)
  {
    hide CheckpointScan, MaxId, LastUsable;
    var rows, floor := CheckpointScan(st, limit), TrustedFloor(st);
    LastUsableIsNewest(st.checkpoints);
    MaxIdIsNewest(rows, floor);
    var m := MaxId(rows, floor);
    if floor.Some? {
      var f := Filter(Filter(st.checkpoints, HasId(floor.value)), Parses());
      assert f[0] in f;
      assert f[0] in st.checkpoints && f[0].at.id == floor.value && f[0].data.parses;
    }
    if m != floor {
      var r :| r in rows && r.data.parses && r.at.id == m.value;
      CheckpointScanIsPart(st, limit, r);
    }
  }

  /** The newest usable checkpoint is never selected for deletion. */
  lemma NewestIsNotSelected(st: State, o: Options, newest: Row<Checkpoint>)
    requires IdOrdered(st.checkpoints) && LastUsable(st.checkpoints) == Some(newest)
    ensures newest.at.id !in Ids(Selected(st, o), CheckpointStore)
  {
    hide Candidates, CheckpointScan, EpisodicScan, NewestUsable, LastUsable;
    LastUsableIsNewest(st.checkpoints);
    forall e | e in Selected(st, o) && e.store == CheckpointStore ensures e.id != newest.at.id {
      assert e in Candidates(st, o);
      CandidateIsUnprotected(st, o, e);
      var x :| x in ScannedEntries(st, o.maxScanRows) && SameRow(x, e) && !x.guarded;
      var floor := NewestUsable(st, o.maxScanRows);
      EpisodicEntriesOf(EpisodicScan(st, o.maxScanRows), x);
      CheckpointEntriesOf(CheckpointScan(st, o.maxScanRows), floor, x);
      var r :| r in CheckpointScan(st, o.maxScanRows) && x == CheckpointEntry(r, floor);
      CheckpointScanIsPart(st, o.maxScanRows, r);
      if r.at.id == newest.at.id {
        assert r == newest;
        ScannedNewestIsFloor(st, o.maxScanRows, newest);
        assert false;
      }
    }
  }

  lemma WithoutKeepsLastUsable(rows: seq<Row<Checkpoint>>, ids: set<nat>)
    requires IdOrdered(rows)
    requires LastUsable(rows).Some? ==> LastUsable(rows).value.at.id !in ids
    ensures LastUsable(Without(rows, ids)) == LastUsable(rows)
  {
    hide LastUsable;
    var p := (r: Row<Checkpoint>) => r.at.id !in ids;
    FilterKeepsIdOrder(rows, p);
    LastUsableIsNewest(rows);
    LastUsableIsNewest(Without(rows, ids));
    if LastUsable(rows).Some? {
      assert LastUsable(rows).value in Without(rows, ids);
    }
    if LastUsable(Without(rows, ids)).Some? {
      assert LastUsable(Without(rows, ids)).value in rows;
    }
  }

  lemma {:induction false} FilterKeepsIdOrder(rows: seq<Row<Checkpoint>>, p: Row<Checkpoint> -> bool)
    requires IdOrdered(rows)
    ensures IdOrdered(Filter(rows, p))
    decreases |rows|
  {
    if rows != [] {
      FilterKeepsIdOrder(rows[1..], p);
      var rest := Filter(rows[1..], p);
      forall j | 0 <= j < |rest| ensures rows[0].at.id < rest[j].at.id {
        assert rest[j] in rows[1..];
      }
    }
  }

  /** Retention never changes what the last checkpoint is, for every cursor, cached floor, floor
      search position and entry budget. */
  lemma RollbackCheckpointSurvives(st: State, o: Options)
    requires ValidState(st)
    ensures LastUsable(Enforced(st, o).checkpoints) == LastUsable(st.checkpoints)
  {
    hide LastUsable, Selected, NextEpisodicCursor, NextCheckpointCursor, NextFloorSearch, NewestUsable;
    if LastUsable(st.checkpoints).Some? {
      NewestIsNotSelected(st, o, LastUsable(st.checkpoints).value);
    }
    WithoutKeepsLastUsable(st.checkpoints, Ids(Selected(st, o), CheckpointStore));
  }

  /** A protected event is never deleted. */
  lemma ProtectedEventSurvives(st: State, o: Options, r: Row<Episode>)
    requires ValidState(st) && r in st.episodic && EpisodicEntry(r).guarded
    ensures r in Enforced(st, o).episodic
  {
    hide Candidates, EpisodicScan, CheckpointScan, NewestUsable, NextEpisodicCursor, NextCheckpointCursor,
         NextFloorSearch;
    forall e | e in Selected(st, o) && e.store == EpisodicStore ensures e.id != r.at.id {
      assert e in Candidates(st, o);
      CandidateIsUnprotected(st, o, e);
      var x :| x in ScannedEntries(st, o.maxScanRows) && SameRow(x, e) && !x.guarded;
      EpisodicEntriesOf(EpisodicScan(st, o.maxScanRows), x);
      CheckpointEntriesOf(CheckpointScan(st, o.maxScanRows), NewestUsable(st, o.maxScanRows), x);
      var q :| q in EpisodicScan(st, o.maxScanRows) && x == EpisodicEntry(q);
      EpisodicScanIsPart(st, o.maxScanRows, q);
    }
  }

  // ----- The delete cap -----

  lemma {:induction false} WithoutRemovesFew<T>(rows: seq<Row<T>>, ids: set<nat>)
    requires DistinctIds(rows)
    ensures |rows| - |Without(rows, ids)| <= |ids|
    decreases |rows|
  {
    if rows != [] {
      var p := (r: Row<T>) => r.at.id !in ids;
      if rows[0].at.id in ids {
        var fewer := ids - {rows[0].at.id};
        WithoutRemovesFew(rows[1..], fewer);
        SameFilter(rows[1..], p, (r: Row<T>) => r.at.id !in fewer);
      } else {
        WithoutRemovesFew(rows[1..], ids);
        SameFilter(rows[1..], p, (r: Row<T>) => r.at.id !in ids);
      }
    }
  }

  lemma {:induction false} SameFilter<T>(s: seq<T>, p: T -> bool, q: T -> bool)
    requires forall x :: x in s ==> p(x) == q(x)
    ensures Filter(s, p) == Filter(s, q)
    decreases |s|
  {
    if s != [] {
      SameFilter(s[1..], p, q);
    }
  }

  lemma {:induction false} IdsAreFew(es: seq<Entry>)
    ensures |Ids(es, EpisodicStore)| + |Ids(es, CheckpointStore)| <= |es|
    decreases |es|
  {
    if es != [] {
      IdsAreFew(es[1..]);
      IdsOneMore(es, EpisodicStore);
      IdsOneMore(es, CheckpointStore);
      hide Ids;
    }
  }

  lemma IdsOneMore(es: seq<Entry>, store: Store)
    requires es != []
    ensures Ids(es, store) == Ids(es[1..], store) + (if es[0].store == store then {es[0].id} else {})
  {
  }

  /** One enforcement deletes at most "maxDeletes" rows of both tables together. */
  lemma DeletesAreCapped(st: State, o: Options)
    requires ValidState(st)
    ensures var next := Enforced(st, o);
            |st.episodic| + |st.checkpoints| - |next.episodic| - |next.checkpoints| <= o.maxDeletes
  {
    hide Candidates, NextEpisodicCursor, NextCheckpointCursor, NextFloorSearch, NewestUsable;
    IdsAreFew(Selected(st, o));
    WithoutRemovesFew(st.episodic, Ids(Selected(st, o), EpisodicStore));
    WithoutRemovesFew(st.checkpoints, Ids(Selected(st, o), CheckpointStore));
  }

  lemma EnforcedIsValid(st: State, o: Options)
    requires ValidState(st)
    ensures ValidState(Enforced(st, o))
  {
    hide Selected, NextEpisodicCursor, NextCheckpointCursor, NextFloorSearch, NewestUsable;
    var ids, cids := Ids(Selected(st, o), EpisodicStore), Ids(Selected(st, o), CheckpointStore);
    FilterKeepsOrder(st.episodic, (r: Row<Episode>) => r.at.id !in ids);
    FilterKeepsDistinctIds(st.episodic, (r: Row<Episode>) => r.at.id !in ids);
    FilterKeepsIdOrder(st.checkpoints, (r: Row<Checkpoint>) => r.at.id !in cids);
  }

  /** Over any run, with any options at every call, the last checkpoint stays the same. */
  ghost function Run(st: State, calls: seq<Options>): State
    decreases |calls|
  {
    if calls == [] then st else Run(Enforced(st, calls[0]), calls[1..])
  }

  lemma {:induction false} RollbackCheckpointSurvivesEveryRun(st: State, calls: seq<Options>)
    requires ValidState(st)
    ensures ValidState(Run(st, calls)) && LastUsable(Run(st, calls).checkpoints) == LastUsable(st.checkpoints)
    decreases |calls|
  {
    hide ValidState, Enforced, LastUsable;
    if calls != [] {
      EnforcedIsValid(st, calls[0]);
      RollbackCheckpointSurvives(st, calls[0]);
      RollbackCheckpointSurvivesEveryRun(Enforced(st, calls[0]), calls[1..]);
    }
  }
}
