/** At a fixed clock, with no inserts and no entry budget, finitely many enforcements delete every
    aged checkpoint but the newest usable one; without a usable one none is ever deleted. */
module RetentionCheckpoints {
  import opened Wrappers
  import opened RetentionState
  import opened RetentionScan
  import opened RetentionRing
  import opened RetentionLaws
  import opened RetentionRewind
  import opened RetentionCounting
  import opened RetentionBudget
  import opened RetentionLiveness

  // ----- No usable checkpoint -----

  lemma NoFloorNoDeletion(st: State, o: Options)
    requires ValidState(st) && LastUsable(st.checkpoints).None?
    ensures Enforced(st, o).checkpoints == st.checkpoints
  {
    hide Candidates, NewestUsable, LastUsable, NextEpisodicCursor, NextCheckpointCursor, NextFloorSearch;
    LastUsableIsNewest(st.checkpoints);
    if NewestUsable(st, o.maxScanRows).Some? {
      var r := FloorRow(st, o.maxScanRows);
    }
    var cids := Ids(Selected(st, o), CheckpointStore);
    forall e | e in Selected(st, o) ensures e.store != CheckpointStore {
      assert e in Candidates(st, o);
      if e.store == CheckpointStore {
        FloorIsNoCandidate(st, o, e);
      }
    }
    FilterAll(st.checkpoints, (r: Row<Checkpoint>) => r.at.id !in cids);
  }

  /** While no checkpoint parses, no run deletes one, with any options at every call. */
  lemma {:induction false} WithoutFloorAllStay(st: State, calls: seq<Options>)
    requires ValidState(st) && LastUsable(st.checkpoints).None?
    ensures Run(st, calls).checkpoints == st.checkpoints
    decreases |calls|
  {
    hide ValidState, Enforced, LastUsable;
    if calls != [] {
      EnforcedIsValid(st, calls[0]);
      NoFloorNoDeletion(st, calls[0]);
      WithoutFloorAllStay(Enforced(st, calls[0]), calls[1..]);
    }
  }

  // ----- The search for a floor -----

  /** What the search for a usable checkpoint has not read yet. */
  function SearchArea(st: State): seq<Row<Checkpoint>> {
    match st.floorSearch
    case Some(id) => Filter(st.checkpoints, BelowId(id))
    case None => st.checkpoints
  }

  lemma {:induction false} ReverseAt<T>(s: seq<T>, i: nat)
    requires i < |s|
    ensures |Reverse(s)| == |s| && Reverse(s)[i] == s[|s| - 1 - i]
    decreases |s|
  {
    ReverseKeeps(s[1..]);
    if i < |s| - 1 {
      ReverseAt(s[1..], i);
    }
  }

  /** A backward scan reads the newest rows; a row it does not read is older than all it reads. */
  lemma BackwardScanReads(rows: seq<Row<Checkpoint>>, limit: nat, r: Row<Checkpoint>)
    requires IdOrdered(rows) && r in rows && 1 <= limit
    ensures var w := Take(Reverse(rows), limit);
            w != [] && (r in w || (|w| == limit && r.at.id < w[|w| - 1].at.id))
  {
    hide Reverse;
    ReverseKeeps(rows);
    var i :| 0 <= i < |rows| && rows[i] == r;
    ReverseAt(rows, |rows| - 1 - i);
    if limit < |rows| {
      ReverseAt(rows, limit - 1);
    }
  }

  lemma {:induction false} FilterTwice<T>(s: seq<T>, p: T -> bool, q: T -> bool)
    requires forall x :: q(x) ==> p(x)
    ensures Filter(Filter(s, p), q) == Filter(s, q)
    decreases |s|
  {
    if s != [] {
      FilterTwice(s[1..], p, q);
      var rest := Filter(s[1..], p);
      if p(s[0]) {
        assert ([s[0]] + rest)[1..] == rest;
      } else {
        assert Filter(s, p) == rest;
      }
    }
  }

  lemma SearchScan(st: State, limit: nat)
    requires TrustedFloor(st).None?
    ensures CheckpointScan(st, limit) == Take(Reverse(SearchArea(st)), limit)
  {
    hide TrustedFloor, Reverse, Filter;
  }

  lemma SearchAreaOrdered(st: State)
    requires ValidState(st)
    ensures IdOrdered(SearchArea(st))
  {
    hide IdOrdered, Filter;
    if st.floorSearch.Some? {
      FilterKeepsIdOrder(st.checkpoints, BelowId(st.floorSearch.value));
    }
  }

  lemma NarrowedArea(st: State, r: Row<Checkpoint>)
    requires r in SearchArea(st)
    ensures |Filter(st.checkpoints, BelowId(r.at.id))| < |SearchArea(st)|
  {
    var p := BelowId<Checkpoint>(r.at.id);
    FilterShrinks(SearchArea(st), p, r);
    if st.floorSearch.Some? {
      FilterTwice(st.checkpoints, BelowId<Checkpoint>(st.floorSearch.value), p);
    }
  }

  /** A call that finds no usable checkpoint and no candidate narrows the search, or starts it
      again; the newest usable checkpoint is never left out once it is in the area. */
  lemma SearchStep(st: State, o: Options, newest: Row<Checkpoint>)
    requires ValidState(st) && ValidOptions(o) && Candidates(st, o) == []
    requires TrustedFloor(st).None? && NewestUsable(st, o.maxScanRows).None?
    requires LastUsable(st.checkpoints) == Some(newest)
    ensures var next := Enforced(st, o);
            && next.checkpoints == st.checkpoints && next.episodic == st.episodic && TrustedFloor(next).None?
            && (newest in SearchArea(st) ==> newest in SearchArea(next) && |SearchArea(next)| < |SearchArea(st)|)
            && (newest in SearchArea(next) || |SearchArea(next)| < |SearchArea(st)|)
  {
    hide Candidates, CheckpointScan, LastUsable, Filter, NextEpisodicCursor, NextCheckpointCursor, Reverse,
         NewestUsable, IdOrdered, Without;
    var w, next := CheckpointScan(st, o.maxScanRows), Enforced(st, o);
    IdlessTablesStay(st, o);
    LastUsableIsNewest(st.checkpoints);
    SearchScan(st, o.maxScanRows);
    SearchAreaOrdered(st);
    ReverseKeeps(SearchArea(st));
    if newest in SearchArea(st) {
      BackwardScanReads(SearchArea(st), o.maxScanRows, newest);
      if newest in w {
        ScannedNewestIsFloor(st, o.maxScanRows, newest);
      }
    }
    if w != [] {
      assert w[|w| - 1] in Reverse(SearchArea(st));
      NarrowedArea(st, w[|w| - 1]);
    }
    assert next.floorSearch == NextFloorSearch(st, o) && next.floor == None;
  }

  // ----- Going round with a floor -----

  lemma {:induction false} WithoutNone<T>(rows: seq<Row<T>>)
    ensures Without(rows, {}) == rows
    decreases |rows|
  {
    if rows != [] {
      WithoutStep(rows, {});
      WithoutNone(rows[1..]);
    }
  }

  function CheckpointRing(st: State): seq<Row<Checkpoint>> {
    Ring(ByPosition(st.checkpoints), st.checkpointCursor)
  }

  lemma CheckpointRingRows(st: State)
    ensures |CheckpointRing(st)| == |st.checkpoints|
    ensures forall r :: r in CheckpointRing(st) <==> r in st.checkpoints
  {
    hide ByPosition, Ring;
    RingSize(ByPosition(st.checkpoints), st.checkpointCursor);
    ByPositionKeeps(st.checkpoints);
    ByPositionLength(st.checkpoints);
    forall r ensures r in CheckpointRing(st) <==> r in st.checkpoints {
      InRing(ByPosition(st.checkpoints), st.checkpointCursor, r);
    }
  }

  /** A call with a trusted floor and without candidates reads the beginning of the ring and turns
      it; only a scan whose one row sits at the cursor reads nothing, and forgets the cursor. */
  lemma RingStep(st: State, o: Options, k: nat)
    requires ValidState(st) && ValidOptions(o) && Candidates(st, o) == [] && TrustedFloor(st).Some?
    requires k < |CheckpointRing(st)|
    ensures var w, next := CheckpointScan(st, o.maxScanRows), Enforced(st, o);
            && next.checkpoints == st.checkpoints && next.episodic == st.episodic
            && TrustedFloor(next).Some? && TrustedFloor(next) == NewestUsable(st, o.maxScanRows)
            && (k < |w| ==> w[k] == CheckpointRing(st)[k])
            && (k >= |w| ==> k - |w| < |CheckpointRing(next)| && CheckpointRing(next)[k - |w|] == CheckpointRing(st)[k])
            && (w == [] ==> st.checkpointCursor.Some? && next.checkpointCursor.None?)
  {
    hide CheckpointScan, TrustedFloor, NewestUsable, Enforced, Candidates, ByPosition, ScanFrom, Ring, Without,
         Turned, ScanOrdered, LeavesOneOut;
    var w, next, rows := CheckpointScan(st, o.maxScanRows), Enforced(st, o), ByPosition(st.checkpoints);
    IdlessTablesStay(st, o);
    ByPositionOrders(st.checkpoints);
    FloorRises(st, o.maxScanRows);
    FloorStaysTrusted(st, o);
    TrustedScan(st, o.maxScanRows);
    ScanIsRingPrefix(rows, st.checkpointCursor, o.maxScanRows);
    RingSize(rows, st.checkpointCursor);
    NothingPendingResumes(st, o);
    ResumedRing(rows, st.checkpointCursor, o.maxScanRows, |w|, {});
    WithoutNone(rows);
    WithoutNone(Turned(CheckpointRing(st), |w|));
    EmptyScanHasCursor(rows, st.checkpointCursor, o.maxScanRows);
    assert CheckpointRing(next) == Turned(CheckpointRing(st), |w|);
    hide *;
    TurnedAt(CheckpointRing(st), |w|, k);
  }

  lemma FloorRises(st: State, limit: nat)
    requires TrustedFloor(st).Some?
    ensures NewestUsable(st, limit).Some?
  {
    hide TrustedFloor, CheckpointScan;
    MaxIdIsNewest(CheckpointScan(st, limit), TrustedFloor(st));
  }

  lemma EmptyScanHasCursor<T>(rows: seq<Row<T>>, cursor: Option<Position>, limit: nat)
    requires rows != [] && 1 <= limit
    ensures ScanFrom(rows, cursor, limit) == [] ==> cursor.Some?
  {
    hide KeysetWindow;
  }

  lemma TurnedAt<T>(ring: seq<Row<T>>, m: nat, k: nat)
    requires m <= |ring| && k < |ring|
    ensures |Turned(ring, m)| == |ring| && (k >= m ==> Turned(ring, m)[k - m] == ring[k])
  {
  }

  lemma NothingPendingResumes(st: State, o: Options)
    requires Candidates(st, o) == [] && TrustedFloor(st).Some?
    ensures var w := CheckpointScan(st, o.maxScanRows);
            Enforced(st, o).checkpointCursor == Resume(w, st.checkpointCursor, |w|)
  {
    hide Candidates, CheckpointScan, Resume, Enforced, TrustedFloor;
    CheckpointCursorResumes(st, o);
    assert PendingIds(st, o, CheckpointStore) == {};
    assert FirstPendingCheckpoint(st, o) == |CheckpointScan(st, o.maxScanRows)|;
  }

  // ----- Finitely many calls -----

  /** Every aged checkpoint is gone but the newest usable one. */
  ghost predicate Settled(st: State, newest: Row<Checkpoint>) {
    forall r :: r in st.checkpoints && Aged(r) ==> r == newest
  }

  ghost predicate Ready(st: State, o: Options, newest: Row<Checkpoint>) {
    ValidState(st) && ValidOptions(o) && o.maxEntries.None? && LastUsable(st.checkpoints) == Some(newest)
  }

  lemma StaysReady(st: State, o: Options, newest: Row<Checkpoint>)
    requires Ready(st, o, newest)
    ensures Ready(Enforced(st, o), o, newest)
  {
    hide ValidState, Enforced, LastUsable;
    EnforcedIsValid(st, o);
    RollbackCheckpointSurvives(st, o);
  }

  lemma FloorIsNewest(st: State, limit: nat, newest: Row<Checkpoint>)
    requires IdOrdered(st.checkpoints) && LastUsable(st.checkpoints) == Some(newest)
    requires TrustedFloor(st) == Some(newest.at.id)
    ensures NewestUsable(st, limit) == Some(newest.at.id)
  {
    hide CheckpointScan, LastUsable, TrustedFloor;
    LastUsableIsNewest(st.checkpoints);
    MaxIdIsNewest(CheckpointScan(st, limit), TrustedFloor(st));
    var r := FloorRow(st, limit);
  }

  lemma AgedIsCandidate(st: State, o: Options, r: Row<Checkpoint>)
    requires o.maxEntries.None? && r in CheckpointScan(st, o.maxScanRows) && Aged(r)
    requires NewestUsable(st, o.maxScanRows).Some? && NewestUsable(st, o.maxScanRows).value != r.at.id
    ensures Candidates(st, o) != []
  {
    hide EpisodicScan, CheckpointScan, NewestUsable;
    var scanned, floor := ScannedEntries(st, o.maxScanRows), NewestUsable(st, o.maxScanRows);
    CheckpointEntriesOf(CheckpointScan(st, o.maxScanRows), floor, CheckpointEntry(r, floor));
    SortKeeps(Filter(scanned, IsCompact()));
    assert CheckpointEntry(r, floor) in Candidates(st, o);
  }

  lemma PlaceInRing(st: State, r: Row<Checkpoint>) returns (k: nat)
    requires r in st.checkpoints
    ensures k < |CheckpointRing(st)| == |st.checkpoints| && CheckpointRing(st)[k] == r
  {
    hide CheckpointRing;
    CheckpointRingRows(st);
    assert r in CheckpointRing(st);
    k :| 0 <= k < |CheckpointRing(st)| && CheckpointRing(st)[k] == r;
  }

  /** The floor is the newest usable checkpoint, and "k" places ahead there is an aged one. */
  lemma {:induction false} SettleTurning(st: State, o: Options, newest: Row<Checkpoint>, k: nat) returns (n: nat)
    requires Ready(st, o, newest) && TrustedFloor(st) == Some(newest.at.id) && k < |CheckpointRing(st)|
    requires Aged(CheckpointRing(st)[k]) && CheckpointRing(st)[k].at.id != newest.at.id
    ensures Settled(Calls(st, o, n), newest)
    decreases Rows(st), 0, k, if st.checkpointCursor.Some? then 1 else 0
  {
    hide Enforced, Candidates, CheckpointScan, CheckpointRing, TrustedFloor, NewestUsable, Aged, Settled,
         LastUsable, ValidState;
    var next, w, rest := Enforced(st, o), CheckpointScan(st, o.maxScanRows), 0;
    StaysReady(st, o, newest);
    if Candidates(st, o) != [] {
      CandidatesShrinkTables(st, o);
      rest := Settle(next, o, newest);
    } else {
      RingStep(st, o, k);
      ValidIsOrdered(st);
      FloorIsNewest(st, o.maxScanRows, newest);
      if k < |w| {
        AgedIsCandidate(st, o, w[k]);
      }
      rest := SettleTurning(next, o, newest, k - |w|);
    }
    n := rest + 1;
  }

  lemma ValidIsOrdered(st: State)
    requires ValidState(st)
    ensures IdOrdered(st.checkpoints)
  {
  }

  /** There is a floor, and the newest usable checkpoint is "k" places ahead. */
  lemma {:induction false} SettleRaising(st: State, o: Options, newest: Row<Checkpoint>, k: nat) returns (n: nat)
    requires Ready(st, o, newest) && TrustedFloor(st).Some?
    requires k < |CheckpointRing(st)| && CheckpointRing(st)[k] == newest
    ensures Settled(Calls(st, o, n), newest)
    decreases Rows(st), 1, k, if st.checkpointCursor.Some? then 1 else 0
  {
    hide Enforced, Candidates, CheckpointScan, CheckpointRing, TrustedFloor, NewestUsable, Aged, Settled,
         LastUsable, ValidState;
    var next, w, rest := Enforced(st, o), CheckpointScan(st, o.maxScanRows), 0;
    StaysReady(st, o, newest);
    if Candidates(st, o) != [] {
      CandidatesShrinkTables(st, o);
      rest := Settle(next, o, newest);
    } else {
      RingStep(st, o, k);
      ValidIsOrdered(st);
      if k < |w| {
        ScannedNewestIsFloor(st, o.maxScanRows, newest);
        rest := SettleWithNewest(next, o, newest);
      } else {
        rest := SettleRaising(next, o, newest, k - |w|);
      }
    }
    n := rest + 1;
  }

  lemma {:induction false} SettleWithNewest(st: State, o: Options, newest: Row<Checkpoint>) returns (n: nat)
    requires Ready(st, o, newest) && TrustedFloor(st) == Some(newest.at.id)
    ensures Settled(Calls(st, o, n), newest)
    decreases Rows(st), 0, |st.checkpoints|, 2
  {
    hide TrustedFloor, LastUsable, Aged, CheckpointRing;
    LastUsableIsNewest(st.checkpoints);
    if Settled(st, newest) {
      n := 0;
    } else {
      var r :| r in st.checkpoints && Aged(r) && r != newest;
      var k := PlaceInRing(st, r);
      n := SettleTurning(st, o, newest, k);
    }
  }

  lemma {:induction false} SettleWithFloor(st: State, o: Options, newest: Row<Checkpoint>) returns (n: nat)
    requires Ready(st, o, newest) && TrustedFloor(st).Some?
    ensures Settled(Calls(st, o, n), newest)
    decreases Rows(st), 1, |st.checkpoints|, 2
  {
    hide TrustedFloor, LastUsable, Aged, CheckpointRing, Settled;
    LastUsableIsNewest(st.checkpoints);
    var k := PlaceInRing(st, newest);
    n := SettleRaising(st, o, newest, k);
  }

  /** There is no floor yet, and the search for one is somewhere. */
  lemma {:induction false} SettleSearching(st: State, o: Options, newest: Row<Checkpoint>) returns (n: nat)
    requires Ready(st, o, newest) && TrustedFloor(st).None?
    ensures Settled(Calls(st, o, n), newest)
    decreases Rows(st), if newest in SearchArea(st) then 2 else 3, |SearchArea(st)|, 0
  {
    hide Enforced, Candidates, CheckpointScan, CheckpointRing, TrustedFloor, NewestUsable, Aged, Settled,
         LastUsable, ValidState, SearchArea;
    var next, rest := Enforced(st, o), 0;
    StaysReady(st, o, newest);
    if Candidates(st, o) != [] {
      CandidatesShrinkTables(st, o);
      rest := Settle(next, o, newest);
    } else if NewestUsable(st, o.maxScanRows).Some? {
      IdlessTablesStay(st, o);
      FloorStaysTrusted(st, o);
      rest := SettleWithFloor(next, o, newest);
    } else {
      SearchStep(st, o, newest);
      rest := SettleSearching(next, o, newest);
    }
    n := rest + 1;
  }

  lemma {:induction false} Settle(st: State, o: Options, newest: Row<Checkpoint>) returns (n: nat)
    requires Ready(st, o, newest)
    ensures Settled(Calls(st, o, n), newest)
    decreases Rows(st), 4, 0, 0
  {
    hide *;
    if TrustedFloor(st).Some? {
      n := SettleWithFloor(st, o, newest);
    } else {
      n := SettleSearching(st, o, newest);
    }
  }

  // ----- Nothing else goes -----

  /** The newest usable checkpoint and those not aged. */
  function Kept(newest: nat): Row<Checkpoint> -> bool {
    (r: Row<Checkpoint>) => !Aged(r) || r.at.id == newest
  }

  lemma KeptStay(st: State, o: Options, newest: Row<Checkpoint>)
    requires Ready(st, o, newest)
    ensures Filter(Enforced(st, o).checkpoints, Kept(newest.at.id)) == Filter(st.checkpoints, Kept(newest.at.id))
  {
    hide Candidates, NextEpisodicCursor, NextCheckpointCursor, NextFloorSearch, NewestUsable, Without, Filter,
         Compactible, Aged, LastUsable;
    var cids := Ids(Selected(st, o), CheckpointStore);
    NewestIsNotSelected(st, o, newest);
    forall r | r in st.checkpoints && r.at.id in cids ensures Aged(r) {
      var e :| e in Selected(st, o) && e.store == CheckpointStore && e.id == r.at.id;
      assert e in Candidates(st, o);
      CandidateHasRow(st, o, e);
      var q :| q in st.checkpoints && q.at.id == e.id && Aged(q);
      assert q == r;
    }
    WithoutOthers(st.checkpoints, cids, Kept(newest.at.id));
  }

  lemma {:induction false} KeptEverStay(st: State, o: Options, newest: Row<Checkpoint>, n: nat)
    requires Ready(st, o, newest)
    ensures Filter(Calls(st, o, n).checkpoints, Kept(newest.at.id)) == Filter(st.checkpoints, Kept(newest.at.id))
    decreases n
  {
    hide Enforced, Ready, Filter;
    if n > 0 {
      StaysReady(st, o, newest);
      KeptStay(st, o, newest);
      KeptEverStay(Enforced(st, o), o, newest, n - 1);
    }
  }

  /** With a usable checkpoint some number of calls leaves exactly the newest usable checkpoint and
      those not aged, from every cursor, cached floor and search position. */
  lemma EveryAgedCheckpointGoes(st: State, o: Options, newest: Row<Checkpoint>) returns (n: nat)
    requires Ready(st, o, newest)
    ensures Calls(st, o, n).checkpoints == Filter(st.checkpoints, Kept(newest.at.id))
  {
    n := Settle(st, o, newest);
    KeptEverStay(st, o, newest, n);
    FilterAll(Calls(st, o, n).checkpoints, Kept(newest.at.id));
  }
}
