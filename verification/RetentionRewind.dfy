/** Where the next scan resumes: after what was read, or just before the first candidate the delete
    cap left over, so that no candidate is skipped. */
module RetentionRewind {
  import opened Wrappers
  import opened RetentionState
  import opened RetentionScan
  import opened RetentionRing
  import opened RetentionLaws

  // ----- One table -----

  /** The cursor after the rows "w" were read of which those from "first" on are still to be done. */
  function Resume<T>(w: seq<Row<T>>, cursor: Option<Position>, first: nat): Option<Position>
    requires first <= |w|
  {
    if first == |w| then (if w == [] then None else Some(w[|w| - 1].at))
    else if first == 0 then cursor
    else Some(w[first - 1].at)
  }

  /** The next ring is what the deletions leave of this one, turned to where the scan resumes. */
  lemma ResumedRing<T>(rows: seq<Row<T>>, cursor: Option<Position>, limit: nat, first: nat, ids: set<nat>)
    requires ScanOrdered(rows) && 1 <= limit && first <= |ScanFrom(rows, cursor, limit)|
    ensures first <= |Ring(rows, cursor)|
    ensures Ring(Without(rows, ids), Resume(ScanFrom(rows, cursor, limit), cursor, first))
            == Without(Turned(Ring(rows, cursor), first), ids)
  {
    hide ScanFrom, Ring, Without, Turned, LeavesOneOut;
    var w := ScanFrom(rows, cursor, limit);
    ScanIsRingPrefix(rows, cursor, limit);
    RingSize(rows, cursor);
    if w == [] {
      SmallRings(rows, cursor, ids);
    } else {
      NextRing(rows, cursor, first, ids);
    }
  }

  lemma SmallRings<T>(rows: seq<Row<T>>, cursor: Option<Position>, ids: set<nat>)
    requires |rows| <= 1
    ensures Ring(rows, cursor) == rows && Turned(rows, 0) == rows
    ensures Ring(Without(rows, ids), None) == Without(rows, ids)
  {
    SmallRing(rows, cursor);
  }

  lemma RingPlacesDiffer<T>(rows: seq<Row<T>>, cursor: Option<Position>, i: nat, j: nat)
    requires ScanOrdered(rows) && i < j < |Ring(rows, cursor)|
    ensures Ring(rows, cursor)[i].at != Ring(rows, cursor)[j].at
  {
    hide UpTo;
  }

  /** A scan never reads the row at its own cursor. */
  lemma ScanAvoidsCursor<T>(rows: seq<Row<T>>, cursor: Option<Position>, limit: nat, i: nat)
    requires ScanOrdered(rows) && i < |ScanFrom(rows, cursor, limit)| && cursor.Some?
    ensures ScanFrom(rows, cursor, limit)[i].at != cursor.value
  {
    hide KeysetWindow, UpTo, Before;
    var c := cursor.value;
    WindowIsCyclic(rows, c, limit);
    BoundsOfCursor(rows, c);
    var r := CyclicAfter(rows, c)[i];
    assert r in rows[UpTo(rows, c)..] || r in rows[..Before(rows, c)];
    assert Less(c, r.at) || Less(r.at, c);
  }

  /** Whatever is deleted, the row the scan resumes before is read first by the next scan. */
  lemma ResumedScanStartsThere<T>(
      rows: seq<Row<T>>, cursor: Option<Position>, limit: nat, first: nat, ids: set<nat>, again: nat)
    requires ScanOrdered(rows) && 1 <= limit && 1 <= again && first < |ScanFrom(rows, cursor, limit)|
    requires ScanFrom(rows, cursor, limit)[first].at.id !in ids
    ensures var w := ScanFrom(rows, cursor, limit);
            var next := ScanFrom(Without(rows, ids), Resume(w, cursor, first), again);
            next != [] && next[0] == w[first]
  {
    var w, ring := ScanFrom(rows, cursor, limit), Ring(rows, cursor);
    var left, resume := Without(rows, ids), Resume(w, cursor, first);
    ResumedRing(rows, cursor, limit, first, ids);
    ScanIsRingPrefix(rows, cursor, limit);
    FirstStaysFirst(ring, first, ids);
    FilterKeepsOrder(rows, (r: Row<T>) => r.at.id !in ids);
    ResumePassesOver(rows, cursor, limit, first);
    hide *;
    ScanStartsWithRing(left, resume, again);
  }

  lemma ResumePassesOver<T>(rows: seq<Row<T>>, cursor: Option<Position>, limit: nat, first: nat)
    requires ScanOrdered(rows) && first < |ScanFrom(rows, cursor, limit)|
    ensures var w, resume := ScanFrom(rows, cursor, limit), Resume(ScanFrom(rows, cursor, limit), cursor, first);
            resume.Some? ==> w[first].at != resume.value
  {
    hide ScanFrom, Ring, LeavesOneOut;
    if first == 0 {
      if cursor.Some? {
        ScanAvoidsCursor(rows, cursor, limit, 0);
      }
    } else {
      ScanIsRingPrefix(rows, cursor, limit);
      RingPlacesDiffer(rows, cursor, first - 1, first);
    }
  }

  lemma ScanStartsWithRing<T>(rows: seq<Row<T>>, cursor: Option<Position>, limit: nat)
    requires ScanOrdered(rows) && 1 <= limit && Ring(rows, cursor) != []
    requires cursor.Some? ==> Ring(rows, cursor)[0].at != cursor.value
    ensures ScanFrom(rows, cursor, limit) != [] && ScanFrom(rows, cursor, limit)[0] == Ring(rows, cursor)[0]
  {
    hide ScanFrom, Ring, Before, UpTo;
    ScanIsRingPrefix(rows, cursor, limit);
    RingSize(rows, cursor);
    if LeavesOneOut(rows, cursor) {
      LeftOutIsLast(rows, cursor);
    }
    assert Ring(rows, cursor)[..1][0] == Ring(rows, cursor)[0];
  }

  lemma FirstStaysFirst<T>(ring: seq<Row<T>>, first: nat, ids: set<nat>)
    requires first < |ring| && ring[first].at.id !in ids
    ensures Without(Turned(ring, first), ids) != [] && Without(Turned(ring, first), ids)[0] == ring[first]
  {
    assert Turned(ring, first)[0] == ring[first];
  }

  // ----- The events -----

  function FirstPendingEvent(st: State, o: Options): (i: nat)
    ensures i <= |EpisodicScan(st, o.maxScanRows)|
  {
    FirstIndex(EpisodicScan(st, o.maxScanRows), PendingIds(st, o, EpisodicStore))
  }

  lemma EpisodicCursorResumes(st: State, o: Options)
    ensures Enforced(st, o).episodicCursor
            == Resume(EpisodicScan(st, o.maxScanRows), st.episodicCursor, FirstPendingEvent(st, o))
  {
    hide EpisodicScan, PendingIds, NextCheckpointCursor, NextFloorSearch, NewestUsable, Without, Selected;
  }

  /** The first event the delete cap leaves over is the first the next scan reads, from every scan
      position and whatever the next limit. */
  lemma LeftOverEventIsReadNext(st: State, o: Options, limit: nat)
    requires ValidState(st) && ValidOptions(o) && 1 <= limit
    requires FirstPendingEvent(st, o) < |EpisodicScan(st, o.maxScanRows)|
    ensures var next := EpisodicScan(Enforced(st, o), limit);
            next != [] && next[0] == EpisodicScan(st, o.maxScanRows)[FirstPendingEvent(st, o)]
  {
    hide Candidates, Selected, ScanFrom, NextEpisodicCursor, NextCheckpointCursor, NextFloorSearch,
         NewestUsable, Resume;
    EpisodicCursorResumes(st, o);
    var ids := Ids(Selected(st, o), EpisodicStore);
    ResumedScanStartsThere(
      st.episodic, st.episodicCursor, o.maxScanRows, FirstPendingEvent(st, o), ids, limit);
  }

  /** The ring of events after a call. */
  lemma EnforcedRing(st: State, o: Options)
    requires ValidState(st) && ValidOptions(o)
    ensures FirstPendingEvent(st, o) <= |Ring(st.episodic, st.episodicCursor)|
    ensures var next := Enforced(st, o);
            Ring(next.episodic, next.episodicCursor)
            == Without(Turned(Ring(st.episodic, st.episodicCursor), FirstPendingEvent(st, o)),
                       Ids(Selected(st, o), EpisodicStore))
  {
    hide Selected, ScanFrom, NextEpisodicCursor, NextCheckpointCursor, NextFloorSearch, NewestUsable, Resume,
         FirstPendingEvent, Ring, Without, Turned;
    EpisodicCursorResumes(st, o);
    var ids := Ids(Selected(st, o), EpisodicStore);
    ResumedRing(st.episodic, st.episodicCursor, o.maxScanRows, FirstPendingEvent(st, o), ids);
  }

  // ----- The checkpoints -----

  lemma {:induction false} InsertByPositionOrders(r: Row<Checkpoint>, rows: seq<Row<Checkpoint>>)
    requires ScanOrdered(rows) && forall i :: 0 <= i < |rows| ==> rows[i].at != r.at
    ensures ScanOrdered(InsertByPosition(r, rows))
    decreases |rows|
  {
    if rows != [] && !Less(r.at, rows[0].at) {
      InsertByPositionOrders(r, rows[1..]);
      InsertByPositionKeeps(r, rows[1..]);
      var rest := InsertByPosition(r, rows[1..]);
      forall j | 0 <= j < |rest| ensures Less(rows[0].at, rest[j].at) {
        assert rest[j] in rest;
      }
    }
  }

  lemma {:induction false} ByPositionOrders(rows: seq<Row<Checkpoint>>)
    requires DistinctIds(rows)
    ensures ScanOrdered(ByPosition(rows))
    decreases |rows|
  {
    if rows != [] {
      ByPositionOrders(rows[1..]);
      ByPositionKeeps(rows[1..]);
      var rest := ByPosition(rows[1..]);
      forall i | 0 <= i < |rest| ensures rest[i].at != rows[0].at {
        assert rest[i] in rows[1..];
      }
      InsertByPositionOrders(rows[0], rest);
    }
  }

  lemma WithoutStep<T>(rows: seq<Row<T>>, ids: set<nat>)
    requires rows != []
    ensures Without(rows, ids) == (if rows[0].at.id in ids then [] else [rows[0]]) + Without(rows[1..], ids)
  {
  }

  lemma {:induction false} InsertAfterDeletion(r: Row<Checkpoint>, rows: seq<Row<Checkpoint>>, ids: set<nat>)
    requires ScanOrdered(rows)
    ensures Without(InsertByPosition(r, rows), ids)
            == if r.at.id in ids then Without(rows, ids) else InsertByPosition(r, Without(rows, ids))
    decreases |rows|
  {
    var inserted := InsertByPosition(r, rows);
    WithoutStep(inserted, ids);
    if rows == [] {
      assert inserted[1..] == rows;
    } else if Less(r.at, rows[0].at) {
      assert inserted[1..] == rows;
      var left := Without(rows, ids);
      assert left != [] ==> left[0] in rows;
    } else {
      var rest := InsertByPosition(r, rows[1..]);
      assert inserted == [rows[0]] + rest && inserted[1..] == rest;
      WithoutStep(rows, ids);
      hide Without;
      InsertAfterDeletion(r, rows[1..], ids);
      var left, head := Without(rows[1..], ids), if rows[0].at.id in ids then [] else [rows[0]];
      assert Without(inserted, ids) == head + Without(rest, ids) && Without(rows, ids) == head + left;
      if r.at.id !in ids {
        InsertBehind(r, rows[0], left);
        assert head == [] ==> Without(rows, ids) == left && Without(inserted, ids) == Without(rest, ids);
      }
    }
  }

  lemma InsertBehind(r: Row<Checkpoint>, first: Row<Checkpoint>, rest: seq<Row<Checkpoint>>)
    requires !Less(r.at, first.at)
    ensures InsertByPosition(r, [first] + rest) == [first] + InsertByPosition(r, rest)
  {
    assert ([first] + rest)[1..] == rest;
  }

  /** Deleting checkpoints and ordering them by position can be done in either order. */
  lemma {:induction false} ByPositionAfterDeletion(rows: seq<Row<Checkpoint>>, ids: set<nat>)
    requires DistinctIds(rows)
    ensures ByPosition(Without(rows, ids)) == Without(ByPosition(rows), ids)
    decreases |rows|
  {
    if rows != [] {
      WithoutStep(rows, ids);
      ByPositionOrders(rows[1..]);
      InsertAfterDeletion(rows[0], ByPosition(rows[1..]), ids);
      ByPositionAfterDeletion(rows[1..], ids);
      var left := Without(rows[1..], ids);
      assert ([rows[0]] + left)[1..] == left;
      hide Without;
      if rows[0].at.id in ids {
        assert Without(rows, ids) == left;
      }
    }
  }

  /** The rollback floor a call finds is trusted by the next. */
  lemma FloorStaysTrusted(st: State, o: Options)
    requires ValidState(st) && NewestUsable(st, o.maxScanRows).Some?
    ensures TrustedFloor(Enforced(st, o)) == NewestUsable(st, o.maxScanRows)
  {
    hide Candidates, CheckpointScan, EpisodicScan, NextEpisodicCursor, NextCheckpointCursor, NextFloorSearch,
         ScannedEntries;
    var floor := NewestUsable(st, o.maxScanRows);
    var r := FloorRow(st, o.maxScanRows);
    forall e | e in Selected(st, o) && e.store == CheckpointStore ensures e.id != r.at.id {
      assert e in Candidates(st, o);
      FloorIsNoCandidate(st, o, e);
    }
    var next := Enforced(st, o);
    assert r in next.checkpoints;
    assert r in Filter(next.checkpoints, HasId(floor.value));
    assert r in Filter(Filter(next.checkpoints, HasId(floor.value)), Parses());
  }

  lemma FloorRow(st: State, limit: nat) returns (r: Row<Checkpoint>)
    requires NewestUsable(st, limit).Some?
    ensures r in st.checkpoints && r.data.parses && r.at.id == NewestUsable(st, limit).value
  {
    hide CheckpointScan;
    var floor := TrustedFloor(st);
    MaxIdIsNewest(CheckpointScan(st, limit), floor);
    if NewestUsable(st, limit) == floor {
      r := Filter(Filter(st.checkpoints, HasId(floor.value)), Parses())[0];
      assert r in Filter(Filter(st.checkpoints, HasId(floor.value)), Parses());
      assert r in Filter(st.checkpoints, HasId(floor.value));
    } else {
      r :| r in CheckpointScan(st, limit) && r.data.parses && r.at.id == NewestUsable(st, limit).value;
      CheckpointScanIsPart(st, limit, r);
    }
  }

  lemma FloorIsNoCandidate(st: State, o: Options, e: Entry)
    requires e in Candidates(st, o) && e.store == CheckpointStore
    ensures NewestUsable(st, o.maxScanRows).Some? && e.id != NewestUsable(st, o.maxScanRows).value
  {
    hide Candidates, CheckpointScan, EpisodicScan, NewestUsable;
    CandidateIsUnprotected(st, o, e);
    var x :| x in ScannedEntries(st, o.maxScanRows) && SameRow(x, e) && !x.guarded;
    EpisodicEntriesOf(EpisodicScan(st, o.maxScanRows), x);
    CheckpointEntriesOf(CheckpointScan(st, o.maxScanRows), NewestUsable(st, o.maxScanRows), x);
  }

  function FirstPendingCheckpoint(st: State, o: Options): (i: nat)
    ensures i <= |CheckpointScan(st, o.maxScanRows)|
  {
    FirstIndex(CheckpointScan(st, o.maxScanRows), PendingIds(st, o, CheckpointStore))
  }

  /** With a trusted floor the first checkpoint left over is the first the next scan reads, unless
      it was the first of its scan: then the next scan starts at the oldest checkpoint. */
  lemma LeftOverCheckpointIsReadNext(st: State, o: Options, limit: nat)
    requires ValidState(st) && ValidOptions(o) && 1 <= limit && TrustedFloor(st).Some?
    requires FirstPendingCheckpoint(st, o) < |CheckpointScan(st, o.maxScanRows)|
    ensures TrustedFloor(Enforced(st, o)).Some? && ByPosition(Enforced(st, o).checkpoints) != []
    ensures var next, first := CheckpointScan(Enforced(st, o), limit), FirstPendingCheckpoint(st, o);
            && next != []
            && next[0] == if first == 0 then ByPosition(Enforced(st, o).checkpoints)[0]
                          else CheckpointScan(st, o.maxScanRows)[first]
  {
    var first, w := FirstPendingCheckpoint(st, o), CheckpointScan(st, o.maxScanRows);
    MaxIdIsNewest(w, TrustedFloor(st));
    FloorStaysTrusted(st, o);
    LeftOverCheckpointStays(st, o, w[first]);
    CheckpointCursorResumes(st, o);
    TrustedScan(st, o.maxScanRows);
    TrustedScan(Enforced(st, o), limit);
    EnforcedByPosition(st, o);
    hide *;
    if first > 0 {
      ResumedScanStartsThere(ByPosition(st.checkpoints), st.checkpointCursor, o.maxScanRows, first,
                             Ids(Selected(st, o), CheckpointStore), limit);
    } else {
      ScanFromStart(ByPosition(Enforced(st, o).checkpoints), limit);
    }
  }

  lemma ScanFromStart<T>(rows: seq<Row<T>>, limit: nat)
    requires rows != [] && 1 <= limit
    ensures ScanFrom(rows, None, limit) != [] && ScanFrom(rows, None, limit)[0] == rows[0]
  {
  }

  lemma TrustedScan(st: State, limit: nat)
    requires TrustedFloor(st).Some?
    ensures CheckpointScan(st, limit) == ScanFrom(ByPosition(st.checkpoints), st.checkpointCursor, limit)
  {
    hide TrustedFloor, ByPosition, ScanFrom;
  }

  lemma EnforcedByPosition(st: State, o: Options)
    requires ValidState(st)
    ensures ScanOrdered(ByPosition(st.checkpoints))
    ensures ByPosition(Enforced(st, o).checkpoints)
            == Without(ByPosition(st.checkpoints), Ids(Selected(st, o), CheckpointStore))
  {
    hide Selected, NextEpisodicCursor, NextCheckpointCursor, NextFloorSearch, NewestUsable;
    ByPositionOrders(st.checkpoints);
    ByPositionAfterDeletion(st.checkpoints, Ids(Selected(st, o), CheckpointStore));
  }

  /** With a trusted floor; a first row left over sends the scan back to the beginning. */
  lemma CheckpointCursorResumes(st: State, o: Options)
    requires TrustedFloor(st).Some?
    ensures var w, first := CheckpointScan(st, o.maxScanRows), FirstPendingCheckpoint(st, o);
            Enforced(st, o).checkpointCursor
            == if first == 0 && w != [] then None else Resume(w, st.checkpointCursor, first)
  {
    hide TrustedFloor, CheckpointScan, PendingIds, NextEpisodicCursor, NextFloorSearch, NewestUsable, Without, Selected;
  }

  lemma LeftOverCheckpointStays(st: State, o: Options, r: Row<Checkpoint>)
    requires r in CheckpointScan(st, o.maxScanRows) && r.at.id in PendingIds(st, o, CheckpointStore)
    ensures r.at.id !in Ids(Selected(st, o), CheckpointStore)
    ensures r in ByPosition(Enforced(st, o).checkpoints)
  {
    hide Selected, Candidates, CheckpointScan, ByPosition, NextEpisodicCursor, NextCheckpointCursor,
         NextFloorSearch, NewestUsable;
    CheckpointScanIsPart(st, o.maxScanRows, r);
    ByPositionKeeps(Enforced(st, o).checkpoints);
  }

  /** A call that finds a rollback floor where none was known lets the next scan begin right after it. */
  lemma NewFloorIsCursor(st: State, o: Options)
    requires TrustedFloor(st).None?
    ensures NewestUsable(st, o.maxScanRows).None? ==> NextCheckpointCursor(st, o).None?
    ensures NewestUsable(st, o.maxScanRows).Some? ==>
      exists r :: r in CheckpointScan(st, o.maxScanRows) && r.at.id == NewestUsable(st, o.maxScanRows).value
        && NextCheckpointCursor(st, o) == Some(r.at)
  {
    hide CheckpointScan, MaxId, TrustedFloor;
    var rows, newest := CheckpointScan(st, o.maxScanRows), NewestUsable(st, o.maxScanRows);
    MaxIdIsNewest(rows, TrustedFloor(st));
    if newest.Some? {
      var found := Filter(rows, HasId(newest.value));
      var r :| r in rows && r.data.parses && r.at.id == newest.value;
      assert HasId(newest.value)(r);
      assert found[0] in found && HasId(newest.value)(found[0]);
    }
  }
}
