/** At a fixed clock, with no inserts and no entry budget, a bounded number of enforcements deletes every
    compactible event and nothing else. */
module RetentionLiveness {
  import opened Wrappers
  import opened RetentionState
  import opened RetentionScan
  import opened RetentionRing
  import opened RetentionLaws
  import opened RetentionRewind
  import opened RetentionCounting
  import opened RetentionBudget

  predicate Compactible(r: Row<Episode>) {
    EpisodicEntry(r).action.Compact?
  }

  function Durable(): Row<Episode> -> bool {
    (r: Row<Episode>) => !Compactible(r)
  }

  predicate Aged(r: Row<Checkpoint>) {
    RetentionAction(PolicyOf(TransientObservation), r.data.ageMs).Compact?
  }

  function Young(): Row<Checkpoint> -> bool {
    (r: Row<Checkpoint>) => !Aged(r)
  }

  // ----- A call that deletes nothing -----

  lemma IdlessTablesStay(st: State, o: Options)
    requires Candidates(st, o) == []
    ensures Enforced(st, o).episodic == st.episodic && Enforced(st, o).checkpoints == st.checkpoints
  {
    hide Candidates, NextEpisodicCursor, NextCheckpointCursor, NextFloorSearch, NewestUsable;
    var ids, cids := Ids(Selected(st, o), EpisodicStore), Ids(Selected(st, o), CheckpointStore);
    FilterAll(st.episodic, (r: Row<Episode>) => r.at.id !in ids);
    FilterAll(st.checkpoints, (r: Row<Checkpoint>) => r.at.id !in cids);
  }

  /** Without an entry budget every compactible row of the scan is a candidate. */
  lemma ScannedCompactibleIsCandidate(st: State, o: Options, r: Row<Episode>)
    requires o.maxEntries.None? && r in EpisodicScan(st, o.maxScanRows) && Compactible(r)
    ensures EpisodicEntry(r) in Candidates(st, o)
  {
    hide EpisodicScan, CheckpointScan, NewestUsable;
    var scanned := ScannedEntries(st, o.maxScanRows);
    EpisodicEntriesOf(EpisodicScan(st, o.maxScanRows), EpisodicEntry(r));
    SortKeeps(Filter(scanned, IsCompact()));
  }

  lemma CandidateHasRow(st: State, o: Options, e: Entry)
    requires o.maxEntries.None? && e in Candidates(st, o)
    ensures e.store.EpisodicStore? ==> exists r :: r in st.episodic && e == EpisodicEntry(r) && Compactible(r)
    ensures e.store.CheckpointStore? ==> exists r :: r in st.checkpoints && r.at.id == e.id && Aged(r)
  {
    hide Candidates, EpisodicScan, CheckpointScan, NewestUsable;
    var limit := o.maxScanRows;
    CandidateIsUnprotected(st, o, e);
    EpisodicEntriesOf(EpisodicScan(st, limit), e);
    CheckpointEntriesOf(CheckpointScan(st, limit), NewestUsable(st, limit), e);
    if e.store.EpisodicStore? {
      var r :| r in EpisodicScan(st, limit) && e == EpisodicEntry(r);
      EpisodicScanIsPart(st, limit, r);
    } else {
      var r :| r in CheckpointScan(st, limit) && e == CheckpointEntry(r, NewestUsable(st, limit));
      CheckpointScanIsPart(st, limit, r);
    }
  }

  /** A call that has a candidate deletes a row. */
  lemma CandidatesShrinkTables(st: State, o: Options)
    requires ValidOptions(o) && o.maxEntries.None? && Candidates(st, o) != []
    ensures Rows(Enforced(st, o)) < Rows(st)
  {
    hide Candidates, NextEpisodicCursor, NextCheckpointCursor, NextFloorSearch, NewestUsable;
    var e := Selected(st, o)[0];
    assert e == Candidates(st, o)[0];
    CandidateHasRow(st, o, e);
    var ids, cids := Ids(Selected(st, o), EpisodicStore), Ids(Selected(st, o), CheckpointStore);
    if e.store.EpisodicStore? {
      var r :| r in st.episodic && e == EpisodicEntry(r);
      assert r.at.id in ids;
      FilterShrinks(st.episodic, (r: Row<Episode>) => r.at.id !in ids, r);
    } else {
      var r :| r in st.checkpoints && r.at.id == e.id;
      assert r.at.id in cids;
      FilterShrinks(st.checkpoints, (r: Row<Checkpoint>) => r.at.id !in cids, r);
    }
  }

  // ----- What a call leaves ahead of the scan -----

  /** From place "a" of the ring on there is nothing to compact. */
  ghost predicate Clear(ring: seq<Row<Episode>>, a: nat) {
    forall i :: a <= i < |ring| ==> !Compactible(ring[i])
  }

  ghost predicate Done(st: State, o: Options, r: Row<Episode>) {
    Compactible(r) ==> r.at.id in Ids(Selected(st, o), EpisodicStore)
  }

  /** What the scan passes over is not compactible or is deleted at once. */
  lemma PassedOverIsDone(st: State, o: Options, j: nat)
    requires o.maxEntries.None? && j < FirstPendingEvent(st, o)
    ensures Done(st, o, EpisodicScan(st, o.maxScanRows)[j])
  {
    hide Candidates, Selected, EpisodicScan, EpisodicEntry;
    var w := EpisodicScan(st, o.maxScanRows);
    if Compactible(w[j]) {
      ScannedCompactibleIsCandidate(st, o, w[j]);
      EntryOfRow(w[j]);
      assert w[j].at.id in Ids(Candidates(st, o), EpisodicStore);
      assert w[j].at.id !in PendingIds(st, o, EpisodicStore);
    }
  }

  lemma EntryOfRow(r: Row<Episode>)
    ensures EpisodicEntry(r).store == EpisodicStore && EpisodicEntry(r).id == r.at.id
  {
  }

  lemma RingStaysClear(ring: seq<Row<Episode>>, a: nat, m: nat, ids: set<nat>)
    requires Clear(ring, a) && m <= |ring|
    requires forall j :: 0 <= j < m ==> Compactible(ring[j]) ==> ring[j].at.id in ids
    ensures Clear(Without(Turned(ring, m), ids), if m <= a then a - m else 0)
  {
    hide Compactible, Without;
    var n := if a <= m then m else if a <= |ring| then a else |ring|;
    var ahead, rest := ring[m..n], ring[n..] + ring[..m];
    assert Turned(ring, m) == ahead + rest;
    WithoutSum(ahead, rest, ids);
    WithoutShrinks(ahead, ids);
    var after := Without(rest, ids);
    forall k | 0 <= k < |rest| ensures Compactible(rest[k]) ==> rest[k].at.id in ids {
      assert rest[k] == if k < |ring| - n then ring[n + k] else ring[k - (|ring| - n)];
    }
    forall i | 0 <= i < |after| ensures !Compactible(after[i]) {
      var k := WithoutAt(rest, ids, i);
    }
  }

  lemma WithoutShrinks<T>(rows: seq<Row<T>>, ids: set<nat>)
    ensures |Without(rows, ids)| <= |rows|
  {
  }

  lemma WithoutAt<T>(rows: seq<Row<T>>, ids: set<nat>, i: nat) returns (k: nat)
    requires i < |Without(rows, ids)|
    ensures k < |rows| && rows[k] == Without(rows, ids)[i] && rows[k].at.id !in ids
  {
    var r := Without(rows, ids)[i];
    assert r in Without(rows, ids);
    k :| 0 <= k < |rows| && rows[k] == r;
  }

  /** One call: the compactible events left are those ahead of where the scan resumes. */
  lemma CallClears(st: State, o: Options, a: nat)
    requires ValidState(st) && ValidOptions(o) && o.maxEntries.None?
    requires Clear(Ring(st.episodic, st.episodicCursor), a)
    ensures var next, m := Enforced(st, o), FirstPendingEvent(st, o);
            Clear(Ring(next.episodic, next.episodicCursor), if m <= a then a - m else 0)
  {
    var ring, m := Ring(st.episodic, st.episodicCursor), FirstPendingEvent(st, o);
    ScanIsRingPrefix(st.episodic, st.episodicCursor, o.maxScanRows);
    EnforcedRing(st, o);
    forall j | 0 <= j < m ensures Done(st, o, ring[j]) {
      PassedOverIsDone(st, o, j);
    }
    hide Ring, EpisodicScan, FirstPendingEvent, Selected, Ids, Enforced, Clear, Turned, Without, Compactible;
    RingStaysClear(ring, a, m, Ids(Selected(st, o), EpisodicStore));
  }

  /** The row at the scan position is still to be compacted; the next scan leaves it out. */
  ghost predicate Behind(st: State) {
    st.episodicCursor.Some? && exists r :: r in st.episodic && r.at == st.episodicCursor.value && Compactible(r)
  }

  /** A call leaves such a row behind only where the one before did, and only if it stands still. */
  lemma BehindOnlyBefore(st: State, o: Options)
    requires ValidState(st) && ValidOptions(o) && o.maxEntries.None? && Behind(Enforced(st, o))
    ensures Behind(st) && FirstPendingEvent(st, o) == 0 < |EpisodicScan(st, o.maxScanRows)|
  {
    hide EpisodicScan, FirstPendingEvent, Compactible, Selected, NextEpisodicCursor, NextCheckpointCursor,
         NextFloorSearch, NewestUsable;
    EpisodicCursorResumes(st, o);
    var w, m := EpisodicScan(st, o.maxScanRows), FirstPendingEvent(st, o);
    var next := Enforced(st, o);
    var r :| r in next.episodic && r.at == next.episodicCursor.value && Compactible(r);
    assert r in st.episodic && r.at.id !in Ids(Selected(st, o), EpisodicStore);
    if m > 0 {
      EpisodicScanIsPart(st, o.maxScanRows, w[m - 1]);
      assert w[m - 1] == r;
      PassedOverIsDone(st, o, m - 1);
    }
  }

  function AtLeast(least: nat, x: int): (r: nat)
    ensures r >= least && r >= x && (r == least || r == x)
  {
    if x <= least then least else x
  }

  lemma ClearFrom(ring: seq<Row<Episode>>, a: nat, b: nat)
    requires Clear(ring, a) && a <= b
    ensures Clear(ring, b)
  {
  }

  /** What is ahead of the scan before a call, not counting the row it leaves out. */
  lemma Ahead(st: State, a: nat) returns (b: nat)
    requires ValidState(st) && Clear(Ring(st.episodic, st.episodicCursor), a)
    ensures Clear(Ring(st.episodic, st.episodicCursor), b) && b <= a
    ensures b <= |st.episodic|
    ensures !Behind(st) && LeavesOneOut(st.episodic, st.episodicCursor) ==> b <= |st.episodic| - 1
  {
    var n, ring := |st.episodic|, Ring(st.episodic, st.episodicCursor);
    RingSize(st.episodic, st.episodicCursor);
    hide Ring, Compactible, Before, UpTo;
    b := if a <= n then a else n;
    if LeavesOneOut(st.episodic, st.episodicCursor) {
      LeftOutIsLast(st.episodic, st.episodicCursor);
      assert ring[n - 1] in st.episodic;
      if !Behind(st) {
        b := if b == n then n - 1 else b;
      }
    }
  }

  /** A call that leaves no event over brings the scan on by its limit, except for the row it
      leaves out. */
  lemma PassMovesOn(st: State, o: Options, a: nat)
    requires ValidState(st) && ValidOptions(o) && o.maxEntries.None?
    requires Clear(Ring(st.episodic, st.episodicCursor), a)
    requires FirstPendingEvent(st, o) == |EpisodicScan(st, o.maxScanRows)|
    ensures var next := Enforced(st, o);
            Clear(Ring(next.episodic, next.episodicCursor), AtLeast(if Behind(st) then 1 else 0, a - o.maxScanRows))
  {
    hide Enforced, Clear, Ring, LeavesOneOut, Behind, FirstPendingEvent, Compactible;
    var b := Ahead(st, a);
    var m := FirstPendingEvent(st, o);
    ScanIsRingPrefix(st.episodic, st.episodicCursor, o.maxScanRows);
    CallClears(st, o, b);
    var next := Enforced(st, o);
    ClearFrom(Ring(next.episodic, next.episodicCursor), if m <= b then b - m else 0,
              AtLeast(if Behind(st) then 1 else 0, a - o.maxScanRows));
  }

  // ----- How many calls it takes -----

  /** How many rows there are that a call may delete. */
  function Removable(st: State): nat {
    Rows(st) - |Filter(st.episodic, Durable())| - |Filter(st.checkpoints, Young())|
  }

  // ----- Nothing else goes -----

  lemma {:induction false} WithoutOthers<T>(rows: seq<Row<T>>, ids: set<nat>, p: Row<T> -> bool)
    requires forall r :: r in rows && r.at.id in ids ==> !p(r)
    ensures Filter(Without(rows, ids), p) == Filter(rows, p)
    decreases |rows|
  {
    if rows != [] {
      WithoutOthers(rows[1..], ids, p);
      WithoutStep(rows, ids);
      var tail := Without(rows[1..], ids);
      hide Without;
      if rows[0].at.id !in ids {
        assert Without(rows, ids) == [rows[0]] + tail;
        assert ([rows[0]] + tail)[1..] == tail;
      } else {
        assert Without(rows, ids) == tail;
      }
    }
  }

  lemma OnlyCompactibleGoes(st: State, o: Options)
    requires ValidState(st) && o.maxEntries.None?
    ensures Filter(Enforced(st, o).episodic, Durable()) == Filter(st.episodic, Durable())
    ensures Filter(Enforced(st, o).checkpoints, Young()) == Filter(st.checkpoints, Young())
  {
    hide Candidates, NextEpisodicCursor, NextCheckpointCursor, NextFloorSearch, NewestUsable, Without, Filter,
         Compactible, Aged;
    var ids, cids := Ids(Selected(st, o), EpisodicStore), Ids(Selected(st, o), CheckpointStore);
    forall r | r in st.episodic && r.at.id in ids ensures Compactible(r) {
      var e :| e in Selected(st, o) && e.store == EpisodicStore && e.id == r.at.id;
      assert e in Candidates(st, o);
      CandidateHasRow(st, o, e);
      var q :| q in st.episodic && e == EpisodicEntry(q) && Compactible(q);
      assert q == r;
    }
    forall r | r in st.checkpoints && r.at.id in cids ensures Aged(r) {
      var e :| e in Selected(st, o) && e.store == CheckpointStore && e.id == r.at.id;
      assert e in Candidates(st, o);
      CandidateHasRow(st, o, e);
      var q :| q in st.checkpoints && q.at.id == e.id && Aged(q);
      assert q == r;
    }
    WithoutOthers(st.episodic, ids, Durable());
    WithoutOthers(st.checkpoints, cids, Young());
  }

  lemma {:induction false} OnlyCompactibleEverGoes(st: State, o: Options, n: nat)
    requires ValidState(st) && o.maxEntries.None?
    ensures ValidState(Calls(st, o, n))
    ensures Filter(Calls(st, o, n).episodic, Durable()) == Filter(st.episodic, Durable())
    ensures Filter(Calls(st, o, n).checkpoints, Young()) == Filter(st.checkpoints, Young())
    decreases n
  {
    hide Enforced, ValidState, Filter;
    if n > 0 {
      EnforcedIsValid(st, o);
      OnlyCompactibleGoes(st, o);
      OnlyCompactibleEverGoes(Enforced(st, o), o, n - 1);
    }
  }

  // ----- Every call deletes or moves on -----

  /** A call removes a row for every selected entry. */
  lemma EachSelectedGoes(st: State, o: Options)
    requires ValidState(st) && o.maxEntries.None?
    ensures Removable(Enforced(st, o)) + |Selected(st, o)| <= Removable(st)
  {
    hide Selected, NextEpisodicCursor, NextCheckpointCursor, NextFloorSearch, NewestUsable, Without, Filter, Ids;
    SelectedIsDeleted(st, o);
    OnlyCompactibleGoes(st, o);
  }

  lemma LeftOverMeansCapped(st: State, o: Options)
    requires FirstPendingEvent(st, o) < |EpisodicScan(st, o.maxScanRows)|
    ensures |Selected(st, o)| == o.maxDeletes
  {
    hide EpisodicScan, PendingIds, Selected;
    assert EpisodicScan(st, o.maxScanRows)[FirstPendingEvent(st, o)].at.id in PendingIds(st, o, EpisodicStore);
    PendingMeansCapped(st, o);
  }

  function Calls(st: State, o: Options, n: nat): State
    decreases n
  {
    if n == 0 then st else Calls(Enforced(st, o), o, n - 1)
  }

  ghost predicate Drained(st: State) {
    forall r :: r in st.episodic ==> !Compactible(r)
  }

  lemma NothingAheadIsDrained(st: State)
    requires Clear(Ring(st.episodic, st.episodicCursor), 0)
    ensures Drained(st) && !Behind(st)
  {
    hide Ring, Compactible;
    var ring := Ring(st.episodic, st.episodicCursor);
    RingSize(st.episodic, st.episodicCursor);
    forall r | r in st.episodic ensures !Compactible(r) {
      assert r in ring;
      var i :| 0 <= i < |ring| && ring[i] == r;
    }
  }

  lemma {:induction false} DrainedStays(st: State, o: Options, n: nat)
    requires Drained(st)
    ensures Drained(Calls(st, o, n))
    decreases n
  {
    hide Compactible, Selected, NextEpisodicCursor, NextCheckpointCursor, NextFloorSearch, NewestUsable;
    if n > 0 {
      DrainedStays(Enforced(st, o), o, n - 1);
    }
  }

  function Capacity(calls: nat, size: nat): nat {
    calls * size
  }

  lemma OneCallLess(calls: nat, size: nat)
    ensures Capacity(0, size) == 0
    ensures calls > 0 ==> Capacity(calls - 1, size) == Capacity(calls, size) - size
  {
  }

  /** With "a" places of the ring still ahead, so many passes and so many capped calls suffice: each
      call that leaves an event over deletes a full cap, each other moves on by a full scan. */
  lemma {:induction false} DrainWithin(st: State, o: Options, a: nat, passes: nat, capped: nat, n: nat)
    requires ValidState(st) && ValidOptions(o) && o.maxEntries.None?
    requires Clear(Ring(st.episodic, st.episodicCursor), a)
    requires a + (if Behind(st) then o.maxScanRows else 0) <= Capacity(passes, o.maxScanRows)
    requires Removable(st) < Capacity(capped + 1, o.maxDeletes)
    requires passes + capped <= n
    ensures Drained(Calls(st, o, n))
    decreases n
  {
    hide Enforced, ValidState, Clear, Ring, Behind, Removable, Drained, FirstPendingEvent, EpisodicScan,
         Selected, Capacity;
    if a == 0 {
      NothingAheadIsDrained(st);
      DrainedStays(st, o, n);
    } else {
      var next, m := Enforced(st, o), FirstPendingEvent(st, o);
      OneCallLess(passes, o.maxScanRows);
      OneCallLess(capped + 1, o.maxDeletes);
      OneCallLess(capped, o.maxDeletes);
      EnforcedIsValid(st, o);
      EachSelectedGoes(st, o);
      if Behind(next) {
        BehindOnlyBefore(st, o);
      }
      if m < |EpisodicScan(st, o.maxScanRows)| {
        LeftOverMeansCapped(st, o);
        CallClears(st, o, a);
        ClearFrom(Ring(next.episodic, next.episodicCursor), if m <= a then a - m else 0, a);
        DrainWithin(next, o, a, passes, capped - 1, n - 1);
      } else {
        PassMovesOn(st, o, a);
        DrainWithin(next, o, AtLeast(if Behind(st) then 1 else 0, a - o.maxScanRows), passes - 1, capped, n - 1);
      }
    }
  }

  function Blocks(x: nat, size: nat): nat
    requires 1 <= size
  {
    (x + size - 1) / size
  }

  function FullBlocks(x: nat, size: nat): nat
    requires 1 <= size
  {
    x / size
  }

  /** A full cap for each call but the last of those that leave something over, and one round. */
  function CallsNeeded(st: State, o: Options): nat
    requires ValidOptions(o)
  {
    FullBlocks(Removable(st), o.maxDeletes) + Blocks(|st.episodic|, o.maxScanRows) + 1
  }

  lemma EnoughBlocks(x: nat, size: nat)
    requires 1 <= size
    ensures x < Capacity(FullBlocks(x, size) + 1, size) && x <= Capacity(Blocks(x, size), size)
  {
  }

  /** From any scan position, after so many calls exactly the events that are not compactible are
      left: none of those is ever lost, none of the others is skipped. */
  lemma EveryCompactibleEventGoes(st: State, o: Options, n: nat)
    requires ValidState(st) && ValidOptions(o) && o.maxEntries.None?
    requires n >= CallsNeeded(st, o)
    ensures Calls(st, o, n).episodic == Filter(st.episodic, Durable())
  {
    hide Enforced, ValidState, Compactible, Ring, Behind, Removable, Blocks, FullBlocks, Capacity;
    var rounds := Blocks(|st.episodic|, o.maxScanRows);
    EnoughBlocks(|st.episodic|, o.maxScanRows);
    EnoughBlocks(Removable(st), o.maxDeletes);
    OneCallLess(rounds + 1, o.maxScanRows);
    RingSize(st.episodic, st.episodicCursor);
    DrainWithin(st, o, |st.episodic|, rounds + 1, FullBlocks(Removable(st), o.maxDeletes), n);
    OnlyCompactibleEverGoes(st, o, n);
    FilterAll(Calls(st, o, n).episodic, Durable());
  }
}
