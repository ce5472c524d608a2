/** What an entry budget makes one enforcement delete: how many rows, counted over the scan and the
    tables, and which of them. */
module RetentionBudget {
  import opened Wrappers
  import opened RetentionState
  import opened RetentionScan
  import opened RetentionLaws
  import opened RetentionRewind
  import opened RetentionCounting

  // ----- Rows a call may delete -----

  predicate Unprotected(r: Row<Episode>) {
    r.data.kind !in {UserPreference, AuditRecord} && !r.data.coolingDown
  }

  predicate OverAge(kind: MemoryClass, ageMs: Option<nat>) {
    ageMs.Some? && PolicyOf(kind).retentionDays.Some?
    && ageMs.value >= PolicyOf(kind).retentionDays.value * DAY_MS
  }

  /** Checkpoints are unprotected only while another one is known for the rollback floor. */
  predicate UnprotectedCheckpoint(r: Row<Checkpoint>, floor: Option<nat>) {
    floor.Some? && floor.value != r.at.id
  }

  function Loose(): Row<Episode> -> bool {
    (r: Row<Episode>) => Unprotected(r)
  }

  function LooseAndAged(): Row<Episode> -> bool {
    (r: Row<Episode>) => Unprotected(r) && OverAge(r.data.kind, r.data.ageMs)
  }

  function LooseCheckpoint(floor: Option<nat>): Row<Checkpoint> -> bool {
    (r: Row<Checkpoint>) => UnprotectedCheckpoint(r, floor)
  }

  function LooseAgedCheckpoint(floor: Option<nat>): Row<Checkpoint> -> bool {
    (r: Row<Checkpoint>) => UnprotectedCheckpoint(r, floor) && OverAge(TransientObservation, r.data.ageMs)
  }

  /** The unprotected rows of both scans. */
  function UnprotectedScanned(st: State, limit: nat): nat {
    |Filter(EpisodicScan(st, limit), Loose())|
    + |Filter(CheckpointScan(st, limit), LooseCheckpoint(NewestUsable(st, limit)))|
  }

  /** Those of them past their retention age. */
  function AgedScanned(st: State, limit: nat): nat {
    |Filter(EpisodicScan(st, limit), LooseAndAged())|
    + |Filter(CheckpointScan(st, limit), LooseAgedCheckpoint(NewestUsable(st, limit)))|
  }

  function Rows(st: State): nat {
    |st.episodic| + |st.checkpoints|
  }

  // ----- Counting entries -----

  lemma EventCounted(r: Row<Episode>)
    ensures IsCompact()(EpisodicEntry(r)) <==> LooseAndAged()(r)
    ensures IsBudgetCandidate()(EpisodicEntry(r)) <==> Loose()(r) && !LooseAndAged()(r)
    ensures LooseAndAged()(r) ==> Loose()(r)
  {
  }

  lemma CheckpointCounted(r: Row<Checkpoint>, floor: Option<nat>)
    ensures var e := CheckpointEntry(r, floor);
            && (IsCompact()(e) <==> LooseAgedCheckpoint(floor)(r))
            && (IsBudgetCandidate()(e) <==> LooseCheckpoint(floor)(r) && !LooseAgedCheckpoint(floor)(r))
    ensures LooseAgedCheckpoint(floor)(r) ==> LooseCheckpoint(floor)(r)
  {
  }

  lemma FilterStep<T>(x: T, rest: seq<T>, p: T -> bool)
    ensures |Filter([x] + rest, p)| == (if p(x) then 1 else 0) + |Filter(rest, p)|
  {
    assert ([x] + rest)[1..] == rest;
  }

  lemma {:induction false} EventsCounted(rows: seq<Row<Episode>>)
    ensures |Filter(EpisodicEntries(rows), IsCompact())| == |Filter(rows, LooseAndAged())|
    ensures |Filter(EpisodicEntries(rows), IsBudgetCandidate())|
            == |Filter(rows, Loose())| - |Filter(rows, LooseAndAged())|
    decreases |rows|
  {
    if rows != [] {
      var r, rest := rows[0], rows[1..];
      EventsCounted(rest);
      EventCounted(r);
      assert rows == [r] + rest && EpisodicEntries(rows) == [EpisodicEntry(r)] + EpisodicEntries(rest);
      hide Filter, EpisodicEntry, EpisodicEntries, Loose, LooseAndAged, IsCompact, IsBudgetCandidate;
      FilterStep(EpisodicEntry(r), EpisodicEntries(rest), IsCompact());
      FilterStep(EpisodicEntry(r), EpisodicEntries(rest), IsBudgetCandidate());
      FilterStep(r, rest, Loose());
      FilterStep(r, rest, LooseAndAged());
    }
  }

  lemma {:induction false} CheckpointsCounted(rows: seq<Row<Checkpoint>>, floor: Option<nat>)
    ensures |Filter(CheckpointEntries(rows, floor), IsCompact())| == |Filter(rows, LooseAgedCheckpoint(floor))|
    ensures |Filter(CheckpointEntries(rows, floor), IsBudgetCandidate())|
            == |Filter(rows, LooseCheckpoint(floor))| - |Filter(rows, LooseAgedCheckpoint(floor))|
    decreases |rows|
  {
    if rows != [] {
      var r, rest := rows[0], rows[1..];
      var e, es := CheckpointEntry(r, floor), CheckpointEntries(rest, floor);
      CheckpointsCounted(rest, floor);
      CheckpointCounted(r, floor);
      assert rows == [r] + rest && CheckpointEntries(rows, floor) == [e] + es;
      hide *;
      FilterStep(e, es, IsCompact());
      FilterStep(e, es, IsBudgetCandidate());
      FilterStep(r, rest, LooseCheckpoint(floor));
      FilterStep(r, rest, LooseAgedCheckpoint(floor));
    }
  }

  lemma ScannedCounted(st: State, limit: nat)
    ensures |Filter(ScannedEntries(st, limit), IsCompact())| == AgedScanned(st, limit)
    ensures |Filter(ScannedEntries(st, limit), IsBudgetCandidate())|
            == UnprotectedScanned(st, limit) - AgedScanned(st, limit)
  {
    hide EpisodicScan, CheckpointScan, NewestUsable, EpisodicEntries, CheckpointEntries, Filter;
    var floor := NewestUsable(st, limit);
    var a, b := EpisodicEntries(EpisodicScan(st, limit)), CheckpointEntries(CheckpointScan(st, limit), floor);
    EventsCounted(EpisodicScan(st, limit));
    CheckpointsCounted(CheckpointScan(st, limit), floor);
    FilterSum(a, b, IsCompact());
    FilterSum(a, b, IsBudgetCandidate());
  }

  function Among(chosen: seq<Entry>): Entry -> bool {
    (e: Entry) => e in chosen
  }

  lemma {:induction false} RecompactedCount(es: seq<Entry>, chosen: seq<Entry>)
    requires forall e :: e in chosen ==> !e.action.Compact?
    ensures |Filter(Recompact(es, chosen), IsCompact())| == |Filter(es, IsCompact())| + |Filter(es, Among(chosen))|
    decreases |es|
  {
    if es != [] {
      RecompactedCount(es[1..], chosen);
      assert Recompact(es, chosen)[1..] == Recompact(es[1..], chosen);
    }
  }

  lemma ChosenCount(es: seq<Entry>, chosen: seq<Entry>)
    requires EntriesOnce(es) && EntriesOnce(chosen) && forall e :: e in chosen ==> e in es
    ensures |Filter(es, Among(chosen))| == |chosen|
  {
    FilterOnce(es, Among(chosen));
    var found := Filter(es, Among(chosen));
    assert forall e :: e in found <==> e in chosen;
    assert Ids(found, EpisodicStore) == Ids(chosen, EpisodicStore);
    assert Ids(found, CheckpointStore) == Ids(chosen, CheckpointStore);
  }

  /** The entries a budget of "m" compacts besides the aged ones. */
  ghost function Chosen(es: seq<Entry>, persisted: nat, m: nat): seq<Entry> {
    var extra := persisted - m - |Filter(es, IsCompact())|;
    Take(SortEntries(Filter(es, IsBudgetCandidate())), if extra < 0 then 0 else extra)
  }

  lemma ChosenFacts(es: seq<Entry>, persisted: nat, m: nat)
    requires EntriesOnce(es)
    ensures var chosen, retained := Chosen(es, persisted, m), Filter(es, IsBudgetCandidate());
            && EntriesOnce(chosen) && chosen <= SortEntries(retained)
            && (forall e :: e in chosen ==> e in es && e.action.Retain? && !e.guarded)
            && var compact := |Filter(es, IsCompact())|;
               |chosen| == if persisted <= m + compact then 0 else Min(|retained|, persisted - m - compact)
    ensures Budgeted(es, persisted, Some(m)) == Recompact(es, Chosen(es, persisted, m))
  {
    hide EntriesOnce, SortEntries, Recompact;
    var retained := Filter(es, IsBudgetCandidate());
    FilterOnce(es, IsBudgetCandidate());
    SortedOnce(retained);
    SortKeeps(retained);
    BudgetCandidates(es);
    var extra := persisted - m - |Filter(es, IsCompact())|;
    hide Filter, IsBudgetCandidate, IsCompact;
    PrefixOnce(SortEntries(retained), if extra < 0 then 0 else extra);
    PrefixParts(SortEntries(retained), if extra < 0 then 0 else extra);
  }

  lemma BudgetCandidates(es: seq<Entry>)
    ensures forall e :: e in Filter(es, IsBudgetCandidate()) <==> e in es && e.action.Retain? && !e.guarded
  {
    forall e ensures IsBudgetCandidate()(e) <==> e.action.Retain? && !e.guarded {
    }
  }

  lemma PrefixParts(es: seq<Entry>, n: nat)
    ensures Take(es, n) <= es && |Take(es, n)| == Min(|es|, n) && forall e :: e in Take(es, n) ==> e in es
  {
  }

  /** With "a" aged rows, "u" unprotected ones and "n" rows in all, so many are to go. */
  function Due(a: nat, u: nat, n: nat, maxEntries: Option<nat>): nat {
    if maxEntries.None? || n <= maxEntries.value then a else Max(a, Min(u, n - maxEntries.value))
  }

  lemma CandidateCount(st: State, o: Options)
    requires ValidState(st)
    ensures |Candidates(st, o)|
            == Due(AgedScanned(st, o.maxScanRows), UnprotectedScanned(st, o.maxScanRows), Rows(st), o.maxEntries)
  {
    hide ScannedEntries, EntriesOnce, Recompact, SortEntries, Filter, AgedScanned, UnprotectedScanned, Chosen;
    var es, n := ScannedEntries(st, o.maxScanRows), Rows(st);
    ScannedCounted(st, o.maxScanRows);
    ScannedOnce(st, o.maxScanRows);
    if o.maxEntries.Some? {
      var chosen := Chosen(es, n, o.maxEntries.value);
      ChosenFacts(es, n, o.maxEntries.value);
      RecompactedCount(es, chosen);
      ChosenCount(es, chosen);
      hide Budgeted;
    }
    SortKeeps(Filter(Budgeted(es, n, o.maxEntries), IsCompact()));
  }

  // ----- How many rows go -----

  lemma SelectedHaveRows(st: State, o: Options)
    ensures forall id :: id in Ids(Selected(st, o), EpisodicStore) ==> exists r :: r in st.episodic && r.at.id == id
    ensures forall id :: id in Ids(Selected(st, o), CheckpointStore) ==>
      exists r :: r in st.checkpoints && r.at.id == id
  {
    hide Candidates, EpisodicScan, CheckpointScan, NewestUsable;
    var limit := o.maxScanRows;
    forall e | e in Selected(st, o)
      ensures e.store == EpisodicStore ==> exists r :: r in st.episodic && r.at.id == e.id
      ensures e.store == CheckpointStore ==> exists r :: r in st.checkpoints && r.at.id == e.id
    {
      assert e in Candidates(st, o);
      CandidateIsUnprotected(st, o, e);
      var x :| x in ScannedEntries(st, limit) && SameRow(x, e) && !x.guarded;
      ScannedHasRow(st, limit, x);
    }
  }

  lemma ScannedHasRow(st: State, limit: nat, e: Entry)
    requires e in ScannedEntries(st, limit)
    ensures e.store == EpisodicStore ==> exists r :: r in st.episodic && r.at.id == e.id
    ensures e.store == CheckpointStore ==> exists r :: r in st.checkpoints && r.at.id == e.id
  {
    hide EpisodicScan, CheckpointScan, NewestUsable;
    EpisodicEntriesOf(EpisodicScan(st, limit), e);
    CheckpointEntriesOf(CheckpointScan(st, limit), NewestUsable(st, limit), e);
    if e.store == EpisodicStore {
      var r :| r in EpisodicScan(st, limit) && e == EpisodicEntry(r);
      EpisodicScanIsPart(st, limit, r);
    } else {
      var r :| r in CheckpointScan(st, limit) && e == CheckpointEntry(r, NewestUsable(st, limit));
      CheckpointScanIsPart(st, limit, r);
    }
  }

  /** Each selected entry takes one row with it, and no other row goes. */
  lemma SelectedIsDeleted(st: State, o: Options)
    requires ValidState(st)
    ensures Rows(st) - Rows(Enforced(st, o)) == |Selected(st, o)|
  {
    hide Selected, NextEpisodicCursor, NextCheckpointCursor, NextFloorSearch, NewestUsable, Without, Ids;
    var ids, cids := Ids(Selected(st, o), EpisodicStore), Ids(Selected(st, o), CheckpointStore);
    SelectedHaveRows(st, o);
    CandidatesOnce(st, o);
    EachIdIsDeleted(st.episodic, ids);
    EachIdIsDeleted(st.checkpoints, cids);
    WithoutRemovesFew(st.episodic, ids);
    WithoutRemovesFew(st.checkpoints, cids);
  }

  /** One call deletes exactly as many rows as are due, up to the cap: all aged unprotected rows it
      scans, and under a budget as many unprotected ones as bring the tables down to it. */
  lemma DeletesWhatIsDue(st: State, o: Options)
    requires ValidState(st)
    ensures Rows(st) - Rows(Enforced(st, o))
            == Min(o.maxDeletes,
                   Due(AgedScanned(st, o.maxScanRows), UnprotectedScanned(st, o.maxScanRows), Rows(st), o.maxEntries))
  {
    hide Enforced, Candidates, AgedScanned, UnprotectedScanned, Due, Rows;
    CandidateCount(st, o);
    SelectedIsDeleted(st, o);
  }

  // ----- Which rows go -----

  /** The row of an entry is no longer in its table. */
  predicate Gone(st: State, e: Entry) {
    match e.store
    case EpisodicStore => forall r :: r in st.episodic ==> r.at.id != e.id
    case CheckpointStore => forall r :: r in st.checkpoints ==> r.at.id != e.id
  }

  lemma GoneIffSelected(st: State, o: Options, e: Entry)
    requires e in ScannedEntries(st, o.maxScanRows)
    ensures Gone(Enforced(st, o), e) <==> e.id in Ids(Selected(st, o), e.store)
  {
    hide Selected, ScannedEntries, Ids, NextEpisodicCursor, NextCheckpointCursor, NextFloorSearch, NewestUsable;
    ScannedHasRow(st, o.maxScanRows, e);
    var ids := Ids(Selected(st, o), e.store);
    if e.id !in ids {
      match e.store
      case EpisodicStore =>
        var r :| r in st.episodic && r.at.id == e.id;
        assert r in Enforced(st, o).episodic;
      case CheckpointStore =>
        var r :| r in st.checkpoints && r.at.id == e.id;
        assert r in Enforced(st, o).checkpoints;
    }
  }

  lemma PartsShareNoRow(a: seq<Entry>, b: seq<Entry>, x: Entry, y: Entry)
    requires EntriesOnce(a + b) && x in a && y in b
    ensures !SameRow(x, y)
  {
    PartsOnce(a, b);
    assert x.id in Ids(a, x.store) && y.id in Ids(b, y.store);
  }

  lemma OneEntryPerRow(es: seq<Entry>, a: Entry, b: Entry)
    requires EntriesOnce(es) && a in es && b in es && SameRow(a, b)
    ensures a == b
  {
    hide EntriesOnce, SameRow;
    var i :| 0 <= i < |es| && es[i] == a;
    var j :| 0 <= j < |es| && es[j] == b;
    if i < j {
      assert es == es[..j] + es[j..] && es[i] in es[..j] && es[j] in es[j..];
      PartsShareNoRow(es[..j], es[j..], a, b);
    } else if j < i {
      assert es == es[..i] + es[i..] && es[j] in es[..i] && es[i] in es[i..];
      assert SameRow(b, a) by { SameRowIsSymmetric(a, b); }
      PartsShareNoRow(es[..i], es[i..], b, a);
    }
  }

  lemma SameRowIsSymmetric(a: Entry, b: Entry)
    ensures SameRow(a, b) <==> SameRow(b, a)
  {
  }

  lemma OrderIgnoresAction(a: Entry, b: Entry)
    ensures ComesFirst(a.(action := Compact), b) <==> ComesFirst(a, b)
    ensures ComesFirst(a, b.(action := Compact)) <==> ComesFirst(a, b)
  {
  }

  /** Where a candidate comes from: an aged entry, or one the budget chose. */
  lemma CandidateOrigin(st: State, o: Options, x: Entry, e: Entry)
    requires ValidState(st) && x in ScannedEntries(st, o.maxScanRows)
    requires e in Candidates(st, o) && SameRow(x, e)
    ensures e == x.(action := Compact) && !x.guarded
    ensures x.action.Compact?
            || (o.maxEntries.Some? && x in Chosen(ScannedEntries(st, o.maxScanRows), Rows(st), o.maxEntries.value))
  {
    hide ScannedEntries, EntriesOnce, SortEntries, Chosen, Recompact;
    var es, n := ScannedEntries(st, o.maxScanRows), Rows(st);
    ScannedOnce(st, o.maxScanRows);
    SortKeeps(Filter(Budgeted(es, n, o.maxEntries), IsCompact()));
    if o.maxEntries.Some? {
      var chosen := Chosen(es, n, o.maxEntries.value);
      ChosenFacts(es, n, o.maxEntries.value);
      hide Budgeted;
      RecompactOf(es, chosen, e);
      if e in es {
        OneEntryPerRow(es, x, e);
        ScannedCompactIsUnprotected(st, o.maxScanRows, e);
      } else {
        var y :| y in es && y in chosen && e == y.(action := Compact);
        OneEntryPerRow(es, x, y);
      }
    } else {
      OneEntryPerRow(es, x, e);
      ScannedCompactIsUnprotected(st, o.maxScanRows, e);
    }
  }

  lemma {:induction false} RecompactHas(es: seq<Entry>, chosen: seq<Entry>, x: Entry)
    requires x in es
    ensures (if x in chosen then x.(action := Compact) else x) in Recompact(es, chosen)
    decreases |es|
  {
    if x != es[0] {
      RecompactHas(es[1..], chosen, x);
    }
  }

  lemma CompactIsCandidate(st: State, o: Options, e: Entry)
    requires e in Budgeted(ScannedEntries(st, o.maxScanRows), Rows(st), o.maxEntries) && e.action.Compact?
    ensures e in Candidates(st, o)
  {
    hide ScannedEntries, SortEntries, Budgeted;
    SortKeeps(Filter(Budgeted(ScannedEntries(st, o.maxScanRows), Rows(st), o.maxEntries), IsCompact()));
    assert IsCompact()(e);
  }

  lemma AgedOrChosenIsCandidate(st: State, o: Options, x: Entry)
    requires ValidState(st) && x in ScannedEntries(st, o.maxScanRows)
    requires x.action.Compact?
             || (o.maxEntries.Some? && x in Chosen(ScannedEntries(st, o.maxScanRows), Rows(st), o.maxEntries.value))
    ensures x.(action := Compact) in Candidates(st, o)
  {
    hide ScannedEntries, EntriesOnce, SortEntries, Chosen, Recompact, Candidates, Filter, IsCompact,
         IsBudgetCandidate, ValidState, Rows;
    var es, n := ScannedEntries(st, o.maxScanRows), Rows(st);
    ScannedOnce(st, o.maxScanRows);
    assert x.action.Compact? ==> x.(action := Compact) == x;
    if o.maxEntries.Some? {
      ChosenFacts(es, n, o.maxEntries.value);
      hide Budgeted;
      RecompactHas(es, Chosen(es, n, o.maxEntries.value), x);
      assert x in Chosen(es, n, o.maxEntries.value) ==> x.action.Retain?;
    }
    CompactIsCandidate(st, o, x.(action := Compact));
  }

  /** Of the retained rows the first in compaction order go: none is deleted while an unprotected scanned
      row before it stays. An aged row stays only if everything deleted comes before it. */
  lemma RetainedGoInOrder(st: State, o: Options, gone: Entry, left: Entry)
    requires ValidState(st) && gone in ScannedEntries(st, o.maxScanRows) && left in ScannedEntries(st, o.maxScanRows)
    requires Gone(Enforced(st, o), gone) && !Gone(Enforced(st, o), left)
    requires !left.guarded && (left.action.Compact? || (left.action.Retain? && gone.action.Retain?))
    ensures ComesFirst(gone, left)
  {
    hide ScannedEntries, EntriesOnce, SortEntries, Chosen, Enforced, Candidates, Gone, ComesFirst, Filter;
    var es, n := ScannedEntries(st, o.maxScanRows), Rows(st);
    GoneIffSelected(st, o, gone);
    GoneIffSelected(st, o, left);
    var e :| e in Selected(st, o) && SameRow(gone, e);
    assert e in Candidates(st, o);
    CandidateOrigin(st, o, gone, e);
    OrderIgnoresAction(gone, left);
    OrderIgnoresAction(gone.(action := Compact), left);
    if left.action.Compact? || left in Chosen(es, n, o.maxEntries.value) {
      AgedOrChosenIsCandidate(st, o, left);
      SelectionIsFirstInOrder(st, o, e, left.(action := Compact));
    } else {
      var retained := Filter(es, IsBudgetCandidate());
      ScannedOnce(st, o.maxScanRows);
      ChosenFacts(es, n, o.maxEntries.value);
      BudgetCandidates(es);
      SortOrders(retained);
      SortKeeps(retained);
      PrefixComesFirst(SortEntries(retained), Chosen(es, n, o.maxEntries.value), gone, left);
    }
  }

  lemma PrefixComesFirst(all: seq<Entry>, some: seq<Entry>, gone: Entry, left: Entry)
    requires InCompactionOrder(all) && some <= all && gone in some && left in all && left !in some
    ensures ComesFirst(gone, left)
  {
    hide ComesFirst;
    var i :| 0 <= i < |some| && some[i] == gone;
    var j :| 0 <= j < |all| && all[j] == left;
    NotInPrefix(all, some, j);
    assert all[i] == gone;
  }

  // ----- Compaction order -----

  predicate Older(a: Option<nat>, b: Option<nat>) {
    a.Some? && (b.None? || a.value > b.value)
  }

  /** Any two entries are ordered, consistently: higher priority first, then the older, unknown ages
      last, then checkpoints, then the smaller id. */
  lemma CompactionOrder(a: Entry, b: Entry, c: Entry)
    ensures ComesFirst(a, b) || ComesFirst(b, a)
    ensures ComesFirst(a, b) && ComesFirst(b, c) ==> ComesFirst(a, c)
    ensures var pa, pb := PolicyOf(a.kind).compactPriority, PolicyOf(b.kind).compactPriority;
            && (pa > pb ==> !ComesFirst(b, a))
            && (pa == pb && Older(a.ageMs, b.ageMs) ==> !ComesFirst(b, a))
            && (pa == pb && a.ageMs == b.ageMs && a.store == CheckpointStore && b.store == EpisodicStore ==>
                 !ComesFirst(b, a))
            && (pa == pb && a.ageMs == b.ageMs && a.store == b.store && a.id < b.id ==> !ComesFirst(b, a))
  {
  }
}
