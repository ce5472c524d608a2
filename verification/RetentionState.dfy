/** Memory retention: the bounded wrap-around scan, the decisions it takes and what one enforcement
    does to the tables and to the scan position. */
module RetentionState {
  import opened Wrappers

  const DAY_MS: int := 86_400_000
  const MAX_DELETES: nat := 1_000
  const MAX_SCAN_ROWS: nat := 10_000
  const CHECKPOINT_BATCH: nat := 100

  // ----- Rows in scan order -----

  /** Where a row stands in the scan: creation time first, then row id. */
  datatype Position = Position(createdAt: int, id: nat)

  predicate Less(a: Position, b: Position) {
    a.createdAt < b.createdAt || (a.createdAt == b.createdAt && a.id < b.id)
  }

  datatype Row<T> = Row(at: Position, data: T)

  predicate ScanOrdered<T>(rows: seq<Row<T>>) {
    forall i, j :: 0 <= i < j < |rows| ==> Less(rows[i].at, rows[j].at)
  }

  function Take<T>(s: seq<T>, n: nat): seq<T> {
    if n < |s| then s[..n] else s
  }

  function Filter<T>(s: seq<T>, p: T -> bool): (r: seq<T>)
    ensures |r| <= |s|
    ensures forall x :: x in r ==> x in s && p(x)
    ensures forall x :: x in s && p(x) ==> x in r
  {
    if s == [] then [] else (if p(s[0]) then [s[0]] else []) + Filter(s[1..], p)
  }

  function AppendSelected<T>(acc: seq<Row<T>>, rows: seq<Row<T>>, p: Row<T> -> bool, limit: nat): seq<Row<T>> {
    if |acc| < limit then acc + Take(Filter(rows, p), limit - |acc|) else acc
  }

  function SameTimeAfter<T>(c: Position): Row<T> -> bool {
    (r: Row<T>) => r.at.createdAt == c.createdAt && r.at.id > c.id
  }

  function Later<T>(c: Position): Row<T> -> bool {
    (r: Row<T>) => r.at.createdAt > c.createdAt
  }

  function Earlier<T>(c: Position): Row<T> -> bool {
    (r: Row<T>) => r.at.createdAt < c.createdAt
  }

  function SameTimeBefore<T>(c: Position): Row<T> -> bool {
    (r: Row<T>) => r.at.createdAt == c.createdAt && r.at.id < c.id
  }

  /** The four range queries of one bounded scan, each limited to what is left of the budget. */
  function KeysetWindow<T>(rows: seq<Row<T>>, c: Position, limit: nat): seq<Row<T>> {
    var first := AppendSelected([], rows, SameTimeAfter(c), limit);
    var second := AppendSelected(first, rows, Later(c), limit);
    var third := AppendSelected(second, rows, Earlier(c), limit);
    AppendSelected(third, rows, SameTimeBefore(c), limit)
  }

  // ----- Decisions -----

  datatype MemoryClass =
    | UserPreference | LearnedProcedure | AuditRecord | ProjectConvention
    | EnvironmentFact | Uncategorized | TransientObservation | TemporaryOperational

  datatype Policy = Policy(retentionDays: Option<int>, compactPriority: int, guarded: bool)

  function PolicyOf(c: MemoryClass): Policy {
    match c
    case UserPreference => Policy(None, 0, true)
    case LearnedProcedure => Policy(Some(365), 10, false)
    case AuditRecord => Policy(None, 0, true)
    case ProjectConvention => Policy(Some(365), 20, false)
    case EnvironmentFact => Policy(Some(180), 30, false)
    case Uncategorized => Policy(Some(30), 60, false)
    case TransientObservation => Policy(Some(7), 80, false)
    case TemporaryOperational => Policy(Some(1), 100, false)
  }

  datatype Action = Protect | Compact | Retain

  /** The decision for an entry without an expiry of its own. */
  function RetentionAction(policy: Policy, ageMs: Option<nat>): Action {
    if policy.guarded then Protect
    else if policy.retentionDays.Some? && ageMs.Some? && ageMs.value >= policy.retentionDays.value * DAY_MS then Compact
    else Retain
  }

  /** An episodic event as the fixed clock sees it. */
  datatype Episode = Episode(kind: MemoryClass, ageMs: Option<nat>, coolingDown: bool)

  datatype Checkpoint = Checkpoint(parses: bool, state: string, ageMs: Option<nat>)

  datatype Store = CheckpointStore | EpisodicStore

  datatype Entry = Entry(store: Store, id: nat, kind: MemoryClass, action: Action, guarded: bool, ageMs: Option<nat>)

  function EpisodicEntry(r: Row<Episode>): Entry {
    var policy := PolicyOf(r.data.kind);
    Entry(EpisodicStore, r.at.id, r.data.kind,
          if r.data.coolingDown then Protect else RetentionAction(policy, r.data.ageMs),
          policy.guarded || r.data.coolingDown, r.data.ageMs)
  }

  /** A checkpoint is kept when it is the rollback floor, and all are kept while no floor is known. */
  function CheckpointEntry(r: Row<Checkpoint>, floor: Option<nat>): Entry {
    var kept := floor.None? || floor.value == r.at.id;
    Entry(CheckpointStore, r.at.id, TransientObservation,
          if kept then Protect else RetentionAction(PolicyOf(TransientObservation), r.data.ageMs),
          kept, r.data.ageMs)
  }

  /** Compaction order: priority, then age, then store, then id. */
  predicate ComesFirst(a: Entry, b: Entry) {
    var pa, pb := PolicyOf(a.kind).compactPriority, PolicyOf(b.kind).compactPriority;
    var ga, gb := if a.ageMs.Some? then a.ageMs.value else -1, if b.ageMs.Some? then b.ageMs.value else -1;
    if pa != pb then pa > pb
    else if ga != gb then ga > gb
    else if a.store != b.store then a.store.CheckpointStore?
    else a.id <= b.id
  }

  function InsertEntry(e: Entry, es: seq<Entry>): seq<Entry> {
    if es == [] || ComesFirst(e, es[0]) then [e] + es else [es[0]] + InsertEntry(e, es[1..])
  }

  function SortEntries(es: seq<Entry>): seq<Entry> {
    if es == [] then [] else InsertEntry(es[0], SortEntries(es[1..]))
  }

  // ----- One enforcement -----

  datatype State = State(
    episodic: seq<Row<Episode>>,        // in scan order
    checkpoints: seq<Row<Checkpoint>>,  // in id order
    episodicCursor: Option<Position>,
    checkpointCursor: Option<Position>,
    floorSearch: Option<nat>,
    floor: Option<nat>)

  datatype Options = Options(maxDeletes: nat, maxScanRows: nat, maxEntries: Option<nat>)

  predicate ValidOptions(o: Options) {
    && 1 <= o.maxDeletes <= MAX_DELETES
    && 1 <= o.maxScanRows <= MAX_SCAN_ROWS
    && (o.maxEntries.Some? ==> 1 <= o.maxEntries.value)
  }

  predicate IdOrdered(rows: seq<Row<Checkpoint>>) {
    forall i, j :: 0 <= i < j < |rows| ==> rows[i].at.id < rows[j].at.id
  }

  predicate DistinctIds<T>(rows: seq<Row<T>>) {
    forall i, j :: 0 <= i < j < |rows| ==> rows[i].at.id != rows[j].at.id
  }

  predicate ValidState(st: State) {
    ScanOrdered(st.episodic) && DistinctIds(st.episodic) && IdOrdered(st.checkpoints)
  }

  /** One bounded scan: from the cursor on and around, or from the beginning. */
  function ScanFrom<T>(rows: seq<Row<T>>, cursor: Option<Position>, limit: nat): seq<Row<T>> {
    match cursor
    case Some(c) => KeysetWindow(rows, c, limit)
    case None => Take(rows, limit)
  }

  function EpisodicScan(st: State, limit: nat): seq<Row<Episode>> {
    ScanFrom(st.episodic, st.episodicCursor, limit)
  }

  function InsertByPosition(r: Row<Checkpoint>, rows: seq<Row<Checkpoint>>): seq<Row<Checkpoint>> {
    if rows == [] || Less(r.at, rows[0].at) then [r] + rows else [rows[0]] + InsertByPosition(r, rows[1..])
  }

  /** The checkpoints by creation time and id. */
  function ByPosition(rows: seq<Row<Checkpoint>>): seq<Row<Checkpoint>> {
    if rows == [] then [] else InsertByPosition(rows[0], ByPosition(rows[1..]))
  }

  function Reverse<T>(s: seq<T>): seq<T> {
    if s == [] then [] else Reverse(s[1..]) + [s[0]]
  }

  function Parses(): Row<Checkpoint> -> bool {
    (r: Row<Checkpoint>) => r.data.parses
  }

  function HasId<T>(id: nat): Row<T> -> bool {
    (r: Row<T>) => r.at.id == id
  }

  /** The cached rollback floor, if its row is still there and still parses. */
  function TrustedFloor(st: State): Option<nat> {
    if st.floor.Some? && Filter(Filter(st.checkpoints, HasId(st.floor.value)), Parses()) != [] then st.floor else None
  }

  function BelowId<T>(id: nat): Row<T> -> bool {
    (r: Row<T>) => r.at.id < id
  }

  function CheckpointScan(st: State, limit: nat): seq<Row<Checkpoint>> {
    if TrustedFloor(st).None? then
      match st.floorSearch
      case Some(id) => Take(Reverse(Filter(st.checkpoints, BelowId(id))), limit)
      case None => Take(Reverse(st.checkpoints), limit)
    else ScanFrom(ByPosition(st.checkpoints), st.checkpointCursor, limit)
  }

  function MaxId(rows: seq<Row<Checkpoint>>, floor: Option<nat>): Option<nat> {
    if rows == [] then floor
    else if rows[0].data.parses && (floor.None? || rows[0].at.id > floor.value) then
      MaxId(rows[1..], Some(rows[0].at.id))
    else MaxId(rows[1..], floor)
  }

  /** The newest usable checkpoint the scan knows of. */
  function NewestUsable(st: State, limit: nat): Option<nat> {
    MaxId(CheckpointScan(st, limit), TrustedFloor(st))
  }

  function EpisodicEntries(rows: seq<Row<Episode>>): seq<Entry> {
    if rows == [] then [] else [EpisodicEntry(rows[0])] + EpisodicEntries(rows[1..])
  }

  function CheckpointEntries(rows: seq<Row<Checkpoint>>, floor: Option<nat>): seq<Entry> {
    if rows == [] then [] else [CheckpointEntry(rows[0], floor)] + CheckpointEntries(rows[1..], floor)
  }

  function ScannedEntries(st: State, limit: nat): seq<Entry> {
    EpisodicEntries(EpisodicScan(st, limit)) + CheckpointEntries(CheckpointScan(st, limit), NewestUsable(st, limit))
  }

  function IsCompact(): Entry -> bool {
    (e: Entry) => e.action.Compact?
  }

  function IsBudgetCandidate(): Entry -> bool {
    (e: Entry) => !e.guarded && e.action.Retain?
  }

  function Recompact(es: seq<Entry>, chosen: seq<Entry>): seq<Entry> {
    if es == [] then []
    else [if es[0] in chosen then es[0].(action := Compact) else es[0]] + Recompact(es[1..], chosen)
  }

  /** Over an entry budget, retained entries are compacted too, in compaction order. */
  function Budgeted(es: seq<Entry>, persisted: nat, maxEntries: Option<nat>): seq<Entry> {
    if maxEntries.None? then es
    else
      var extra := persisted - maxEntries.value - |Filter(es, IsCompact())|;
      Recompact(es, Take(SortEntries(Filter(es, IsBudgetCandidate())), if extra < 0 then 0 else extra))
  }

  /** Every compaction candidate of the scan, first candidates first. */
  function Candidates(st: State, o: Options): seq<Entry> {
    SortEntries(Filter(
      Budgeted(ScannedEntries(st, o.maxScanRows), |st.episodic| + |st.checkpoints|, o.maxEntries), IsCompact()))
  }

  function Selected(st: State, o: Options): seq<Entry> {
    Take(Candidates(st, o), o.maxDeletes)
  }

  function Ids(es: seq<Entry>, store: Store): set<nat> {
    set e | e in es && e.store == store :: e.id
  }

  function PendingIds(st: State, o: Options, store: Store): set<nat> {
    Ids(Candidates(st, o), store) - Ids(Selected(st, o), store)
  }

  /** The index of the first row whose id is in "ids", or the number of rows. */
  function FirstIndex<T>(rows: seq<Row<T>>, ids: set<nat>): (i: nat)
    ensures i <= |rows|
    ensures i < |rows| ==> rows[i].at.id in ids
    ensures forall j :: 0 <= j < i ==> rows[j].at.id !in ids
  {
    if rows == [] || rows[0].at.id in ids then 0 else 1 + FirstIndex(rows[1..], ids)
  }

  /** The next scan resumes after the last row read, or just before the first candidate left over. */
  function NextEpisodicCursor(st: State, o: Options): Option<Position> {
    var rows := EpisodicScan(st, o.maxScanRows);
    var first := FirstIndex(rows, PendingIds(st, o, EpisodicStore));
    if first == |rows| then (if rows == [] then None else Some(rows[|rows| - 1].at))
    else if first == 0 then st.episodicCursor
    else Some(rows[first - 1].at)
  }

  function NextCheckpointCursor(st: State, o: Options): Option<Position> {
    var rows := CheckpointScan(st, o.maxScanRows);
    if TrustedFloor(st).None? then
      var newest := NewestUsable(st, o.maxScanRows);
      var found := if newest.None? then [] else Filter(rows, HasId(newest.value));
      if found == [] then None else Some(found[0].at)
    else
      var first := FirstIndex(rows, PendingIds(st, o, CheckpointStore));
      if first == |rows| then (if rows == [] then None else Some(rows[|rows| - 1].at))
      else if first == 0 then None
      else Some(rows[first - 1].at)
  }

  function NextFloorSearch(st: State, o: Options): Option<nat> {
    var rows := CheckpointScan(st, o.maxScanRows);
    if NewestUsable(st, o.maxScanRows).None? && TrustedFloor(st).None? && |rows| == o.maxScanRows && rows != []
    then Some(rows[|rows| - 1].at.id) else None
  }

  function Without<T>(rows: seq<Row<T>>, ids: set<nat>): seq<Row<T>> {
    Filter(rows, (r: Row<T>) => r.at.id !in ids)
  }

  function Enforced(st: State, o: Options): State {
    State(
      Without(st.episodic, Ids(Selected(st, o), EpisodicStore)),
      Without(st.checkpoints, Ids(Selected(st, o), CheckpointStore)),
      NextEpisodicCursor(st, o), NextCheckpointCursor(st, o), NextFloorSearch(st, o), NewestUsable(st, o.maxScanRows))
  }

  /** What lastCheckpoint answers: the newest checkpoint that parses. */
  function LastUsable(rows: seq<Row<Checkpoint>>): Option<Row<Checkpoint>> {
    var usable := Filter(rows, Parses());
    if usable == [] then None else Some(usable[|usable| - 1])
  }
}
