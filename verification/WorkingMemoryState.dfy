/** The state of one write-back working-memory cache, the shared table behind it, and what a flush
    is specified to do to both. */
module WorkingMemoryState {
  import opened Wrappers
  import opened DeletionGuards

  const MAX_WORKING_MEMORY_KEY_BYTES: nat := 1024
  const MAX_SAFE_INTEGER: int := 9_007_199_254_740_991

  /** A JSON value, known by the text it serialises to, the text selectors search in it, and the
      expiry it carries when it is a temporary-operational value. */
  datatype Json = Json(text: string, search: string, expiresAt: Option<int>)

  predicate Expired(v: Json, now: int) {
    v.expiresAt.Some? && v.expiresAt.value <= now
  }

  type Rows = map<string, Json>

  datatype Limits = Limits(maxEntries: nat, maxValueBytes: nat, maxTotalBytes: nat)

  datatype Failure = InvalidKey | NotSerialisable | LimitExceeded | Guarded | AuditFailed | InsertFailed

  datatype Cache = Cache(
    store: Rows,
    sizes: map<string, int>,
    serialized: Rows,
    persisted: Rows,
    dirty: set<string>,
    deleted: set<string>,
    replace: bool,
    totalBytes: int)

  // ----- Sizes -----

  function Utf8Bytes(s: string): nat {
    if s == "" then 0 else
      var n := s[0] as int;
      (if n < 0x80 then 1 else if n < 0x800 then 2 else if n < 0x10000 then 3 else 4) + Utf8Bytes(s[1..])
  }

  predicate ValidKey(key: string) {
    && key != ""
    && (forall i :: 0 <= i < |key| ==> ' ' <= key[i] && !(0x7F <= key[i] as int < 0xA0))
    && Utf8Bytes(key) <= MAX_WORKING_MEMORY_KEY_BYTES
  }

  function EntrySize(key: string, v: Json): nat {
    Utf8Bytes(key) + Utf8Bytes(v.text)
  }

  /** prepareEntry accepts the entry. */
  predicate Preparable(limits: Limits, key: string, v: Json) {
    ValidKey(key) && Utf8Bytes(v.text) <= limits.maxValueBytes
  }

  ghost function Total(rows: Rows): (n: nat) {
    if rows == map[] then 0 else
      var k :| k in rows;
      EntrySize(k, rows[k]) + Total(rows - {k})
  }

  /** The total can be computed by taking any key first. */
  lemma {:induction false} TotalRemove(rows: Rows, k: string)
    requires k in rows
    ensures Total(rows) == EntrySize(k, rows[k]) + Total(rows - {k})
    decreases |rows|
  {
    hide EntrySize;
    var j :| j in rows && Total(rows) == EntrySize(j, rows[j]) + Total(rows - {j});
    if j != k {
      TotalRemove(rows - {j}, k);
      TotalRemove(rows - {k}, j);
      assert rows - {j} - {k} == rows - {k} - {j};
    }
  }

  lemma TotalOfNothing()
    ensures Total(map[]) == 0
  {
  }

  lemma TotalInsert(rows: Rows, k: string, v: Json)
    ensures Total(rows[k := v]) == Total(rows - {k}) + EntrySize(k, v)
  {
    hide EntrySize;
    TotalRemove(rows[k := v], k);
    assert rows[k := v] - {k} == rows - {k};
  }

  lemma TotalWithout(rows: Rows, k: string)
    ensures Total(rows - {k}) == Total(rows) - (if k in rows then EntrySize(k, rows[k]) else 0)
  {
    hide EntrySize;
    if k in rows {
      TotalRemove(rows, k);
    } else {
      assert rows - {k} == rows;
    }
  }

  // ----- Cache invariants -----

  ghost function SizeMap(rows: Rows): map<string, int> {
    map k | k in rows :: EntrySize(k, rows[k])
  }

  lemma SizeMapUpdates(rows: Rows, k: string, v: Json)
    ensures k in rows ==> k in SizeMap(rows) && SizeMap(rows)[k] == EntrySize(k, rows[k])
    ensures k !in rows ==> k !in SizeMap(rows)
    ensures SizeMap(rows - {k}) == SizeMap(rows) - {k}
    ensures SizeMap(rows[k := v]) == SizeMap(rows)[k := EntrySize(k, v)]
  {
    hide EntrySize;
  }

  /** The accounting every operation keeps, failing ones included. */
  ghost predicate Accounted(c: Cache, limits: Limits) {
    && c.serialized == c.store
    && c.sizes == SizeMap(c.store)
    && c.totalBytes == Total(c.store)
    && c.dirty <= c.store.Keys
    && c.deleted !! c.store.Keys
    && forall k :: k in c.store ==> Preparable(limits, k, c.store[k])
  }

  lemma EmptySizeMap()
    ensures SizeMap(map[]) == map[]
  {
  }

  lemma AccountedFields(c: Cache, limits: Limits)
    requires Accounted(c, limits)
    ensures c.serialized == c.store && c.sizes == SizeMap(c.store) && c.totalBytes == Total(c.store)
    ensures c.dirty <= c.store.Keys && c.deleted !! c.store.Keys
  {
  }

  ghost predicate WithinLimits(c: Cache, limits: Limits) {
    |c.store| <= limits.maxEntries && c.totalBytes <= limits.maxTotalBytes
  }

  /** The cached persisted view explains the pending changes: only persisted keys wait for
      deletion, and a clean key holds its persisted value. */
  ghost predicate InStep(c: Cache) {
    && c.deleted <= c.persisted.Keys
    && forall k :: k in c.store && k !in c.dirty ==> k in c.persisted && c.persisted[k] == c.store[k]
  }

  // ----- TTL expiry of runtime keys -----

  ghost function ExpiredKeys(rows: Rows, now: int): set<string> {
    set k | k in rows && Expired(rows[k], now)
  }

  /** An expired entry gives way to a live row another writer left under the same key. */
  predicate Superseded(table: Rows, k: string, v: Json, now: int) {
    k in table && table[k] != v && !Expired(table[k], now)
  }

  function TableWithoutExpired(table: Rows, key: string, v: Json): Rows {
    if key in table && table[key] == v then table - {key} else table
  }

  /** The entry and everything pending about it forgotten. */
  ghost function Dropped(c: Cache, key: string): Cache {
    var store := c.store - {key};
    c.(store := store, serialized := store, sizes := SizeMap(store), totalBytes := Total(store),
       dirty := c.dirty - {key}, deleted := c.deleted - {key})
  }

  /** A clean entry taken over from the persisted view. */
  ghost function Adopted(c: Cache, key: string, v: Json): Cache {
    var store := c.store[key := v];
    c.(store := store, serialized := store, sizes := SizeMap(store), totalBytes := Total(store))
  }

  /** The persisted view of one key refreshed from the table. */
  ghost function Viewed(c: Cache, key: string, table: Rows): Cache {
    c.(persisted := if key in table then c.persisted[key := table[key]] else c.persisted - {key})
  }

  /** One expired runtime entry handled against the table. */
  ghost function WithoutExpired(c: Cache, table: Rows, key: string, now: int): Cache
    requires key in c.store
  {
    var dropped := Viewed(Dropped(c, key), key, TableWithoutExpired(table, key, c.store[key]));
    if Superseded(table, key, c.store[key], now) then Adopted(dropped, key, table[key]) else dropped
  }

  // The runtime keys "gone" among those of "c" have been found expired, in any order.

  ghost function SweptStore(c: Cache, table: Rows, gone: set<string>, now: int): Rows {
    map k | k in c.store && (k in gone ==> Superseded(table, k, c.store[k], now))
      :: if k in gone then table[k] else c.store[k]
  }

  ghost function SweptTable(c: Cache, table: Rows, gone: set<string>): Rows {
    map k | k in table && !(k in c.store && k in gone && table[k] == c.store[k]) :: table[k]
  }

  ghost function SweptPersisted(c: Cache, table: Rows, gone: set<string>): Rows {
    var after := SweptTable(c, table, gone);
    map k | k in c.persisted.Keys + after.Keys && (if k in gone then k in after else k in c.persisted)
      :: if k in gone then after[k] else c.persisted[k]
  }

  ghost function Swept(c: Cache, table: Rows, gone: set<string>, now: int): Cache {
    var store := SweptStore(c, table, gone, now);
    c.(store := store, serialized := store, sizes := SizeMap(store), totalBytes := Total(store),
       persisted := SweptPersisted(c, table, gone), dirty := c.dirty - gone, deleted := c.deleted - gone)
  }

  /** A superseding row of another writer is too large for this cache to take over. */
  ghost predicate SweepFails(c: Cache, limits: Limits, table: Rows, now: int) {
    exists k :: k in c.store && Expired(c.store[k], now)
      && Superseded(table, k, c.store[k], now) && !Preparable(limits, k, table[k])
  }

  // ----- Local changes -----

  /** One entry stored: it is dirty unless the cached persisted view already holds it. */
  ghost function WithEntry(c: Cache, key: string, v: Json): Cache {
    var store := c.store[key := v];
    c.(store := store, serialized := store, sizes := SizeMap(store), totalBytes := Total(store),
       dirty := if key in c.persisted && c.persisted[key] == v then c.dirty - {key} else c.dirty + {key},
       deleted := c.deleted - {key})
  }

  /** What a store whose audit record fails is rolled back to: the key as it was in "before", the
      rest as the expiry sweep left it, and the byte count of "before". */
  ghost function SetRolledBack(before: Cache, swept: Cache, key: string): Cache {
    var store := if key in before.store then swept.store[key := before.store[key]] else swept.store - {key};
    Cache(store, SizeMap(store), store, swept.persisted,
          if key in before.dirty then swept.dirty + {key} else swept.dirty - {key},
          if key in before.deleted then swept.deleted + {key} else swept.deleted - {key},
          swept.replace, before.totalBytes)
  }

  ghost function WithoutEntry(c: Cache, key: string): Cache {
    var store := c.store - {key};
    c.(store := store, serialized := store, sizes := SizeMap(store), totalBytes := Total(store),
       dirty := c.dirty - {key},
       deleted := if key in c.persisted then c.deleted + {key} else c.deleted - {key})
  }

  /** The keys whose value the persisted view does not hold. */
  function Unpersisted(rows: Rows, persisted: Rows): set<string> {
    set k | k in rows && !(k in persisted && persisted[k] == rows[k])
  }

  /** One entry stored and persisted at once. */
  ghost function Persisted(c: Cache, key: string, v: Json): Cache {
    WithEntry(c, key, v).(persisted := c.persisted[key := v], dirty := c.dirty - {key})
  }

  /** One entry gone from the cache and from its persisted view. */
  ghost function Erased(c: Cache, key: string): Cache {
    Dropped(c, key).(persisted := c.persisted - {key})
  }

  /** The whole store replaced: every other persisted key waits for deletion. */
  ghost function Restored(c: Cache, rows: Rows): Cache {
    Cache(rows, SizeMap(rows), rows, c.persisted,
          Unpersisted(rows, c.persisted),
          c.persisted.Keys - rows.Keys, true, Total(rows))
  }

  /** The entries of a snapshot that serialise. */
  function SnapshotRows(snap: map<string, Option<Json>>): Rows {
    map k | k in snap && snap[k].Some? :: snap[k].value
  }

  /** The whole snapshot passes every check restore makes before it changes anything. */
  ghost predicate SnapshotFits(limits: Limits, g: Guards, snap: map<string, Option<Json>>) {
    && |snap| <= limits.maxEntries
    && (forall k :: k in snap ==>
          snap[k].Some? && Preparable(limits, k, snap[k].value) && !WorkingRefused(g, k, snap[k].value.search))
    && Total(SnapshotRows(snap)) <= limits.maxTotalBytes
    && Total(SnapshotRows(snap)) <= MAX_SAFE_INTEGER
  }

  /** The store has room for the entry. */
  ghost predicate HasRoom(c: Cache, limits: Limits, key: string, v: Json) {
    && (key in c.store || |c.store| < limits.maxEntries)
    && Total(c.store - {key}) + EntrySize(key, v) <= limits.maxTotalBytes
    && Total(c.store - {key}) + EntrySize(key, v) <= MAX_SAFE_INTEGER
  }

  // ----- Flush -----

  /** What a flush starts from: the local store when it replaces the table, otherwise the local
      changes over the current rows. */
  ghost function Candidate(c: Cache, table: Rows, now: int): Rows {
    if c.replace then c.store else
      map k | k in c.store.Keys + table.Keys && IsIncremental(c, table, now, k)
        :: if k in c.dirty || k in c.deleted then c.store[k] else table[k]
  }

  ghost predicate IsIncremental(c: Cache, table: Rows, now: int, k: string) {
    if k in c.dirty || k in c.deleted then k in c.store else k in table && !Expired(table[k], now)
  }

  /** The value prepared for one candidate key, if any. */
  ghost function PreparedValue(table: Rows, g: Guards, now: int, k: string, v: Json): Option<Json> {
    if Expired(v, now) then
      if Superseded(table, k, v, now) then Some(table[k]) else None
    else if WorkingRefused(g, k, v.search) then
      if k in table && !WorkingRefused(g, k, table[k].search) then Some(table[k]) else None
    else Some(v)
  }

  ghost function Prepared(cand: Rows, table: Rows, g: Guards, now: int): Rows {
    map k | k in cand && PreparedValue(table, g, now, k, cand[k]).Some?
      :: PreparedValue(table, g, now, k, cand[k]).value
  }

  /** Expired rows the flush removes: those equal to an expired candidate. */
  ghost function Live(cand: Rows, table: Rows, now: int): Rows {
    map k | k in table && !(k in cand && Expired(cand[k], now) && table[k] == cand[k]) :: table[k]
  }

  /** The table while the candidates in "todo" have not been looked at. */
  ghost function LiveSoFar(cand: Rows, table: Rows, todo: set<string>, now: int): Rows {
    map k | k in table && !(k in cand && k !in todo && Expired(cand[k], now) && table[k] == cand[k]) :: table[k]
  }

  /** prepareEntry accepts whatever the flush serialises for one candidate key. */
  ghost predicate EntryFits(limits: Limits, table: Rows, g: Guards, now: int, k: string, v: Json) {
    && (!Expired(v, now) ==> Preparable(limits, k, v))
    && var p := PreparedValue(table, g, now, k, v);
       p.Some? ==> Preparable(limits, k, p.value)
  }

  /** Each entry the flush serialises passes prepareEntry. */
  ghost predicate PreparedFits(limits: Limits, cand: Rows, table: Rows, g: Guards, now: int) {
    && (forall k :: k in table ==> ValidKey(k))
    && (forall k :: k in cand ==> EntryFits(limits, table, g, now, k, cand[k]))
    && |Prepared(cand, table, g, now)| <= limits.maxEntries
    && Total(Prepared(cand, table, g, now)) <= limits.maxTotalBytes
    && Total(Prepared(cand, table, g, now)) <= MAX_SAFE_INTEGER
  }

  /** The cache between refreshing its view and writing the changes. */
  ghost function Refreshed(c: Cache, table: Rows, g: Guards, now: int): Cache {
    var cand := Candidate(c, table, now);
    var store := Prepared(cand, table, g, now);
    var live := Live(cand, table, now);
    Cache(store, SizeMap(store), store, live,
          Unpersisted(store, live),
          (if c.replace then live.Keys else c.deleted * live.Keys) - store.Keys,
          c.replace, Total(store))
  }

  predicate NothingPending(c: Cache) {
    c.dirty == {} == c.deleted
  }

  /** The rows once the pending deletions and changes of a cache are written. */
  ghost function Written(c: Cache, table: Rows): Rows {
    (table - c.deleted) + (map k | k in c.dirty && k in c.store :: c.store[k])
  }

  ghost function FlushedTable(c: Cache, table: Rows, g: Guards, now: int): Rows {
    var r := Refreshed(c, table, g, now);
    Written(r, r.persisted)
  }

  ghost function Settled(c: Cache): Cache {
    c.(persisted := Written(c, c.persisted), dirty := {}, deleted := {}, replace := false)
  }

  ghost function FlushedCache(c: Cache, table: Rows, g: Guards, now: int): Cache {
    Settled(Refreshed(c, table, g, now))
  }

  /** Provenance rows follow their keys: a key written or deleted by a flush loses its record. */
  ghost function FlushedProvenance(c: Cache, table: Rows, provenance: set<string>, g: Guards, now: int): set<string> {
    var r := Refreshed(c, table, g, now);
    provenance - r.deleted - r.dirty
  }
}
