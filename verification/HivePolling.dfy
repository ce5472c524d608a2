/** Chained polls against a log that other processes keep changing. */
module HivePolling {
  import opened Wrappers
  import opened HiveMindStore

  /** One reader: the shared log, the last id it has seen, and what it has been given so far. */
  datatype Reader = Reader(log: Log, cursor: nat, delivered: seq<Entry>)

  datatype Event =
    | PublishEntry(namespace: string, publisher: Publisher, kind: Kind, payload: string, max: nat)
    | RemoveEntries(ids: set<nat>)
    | MigrateNamespace(namespace: string)
    | PollNext(limit: nat)

  function Batch(f: Filter, r: Reader, limit: nat): seq<Entry> {
    Polled(r.log.entries, f, r.cursor, limit)
  }

  function After(f: Filter, r: Reader, event: Event): Reader {
    match event
    case PublishEntry(namespace, publisher, kind, payload, max) =>
      r.(log := Published(r.log, namespace, publisher, kind, payload, max))
    case RemoveEntries(ids) => r.(log := Removed(r.log, ids))
    case MigrateNamespace(namespace) => r.(log := Migrated(r.log, namespace, true))
    case PollNext(limit) =>
      var batch := Batch(f, r, limit);
      r.(cursor := if batch == [] then r.cursor else batch[|batch| - 1].id, delivered := r.delivered + batch)
  }

  function AfterAll(f: Filter, r: Reader, events: seq<Event>): Reader
    decreases |events|
  {
    if events == [] then r else AfterAll(f, After(f, r, events[0]), events[1..])
  }

  /** Delivered in id order, only what the filter admits, and nothing admitted at or below the
      cursor left out. */
  ghost predicate UpToDate(f: Filter, r: Reader) {
    && Valid(r.log) && r.cursor < r.log.nextId
    && Ascending(r.delivered)
    && (forall e :: e in r.delivered ==> Admits(f, e) && e.id <= r.cursor)
    && (forall e :: e in r.log.entries && Admits(f, e) && e.id <= r.cursor ==> e in r.delivered)
  }

  lemma FreshReaderIsUpToDate(f: Filter, log: Log)
    requires Valid(log)
    ensures UpToDate(f, Reader(log, 0, []))
  {
  }

  /** A log that lost some entries and gained only entries with new ids. */
  lemma ChangedLogKeepsUpToDate(f: Filter, r: Reader, log: Log)
    requires UpToDate(f, r) && Valid(log) && r.log.nextId <= log.nextId
    requires forall e :: e in log.entries ==> e in r.log.entries || e.id >= r.log.nextId
    ensures UpToDate(f, r.(log := log))
  {
    hide Admits;
  }

  lemma PublishChanges(log: Log, namespace: string, publisher: Publisher, kind: Kind, payload: string, max: nat)
    requires Valid(log)
    ensures var after := Published(log, namespace, publisher, kind, payload, max);
            && Valid(after) && log.nextId <= after.nextId
            && forall e :: e in after.entries ==> e in log.entries || e.id >= log.nextId
  {
    hide Selected;
    var longer := log.entries + [Entry(log.nextId, namespace, publisher, kind, payload)];
    assert Ascending(longer);
    var cutOff := CutOff(longer, namespace, max);
    SelectedAscends(longer, NotBelow(namespace, cutOff));
    SelectedMembers(longer, NotBelow(namespace, cutOff));
  }

  lemma SelectionChanges(log: Log, p: Selection, migrated: set<string>)
    requires Valid(log)
    ensures var after := log.(entries := Selected(log.entries, p), migrated := migrated);
            Valid(after) && forall e :: e in after.entries ==> e in log.entries
  {
    hide Selected;
    SelectedAscends(log.entries, p);
    SelectedMembers(log.entries, p);
  }

  /** The waiting entries come in id order after the cursor, and a batch is the first of them. */
  lemma BatchIsFirstWaiting(f: Filter, r: Reader, limit: nat)
    requires UpToDate(f, r)
    ensures Ascending(Waiting(r.log.entries, f, r.cursor)) && Batch(f, r, limit) <= Waiting(r.log.entries, f, r.cursor)
    ensures forall e ::
      e in Waiting(r.log.entries, f, r.cursor) <==> e in r.log.entries && Admits(f, e) && e.id > r.cursor
  {
    hide Selected;
    SelectedAscends(r.log.entries, AdmittedAfter(f, r.cursor));
    SelectedMembers(r.log.entries, AdmittedAfter(f, r.cursor));
  }

  /** The entries waiting up to the last id of a prefix are those in the prefix. */
  lemma PrefixByLast(waiting: seq<Entry>, batch: seq<Entry>)
    requires Ascending(waiting) && batch <= waiting && batch != []
    ensures forall e :: e in batch <==> e in waiting && e.id <= batch[|batch| - 1].id
    ensures Ascending(batch)
  {
    var last := batch[|batch| - 1].id;
    forall e | e in batch ensures e in waiting && e.id <= last {
      var i :| 0 <= i < |batch| && batch[i] == e;
      assert waiting[i] == e;
    }
    forall e | e in waiting && e.id <= last ensures e in batch {
      var i :| 0 <= i < |waiting| && waiting[i] == e;
      assert waiting[|batch| - 1].id == last;
      assert i < |batch| && batch[i] == e;
    }
  }

  lemma DeliveredStaysAscending(delivered: seq<Entry>, batch: seq<Entry>, cursor: nat)
    requires Ascending(delivered) && Ascending(batch)
    requires (forall e :: e in delivered ==> e.id <= cursor) && forall e :: e in batch ==> e.id > cursor
    ensures Ascending(delivered + batch)
  {
    forall i, j | 0 <= i < j < |delivered + batch| ensures (delivered + batch)[i].id < (delivered + batch)[j].id {
      if i < |delivered| <= j {
        assert delivered[i] in delivered && batch[j - |delivered|] in batch;
      }
    }
  }

  lemma PollKeepsUpToDate(f: Filter, r: Reader, limit: nat)
    requires UpToDate(f, r)
    ensures UpToDate(f, After(f, r, PollNext(limit)))
  {
    hide Waiting, Admits, Ascending, Batch;
    BatchIsFirstWaiting(f, r, limit);
    var waiting, batch := Waiting(r.log.entries, f, r.cursor), Batch(f, r, limit);
    if batch != [] {
      PrefixByLast(waiting, batch);
      DeliveredStaysAscending(r.delivered, batch, r.cursor);
      assert batch[|batch| - 1] in batch;
    } else {
      assert r.delivered + batch == r.delivered;
    }
  }

  lemma EventKeepsUpToDate(f: Filter, r: Reader, event: Event)
    requires UpToDate(f, r)
    ensures UpToDate(f, After(f, r, event)) && r.delivered <= After(f, r, event).delivered
  {
    hide UpToDate, Selected, Published, Batch;
    assert Valid(r.log) by { UpToDateIsValid(f, r); }
    match event
    case PublishEntry(namespace, publisher, kind, payload, max) =>
      PublishChanges(r.log, namespace, publisher, kind, payload, max);
      ChangedLogKeepsUpToDate(f, r, Published(r.log, namespace, publisher, kind, payload, max));
    case RemoveEntries(ids) =>
      SelectionChanges(r.log, NotAmong(ids), r.log.migrated);
      ChangedLogKeepsUpToDate(f, r, Removed(r.log, ids));
    case MigrateNamespace(namespace) =>
      if namespace in r.log.migrated {
        ChangedLogKeepsUpToDate(f, r, r.log);
      } else {
        SelectionChanges(r.log, OutsideNamespace(namespace), r.log.migrated + {namespace});
        ChangedLogKeepsUpToDate(f, r, Migrated(r.log, namespace, true));
      }
    case PollNext(limit) => PollKeepsUpToDate(f, r, limit);
  }

  lemma UpToDateIsValid(f: Filter, r: Reader)
    requires UpToDate(f, r)
    ensures Valid(r.log)
  {
  }

  /** Whatever is published, trimmed, deleted or purged in between, chained polls deliver strictly
      increasing ids, so never a duplicate, and only what the filter admits. */
  lemma {:induction false} DeliveredInOrder(f: Filter, r: Reader, events: seq<Event>)
    requires UpToDate(f, r)
    ensures UpToDate(f, AfterAll(f, r, events)) && r.delivered <= AfterAll(f, r, events).delivered
    decreases |events|
  {
    hide UpToDate, After;
    if events != [] {
      EventKeepsUpToDate(f, r, events[0]);
      DeliveredInOrder(f, After(f, r, events[0]), events[1..]);
    }
  }

  /** A reader that starts with an empty hand and any log. */
  lemma FreshReaderDeliversInOrder(f: Filter, log: Log, events: seq<Event>)
    requires Valid(log)
    ensures var delivered := AfterAll(f, Reader(log, 0, []), events).delivered;
            Ascending(delivered) && forall e :: e in delivered ==> Admits(f, e)
  {
    hide AfterAll, Valid, Admits;
    FreshReaderIsUpToDate(f, log);
    DeliveredInOrder(f, Reader(log, 0, []), events);
  }

  /** The entry is in the log until the cursor has reached its id. */
  ghost predicate KeptUntilPassed(f: Filter, r: Reader, events: seq<Event>, e: Entry)
    decreases |events|
  {
    e in r.log.entries &&
    (r.cursor >= e.id || events == [] || KeptUntilPassed(f, After(f, r, events[0]), events[1..], e))
  }

  /** No entry is passed over: one that stays until the cursor passes it has been delivered. */
  lemma {:induction false} NothingPassedOver(f: Filter, r: Reader, events: seq<Event>, e: Entry)
    requires UpToDate(f, r) && Admits(f, e) && KeptUntilPassed(f, r, events, e)
    requires AfterAll(f, r, events).cursor >= e.id
    ensures e in AfterAll(f, r, events).delivered
    decreases |events|
  {
    hide After, Admits;
    if r.cursor >= e.id || events == [] {
      DeliveredInOrder(f, r, events);
      var i :| 0 <= i < |r.delivered| && r.delivered[i] == e;
      assert AfterAll(f, r, events).delivered[i] == e;
    } else {
      EventKeepsUpToDate(f, r, events[0]);
      NothingPassedOver(f, After(f, r, events[0]), events[1..], e);
    }
  }

  /** A batch below the limit leaves nothing waiting. */
  lemma ShortBatchDrains(f: Filter, r: Reader, limit: nat, e: Entry)
    requires UpToDate(f, r) && |Batch(f, r, limit)| < limit
    requires e in r.log.entries && Admits(f, e)
    ensures e in After(f, r, PollNext(limit)).delivered
  {
    hide Waiting, Admits;
    BatchIsFirstWaiting(f, r, limit);
  }
}
