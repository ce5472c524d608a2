/** The shared, bounded log of published entries and the pollers that read it. */
module HiveMindStore {
  import opened Wrappers

  /** Publishers are known by durable ids adopted once per brain file, or by the random ids of
      processes of earlier releases. */
  datatype Publisher = Durable(id: nat) | ProcessRandom(id: nat)

  datatype Kind = Lesson | Episode

  datatype Entry = Entry(id: nat, namespace: string, publisher: Publisher, kind: Kind, payload: string)

  /** The entries by ascending id, the namespaces whose migration is recorded, and the next id the
      log hands out. */
  datatype Log = Log(entries: seq<Entry>, migrated: set<string>, nextId: nat)

  const MAX_POLL_LIMIT: nat := 1_000

  // ----- Queries -----

  datatype Filter = Filter(namespace: string, excludePublisher: Option<Publisher>, kind: Option<Kind>)

  predicate Admits(f: Filter, e: Entry) {
    && e.namespace == f.namespace
    && (f.excludePublisher.Some? ==> e.publisher != f.excludePublisher.value)
    && (f.kind.Some? ==> e.kind == f.kind.value)
  }

  /** The WHERE clauses of the queries, and of what a deletion leaves. */
  datatype Selection =
    | InNamespace(namespace: string)
    | OutsideNamespace(namespace: string)
    | AtLeast(id: nat)
    | NotBelow(namespace: string, id: nat)
    | NotAmong(ids: set<nat>)
    | Admitted(filter: Filter)
    | AdmittedAfter(filter: Filter, sinceId: nat)
    | Spared(namespace: string, publisher: Publisher, matching: set<Entry>)
    | Both(left: Selection, right: Selection)

  predicate Takes(p: Selection, e: Entry) {
    match p
    case InNamespace(namespace) => e.namespace == namespace
    case OutsideNamespace(namespace) => e.namespace != namespace
    case AtLeast(id) => e.id >= id
    case NotBelow(namespace, id) => !(e.namespace == namespace && e.id < id)
    case NotAmong(ids) => e.id !in ids
    case Admitted(f) => Admits(f, e)
    case AdmittedAfter(f, sinceId) => Admits(f, e) && e.id > sinceId
    case Spared(namespace, publisher, matching) =>
      !(e.namespace == namespace && e.publisher == publisher && e in matching)
    case Both(left, right) => Takes(left, e) && Takes(right, e)
  }

  function Selected(entries: seq<Entry>, p: Selection): seq<Entry> {
    if entries == [] then []
    else Selected(entries[..|entries| - 1], p) +
         (if Takes(p, entries[|entries| - 1]) then [entries[|entries| - 1]] else [])
  }

  lemma {:induction false} SelectedMembers(entries: seq<Entry>, p: Selection)
    ensures forall e :: e in Selected(entries, p) <==> e in entries && Takes(p, e)
  {
    if entries != [] {
      SelectedMembers(entries[..|entries| - 1], p);
      assert entries == entries[..|entries| - 1] + [entries[|entries| - 1]];
    }
  }

  function OfNamespace(entries: seq<Entry>, namespace: string): seq<Entry> {
    Selected(entries, InNamespace(namespace))
  }

  ghost predicate Ascending(entries: seq<Entry>) {
    forall i, j :: 0 <= i < j < |entries| ==> entries[i].id < entries[j].id
  }

  ghost predicate Valid(log: Log) {
    Ascending(log.entries) && log.nextId > 0 && forall e :: e in log.entries ==> 0 < e.id < log.nextId
  }

  lemma {:induction false} SelectedAscends(entries: seq<Entry>, p: Selection)
    requires Ascending(entries)
    ensures Ascending(Selected(entries, p))
  {
    if entries != [] {
      var front := entries[..|entries| - 1];
      SelectedAscends(front, p);
      SelectedMembers(front, p);
      forall e | e in Selected(front, p) ensures e.id < entries[|entries| - 1].id {
        assert e in front;
      }
    }
  }

  // ----- Publishing -----

  function LastOf(entries: seq<Entry>, n: nat): seq<Entry> {
    if |entries| <= n then entries else entries[|entries| - n..]
  }

  /** The id below which entries of the namespace are dropped: that of its n-th newest entry, 0
      when it has fewer. */
  function CutOff(entries: seq<Entry>, namespace: string, n: nat): nat {
    var own := OfNamespace(entries, namespace);
    if 0 < n <= |own| then own[|own| - n].id else 0
  }

  function Trimmed(entries: seq<Entry>, namespace: string, n: nat): seq<Entry> {
    var cutOff := CutOff(entries, namespace, n);
    Selected(entries, NotBelow(namespace, cutOff))
  }

  function Published(log: Log, namespace: string, publisher: Publisher, kind: Kind, payload: string, max: nat): Log {
    var entry := Entry(log.nextId, namespace, publisher, kind, payload);
    log.(entries := Trimmed(log.entries + [entry], namespace, max), nextId := log.nextId + 1)
  }

  lemma {:induction false} SelectedTwice(entries: seq<Entry>, p: Selection, q: Selection)
    ensures Selected(Selected(entries, p), q) == Selected(entries, Both(p, q))
  {
    if entries != [] {
      var front, last := entries[..|entries| - 1], entries[|entries| - 1];
      SelectedTwice(front, p, q);
      var once := Selected(front, p);
      if Takes(p, last) {
        assert (once + [last])[..|once|] == once;
      } else {
        assert Selected(entries, p) == once;
      }
    }
  }

  lemma {:induction false} SelectedAlike(entries: seq<Entry>, p: Selection, q: Selection)
    requires forall e :: e in entries ==> Takes(p, e) == Takes(q, e)
    ensures Selected(entries, p) == Selected(entries, q)
  {
    if entries != [] {
      SelectedAlike(entries[..|entries| - 1], p, q);
    }
  }

  /** In an ascending sequence, the entries from a given one on are those not below its id. */
  lemma {:induction false} SuffixById(entries: seq<Entry>, k: nat)
    requires Ascending(entries) && k < |entries|
    ensures Selected(entries, AtLeast(entries[k].id)) == entries[k..]
  {
    var p := AtLeast(entries[k].id);
    var front, last := entries[..|entries| - 1], entries[|entries| - 1];
    SelectedLast(entries, p);
    hide Selected;
    if k == |front| {
      NoneSelected(front, p);
    } else {
      SuffixById(front, k);
      assert front[k..] + [last] == entries[k..];
    }
  }

  lemma SelectedLast(entries: seq<Entry>, p: Selection)
    requires entries != []
    ensures var front, last := entries[..|entries| - 1], entries[|entries| - 1];
            Selected(entries, p) == Selected(front, p) + (if Takes(p, last) then [last] else [])
  {
  }

  lemma {:induction false} NoneSelected(entries: seq<Entry>, p: Selection)
    requires forall e :: e in entries ==> !Takes(p, e)
    ensures Selected(entries, p) == []
  {
    if entries != [] {
      NoneSelected(entries[..|entries| - 1], p);
    }
  }

  lemma {:induction false} AllSelected(entries: seq<Entry>, p: Selection)
    requires forall e :: e in entries ==> Takes(p, e)
    ensures Selected(entries, p) == entries
  {
    if entries != [] {
      var front, last := entries[..|entries| - 1], entries[|entries| - 1];
      AllSelected(front, p);
      assert Selected(entries, p) == Selected(front, p) + [last];
      hide Selected;
      assert entries == front + [last];
    }
  }

  /** Trimming keeps exactly the newest n entries of its namespace. */
  lemma TrimKeepsNewest(entries: seq<Entry>, namespace: string, n: nat)
    requires Ascending(entries) && n > 0
    ensures OfNamespace(Trimmed(entries, namespace, n), namespace) == LastOf(OfNamespace(entries, namespace), n)
  {
    hide Selected, Ascending;
    var own := OfNamespace(entries, namespace);
    var cutOff := CutOff(entries, namespace, n);
    var mine, kept, recent := InNamespace(namespace), NotBelow(namespace, cutOff), AtLeast(cutOff);
    SelectedTwice(entries, kept, mine);
    SelectedTwice(entries, mine, recent);
    SelectedAlike(entries, Both(kept, mine), Both(mine, recent));
    SelectedAscends(entries, mine);
    if |own| >= n {
      SuffixById(own, |own| - n);
    } else {
      AllSelected(own, recent);
    }
  }

  lemma TrimKeepsOthers(entries: seq<Entry>, namespace: string, n: nat, other: string)
    requires other != namespace
    ensures OfNamespace(Trimmed(entries, namespace, n), other) == OfNamespace(entries, other)
  {
    hide Selected;
    var cutOff := CutOff(entries, namespace, n);
    var kept, theirs := NotBelow(namespace, cutOff), InNamespace(other);
    SelectedTwice(entries, kept, theirs);
    SelectedAlike(entries, Both(kept, theirs), theirs);
  }

  /** Publishing appends to its namespace, keeps the newest entries up to the bound there, and
      leaves every other namespace alone. */
  lemma PublishKeepsNewest(log: Log, namespace: string, publisher: Publisher, kind: Kind, payload: string, max: nat)
    requires Valid(log) && max > 0
    ensures var after := Published(log, namespace, publisher, kind, payload, max);
            && Valid(after)
            && OfNamespace(after.entries, namespace) ==
                 LastOf(OfNamespace(log.entries, namespace)
                        + [Entry(log.nextId, namespace, publisher, kind, payload)], max)
            && forall other :: other != namespace ==>
                 OfNamespace(after.entries, other) == OfNamespace(log.entries, other)
  {
    hide Selected;
    var entry := Entry(log.nextId, namespace, publisher, kind, payload);
    var longer := log.entries + [entry];
    assert Ascending(longer);
    var cutOff := CutOff(longer, namespace, max);
    SelectedAscends(longer, NotBelow(namespace, cutOff));
    SelectedMembers(longer, NotBelow(namespace, cutOff));
    TrimKeepsNewest(longer, namespace, max);
    AppendedToNamespace(log.entries, entry, namespace);
    forall other | other != namespace
      ensures OfNamespace(Trimmed(longer, namespace, max), other) == OfNamespace(log.entries, other)
    {
      TrimKeepsOthers(longer, namespace, max, other);
      AppendedToNamespace(log.entries, entry, other);
    }
  }

  lemma AppendedToNamespace(entries: seq<Entry>, entry: Entry, namespace: string)
    ensures OfNamespace(entries + [entry], namespace) ==
      OfNamespace(entries, namespace) + (if entry.namespace == namespace then [entry] else [])
  {
    assert (entries + [entry])[..|entries|] == entries;
  }

  // ----- Reading -----

  function Waiting(entries: seq<Entry>, f: Filter, sinceId: nat): seq<Entry> {
    Selected(entries, AdmittedAfter(f, sinceId))
  }

  function Polled(entries: seq<Entry>, f: Filter, sinceId: nat, limit: nat): seq<Entry> {
    var waiting := Waiting(entries, f, sinceId);
    if limit < |waiting| then waiting[..limit] else waiting
  }

  // ----- Migration of a namespace -----

  function PurgedNamespace(entries: seq<Entry>, namespace: string): seq<Entry> {
    Selected(entries, OutsideNamespace(namespace))
  }

  /** The marker and the purge are one transaction, and the marker makes it once-only. */
  function Migrated(log: Log, namespace: string, purge: bool): Log {
    if namespace in log.migrated then log
    else log.(migrated := log.migrated + {namespace},
              entries := if purge then PurgedNamespace(log.entries, namespace) else log.entries)
  }

  function Removed(log: Log, ids: set<nat>): Log {
    log.(entries := Selected(log.entries, NotAmong(ids)))
  }

  /** What a reader asks for: its namespace, another publisher than the one left out, its kind. */
  predicate IsWanted(e: Entry, f: Filter) {
    e.namespace == f.namespace && f.excludePublisher != Some(e.publisher) && (f.kind.Some? ==> f.kind == Some(e.kind))
  }

  lemma WaitingAreWanted(entries: seq<Entry>, f: Filter, sinceId: nat)
    ensures forall e :: e in Waiting(entries, f, sinceId) <==> e in entries && e.id > sinceId && IsWanted(e, f)
  {
    SelectedMembers(entries, AdmittedAfter(f, sinceId));
    hide Selected;
  }

  lemma FirstAreOldest(all: seq<Entry>, n: nat)
    requires Ascending(all) && n <= |all|
    ensures Ascending(all[..n]) && forall e :: e in all[..n] ==> e in all
    ensures forall e, d :: e in all && e !in all[..n] && d in all[..n] ==> d.id < e.id
  {
    var first, later := all[..n], all[n..];
    assert all == first + later;
    forall e, d | e in all && e !in first && d in first ensures d.id < e.id {
      assert e in later;
      var i :| 0 <= i < |later| && later[i] == e;
      var j :| 0 <= j < |first| && first[j] == d;
      assert all[n + i] == e && all[j] == d;
    }
  }

  lemma PolledInOrder(entries: seq<Entry>, f: Filter, sinceId: nat, limit: nat)
    requires Ascending(entries)
    ensures var batch := Polled(entries, f, sinceId, limit);
            && Ascending(batch)
            && (forall e :: e in batch ==> e in entries && e.id > sinceId && IsWanted(e, f))
            && (forall e :: e in entries && e.id > sinceId && IsWanted(e, f) && e !in batch ==>
                 |batch| == limit && forall d :: d in batch ==> d.id < e.id)
  {
    hide IsWanted, Ascending, Waiting, Selected;
    WaitingAreWanted(entries, f, sinceId);
    assert Ascending(Waiting(entries, f, sinceId)) by { WaitingAscends(entries, f, sinceId); }
    var waiting := Waiting(entries, f, sinceId);
    if limit < |waiting| {
      FirstAreOldest(waiting, limit);
    }
  }

  lemma WaitingAscends(entries: seq<Entry>, f: Filter, sinceId: nat)
    requires Ascending(entries)
    ensures Ascending(Waiting(entries, f, sinceId))
  {
    hide Selected, Ascending;
    SelectedAscends(entries, AdmittedAfter(f, sinceId));
  }

  lemma {:induction false} ReversedMembers(s: seq<Entry>)
    ensures forall e :: e in Reversed(s) <==> e in s
  {
    if s != [] {
      ReversedMembers(s[..|s| - 1]);
      assert s == s[..|s| - 1] + [s[|s| - 1]];
    }
  }

  lemma LastAreNewest(all: seq<Entry>, n: nat)
    requires Ascending(all)
    ensures |LastOf(all, n)| <= n && forall e :: e in LastOf(all, n) ==> e in all
    ensures forall e, d :: e in all && e !in LastOf(all, n) && d in LastOf(all, n) ==> e.id < d.id
    ensures |LastOf(all, n)| < n ==> LastOf(all, n) == all
  {
    var last := LastOf(all, n);
    var older := all[..|all| - |last|];
    assert all == older + last;
    forall e, d | e in all && e !in last && d in last ensures e.id < d.id {
      assert e in older;
      var i :| 0 <= i < |older| && older[i] == e;
      var j :| 0 <= j < |last| && last[j] == d;
      assert all[i] == e && all[|older| + j] == d;
    }
  }

  lemma AdmittedAreWanted(entries: seq<Entry>, f: Filter)
    ensures forall e :: e in Selected(entries, Admitted(f)) <==> e in entries && IsWanted(e, f)
  {
    SelectedMembers(entries, Admitted(f));
    hide Selected;
  }

  lemma RecentAreNewest(entries: seq<Entry>, window: seq<Entry>, f: Filter, limit: nat)
    requires Ascending(entries) && Reversed(window) == LastOf(Selected(entries, Admitted(f)), limit)
    ensures |window| <= limit && forall e :: e in window ==> e in entries && IsWanted(e, f)
    ensures forall e :: e in entries && IsWanted(e, f) && e !in window ==>
      |window| == limit && forall d :: d in window ==> e.id < d.id
  {
    hide Selected, Reversed, LastOf, Ascending, IsWanted;
    AdmittedAreWanted(entries, f);
    SelectedAscends(entries, Admitted(f));
    ReversedMembers(window);
    ReversedLength(window);
    LastAreNewest(Selected(entries, Admitted(f)), limit);
    forall e | e in entries && IsWanted(e, f) && e !in window
      ensures |window| == limit && forall d :: d in window ==> e.id < d.id
    {
      assert e in Selected(entries, Admitted(f)) && e !in Reversed(window);
    }
  }

  // ----- The store -----

  class Store {
    var log: Log
    const maxEntriesPerNamespace: nat

    constructor (log: Log, max: nat)
      requires Valid(log) && max > 0
      ensures this.log == log && maxEntriesPerNamespace == max
    {
      this.log, maxEntriesPerNamespace := log, max;
    }

    method Publish(namespace: string, publisher: Publisher, kind: Kind, payload: string) returns (entry: Entry)
      requires Valid(log) && maxEntriesPerNamespace > 0
      modifies this
      ensures Valid(log) && log.migrated == old(log).migrated
      ensures entry == Entry(old(log).nextId, namespace, publisher, kind, payload) && log.nextId == old(log).nextId + 1
      ensures OfNamespace(log.entries, namespace) ==
        LastOf(OfNamespace(old(log).entries, namespace) + [entry], maxEntriesPerNamespace)
      ensures forall other :: other != namespace ==>
        OfNamespace(log.entries, other) == OfNamespace(old(log).entries, other)
    {
      hide OfNamespace, LastOf, Trimmed;
      PublishKeepsNewest(log, namespace, publisher, kind, payload, maxEntriesPerNamespace);
      entry := Entry(log.nextId, namespace, publisher, kind, payload);
      log := log.(entries := log.entries + [entry], nextId := log.nextId + 1);
      log := log.(entries := Trimmed(log.entries, namespace, maxEntriesPerNamespace));
    }

    /** The next entries after the cursor, oldest first. */
    method Poll(f: Filter, sinceId: nat, limit: nat) returns (batch: seq<Entry>)
      requires 1 <= limit <= MAX_POLL_LIMIT && Valid(log)
      ensures batch == Polled(log.entries, f, sinceId, limit)
      ensures Ascending(batch) && |batch| <= limit
      ensures forall e :: e in batch ==> e in log.entries && e.id > sinceId && IsWanted(e, f)
      ensures forall e :: e in log.entries && e.id > sinceId && IsWanted(e, f) && e !in batch ==>
        |batch| == limit && forall d :: d in batch ==> d.id < e.id
    {
      batch := [];
      var i := 0;
      assert log.entries[..|log.entries|] == log.entries;
      while i < |log.entries| && |batch| < limit
        invariant 0 <= i <= |log.entries| && |batch| <= limit
        invariant batch == Waiting(log.entries[..i], f, sinceId)
      {
        assert log.entries[..i + 1][..i] == log.entries[..i];
        var e := log.entries[i];
        if Admits(f, e) && e.id > sinceId {
          batch := batch + [e];
        }
        i := i + 1;
      }
      WaitingPrefix(log.entries, i, f, sinceId);
      PolledInOrder(log.entries, f, sinceId, limit);
    }

    /** The newest entries, newest first. */
    method Recent(f: Filter, limit: nat) returns (window: seq<Entry>)
      requires 1 <= limit <= MAX_POLL_LIMIT && Valid(log)
      ensures Reversed(window) == LastOf(Selected(log.entries, Admitted(f)), limit)
      ensures |window| <= limit && forall e :: e in window ==> e in log.entries && IsWanted(e, f)
      ensures forall e :: e in log.entries && IsWanted(e, f) && e !in window ==>
        |window| == limit && forall d :: d in window ==> e.id < d.id
    {
      window := [];
      var i := |log.entries|;
      assert log.entries[i..] == [];
      NoneSelected([], Admitted(f));
      assert Reversed([]) == [];
      hide Selected, Reversed, Admits, Ascending, LastOf, Valid;
      while i > 0 && |window| < limit
        invariant 0 <= i <= |log.entries| && |window| <= limit
        invariant Reversed(window) == Selected(log.entries[i..], Admitted(f))
      {
        i := i - 1;
        var e := log.entries[i];
        SelectedAt(log.entries, i, Admitted(f));
        if Admits(f, e) {
          ReversedAppend(window, e);
          window := window + [e];
        }
      }
      RecentIsLast(log.entries, i, window, f, limit);
      RecentAreNewest(log.entries, window, f, limit);
    }

    method CompleteLegacyPublisherMigration(namespace: string, purge: bool) returns (completed: bool)
      modifies this
      ensures completed <==> namespace !in old(log).migrated
      ensures log == Migrated(old(log), namespace, purge)
      ensures namespace in log.migrated && log.nextId == old(log).nextId
      ensures forall e :: e in log.entries <==>
        e in old(log).entries && !(completed && purge && e.namespace == namespace)
    {
      SelectedMembers(log.entries, OutsideNamespace(namespace));
      hide Selected;
      if namespace in log.migrated {
        return false;
      }
      if purge {
        log := log.(entries := PurgedNamespace(log.entries, namespace));
      }
      log := log.(migrated := log.migrated + {namespace});
      return true;
    }

    /** Deletes the entries of one publisher in one namespace that match; "matching" holds the entries
        the caller's predicate accepts. */
    method DeletePublishedWhere(namespace: string, publisher: Publisher, matching: set<Entry>) returns (removed: nat)
      modifies this
      ensures log == old(log).(entries := Selected(old(log).entries, Spared(namespace, publisher, matching)))
      ensures forall e :: e in log.entries <==>
        e in old(log).entries && !(e.namespace == namespace && e.publisher == publisher && e in matching)
      ensures removed == |old(log).entries| - |log.entries|
    {
      var rows := log.entries;
      var kept: seq<Entry> := [];
      removed := 0;
      assert rows[..|rows|] == rows && rows[..0] == [];
      NoneSelected(rows[..0], Spared(namespace, publisher, matching));
      hide Selected;
      for i := 0 to |rows|
        invariant kept == Selected(rows[..i], Spared(namespace, publisher, matching))
        invariant removed == i - |kept| && log == old(log)
      {
        SelectedStep(rows, i, Spared(namespace, publisher, matching));
        if rows[i].namespace == namespace && rows[i].publisher == publisher && rows[i] in matching {
          removed := removed + 1;
        } else {
          kept := kept + [rows[i]];
        }
      }
      SelectedMembers(rows, Spared(namespace, publisher, matching));
      log := log.(entries := kept);
    }
  }

  lemma SelectedStep(s: seq<Entry>, i: nat, p: Selection)
    requires i < |s|
    ensures Selected(s[..i + 1], p) == Selected(s[..i], p) + (if Takes(p, s[i]) then [s[i]] else [])
  {
    assert s[..i + 1][..i] == s[..i];
  }

  function Reversed(s: seq<Entry>): (r: seq<Entry>) {
    if s == [] then [] else [s[|s| - 1]] + Reversed(s[..|s| - 1])
  }

  lemma ReversedAppend(s: seq<Entry>, e: Entry)
    ensures Reversed(s + [e]) == [e] + Reversed(s)
  {
    assert (s + [e])[..|s|] == s;
  }

  lemma {:induction false} ReversedLength(s: seq<Entry>)
    ensures |Reversed(s)| == |s|
  {
    if s != [] {
      ReversedLength(s[..|s| - 1]);
    }
  }

  lemma {:induction false} SelectedSum(a: seq<Entry>, b: seq<Entry>, p: Selection)
    ensures Selected(a + b, p) == Selected(a, p) + Selected(b, p)
  {
    if b == [] {
      assert a + b == a;
    } else {
      var front, last := b[..|b| - 1], if Takes(p, b[|b| - 1]) then [b[|b| - 1]] else [];
      SelectedSum(a, front, p);
      assert (a + b)[..|a + b| - 1] == a + front;
      assert Selected(a + b, p) == Selected(a + front, p) + last;
      assert Selected(b, p) == Selected(front, p) + last;
      assert (Selected(a, p) + Selected(front, p)) + last == Selected(a, p) + (Selected(front, p) + last);
    }
  }

  lemma SelectedOne(e: Entry, p: Selection)
    ensures Selected([e], p) == if Takes(p, e) then [e] else []
  {
    assert [e][..0] == [];
  }

  lemma SelectedFront(s: seq<Entry>, p: Selection)
    requires s != []
    ensures Selected(s, p) == (if Takes(p, s[0]) then [s[0]] else []) + Selected(s[1..], p)
  {
    SelectedOne(s[0], p);
    hide Selected;
    SelectedSum([s[0]], s[1..], p);
    assert [s[0]] + s[1..] == s;
  }

  lemma SelectedAt(s: seq<Entry>, i: nat, p: Selection)
    requires i < |s|
    ensures Selected(s[i..], p) == (if Takes(p, s[i]) then [s[i]] else []) + Selected(s[i + 1..], p)
  {
    hide Selected;
    SelectedFront(s[i..], p);
    assert s[i..][1..] == s[i + 1..];
  }

  lemma SelectedSuffix(s: seq<Entry>, i: nat, p: Selection)
    requires i <= |s|
    ensures Selected(s, p) == Selected(s[..i], p) + Selected(s[i..], p)
  {
    hide Selected;
    SelectedSum(s[..i], s[i..], p);
    assert s[..i] + s[i..] == s;
  }

  lemma RecentIsLast(entries: seq<Entry>, i: nat, window: seq<Entry>, f: Filter, limit: nat)
    requires i <= |entries| && Reversed(window) == Selected(entries[i..], Admitted(f))
    requires |window| <= limit && (i == 0 || |window| == limit)
    ensures Reversed(window) == LastOf(Selected(entries, Admitted(f)), limit)
  {
    hide Selected, Reversed, Admits;
    SelectedSuffix(entries, i, Admitted(f));
    ReversedLength(window);
    assert entries[0..] == entries;
  }

  lemma WaitingPrefix(s: seq<Entry>, i: nat, f: Filter, sinceId: nat)
    requires i <= |s|
    ensures Waiting(s[..i], f, sinceId) <= Waiting(s, f, sinceId)
  {
    SelectedSuffix(s, i, AdmittedAfter(f, sinceId));
  }
}
