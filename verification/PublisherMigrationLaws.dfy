/** What every interleaving of the migration protocol keeps. */
module PublisherMigrationLaws {
  import opened Wrappers
  import opened HiveMindStore
  import opened PublisherMigration
  import HivePolling

  /** No file, no process, an empty log. */
  function EmptyWorld(nextLogId: nat): World {
    World(map[], map[], Log([], {}, nextLogId), map[], 0, [], {})
  }

  lemma EmptyWorldAgrees(nextLogId: nat)
    requires nextLogId > 0
    ensures var w := EmptyWorld(nextLogId); Agreed(w) && DurableAreSafe(w) && Valid(w.log)
  {
  }

  /** Locking, leaving the transaction, or moving on inside it. */
  lemma TransactionKeepsLocks(w: World, p: nat, phase: Phase)
    requires LocksAgree(w) && p in w.processes
    ensures InTransaction(w.processes[p].phase) && !InTransaction(phase) ==> LocksAgree(Left(w, p, phase))
    ensures InTransaction(w.processes[p].phase) == InTransaction(phase) ==> LocksAgree(Moved(w, p, phase))
    ensures Enabled(w, Lock(p)) ==> LocksAgree(Do(w, Lock(p)))
  {
  }

  lemma StepKeepsLocks(w: World, a: Action)
    requires LocksAgree(w) && Enabled(w, a)
    ensures LocksAgree(Do(w, a))
  {
    hide NamespaceMigrated, Published, HiveMindStore.Removed;
    MigrationFrame(w);
    if !a.Open? && !a.PublishDurable? && !a.PublishRandom? && !a.Remove? {
      var after := Do(w, a);
      TransactionKeepsLocks(w, a.p, after.processes[a.p].phase);
    }
  }

  lemma MigrationFrame(w: World)
    ensures forall n :: var u := NamespaceMigrated(w, n);
      && u.locks == w.locks && u.processes == w.processes && u.files == w.files && u.nextPublisher == w.nextPublisher
      && u.log.migrated == w.log.migrated + {n}
  {
  }

  /** A process whose phase, in the same files and no fewer migrated namespaces, agrees with them. */
  lemma MovingKeepsIds(w: World, u: World, p: nat, x: Process)
    requires IdsAgree(w) && u.files == w.files && u.nextPublisher == w.nextPublisher
    requires w.log.migrated <= u.log.migrated && u.processes == w.processes[p := x] && PhaseAgrees(u, x)
    ensures IdsAgree(u)
  {
  }

  lemma StepKeepsIds(w: World, a: Action)
    requires LocksAgree(w) && IdsAgree(w) && Enabled(w, a)
    ensures IdsAgree(Do(w, a))
    ensures forall f :: f in w.files ==> f in Do(w, a).files && Do(w, a).files[f] == w.files[f]
  {
    hide NamespaceMigrated, Published, HiveMindStore.Removed, LocksAgree, IdsAgree;
    MigrationFrame(w);
    PublishFrame(w, a);
    if a.Commit? {
      CommitKeepsIds(w, a.p);
    } else if a.PublishDurable? || a.PublishRandom? || a.Remove? {
      LogChangeKeepsIds(w, Do(w, a));
    } else {
      PhasesAgree(w, a.p);
      MovingKeepsIds(w, Do(w, a), a.p, Do(w, a).processes[a.p]);
    }
  }

  lemma PhasesAgree(w: World, p: nat)
    requires IdsAgree(w)
    ensures p in w.processes ==> PhaseAgrees(w, w.processes[p])
  {
  }

  lemma LogChangeKeepsIds(w: World, u: World)
    requires IdsAgree(w) && u.files == w.files && u.nextPublisher == w.nextPublisher && u.processes == w.processes
    requires w.log.migrated <= u.log.migrated
    ensures IdsAgree(u)
  {
  }

  lemma CommitKeepsIds(w: World, p: nat)
    requires LocksAgree(w) && IdsAgree(w) && Enabled(w, Commit(p))
    ensures IdsAgree(Do(w, Commit(p))) && w.processes[p].file !in w.files
  {
    assert PhaseAgrees(w, w.processes[p]);
    forall q | q in w.processes && q != p && (w.processes[q].phase.Vacant? || w.processes[q].phase.Adopting?)
      ensures w.processes[q].file != w.processes[p].file
    {
      assert w.locks[w.processes[q].file] == q;
    }
  }

  /** Publishing and deleting entries touch nothing but the log's entries. */
  lemma PublishFrame(w: World, a: Action)
    ensures a.PublishDurable? && a.p in w.processes && w.processes[a.p].phase.Holding? ==>
      var x := w.processes[a.p];
      Published(w.log, x.namespace, Durable(x.phase.id), a.kind, a.payload, a.max).migrated == w.log.migrated
    ensures a.PublishRandom? ==>
      Published(w.log, a.namespace, ProcessRandom(a.publisher), a.kind, a.payload, a.max).migrated == w.log.migrated
    ensures a.Remove? ==> HiveMindStore.Removed(w.log, a.ids).migrated == w.log.migrated
  {
  }

  lemma StepKeepsPurges(w: World, a: Action)
    requires PurgedOnce(w) && Enabled(w, a)
    ensures PurgedOnce(Do(w, a))
  {
    hide Published, HiveMindStore.Removed, PurgedNamespace;
    PublishFrame(w, a);
    match a
    case Revisit(p, _) => MigrationKeepsPurges(w, w.processes[p].namespace);
    case Migrate(p, _) => MigrationKeepsPurges(w, w.processes[p].namespace);
    case _ =>
  }

  lemma MigrationKeepsPurges(w: World, n: string)
    requires PurgedOnce(w)
    ensures PurgedOnce(NamespaceMigrated(w, n))
  {
    hide PurgedNamespace;
    if n !in w.log.migrated {
      assert forall i :: 0 <= i < |w.purges| ==> w.purges[i] in w.purges;
    }
  }

  lemma StepKeepsAgreed(w: World, a: Action)
    requires Agreed(w) && Enabled(w, a)
    ensures Agreed(Do(w, a))
    ensures forall f :: f in w.files ==> f in Do(w, a).files && Do(w, a).files[f] == w.files[f]
  {
    hide LocksAgree, IdsAgree, PurgedOnce, Do;
    StepKeepsLocks(w, a);
    StepKeepsIds(w, a);
    StepKeepsPurges(w, a);
  }

  /** Every entry of a log after publishing was there before or is the new one. */
  lemma PublishedEntries(log: Log, namespace: string, publisher: Publisher, kind: Kind, payload: string, max: nat)
    ensures forall e :: e in Published(log, namespace, publisher, kind, payload, max).entries ==>
      e in log.entries || (e.namespace == namespace && e.publisher == publisher)
  {
    hide Selected;
    var longer := log.entries + [Entry(log.nextId, namespace, publisher, kind, payload)];
    SelectedMembers(longer, NotBelow(namespace, CutOff(longer, namespace, max)));
  }

  lemma MigrationKeepsDurable(w: World, n: string)
    requires DurableAreSafe(w)
    ensures DurableAreSafe(NamespaceMigrated(w, n))
    ensures NamespaceMigrated(w, n).log.migrated == w.log.migrated + {n}
  {
    hide Selected;
    SelectedMembers(w.log.entries, OutsideNamespace(n));
  }

  lemma StepKeepsDurable(w: World, a: Action)
    requires Agreed(w) && DurableAreSafe(w) && Enabled(w, a) && Careful(w, a)
    ensures DurableAreSafe(Do(w, a))
  {
    hide Published, HiveMindStore.Removed, NamespaceMigrated, LocksAgree, PurgedOnce;
    PublishFrame(w, a);
    MigrationFrame(w);
    match a
    case Revisit(p, _) => MigrationKeepsDurable(w, w.processes[p].namespace);
    case Migrate(p, _) => MigrationKeepsDurable(w, w.processes[p].namespace);
    case PublishDurable(p, kind, payload, max) =>
      PublishedEntries(w.log, w.processes[p].namespace, Durable(w.processes[p].phase.id), kind, payload, max);
    case PublishRandom(n, id, kind, payload, max) =>
      PublishedEntries(w.log, n, ProcessRandom(id), kind, payload, max);
    case Remove(ids) => RemovedEntries(w.log, ids);
    case _ =>
  }

  lemma RemovedEntries(log: Log, ids: set<nat>)
    ensures forall e :: e in HiveMindStore.Removed(log, ids).entries ==> e in log.entries
  {
    SelectedMembers(log.entries, NotAmong(ids));
  }

  // ----- Main results -----

  /** Whatever processes do and wherever they crash, a file's publisher id never changes once
      committed, and no namespace is purged twice. */
  lemma {:induction false} OneIdPerFile(w: World, actions: seq<Action>)
    requires Agreed(w) && IsRun(w, actions)
    ensures Agreed(RunFrom(w, actions))
    ensures forall f :: f in w.files ==> f in RunFrom(w, actions).files && RunFrom(w, actions).files[f] == w.files[f]
    decreases |actions|
  {
    hide Agreed, Do, Enabled;
    if actions != [] {
      StepKeepsAgreed(w, actions[0]);
      OneIdPerFile(Do(w, actions[0]), actions[1..]);
    }
  }

  /** Two processes that opened the same file hold the same id, whenever each of them got it. */
  lemma HoldersAgree(w: World, actions: seq<Action>, p: nat, q: nat)
    requires Agreed(w) && IsRun(w, actions)
    requires p in w.processes && w.processes[p].phase.Holding?
    requires q in RunFrom(w, actions).processes && RunFrom(w, actions).processes[q].phase.Holding?
    requires RunFrom(w, actions).processes[q].file == w.processes[p].file
    ensures RunFrom(w, actions).processes[q].phase.id == w.processes[p].phase.id
  {
    hide LocksAgree, PurgedOnce, Do, Enabled, IsRun, RunFrom;
    OneIdPerFile(w, actions);
    var u := RunFrom(w, actions);
    assert PhaseAgrees(w, w.processes[p]) && PhaseAgrees(u, u.processes[q]);
  }

  /** In a careful run no purge removes an entry published under a durable id. */
  lemma {:induction false} CarefulRunLosesNothing(w: World, actions: seq<Action>)
    requires Agreed(w) && DurableAreSafe(w) && IsRun(w, actions) && AllCareful(w, actions)
    ensures forall e :: e in RunFrom(w, actions).lost ==> !e.publisher.Durable?
    decreases |actions|
  {
    hide Agreed, Do, Enabled, Careful;
    if actions != [] {
      StepKeepsAgreed(w, actions[0]);
      StepKeepsDurable(w, actions[0]);
      CarefulRunLosesNothing(Do(w, actions[0]), actions[1..]);
    }
  }

  // ----- One agent type per brain file -----

  /** Each file is only opened for its own namespace. */
  ghost predicate OneTypePerFile(typeOf: string -> string, actions: seq<Action>) {
    forall i :: 0 <= i < |actions| && actions[i].Open? ==> actions[i].namespace == typeOf(actions[i].file)
  }

  ghost predicate Typed(typeOf: string -> string, w: World) {
    && (forall p :: p in w.processes ==> w.processes[p].namespace == typeOf(w.processes[p].file))
    && (forall f :: f in w.files ==> typeOf(f) in w.log.migrated)
  }

  lemma StepKeepsTyped(typeOf: string -> string, w: World, a: Action)
    requires Agreed(w) && Typed(typeOf, w) && Enabled(w, a)
    requires a.Open? ==> a.namespace == typeOf(a.file)
    ensures Careful(w, a) && Typed(typeOf, Do(w, a))
  {
    hide Published, HiveMindStore.Removed, NamespaceMigrated, LocksAgree, PurgedOnce;
    PublishFrame(w, a);
    MigrationFrame(w);
    if a.Revisit? {
      assert PhaseAgrees(w, w.processes[a.p]);
    }
  }

  lemma {:induction false} TypedRunIsCareful(typeOf: string -> string, w: World, actions: seq<Action>)
    requires Agreed(w) && Typed(typeOf, w) && IsRun(w, actions) && OneTypePerFile(typeOf, actions)
    ensures AllCareful(w, actions)
    decreases |actions|
  {
    hide Agreed, Do, Enabled, Careful, Typed;
    if actions != [] {
      StepKeepsAgreed(w, actions[0]);
      StepKeepsTyped(typeOf, w, actions[0]);
      assert forall i :: 0 <= i < |actions[1..]| ==> actions[1..][i] == actions[i + 1];
      TypedRunIsCareful(typeOf, Do(w, actions[0]), actions[1..]);
    }
  }

  /** With one agent type per brain file, no entry under a durable id is ever lost to a purge. */
  lemma NoDurableEntryPurged(typeOf: string -> string, w: World, actions: seq<Action>)
    requires Agreed(w) && Typed(typeOf, w) && DurableAreSafe(w) && IsRun(w, actions) && OneTypePerFile(typeOf, actions)
    ensures forall e :: e in RunFrom(w, actions).lost ==> !e.publisher.Durable?
  {
    hide Agreed, Typed, DurableAreSafe, IsRun, OneTypePerFile, RunFrom, AllCareful;
    TypedRunIsCareful(typeOf, w, actions);
    CarefulRunLosesNothing(w, actions);
  }

  // ----- Why care is needed -----

  /** What follows a careless step: its process publishes, then a second file is opened for the
      same namespace. */
  function Mishap(p: nat, q: nat, file: string, namespace: string): seq<Action> {
    [PublishDurable(p, Lesson, "", 1), Open(q, file, namespace), Read(q), Lock(q), Recheck(q), Migrate(q, Done)]
  }

  /** Any careless step, in any world, can cost a durable publisher its entry: the condition of
      CarefulRunLosesNothing cannot be weakened for any step. */
  lemma CarelessStepCanLoseEntry(w: World, a: Action, q: nat, file: string)
    requires Agreed(w) && Valid(w.log) && Enabled(w, a) && !Careful(w, a)
    requires q !in w.processes && file !in w.files && file !in w.locks
    ensures var actions := [a] + Mishap(a.p, q, file, w.processes[a.p].namespace);
            IsRun(w, actions) && exists e :: e in RunFrom(w, actions).lost && e.publisher.Durable?
  {
    hide Published, Valid;
    var n := w.processes[a.p].namespace;
    var u := Do(w, a);
    assert u.log == w.log && u.files == w.files && u.processes.Keys == w.processes.Keys && file !in u.locks;
    assert u.processes[a.p].phase.Holding? && u.processes[a.p].namespace == n && n !in u.log.migrated;
    MishapLosesEntry(u, a.p, q, file);
    RunFirst(w, a, Mishap(a.p, q, file, n));
  }

  lemma RunFirst(w: World, a: Action, rest: seq<Action>)
    requires Enabled(w, a) && IsRun(Do(w, a), rest)
    ensures IsRun(w, [a] + rest) && RunFrom(w, [a] + rest) == RunFrom(Do(w, a), rest)
  {
    hide Enabled, Do;
    assert ([a] + rest)[1..] == rest;
  }

  lemma LatestEntryStays(log: Log, namespace: string, publisher: Publisher)
    requires Valid(log)
    ensures var after := Published(log, namespace, publisher, Lesson, "", 1);
            exists e :: e in after.entries && e.namespace == namespace && e.publisher == publisher
  {
    hide Selected, Valid, Trimmed;
    PublishKeepsNewest(log, namespace, publisher, Lesson, "", 1);
    var after := Published(log, namespace, publisher, Lesson, "", 1);
    var own := OfNamespace(after.entries, namespace);
    var entry := Entry(log.nextId, namespace, publisher, Lesson, "");
    assert own[|own| - 1] == entry;
    assert entry in own;
    SelectedMembers(after.entries, InNamespace(namespace));
  }

  lemma PublishStep(w: World, p: nat)
    requires p in w.processes && w.processes[p].phase.Holding?
    ensures var a := PublishDurable(p, Lesson, "", 1);
            && Enabled(w, a)
            && var x := w.processes[p];
               Do(w, a) == w.(log := Published(w.log, x.namespace, Durable(x.phase.id), Lesson, "", 1))
  {
  }

  lemma MishapLosesEntry(w: World, p: nat, q: nat, file: string)
    requires Valid(w.log) && p in w.processes && w.processes[p].phase.Holding?
    requires w.processes[p].namespace !in w.log.migrated
    requires q !in w.processes && file !in w.files && file !in w.locks
    ensures var actions := Mishap(p, q, file, w.processes[p].namespace);
            IsRun(w, actions) && exists e :: e in RunFrom(w, actions).lost && e.publisher.Durable?
  {
    hide Valid, Published, Do, Enabled, IsRun, RunFrom;
    var n, id := w.processes[p].namespace, w.processes[p].phase.id;
    PublishStep(w, p);
    var w1 := w.(log := Published(w.log, n, Durable(id), Lesson, "", 1));
    PublishFrame(w, PublishDurable(p, Lesson, "", 1));
    LatestEntryStays(w.log, n, Durable(id));
    var e :| e in w1.log.entries && e.namespace == n && e.publisher == Durable(id);
    OpeningPurges(w1, q, file, n, e);
    RunOfSix(w, PublishDurable(p, Lesson, "", 1), Open(q, file, n), Read(q), Lock(q), Recheck(q), Migrate(q, Done));
  }

  /** Opening a new file for an unmigrated namespace purges what is in it. */
  lemma OpeningPurges(w: World, q: nat, file: string, n: string, e: Entry)
    requires q !in w.processes && file !in w.files && file !in w.locks && n !in w.log.migrated
    requires e in w.log.entries && e.namespace == n
    ensures Enabled(w, Open(q, file, n))
    ensures var u := Do(w, Open(q, file, n)); Enabled(u, Read(q)) && Enabled(Do(u, Read(q)), Lock(q))
    ensures var u := Do(Do(Do(w, Open(q, file, n)), Read(q)), Lock(q));
            Enabled(u, Recheck(q)) && Enabled(Do(u, Recheck(q)), Migrate(q, Done))
            && e in Do(Do(u, Recheck(q)), Migrate(q, Done)).lost
  {
    hide PurgedNamespace;
    var w2 := Do(w, Open(q, file, n));
    var w3 := Do(w2, Read(q));
    var w4 := Do(w3, Lock(q));
    var w5 := Do(w4, Recheck(q));
    assert w5.log == w.log && w5.processes[q] == Process(file, n, Vacant);
  }

  lemma RunOfSix(w: World, a: Action, b: Action, c: Action, d: Action, e: Action, f: Action)
    requires Enabled(w, a) && Enabled(Do(w, a), b) && Enabled(Do(Do(w, a), b), c)
    requires var u := Do(Do(Do(w, a), b), c); Enabled(u, d) && Enabled(Do(u, d), e) && Enabled(Do(Do(u, d), e), f)
    ensures var u := Do(Do(Do(w, a), b), c);
            IsRun(w, [a, b, c, d, e, f]) && RunFrom(w, [a, b, c, d, e, f]) == Do(Do(Do(u, d), e), f)
  {
    hide Enabled, Do;
    var u1 := Do(w, a);
    var u2 := Do(u1, b);
    var u3 := Do(u2, c);
    var u4 := Do(u3, d);
    LastStep(Do(u4, e), f);
    RunFirst(u4, e, [f]);
    RunFirst(u3, d, [e] + [f]);
    RunFirst(u2, c, [d] + ([e] + [f]));
    RunFirst(u1, b, [c] + ([d] + ([e] + [f])));
    RunFirst(w, a, [b] + ([c] + ([d] + ([e] + [f]))));
    assert [a] + ([b] + ([c] + ([d] + ([e] + [f])))) == [a, b, c, d, e, f];
  }

  lemma LastStep(w: World, a: Action)
    requires Enabled(w, a)
    ensures IsRun(w, [a]) && RunFrom(w, [a]) == Do(w, a)
  {
    hide Enabled, Do;
    assert [a][1..] == [];
  }

  // ----- Such a step is reachable -----

  lemma {:induction false} RunThenRun(w: World, a: seq<Action>, b: seq<Action>)
    requires IsRun(w, a) && IsRun(RunFrom(w, a), b)
    ensures IsRun(w, a + b) && RunFrom(w, a + b) == RunFrom(RunFrom(w, a), b)
    decreases |a|
  {
    hide Enabled, Do;
    if a == [] {
      assert a + b == b;
    } else {
      RunThenRun(Do(w, a[0]), a[1..], b);
      assert (a + b)[1..] == a[1..] + b;
    }
  }

  /** A process gives a new file its id while it migrates the namespace. */
  function Adoption(p: nat, file: string, namespace: string): seq<Action> {
    [Open(p, file, namespace), Read(p), Lock(p), Recheck(p), Migrate(p, Done), Commit(p)]
  }

  /** The empty world once the first process holds the file's lock. */
  function LockedWorld(nextLogId: nat): World {
    EmptyWorld(nextLogId).(locks := map["f" := 0], processes := map[0 := Process("f", "a", Locked)])
  }

  function AdoptedWorld(nextLogId: nat): World {
    World(map["f" := 0], map[], Log([], {"a"}, nextLogId), map[0 := Process("f", "a", Holding(0))], 1, ["a"], {})
  }

  lemma AdoptionLocks(nextLogId: nat)
    ensures var w := EmptyWorld(nextLogId);
            && Enabled(w, Open(0, "f", "a")) && Enabled(Do(w, Open(0, "f", "a")), Read(0))
            && Enabled(Do(Do(w, Open(0, "f", "a")), Read(0)), Lock(0))
            && Do(Do(Do(w, Open(0, "f", "a")), Read(0)), Lock(0)) == LockedWorld(nextLogId)
  {
  }

  lemma AdoptionCommits(nextLogId: nat)
    ensures var w := LockedWorld(nextLogId);
            && Enabled(w, Recheck(0)) && Enabled(Do(w, Recheck(0)), Migrate(0, Done))
            && Enabled(Do(Do(w, Recheck(0)), Migrate(0, Done)), Commit(0))
            && Do(Do(Do(w, Recheck(0)), Migrate(0, Done)), Commit(0)) == AdoptedWorld(nextLogId)
  {
  }

  lemma AdoptionFromEmpty(nextLogId: nat)
    ensures IsRun(EmptyWorld(nextLogId), Adoption(0, "f", "a"))
    ensures RunFrom(EmptyWorld(nextLogId), Adoption(0, "f", "a")) == AdoptedWorld(nextLogId)
  {
    hide IsRun, RunFrom, Enabled, Do;
    AdoptionLocks(nextLogId);
    AdoptionCommits(nextLogId);
    RunOfSix(EmptyWorld(nextLogId), Open(0, "f", "a"), Read(0), Lock(0), Recheck(0), Migrate(0, Done), Commit(0));
  }

  /** Another process then opens the same file for a second namespace, while the log is out of reach. */
  lemma CarelessStepIsReachable(nextLogId: nat)
    ensures var actions := Adoption(0, "f", "a") + [Open(1, "f", "b"), Read(1)];
            && IsRun(EmptyWorld(nextLogId), actions)
            && var w := RunFrom(EmptyWorld(nextLogId), actions);
               && Enabled(w, Revisit(1, Unreachable)) && !Careful(w, Revisit(1, Unreachable))
               && 2 !in w.processes && "g" !in w.files && "g" !in w.locks && w.log == Log([], {"a"}, nextLogId)
  {
    var w := EmptyWorld(nextLogId);
    AdoptionFromEmpty(nextLogId);
    var u := RunFrom(w, Adoption(0, "f", "a"));
    var rest := [Open(1, "f", "b"), Read(1)];
    assert rest[1..] == [Read(1)] && [Read(1)][1..] == [];
    assert IsRun(u, rest);
    RunThenRun(w, Adoption(0, "f", "a"), rest);
  }

  /** So from an empty world a durable publisher can lose its entry to a purge. */
  lemma DurableEntryCanBePurged(nextLogId: nat)
    requires nextLogId > 0
    ensures exists actions ::
      && IsRun(EmptyWorld(nextLogId), actions)
      && exists e :: e in RunFrom(EmptyWorld(nextLogId), actions).lost && e.publisher.Durable?
  {
    hide IsRun, RunFrom, Enabled, Do, Careful, Agreed, DurableAreSafe;
    var w := EmptyWorld(nextLogId);
    var actions := Adoption(0, "f", "a") + [Open(1, "f", "b"), Read(1)];
    EmptyWorldAgrees(nextLogId);
    CarelessStepIsReachable(nextLogId);
    OneIdPerFile(w, actions);
    var u := RunFrom(w, actions);
    var a := Revisit(1, Unreachable);
    EmptyLogIsValid(u.log);
    CarelessStepCanLoseEntry(u, a, 2, "g");
    var more := [a] + Mishap(1, 2, "g", u.processes[1].namespace);
    RunThenRun(w, actions, more);
  }

  lemma EmptyLogIsValid(log: Log)
    requires log.entries == [] && log.nextId > 0
    ensures Valid(log)
  {
  }
}
