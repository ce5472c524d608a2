/** How processes that open brain files agree on durable publisher ids, while each namespace of the
    shared log is purged of random-id publications once: a protocol over two databases whose
    processes may stop at any step. */
module PublisherMigration {
  import opened Wrappers
  import opened HiveMindStore
  import HivePolling

  // ----- State -----

  /** Where a process is: it reads the file's id; if there is one it revisits the log, otherwise it
      takes the file's write lock, reads again, migrates the namespace and commits a new id. */
  datatype Phase =
    Reading | Found(id: nat) | NotFound | Locked | Vacant | Adopting | Holding(id: nat) | Failed

  datatype Process = Process(file: string, namespace: string, phase: Phase)

  /** "purges" and "lost" record the namespaces purged and the entries purges removed. */
  datatype World = World(
    files: map<string, nat>,
    locks: map<string, nat>,
    log: Log,
    processes: map<nat, Process>,
    nextPublisher: nat,
    purges: seq<string>,
    lost: set<Entry>)

  /** The log is out of reach, or the migration commits but its clean-up fails, or all goes well. */
  datatype Reply = Unreachable | CleanUpFailed | Done

  datatype Action =
    | Open(p: nat, file: string, namespace: string)
    | Read(p: nat)
    | Revisit(p: nat, reply: Reply)
    | Lock(p: nat)
    | Recheck(p: nat)
    | Migrate(p: nat, reply: Reply)
    | Commit(p: nat)
    | Crash(p: nat)
    | PublishDurable(p: nat, kind: Kind, payload: string, max: nat)
    | PublishRandom(namespace: string, publisher: nat, kind: Kind, payload: string, max: nat)
    | Remove(ids: set<nat>)

  predicate InTransaction(phase: Phase) {
    phase.Locked? || phase.Vacant? || phase.Adopting?
  }

  ghost predicate Enabled(w: World, a: Action) {
    match a
    case Open(p, _, _) => p !in w.processes
    case Read(p) => p in w.processes && w.processes[p].phase.Reading?
    case Revisit(p, _) => p in w.processes && w.processes[p].phase.Found?
    case Lock(p) => p in w.processes && w.processes[p].phase.NotFound? && w.processes[p].file !in w.locks
    case Recheck(p) => p in w.processes && w.processes[p].phase.Locked?
    case Migrate(p, _) => p in w.processes && w.processes[p].phase.Vacant?
    case Commit(p) => p in w.processes && w.processes[p].phase.Adopting?
    case Crash(p) => p in w.processes
    case PublishDurable(p, _, _, max) => p in w.processes && w.processes[p].phase.Holding? && max > 0
    case PublishRandom(_, _, _, _, max) => max > 0
    case Remove(_) => true
  }

  function Moved(w: World, p: nat, phase: Phase): World
    requires p in w.processes
  {
    w.(processes := w.processes[p := w.processes[p].(phase := phase)])
  }

  /** Leaving the transaction, whether it committed or rolled back, frees the file. */
  function Left(w: World, p: nat, phase: Phase): World
    requires p in w.processes
  {
    Moved(w.(locks := w.locks - {w.processes[p].file}), p, phase)
  }

  ghost function NamespaceMigrated(w: World, namespace: string): World {
    if namespace in w.log.migrated then w
    else w.(log := HiveMindStore.Migrated(w.log, namespace, true),
            purges := w.purges + [namespace],
            lost := w.lost + (set e | e in w.log.entries && e.namespace == namespace))
  }

  ghost function Do(w: World, a: Action): World
    requires Enabled(w, a)
  {
    match a
    case Open(p, file, namespace) => w.(processes := w.processes[p := Process(file, namespace, Reading)])
    case Read(p) =>
      var file := w.processes[p].file;
      Moved(w, p, if file in w.files then Found(w.files[file]) else NotFound)
    case Revisit(p, reply) =>
      var after := if reply.Unreachable? then w else NamespaceMigrated(w, w.processes[p].namespace);
      Moved(after, p, Holding(w.processes[p].phase.id))
    case Lock(p) => Moved(w.(locks := w.locks[w.processes[p].file := p]), p, Locked)
    case Recheck(p) =>
      var file := w.processes[p].file;
      if file in w.files then Left(w, p, Holding(w.files[file])) else Moved(w, p, Vacant)
    case Migrate(p, reply) =>
      if reply.Unreachable? then Left(w, p, Failed)
      else
        var after := NamespaceMigrated(w, w.processes[p].namespace);
        if reply.CleanUpFailed? then Left(after, p, Failed) else Moved(after, p, Adopting)
    case Commit(p) =>
      var id := w.nextPublisher;
      Left(w.(files := w.files[w.processes[p].file := id], nextPublisher := id + 1), p, Holding(id))
    case Crash(p) =>
      if InTransaction(w.processes[p].phase) then Left(w, p, Failed) else Moved(w, p, Failed)
    case PublishDurable(p, kind, payload, max) =>
      w.(log := Published(w.log, w.processes[p].namespace, Durable(w.processes[p].phase.id), kind, payload, max))
    case PublishRandom(namespace, id, kind, payload, max) =>
      w.(log := Published(w.log, namespace, ProcessRandom(id), kind, payload, max))
    case Remove(ids) => w.(log := HiveMindStore.Removed(w.log, ids))
  }

  ghost predicate IsRun(w: World, actions: seq<Action>)
    decreases |actions|
  {
    actions == [] || (Enabled(w, actions[0]) && IsRun(Do(w, actions[0]), actions[1..]))
  }

  ghost function RunFrom(w: World, actions: seq<Action>): World
    requires IsRun(w, actions)
    decreases |actions|
  {
    if actions == [] then w else RunFrom(Do(w, actions[0]), actions[1..])
  }

  // ----- Invariants -----

  /** A file's lock and the process inside its transaction name each other. */
  ghost predicate LocksAgree(w: World) {
    && (forall f :: f in w.locks ==>
          && w.locks[f] in w.processes && w.processes[w.locks[f]].file == f
          && InTransaction(w.processes[w.locks[f]].phase))
    && (forall p :: p in w.processes && InTransaction(w.processes[p].phase) ==>
          w.processes[p].file in w.locks && w.locks[w.processes[p].file] == p)
  }

  ghost predicate PhaseAgrees(w: World, x: Process) {
    match x.phase
    case Found(id) => x.file in w.files && w.files[x.file] == id
    case Holding(id) => x.file in w.files && w.files[x.file] == id
    case Vacant => x.file !in w.files
    case Adopting => x.file !in w.files && x.namespace in w.log.migrated
    case _ => true
  }

  /** Everybody who holds an id holds the one in the file; ids of different files differ. */
  ghost predicate IdsAgree(w: World) {
    && (forall p :: p in w.processes ==> PhaseAgrees(w, w.processes[p]))
    && (forall f :: f in w.files ==> w.files[f] < w.nextPublisher)
    && (forall f, g :: f in w.files && g in w.files && w.files[f] == w.files[g] ==> f == g)
  }

  ghost predicate Distinct(s: seq<string>) {
    forall i, j :: 0 <= i < j < |s| ==> s[i] != s[j]
  }

  ghost predicate PurgedOnce(w: World) {
    Distinct(w.purges) && forall n :: n in w.purges ==> n in w.log.migrated
  }

  /** Durable ids are only at work in namespaces already migrated, so no purge meets them. */
  ghost predicate DurableAreSafe(w: World) {
    && (forall p :: p in w.processes && w.processes[p].phase.Holding? ==> w.processes[p].namespace in w.log.migrated)
    && (forall e :: e in w.log.entries && e.publisher.Durable? ==> e.namespace in w.log.migrated)
    && (forall e :: e in w.lost ==> !e.publisher.Durable?)
  }

  ghost predicate Agreed(w: World) {
    LocksAgree(w) && IdsAgree(w) && PurgedOnce(w)
  }

  /** An outage of the log is tolerated only where the namespace is already migrated, and an id
      found under lock is used only there. */
  ghost predicate Careful(w: World, a: Action) {
    match a
    case Revisit(p, Unreachable) => p in w.processes && w.processes[p].namespace in w.log.migrated
    case Recheck(p) =>
      p in w.processes && (w.processes[p].file in w.files ==> w.processes[p].namespace in w.log.migrated)
    case _ => true
  }

  ghost predicate AllCareful(w: World, actions: seq<Action>)
    requires IsRun(w, actions)
    decreases |actions|
  {
    actions == [] || (Careful(w, actions[0]) && AllCareful(Do(w, actions[0]), actions[1..]))
  }
}
