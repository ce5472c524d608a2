/** Opening a brain file: the call that finds or commits its durable publisher id. */
module BrainRegistry {
  import opened Wrappers
  import HiveMindStore
  import opened PublisherMigration
  import opened PublisherMigrationLaws

  /** The registry metadata of one brain file. */
  class BrainFile {
    var publisherId: Option<nat>

    constructor ()
      ensures publisherId.None?
    {
      publisherId := None;
    }
  }

  /** What the call returns; "concurrent" is an id another process commits between the first read
      and the write lock. */
  function AdoptedId(stored: Option<nat>, concurrent: Option<nat>, newId: nat, reply: Reply): Option<nat> {
    if stored.Some? then stored
    else if concurrent.Some? then concurrent
    else if reply.Done? then Some(newId)
    else None
  }

  /** Whether the call reaches the shared log and records the namespace there. */
  predicate Migrates(stored: Option<nat>, concurrent: Option<nat>, reply: Reply) {
    !reply.Unreachable? && (stored.Some? || concurrent.None?)
  }

  /** Returns the file's publisher id, adopting a new one after the namespace's migration; fails,
      leaving the file as it was, when a file without an id cannot reach the log. */
  method DurablePublisherId(brain: BrainFile, hive: HiveMindStore.Store, namespace: string,
                            concurrent: Option<nat>, newId: nat, reply: Reply)
    returns (id: Option<nat>)
    modifies brain, hive
    ensures id == AdoptedId(old(brain.publisherId), concurrent, newId, reply)
    ensures id.Some? ==> brain.publisherId == id
    ensures id.None? ==> brain.publisherId.None?
    ensures hive.log == if Migrates(old(brain.publisherId), concurrent, reply)
                        then HiveMindStore.Migrated(old(hive.log), namespace, true) else old(hive.log)
  {
    if brain.publisherId.Some? {
      if !reply.Unreachable? {
        var _ := hive.CompleteLegacyPublisherMigration(namespace, true);
      }
      return brain.publisherId;
    }
    if concurrent.Some? {
      brain.publisherId := concurrent;
      return brain.publisherId;
    }
    if reply.Unreachable? {
      return None;
    }
    var _ := hive.CompleteLegacyPublisherMigration(namespace, true);
    if reply.CleanUpFailed? {
      return None;
    }
    brain.publisherId := Some(newId);
    return Some(newId);
  }

  /** The steps one undisturbed call takes in the protocol. */
  function CallSteps(stored: Option<nat>, p: nat, reply: Reply): seq<Action> {
    if stored.Some? then [Read(p), Revisit(p, reply)]
    else [Read(p), Lock(p), Recheck(p), Migrate(p, reply)] + if reply.Done? then [Commit(p)] else []
  }

  function Stored(w: World, file: string): Option<nat> {
    if file in w.files then Some(w.files[file]) else None
  }

  lemma RunOfFour(w: World, a: Action, b: Action, c: Action, rest: seq<Action>)
    requires Enabled(w, a) && Enabled(Do(w, a), b) && Enabled(Do(Do(w, a), b), c)
    requires IsRun(Do(Do(Do(w, a), b), c), rest)
    ensures IsRun(w, [a, b, c] + rest)
    ensures RunFrom(w, [a, b, c] + rest) == RunFrom(Do(Do(Do(w, a), b), c), rest)
  {
    hide Enabled, Do;
    var u := Do(w, a);
    RunFirst(Do(u, b), c, rest);
    RunFirst(u, b, [c] + rest);
    RunFirst(w, a, [b] + ([c] + rest));
    assert [a] + ([b] + ([c] + rest)) == [a, b, c] + rest;
  }

  lemma RunOfTwo(w: World, a: Action, b: Action)
    requires Enabled(w, a) && Enabled(Do(w, a), b)
    ensures IsRun(w, [a, b]) && RunFrom(w, [a, b]) == Do(Do(w, a), b)
  {
    hide Enabled, Do;
    LastStep(Do(w, a), b);
    RunFirst(w, a, [b]);
    assert [a] + [b] == [a, b];
  }

  /** One undisturbed call is a run of the protocol: it returns the id its process then holds, and
      leaves file and log as the method does. */
  lemma CallIsProtocolRun(w: World, p: nat, reply: Reply)
    requires p in w.processes && w.processes[p].phase.Reading? && w.processes[p].file !in w.locks
    ensures var x := w.processes[p];
            var stored := Stored(w, x.file);
            var id := AdoptedId(stored, None, w.nextPublisher, reply);
            && IsRun(w, CallSteps(stored, p, reply))
            && var after := RunFrom(w, CallSteps(stored, p, reply));
               && p in after.processes
               && after.processes[p] == x.(phase := if id.Some? then Holding(id.value) else Failed)
               && Stored(after, x.file) == id && after.locks == w.locks
               && after.log ==
                    if Migrates(stored, None, reply) then HiveMindStore.Migrated(w.log, x.namespace, true) else w.log
  {
    hide HiveMindStore.PurgedNamespace;
    var x := w.processes[p];
    var u := Do(w, Read(p));
    if x.file in w.files {
      RunOfTwo(w, Read(p), Revisit(p, reply));
    } else {
      var v := Do(Do(u, Lock(p)), Recheck(p));
      assert v.locks == w.locks[x.file := p] && v.log == w.log;
      assert w.locks[x.file := p] - {x.file} == w.locks;
      MigrateAndCommit(v, p, reply);
      RunOfFour(w, Read(p), Lock(p), Recheck(p), LastSteps(p, reply));
      assert [Read(p), Lock(p), Recheck(p)] + LastSteps(p, reply) == CallSteps(None, p, reply);
    }
  }

  function LastSteps(p: nat, reply: Reply): seq<Action> {
    if reply.Done? then [Migrate(p, reply), Commit(p)] else [Migrate(p, reply)]
  }

  lemma MigrateAndCommit(w: World, p: nat, reply: Reply)
    requires p in w.processes && w.processes[p].phase.Vacant? && w.processes[p].file !in w.files
    ensures IsRun(w, LastSteps(p, reply))
    ensures var x, after := w.processes[p], RunFrom(w, LastSteps(p, reply));
            && p in after.processes
            && after.processes[p] == x.(phase := if reply.Done? then Holding(w.nextPublisher) else Failed)
            && Stored(after, x.file) == (if reply.Done? then Some(w.nextPublisher) else None)
            && after.locks == w.locks - {x.file}
            && after.log == if reply.Unreachable? then w.log else HiveMindStore.Migrated(w.log, x.namespace, true)
  {
    hide HiveMindStore.PurgedNamespace;
    if reply.Done? {
      RunOfTwo(w, Migrate(p, reply), Commit(p));
    } else {
      LastStep(w, Migrate(p, reply));
    }
  }
}
