/** What every run of the review queue and of working-memory writes keeps: a never-stored key stays
    out, and a decision stays decided. */
module ReviewQueueLaws {
  import opened Wrappers
  import opened DeletionGuards
  import opened WorkingMemoryState
  import opened WorkingMemoryLaws
  import RightToForget
  import opened ReviewQueueState

  // ----- Runs -----

  /** Any call of any process, with what its cache showed it; a failing call changes nothing. */
  datatype Call =
    | Propose(id: nat, key: string, payload: Payload)
    | Edit(id: nat, edit: CandidateEdit)
    | Approve(id: nat, guard: Option<ConflictGuard>, existing: Option<Json>, decision: string, fits: bool)
    | ApproveScoped(id: nat, key: string, seen: ConflictGuard, existing: Option<Json>, scopedExisting: Option<Json>,
                    decision: string, fits: bool)
    | ExpireExisting(id: nat, seen: ConflictGuard, existing: Option<Json>, decision: string, fits: bool)
    | Reject(id: nat, guard: Option<ConflictGuard>, existing: Option<Json>, decision: string)
    | NeverStoreKey(id: nat, decision: string)
    | FlushCache(cache: Cache, now: int)
    | PersistKey(key: string, value: Json)
    | RemoveRows(keys: set<string>)

  /** New candidates get fresh ids, and a flush writes a cache whose maps agree. */
  ghost predicate Possible(t: Tables, call: Call) {
    match call
    case Propose(id, _, _) => id !in t.candidates
    case FlushCache(c, _) => Consistent(c)
    case _ => true
  }

  ghost function OutcomeOf(t: Tables, call: Call): Outcome
    requires Possible(t, call)
  {
    match call
    case Propose(id, key, p) => Proposed(t, id, key, p)
    case Edit(id, e) => Edited(t, id, e)
    case Approve(id, guard, existing, decision, fits) => Approval(t, id, guard, existing, decision, fits)
    case ApproveScoped(id, key, seen, existing, scoped, decision, fits) =>
      ScopedApproval(t, id, key, seen, existing, scoped, decision, fits)
    case ExpireExisting(id, seen, existing, decision, fits) => ExpiringApproval(t, id, seen, existing, decision, fits)
    case Reject(id, guard, existing, decision) => Rejection(t, id, guard, existing, decision)
    case NeverStoreKey(id, decision) => NeverStoring(t, id, decision)
    case FlushCache(c, now) => Ok(FlushedBy(t, c, now))
    case PersistKey(key, v) =>
      if WorkingRefused(GuardsOf(t), key, v.search) then Err(Refused)
      else Ok(t.(working := t.working[key := v], provenance := t.provenance - {key}))
    case RemoveRows(keys) => Ok(t.(working := t.working - keys))
  }

  ghost function FlushedBy(t: Tables, c: Cache, now: int): Tables {
    var kept := FlushedProvenance(c, t.working, t.provenance.Keys, GuardsOf(t), now);
    t.(working := FlushedTable(c, t.working, GuardsOf(t), now),
       provenance := map k | k in t.provenance && k in kept :: t.provenance[k])
  }

  ghost function Next(t: Tables, call: Call): Tables
    requires Possible(t, call)
  {
    match OutcomeOf(t, call)
    case Ok(after) => after
    case Err(_) => t
  }

  ghost predicate IsHistory(t: Tables, calls: seq<Call>)
    decreases |calls|
  {
    calls == [] || (Possible(t, calls[0]) && IsHistory(Next(t, calls[0]), calls[1..]))
  }

  ghost function AfterAll(t: Tables, calls: seq<Call>): Tables
    requires IsHistory(t, calls)
    decreases |calls|
  {
    if calls == [] then t else AfterAll(Next(t, calls[0]), calls[1..])
  }

  // ----- What is kept -----

  /** Nothing is left of a key but redacted, decided rows. */
  ghost predicate KeptOut(t: Tables, key: string) {
    && key !in t.working && key !in t.provenance
    && (forall i :: i in t.candidates && t.candidates[i].key == key ==>
          !t.candidates[i].status.Pending? && t.candidates[i].payload == Redacted(t.candidates[i].payload))
    && (forall s :: s in t.suppressions && t.suppressions[s].key == key ==>
          t.suppressions[s].payload == Redacted(t.suppressions[s].payload))
  }

  ghost predicate NeverStoredKeptOut(t: Tables) {
    forall key :: key in NeverStoredKeys(t) ==> KeptOut(t, key)
  }

  /** A provenance row names an approved candidate of its key. */
  ghost predicate ProvenanceNamesApproved(t: Tables) {
    forall key :: key in t.provenance ==>
      && t.provenance[key] in t.candidates
      && t.candidates[t.provenance[key]].status.Approved?
      && t.candidates[t.provenance[key]].key == key
  }

  ghost predicate Sound(t: Tables) {
    SuppressionsFiled(t) && NeverStoredKeptOut(t) && ProvenanceNamesApproved(t)
  }

  /** Decisions and suppressions of "t" still stand in "u". */
  ghost predicate DecisionsStand(t: Tables, u: Tables) {
    && (forall i :: i in t.candidates ==> i in u.candidates)
    && (forall i :: i in t.candidates && !t.candidates[i].status.Pending? ==>
          u.candidates[i].status == t.candidates[i].status && u.candidates[i].key == t.candidates[i].key)
    && (forall s :: s in t.suppressions ==> s in u.suppressions && u.suppressions[s].reason == t.suppressions[s].reason)
  }

  lemma EmptyQueueIsSound(guards: Guards, working: Rows)
    ensures Sound(Tables(map[], map[], map[], working, guards))
  {
  }

  /** A pending candidate's key is not never-stored. */
  lemma PendingKeyIsOpen(t: Tables, id: nat)
    requires Sound(t) && IsPending(t, id)
    ensures t.candidates[id].key !in NeverStoredKeys(t)
  {
  }

  lemma NeverStoredIsRefused(t: Tables, key: string, text: string)
    requires key in NeverStoredKeys(t)
    ensures WorkingRefused(GuardsOf(t), key, text)
  {
  }

  /** Changing one candidate to an open key, or deciding one, keeps the queue sound. */
  lemma ReplacingCandidate(t: Tables, id: nat, c: Candidate)
    requires Sound(t) && (id in t.candidates ==> t.candidates[id].status.Pending?)
    requires c.key !in NeverStoredKeys(t)
    ensures Sound(t.(candidates := t.candidates[id := c])) && DecisionsStand(t, t.(candidates := t.candidates[id := c]))
  {
    hide Redacted;
    var u := t.(candidates := t.candidates[id := c]);
    forall key | key in u.provenance
      ensures u.provenance[key] in u.candidates && u.candidates[u.provenance[key]].status.Approved?
              && u.candidates[u.provenance[key]].key == key
    {
      assert u.provenance[key] != id;
    }
    assert NeverStoredKeys(u) == NeverStoredKeys(t);
    forall key | key in NeverStoredKeys(u) ensures KeptOut(u, key) {
      assert KeptOut(t, key);
    }
  }

  lemma StoringKeepsSound(t: Tables, id: nat, key: string)
    requires Sound(t) && IsPending(t, id) && key !in NeverStoredKeys(t)
    ensures Sound(Stored(t, id, key)) && DecisionsStand(t, Stored(t, id, key))
  {
    hide Redacted;
    var c := t.candidates[id].(key := key, status := Approved);
    ReplacingCandidate(t, id, c);
    var u := t.(candidates := t.candidates[id := c]);
    var v := Stored(t, id, key);
    assert NeverStoredKeys(v) == NeverStoredKeys(u);
    forall k | k in NeverStoredKeys(v) ensures KeptOut(v, k) {
      assert KeptOut(u, k);
    }
  }

  lemma SignatureIsFiled(c: Candidate, reason: Reason)
    ensures SignatureFor(c, reason).key == c.key
    ensures SignatureFor(c, reason).NeverStoreSignature? <==> reason.NeverStored?
  {
  }

  /** Suppressing the matching pending candidates changes pending ones only. */
  lemma SuppressingKeeps(t: Tables, id: nat, reason: Reason)
    requires Sound(t) && IsPending(t, id)
    ensures var u := WithSuppression(t, id, reason);
            && SuppressionsFiled(u) && ProvenanceNamesApproved(u)
            && DecisionsStand(t, u) && IsPending(u, id) && u.candidates[id] == t.candidates[id]
            && u.working == t.working && u.provenance == t.provenance
            && u.candidates.Keys == t.candidates.Keys
            && (forall i :: i in t.candidates ==> u.candidates[i].key == t.candidates[i].key)
            && (forall i :: i in t.candidates && !t.candidates[i].status.Pending? ==>
                  u.candidates[i] == t.candidates[i])
            && NeverStoredKeys(u) ==
                 NeverStoredKeys(t) + (if reason.NeverStored? then {t.candidates[id].key} else {})
  {
    hide RejectedOf, Redacted;
    var u := WithSuppression(t, id, reason);
    var s := SignatureFor(t.candidates[id], reason);
    SignatureIsFiled(t.candidates[id], reason);
    assert s in t.suppressions ==> u.suppressions[s].reason == t.suppressions[s].reason;
    NewNeverStoredKeys(t, u, s);
  }

  lemma NewNeverStoredKeys(t: Tables, u: Tables, s: Signature)
    requires s in u.suppressions && u.suppressions == t.suppressions[s := u.suppressions[s]]
    requires s in t.suppressions ==>
      u.suppressions[s].reason == t.suppressions[s].reason && u.suppressions[s].key == t.suppressions[s].key
    ensures NeverStoredKeys(u) ==
      NeverStoredKeys(t) + (if u.suppressions[s].reason.NeverStored? then {u.suppressions[s].key} else {})
  {
    forall key | key in NeverStoredKeys(t) ensures key in NeverStoredKeys(u) {
      var r :| r in t.suppressions && t.suppressions[r].reason.NeverStored? && t.suppressions[r].key == key;
      assert r in u.suppressions && u.suppressions[r].reason.NeverStored? && u.suppressions[r].key == key;
    }
    if u.suppressions[s].reason.NeverStored? {
      assert u.suppressions[s].key in NeverStoredKeys(u);
    }
  }

  lemma RejectingKeepsSound(t: Tables, id: nat)
    requires Sound(t) && IsPending(t, id)
    ensures Sound(Decided(t, id, AlreadyRejected, Rejected))
    ensures DecisionsStand(t, Decided(t, id, AlreadyRejected, Rejected))
  {
    hide Redacted, WithSuppression;
    SuppressingKeeps(t, id, AlreadyRejected);
    var u := WithSuppression(t, id, AlreadyRejected);
    forall key | key in NeverStoredKeys(u) ensures KeptOut(u, key) {
      SuppressingKeepsKeptOut(t, id, key);
    }
    ReplacingCandidate(u, id, t.candidates[id].(status := Rejected));
  }

  lemma SuppressingKeepsKeptOut(t: Tables, id: nat, key: string)
    requires Sound(t) && IsPending(t, id) && KeptOut(t, key)
    ensures KeptOut(WithSuppression(t, id, AlreadyRejected), key)
  {
    hide Redacted, RejectedOf;
    assert t.candidates[id].key != key;
    var u := WithSuppression(t, id, AlreadyRejected);
    SignatureIsFiled(t.candidates[id], AlreadyRejected);
    forall s | s in u.suppressions && u.suppressions[s].key == key
      ensures u.suppressions[s].payload == Redacted(u.suppressions[s].payload)
    {
      assert s in t.suppressions;
    }
  }

  lemma RedactingKeepsSound(t: Tables, s: Signature)
    requires Sound(t)
    ensures Sound(RejectedRedacted(t, s)) && DecisionsStand(t, RejectedRedacted(t, s))
  {
    hide RejectedOf;
    var u := RejectedRedacted(t, s);
    assert forall r :: r in t.suppressions ==>
      u.suppressions[r].reason == t.suppressions[r].reason && u.suppressions[r].key == t.suppressions[r].key;
    assert NeverStoredKeys(u) == NeverStoredKeys(t);
    forall key | key in NeverStoredKeys(u) ensures KeptOut(u, key) {
      assert KeptOut(t, key);
    }
  }

  lemma RedactionFixed(p: Payload)
    ensures Redacted(Redacted(p)) == Redacted(p)
  {
  }

  lemma PurgeKeepsOut(t: Tables, id: nat)
    requires Sound(t) && IsPending(t, id)
    ensures KeptOut(Purged(t, id), t.candidates[id].key)
  {
    hide Redacted, RejectedOf, SuppressionRow;
    var key := t.candidates[id].key;
    var u := Purged(t, id);
    forall i | i in u.candidates && u.candidates[i].key == key
      ensures !u.candidates[i].status.Pending? && u.candidates[i].payload == Redacted(u.candidates[i].payload)
    {
      RedactionFixed(Decided(t, id, NeverStored, NeverStore).candidates[i].payload);
    }
    forall s | s in u.suppressions && u.suppressions[s].key == key
      ensures u.suppressions[s].payload == Redacted(u.suppressions[s].payload)
    {
      RedactionFixed(Decided(t, id, NeverStored, NeverStore).suppressions[s].payload);
    }
  }

  /** What the redaction of a never-store decision leaves alone. */
  lemma PurgeFrame(t: Tables, d: Tables, id: nat)
    requires Sound(t) && IsPending(t, id) && d == Decided(t, id, NeverStored, NeverStore)
    ensures SuppressionsFiled(d) && DecisionsStand(t, d)
    ensures NeverStoredKeys(d) == NeverStoredKeys(t) + {t.candidates[id].key}
    ensures d.working == t.working && d.provenance == t.provenance && d.candidates.Keys == t.candidates.Keys
    ensures forall i :: i in t.candidates ==> d.candidates[i].key == t.candidates[i].key
    ensures forall i :: i in t.candidates && !t.candidates[i].status.Pending? ==> d.candidates[i] == t.candidates[i]
  {
    hide WithSuppression, Redacted;
    SuppressingKeeps(t, id, NeverStored);
    assert d.suppressions == WithSuppression(t, id, NeverStored).suppressions;
    assert NeverStoredKeys(d) == NeverStoredKeys(WithSuppression(t, id, NeverStored));
  }

  lemma RedactedKeys(t: Tables, u: Tables, key: string)
    requires u.suppressions == SuppressionsRedacted(t.suppressions, key)
    ensures NeverStoredKeys(u) == NeverStoredKeys(t)
    ensures SuppressionsFiled(t) ==> SuppressionsFiled(u)
  {
    hide Redacted;
    forall k | k in NeverStoredKeys(t) ensures k in NeverStoredKeys(u) {
      var s :| s in t.suppressions && t.suppressions[s].reason.NeverStored? && t.suppressions[s].key == k;
      assert s in u.suppressions && u.suppressions[s].reason.NeverStored? && u.suppressions[s].key == k;
    }
  }

  lemma NeverStoringKeepsSound(t: Tables, id: nat)
    requires Sound(t) && IsPending(t, id)
    ensures Sound(Purged(t, id)) && DecisionsStand(t, Purged(t, id))
    ensures t.candidates[id].key in NeverStoredKeys(Purged(t, id))
  {
    hide Redacted, Decided;
    var key := t.candidates[id].key;
    var d, u := Decided(t, id, NeverStored, NeverStore), Purged(t, id);
    PurgeFrame(t, d, id);
    RedactedKeys(d, u, key);
    PurgeKeepsOut(t, id);
    forall k | k in NeverStoredKeys(u) ensures KeptOut(u, k) {
      if k != key {
        assert KeptOut(t, k);
        PurgeKeepsOthersOut(t, id, k);
      }
    }
    forall k | k in u.provenance
      ensures u.provenance[k] in u.candidates && u.candidates[u.provenance[k]].status.Approved?
              && u.candidates[u.provenance[k]].key == k
    {
      assert k in t.provenance;
    }
  }

  lemma PurgeKeepsOthersOut(t: Tables, id: nat, k: string)
    requires Sound(t) && IsPending(t, id) && KeptOut(t, k) && k != t.candidates[id].key
    ensures KeptOut(Purged(t, id), k)
  {
    hide Redacted, RejectedOf;
    var u := Purged(t, id);
    forall s | s in u.suppressions && u.suppressions[s].key == k
      ensures u.suppressions[s].payload == Redacted(u.suppressions[s].payload)
    {
      assert s in t.suppressions && u.suppressions[s] == t.suppressions[s];
    }
    forall i | i in u.candidates && u.candidates[i].key == k
      ensures !u.candidates[i].status.Pending? && u.candidates[i].payload == Redacted(u.candidates[i].payload)
    {
      assert u.candidates[i] == t.candidates[i];
    }
  }

  lemma FlushKeepsSound(t: Tables, c: Cache, now: int)
    requires Sound(t) && Consistent(c)
    ensures Sound(FlushedBy(t, c, now)) && DecisionsStand(t, FlushedBy(t, c, now))
  {
    hide FlushedTable, FlushedProvenance, WorkingRefused, Redacted;
    var u := FlushedBy(t, c, now);
    assert NeverStoredKeys(u) == NeverStoredKeys(t);
    forall key | key in NeverStoredKeys(u) ensures KeptOut(u, key) {
      assert KeptOut(t, key);
      if key in u.working {
        RightToForget.FlushedRowIsOldOrAllowed(c, t.working, GuardsOf(t), now, key);
        NeverStoredIsRefused(t, key, u.working[key].search);
      }
    }
  }

  lemma WorkingChangeKeepsSound(t: Tables, working: Rows, provenance: map<string, nat>)
    requires Sound(t) && working.Keys !! NeverStoredKeys(t)
    requires forall k :: k in provenance ==> k in t.provenance && provenance[k] == t.provenance[k]
    ensures Sound(t.(working := working, provenance := provenance))
    ensures DecisionsStand(t, t.(working := working, provenance := provenance))
  {
    hide Redacted;
    var u := t.(working := working, provenance := provenance);
    assert NeverStoredKeys(u) == NeverStoredKeys(t);
    forall key | key in NeverStoredKeys(u) ensures KeptOut(u, key) {
      assert KeptOut(t, key);
    }
  }

  lemma NoChangeStands(t: Tables)
    ensures DecisionsStand(t, t)
  {
  }

  /** Suppressed or stored under an open key: either way the queue stays sound. */
  lemma ApprovingKeepsSound(t: Tables, id: nat, key: string, reason: Reason)
    requires Sound(t) && IsPending(t, id) && key !in NeverStoredKeys(t)
    ensures Sound(Stored(t, id, key)) && DecisionsStand(t, Stored(t, id, key))
    ensures Sound(MarkedSuppressed(t, id, key, reason)) && DecisionsStand(t, MarkedSuppressed(t, id, key, reason))
  {
    hide Sound, DecisionsStand, NeverStoredKeys;
    StoringKeepsSound(t, id, key);
    ReplacingCandidate(t, id, Marked(t.candidates[id].(key := key), reason));
  }

  lemma ProposalCallsKeepSound(t: Tables, call: Call)
    requires Sound(t) && Possible(t, call) && (call.Propose? || call.Edit?)
    ensures Sound(Next(t, call)) && DecisionsStand(t, Next(t, call))
  {
    hide Sound, DecisionsStand, NeverStoredKeys, WorkingRefused, SuppressionOf, ValidProposal;
    NoChangeStands(t);
    match call
    case Propose(id, key, p) =>
      if OutcomeOf(t, call).Ok? && SuppressionOf(t, key, p).None? {
        if key in NeverStoredKeys(t) {
          NeverStoredIsRefused(t, key, p.value.search);
        }
        ReplacingCandidate(t, id, Candidate(key, p, Pending, None));
      }
    case Edit(id, e) =>
      if OutcomeOf(t, call).Ok? {
        var c := t.candidates[id];
        var key, p := Chosen(e.key, c.key), EditedPayload(c.payload, e);
        if key in NeverStoredKeys(t) {
          NeverStoredIsRefused(t, key, p.value.search);
        }
        ReplacingCandidate(t, id, c.(key := key, payload := p));
      }
  }

  lemma ApprovalCallsKeepSound(t: Tables, call: Call)
    requires Sound(t) && Possible(t, call) && (call.Approve? || call.ApproveScoped? || call.ExpireExisting?)
    ensures Sound(Next(t, call)) && DecisionsStand(t, Next(t, call))
  {
    hide Sound, DecisionsStand, NeverStoredKeys, WorkingRefused, SuppressionOf, ValidProposal, Stored, MarkedSuppressed;
    hide Conflicts, ConflictUnchanged, DecisionRefused;
    NoChangeStands(t);
    if OutcomeOf(t, call).Ok? && IsPending(t, call.id) {
      var c := t.candidates[call.id];
      PendingKeyIsOpen(t, call.id);
      var key := if call.ApproveScoped? then call.key else c.key;
      if key in NeverStoredKeys(t) {
        NeverStoredIsRefused(t, key, c.payload.value.search);
      }
      var s := SuppressionOf(t, key, c.payload);
      ApprovingKeepsSound(t, call.id, key, if s.Some? then s.value else AlreadyRejected);
    }
  }

  lemma DecisionCallsKeepSound(t: Tables, call: Call)
    requires Sound(t) && Possible(t, call) && (call.Reject? || call.NeverStoreKey?)
    ensures Sound(Next(t, call)) && DecisionsStand(t, Next(t, call))
  {
    hide Sound, DecisionsStand, WorkingRefused, Decided, RejectedRedacted, DecisionRefused, RejectedOf;
    hide ConflictUnchanged, Purged;
    NoChangeStands(t);
    if OutcomeOf(t, call).Ok? {
      if call.Reject? {
        RejectingKeepsSound(t, call.id);
        var c, d := t.candidates[call.id], Decided(t, call.id, AlreadyRejected, Rejected);
        RedactingKeepsSound(d, RejectedOf(c.key, c.payload));
        StandingIsTransitive(t, d, RejectedRedacted(d, RejectedOf(c.key, c.payload)));
      } else {
        NeverStoringKeepsSound(t, call.id);
      }
    }
  }

  lemma StandingIsTransitive(t: Tables, u: Tables, v: Tables)
    requires DecisionsStand(t, u) && DecisionsStand(u, v)
    ensures DecisionsStand(t, v)
  {
  }

  lemma StandingKeepsNeverStored(t: Tables, u: Tables)
    requires Sound(t) && Sound(u) && DecisionsStand(t, u)
    ensures NeverStoredKeys(t) <= NeverStoredKeys(u)
  {
    forall key | key in NeverStoredKeys(t) ensures key in NeverStoredKeys(u) {
      var s :| s in t.suppressions && t.suppressions[s].reason.NeverStored? && t.suppressions[s].key == key;
      assert s in u.suppressions && u.suppressions[s].reason.NeverStored? && u.suppressions[s].key == s.key;
    }
  }

  lemma CallKeepsSound(t: Tables, call: Call)
    requires Sound(t) && Possible(t, call)
    ensures Sound(Next(t, call)) && DecisionsStand(t, Next(t, call))
  {
    hide Sound, DecisionsStand;
    match call
    case Propose(_, _, _) => ProposalCallsKeepSound(t, call);
    case Edit(_, _) => ProposalCallsKeepSound(t, call);
    case Approve(_, _, _, _, _) => ApprovalCallsKeepSound(t, call);
    case ApproveScoped(_, _, _, _, _, _, _) => ApprovalCallsKeepSound(t, call);
    case ExpireExisting(_, _, _, _, _) => ApprovalCallsKeepSound(t, call);
    case Reject(_, _, _, _) => DecisionCallsKeepSound(t, call);
    case NeverStoreKey(_, _) => DecisionCallsKeepSound(t, call);
    case FlushCache(c, now) => FlushKeepsSound(t, c, now);
    case PersistKey(key, v) =>
      NoChangeStands(t);
      if OutcomeOf(t, call).Ok? {
        PersistingKeepsSound(t, key, v);
      }
    case RemoveRows(keys) => RemovingKeepsSound(t, keys);
  }

  lemma PersistingKeepsSound(t: Tables, key: string, v: Json)
    requires Sound(t) && !WorkingRefused(GuardsOf(t), key, v.search)
    ensures var u := t.(working := t.working[key := v], provenance := t.provenance - {key});
            Sound(u) && DecisionsStand(t, u)
  {
    hide WorkingRefused;
    if key in NeverStoredKeys(t) {
      NeverStoredIsRefused(t, key, v.search);
    }
    SoundWorkingKeys(t);
    WorkingChangeKeepsSound(t, t.working[key := v], t.provenance - {key});
  }

  lemma SoundWorkingKeys(t: Tables)
    requires Sound(t)
    ensures t.working.Keys !! NeverStoredKeys(t)
  {
    forall key | key in NeverStoredKeys(t) ensures key !in t.working {
      assert KeptOut(t, key);
    }
  }

  lemma RemovingKeepsSound(t: Tables, keys: set<string>)
    requires Sound(t)
    ensures Sound(t.(working := t.working - keys)) && DecisionsStand(t, t.(working := t.working - keys))
  {
    SoundWorkingKeys(t);
    WorkingChangeKeepsSound(t, t.working - keys, t.provenance);
  }

  // ----- Main results -----

  /** Every history keeps the queue sound, every decision final and every suppression in force. */
  lemma {:induction false} DecisionsAreFinal(t: Tables, calls: seq<Call>)
    requires Sound(t) && IsHistory(t, calls)
    ensures Sound(AfterAll(t, calls)) && DecisionsStand(t, AfterAll(t, calls))
    decreases |calls|
  {
    hide Sound, DecisionsStand, Next, Possible;
    if calls == [] {
      NoChangeStands(t);
    } else {
      CallKeepsSound(t, calls[0]);
      DecisionsAreFinal(Next(t, calls[0]), calls[1..]);
      StandingIsTransitive(t, Next(t, calls[0]), AfterAll(t, calls));
    }
  }

  /** From an empty queue every history is sound. */
  lemma EveryHistoryIsSound(guards: Guards, working: Rows, calls: seq<Call>)
    requires IsHistory(Tables(map[], map[], map[], working, guards), calls)
    ensures Sound(AfterAll(Tables(map[], map[], map[], working, guards), calls))
  {
    hide IsHistory, AfterAll, Sound;
    EmptyQueueIsSound(guards, working);
    DecisionsAreFinal(Tables(map[], map[], map[], working, guards), calls);
  }

  /** Never-store is forever: once it decides a candidate, no later call of any process leaves a
      pending candidate, a provenance row, a working row or an unredacted row for the key. */
  lemma NeverStoreIsForever(t: Tables, id: nat, decision: string, calls: seq<Call>)
    requires Sound(t) && NeverStoring(t, id, decision).Ok?
    requires IsHistory(NeverStoring(t, id, decision).value, calls)
    ensures KeptOut(AfterAll(NeverStoring(t, id, decision).value, calls), t.candidates[id].key)
  {
    hide KeptOut, DecisionsStand, IsHistory, AfterAll, DecisionRefused, Decided, NeverStoredKeys, SuppressionsFiled;
    hide Purged, ProvenanceNamesApproved;
    var u := NeverStoring(t, id, decision).value;
    NeverStoringKeepsSound(t, id);
    DecisionsAreFinal(u, calls);
    StandingKeepsNeverStored(u, AfterAll(u, calls));
  }

  /** Rejection is remembered: the same content proposed again is suppressed, whatever happened since. */
  lemma RejectionIsRemembered(t: Tables, id: nat, guard: Option<ConflictGuard>, existing: Option<Json>,
                              decision: string, calls: seq<Call>)
    requires Sound(t) && Rejection(t, id, guard, existing, decision).Ok?
    requires IsHistory(Rejection(t, id, guard, existing, decision).value, calls)
    ensures var c, u := t.candidates[id], AfterAll(Rejection(t, id, guard, existing, decision).value, calls);
            && SuppressionOf(u, c.key, c.payload).Some?
            && Proposed(u, id, c.key, c.payload) in {Ok(u), Err(InvalidProposal), Err(Refused)}
  {
    hide DecisionsStand, Sound, IsHistory, AfterAll, DecisionRefused, ConflictUnchanged, ValidProposal, ProposalRefused;
    var u := Rejection(t, id, guard, existing, decision).value;
    var c := t.candidates[id];
    var s := RejectedOf(c.key, c.payload);
    assert s in u.suppressions;
    DecisionCallsKeepSound(t, Reject(id, guard, existing, decision));
    DecisionsAreFinal(u, calls);
    SuppressionStands(u, AfterAll(u, calls), s);
  }

  lemma SuppressionStands(t: Tables, u: Tables, s: Signature)
    requires DecisionsStand(t, u) && s in t.suppressions
    ensures s in u.suppressions
  {
  }
}
