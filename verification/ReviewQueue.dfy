/** The review queue as it works: each operation one transaction on the shared tables. */
module ReviewQueue {
  import opened Wrappers
  import opened DeletionGuards
  import opened WorkingMemoryState
  import opened ReviewQueueState
  import opened ReviewQueueLaws
  import opened ReviewQueueEffects

  method IsProposalRefused(g: Guards, key: string, p: Payload) returns (refused: bool)
    ensures refused <==> ProposalRefused(g, key, p)
  {
    hide WorkingRefused;
    refused := IsWorkingRefused(g, key, p.value.search);
    if !refused {
      refused := IsWorkingRefused(g, key, ProposalSearch(p));
    }
  }

  method IsDecisionRefused(g: Guards, decision: string) returns (refused: bool)
    ensures refused <==> DecisionRefused(g, decision)
  {
    hide WorkingRefused;
    if decision == "" {
      return false;
    }
    refused := IsWorkingRefused(g, "memory-review-decision", decision);
  }

  /** Every path to a result either commits what the outcome says or leaves the tables alone. */
  ghost predicate Transacted(before: Tables, after: Tables, outcome: Outcome, auditFails: bool,
                             failure: Option<ReviewFailure>) {
    if outcome.Err? then after == before && failure == Some(outcome.error)
    else if auditFails then after == before && failure == Some(AuditRecordFailed)
    else after == outcome.value && failure == None
  }

  class SqliteMemoryReviewQueue {
    var tables: Tables

    constructor (tables: Tables)
      ensures this.tables == tables
    {
      this.tables := tables;
    }

    // ----- Suppressions -----

    method FindMatchingSuppression(key: string, p: Payload) returns (reason: Option<Reason>)
      ensures reason.Some? <==> HasMatchingRow(tables, key, p)
      ensures reason.Some? ==> exists s :: s in tables.suppressions && MatchesRow(tables.suppressions[s], key, p)
                                 && tables.suppressions[s].reason == reason.value
    {
      hide MatchesRow;
      var todo := tables.suppressions.Keys;
      while todo != {}
        invariant forall s :: s in tables.suppressions && s !in todo ==> !MatchesRow(tables.suppressions[s], key, p)
      {
        var s :| s in todo;
        if s in tables.suppressions && MatchesRow(tables.suppressions[s], key, p) {
          return Some(tables.suppressions[s].reason);
        }
        todo := todo - {s};
      }
      return None;
    }

    method FindCandidateSuppression(key: string, p: Payload) returns (reason: Option<Reason>)
      requires SuppressionsFiled(tables)
      ensures reason == SuppressionOf(tables, key, p)
    {
      if NeverStoreSignature(key) in tables.suppressions {
        return Some(tables.suppressions[NeverStoreSignature(key)].reason);
      }
      if RejectedOf(key, p) in tables.suppressions {
        return Some(tables.suppressions[RejectedOf(key, p)].reason);
      }
      reason := FindMatchingSuppression(key, p);
    }

    method MarkSuppressed(id: nat, reason: Reason)
      requires IsPending(tables, id)
      modifies this
      ensures tables == old(tables).(
        candidates := old(tables).candidates[id := Marked(old(tables).candidates[id], reason)])
    {
      tables := tables.(candidates := tables.candidates[id := Marked(tables.candidates[id], reason)]);
    }

    method MarkMatchingPendingSuppressed(id: nat, decided: Candidate, reason: Reason)
      modifies this
      ensures tables == old(tables).(candidates := WithPendingSuppressed(old(tables).candidates, id, decided, reason))
    {
      hide Reached, Marked;
      var rows := tables.candidates;
      var todo := rows.Keys;
      while todo != {}
        invariant todo <= rows.Keys && tables == old(tables).(candidates := tables.candidates)
        invariant tables.candidates ==
          map i | i in rows ::
            if i !in todo && i != id && Reached(rows[i], decided, reason) then Marked(rows[i], reason) else rows[i]
      {
        var row :| row in todo;
        if row != id && Reached(rows[row], decided, reason) {
          tables := tables.(candidates := tables.candidates[row := Marked(rows[row], reason)]);
        }
        todo := todo - {row};
      }
    }

    method InsertSuppression(id: nat, reason: Reason)
      requires id in tables.candidates
      modifies this
      ensures tables == WithSuppression(old(tables), id, reason)
    {
      hide WithPendingSuppressed, RejectedOf;
      var c := tables.candidates[id];
      var row := SuppressionRow(tables, c, reason);
      tables := tables.(suppressions := tables.suppressions[SignatureFor(c, reason) := row]);
      MarkMatchingPendingSuppressed(id, c, reason);
    }

    method MarkDecision(id: nat, status: Status)
      requires id in tables.candidates
      modifies this
      ensures var candidates := old(tables).candidates;
              tables == old(tables).(candidates := candidates[id := candidates[id].(status := status)])
    {
      tables := tables.(candidates := tables.candidates[id := tables.candidates[id].(status := status)]);
    }

    method RedactRejectedRows(signature: Signature)
      modifies this
      ensures tables == RejectedRedacted(old(tables), signature)
    {
      hide IsRejectedCopy, Redacted;
      var rows := tables.candidates;
      var todo := rows.Keys;
      while todo != {}
        invariant todo <= rows.Keys && tables == old(tables).(candidates := tables.candidates)
        invariant tables.candidates ==
          map i | i in rows ::
            if i !in todo && IsRejectedCopy(rows[i], signature) then rows[i].(payload := Redacted(rows[i].payload))
            else rows[i]
      {
        var row :| row in todo;
        if IsRejectedCopy(rows[row], signature) {
          tables := tables.(candidates := tables.candidates[row := rows[row].(payload := Redacted(rows[row].payload))]);
        }
        todo := todo - {row};
      }
      if signature in tables.suppressions && tables.suppressions[signature].reason.AlreadyRejected? {
        var s := tables.suppressions[signature];
        tables := tables.(suppressions := tables.suppressions[signature := s.(payload := Redacted(s.payload))]);
      }
    }

    // ----- Proposals and edits -----

    /** Stores a proposal as pending, unless a suppression answers it. */
    method Propose(id: nat, key: string, p: Payload, auditFails: bool)
      returns (answer: Option<Candidate>, failure: Option<ReviewFailure>)
      requires Sound(tables) && id !in tables.candidates
      modifies this
      ensures Transacted(old(tables), tables, Proposed(old(tables), id, key, p), auditFails, failure)
      ensures Sound(tables)
      ensures answer.Some? <==> failure.None?
      ensures answer.Some? ==>
        var s := SuppressionOf(old(tables), key, p);
        if s.None? then id in tables.candidates && answer.value == tables.candidates[id]
        else
          var payload := if s.value.NeverStored? || p.source == QUARANTINE then Redacted(p) else p;
          tables == old(tables) && answer.value == Candidate(key, payload, Suppressed, s)
    {
      ProposedIsSound(tables, id, key, p);
      SoundIsFiled(tables);
      hide Sound, WorkingRefused, SuppressionOf, ValidProposal, ProposalRefused, SuppressionsFiled, Redacted, GuardsOf;
      if !ValidProposal(key, p) {
        return None, Some(InvalidProposal);
      }
      var refused := IsProposalRefused(tables.guards.(neverStore := {}), key, p);
      if refused {
        return None, Some(Refused);
      }
      var suppression := FindCandidateSuppression(key, p);
      if suppression.Some? {
        if auditFails {
          return None, Some(AuditRecordFailed);
        }
        var redact := suppression.value.NeverStored? || p.source == QUARANTINE;
        return Some(Candidate(key, if redact then Redacted(p) else p, Suppressed, suppression)), None;
      }
      refused := IsProposalRefused(GuardsOf(tables), key, p);
      if refused {
        return None, Some(Refused);
      }
      var saved := tables;
      tables := tables.(candidates := tables.candidates[id := Candidate(key, p, Pending, None)]);
      if auditFails {
        tables := saved;
        return None, Some(AuditRecordFailed);
      }
      return Some(tables.candidates[id]), None;
    }

    method Edit(id: nat, edit: CandidateEdit, auditFails: bool) returns (failure: Option<ReviewFailure>)
      requires Sound(tables)
      modifies this
      ensures Transacted(old(tables), tables, Edited(old(tables), id, edit), auditFails, failure) && Sound(tables)
    {
      EditedIsSound(tables, id, edit);
      hide Sound, ValidProposal, ProposalRefused;
      if !IsPending(tables, id) {
        return Some(NotPendingFailure(tables, id));
      }
      var c := tables.candidates[id];
      var key, p := Chosen(edit.key, c.key), EditedPayload(c.payload, edit);
      if !ValidProposal(key, p) {
        return Some(InvalidProposal);
      }
      var refused := IsProposalRefused(GuardsOf(tables), key, p);
      if refused {
        return Some(Refused);
      }
      var saved := tables;
      tables := tables.(candidates := tables.candidates[id := c.(key := key, payload := p)]);
      if auditFails {
        tables := saved;
        return Some(AuditRecordFailed);
      }
      return None;
    }

    // ----- Decisions -----

    /** Marks a suppressed candidate, or stores its value and provenance and marks it approved. */
    method SuppressOrStore(id: nat, key: string, suppression: Option<Reason>,
                           fits: bool) returns (failure: Option<ReviewFailure>)
      requires IsPending(tables, id)
      requires suppression == SuppressionOf(tables, key, tables.candidates[id].payload)
      modifies this
      ensures Transacted(old(tables), tables,
                         if suppression.Some? then Ok(MarkedSuppressed(old(tables), id, key, suppression.value))
                         else StoredIfAllowed(old(tables), id, key, fits),
                         false, failure)
      ensures failure.None? ==> ApprovedOrSuppressed(old(tables), tables, id, key)
    {
      StoredOrMarked(tables, id, key, fits);
      hide WorkingRefused, SuppressionOf, Marked, ApprovedOrSuppressed;
      var saved := tables;
      tables := tables.(candidates := tables.candidates[id := tables.candidates[id].(key := key)]);
      if suppression.Some? {
        MarkSuppressed(id, suppression.value);
        return None;
      }
      var value := tables.candidates[id].payload.value;
      var refused := IsWorkingRefused(GuardsOf(saved), key, value.search);
      if refused || !fits {
        tables := saved;
        return Some(if refused then Refused else Full);
      }
      tables := tables.(working := tables.working[key := value]);
      tables := tables.(provenance := tables.provenance[key := id]);
      MarkDecision(id, Approved);
      return None;
    }

    method Approve(id: nat, guard: Option<ConflictGuard>, existing: Option<Json>, decision: string, fits: bool,
                   auditFails: bool)
      returns (failure: Option<ReviewFailure>)
      requires Sound(tables)
      modifies this
      ensures Transacted(old(tables), tables, Approval(old(tables), id, guard, existing, decision, fits),
                         auditFails, failure)
      ensures failure.None? && old(IsPending(tables, id)) ==>
        ApprovedOrSuppressed(old(tables), tables, id, old(tables).candidates[id].key)
      ensures Sound(tables)
    {
      ApprovalIsSound(tables, id, guard, existing, decision, fits);
      SoundIsFiled(tables);
      hide Sound, WorkingRefused, SuppressionOf, DecisionRefused, Stored, MarkedSuppressed, Conflicts,
           ConflictUnchanged, ApprovedOrSuppressed;
      hide SuppressionsFiled;
      if id !in tables.candidates {
        return Some(NotFound);
      }
      var saved := tables;
      var c := tables.candidates[id];
      if c.status.Suppressed? {
        return if auditFails then Some(AuditRecordFailed) else None;
      }
      if !c.status.Pending? {
        return Some(NotPending);
      }
      var refused := IsDecisionRefused(GuardsOf(tables), decision);
      if refused {
        return Some(Refused);
      }
      var suppression := FindCandidateSuppression(c.key, c.payload);
      if suppression.None? {
        if guard.Some? && !ConflictUnchanged(guard.value, existing, c.payload.value) {
          return Some(Conflict);
        }
        if guard.None? && Conflicts(existing, c.payload.value) {
          return Some(Conflict);
        }
      }
      assert c.(key := c.key) == c;
      failure := SuppressOrStore(id, c.key, suppression, fits);
      if failure.None? && auditFails {
        tables := saved;
        failure := Some(AuditRecordFailed);
      }
    }

    method ApproveScopedCandidate(id: nat, key: string, guard: ConflictGuard, existing: Option<Json>,
                                  scopedExisting: Option<Json>, decision: string, fits: bool, auditFails: bool)
      returns (failure: Option<ReviewFailure>)
      requires Sound(tables)
      modifies this
      ensures Transacted(old(tables), tables,
                         ScopedApproval(old(tables), id, key, guard, existing, scopedExisting, decision, fits),
                         auditFails, failure)
      ensures failure.None? ==> old(IsPending(tables, id)) && ApprovedOrSuppressed(old(tables), tables, id, key)
      ensures Sound(tables)
    {
      ScopedApprovalIsSound(tables, id, key, guard, existing, scopedExisting, decision, fits);
      SoundIsFiled(tables);
      hide Sound, WorkingRefused, SuppressionOf, DecisionRefused, Stored, MarkedSuppressed, Conflicts,
           ConflictUnchanged, ApprovedOrSuppressed;
      hide SuppressionsFiled, ValidProposal, ProposalRefused, Trim;
      if Trim(key) == "" {
        return Some(InvalidProposal);
      }
      if !IsPending(tables, id) {
        return Some(NotPendingFailure(tables, id));
      }
      var saved := tables;
      var c := tables.candidates[id];
      if key == c.key {
        return Some(InvalidProposal);
      }
      if !ConflictUnchanged(guard, existing, c.payload.value) {
        return Some(Conflict);
      }
      if !ValidProposal(key, c.payload) {
        return Some(InvalidProposal);
      }
      var refused := IsProposalRefused(GuardsOf(tables), key, c.payload);
      if refused {
        return Some(Refused);
      }
      if Conflicts(scopedExisting, c.payload.value) {
        return Some(Conflict);
      }
      refused := IsDecisionRefused(GuardsOf(tables), decision);
      if refused {
        return Some(Refused);
      }
      var suppression := FindCandidateSuppression(key, c.payload);
      failure := SuppressOrStore(id, key, suppression, fits);
      if failure.None? && auditFails {
        tables := saved;
        failure := Some(AuditRecordFailed);
      }
    }

    method ExpireExistingAndApprove(id: nat, guard: ConflictGuard, existing: Option<Json>, decision: string,
                                    fits: bool, auditFails: bool)
      returns (failure: Option<ReviewFailure>)
      requires Sound(tables)
      modifies this
      ensures Transacted(old(tables), tables, ExpiringApproval(old(tables), id, guard, existing, decision, fits),
                         auditFails, failure)
      ensures failure.None? ==>
        old(IsPending(tables, id)) && ApprovedOrSuppressed(old(tables), tables, id, old(tables).candidates[id].key)
      ensures Sound(tables)
    {
      ExpiringApprovalIsSound(tables, id, guard, existing, decision, fits);
      SoundIsFiled(tables);
      hide Sound, WorkingRefused, SuppressionOf, DecisionRefused, Stored, MarkedSuppressed, Conflicts,
           ConflictUnchanged, ApprovedOrSuppressed;
      hide SuppressionsFiled;
      if !IsPending(tables, id) {
        return Some(NotPendingFailure(tables, id));
      }
      var saved := tables;
      var c := tables.candidates[id];
      if !ConflictUnchanged(guard, existing, c.payload.value) {
        return Some(Conflict);
      }
      var refused := IsDecisionRefused(GuardsOf(tables), decision);
      if refused {
        return Some(Refused);
      }
      var suppression := FindCandidateSuppression(c.key, c.payload);
      failure := SuppressOrStore(id, c.key, suppression, fits);
      if failure.None? && auditFails {
        tables := saved;
        failure := Some(AuditRecordFailed);
      }
    }

    method Reject(id: nat, guard: Option<ConflictGuard>, existing: Option<Json>, decision: string, auditFails: bool)
      returns (failure: Option<ReviewFailure>)
      requires Sound(tables)
      modifies this
      ensures Transacted(old(tables), tables, Rejection(old(tables), id, guard, existing, decision),
                         auditFails, failure)
      ensures Sound(tables)
    {
      RejectionIsSound(tables, id, guard, existing, decision);
      hide Sound, WithSuppression, RejectedRedacted, DecisionRefused, RejectedOf, ConflictUnchanged;
      if !IsPending(tables, id) {
        return Some(NotPendingFailure(tables, id));
      }
      var saved := tables;
      var c := tables.candidates[id];
      var refused := IsDecisionRefused(GuardsOf(tables), decision);
      if refused {
        return Some(Refused);
      }
      if guard.Some? && !ConflictUnchanged(guard.value, existing, c.payload.value) {
        return Some(Conflict);
      }
      SuppressionKeepsDecided(tables, id, AlreadyRejected);
      InsertSuppression(id, AlreadyRejected);
      MarkDecision(id, Rejected);
      if c.payload.source == QUARANTINE {
        RedactRejectedRows(RejectedOf(c.key, c.payload));
      }
      if auditFails {
        tables := saved;
        return Some(AuditRecordFailed);
      }
      return None;
    }

    method Purge(id: nat)
      requires IsPending(tables, id)
      modifies this
      ensures tables == Purged(old(tables), id)
    {
      hide WithSuppression, CandidatesRedacted, SuppressionsRedacted;
      var key := tables.candidates[id].key;
      SuppressionKeepsDecided(tables, id, NeverStored);
      InsertSuppression(id, NeverStored);
      tables := tables.(working := tables.working - {key});
      tables := tables.(provenance := tables.provenance - {key});
      MarkDecision(id, ReviewQueueState.NeverStore);
      tables := tables.(candidates := CandidatesRedacted(tables.candidates, key));
      tables := tables.(suppressions := SuppressionsRedacted(tables.suppressions, key));
    }

    method NeverStore(id: nat, decision: string, auditFails: bool) returns (failure: Option<ReviewFailure>)
      requires Sound(tables)
      modifies this
      ensures Transacted(old(tables), tables, NeverStoring(old(tables), id, decision), auditFails, failure)
      ensures Sound(tables)
      ensures failure.None? ==> KeptOut(tables, old(tables).candidates[id].key)
    {
      NeverStoringIsSound(tables, id, decision);
      hide Sound, Purged, DecisionRefused, KeptOut;
      if !IsPending(tables, id) {
        return Some(NotPendingFailure(tables, id));
      }
      var saved := tables;
      var refused := IsDecisionRefused(GuardsOf(tables), decision);
      if refused {
        return Some(Refused);
      }
      PurgeKeepsOut(tables, id);
      Purge(id);
      if auditFails {
        tables := saved;
        return Some(AuditRecordFailed);
      }
      return None;
    }

    method ResolveConflict(id: nat, how: Resolution, seen: Option<Json>, existing: Option<Json>,
                           scopedExisting: Option<Json>,
                           decision: string, fits: bool, auditFails: bool)
      returns (failure: Option<ReviewFailure>)
      requires Sound(tables)
      modifies this
      ensures Transacted(old(tables), tables,
                         Resolved(old(tables), id, how, seen, existing, scopedExisting, decision, fits),
                         auditFails, failure)
      ensures Sound(tables)
    {
      hide Sound, Approval, ScopedApproval, ExpiringApproval, Rejection, Conflicts;
      assert forall v: Json :: Conflicts(seen, v) ==> seen.Some? by { ConflictNeedsValue(seen); }
      if !IsPending(tables, id) {
        return Some(NotPendingFailure(tables, id));
      }
      var value := tables.candidates[id].payload.value;
      if !Conflicts(seen, value) {
        return Some(Conflict);
      }
      var guard := ConflictGuard(seen.value, value);
      match how
      case ReplaceExisting =>
        failure := Approve(id, Some(guard), existing, decision, fits, auditFails);
      case KeepBothScoped(key) =>
        failure := ApproveScopedCandidate(id, key, guard, existing, scopedExisting, decision, fits, auditFails);
      case ExpireExistingValue =>
        failure := ExpireExistingAndApprove(id, guard, existing, decision, fits, auditFails);
      case KeepExisting =>
        failure := Reject(id, Some(guard), existing, decision, auditFails);
      case RejectCandidate =>
        failure := Reject(id, Some(guard), existing, decision, auditFails);
    }
  }

  lemma ConflictNeedsValue(seen: Option<Json>)
    ensures forall v: Json :: Conflicts(seen, v) ==> seen.Some?
  {
  }

  lemma SoundIsFiled(t: Tables)
    requires Sound(t)
    ensures SuppressionsFiled(t)
  {
  }

  lemma SuppressionKeepsDecided(t: Tables, id: nat, reason: Reason)
    requires id in t.candidates
    ensures id in WithSuppression(t, id, reason).candidates
    ensures WithSuppression(t, id, reason).candidates[id] == t.candidates[id]
  {
  }

  lemma ProposedIsSound(t: Tables, id: nat, key: string, p: Payload)
    requires Sound(t) && id !in t.candidates
    ensures var o := Proposed(t, id, key, p);
            o.Ok? ==> Sound(o.value)
  {
    hide Sound, DecisionsStand, Proposed;
    ProposalCallsKeepSound(t, ReviewQueueLaws.Propose(id, key, p));
  }

  lemma EditedIsSound(t: Tables, id: nat, edit: CandidateEdit)
    requires Sound(t)
    ensures var o := Edited(t, id, edit);
            o.Ok? ==> Sound(o.value)
  {
    hide Sound, DecisionsStand, Edited;
    ProposalCallsKeepSound(t, ReviewQueueLaws.Edit(id, edit));
  }

  lemma ApprovalIsSound(t: Tables, id: nat, guard: Option<ConflictGuard>, existing: Option<Json>, decision: string,
                        fits: bool)
    requires Sound(t)
    ensures var o := Approval(t, id, guard, existing, decision, fits);
            o.Ok? ==> Sound(o.value)
  {
    hide Sound, DecisionsStand, Approval;
    ApprovalCallsKeepSound(t, ReviewQueueLaws.Approve(id, guard, existing, decision, fits));
  }

  lemma ScopedApprovalIsSound(t: Tables, id: nat, key: string, guard: ConflictGuard, existing: Option<Json>,
                              scopedExisting: Option<Json>, decision: string, fits: bool)
    requires Sound(t)
    ensures var o := ScopedApproval(t, id, key, guard, existing, scopedExisting, decision, fits);
            o.Ok? ==> Sound(o.value)
  {
    hide Sound, DecisionsStand, ScopedApproval;
    ApprovalCallsKeepSound(t, ApproveScoped(id, key, guard, existing, scopedExisting, decision, fits));
  }

  lemma ExpiringApprovalIsSound(t: Tables, id: nat, guard: ConflictGuard, existing: Option<Json>, decision: string,
                                fits: bool)
    requires Sound(t)
    ensures var o := ExpiringApproval(t, id, guard, existing, decision, fits);
            o.Ok? ==> Sound(o.value)
  {
    hide Sound, DecisionsStand, ExpiringApproval;
    ApprovalCallsKeepSound(t, ExpireExisting(id, guard, existing, decision, fits));
  }

  lemma RejectionIsSound(t: Tables, id: nat, guard: Option<ConflictGuard>, existing: Option<Json>, decision: string)
    requires Sound(t)
    ensures var o := Rejection(t, id, guard, existing, decision);
            o.Ok? ==> Sound(o.value)
  {
    hide Sound, DecisionsStand, Rejection;
    DecisionCallsKeepSound(t, ReviewQueueLaws.Reject(id, guard, existing, decision));
  }

  lemma NeverStoringIsSound(t: Tables, id: nat, decision: string)
    requires Sound(t)
    ensures var o := NeverStoring(t, id, decision);
            o.Ok? ==> Sound(o.value)
  {
    hide Sound, DecisionsStand, NeverStoring;
    DecisionCallsKeepSound(t, NeverStoreKey(id, decision));
  }
}
