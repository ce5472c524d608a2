/** What each review decision does, told by the rows before and after it: where an approved value goes,
    what a rejection and a never-store decision reach, and what stays as it was. */
module ReviewQueueEffects {
  import opened Wrappers
  import opened DeletionGuards
  import opened WorkingMemoryState
  import opened ReviewQueueState
  import opened ReviewQueueLaws

  /** The two maps differ at one key at most. */
  ghost predicate SameBut<K(!new), V>(a: map<K, V>, b: map<K, V>, key: K) {
    forall k :: k != key ==> (k in a <==> k in b) && (k in a ==> a[k] == b[k])
  }

  // ----- Approvals -----

  /** The candidate's value, as it was, is the working row of the key, and the provenance row names it. */
  ghost predicate ValueStored(t: Tables, u: Tables, id: nat, key: string)
    requires id in t.candidates
  {
    && key in u.working && u.working[key] == t.candidates[id].payload.value
    && key in u.provenance && u.provenance[key] == id
    && SameBut(t.working, u.working, key) && SameBut(t.provenance, u.provenance, key)
  }

  /** An approval that succeeds for "key": an approved candidate is stored as it was, any other is
      suppressed and stored nowhere. */
  ghost predicate ApprovedOrSuppressed(t: Tables, u: Tables, id: nat, key: string)
    requires id in t.candidates
  {
    && id in u.candidates && SameBut(t.candidates, u.candidates, id)
    && u.suppressions == t.suppressions && u.guards == t.guards
    && var c, d := t.candidates[id], u.candidates[id];
       && d.key == key
       && (d.status.Approved? <==> SuppressionOf(t, key, c.payload).None?)
       && (d.status.Approved? ==>
            ValueStored(t, u, id, key) && d.payload == c.payload && d.suppression == c.suppression)
       && (!d.status.Approved? ==>
            && d.status.Suppressed? && d.suppression == SuppressionOf(t, key, c.payload)
            && u.working == t.working && u.provenance == t.provenance
            && d.payload == (if d.suppression == Some(NeverStored) then c.payload.(value := REDACTED) else c.payload))
  }

  lemma StoredOrMarked(t: Tables, id: nat, key: string, fits: bool)
    requires id in t.candidates
    ensures var s := SuppressionOf(t, key, t.candidates[id].payload);
            && (s.Some? ==> ApprovedOrSuppressed(t, MarkedSuppressed(t, id, key, s.value), id, key))
            && (s.None? && StoredIfAllowed(t, id, key, fits).Ok? ==>
                 ApprovedOrSuppressed(t, StoredIfAllowed(t, id, key, fits).value, id, key))
  {
    hide SuppressionOf, WorkingRefused;
  }

  /** The text working memory shows for a key is another than the candidate's. */
  predicate Contradicts(existing: Option<Json>, value: Json) {
    existing.Some? && existing.value.text != value.text
  }

  /** The contradiction is still the one that was seen before the transaction began. */
  predicate StillSeen(seen: ConflictGuard, existing: Option<Json>, value: Json) {
    Contradicts(existing, value) && existing.value.text == seen.existing.text && value.text == seen.value.text
  }

  /** An approval decides a pending candidate if and only if nothing refuses the decision, and the value
      either is suppressed or contradicts nothing but what was seen before, is allowed and fits. */
  lemma ApprovalDecides(t: Tables, id: nat, guard: Option<ConflictGuard>, existing: Option<Json>, decision: string,
                        fits: bool)
    requires IsPending(t, id)
    ensures var c, o := t.candidates[id], Approval(t, id, guard, existing, decision, fits);
            && (o.Ok? ==> ApprovedOrSuppressed(t, o.value, id, c.key))
            && (o.Ok? <==>
                 && !DecisionRefused(GuardsOf(t), decision)
                 && (SuppressionOf(t, c.key, c.payload).None? ==>
                      && !WorkingRefused(GuardsOf(t), c.key, c.payload.value.search) && fits
                      && (if guard.Some? then StillSeen(guard.value, existing, c.payload.value)
                          else !Contradicts(existing, c.payload.value))))
  {
    hide SuppressionOf, WorkingRefused, DecisionRefused, ApprovedOrSuppressed;
    StoredOrMarked(t, id, t.candidates[id].key, fits);
  }

  /** Approving a suppressed candidate again changes nothing; any other decided one, or none, is an error. */
  lemma DecidedStaysDecided(t: Tables, id: nat, guard: Option<ConflictGuard>, existing: Option<Json>,
                            decision: string, fits: bool)
    requires !IsPending(t, id)
    ensures Approval(t, id, guard, existing, decision, fits)
            == if id in t.candidates && t.candidates[id].status.Suppressed? then Ok(t)
               else Err(NotPendingFailure(t, id))
  {
    hide SuppressionOf, WorkingRefused, DecisionRefused;
  }

  /** The scoped approval stores the value under its new key only; the row it contradicted stays. */
  lemma ScopedApprovalDecides(
      t: Tables, id: nat, key: string, seen: ConflictGuard, existing: Option<Json>, scoped: Option<Json>,
      decision: string, fits: bool)
    requires IsPending(t, id)
    ensures var c, o := t.candidates[id], ScopedApproval(t, id, key, seen, existing, scoped, decision, fits);
            && (o.Ok? ==> ApprovedOrSuppressed(t, o.value, id, key) && key != c.key)
            && (o.Ok? <==>
                 && key != c.key && ValidProposal(key, c.payload) && !ProposalRefused(GuardsOf(t), key, c.payload)
                 && StillSeen(seen, existing, c.payload.value) && !Contradicts(scoped, c.payload.value)
                 && !DecisionRefused(GuardsOf(t), decision)
                 && (SuppressionOf(t, key, c.payload).None? ==>
                      !WorkingRefused(GuardsOf(t), key, c.payload.value.search) && fits))
  {
    hide SuppressionOf, WorkingRefused, DecisionRefused, ApprovedOrSuppressed, Trim, ProposalRefused;
    StoredOrMarked(t, id, key, fits);
  }

  lemma ExpiringApprovalDecides(
      t: Tables, id: nat, seen: ConflictGuard, existing: Option<Json>, decision: string, fits: bool)
    requires IsPending(t, id)
    ensures var c, o := t.candidates[id], ExpiringApproval(t, id, seen, existing, decision, fits);
            && (o.Ok? ==> ApprovedOrSuppressed(t, o.value, id, c.key))
            && (o.Ok? <==>
                 && StillSeen(seen, existing, c.payload.value) && !DecisionRefused(GuardsOf(t), decision)
                 && (SuppressionOf(t, c.key, c.payload).None? ==>
                      !WorkingRefused(GuardsOf(t), c.key, c.payload.value.search) && fits))
  {
    hide SuppressionOf, WorkingRefused, DecisionRefused, ApprovedOrSuppressed;
    StoredOrMarked(t, id, t.candidates[id].key, fits);
  }

  // ----- What suppresses a value -----

  /** A rejection of the same content: the rejected row's source id, if it has one, counts too. */
  predicate SameContent(row: Suppression, key: string, p: Payload) {
    && row.key == key && row.payload.value.text == p.value.text && row.payload.source == p.source
    && row.payload.evidenceId == p.evidenceId && (row.payload.sourceId == "" || row.payload.sourceId == p.sourceId)
  }

  /** A value is suppressed as never-stored if and only if its key is, and as rejected if and only if its
      key is not, but a row of the same content, or filed under it, is there. */
  lemma SuppressionMeans(t: Tables, key: string, p: Payload)
    requires SuppressionsFiled(t)
    ensures SuppressionOf(t, key, p) == Some(NeverStored) <==>
      exists s :: s in t.suppressions && t.suppressions[s].reason.NeverStored? && t.suppressions[s].key == key
    ensures SuppressionOf(t, key, p) == Some(AlreadyRejected) <==>
      && SuppressionOf(t, key, p) != Some(NeverStored)
      && (|| RejectedSignature(key, p.source, p.sourceId, p.evidenceId, p.value.text) in t.suppressions
          || exists s :: s in t.suppressions && SameContent(t.suppressions[s], key, p))
  {
    if s :| s in t.suppressions && t.suppressions[s].reason.NeverStored? && t.suppressions[s].key == key {
      assert s == NeverStoreSignature(key);
    }
    if s :| s in t.suppressions && SameContent(t.suppressions[s], key, p) {
      assert MatchesRow(t.suppressions[s], key, p);
    }
    if s :| s in t.suppressions && MatchesRow(t.suppressions[s], key, p) {
      assert t.suppressions[s].reason.NeverStored? || SameContent(t.suppressions[s], key, p);
    }
  }

  /** A redacted payload tells nothing of what it was. */
  lemma RedactionHidesPayload(p: Payload, q: Payload)
    ensures Redacted(p) == Redacted(q) && Redacted(p).value == REDACTED
  {
  }

  // ----- What guards refuse -----

  /** A forgotten query in any text of a proposal refuses it. */
  lemma ForgottenProposalIsRefused(g: Guards, key: string, p: Payload, q: string)
    requires WellFormed(g.working, g.hashKey) && q in ForgottenQueries(g.working) && q != ""
    requires exists part :: part in {key, p.value.search, p.source, p.sourceId, p.evidenceId, p.reason}
               && Contains(Normalize(part), q)
    ensures ProposalRefused(g, key, p)
  {
    var part :| part in {key, p.value.search, p.source, p.sourceId, p.evidenceId, p.reason}
                && Contains(Normalize(part), q);
    hide Normalize, WellFormed, ForgottenQueries, QueryRefused, Contains;
    ProposalContains(key, p, part);
    PartIsScanned(key + " " + ProposalSearch(p), part, q);
    ForgottenTextIsRefused(g.working, g.hashKey, key + " " + ProposalSearch(p), q);
  }

  lemma ProposalContains(key: string, p: Payload, part: string)
    requires part in {key, p.value.search, p.source, p.sourceId, p.evidenceId, p.reason}
    ensures Contains(key + " " + ProposalSearch(p), part)
  {
    hide Contains;
    ContainsItself(part);
    SumContains(p.value.search, " ", part);
    SumContains(p.value.search + " ", p.source, part);
    SumContains(p.value.search + " " + p.source, " ", part);
    SumContains(p.value.search + " " + p.source + " ", p.sourceId, part);
    SumContains(p.value.search + " " + p.source + " " + p.sourceId, " ", part);
    SumContains(p.value.search + " " + p.source + " " + p.sourceId + " ", p.evidenceId, part);
    SumContains(p.value.search + " " + p.source + " " + p.sourceId + " " + p.evidenceId, " ", part);
    SumContains(p.value.search + " " + p.source + " " + p.sourceId + " " + p.evidenceId + " ", p.reason, part);
    SumContains(key, " ", part);
    SumContains(key + " ", ProposalSearch(p), part);
  }

  /** So does one in the note of a decision; a decision without a note is never refused. */
  lemma ForgottenDecisionIsRefused(g: Guards, decision: string, q: string)
    requires WellFormed(g.working, g.hashKey) && q in ForgottenQueries(g.working) && q != ""
    ensures !DecisionRefused(g, "")
    ensures decision != "" && Contains(Normalize(decision), q) ==> DecisionRefused(g, decision)
  {
    hide Normalize, WellFormed, ForgottenQueries, QueryRefused, Contains;
    if decision != "" && Contains(Normalize(decision), q) {
      ContainsItself(decision);
      SumContains("memory-review-decision" + " ", decision, decision);
      PartIsScanned("memory-review-decision" + " " + decision, decision, q);
      ForgottenTextIsRefused(g.working, g.hashKey, "memory-review-decision" + " " + decision, q);
    }
  }

  // ----- Proposals and edits -----

  /** A proposal that is accepted is stored as it was made, or not at all when a suppression answers it. */
  lemma ProposalStoresCandidate(t: Tables, id: nat, key: string, p: Payload)
    requires id !in t.candidates
    ensures var o := Proposed(t, id, key, p);
            o.Ok? ==>
              var u := o.value;
              && (id in u.candidates <==> SuppressionOf(t, key, p).None?)
              && (id in u.candidates ==>
                   var c := u.candidates[id];
                   c.key == key && c.payload == p && c.status.Pending? && c.suppression.None?)
              && SameBut(t.candidates, u.candidates, id)
              && u.suppressions == t.suppressions && u.provenance == t.provenance && u.working == t.working
              && u.guards == t.guards
    ensures Proposed(t, id, key, p).Ok? <==>
      && Trim(key) != "" && Trim(p.source) != "" && Trim(p.reason) != ""
      && !ProposalRefused(t.guards.(neverStore := {}), key, p)
      && (SuppressionOf(t, key, p).None? ==> !ProposalRefused(GuardsOf(t), key, p))
  {
    hide SuppressionOf, ProposalRefused, Trim, GuardsOf;
  }

  predicate IsEdited<T(==)>(edit: Option<T>, before: T, after: T) {
    after == if edit.Some? then edit.value else before
  }

  /** An edit changes the named fields of its candidate and nothing else, but for the source id of a
      source no longer the same. */
  lemma EditChangesNamedFields(t: Tables, id: nat, e: CandidateEdit)
    ensures var o := Edited(t, id, e);
            o.Ok? ==>
              && id in t.candidates && id in o.value.candidates
              && var c, d := t.candidates[id], o.value.candidates[id];
              && IsEdited(e.key, c.key, d.key) && IsEdited(e.value, c.payload.value, d.payload.value)
              && IsEdited(e.source, c.payload.source, d.payload.source)
              && IsEdited(e.evidenceId, c.payload.evidenceId, d.payload.evidenceId)
              && IsEdited(e.reason, c.payload.reason, d.payload.reason)
              && (if e.source.Some? && e.sourceId.None? then d.payload.sourceId == ""
                  else IsEdited(e.sourceId, c.payload.sourceId, d.payload.sourceId))
              && c.status.Pending? && d.status.Pending? && d.suppression == c.suppression
    ensures var o := Edited(t, id, e);
            o.Ok? ==>
              && SameBut(t.candidates, o.value.candidates, id)
              && o.value == t.(candidates := o.value.candidates)
  {
    hide ValidProposal, ProposalRefused, GuardsOf;
  }

  // ----- Rejecting -----

  ghost predicate SameSignature(c: Candidate, d: Candidate) {
    && c.key == d.key && c.payload.source == d.payload.source && c.payload.sourceId == d.payload.sourceId
    && c.payload.evidenceId == d.payload.evidenceId && c.payload.value.text == d.payload.value.text
  }

  /** What a rejection of "c" does to another candidate: pending ones of the same content are suppressed,
      and rejecting a quarantined one redacts every rejected copy. */
  ghost predicate RejectionReaches(c: Candidate, before: Candidate, after: Candidate) {
    var same := SameSignature(before, c);
    var suppressed := same && before.status.Pending?;
    var redacted := same && c.payload.source == QUARANTINE && before.status in {Pending, Rejected, Suppressed};
    && after.key == before.key
    && after.status == (if suppressed then Suppressed else before.status)
    && after.suppression == (if suppressed then Some(AlreadyRejected) else before.suppression)
    && after.payload == (if redacted then Redacted(before.payload) else before.payload)
  }

  lemma RejectionDecides(t: Tables, id: nat, guard: Option<ConflictGuard>, existing: Option<Json>, decision: string)
    requires Rejection(t, id, guard, existing, decision).Ok?
    ensures IsPending(t, id)
    ensures var c, u := t.candidates[id], Rejection(t, id, guard, existing, decision).value;
            var payload := if c.payload.source == QUARANTINE then Redacted(c.payload) else c.payload;
            && u.candidates.Keys == t.candidates.Keys
            && u.candidates[id] == Candidate(c.key, payload, Rejected, c.suppression)
            && (forall i :: i in t.candidates && i != id ==> RejectionReaches(c, t.candidates[i], u.candidates[i]))
            && u.working == t.working && u.provenance == t.provenance && u.guards == t.guards
  {
    hide DecisionRefused, ConflictUnchanged, GuardsOf, RejectionReaches, Decided, RejectedRedacted, Redacted;
    var c := t.candidates[id];
    var d := Decided(t, id, AlreadyRejected, Rejected);
    DecidedFrame(t, id);
    RedactedFrame(d, RejectedOf(c.key, c.payload));
    forall i | i in t.candidates && i != id {
      RejectedRow(t, id, i);
    }
  }

  lemma DecidedFrame(t: Tables, id: nat)
    requires id in t.candidates
    ensures var d := Decided(t, id, AlreadyRejected, Rejected);
            && d.candidates.Keys == t.candidates.Keys && d.candidates[id] == t.candidates[id].(status := Rejected)
            && d.working == t.working && d.provenance == t.provenance && d.guards == t.guards
  {
    hide SuppressionRow;
  }

  lemma RedactedFrame(t: Tables, s: Signature)
    ensures var u := RejectedRedacted(t, s);
            && u.candidates.Keys == t.candidates.Keys
            && (forall i :: i in t.candidates && IsRejectedCopy(t.candidates[i], s) ==>
                  u.candidates[i] == t.candidates[i].(payload := Redacted(t.candidates[i].payload)))
            && u.working == t.working && u.provenance == t.provenance && u.guards == t.guards
  {
    hide Redacted, RejectedOf;
  }

  lemma RejectedRow(t: Tables, id: nat, i: nat)
    requires IsPending(t, id) && i in t.candidates && i != id
    ensures var c, d := t.candidates[id], Decided(t, id, AlreadyRejected, Rejected);
            var u := if c.payload.source == QUARANTINE then RejectedRedacted(d, RejectedOf(c.key, c.payload)) else d;
            i in u.candidates && RejectionReaches(c, t.candidates[i], u.candidates[i])
  {
    hide Redacted, SuppressionRow;
    var c := t.candidates[id];
    assert RejectedOf(t.candidates[i].key, t.candidates[i].payload) == RejectedOf(c.key, c.payload)
      <==> SameSignature(t.candidates[i], c);
  }

  /** Its content is filed as rejected; no other suppression changes. */
  lemma RejectionIsFiled(t: Tables, id: nat, guard: Option<ConflictGuard>, existing: Option<Json>, decision: string)
    requires Rejection(t, id, guard, existing, decision).Ok?
    ensures IsPending(t, id)
    ensures var c, u := t.candidates[id], Rejection(t, id, guard, existing, decision).value;
            var s := RejectedSignature(c.key, c.payload.source, c.payload.sourceId, c.payload.evidenceId,
                                       c.payload.value.text);
            && s in u.suppressions && u.suppressions[s].reason.AlreadyRejected?
            && SameBut(t.suppressions, u.suppressions, s)
            && (s !in t.suppressions ==> u.suppressions[s].key == c.key)
            && var kept := if s in t.suppressions then t.suppressions[s].payload else c.payload;
               u.suppressions[s].payload == if c.payload.source == QUARANTINE then Redacted(kept) else kept
  {
    hide SuppressionOf, DecisionRefused, WorkingRefused, Redacted, WithPendingSuppressed;
  }

  /** A rejection goes through if and only if nothing refuses the decision and the contradiction it
      resolves, if any, is still the one seen. */
  lemma RejectionSucceedsIff(
      t: Tables, id: nat, guard: Option<ConflictGuard>, existing: Option<Json>, decision: string)
    requires IsPending(t, id)
    ensures Rejection(t, id, guard, existing, decision).Ok? <==>
      && !DecisionRefused(GuardsOf(t), decision)
      && (guard.Some? ==> StillSeen(guard.value, existing, t.candidates[id].payload.value))
  {
    hide DecisionRefused, Decided, RejectedRedacted;
  }

  // ----- Never storing -----

  /** What a never-store decision does to a candidate of its key other than the decided one. */
  ghost predicate NeverStoreReaches(before: Candidate, after: Candidate) {
    && after.key == before.key && after.payload == Redacted(before.payload)
    && after.status == (if before.status.Pending? then Suppressed else before.status)
    && after.suppression == (if before.status.Pending? then Some(NeverStored) else before.suppression)
  }

  /** A never-store decision removes the working row and the provenance of its key and redacts its
      candidates; rows of every other key stay as they were. */
  lemma NeverStoringDecides(t: Tables, id: nat, decision: string)
    requires NeverStoring(t, id, decision).Ok?
    ensures IsPending(t, id)
    ensures var c, u := t.candidates[id], NeverStoring(t, id, decision).value;
            && c.key !in u.working && SameBut(t.working, u.working, c.key)
            && c.key !in u.provenance && SameBut(t.provenance, u.provenance, c.key)
            && u.guards == t.guards && u.candidates.Keys == t.candidates.Keys
            && u.candidates[id] == Candidate(c.key, Redacted(c.payload), NeverStore, c.suppression)
            && (forall i :: i in t.candidates && t.candidates[i].key != c.key ==> u.candidates[i] == t.candidates[i])
            && (forall i :: i in t.candidates && t.candidates[i].key == c.key && i != id ==>
                  NeverStoreReaches(t.candidates[i], u.candidates[i]))
  {
    hide DecisionRefused, SuppressionRow, SuppressionsRedacted;
  }

  /** The decision is filed under its key, and the other suppressions of the key lose their payloads. */
  lemma NeverStoringIsFiled(t: Tables, id: nat, decision: string)
    requires NeverStoring(t, id, decision).Ok? && SuppressionsFiled(t)
    ensures IsPending(t, id)
    ensures var key, u := t.candidates[id].key, NeverStoring(t, id, decision).value;
            var s := NeverStoreSignature(key);
            && u.suppressions.Keys == t.suppressions.Keys + {s} && u.suppressions[s].reason.NeverStored?
            && u.suppressions[s].key == key
            && (forall r :: r in u.suppressions && u.suppressions[r].key == key ==>
                  u.suppressions[r].payload == Redacted(u.suppressions[r].payload))
            && (forall r :: r in t.suppressions ==>
                  && u.suppressions[r].key == t.suppressions[r].key
                  && u.suppressions[r].reason == t.suppressions[r].reason
                  && (t.suppressions[r].key != key ==> u.suppressions[r] == t.suppressions[r]))
  {
    hide DecisionRefused, WithPendingSuppressed, CandidatesRedacted;
  }

  // ----- Resolving conflicts -----

  /** A resolution stores the candidate's value only where it was meant to go, and only while working
      memory still shows the value seen before; keeping the existing value stores nothing. */
  lemma ResolutionStores(
      t: Tables, id: nat, how: Resolution, seen: Option<Json>, existing: Option<Json>, scoped: Option<Json>,
      decision: string, fits: bool)
    requires Resolved(t, id, how, seen, existing, scoped, decision, fits).Ok?
    ensures IsPending(t, id)
    ensures var c, u := t.candidates[id], Resolved(t, id, how, seen, existing, scoped, decision, fits).value;
            && Contradicts(seen, c.payload.value)
            && (how.KeepExisting? || how.RejectCandidate? ==>
                 u.working == t.working && u.provenance == t.provenance && u.candidates[id].status.Rejected?)
            && (how.ReplaceExisting? || how.ExpireExistingValue? ==> ApprovedOrSuppressed(t, u, id, c.key))
            && (how.KeepBothScoped? ==> ApprovedOrSuppressed(t, u, id, how.key) && how.key != c.key)
            && (u.working != t.working ==>
                 Contradicts(existing, c.payload.value) && existing.value.text == seen.value.text)
  {
    hide DecisionRefused, ApprovedOrSuppressed, SuppressionOf, WorkingRefused, Approval, ScopedApproval,
         ExpiringApproval, Rejection, ProposalRefused, ValidProposal, GuardsOf;
    var guard := ConflictGuard(seen.value, t.candidates[id].payload.value);
    match how
    case ReplaceExisting =>
      ApprovalDecides(t, id, Some(guard), existing, decision, fits);
      var u := Approval(t, id, Some(guard), existing, decision, fits).value;
      SuppressedStoresNothing(t, u, id, t.candidates[id].key);
    case KeepBothScoped(key) => ScopedApprovalDecides(t, id, key, guard, existing, scoped, decision, fits);
    case ExpireExistingValue => ExpiringApprovalDecides(t, id, guard, existing, decision, fits);
    case KeepExisting => RejectionDecides(t, id, Some(guard), existing, decision);
    case RejectCandidate => RejectionDecides(t, id, Some(guard), existing, decision);
  }

  lemma SuppressedStoresNothing(t: Tables, u: Tables, id: nat, key: string)
    requires id in t.candidates && ApprovedOrSuppressed(t, u, id, key)
    ensures SuppressionOf(t, key, t.candidates[id].payload).Some? ==> u.working == t.working
  {
    hide SuppressionOf;
  }
}
