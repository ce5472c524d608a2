/** The memory review queue: its tables, and what each decision is specified to do to them. */
module ReviewQueueState {
  import opened Wrappers
  import opened DeletionGuards
  import opened WorkingMemoryState

  const REDACTED: Json := Json("\"[never-store-redacted]\"", "[never-store-redacted]", None)
  const QUARANTINE: string := "fbeast_memory_store:quarantine"

  datatype Status = Pending | Approved | Rejected | Suppressed | NeverStore

  datatype Reason = AlreadyRejected | NeverStored

  /** What a reviewer decides on; an absent source id or evidence id is the empty string. */
  datatype Payload = Payload(value: Json, source: string, sourceId: string, evidenceId: string, reason: string)

  datatype Candidate = Candidate(key: string, payload: Payload, status: Status, suppression: Option<Reason>)

  /** Signatures are keyed hashes of distinct lists, so they are taken to be the lists. */
  datatype Signature =
    | NeverStoreSignature(key: string)
    | RejectedSignature(key: string, source: string, sourceId: string, evidenceId: string, value: string)

  datatype Suppression = Suppression(reason: Reason, key: string, payload: Payload)

  datatype Tables = Tables(
    candidates: map<nat, Candidate>,
    suppressions: map<Signature, Suppression>,
    provenance: map<string, nat>,
    working: Rows,
    guards: Guards)

  datatype ReviewFailure =
    NotFound | NotPending | InvalidProposal | Refused | Conflict | Full | AuditRecordFailed

  function RejectedOf(key: string, p: Payload): Signature {
    RejectedSignature(key, p.source, p.sourceId, p.evidenceId, p.value.text)
  }

  function Redacted(p: Payload): Payload {
    Payload(REDACTED, REDACTED.search, "", "", REDACTED.search)
  }

  // ----- Guards -----

  /** The keys of the never-store suppressions, which every guarded write consults. */
  function NeverStoredKeys(t: Tables): set<string> {
    set s | s in t.suppressions && t.suppressions[s].reason.NeverStored? :: t.suppressions[s].key
  }

  function GuardsOf(t: Tables): Guards {
    t.guards.(neverStore := NeverStoredKeys(t))
  }

  function ProposalSearch(p: Payload): string {
    p.value.search + " " + p.source + " " + p.sourceId + " " + p.evidenceId + " " + p.reason
  }

  ghost predicate ProposalRefused(g: Guards, key: string, p: Payload) {
    WorkingRefused(g, key, p.value.search) || WorkingRefused(g, key, ProposalSearch(p))
  }

  /** A note or reviewer name is guarded like a text; "" when the decision carries neither. */
  ghost predicate DecisionRefused(g: Guards, decision: string) {
    decision != "" && WorkingRefused(g, "memory-review-decision", decision)
  }

  predicate ValidProposal(key: string, p: Payload) {
    Trim(key) != "" && Trim(p.source) != "" && Trim(p.reason) != ""
  }

  // ----- Suppressions -----

  predicate MatchesRow(row: Suppression, key: string, p: Payload) {
    && row.key == key
    && (row.reason.NeverStored? ||
        (row.payload.value.text == p.value.text && row.payload.source == p.source
         && (row.payload.sourceId == "" || row.payload.sourceId == p.sourceId)
         && row.payload.evidenceId == p.evidenceId))
  }

  ghost predicate HasMatchingRow(t: Tables, key: string, p: Payload) {
    exists s :: s in t.suppressions && MatchesRow(t.suppressions[s], key, p)
  }

  /** Why a candidate must not be stored: a never-store decision on its key first, then a rejection
      of the same content, then a stored rejection that matches it. */
  ghost function SuppressionOf(t: Tables, key: string, p: Payload): Option<Reason> {
    if NeverStoreSignature(key) in t.suppressions then Some(t.suppressions[NeverStoreSignature(key)].reason)
    else if RejectedOf(key, p) in t.suppressions then Some(t.suppressions[RejectedOf(key, p)].reason)
    else if HasMatchingRow(t, key, p) then Some(AlreadyRejected)
    else None
  }

  /** A suppression is filed under a signature of its own key and reason. */
  ghost predicate SuppressionsFiled(t: Tables) {
    forall s :: s in t.suppressions ==>
      t.suppressions[s].key == s.key && (t.suppressions[s].reason.NeverStored? <==> s.NeverStoreSignature?)
  }

  function Marked(c: Candidate, reason: Reason): Candidate {
    c.(status := Suppressed, suppression := Some(reason),
       payload := if reason.NeverStored? then c.payload.(value := REDACTED) else c.payload)
  }

  /** The other pending candidates a new suppression reaches. */
  predicate Reached(pending: Candidate, decided: Candidate, reason: Reason) {
    && pending.status.Pending? && pending.key == decided.key
    && (reason.NeverStored? || RejectedOf(pending.key, pending.payload) == RejectedOf(decided.key, decided.payload))
  }

  function WithPendingSuppressed(cs: map<nat, Candidate>, id: nat, decided: Candidate, reason: Reason)
    : map<nat, Candidate>
  {
    map i | i in cs :: if i != id && Reached(cs[i], decided, reason) then Marked(cs[i], reason) else cs[i]
  }

  function SignatureFor(c: Candidate, reason: Reason): Signature {
    if reason.NeverStored? then NeverStoreSignature(c.key) else RejectedOf(c.key, c.payload)
  }

  /** A row already filed under the signature keeps its payload and takes the new reason. */
  function SuppressionRow(t: Tables, c: Candidate, reason: Reason): Suppression {
    var s := SignatureFor(c, reason);
    if s in t.suppressions then t.suppressions[s].(reason := reason)
    else Suppression(reason, c.key, if reason.NeverStored? then c.payload.(value := REDACTED) else c.payload)
  }

  function WithSuppression(t: Tables, id: nat, reason: Reason): Tables
    requires id in t.candidates
  {
    var c := t.candidates[id];
    t.(suppressions := t.suppressions[SignatureFor(c, reason) := SuppressionRow(t, c, reason)],
       candidates := WithPendingSuppressed(t.candidates, id, c, reason))
  }

  function CandidatesRedacted(cs: map<nat, Candidate>, key: string): map<nat, Candidate> {
    map i | i in cs :: if cs[i].key == key then cs[i].(payload := Redacted(cs[i].payload)) else cs[i]
  }

  function SuppressionsRedacted(ss: map<Signature, Suppression>, key: string): map<Signature, Suppression> {
    map s | s in ss :: if ss[s].key == key then ss[s].(payload := Redacted(ss[s].payload)) else ss[s]
  }

  /** Rejected and suppressed rows with the content of a rejected quarantined candidate. */
  predicate IsRejectedCopy(c: Candidate, signature: Signature) {
    (c.status.Rejected? || c.status.Suppressed?) && RejectedOf(c.key, c.payload) == signature
  }

  function RejectedRedacted(t: Tables, signature: Signature): Tables {
    var cs, ss := t.candidates, t.suppressions;
    t.(candidates := map i | i in cs ::
         if IsRejectedCopy(cs[i], signature) then cs[i].(payload := Redacted(cs[i].payload)) else cs[i],
       suppressions :=
         if signature in ss && ss[signature].reason.AlreadyRejected?
         then ss[signature := ss[signature].(payload := Redacted(ss[signature].payload))]
         else ss)
  }

  // ----- Outcomes of the operations -----

  type Outcome = Result<Tables, ReviewFailure>

  predicate IsPending(t: Tables, id: nat) {
    id in t.candidates && t.candidates[id].status.Pending?
  }

  function NotPendingFailure(t: Tables, id: nat): ReviewFailure {
    if id in t.candidates then NotPending else NotFound
  }

  /** A suppressed proposal is answered but not stored. */
  ghost function Proposed(t: Tables, id: nat, key: string, p: Payload): Outcome {
    if !ValidProposal(key, p) then Err(InvalidProposal)
    else if ProposalRefused(t.guards.(neverStore := {}), key, p) then Err(Refused)
    else if SuppressionOf(t, key, p).Some? then Ok(t)
    else if ProposalRefused(GuardsOf(t), key, p) then Err(Refused)
    else Ok(t.(candidates := t.candidates[id := Candidate(key, p, Pending, None)]))
  }

  /** The fields an edit names; naming the source without a source id clears the source id. */
  datatype CandidateEdit = CandidateEdit(
    key: Option<string>, value: Option<Json>, source: Option<string>, sourceId: Option<string>,
    evidenceId: Option<string>, reason: Option<string>)

  function Chosen<T>(edit: Option<T>, current: T): T {
    if edit.Some? then edit.value else current
  }

  function EditedPayload(p: Payload, e: CandidateEdit): Payload {
    Payload(Chosen(e.value, p.value), Chosen(e.source, p.source),
            if e.source.Some? && e.sourceId.None? then "" else Chosen(e.sourceId, p.sourceId),
            Chosen(e.evidenceId, p.evidenceId), Chosen(e.reason, p.reason))
  }

  ghost function Edited(t: Tables, id: nat, e: CandidateEdit): Outcome {
    if !IsPending(t, id) then Err(NotPendingFailure(t, id)) else
      var c := t.candidates[id];
      var key, p := Chosen(e.key, c.key), EditedPayload(c.payload, e);
      if !ValidProposal(key, p) then Err(InvalidProposal)
      else if ProposalRefused(GuardsOf(t), key, p) then Err(Refused)
      else Ok(t.(candidates := t.candidates[id := c.(key := key, payload := p)]))
  }

  /** The value the working memory shows for a key contradicts the candidate's. */
  predicate Conflicts(existing: Option<Json>, value: Json) {
    existing.Some? && existing.value.text != value.text
  }

  /** What a conflict resolution saw before its transaction began. */
  datatype ConflictGuard = ConflictGuard(existing: Json, value: Json)

  predicate ConflictUnchanged(guard: ConflictGuard, existing: Option<Json>, value: Json) {
    Conflicts(existing, value) && value.text == guard.value.text && existing.value.text == guard.existing.text
  }

  /** The candidate's value written to working memory under "key", with its provenance. */
  function Stored(t: Tables, id: nat, key: string): Tables
    requires id in t.candidates
  {
    var c := t.candidates[id];
    t.(candidates := t.candidates[id := c.(key := key, status := Approved)],
       working := t.working[key := c.payload.value],
       provenance := t.provenance[key := id])
  }

  ghost function StoredIfAllowed(t: Tables, id: nat, key: string, fits: bool): Outcome
    requires id in t.candidates
  {
    if WorkingRefused(GuardsOf(t), key, t.candidates[id].payload.value.search) then Err(Refused)
    else if !fits then Err(Full)
    else Ok(Stored(t, id, key))
  }

  function MarkedSuppressed(t: Tables, id: nat, key: string, reason: Reason): Tables
    requires id in t.candidates
  {
    t.(candidates := t.candidates[id := Marked(t.candidates[id].(key := key), reason)])
  }

  /** A decision guard, a suppression, then a conflict are looked at in this order. */
  ghost function Approval(t: Tables, id: nat, guard: Option<ConflictGuard>, existing: Option<Json>, decision: string,
                          fits: bool): Outcome {
    if id !in t.candidates then Err(NotFound) else
      var c := t.candidates[id];
      if c.status.Suppressed? then Ok(t)
      else if !c.status.Pending? then Err(NotPending)
      else if DecisionRefused(GuardsOf(t), decision) then Err(Refused)
      else if SuppressionOf(t, c.key, c.payload).Some? then
        Ok(MarkedSuppressed(t, id, c.key, SuppressionOf(t, c.key, c.payload).value))
      else if (if guard.Some? then !ConflictUnchanged(guard.value, existing, c.payload.value)
               else Conflicts(existing, c.payload.value))
        then Err(Conflict)
      else StoredIfAllowed(t, id, c.key, fits)
  }

  /** keep_both_scoped: the candidate moves to another key and is approved there. */
  ghost function ScopedApproval(t: Tables, id: nat, key: string, guard: ConflictGuard, existing: Option<Json>,
                                scopedExisting: Option<Json>, decision: string, fits: bool): Outcome {
    if Trim(key) == "" then Err(InvalidProposal)
    else if !IsPending(t, id) then Err(NotPendingFailure(t, id)) else
      var c := t.candidates[id];
      if key == c.key then Err(InvalidProposal)
      else if !ConflictUnchanged(guard, existing, c.payload.value) then Err(Conflict)
      else if !ValidProposal(key, c.payload) then Err(InvalidProposal)
      else if ProposalRefused(GuardsOf(t), key, c.payload) then Err(Refused)
      else if Conflicts(scopedExisting, c.payload.value) then Err(Conflict)
      else if DecisionRefused(GuardsOf(t), decision) then Err(Refused)
      else if SuppressionOf(t, key, c.payload).Some? then
        Ok(MarkedSuppressed(t, id, key, SuppressionOf(t, key, c.payload).value))
      else StoredIfAllowed(t, id, key, fits)
  }

  /** expire_existing: the old value gives way to the candidate's. */
  ghost function ExpiringApproval(t: Tables, id: nat, guard: ConflictGuard, existing: Option<Json>, decision: string,
                                  fits: bool): Outcome {
    if !IsPending(t, id) then Err(NotPendingFailure(t, id)) else
      var c := t.candidates[id];
      if !ConflictUnchanged(guard, existing, c.payload.value) then Err(Conflict)
      else if DecisionRefused(GuardsOf(t), decision) then Err(Refused)
      else if SuppressionOf(t, c.key, c.payload).Some? then
        Ok(MarkedSuppressed(t, id, c.key, SuppressionOf(t, c.key, c.payload).value))
      else StoredIfAllowed(t, id, c.key, fits)
  }

  function Decided(t: Tables, id: nat, reason: Reason, status: Status): Tables
    requires id in t.candidates
  {
    var s := WithSuppression(t, id, reason);
    s.(candidates := s.candidates[id := t.candidates[id].(status := status)])
  }

  ghost function Rejection(t: Tables, id: nat, guard: Option<ConflictGuard>, existing: Option<Json>,
                           decision: string): Outcome {
    if !IsPending(t, id) then Err(NotPendingFailure(t, id)) else
      var c := t.candidates[id];
      if DecisionRefused(GuardsOf(t), decision) then Err(Refused)
      else if guard.Some? && !ConflictUnchanged(guard.value, existing, c.payload.value) then Err(Conflict)
      else
        var d := Decided(t, id, AlreadyRejected, Rejected);
        Ok(if c.payload.source == QUARANTINE then RejectedRedacted(d, RejectedOf(c.key, c.payload)) else d)
  }

  /** The suppression, the purge of working row and provenance, the decision, the redaction. */
  function Purged(t: Tables, id: nat): Tables
    requires id in t.candidates
  {
    var key, d := t.candidates[id].key, Decided(t, id, NeverStored, NeverStore);
    d.(working := d.working - {key}, provenance := d.provenance - {key},
       candidates := CandidatesRedacted(d.candidates, key),
       suppressions := SuppressionsRedacted(d.suppressions, key))
  }

  ghost function NeverStoring(t: Tables, id: nat, decision: string): Outcome {
    if !IsPending(t, id) then Err(NotPendingFailure(t, id))
    else if DecisionRefused(GuardsOf(t), decision) then Err(Refused)
    else Ok(Purged(t, id))
  }

  datatype Resolution =
    | KeepExisting | ReplaceExisting | KeepBothScoped(key: string) | RejectCandidate | ExpireExistingValue

  /** How the conflict seen before its transaction is resolved in it; "seen" and "existing" are what
      working memory shows at the two moments. */
  ghost function Resolved(t: Tables, id: nat, how: Resolution, seen: Option<Json>, existing: Option<Json>,
                          scopedExisting: Option<Json>, decision: string, fits: bool): Outcome {
    if !IsPending(t, id) then Err(NotPendingFailure(t, id))
    else if !Conflicts(seen, t.candidates[id].payload.value) then Err(Conflict) else
      var guard := ConflictGuard(seen.value, t.candidates[id].payload.value);
      match how
      case ReplaceExisting => Approval(t, id, Some(guard), existing, decision, fits)
      case KeepBothScoped(key) => ScopedApproval(t, id, key, guard, existing, scopedExisting, decision, fits)
      case ExpireExistingValue => ExpiringApproval(t, id, guard, existing, decision, fits)
      case KeepExisting => Rejection(t, id, Some(guard), existing, decision)
      case RejectCandidate => Rejection(t, id, Some(guard), existing, decision)
  }
}
