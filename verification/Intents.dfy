/** The value types of the intent package: intents, blockers, requests and publication
    facts. Identities are opaque strings. */
module Intents {
  import opened Prelude

  type ID = string
  type RunID = string

  datatype Origin = Automatic | Explicit | OtherOrigin

  datatype RevisionRef = RevisionRef(pipelineID: string, revisionID: string)

  // ---- Blockers -----------------------------------------------------------------------

  datatype BlockerState = Clear | Blocked | Unknown

  datatype BlockerOwner =
    | PolicyDisable
    | CampaignPause
    | Authorization
    | MaterializationPrereq
    | UnknownOwner(name: string)

  datatype Blockers = Blockers(policyDisable: BlockerState, campaignPause: BlockerState,
                               authorization: BlockerState, materializationPrereq: BlockerState)
  {
    predicate AllClear() { this == NoBlockers }

    /** The owner's slot, or None for an unknown owner. */
    function Slot(owner: BlockerOwner): Option<BlockerState> {
      match owner
      case PolicyDisable => Some(policyDisable)
      case CampaignPause => Some(campaignPause)
      case Authorization => Some(authorization)
      case MaterializationPrereq => Some(materializationPrereq)
      case UnknownOwner(_) => None
    }

    function SetSlot(owner: BlockerOwner, state: BlockerState): (b: Blockers)
      ensures Slot(owner).Some? ==> b.Slot(owner) == Some(state)
      ensures forall other :: other != owner ==> b.Slot(other) == Slot(other)
    {
      match owner
      case PolicyDisable => this.(policyDisable := state)
      case CampaignPause => this.(campaignPause := state)
      case Authorization => this.(authorization := state)
      case MaterializationPrereq => this.(materializationPrereq := state)
      case UnknownOwner(_) => this
    }
  }

  const NoBlockers := Blockers(Clear, Clear, Clear, Clear)

  // ---- Intents and requests -----------------------------------------------------------

  datatype Intent = Intent(
    id: ID,
    origin: Origin,
    autoRunPolicyID: string,
    autoRunPolicyRevision: string,
    operationID: string,
    subject: string,
    pipelineRevision: RevisionRef,
    runID: RunID,
    admissionEpoch: nat,
    blockers: Blockers)

  /** The fields that no operation may change after the intent was recorded. */
  ghost predicate SameFrozen(a: Intent, b: Intent) {
    b == a.(runID := b.runID, blockers := b.blockers)
  }

  datatype AutomaticRequest = AutomaticRequest(policyID: string, policyRevision: string,
                                               subject: string, pipelineRevision: RevisionRef)
  {
    predicate Complete() {
      policyID != "" && policyRevision != "" && subject != ""
      && pipelineRevision.pipelineID != "" && pipelineRevision.revisionID != ""
    }

    /** The draft the Service records for this request at an admission epoch. */
    function Draft(epoch: nat): Intent {
      Intent("", Automatic, policyID, policyRevision, "", subject, pipelineRevision, "", epoch, NoBlockers)
    }
  }

  datatype ExplicitRequest = ExplicitRequest(operationID: string, subject: string, pipelineRevision: RevisionRef)
  {
    predicate Complete() {
      operationID != "" && subject != ""
      && pipelineRevision.pipelineID != "" && pipelineRevision.revisionID != ""
    }

    function Draft(): Intent {
      Intent("", Explicit, "", "", operationID, subject, pipelineRevision, "", 0, NoBlockers)
    }
  }

  predicate SameExplicitSemantics(stored: Intent, draft: Intent) {
    stored.origin == draft.origin && stored.subject == draft.subject
    && stored.pipelineRevision == draft.pipelineRevision
  }

  /** What a replay of an automatic request observed to differ from the frozen intent. */
  datatype Divergence = Divergence(policyRevisionChanged: bool, pipelineRevisionChanged: bool,
                                   observedPolicyRevision: string, observedPipelineRevision: RevisionRef)

  datatype CreateResult = CreateResult(intent: Intent, created: bool, divergence: Option<Divergence>)

  function AutomaticReplay(stored: Intent, req: AutomaticRequest): CreateResult {
    var d := Divergence(stored.autoRunPolicyRevision != req.policyRevision,
                        stored.pipelineRevision != req.pipelineRevision,
                        req.policyRevision, req.pipelineRevision);
    CreateResult(stored, false, if d.policyRevisionChanged || d.pipelineRevisionChanged then Some(d) else None)
  }

  function ExplicitReplay(stored: Intent, draft: Intent): Result<CreateResult> {
    if SameExplicitSemantics(stored, draft) then Ok(CreateResult(stored, false, None)) else Err(OperationConflict)
  }

  // ---- Publication order --------------------------------------------------------------

  /** An opaque position in a publication order owned by the caller. */
  type Position(==, !new)

  datatype Comparison = Before | At | After | Incomparable

  type PublicationOrder = (Position, Position) -> Comparison

  predicate NotBefore(order: PublicationOrder, a: Position, b: Position) {
    order(a, b) == At || order(a, b) == After
  }

  /** What the protocol assumes of the caller's order: being at or after is transitive,
      strictly so when either step is strict. Positions of different domains may be
      Incomparable. */
  ghost predicate Lawful(order: PublicationOrder) {
    && (forall a, b, c :: NotBefore(order, a, b) && NotBefore(order, b, c) ==> NotBefore(order, a, c))
    && (forall a, b, c :: order(a, b) == After && NotBefore(order, b, c) ==> order(a, c) == After)
  }

  datatype OccurrenceClass = NewOccurrence | Reexpression | UnknownOccurrence

  datatype PublicationFacts = PublicationFacts(position: Option<Position>, cls: OccurrenceClass)
}
