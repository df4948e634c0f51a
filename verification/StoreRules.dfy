/** What each call of the intent store does, said of the intents themselves: when it succeeds,
    what it changes, and that everything else stays. */
module StoreRules {
  import opened Prelude
  import opened Intents
  import opened PolicyLog
  import S = StoreSpec

  // ---- Creating -----------------------------------------------------------------------

  /** An automatic intent of this policy and subject. */
  predicate ForSubject(intent: Intent, policy: string, subject: string) {
    intent.origin == Automatic && intent.autoRunPolicyID == policy && intent.subject == subject
  }

  predicate ForOperation(intent: Intent, op: string) { intent.origin == Explicit && intent.operationID == op }

  /** The attempt to record under a new identifier goes through. */
  predicate Recordable(s: S.State, env: S.Env, staged: S.Step) {
    env.id.Some? && env.id.value !in s.intents && staged !in env.faults && S.IntentStaged !in env.faults
  }

  /** The intents with one more, the draft under its new identifier. */
  ghost predicate Gains(s: S.State, s': S.State, draft: Intent, id: ID, r: Result<S.Created>) {
    && id !in s.intents && s'.intents == s.intents[id := draft.(id := id)]
    && r == Ok(S.Created(draft.(id := id), true))
    && s'.policyLogs == s.policyLogs && s'.policies == s.policies && s'.runs == s.runs
  }

  lemma SubjectIndexed(s: S.State, policy: string, subject: string, id: ID)
    requires S.Valid(s) && id in s.intents && ForSubject(s.intents[id], policy, subject)
    ensures S.AutoKey(policy, subject) in s.auto && s.auto[S.AutoKey(policy, subject)] == id
  {
    assert S.KeyOf(s.intents[id]) == S.AutoKey(policy, subject);
  }

  /** A recorded subject is replayed, whatever the policy's state, the identifier drawn and the
      faults, and nothing changes. */
  lemma SubjectReplays(s: S.State, draft: Intent, epoch: nat, env: S.Env, id: ID)
    requires S.Valid(s) && id in s.intents && ForSubject(s.intents[id], draft.autoRunPolicyID, draft.subject)
    ensures S.CreateAutomatic(s, draft, env) == (s, Ok(S.Created(s.intents[id], false)))
    ensures S.CreateAutomaticAdmitted(s, draft, epoch, env) == (s, Ok(S.Created(s.intents[id], false)))
  {
    SubjectIndexed(s, draft.autoRunPolicyID, draft.subject, id);
  }

  /** A new subject is recorded exactly if the attempt goes through and, behind the gate, the
      policy is ACTIVE at the epoch; otherwise nothing changes. */
  lemma SubjectRecorded(s: S.State, draft: Intent, epoch: nat, env: S.Env)
    requires S.Valid(s) && forall id :: id in s.intents ==> !ForSubject(s.intents[id], draft.autoRunPolicyID, draft.subject)
    ensures var (s', r) := S.CreateAutomatic(s, draft, env);
            if Recordable(s, env, S.IndexStaged) then Gains(s, s', draft, env.id.value, r) else s' == s && r.Err?
    ensures var (s', r) := S.CreateAutomaticAdmitted(s, draft, epoch, env);
            var policy := draft.autoRunPolicyID;
            if !(policy in s.policies && s.policies[policy].state == Active && s.policies[policy].epoch == epoch)
            then s' == s && r == Err(PolicyStale)
            else (s', r) == S.CreateAutomatic(s, draft, env)
  {
    var k := S.KeyOf(draft);
    assert k in s.auto ==> ForSubject(s.intents[s.auto[k]], draft.autoRunPolicyID, draft.subject);
  }

  predicate ExplicitDraft(draft: Intent) {
    && draft.origin == Explicit && draft.operationID != "" && draft.autoRunPolicyID == "" && draft.autoRunPolicyRevision == ""
    && draft.admissionEpoch == 0 && draft.runID == ""
  }

  /** An explicit create replays the recorded operation or records it as new; a draft of another
      shape is refused before anything is looked at. */
  lemma OperationCreates(s: S.State, draft: Intent, env: S.Env)
    requires S.Valid(s)
    ensures !ExplicitDraft(draft) ==> S.CreateExplicit(s, draft, env) == (s, Err(InvalidContract))
    ensures ExplicitDraft(draft) ==> forall id :: id in s.intents && ForOperation(s.intents[id], draft.operationID) ==>
              S.CreateExplicit(s, draft, env) == (s, Ok(S.Created(s.intents[id], false)))
    ensures ExplicitDraft(draft) && (forall id :: id in s.intents ==> !ForOperation(s.intents[id], draft.operationID)) ==>
              var (s', r) := S.CreateExplicit(s, draft, env);
              if Recordable(s, env, S.LedgerStaged) then Gains(s, s', draft, env.id.value, r) else s' == s && r.Err?
  {
    var op := draft.operationID;
    assert op in s.ops ==> ForOperation(s.intents[s.ops[op]], op);
  }

  // ---- Looking up ---------------------------------------------------------------------

  /** A lookup finds exactly the recorded intent of the key. */
  lemma LooksUp(s: S.State, policy: string, subject: string, op: string)
    requires S.Valid(s)
    ensures match S.LookupAutomatic(s, policy, subject)
            case Some(intent) => intent.id in s.intents && s.intents[intent.id] == intent && ForSubject(intent, policy, subject)
            case None => forall id :: id in s.intents ==> !ForSubject(s.intents[id], policy, subject)
    ensures match S.LookupExplicit(s, op)
            case Some(intent) => intent.id in s.intents && s.intents[intent.id] == intent && ForOperation(intent, op)
            case None => forall id :: id in s.intents ==> !ForOperation(s.intents[id], op)
  {
    forall id | id in s.intents && ForSubject(s.intents[id], policy, subject) ensures S.AutoKey(policy, subject) in s.auto {
      SubjectIndexed(s, policy, subject, id);
    }
  }

  // ---- Attaching ----------------------------------------------------------------------

  /** The RunID is free: no other intent has it. */
  ghost predicate RunFree(s: S.State, id: ID, run: RunID) {
    forall other :: other in s.intents && other != id ==> s.intents[other].runID != run
  }

  /** Attaching succeeds exactly if the intent has the RunID already, or has none, the RunID is
      free and no fault is met; it sets that RunID and changes nothing else of any intent. */
  lemma Attaches(s: S.State, id: ID, run: RunID, env: S.Env)
    requires S.Valid(s) && run != ""
    ensures var (s', r) := S.AttachRunID(s, id, run, env);
            && (r.Ok? <==> && id in s.intents
                           && (s.intents[id].runID == run
                               || (s.intents[id].runID == "" && RunFree(s, id, run)
                                   && S.RunIndexStaged !in env.faults && S.IntentStaged !in env.faults)))
            && (r.Ok? ==> r.value == s.intents[id].(runID := run) && s'.intents == s.intents[id := r.value])
            && (r.Err? ==> s' == s)
            && s'.policyLogs == s.policyLogs && s'.policies == s.policies
  {
    if run in s.runs { assert s.intents[s.runs[run]].runID == run; }
  }

  // ---- Blockers -----------------------------------------------------------------------

  /** One owner's slot is set and the others stay. */
  predicate SlotSet(before: Blockers, after: Blockers, owner: BlockerOwner, state: BlockerState) {
    && after.policyDisable == (if owner == PolicyDisable then state else before.policyDisable)
    && after.campaignPause == (if owner == CampaignPause then state else before.campaignPause)
    && after.authorization == (if owner == Authorization then state else before.authorization)
    && after.materializationPrereq == (if owner == MaterializationPrereq then state else before.materializationPrereq)
  }

  predicate StandsAt(blockers: Blockers, owner: BlockerOwner, state: BlockerState) {
    match owner
    case PolicyDisable => blockers.policyDisable == state
    case CampaignPause => blockers.campaignPause == state
    case Authorization => blockers.authorization == state
    case MaterializationPrereq => blockers.materializationPrereq == state
    case UnknownOwner(_) => false
  }

  /** A blocker update succeeds exactly on a recorded intent and a known owner, if the slot
      stands at the state already or no fault is met; it sets that slot and changes nothing
      else of any intent. */
  lemma Blocks(s: S.State, id: ID, owner: BlockerOwner, state: BlockerState, env: S.Env)
    ensures var (s', r) := S.UpdateBlocker(s, id, owner, state, env);
            && (r.Ok? <==> && id in s.intents && !owner.UnknownOwner?
                           && (StandsAt(s.intents[id].blockers, owner, state) || S.BlockerStaged !in env.faults))
            && (r.Ok? ==> && r.value == s.intents[id].(blockers := r.value.blockers)
                          && SlotSet(s.intents[id].blockers, r.value.blockers, owner, state)
                          && s'.intents == s.intents[id := r.value])
            && (r.Err? ==> s' == s)
            && s'.policyLogs == s.policyLogs && s'.policies == s.policies
  {
  }

  // ---- Appending ----------------------------------------------------------------------

  /** An append is stale exactly if the log has another length than expected, and fails
      otherwise only by a fault; a failed one changes nothing. */
  lemma AppendsExactly(s: S.State, policy: string, expected: nat, t: PolicyTransition, hold: bool, env: S.Env)
    ensures var (s', r) := S.AppendPolicyTransition(s, policy, expected, t, hold, env);
            && (r == Err(PolicyStale) <==> |S.LogAt(s, policy)| != expected)
            && (r == Err(Fault) <==> |S.LogAt(s, policy)| == expected
                                     && (S.PolicyStaged in env.faults || (hold && S.HoldStaged in env.faults)))
            && (r.Err? ==> s' == s && (r.code == PolicyStale || r.code == Fault))
  {
  }
}
