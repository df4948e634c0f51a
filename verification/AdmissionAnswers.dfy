/** Every answer is true of a point of the shared state between the call's start and its end,
    although other clients run between the steps of a call. */
module AdmissionAnswers {
  import opened Prelude
  import opened Intents
  import opened PolicyLog
  import opened Admission
  import opened AdmissionSafety
  import opened AdmissionTheorems
  import opened AdmissionProgress
  import S = StoreSpec

  // ---- What the answers say -----------------------------------------------------------

  /** rec was the policy's record at some moment since the call began. */
  ghost predicate Seen(k: Core, call: Call, start: nat, rec: PolicyRecord) {
    PointOf(k.store, call.Policy(), rec) && start <= rec.number
  }

  /** The intent is recorded, with the frozen fields the answer shows. */
  ghost predicate Recorded(k: Core, intent: Intent) {
    intent.id in k.store.intents && SameFrozen(intent, k.store.intents[intent.id])
  }

  function Target(call: Call): PolicyState
    requires call.StopPolicy?
  {
    if call.retire then Retired else Disabled
  }

  predicate ForRequest(intent: Intent, req: AutomaticRequest) {
    intent.origin == Automatic && intent.autoRunPolicyID == req.policyID && intent.subject == req.subject
  }

  /** The intent as an automatic request asks for it, field by field, unassigned and clear. */
  predicate FreshFor(intent: Intent, req: AutomaticRequest, epoch: nat) {
    && intent.origin == Automatic && intent.operationID == "" && intent.subject == req.subject
    && intent.autoRunPolicyID == req.policyID && intent.autoRunPolicyRevision == req.policyRevision
    && intent.pipelineRevision.pipelineID == req.pipelineRevision.pipelineID
    && intent.pipelineRevision.revisionID == req.pipelineRevision.revisionID
    && intent.admissionEpoch == epoch && Unstarted(intent)
  }

  /** The intent as an explicit request asks for it. */
  predicate FreshForOperation(intent: Intent, req: ExplicitRequest) {
    && intent.origin == Explicit && intent.operationID == req.operationID && intent.subject == req.subject
    && intent.autoRunPolicyID == "" && intent.autoRunPolicyRevision == ""
    && intent.pipelineRevision.pipelineID == req.pipelineRevision.pipelineID
    && intent.pipelineRevision.revisionID == req.pipelineRevision.revisionID
    && intent.admissionEpoch == 0 && Unstarted(intent)
  }

  predicate Unstarted(intent: Intent) {
    && intent.runID == "" && intent.blockers.policyDisable == Clear && intent.blockers.campaignPause == Clear
    && intent.blockers.authorization == Clear && intent.blockers.materializationPrereq == Clear
  }

  /** A replay reports what the request observed exactly if that differs from the intent. */
  predicate DivergesAs(result: CreateResult, req: AutomaticRequest) {
    var policyMoved := result.intent.autoRunPolicyRevision != req.policyRevision;
    var pipelineMoved := result.intent.pipelineRevision.pipelineID != req.pipelineRevision.pipelineID
                         || result.intent.pipelineRevision.revisionID != req.pipelineRevision.revisionID;
    if policyMoved || pipelineMoved
    then result.divergence == Some(Divergence(policyMoved, pipelineMoved, req.policyRevision, req.pipelineRevision))
    else result.divergence == None
  }

  ghost predicate ReturnedOK(k: Core, call: Call, result: CreateResult) {
    && Recorded(k, result.intent)
    && match call
       case AdmitAutomatic(req, _) => !result.created && ForRequest(result.intent, req) && DivergesAs(result, req)
       case CreateUngated(req) =>
         && ForRequest(result.intent, req)
         && if result.created then FreshFor(result.intent, req, 0) && result.divergence == None else DivergesAs(result, req)
       case CreateExplicit(req) =>
         && result.intent.origin == Explicit && result.intent.operationID == req.operationID
         && result.intent.subject == req.subject && result.intent.pipelineRevision == req.pipelineRevision
         && result.divergence == None && (result.created ==> FreshForOperation(result.intent, req))
       case _ => false
  }

  /** Why a record closes the gate on these facts: the first of the rules that fails. */
  ghost predicate GateReason(order: PublicationOrder, rec: PolicyRecord, facts: PublicationFacts, reason: NotAdmittedReason) {
    match reason
    case PolicyNotActive => rec.state != Active
    case OccurrenceNotNew => rec.state == Active && facts.cls == Reexpression
    case OccurrenceUnknown => rec.state == Active && facts.cls == UnknownOccurrence
    case PositionUnknown => rec.state == Active && facts.cls == NewOccurrence && facts.position == None
    case PositionNotComparable =>
      rec.state == Active && facts.cls == NewOccurrence && facts.position.Some?
      && (rec.frontier == None || order(facts.position.value, rec.frontier.value) == Incomparable)
    case PreFrontier =>
      rec.state == Active && facts.cls == NewOccurrence && facts.position.Some? && rec.frontier.Some?
      && (order(facts.position.value, rec.frontier.value) == At || order(facts.position.value, rec.frontier.value) == Before)
  }

  ghost predicate UpdatedOK(k: Core, call: Call, intent: Intent) {
    && Recorded(k, intent)
    && match call
       case AttachRunID(id, run) => run != "" && intent.id == id && intent.runID == run && k.store.intents[id].runID == run
       case RecordAcceptance(id, observed) =>
         && intent.id == id && intent.origin == Automatic && intent.runID != ""
         && (observed != Accepted ==> intent.blockers.policyDisable == Blocked)
       case SetBlocker(id, owner, state) => intent.id == id && intent.blockers.Slot(owner) == Some(state)
       case ReleaseBlocker(id, owner) => intent.id == id && intent.blockers.Slot(owner) == Some(Clear)
       case _ => false
  }

  /** A re-enable frontier is refused because of a DISABLED record whose frontier it is not
      at or after. */
  ghost predicate FrontierRefused(order: PublicationOrder, k: Core, call: Call, start: nat, rec: PolicyRecord) {
    && call.EnablePolicy? && call.frontier.Some? && Seen(k, call, start, rec) && rec.state == Disabled
    && (rec.frontier.None? || !NotBefore(order, call.frontier.value, rec.frontier.value))
  }

  ghost predicate FailedOK(order: PublicationOrder, k: Core, call: Call, start: nat, code: Code) {
    && (code == PolicyRetired ==> S.RecordAt(k.store, call.Policy()).state == Retired)
    && (code == FrontierInvalid ==> exists rec :: FrontierRefused(order, k, call, start, rec))
  }

  ghost predicate AnswerOK(order: PublicationOrder, k: Core, call: Call, start: nat, outcome: Outcome) {
    match outcome
    case Failed(code) => FailedOK(order, k, call, start, code)
    case Enabled(rec) => call.EnablePolicy? && Seen(k, call, start, rec) && rec.state == Active
    case Stopped(rec, _) => call.StopPolicy? && Seen(k, call, start, rec) && rec.state == Target(call)
    case NotAdmitted(reason, rec) =>
      call.AdmitAutomatic? && Seen(k, call, start, rec) && GateReason(order, rec, call.facts, reason)
    case Admitted(rec, intent) =>
      call.AdmitAutomatic? && Seen(k, call, start, rec) && GateOpen(order, rec, call.facts)
      && Recorded(k, intent) && FreshFor(intent, call.req, rec.epoch)
    case Returned(result) => ReturnedOK(k, call, result)
    case Updated(intent) => UpdatedOK(k, call, intent)
  }

  /** A running stop call appends the transition it was asked for. */
  ghost predicate KindOK(call: Call, pc: Pc) {
    && Fits(call, pc)
    && (pc.Append? && call.StopPolicy? ==> pc.transition.kind == if call.retire then Retire else Disable)
    && (pc.Append? && call.EnablePolicy? ==> Opening(pc.transition) && pc.transition.frontier == call.frontier)
  }

  /** An acceptance is written only for an automatic intent. */
  ghost predicate AcceptanceOK(k: Core, call: Call, pc: Pc) {
    pc.Write? && call.RecordAcceptance? ==>
      call.id in k.store.intents && k.store.intents[call.id].origin == Automatic && k.store.intents[call.id].runID != ""
  }

  ghost predicate Truthful(order: PublicationOrder, k: Core, cl: Client) {
    match cl
    case Running(call, _, pc) => KindOK(call, pc) && AcceptanceOK(k, call, pc)
    case Done(call, start, outcome) => AnswerOK(order, k, call, start, outcome)
  }

  // ---- Answers stay true --------------------------------------------------------------

  lemma SeenStable(k: Core, k': Core, call: Call, start: nat, rec: PolicyRecord)
    requires Grown(k, k') && Seen(k, call, start, rec)
    ensures Seen(k', call, start, rec)
  {
    PointStable(k, k', call.Policy(), rec);
  }

  lemma RecordedStable(k: Core, k': Core, intent: Intent)
    requires Grown(k, k') && Recorded(k, intent)
    ensures Recorded(k', intent)
  {
  }

  lemma RetiredStable(order: PublicationOrder, k: Core, k': Core, policy: string)
    requires S.Valid(k.store) && S.Valid(k'.store) && LogsLegal(order, k'.store) && Grown(k, k')
    requires S.RecordAt(k.store, policy).state == Retired
    ensures S.RecordAt(k'.store, policy).state == Retired
  {
    var log, log' := S.LogAt(k.store, policy), S.LogAt(k'.store, policy);
    CurrentRecord(k.store, policy);
    CurrentRecord(k'.store, policy);
    LegalAt(order, k'.store, policy);
    LegalIffShape(order, policy, log');
    assert log <= log';
    FoldLast(policy, log, |log|);
    assert EntryShape(order, log', |log| - 1);
    assert log' == log;
  }

  lemma FailedStable(order: PublicationOrder, k: Core, k': Core, call: Call, start: nat, code: Code)
    requires S.Valid(k.store) && S.Valid(k'.store) && LogsLegal(order, k'.store) && Grown(k, k')
    requires FailedOK(order, k, call, start, code)
    ensures FailedOK(order, k', call, start, code)
  {
    if code == PolicyRetired { RetiredStable(order, k, k', call.Policy()); }
    if code == FrontierInvalid {
      var rec :| FrontierRefused(order, k, call, start, rec);
      SeenStable(k, k', call, start, rec);
      assert FrontierRefused(order, k', call, start, rec);
    }
  }

  lemma ReturnedStable(k: Core, k': Core, call: Call, result: CreateResult)
    requires Grown(k, k') && ReturnedOK(k, call, result)
    ensures ReturnedOK(k', call, result)
  {
    RecordedStable(k, k', result.intent);
  }

  lemma UpdatedStable(k: Core, k': Core, call: Call, intent: Intent)
    requires Grown(k, k') && UpdatedOK(k, call, intent)
    ensures UpdatedOK(k', call, intent)
  {
    RecordedStable(k, k', intent);
  }

  lemma AdmittedStable(order: PublicationOrder, k: Core, k': Core, call: Call, start: nat, rec: PolicyRecord, intent: Intent)
    requires Grown(k, k') && AnswerOK(order, k, call, start, Admitted(rec, intent))
    ensures AnswerOK(order, k', call, start, Admitted(rec, intent))
  {
    SeenStable(k, k', call, start, rec);
    RecordedStable(k, k', intent);
  }

  lemma AnswerStable(order: PublicationOrder, k: Core, k': Core, call: Call, start: nat, outcome: Outcome)
    requires S.Valid(k.store) && S.Valid(k'.store) && LogsLegal(order, k'.store) && Grown(k, k')
    requires AnswerOK(order, k, call, start, outcome)
    ensures AnswerOK(order, k', call, start, outcome)
  {
    match outcome
    case Failed(code) => FailedStable(order, k, k', call, start, code);
    case Returned(result) => ReturnedStable(k, k', call, result);
    case Updated(intent) => UpdatedStable(k, k', call, intent);
    case Admitted(rec, intent) => AdmittedStable(order, k, k', call, start, rec, intent);
    case _ => SeenStable(k, k', call, start, outcome.record);
  }

  // ---- Each step answers truthfully ---------------------------------------------------

  lemma ReadSeen(k: Core, call: Call, start: nat)
    requires S.Valid(k.store) && start <= |S.LogAt(k.store, call.Policy())|
    ensures Seen(k, call, start, S.RecordAt(k.store, call.Policy()))
  {
    ReadIsPoint(k.store, call.Policy());
  }

  lemma EnableTruth(order: PublicationOrder, k: Core, call: Call, start: nat, tries: nat)
    requires S.Valid(k.store) && call.EnablePolicy? && Fits(call, ReadPolicy(tries, false))
    requires start <= |S.LogAt(k.store, call.policy)|
    ensures Truthful(order, k, DecideEnable(order, call, start, tries, S.GetPolicy(k.store, call.policy)))
  {
    var rec := S.RecordAt(k.store, call.policy);
    ReadSeen(k, call, start);
    FoundRecord(k.store, call.policy);
    EnableDecides(order, call, start, tries, S.GetPolicy(k.store, call.policy), rec);
    if rec.state == Disabled && (rec.frontier.None? || !NotBefore(order, call.frontier.value, rec.frontier.value)) {
      assert FrontierRefused(order, k, call, start, rec);
    }
  }

  lemma FoundRecord(s: S.State, policy: string)
    ensures S.RecordAt(s, policy) == match S.GetPolicy(s, policy) case Some(rec) => rec case None => ZeroRecord
  {
  }

  /** What an enable decides on a record, state by state. */
  lemma EnableDecides(order: PublicationOrder, call: Call, start: nat, tries: nat, found: Option<PolicyRecord>, rec: PolicyRecord)
    requires call.EnablePolicy? && call.frontier.Some? && rec == match found case Some(r) => r case None => ZeroRecord
    ensures var cl := DecideEnable(order, call, start, tries, found);
            match rec.state
            case Active => cl == Done(call, start, Enabled(rec))
            case Retired => cl == Done(call, start, Failed(PolicyRetired))
            case Disabled =>
              if rec.frontier.None? || !NotBefore(order, call.frontier.value, rec.frontier.value)
              then cl == Done(call, start, Failed(FrontierInvalid))
              else cl == Running(call, start, Append(tries, rec, PolicyTransition(0, Reenable, rec.epoch + 1, call.frontier)))
            case NoState => cl == Running(call, start, Append(tries, rec, PolicyTransition(0, Activate, 1, call.frontier)))
  {
  }

  lemma StopTruth(order: PublicationOrder, k: Core, call: Call, start: nat, tries: nat)
    requires S.Valid(k.store) && call.StopPolicy? && Fits(call, ReadPolicy(tries, false)) && call.policy in k.store.policies
    requires start <= |S.LogAt(k.store, call.policy)|
    ensures var rec := S.RecordAt(k.store, call.policy);
            forall m :: Truthful(order, k, DecideStop(call, start, tries, Some(S.Appended(rec, m))))
  {
    ReadSeen(k, call, start);
  }

  lemma AdmitTruth(order: PublicationOrder, k: Core, call: Call, start: nat, tries: nat, checked: bool)
    requires S.Valid(k.store) && call.AdmitAutomatic? && Fits(call, ReadPolicy(tries, checked))
    requires start <= |S.LogAt(k.store, call.req.policyID)|
    ensures Truthful(order, k, DecideAdmit(order, call, start, tries, checked, S.GetPolicy(k.store, call.req.policyID)))
  {
    ReadSeen(k, call, start);
    ReadIsPoint(k.store, call.req.policyID);
  }

  lemma ReadPolicyTruth(order: PublicationOrder, k: Core, call: Call, start: nat, pc: Pc, env: Env)
    requires S.Valid(k.store) && start <= |S.LogAt(k.store, call.Policy())| && KindOK(call, pc) && pc.ReadPolicy?
    ensures Truthful(order, k, ReadStep(order, k, call, start, pc, env))
  {
    var next := ReadStep(order, k, call, start, pc, env);
    match call
    case EnablePolicy(p, _) =>
      EnableTruth(order, k, call, start, pc.tries);
      assert next == DecideEnable(order, call, start, pc.tries, S.GetPolicy(k.store, p));
    case StopPolicy(p, _) =>
      if p in k.store.policies {
        StopTruth(order, k, call, start, pc.tries);
        assert next == DecideStop(call, start, pc.tries, Some(S.Appended(S.RecordAt(k.store, p), S.MembershipOf(k.store, p))));
      } else {
        assert next == Done(call, start, Failed(NotFound));
      }
    case AdmitAutomatic(req, _) =>
      AdmitTruth(order, k, call, start, pc.tries, pc.checked);
      assert next == DecideAdmit(order, call, start, pc.tries, pc.checked, S.GetPolicy(k.store, req.policyID));
  }

  lemma FoundAutomatic(s: S.State, policy: string, subject: string)
    requires S.Valid(s) && S.LookupAutomatic(s, policy, subject).Some?
    ensures var intent := S.LookupAutomatic(s, policy, subject).value;
            intent.id in s.intents && s.intents[intent.id] == intent && intent.origin == Automatic && S.KeyOf(intent) == S.AutoKey(policy, subject)
  {
  }

  lemma FoundExplicit(s: S.State, op: string)
    requires S.Valid(s) && S.LookupExplicit(s, op).Some?
    ensures var intent := S.LookupExplicit(s, op).value;
            intent.id in s.intents && s.intents[intent.id] == intent && intent.origin == Explicit && intent.operationID == op
  {
  }

  lemma LookupRequestTruth(order: PublicationOrder, k: Core, call: Call, start: nat, env: Env)
    requires S.Valid(k.store) && (call.AdmitAutomatic? || call.CreateUngated?) && Fits(call, Lookup)
    ensures Truthful(order, k, ReadStep(order, k, call, start, Lookup, env))
  {
    var req := call.req;
    if S.LookupAutomatic(k.store, req.policyID, req.subject).Some? { FoundAutomatic(k.store, req.policyID, req.subject); }
  }

  lemma LookupOperationTruth(order: PublicationOrder, k: Core, call: Call, start: nat, env: Env)
    requires S.Valid(k.store) && call.CreateExplicit? && Fits(call, Lookup)
    ensures Truthful(order, k, ReadStep(order, k, call, start, Lookup, env))
  {
    var req := call.explicit;
    if S.LookupExplicit(k.store, req.operationID).Some? { FoundExplicit(k.store, req.operationID); }
  }

  lemma LookupAcceptanceTruth(order: PublicationOrder, k: Core, call: Call, start: nat, env: Env)
    requires S.Valid(k.store) && call.RecordAcceptance? && Fits(call, Lookup)
    ensures Truthful(order, k, ReadStep(order, k, call, start, Lookup, env))
  {
    var next := ReadStep(order, k, call, start, Lookup, env);
    if call.id !in k.store.intents {
      assert next == Done(call, start, Failed(NotFound));
    } else {
      var intent := k.store.intents[call.id];
      assert intent.id == call.id;
      assert next == if intent.origin != Automatic || intent.runID == "" then Done(call, start, Failed(InvalidTransition))
                     else if call.observed == Accepted then Done(call, start, Updated(intent))
                     else Running(call, start, Write);
    }
  }

  lemma LookupTruth(order: PublicationOrder, k: Core, call: Call, start: nat, pc: Pc, env: Env)
    requires S.Valid(k.store) && KindOK(call, pc) && (pc.Lookup? || pc.CheckRevision?)
    ensures Truthful(order, k, ReadStep(order, k, call, start, pc, env))
  {
    if pc.Lookup? {
      if call.CreateExplicit? { LookupOperationTruth(order, k, call, start, env); }
      else if call.RecordAcceptance? { LookupAcceptanceTruth(order, k, call, start, env); }
      else { LookupRequestTruth(order, k, call, start, env); }
    } else {
      CheckedTruth(order, k, call, start, pc, env);
    }
  }

  lemma CheckedTruth(order: PublicationOrder, k: Core, call: Call, start: nat, pc: Pc, env: Env)
    requires KindOK(call, pc) && pc.CheckRevision?
    ensures Truthful(order, k, ReadStep(order, k, call, start, pc, env))
  {
  }

  /** The record a successful append returns is the current one, in the state its transition
      leads to; an append fails only as stale or by a fault. */
  lemma AppendedState(s: S.State, policy: string, expected: nat, t: PolicyTransition, hold: bool, env: S.Env)
    ensures var (s', r) := S.AppendPolicyTransition(s, policy, expected, t, hold, env);
            && (r.Ok? ==> r.value.record == S.RecordAt(s', policy) && r.value.record.state == StateAfter(t.kind))
            && (r.Err? ==> r.code == PolicyStale || r.code == Fault)
  {
  }

  lemma AfterAppendTruth(order: PublicationOrder, k: Core, call: Call, start: nat, pc: Pc, r: Result<S.Appended>)
    requires KindOK(call, pc) && pc.Append?
    requires r.Ok? ==> Seen(k, call, start, r.value.record) && r.value.record.state == StateAfter(pc.transition.kind)
    requires r.Err? ==> r.code == PolicyStale || r.code == Fault
    requires call.EnablePolicy? ==> !Stop(pc.transition)
    ensures Truthful(order, k, AfterAppend(call, start, pc.tries, r))
  {
  }

  lemma AppendTruth(order: PublicationOrder, k: Core, c: nat, call: Call, start: nat, pc: Pc, env: Env)
    requires CoreInv(order, k) && PcOK(order, k, call, start, pc) && KindOK(call, pc) && pc.Append?
    ensures var (k', cl) := ClientStep(order, k, c, call, start, pc, env); Truthful(order, k', cl)
  {
    var policy := call.Policy();
    var (k', r) := AppendStep(k, c, policy, pc.record.number, pc.transition, call.StopPolicy?, env.store);
    assert ClientStep(order, k, c, call, start, pc, env) == (k', AfterAppend(call, start, pc.tries, r));
    AppendKeeps(order, k, c, policy, pc.record, pc.transition, env.store);
    AppendedState(k.store, policy, pc.record.number, pc.transition, call.StopPolicy?, env.store);
    if r.Ok? {
      LogReaches(k, k', policy, pc.record, start);
      ReadSeen(k', call, start);
    }
    AfterAppendTruth(order, k', call, start, pc, r);
  }

  lemma LogReaches(k: Core, k': Core, policy: string, rec: PolicyRecord, start: nat)
    requires Grown(k, k') && PointOf(k.store, policy, rec) && start <= rec.number
    ensures start <= |S.LogAt(k'.store, policy)|
  {
    assert S.LogAt(k.store, policy) <= S.LogAt(k'.store, policy);
  }

  /** What the conditional create returns. */
  lemma AdmittedState(s: S.State, req: AutomaticRequest, epoch: nat, env: S.Env)
    requires S.Valid(s)
    ensures var (s', r) := S.CreateAutomaticAdmitted(s, req.Draft(epoch), epoch, env);
            && (r.Ok? ==> r.value.intent.id in s'.intents && s'.intents[r.value.intent.id] == r.value.intent
                          && ForRequest(r.value.intent, req))
            && (r.Ok? && r.value.created ==> FreshFor(r.value.intent, req, epoch))
            && (r.Err? ==> r.code == PolicyStale || r.code == Fault || r.code == Duplicate)
  {
    if S.LookupAutomatic(s, req.policyID, req.subject).Some? { FoundAutomatic(s, req.policyID, req.subject); }
  }

  lemma AfterCreateTruth(order: PublicationOrder, k: Core, call: Call, start: nat, pc: Pc, r: Result<S.Created>)
    requires KindOK(call, pc) && pc.Create? && GateOpen(order, pc.record, call.facts)
    requires Seen(k, call, start, pc.record)
    requires r.Ok? ==> Recorded(k, r.value.intent) && ForRequest(r.value.intent, call.req)
    requires r.Ok? && r.value.created ==> FreshFor(r.value.intent, call.req, pc.record.epoch)
    requires r.Err? ==> r.code == PolicyStale || r.code == Fault || r.code == Duplicate
    ensures Truthful(order, k, AfterCreate(call, start, pc.tries, pc.record, r))
  {
  }

  lemma CreateTruth(order: PublicationOrder, k: Core, c: nat, call: Call, start: nat, pc: Pc, env: Env)
    requires CoreInv(order, k) && PcOK(order, k, call, start, pc) && KindOK(call, pc) && pc.Create?
    ensures var (k', cl) := ClientStep(order, k, c, call, start, pc, env); Truthful(order, k', cl)
  {
    var (k', r) := AdmitStep(k, call.req.Draft(pc.record.epoch), pc.record.epoch, call.facts, env.store);
    assert ClientStep(order, k, c, call, start, pc, env) == (k', AfterCreate(call, start, pc.tries, pc.record, r));
    AdmitKeeps(order, k, call.req, pc.record, call.facts, env.store);
    AdmittedState(k.store, call.req, pc.record.epoch, env.store);
    SeenStable(k, k', call, start, pc.record);
    AfterCreateTruth(order, k', call, start, pc, r);
  }

  lemma UngatedTruth(order: PublicationOrder, k: Core, c: nat, call: Call, start: nat, env: Env)
    requires S.Valid(k.store) && call.CreateUngated?
    ensures var (k', cl) := ClientStep(order, k, c, call, start, Write, env); Truthful(order, k', cl)
  {
    var (s, r) := S.CreateAutomatic(k.store, call.req.Draft(0), env.store);
    if r.Ok? && !r.value.created { FoundAutomatic(k.store, call.req.policyID, call.req.subject); }
  }

  lemma ExplicitTruth(order: PublicationOrder, k: Core, c: nat, call: Call, start: nat, env: Env)
    requires S.Valid(k.store) && call.CreateExplicit?
    ensures var (k', cl) := ClientStep(order, k, c, call, start, Write, env); Truthful(order, k', cl)
  {
    var req := call.explicit;
    var (s, r) := S.CreateExplicit(k.store, req.Draft(), env.store);
    ExplicitState(k.store, req, env.store);
    assert ClientStep(order, k, c, call, start, Write, env)
           == (k.(store := s),
               if r.Err? then Done(call, start, Failed(r.code))
               else if r.value.created then Done(call, start, Returned(CreateResult(r.value.intent, true, None)))
               else FromCreate(call, start, ExplicitReplay(r.value.intent, req.Draft())));
  }

  /** What the explicit create returns. */
  lemma ExplicitState(s: S.State, req: ExplicitRequest, env: S.Env)
    requires S.Valid(s)
    ensures var (s', r) := S.CreateExplicit(s, req.Draft(), env);
            && (r.Ok? ==> r.value.intent.id in s'.intents && s'.intents[r.value.intent.id] == r.value.intent
                          && r.value.intent.origin == Explicit && r.value.intent.operationID == req.operationID)
            && (r.Ok? && r.value.created ==> FreshForOperation(r.value.intent, req))
            && (r.Err? ==> r.code in {InvalidContract, Fault, Duplicate})
  {
    if S.LookupExplicit(s, req.operationID).Some? { FoundExplicit(s, req.operationID); }
  }

  /** What an attach returns. */
  lemma AttachedState(s: S.State, id: ID, run: RunID, env: S.Env)
    requires S.Valid(s)
    ensures var (s', r) := S.AttachRunID(s, id, run, env);
            && (r.Ok? ==> r.value.id == id && r.value.runID == run && id in s'.intents && s'.intents[id] == r.value)
            && (r.Err? ==> r.code in {NotFound, RunIDConflict, Fault})
  {
    if id in s.intents { assert s.intents[id].id == id; }
  }

  lemma AttachTruth(order: PublicationOrder, k: Core, c: nat, call: Call, start: nat, env: Env)
    requires S.Valid(k.store) && call.AttachRunID? && Fits(call, Write)
    ensures var (k', cl) := ClientStep(order, k, c, call, start, Write, env); Truthful(order, k', cl)
  {
    var (s, r) := S.AttachRunID(k.store, call.id, call.run, env.store);
    assert ClientStep(order, k, c, call, start, Write, env) == (k.(store := s), FromIntent(call, start, r));
    AttachedState(k.store, call.id, call.run, env.store);
    FromIntentTruth(order, k.(store := s), call, start, r);
  }

  /** What a successful blocker update returns. */
  lemma BlockerTruth(k: Core, id: ID, owner: BlockerOwner, state: BlockerState, env: S.Env)
    requires S.Valid(k.store) && BlockerStep(k, id, owner, state, env).1.Ok?
    ensures var (k', r) := BlockerStep(k, id, owner, state, env);
            Recorded(k', r.value) && r.value.id == id && r.value.blockers.Slot(owner) == Some(state)
            && r.value.origin == k.store.intents[id].origin && r.value.runID == k.store.intents[id].runID
  {
    UpdatedState(k.store, id, owner, state, env);
  }

  lemma UpdatedState(s: S.State, id: ID, owner: BlockerOwner, state: BlockerState, env: S.Env)
    requires S.Identified(s) && S.UpdateBlocker(s, id, owner, state, env).1.Ok?
    ensures var (s', r) := S.UpdateBlocker(s, id, owner, state, env);
            && r.value.id == id && id in s'.intents && s'.intents[id] == r.value && r.value.origin == s.intents[id].origin
            && r.value.runID == s.intents[id].runID
            && r.value.blockers.Slot(owner) == Some(state)
  {
    assert s.intents[id].id == id;
  }

  lemma FromIntentTruth(order: PublicationOrder, k: Core, call: Call, start: nat, r: Result<Intent>)
    requires r.Ok? ==> UpdatedOK(k, call, r.value)
    requires r.Err? ==> r.code in {NotFound, InvalidTransition, RunIDConflict, Fault}
    ensures Truthful(order, k, FromIntent(call, start, r))
  {
  }

  lemma BlockerFails(k: Core, id: ID, owner: BlockerOwner, state: BlockerState, env: S.Env)
    requires BlockerStep(k, id, owner, state, env).1.Err?
    ensures BlockerStep(k, id, owner, state, env).1.code in {NotFound, InvalidTransition, Fault}
  {
  }

  lemma BlockerWriteTruth(order: PublicationOrder, k: Core, c: nat, call: Call, start: nat, env: Env,
                          id: ID, owner: BlockerOwner, state: BlockerState)
    requires S.Valid(k.store)
    requires || call == SetBlocker(id, owner, state)
             || (call == ReleaseBlocker(id, owner) && state == Clear)
             || (call.RecordAcceptance? && call.id == id && owner == PolicyDisable && state == Blocked
                 && AcceptanceOK(k, call, Write))
    ensures var (k', r) := BlockerStep(k, id, owner, state, env.store); Truthful(order, k', FromIntent(call, start, r))
  {
    var (k', r) := BlockerStep(k, id, owner, state, env.store);
    if r.Ok? {
      BlockerTruth(k, id, owner, state, env.store);
    } else {
      BlockerFails(k, id, owner, state, env.store);
    }
    FromIntentTruth(order, k', call, start, r);
  }

  lemma WriteTruth(order: PublicationOrder, k: Core, c: nat, call: Call, start: nat, env: Env)
    requires S.Valid(k.store) && KindOK(call, Write) && AcceptanceOK(k, call, Write)
    ensures var (k', cl) := ClientStep(order, k, c, call, start, Write, env); Truthful(order, k', cl)
  {
    match call
    case CreateUngated(_) => UngatedTruth(order, k, c, call, start, env);
    case CreateExplicit(_) => ExplicitTruth(order, k, c, call, start, env);
    case AttachRunID(_, _) => AttachTruth(order, k, c, call, start, env);
    case RecordAcceptance(id, _) => BlockerWriteTruth(order, k, c, call, start, env, id, PolicyDisable, Blocked);
    case SetBlocker(id, owner, state) => BlockerWriteTruth(order, k, c, call, start, env, id, owner, state);
    case ReleaseBlocker(id, owner) => BlockerWriteTruth(order, k, c, call, start, env, id, owner, Clear);
  }

  lemma ClientTruth(order: PublicationOrder, k: Core, c: nat, call: Call, start: nat, pc: Pc, env: Env)
    requires CoreInv(order, k) && PcOK(order, k, call, start, pc) && KindOK(call, pc) && AcceptanceOK(k, call, pc)
    ensures var (k', cl) := ClientStep(order, k, c, call, start, pc, env); Truthful(order, k', cl)
  {
    match pc
    case Lookup => LookupTruth(order, k, call, start, pc, env);
    case ReadPolicy(_, _) => ReadPolicyTruth(order, k, call, start, pc, env);
    case CheckRevision(_, _) => LookupTruth(order, k, call, start, pc, env);
    case Append(_, _, _) => AppendTruth(order, k, c, call, start, pc, env);
    case Create(_, _) => CreateTruth(order, k, c, call, start, pc, env);
    case CheckThenWrite =>
    case Write => WriteTruth(order, k, c, call, start, env);
  }

  // ---- Runs ---------------------------------------------------------------------------

  ghost predicate AllTruthful(order: PublicationOrder, w: World) {
    forall c :: c in w.clients ==> Truthful(order, w.core, w.clients[c])
  }

  lemma AcceptanceStable(k: Core, k': Core, call: Call, pc: Pc)
    requires Grown(k, k') && AcceptanceOK(k, call, pc)
    ensures AcceptanceOK(k', call, pc)
  {
  }

  lemma TruthStable(order: PublicationOrder, k: Core, k': Core, cl: Client)
    requires S.Valid(k.store) && S.Valid(k'.store) && LogsLegal(order, k'.store) && Grown(k, k') && Truthful(order, k, cl)
    ensures Truthful(order, k', cl)
  {
    match cl
    case Running(call, _, pc) => AcceptanceStable(k, k', call, pc);
    case Done(call, start, outcome) => AnswerStable(order, k, k', call, start, outcome);
  }

  lemma BeginTruth(order: PublicationOrder, k: Core, call: Call)
    ensures var start := |S.LogAt(k.store, call.Policy())|;
            Truthful(order, k, match call.Precheck()
                               case Some(code) => Done(call, start, Failed(code))
                               case None => Running(call, start, call.FirstStep()))
  {
    if call.Precheck().None? { BeginFits(call); }
  }

  lemma StepTruth(order: PublicationOrder, w: World, a: Action)
    requires Inv(order, w) && AllTruthful(order, w)
    ensures AllTruthful(order, Step(order, w, a))
  {
    var w' := Step(order, w, a);
    StepKeeps(order, w, a);
    match a
    case Begin(c, call) => BeginTruth(order, w.core, call);
    case Crash(_) =>
    case Advance(c, env) =>
      if c in w.clients && w.clients[c].Running? {
        var cl := w.clients[c];
        ClientTruth(order, w.core, c, cl.call, cl.start, cl.pc, env);
        forall d | d in w'.clients ensures Truthful(order, w'.core, w'.clients[d]) {
          if d != c { TruthStable(order, w.core, w'.core, w.clients[d]); }
        }
      }
  }

  lemma {:induction false} RunTruth(order: PublicationOrder, schedule: seq<Action>)
    ensures AllTruthful(order, Run(order, Init, schedule))
  {
    if schedule != [] {
      var n := |schedule| - 1;
      RunTruth(order, schedule[..n]);
      RunInv(order, schedule[..n]);
      StepTruth(order, Run(order, Init, schedule[..n]), schedule[n]);
    }
  }

  /** In every run every answer that is not an error is true. The record it shows was the
      policy's record at some moment since the call began, in the state the answer claims, and
      the gate's verdict is the published rule on that record; the intent it shows is recorded,
      under the keys of the request. Of the errors, RETIRED is answered only of a policy that
      is retired, and FRONTIER_INVALID only of a DISABLED record seen since the call began. */
  lemma AnswersAreTrue(order: PublicationOrder, schedule: seq<Action>, c: nat)
    requires var w := Run(order, Init, schedule); c in w.clients && w.clients[c].Done?
    ensures var w := Run(order, Init, schedule);
            AnswerOK(order, w.core, w.clients[c].call, w.clients[c].start, w.clients[c].outcome)
  {
    RunTruth(order, schedule);
  }
}
