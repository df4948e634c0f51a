/** Why a call fails: every error answer names a reason that was there when the call took its
    last step. */
module AdmissionFailures {
  import opened Prelude
  import opened Intents
  import opened PolicyLog
  import opened Admission
  import opened AdmissionSafety
  import opened AdmissionTheorems
  import opened AdmissionProgress
  import opened AdmissionAnswers
  import opened AdmissionHistory
  import S = StoreSpec

  // ---- Reasons ------------------------------------------------------------------------

  /** What the call refers to is missing: the policy, the intent, or the committed revision. */
  ghost predicate Missing(s: S.State, call: Call, env: Env) {
    match call
    case EnablePolicy(_, _) => false
    case StopPolicy(policy, _) => policy !in s.policies
    case AdmitAutomatic(_, _) => !env.readable
    case CreateUngated(_) => !env.readable
    case CreateExplicit(_) => !env.readable
    case AttachRunID(id, _) => id !in s.intents
    case RecordAcceptance(id, _) => id !in s.intents
    case SetBlocker(id, _, _) => id !in s.intents
    case ReleaseBlocker(id, _) => id !in s.intents
  }

  /** The operation is recorded with other semantics. */
  ghost predicate OperationTaken(s: S.State, req: ExplicitRequest) {
    exists id :: id in s.intents && s.intents[id].origin == Explicit && s.intents[id].operationID == req.operationID
                 && (s.intents[id].subject != req.subject || s.intents[id].pipelineRevision != req.pipelineRevision)
  }

  /** The intent has another RunID, or the RunID belongs to another intent. */
  ghost predicate RunTaken(s: S.State, id: ID, run: RunID) {
    id in s.intents && s.intents[id].runID != run
    && (s.intents[id].runID != "" || exists other :: other in s.intents && other != id && s.intents[other].runID == run)
  }

  /** The frontier is not at or after that of the DISABLED record. */
  ghost predicate FrontierBehind(order: PublicationOrder, rec: PolicyRecord, frontier: Option<Position>) {
    rec.state == Disabled && frontier.Some? && (rec.frontier.None? || !NotBefore(order, frontier.value, rec.frontier.value))
  }

  /** The last of the attempts was decided on a record that the log has moved past. */
  ghost predicate LastAttemptStale(s: S.State, call: Call, pc: Pc) {
    (pc.Append? || pc.Create?) && pc.tries + 1 == 8 && pc.record.number < |S.LogAt(s, call.Policy())|
  }

  predicate Creates(call: Call) { call.AdmitAutomatic? || call.CreateUngated? || call.CreateExplicit? }

  /** In this state, at this program point and with what the environment does, the call has
      reason to fail with this code. No other code is ever an answer. */
  ghost predicate FailsFor(order: PublicationOrder, s: S.State, call: Call, pc: Pc, env: Env, code: Code) {
    match code
    case NotFound => Missing(s, call, env)
    case OperationConflict => call.CreateExplicit? && OperationTaken(s, call.explicit)
    case RunIDConflict => call.AttachRunID? && RunTaken(s, call.id, call.run)
    case PolicyRetired =>
      (call.EnablePolicy? || (call.StopPolicy? && !call.retire)) && S.RecordAt(s, call.Policy()).state == Retired
    case FrontierInvalid => call.EnablePolicy? && FrontierBehind(order, S.RecordAt(s, call.policy), call.frontier)
    case InvalidTransition =>
      call.RecordAcceptance? && call.id in s.intents
      && (s.intents[call.id].origin != Automatic || s.intents[call.id].runID == "")
    case PolicyStale => LastAttemptStale(s, call, pc)
    case Duplicate => Creates(call) && env.store.id.Some? && env.store.id.value in s.intents
    case Fault => env.store.faults != {} || (Creates(call) && env.store.id.None?)
    case _ => false
  }

  /** If the client is done with an error, it is one of these. */
  ghost predicate Justified(order: PublicationOrder, s: S.State, pc: Pc, env: Env, cl: Client) {
    cl.Done? && cl.outcome.Failed? ==> FailsFor(order, s, cl.call, pc, env, cl.outcome.code)
  }

  /** What is wrong with the arguments of a call that is refused before it touches the store. */
  predicate Refused(call: Call, code: Code) {
    match call
    case EnablePolicy(policy, frontier) => code == MissingCoordinate && (policy == "" || frontier == None)
    case StopPolicy(policy, _) => code == MissingCoordinate && policy == ""
    case AdmitAutomatic(req, _) => code == MissingCoordinate && Incomplete(req)
    case CreateUngated(req) => code == MissingCoordinate && Incomplete(req)
    case CreateExplicit(req) =>
      code == MissingCoordinate && (req.operationID == "" || req.subject == "" || req.pipelineRevision.pipelineID == ""
                                    || req.pipelineRevision.revisionID == "")
    case AttachRunID(id, run) => code == MissingCoordinate && (id == "" || run == "")
    case RecordAcceptance(id, _) => code == MissingCoordinate && id == ""
    case SetBlocker(id, owner, state) =>
      if state == Clear then code == InvalidTransition
      else if id == "" then code == MissingCoordinate
      else code == InvalidTransition && owner.UnknownOwner?
    case ReleaseBlocker(id, owner) =>
      if id == "" then code == MissingCoordinate else code == InvalidTransition && owner.UnknownOwner?
  }

  predicate Incomplete(req: AutomaticRequest) {
    || req.policyID == "" || req.policyRevision == "" || req.subject == ""
    || req.pipelineRevision.pipelineID == "" || req.pipelineRevision.revisionID == ""
  }

  /** The argument checks refuse exactly these calls. */
  lemma RefusedMeans(call: Call, code: Code)
    ensures call.Precheck() == Some(code) <==> Refused(call, code)
  {
  }

  // ---- Step by step -------------------------------------------------------------------

  lemma LookupFails(order: PublicationOrder, k: Core, call: Call, start: nat, env: Env)
    requires S.Valid(k.store) && Fits(call, Lookup)
    ensures Justified(order, k.store, Lookup, env, ReadStep(order, k, call, start, Lookup, env))
  {
    if call.CreateExplicit? { OperationFails(order, k, call, start, env); }
  }

  lemma OperationFails(order: PublicationOrder, k: Core, call: Call, start: nat, env: Env)
    requires S.Valid(k.store) && call.CreateExplicit?
    ensures Justified(order, k.store, Lookup, env, ReadStep(order, k, call, start, Lookup, env))
  {
    if S.LookupExplicit(k.store, call.explicit.operationID).Some? { FoundExplicit(k.store, call.explicit.operationID); }
  }

  lemma PolicyReadFails(order: PublicationOrder, k: Core, call: Call, start: nat, pc: Pc, env: Env)
    requires Fits(call, pc) && pc.ReadPolicy?
    ensures Justified(order, k.store, pc, env, ReadStep(order, k, call, start, pc, env))
  {
  }

  lemma CheckFails(order: PublicationOrder, k: Core, call: Call, start: nat, pc: Pc, env: Env)
    requires Fits(call, pc) && pc.CheckRevision?
    ensures Justified(order, k.store, pc, env, ReadStep(order, k, call, start, pc, env))
  {
  }

  lemma AppendFails(order: PublicationOrder, k: Core, c: nat, call: Call, start: nat, pc: Pc, env: Env)
    requires Fits(call, pc) && pc.Append? && pc.record.number <= |S.LogAt(k.store, call.Policy())|
    ensures Justified(order, k.store, pc, env, ClientStep(order, k, c, call, start, pc, env).1)
  {
    var (k', r) := AppendStep(k, c, call.Policy(), pc.record.number, pc.transition, call.StopPolicy?, env.store);
    assert ClientStep(order, k, c, call, start, pc, env) == (k', AfterAppend(call, start, pc.tries, r));
  }

  /** What makes the conditional create fail. */
  lemma AdmittedFails(s: S.State, draft: Intent, epoch: nat, env: S.Env)
    requires S.CreateAutomaticAdmitted(s, draft, epoch, env).1.Err?
    ensures match S.CreateAutomaticAdmitted(s, draft, epoch, env).1.code
            case PolicyStale => true
            case Duplicate => env.id.Some? && env.id.value in s.intents
            case Fault => env.faults != {} || env.id.None?
            case _ => false
  {
  }

  lemma CreateFails(order: PublicationOrder, k: Core, c: nat, call: Call, start: nat, pc: Pc, env: Env)
    requires CoreInv(order, k) && PcOK(order, k, call, start, pc) && Fits(call, pc) && pc.Create?
    ensures Justified(order, k.store, pc, env, ClientStep(order, k, c, call, start, pc, env).1)
  {
    var draft := call.req.Draft(pc.record.epoch);
    var (k', r) := AdmitStep(k, draft, pc.record.epoch, call.facts, env.store);
    assert ClientStep(order, k, c, call, start, pc, env) == (k', AfterCreate(call, start, pc.tries, pc.record, r));
    if r.Err? { AdmittedFails(k.store, draft, pc.record.epoch, env.store); }
    if r == Err(PolicyStale) { AdmitStale(order, k, call.req, pc.record, call.facts, env.store); }
  }

  lemma UngatedFails(order: PublicationOrder, k: Core, c: nat, call: Call, start: nat, env: Env)
    requires Fits(call, Write) && call.CreateUngated?
    ensures Justified(order, k.store, Write, env, ClientStep(order, k, c, call, start, Write, env).1)
  {
  }

  lemma ExplicitFails(order: PublicationOrder, k: Core, c: nat, call: Call, start: nat, env: Env)
    requires S.Valid(k.store) && Fits(call, Write) && call.CreateExplicit?
    ensures Justified(order, k.store, Write, env, ClientStep(order, k, c, call, start, Write, env).1)
  {
    var req := call.explicit;
    var (s, r) := S.CreateExplicit(k.store, req.Draft(), env.store);
    assert ClientStep(order, k, c, call, start, Write, env).1
           == if r.Err? then Done(call, start, Failed(r.code))
              else if r.value.created then Done(call, start, Returned(CreateResult(r.value.intent, true, None)))
              else FromCreate(call, start, ExplicitReplay(r.value.intent, req.Draft()));
    ExplicitStoreFails(k.store, req, env.store);
  }

  /** What makes the explicit create fail, or answer with an intent that differs. */
  lemma ExplicitStoreFails(s: S.State, req: ExplicitRequest, env: S.Env)
    requires S.Valid(s) && req.Complete()
    ensures var r := S.CreateExplicit(s, req.Draft(), env).1;
            && (r.Ok? && !r.value.created && !SameExplicitSemantics(r.value.intent, req.Draft()) ==> OperationTaken(s, req))
            && (r.Err? ==> || (r.code == Duplicate && env.id.Some? && env.id.value in s.intents)
                           || (r.code == Fault && (env.faults != {} || env.id.None?)))
  {
    if S.LookupExplicit(s, req.operationID).Some? { FoundExplicit(s, req.operationID); }
  }

  lemma AttachFails(order: PublicationOrder, k: Core, c: nat, call: Call, start: nat, env: Env)
    requires S.Valid(k.store) && Fits(call, Write) && call.AttachRunID?
    ensures Justified(order, k.store, Write, env, ClientStep(order, k, c, call, start, Write, env).1)
  {
    var (s, r) := S.AttachRunID(k.store, call.id, call.run, env.store);
    assert ClientStep(order, k, c, call, start, Write, env).1 == FromIntent(call, start, r);
    if r.Err? { AttachStoreFails(k.store, call.id, call.run, env.store); }
  }

  /** What makes the attach fail. */
  lemma AttachStoreFails(s: S.State, id: ID, run: RunID, env: S.Env)
    requires S.RunsIndexed(s) && S.AttachRunID(s, id, run, env).1.Err?
    ensures match S.AttachRunID(s, id, run, env).1.code
            case NotFound => id !in s.intents
            case RunIDConflict => RunTaken(s, id, run)
            case Fault => env.faults != {}
            case _ => false
  {
    if run in s.runs { assert s.intents[s.runs[run]].runID == run; }
  }

  lemma BlockerWriteFails(order: PublicationOrder, k: Core, c: nat, call: Call, start: nat, env: Env)
    requires Fits(call, Write) && (call.RecordAcceptance? || call.SetBlocker? || call.ReleaseBlocker?)
    ensures Justified(order, k.store, Write, env, ClientStep(order, k, c, call, start, Write, env).1)
  {
  }

  lemma WriteFails(order: PublicationOrder, k: Core, c: nat, call: Call, start: nat, env: Env)
    requires S.Valid(k.store) && Fits(call, Write)
    ensures Justified(order, k.store, Write, env, ClientStep(order, k, c, call, start, Write, env).1)
  {
    match call
    case CreateUngated(_) => UngatedFails(order, k, c, call, start, env);
    case CreateExplicit(_) => ExplicitFails(order, k, c, call, start, env);
    case AttachRunID(_, _) => AttachFails(order, k, c, call, start, env);
    case _ => BlockerWriteFails(order, k, c, call, start, env);
  }

  lemma ClientFails(order: PublicationOrder, k: Core, c: nat, call: Call, start: nat, pc: Pc, env: Env)
    requires CoreInv(order, k) && PcOK(order, k, call, start, pc) && Fits(call, pc)
    ensures Justified(order, k.store, pc, env, ClientStep(order, k, c, call, start, pc, env).1)
  {
    match pc
    case Lookup => LookupFails(order, k, call, start, env);
    case ReadPolicy(_, _) => PolicyReadFails(order, k, call, start, pc, env);
    case CheckRevision(_, _) => CheckFails(order, k, call, start, pc, env);
    case Append(_, _, _) => AppendFails(order, k, c, call, start, pc, env);
    case Create(_, _) => CreateFails(order, k, c, call, start, pc, env);
    case CheckThenWrite =>
    case Write => WriteFails(order, k, c, call, start, env);
  }

  // ---- Runs ---------------------------------------------------------------------------

  /** The action had reason to end the call with this code. */
  ghost predicate FailedBecause(order: PublicationOrder, w: World, a: Action, c: nat, cl: Client, code: Code) {
    || (a == Begin(c, cl.call) && Refused(cl.call, code))
    || (a.Advance? && a.client == c && During(w, c, cl.call, cl.start)
        && FailsFor(order, w.core.store, cl.call, w.clients[c].pc, a.env, code))
  }

  lemma FailureAnswer(order: PublicationOrder, w: World, a: Action, c: nat, cl: Client)
    requires Inv(order, w) && AllFit(w) && Answers(order, w, a, c, cl) && cl.Done? && cl.outcome.Failed?
    ensures FailedBecause(order, w, a, c, cl, cl.outcome.code)
  {
    RefusedMeans(cl.call, cl.outcome.code);
    if a.Advance? { ClientFails(order, w.core, c, cl.call, cl.start, w.clients[c].pc, a.env); }
  }

  /** Every error a call answers is true. Either its arguments fail the check for that code, or
      the action that gave the answer the client has had since found the reason for the code in
      the shared state, in the middle of this very call. */
  lemma FailureReports(order: PublicationOrder, schedule: seq<Action>, c: nat) returns (n: nat)
    requires var w := Run(order, Init, schedule); c in w.clients && w.clients[c].Done? && w.clients[c].outcome.Failed?
    ensures var cl := Run(order, Init, schedule).clients[c];
            && 0 < n <= |schedule| && DoneFrom(order, schedule, c, cl, n)
            && FailedBecause(order, Run(order, Init, schedule[..n-1]), schedule[n-1], c, cl, cl.outcome.code)
  {
    n := AnsweredBy(order, schedule, c);
    RunInv(order, schedule[..n-1]);
    RunFits(order, schedule[..n-1]);
    FailureAnswer(order, Run(order, Init, schedule[..n-1]), schedule[n-1], c, Run(order, Init, schedule).clients[c]);
  }
}
