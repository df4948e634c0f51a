/** The results about whole runs: any schedule of calls by any number of clients, with any
    interleaving, faults and crashes, from the empty store. */
module AdmissionTheorems {
  import opened Prelude
  import opened Ordering
  import opened Intents
  import opened PolicyLog
  import opened Admission
  import opened AdmissionSafety
  import S = StoreSpec

  // ---- What a client in the middle of a call relies on --------------------------------

  /** Client c appended nothing to the policy's log from position `start` on. */
  ghost predicate OthersOnly(k: Core, c: nat, policy: string, start: nat) {
    forall i :: start <= i < |AuthorsAt(k, policy)| ==> AuthorsAt(k, policy)[i] != c
  }

  /** Each failed attempt stands for at least one entry that arrived since the call began. */
  ghost predicate Progress(k: Core, call: Call, start: nat, tries: nat) {
    start + tries <= |S.LogAt(k.store, call.Policy())|
  }

  /** A decision was taken on a real point of the log, not before the attempts it follows. */
  ghost predicate Decided(k: Core, call: Call, start: nat, tries: nat, rec: PolicyRecord) {
    && tries < MaxPolicyRetries
    && start + tries <= rec.number
    && PointOf(k.store, call.Policy(), rec)
  }

  ghost predicate PcOK(order: PublicationOrder, k: Core, call: Call, start: nat, pc: Pc) {
    match pc
    case ReadPolicy(tries, _) => tries < MaxPolicyRetries && Progress(k, call, start, tries)
    case Append(tries, rec, t) =>
      && (call.EnablePolicy? || call.StopPolicy?)
      && Decided(k, call, start, tries, rec) && LegalNext(order, rec, t) && (call.StopPolicy? <==> Stop(t))
    case CheckRevision(tries, rec) =>
      call.AdmitAutomatic? && Decided(k, call, start, tries, rec) && GateOpen(order, rec, call.facts)
    case Create(tries, rec) =>
      call.AdmitAutomatic? && Decided(k, call, start, tries, rec) && GateOpen(order, rec, call.facts)
    case _ => Progress(k, call, start, 0)
  }

  /** Every listed intent was admitted no later than the record the list came with. */
  ghost predicate MembersWithin(k: Core, rec: PolicyRecord, members: S.Membership) {
    forall id :: id in members.held || id in members.attached ==>
      id in k.store.intents && k.store.intents[id].admissionEpoch <= rec.epoch
  }

  ghost predicate OutcomeOK(k: Core, call: Call, start: nat, outcome: Outcome) {
    && (outcome == Failed(PolicyStale) ==> Progress(k, call, start, MaxPolicyRetries))
    && (outcome.Stopped? ==> MembersWithin(k, outcome.record, outcome.members))
  }

  ghost predicate ClientOK(order: PublicationOrder, k: Core, c: nat, cl: Client) {
    match cl
    case Running(call, start, pc) => PcOK(order, k, call, start, pc) && OthersOnly(k, c, call.Policy(), start)
    case Done(call, start, outcome) =>
      OutcomeOK(k, call, start, outcome) && (outcome == Failed(PolicyStale) ==> OthersOnly(k, c, call.Policy(), start))
  }

  ghost predicate Inv(order: PublicationOrder, w: World) {
    && CoreInv(order, w.core)
    && (forall c :: c in w.clients ==> ClientOK(order, w.core, c, w.clients[c]))
  }

  // ---- Other clients' steps do not disturb a client -----------------------------------

  lemma PointStable(k: Core, k': Core, policy: string, rec: PolicyRecord)
    requires Grown(k, k') && PointOf(k.store, policy, rec)
    ensures PointOf(k'.store, policy, rec)
  {
    assert S.LogAt(k.store, policy) <= S.LogAt(k'.store, policy);
    assert S.LogAt(k'.store, policy)[..rec.number] == S.LogAt(k.store, policy)[..rec.number];
  }

  lemma PcStable(order: PublicationOrder, k: Core, k': Core, call: Call, start: nat, pc: Pc)
    requires Grown(k, k') && PcOK(order, k, call, start, pc)
    ensures PcOK(order, k', call, start, pc)
  {
    assert S.LogAt(k.store, call.Policy()) <= S.LogAt(k'.store, call.Policy());
    match pc
    case Append(_, rec, _) => PointStable(k, k', call.Policy(), rec);
    case CheckRevision(_, rec) => PointStable(k, k', call.Policy(), rec);
    case Create(_, rec) => PointStable(k, k', call.Policy(), rec);
    case _ =>
  }

  lemma OutcomeStable(k: Core, k': Core, call: Call, start: nat, outcome: Outcome)
    requires Grown(k, k') && OutcomeOK(k, call, start, outcome)
    ensures OutcomeOK(k', call, start, outcome)
  {
    assert S.LogAt(k.store, call.Policy()) <= S.LogAt(k'.store, call.Policy());
  }

  /** The entries that k' adds were not appended by c. */
  ghost predicate NotBy(k: Core, k': Core, c: nat) {
    forall p :: OthersOnly(k', c, p, |AuthorsAt(k, p)|)
  }

  lemma OthersStable(k: Core, k': Core, c: nat, policy: string, start: nat)
    requires Grown(k, k') && NotBy(k, k', c) && OthersOnly(k, c, policy, start)
    ensures OthersOnly(k', c, policy, start)
  {
    assert AuthorsAt(k, policy) <= AuthorsAt(k', policy);
    assert OthersOnly(k', c, policy, |AuthorsAt(k, policy)|);
  }

  lemma ClientStable(order: PublicationOrder, k: Core, k': Core, c: nat, cl: Client)
    requires Grown(k, k') && NotBy(k, k', c) && ClientOK(order, k, c, cl)
    ensures ClientOK(order, k', c, cl)
  {
    match cl
    case Running(call, start, pc) =>
      PcStable(order, k, k', call, start, pc);
      OthersStable(k, k', c, call.Policy(), start);
    case Done(call, start, outcome) =>
      OutcomeStable(k, k', call, start, outcome);
      if outcome == Failed(PolicyStale) { OthersStable(k, k', c, call.Policy(), start); }
  }

  // ---- A client's own step ------------------------------------------------------------

  lemma BlockerStepKeeps(order: PublicationOrder, k: Core, id: ID, owner: BlockerOwner, state: BlockerState, env: S.Env)
    requires CoreInv(order, k)
    ensures var k' := BlockerStep(k, id, owner, state, env).0; CoreInv(order, k') && Grown(k, k')
  {
    BlockerKeeps(order, k, id, owner, state, env);
    S.UpdateBlockerValid(k.store, id, owner, state, env);
  }

  lemma CoreStepKeeps(order: PublicationOrder, k: Core, c: nat, call: Call, start: nat, pc: Pc, env: Env)
    requires CoreInv(order, k) && PcOK(order, k, call, start, pc)
    ensures var k' := ClientStep(order, k, c, call, start, pc, env).0;
            CoreInv(order, k') && Grown(k, k')
  {
    match (pc, call)
    case (Append(tries, rec, t), _) => AppendKeeps(order, k, c, call.Policy(), rec, t, env.store);
    case (Create(tries, rec), AdmitAutomatic(req, facts)) =>
      AdmitKeeps(order, k, req, rec, facts, env.store);
      AdmitValid(k, req, rec.epoch, facts, env.store);
    case (Write, CreateUngated(req)) =>
      UngatedKeeps(order, k, req, env.store);
      S.CreateAutomaticValid(k.store, req.Draft(0), env.store);
    case (Write, CreateExplicit(req)) =>
      ExplicitKeeps(order, k, req, env.store);
      S.CreateExplicitValid(k.store, req.Draft(), env.store);
    case (Write, AttachRunID(id, run)) =>
      AttachKeeps(order, k, id, run, env.store);
      S.AttachRunIDValid(k.store, id, run, env.store);
    case (Write, RecordAcceptance(id, _)) => BlockerStepKeeps(order, k, id, PolicyDisable, Blocked, env.store);
    case (Write, SetBlocker(id, owner, state)) => BlockerStepKeeps(order, k, id, owner, state, env.store);
    case (Write, ReleaseBlocker(id, owner)) => BlockerStepKeeps(order, k, id, owner, Clear, env.store);
    case _ =>
  }

  /** Only the stepping client can be the author of what a step appends. */
  lemma StepNotBy(order: PublicationOrder, k: Core, c: nat, call: Call, start: nat, pc: Pc, env: Env, d: nat)
    requires d != c
    ensures NotBy(k, ClientStep(order, k, c, call, start, pc, env).0, d)
  {
  }

  /** Every automatic intent of a policy was admitted at or before the record's epoch. */
  lemma EpochBound(order: PublicationOrder, k: Core, policy: string, id: ID)
    requires CoreInv(order, k) && id in k.store.intents && k.store.intents[id].autoRunPolicyID == policy
    ensures k.store.intents[id].admissionEpoch <= S.RecordAt(k.store, policy).epoch
  {
    var intent := k.store.intents[id];
    if intent.admissionEpoch > 0 {
      var log := S.LogAt(k.store, policy);
      CurrentRecord(k.store, policy);
      LegalAt(order, k.store, policy);
      EpochsNeverFall(order, policy, log, k.admitted[id].at, |log|);
    }
  }

  lemma MembersBounded(order: PublicationOrder, k: Core, policy: string)
    requires CoreInv(order, k)
    ensures MembersWithin(k, S.RecordAt(k.store, policy), S.MembershipOf(k.store, policy))
  {
    forall id | id in S.HeldIDs(k.store, policy) || id in S.AttachedIDs(k.store, policy)
      ensures id in k.store.intents && k.store.intents[id].admissionEpoch <= S.RecordAt(k.store, policy).epoch
    {
      EpochBound(order, k, policy, id);
    }
  }

  /** The record a client reads is a point of the log: the last one. */
  lemma ReadIsPoint(s: S.State, policy: string)
    requires S.Valid(s)
    ensures PointOf(s, policy, S.RecordAt(s, policy)) && S.RecordAt(s, policy).number == |S.LogAt(s, policy)|
    ensures S.GetPolicy(s, policy).Some? ==> S.GetPolicy(s, policy).value == S.RecordAt(s, policy)
    ensures S.GetPolicy(s, policy).None? ==> S.RecordAt(s, policy) == ZeroRecord
  {
    CurrentRecord(s, policy);
  }

  lemma EnableReadOK(order: PublicationOrder, k: Core, call: Call, start: nat, tries: nat)
    requires S.Valid(k.store) && call.EnablePolicy? && call.frontier.Some?
    requires tries < MaxPolicyRetries && Progress(k, call, start, tries)
    ensures var cl := DecideEnable(order, call, start, tries, S.GetPolicy(k.store, call.policy));
            if cl.Running? then PcOK(order, k, call, start, cl.pc) else OutcomeOK(k, call, start, cl.outcome)
    ensures var cl := DecideEnable(order, call, start, tries, S.GetPolicy(k.store, call.policy));
            cl.call == call && cl.start == start && (cl.Done? ==> cl.outcome != Failed(PolicyStale))
  {
    ReadIsPoint(k.store, call.policy);
  }

  /** A policy that is known has a state. */
  lemma KnownHasState(s: S.State, policy: string)
    requires S.Valid(s) && policy in s.policies
    ensures S.RecordAt(s, policy).state != NoState
  {
    var log := S.LogAt(s, policy);
    assert log != [] && log[..|log|] == log;
    FoldLast(policy, log, |log|);
  }

  /** A stop of a policy that has not stopped yet goes on to append. */
  lemma StopPending(order: PublicationOrder, k: Core, call: Call, start: nat, tries: nat)
    requires S.Valid(k.store) && call.StopPolicy? && call.policy in k.store.policies
    requires tries < MaxPolicyRetries && Progress(k, call, start, tries)
    requires S.RecordAt(k.store, call.policy).state !in {if call.retire then Retired else Disabled, Retired}
    ensures var rec := S.RecordAt(k.store, call.policy);
            var cl := DecideStop(call, start, tries, Some(S.Appended(rec, S.MembershipOf(k.store, call.policy))));
            cl.Running? && cl.call == call && cl.start == start && PcOK(order, k, call, start, cl.pc)
  {
    ReadIsPoint(k.store, call.policy);
    KnownHasState(k.store, call.policy);
  }

  lemma StopReadOK(order: PublicationOrder, k: Core, call: Call, start: nat, tries: nat)
    requires CoreInv(order, k) && call.StopPolicy? && call.policy in k.store.policies
    requires tries < MaxPolicyRetries && Progress(k, call, start, tries)
    ensures var rec := S.RecordAt(k.store, call.policy);
            var cl := DecideStop(call, start, tries, Some(S.Appended(rec, S.MembershipOf(k.store, call.policy))));
            && cl.call == call && cl.start == start && (cl.Done? ==> cl.outcome != Failed(PolicyStale))
            && if cl.Running? then PcOK(order, k, call, start, cl.pc) else OutcomeOK(k, call, start, cl.outcome)
  {
    var rec := S.RecordAt(k.store, call.policy);
    var cl := DecideStop(call, start, tries, Some(S.Appended(rec, S.MembershipOf(k.store, call.policy))));
    if rec.state == (if call.retire then Retired else Disabled) {
      MembersBounded(order, k, call.policy);
      assert cl == Done(call, start, Stopped(rec, S.MembershipOf(k.store, call.policy)));
    } else if rec.state == Retired {
      assert cl == Done(call, start, Failed(PolicyRetired));
    } else {
      StopPending(order, k, call, start, tries);
    }
  }

  lemma AdmitReadOK(order: PublicationOrder, k: Core, call: Call, start: nat, tries: nat, checked: bool)
    requires S.Valid(k.store) && call.AdmitAutomatic?
    requires tries < MaxPolicyRetries && Progress(k, call, start, tries)
    ensures var cl := DecideAdmit(order, call, start, tries, checked, S.GetPolicy(k.store, call.req.policyID));
            && cl.call == call && cl.start == start && (cl.Done? ==> cl.outcome != Failed(PolicyStale))
            && if cl.Running? then PcOK(order, k, call, start, cl.pc) else OutcomeOK(k, call, start, cl.outcome)
  {
    ReadIsPoint(k.store, call.req.policyID);
  }

  lemma ReadPolicyOK(order: PublicationOrder, k: Core, c: nat, call: Call, start: nat, tries: nat, checked: bool, env: Env)
    requires CoreInv(order, k) && PcOK(order, k, call, start, ReadPolicy(tries, checked))
    requires OthersOnly(k, c, call.Policy(), start)
    ensures ClientOK(order, k, c, ReadStep(order, k, call, start, ReadPolicy(tries, checked), env))
  {
    match call
    case EnablePolicy(p, f) => if f.Some? { EnableReadOK(order, k, call, start, tries); }
    case StopPolicy(p, _) =>
      if p in k.store.policies { StopReadOK(order, k, call, start, tries); }
    case AdmitAutomatic(_, _) => AdmitReadOK(order, k, call, start, tries, checked);
    case _ =>
  }

  lemma LookupOK(order: PublicationOrder, k: Core, c: nat, call: Call, start: nat, pc: Pc, env: Env)
    requires PcOK(order, k, call, start, pc) && OthersOnly(k, c, call.Policy(), start)
    requires pc.Lookup? || pc.CheckRevision?
    ensures ClientOK(order, k, c, ReadStep(order, k, call, start, pc, env))
  {
  }

  lemma RetryOK(order: PublicationOrder, k: Core, c: nat, call: Call, start: nat, tries: nat, rec: PolicyRecord)
    requires Decided(k, call, start, tries, rec) && rec.number < |S.LogAt(k.store, call.Policy())|
    requires OthersOnly(k, c, call.Policy(), start)
    ensures ClientOK(order, k, c, Retry(call, start, tries))
  {
  }

  lemma AppendStepOK(order: PublicationOrder, k: Core, c: nat, call: Call, start: nat, tries: nat, rec: PolicyRecord,
                     t: PolicyTransition, env: Env)
    requires CoreInv(order, k) && PcOK(order, k, call, start, Append(tries, rec, t))
    requires OthersOnly(k, c, call.Policy(), start)
    ensures var (k', cl) := ClientStep(order, k, c, call, start, Append(tries, rec, t), env);
            ClientOK(order, k', c, cl)
  {
    var policy := call.Policy();
    var (k', r) := AppendStep(k, c, policy, rec.number, t, Stop(t), env.store);
    AppendKeeps(order, k, c, policy, rec, t, env.store);
    if r.Ok? {
      MembersBounded(order, k', policy);
    } else if r.code == PolicyStale {
      RetryOK(order, k, c, call, start, tries, rec);
    }
  }

  lemma CreateStepOK(order: PublicationOrder, k: Core, c: nat, call: Call, start: nat, tries: nat, rec: PolicyRecord, env: Env)
    requires CoreInv(order, k) && PcOK(order, k, call, start, Create(tries, rec))
    requires OthersOnly(k, c, call.Policy(), start)
    ensures var (k', cl) := ClientStep(order, k, c, call, start, Create(tries, rec), env);
            ClientOK(order, k', c, cl)
  {
    var (k', r) := AdmitStep(k, call.req.Draft(rec.epoch), rec.epoch, call.facts, env.store);
    var next := AfterCreate(call, start, tries, rec, r);
    assert ClientStep(order, k, c, call, start, Create(tries, rec), env) == (k', next);
    if r == Err(PolicyStale) {
      AdmitUnchanged(k, call.req.Draft(rec.epoch), rec.epoch, call.facts, env.store);
      AdmitStale(order, k, call.req, rec, call.facts, env.store);
      RetryOK(order, k, c, call, start, tries, rec);
    } else {
      assert next.Done? && next.outcome != Failed(PolicyStale) && !next.outcome.Stopped?;
    }
  }

  lemma AdmitUnchanged(k: Core, draft: Intent, epoch: nat, facts: PublicationFacts, env: S.Env)
    requires AdmitStep(k, draft, epoch, facts, env).1.Err?
    ensures AdmitStep(k, draft, epoch, facts, env).0 == k
  {
  }

  /** Single-write calls never answer POLICY_STALE. */
  lemma WriteStepOK(order: PublicationOrder, k: Core, c: nat, call: Call, start: nat, pc: Pc, env: Env)
    requires pc.Write? || pc.CheckThenWrite?
    requires PcOK(order, k, call, start, pc) && OthersOnly(k, c, call.Policy(), start)
    ensures var (k', cl) := ClientStep(order, k, c, call, start, pc, env);
            ClientOK(order, k', c, cl)
  {
  }

  lemma ClientStepOK(order: PublicationOrder, k: Core, c: nat, call: Call, start: nat, pc: Pc, env: Env)
    requires CoreInv(order, k) && PcOK(order, k, call, start, pc) && OthersOnly(k, c, call.Policy(), start)
    ensures var (k', cl) := ClientStep(order, k, c, call, start, pc, env);
            ClientOK(order, k', c, cl)
  {
    match pc
    case Append(tries, rec, t) => AppendStepOK(order, k, c, call, start, tries, rec, t, env);
    case Create(tries, rec) => CreateStepOK(order, k, c, call, start, tries, rec, env);
    case Write => WriteStepOK(order, k, c, call, start, pc, env);
    case CheckThenWrite => WriteStepOK(order, k, c, call, start, pc, env);
    case ReadPolicy(tries, checked) => ReadPolicyOK(order, k, c, call, start, tries, checked, env);
    case _ => LookupOK(order, k, c, call, start, pc, env);
  }

  // ---- Every run keeps the invariant --------------------------------------------------

  lemma InitInv(order: PublicationOrder)
    ensures Inv(order, Init)
  {
    S.EmptyValid();
  }

  lemma BeginOK(order: PublicationOrder, k: Core, c: nat, call: Call)
    requires CoreInv(order, k)
    ensures var start := |S.LogAt(k.store, call.Policy())|;
            call.Precheck().None? ==> ClientOK(order, k, c, Running(call, start, call.FirstStep()))
  {
    assert |AuthorsAt(k, call.Policy())| == |S.LogAt(k.store, call.Policy())|;
  }

  lemma AdvanceKeeps(order: PublicationOrder, w: World, c: nat, env: Env)
    requires Inv(order, w) && c in w.clients && w.clients[c].Running?
    ensures var w' := Step(order, w, Advance(c, env)); Inv(order, w') && Grown(w.core, w'.core)
  {
    var w', cl := Step(order, w, Advance(c, env)), w.clients[c];
    CoreStepKeeps(order, w.core, c, cl.call, cl.start, cl.pc, env);
    ClientStepOK(order, w.core, c, cl.call, cl.start, cl.pc, env);
    forall d | d in w'.clients ensures ClientOK(order, w'.core, d, w'.clients[d]) {
      if d != c {
        StepNotBy(order, w.core, c, cl.call, cl.start, cl.pc, env, d);
        ClientStable(order, w.core, w'.core, d, w.clients[d]);
      }
    }
  }

  lemma StepKeeps(order: PublicationOrder, w: World, a: Action)
    requires Inv(order, w)
    ensures Inv(order, Step(order, w, a)) && Grown(w.core, Step(order, w, a).core)
  {
    match a
    case Begin(c, call) => BeginOK(order, w.core, c, call);
    case Crash(c) =>
    case Advance(c, env) => if c in w.clients && w.clients[c].Running? { AdvanceKeeps(order, w, c, env); }
  }

  lemma {:induction false} RunInv(order: PublicationOrder, schedule: seq<Action>)
    ensures Inv(order, Run(order, Init, schedule))
  {
    if schedule == [] {
      InitInv(order);
    } else {
      var n := |schedule| - 1;
      RunInv(order, schedule[..n]);
      StepKeeps(order, Run(order, Init, schedule[..n]), schedule[n]);
    }
  }

  lemma RunSnoc(order: PublicationOrder, w: World, before: seq<Action>, more: seq<Action>)
    requires more != []
    ensures Run(order, w, before + more)
            == Step(order, Run(order, w, before + more[..|more|-1]), more[|more|-1])
  {
    var whole := before + more;
    assert whole[..|whole|-1] == before + more[..|more|-1] && whole[|whole|-1] == more[|more|-1];
    RunLast(order, w, whole);
  }

  lemma RunLast(order: PublicationOrder, w: World, schedule: seq<Action>)
    requires schedule != []
    ensures Run(order, w, schedule) == Step(order, Run(order, w, schedule[..|schedule|-1]), schedule[|schedule|-1])
  {
  }

  /** The next step of a run grows what the run has grown. */
  lemma GrownByStep(order: PublicationOrder, k: Core, schedule: seq<Action>, a: Action)
    requires Grown(k, Run(order, Init, schedule).core)
    ensures Grown(k, Step(order, Run(order, Init, schedule), a).core)
  {
    var w := Run(order, Init, schedule);
    RunInv(order, schedule);
    StepKeeps(order, w, a);
    GrownTransitive(k, w.core, Step(order, w, a).core);
  }

  /** Over any continuation of a run nothing recorded is lost or rewritten: an intent's
      identity, revisions and epoch are frozen, its RunID is set at most once, and logs only
      grow at the end. */
  lemma {:induction false} RunFreezes(order: PublicationOrder, before: seq<Action>, more: seq<Action>)
    ensures Grown(Run(order, Init, before).core, Run(order, Init, before + more).core)
  {
    if more == [] {
      assert before + more == before;
    } else {
      var n := |more| - 1;
      RunFreezes(order, before, more[..n]);
      GrownByStep(order, Run(order, Init, before).core, before + more[..n], more[n]);
      RunSnoc(order, Init, before, more);
    }
  }

  // ---- Main results -------------------------------------------------------------------

  /** Admission safety. Whatever lands between the gate's read and its conditional create,
      every intent with an admission epoch was recorded while its policy was ACTIVE at that
      epoch, with class NEW and a position strictly after the frontier of the very log entry
      that opened the epoch. */
  lemma AdmissionSafe(order: PublicationOrder, schedule: seq<Action>, id: ID)
    requires var k := Run(order, Init, schedule).core;
             id in k.store.intents && k.store.intents[id].admissionEpoch > 0
    ensures var k := Run(order, Init, schedule).core;
            var intent := k.store.intents[id];
            var log := S.LogAt(k.store, intent.autoRunPolicyID);
            && intent.origin == Automatic && id in k.admitted
            && var w := k.admitted[id];
            && 0 < w.at <= |log|
            && Fold(intent.autoRunPolicyID, log[..w.at]).state == Active
            && Fold(intent.autoRunPolicyID, log[..w.at]).epoch == intent.admissionEpoch
            && Opens(log, w.at - 1, intent.admissionEpoch) && log[w.at-1].frontier.Some?
            && w.facts.cls == NewOccurrence && w.facts.position.Some?
            && order(w.facts.position.value, log[w.at-1].frontier.value) == After
  {
    RunInv(order, schedule);
    var k := Run(order, Init, schedule).core;
    var intent := k.store.intents[id];
    LegalAt(order, k.store, intent.autoRunPolicyID);
    ActiveFrontier(order, intent.autoRunPolicyID, S.LogAt(k.store, intent.autoRunPolicyID), k.admitted[id].at);
  }

  /** Lifecycle legality. Every reachable log has the documented shape and every record is
      the fold of its log, although the store compared only lengths. */
  lemma LifecycleLegal(order: PublicationOrder, schedule: seq<Action>, policy: string)
    ensures var s := Run(order, Init, schedule).core.store;
            && LogShape(order, S.LogAt(s, policy))
            && S.RecordAt(s, policy) == Fold(policy, S.LogAt(s, policy))
            && S.RecordAt(s, policy).number == |S.LogAt(s, policy)|
            && (policy in s.policies <==> S.LogAt(s, policy) != [])
  {
    RunInv(order, schedule);
    var s := Run(order, Init, schedule).core.store;
    LegalAt(order, s, policy);
    LegalIffShape(order, policy, S.LogAt(s, policy));
    CurrentRecord(s, policy);
  }

  /** RETIRED is terminal: no continuation appends to a retired policy's log. */
  lemma RetiredIsTerminal(order: PublicationOrder, before: seq<Action>, more: seq<Action>, policy: string)
    requires S.RecordAt(Run(order, Init, before).core.store, policy).state == Retired
    ensures S.LogAt(Run(order, Init, before + more).core.store, policy) == S.LogAt(Run(order, Init, before).core.store, policy)
  {
    var s := Run(order, Init, before).core.store;
    var s' := Run(order, Init, before + more).core.store;
    var log, log' := S.LogAt(s, policy), S.LogAt(s', policy);
    RunFreezes(order, before, more);
    LifecycleLegal(order, before, policy);
    LifecycleLegal(order, before + more, policy);
    assert log <= log';
    assert |log| > 0;
    assert log[..|log|] == log;
    FoldLast(policy, log, |log|);
    assert EntryShape(order, log', |log| - 1);
  }

  /** The hold rule. A gate-admitted intent whose policy has left the intent's epoch has a
      RunID, or holds a POLICY_DISABLE blocker, or was explicitly released since it was last
      held. */
  lemma HoldsSurvive(order: PublicationOrder, schedule: seq<Action>, id: ID)
    requires id in Run(order, Init, schedule).core.store.intents
    ensures Kept(Run(order, Init, schedule).core, id)
  {
    RunInv(order, schedule);
  }

  /** What the hold rule gives the materializer: an unassigned gate-admitted intent that is
      eligible, and was not released since it was last held, belongs to a policy still ACTIVE
      in its epoch. */
  lemma EligibleMeansActive(order: PublicationOrder, schedule: seq<Action>, id: ID)
    requires var k := Run(order, Init, schedule).core;
             && id in k.store.intents && k.store.intents[id].admissionEpoch > 0
             && k.store.intents[id].blockers.AllClear() && k.store.intents[id].runID == "" && id !in k.released
    ensures var s := Run(order, Init, schedule).core.store;
            ActiveAt(s, s.intents[id].autoRunPolicyID, s.intents[id].admissionEpoch)
  {
    HoldsSurvive(order, schedule, id);
  }

  /** No backlog is drained. An admitted position is strictly after the frontier of every
      opening up to its epoch, not only of the one that admitted it. */
  lemma NoBacklogAdmitted(order: PublicationOrder, schedule: seq<Action>, id: ID, i: nat)
    requires Lawful(order)
    requires var k := Run(order, Init, schedule).core;
             && id in k.store.intents && k.store.intents[id].admissionEpoch > 0
             && var log := S.LogAt(k.store, k.store.intents[id].autoRunPolicyID);
             i < |log| && Opening(log[i]) && log[i].epoch <= k.store.intents[id].admissionEpoch
    ensures var k := Run(order, Init, schedule).core;
            var log := S.LogAt(k.store, k.store.intents[id].autoRunPolicyID);
            && id in k.admitted && k.admitted[id].facts.position.Some? && log[i].frontier.Some?
            && order(k.admitted[id].facts.position.value, log[i].frontier.value) == After
  {
    AdmissionSafe(order, schedule, id);
    var k := Run(order, Init, schedule).core;
    var policy := k.store.intents[id].autoRunPolicyID;
    LifecycleLegal(order, schedule, policy);
    OpenedNoLater(order, S.LogAt(k.store, policy), i, k.admitted[id].at - 1);
    AfterEveryEarlierFrontier(order, S.LogAt(k.store, policy), i, k.admitted[id].at - 1, k.admitted[id].facts.position.value);
  }

  /** The same from the gate's side: a position that is not strictly after some opening's
      frontier is refused by every later record of the log, through any number of disables
      and re-enables. */
  lemma BacklogStaysRefused(order: PublicationOrder, schedule: seq<Action>, policy: string, i: nat, n: nat, facts: PublicationFacts)
    requires Lawful(order) && facts.position.Some?
    requires var log := S.LogAt(Run(order, Init, schedule).core.store, policy);
             && i < n <= |log| && log[i].frontier.Some?
             && order(facts.position.value, log[i].frontier.value) != After
    ensures Refusal(order, Fold(policy, S.LogAt(Run(order, Init, schedule).core.store, policy)[..n]), facts).Some?
  {
    RunInv(order, schedule);
    var s := Run(order, Init, schedule).core.store;
    var log := S.LogAt(s, policy);
    var rec := Fold(policy, log[..n]);
    if Refusal(order, rec, facts).None? {
      LegalAt(order, s, policy);
      ActiveFrontier(order, policy, log, n);
      LifecycleLegal(order, schedule, policy);
      AfterEveryEarlierFrontier(order, log, i, n - 1, facts.position.value);
    }
  }

  /** Index agreement in every reachable state, and with it uniqueness: one intent per
      (policy, subject), per operation and per RunID. */
  lemma OneIntentPerDomain(order: PublicationOrder, schedule: seq<Action>, a: ID, b: ID)
    requires var s := Run(order, Init, schedule).core.store; a in s.intents && b in s.intents
    requires var s := Run(order, Init, schedule).core.store;
             var x, y := s.intents[a], s.intents[b];
             || (x.origin == Automatic && y.origin == Automatic && S.KeyOf(x) == S.KeyOf(y))
             || (x.origin == Explicit && y.origin == Explicit && x.operationID == y.operationID)
             || (x.runID != "" && x.runID == y.runID)
    ensures S.Valid(Run(order, Init, schedule).core.store)
    ensures a == b
  {
    RunInv(order, schedule);
  }

  /** Every membership a stop call returned, and still remembers, lists only intents
      admitted at or before the epoch of the record it came with. */
  lemma MembershipWithinEpoch(order: PublicationOrder, schedule: seq<Action>, c: nat)
    requires var w := Run(order, Init, schedule);
             c in w.clients && w.clients[c].Done? && w.clients[c].outcome.Stopped?
    ensures var w := Run(order, Init, schedule);
            MembersWithin(w.core, w.clients[c].outcome.record, w.clients[c].outcome.members)
  {
    RunInv(order, schedule);
  }

  /** Bounded retry. A call that gives up with POLICY_STALE saw at least eight entries
      arrive on its policy's log since it began, every one of them from other clients. */
  lemma GivingUpNeedsEight(order: PublicationOrder, schedule: seq<Action>, c: nat)
    requires var w := Run(order, Init, schedule);
             c in w.clients && w.clients[c].Done? && w.clients[c].outcome == Failed(PolicyStale)
    ensures var w := Run(order, Init, schedule);
            var policy, start := w.clients[c].call.Policy(), w.clients[c].start;
            && |AuthorsAt(w.core, policy)| == |S.LogAt(w.core.store, policy)| >= start + 8
            && (forall i :: start <= i < |AuthorsAt(w.core, policy)| ==> AuthorsAt(w.core, policy)[i] != c)
  {
    RunInv(order, schedule);
    var w := Run(order, Init, schedule);
    assert |AuthorsAt(w.core, w.clients[c].call.Policy())| == |S.LogAt(w.core.store, w.clients[c].call.Policy())|;
  }
}
