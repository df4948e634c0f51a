/** What a reachable state says about the run that led to it: how a hold came to be lifted,
    and when the membership a stop reported was the policy's membership. */
module AdmissionHistory {
  import opened Prelude
  import opened Ordering
  import opened Intents
  import opened PolicyLog
  import opened Admission
  import opened AdmissionSafety
  import opened AdmissionTheorems
  import opened AdmissionProgress
  import opened AdmissionAnswers
  import S = StoreSpec

  // ---- Only a release lifts a hold ----------------------------------------------------

  /** The released intents are recorded and clear. */
  ghost predicate ReleasedClear(k: Core) {
    forall id :: id in k.released ==> id in k.store.intents && k.store.intents[id].blockers.policyDisable == Clear
  }

  lemma AppendClear(k: Core, c: nat, policy: string, expected: nat, t: PolicyTransition, hold: bool, env: S.Env)
    requires ReleasedClear(k)
    ensures ReleasedClear(AppendStep(k, c, policy, expected, t, hold, env).0)
  {
  }

  lemma BlockerClear(k: Core, id: ID, owner: BlockerOwner, state: BlockerState, env: S.Env)
    requires ReleasedClear(k)
    ensures ReleasedClear(BlockerStep(k, id, owner, state, env).0)
  {
    var (k', r) := BlockerStep(k, id, owner, state, env);
    if r.Ok? {
      var before := k.store.intents[id].blockers;
      assert before.Slot(PolicyDisable) == Some(before.policyDisable);
      assert r.value.blockers.Slot(PolicyDisable) == Some(r.value.blockers.policyDisable);
    }
  }

  lemma ClientClear(order: PublicationOrder, k: Core, c: nat, call: Call, start: nat, pc: Pc, env: Env)
    requires ReleasedClear(k) && Fits(call, pc)
    ensures ReleasedClear(ClientStep(order, k, c, call, start, pc, env).0)
  {
    match pc
    case Append(_, rec, t) => AppendClear(k, c, call.Policy(), rec.number, t, call.StopPolicy?, env.store);
    case Create(_, rec) => AdmitClear(k, call.req.Draft(rec.epoch), rec.epoch, call.facts, env.store);
    case Write => WriteClear(order, k, c, call, start, env);
    case _ =>
  }

  lemma AdmitClear(k: Core, draft: Intent, epoch: nat, facts: PublicationFacts, env: S.Env)
    requires ReleasedClear(k)
    ensures ReleasedClear(AdmitStep(k, draft, epoch, facts, env).0)
  {
  }

  lemma WriteClear(order: PublicationOrder, k: Core, c: nat, call: Call, start: nat, env: Env)
    requires ReleasedClear(k) && Fits(call, Write)
    ensures ReleasedClear(ClientStep(order, k, c, call, start, Write, env).0)
  {
    match call
    case RecordAcceptance(id, _) => BlockerClear(k, id, PolicyDisable, Blocked, env.store);
    case SetBlocker(id, owner, state) => BlockerClear(k, id, owner, state, env.store);
    case ReleaseBlocker(id, owner) => BlockerClear(k, id, owner, Clear, env.store);
    case _ =>
  }

  lemma {:induction false} RunClear(order: PublicationOrder, schedule: seq<Action>)
    ensures ReleasedClear(Run(order, Init, schedule).core)
  {
    if schedule != [] {
      var n := |schedule| - 1;
      var w, a := Run(order, Init, schedule[..n]), schedule[n];
      RunClear(order, schedule[..n]);
      RunFits(order, schedule[..n]);
      if a.Advance? && a.client in w.clients && w.clients[a.client].Running? {
        var cl := w.clients[a.client];
        ClientClear(order, w.core, a.client, cl.call, cl.start, cl.pc, a.env);
      }
    }
  }

  /** The action is the write of a client that releases the intent's POLICY_DISABLE blocker. */
  ghost predicate IsRelease(w: World, a: Action, id: ID) {
    a.Advance? && a.client in w.clients
    && w.clients[a.client].Running? && w.clients[a.client].pc.Write?
    && w.clients[a.client].call == ReleaseBlocker(id, PolicyDisable)
  }

  lemma NewlyReleased(order: PublicationOrder, k: Core, c: nat, call: Call, start: nat, pc: Pc, env: Env, id: ID)
    requires Fits(call, pc) && id !in k.released && id in ClientStep(order, k, c, call, start, pc, env).0.released
    ensures pc.Write? && call == ReleaseBlocker(id, PolicyDisable) && id in k.store.intents
  {
  }

  /** The action turns an intent that was not released into a released one. */
  ghost predicate Releases(order: PublicationOrder, w: World, a: Action, id: ID) {
    id !in w.core.released && id in Step(order, w, a).core.released
  }

  lemma ReleasesIsRelease(order: PublicationOrder, w: World, a: Action, id: ID)
    requires AllFit(w) && Releases(order, w, a, id)
    ensures IsRelease(w, a, id) && id in w.core.store.intents
  {
    var cl := w.clients[a.client];
    NewlyReleased(order, w.core, a.client, cl.call, cl.start, cl.pc, a.env, id);
  }

  /** The intent is released in every state of the run after the first n actions. */
  ghost predicate ReleasedFrom(order: PublicationOrder, schedule: seq<Action>, id: ID, n: nat) {
    forall m :: n < m <= |schedule| ==> ReleasedAt(order, schedule, id, m)
  }

  ghost predicate ReleasedAt(order: PublicationOrder, schedule: seq<Action>, id: ID, m: nat)
    requires m <= |schedule|
  {
    id in Run(order, Init, schedule[..m]).core.released
  }

  lemma ReleasedFromNext(order: PublicationOrder, schedule: seq<Action>, id: ID, n: nat)
    requires schedule != [] && n < |schedule| && id in Run(order, Init, schedule).core.released
    requires ReleasedFrom(order, schedule[..|schedule|-1], id, n)
    ensures ReleasedFrom(order, schedule, id, n)
  {
    var last := |schedule| - 1;
    forall m | n < m <= |schedule| ensures ReleasedAt(order, schedule, id, m) {
      if m <= last {
        assert ReleasedAt(order, schedule[..last], id, m);
        assert schedule[..last][..m] == schedule[..m];
      } else {
        assert schedule[..m] == schedule;
      }
    }
  }

  /** A released intent was released by some action of the run and has been so ever since. */
  lemma {:induction false} ReleasedSince(order: PublicationOrder, schedule: seq<Action>, id: ID) returns (n: nat)
    requires id in Run(order, Init, schedule).core.released
    ensures n < |schedule| && Releases(order, Run(order, Init, schedule[..n]), schedule[n], id)
    ensures ReleasedFrom(order, schedule, id, n)
  {
    var last := |schedule| - 1;
    RunLast(order, Init, schedule);
    if id in Run(order, Init, schedule[..last]).core.released {
      n := ReleasedSince(order, schedule[..last], id);
      assert schedule[..last][..n] == schedule[..n];
    } else {
      n := last;
    }
    ReleasedFromNext(order, schedule, id, n);
  }

  // ---- An unassigned intent that stays released stays outside its epoch ----------------

  /** A gate-admitted intent without a RunID whose policy is not ACTIVE in its epoch. */
  ghost predicate Stranded(s: S.State, id: ID) {
    id in s.intents && s.intents[id].admissionEpoch > 0 && s.intents[id].runID == ""
    && !ActiveAt(s, s.intents[id].autoRunPolicyID, s.intents[id].admissionEpoch)
  }

  /** A step that leaves the policies alone strands nothing. */
  lemma PoliciesStrand(k: Core, k': Core, id: ID)
    requires Grown(k, k') && SamePolicies(k.store, k'.store) && id in k.store.intents && Stranded(k'.store, id)
    ensures Stranded(k.store, id)
  {
    assert SameFrozen(k.store.intents[id], k'.store.intents[id]);
  }

  /** An append that strands an intent is a stop, which holds it. */
  lemma AppendStrands(order: PublicationOrder, k: Core, c: nat, policy: string, rec: PolicyRecord, t: PolicyTransition, env: S.Env,
                      id: ID)
    requires CoreInv(order, k) && PointOf(k.store, policy, rec) && LegalNext(order, rec, t) && id in k.store.intents
    requires var k' := AppendStep(k, c, policy, rec.number, t, Stop(t), env).0;
             Grown(k, k') && Stranded(k'.store, id) && id in k'.released
    ensures Stranded(k.store, id)
  {
    var (k', r) := AppendStep(k, c, policy, rec.number, t, Stop(t), env);
    var intent := k.store.intents[id];
    assert SameFrozen(intent, k'.store.intents[id]);
    if r.Ok? && intent.autoRunPolicyID == policy {
      CurrentRecord(k.store, policy);
    }
  }

  lemma SteadyPolicies(order: PublicationOrder, k: Core, c: nat, call: Call, start: nat, pc: Pc, env: Env)
    requires !pc.Append?
    ensures SamePolicies(k.store, ClientStep(order, k, c, call, start, pc, env).0.store)
  {
  }

  lemma StepStrands(order: PublicationOrder, w: World, a: Action, id: ID)
    requires Inv(order, w) && id in w.core.store.intents
    requires var k := Step(order, w, a).core; Stranded(k.store, id) && id in k.released
    ensures Stranded(w.core.store, id)
  {
    if a.Advance? && a.client in w.clients && w.clients[a.client].Running? {
      var cl := w.clients[a.client];
      assert ClientOK(order, w.core, a.client, cl);
      ClientStrands(order, w.core, a.client, cl.call, cl.start, cl.pc, a.env, id);
    }
  }

  lemma ClientStrands(order: PublicationOrder, k: Core, c: nat, call: Call, start: nat, pc: Pc, env: Env, id: ID)
    requires CoreInv(order, k) && PcOK(order, k, call, start, pc) && id in k.store.intents
    requires var k' := ClientStep(order, k, c, call, start, pc, env).0; Stranded(k'.store, id) && id in k'.released
    ensures Stranded(k.store, id)
  {
    CoreStepKeeps(order, k, c, call, start, pc, env);
    if pc.Append? {
      AppendStrands(order, k, c, call.Policy(), pc.record, pc.transition, env.store, id);
    } else {
      SteadyPolicies(order, k, c, call, start, pc, env);
      PoliciesStrand(k, ClientStep(order, k, c, call, start, pc, env).0, id);
    }
  }

  ghost predicate StrandedAt(order: PublicationOrder, schedule: seq<Action>, id: ID, m: nat) {
    m <= |schedule| && Stranded(Run(order, Init, schedule[..m]).core.store, id)
  }

  lemma StrandedEarlier(order: PublicationOrder, schedule: seq<Action>, id: ID, m: nat)
    requires m < |schedule| && id in Run(order, Init, schedule[..m]).core.store.intents
    requires ReleasedAt(order, schedule, id, m + 1) && StrandedAt(order, schedule, id, m + 1)
    ensures StrandedAt(order, schedule, id, m)
  {
    assert schedule[..m+1][..m] == schedule[..m];
    RunLast(order, Init, schedule[..m+1]);
    RunInv(order, schedule[..m]);
    StepStrands(order, Run(order, Init, schedule[..m]), schedule[m], id);
  }

  lemma StrandedWhileReleased(order: PublicationOrder, schedule: seq<Action>, id: ID, m: nat)
    requires m < |schedule| && ReleasedAt(order, schedule, id, m)
    requires ReleasedAt(order, schedule, id, m + 1) && StrandedAt(order, schedule, id, m + 1)
    ensures StrandedAt(order, schedule, id, m)
  {
    RunClear(order, schedule[..m]);
    StrandedEarlier(order, schedule, id, m);
  }

  lemma {:induction false} Backwards(holds: nat -> bool, n: nat, m: nat)
    requires n <= m && holds(m) && forall i: nat :: n <= i < m && holds(i + 1) ==> holds(i)
    ensures holds(n)
  {
    if n < m { Backwards(holds, n, m - 1); }
  }

  /** So it was stranded already before the release. */
  lemma StrandedBefore(order: PublicationOrder, schedule: seq<Action>, id: ID, n: nat)
    requires n < |schedule| && id in Run(order, Init, schedule[..n]).core.store.intents
    requires ReleasedFrom(order, schedule, id, n) && StrandedAt(order, schedule, id, |schedule|)
    ensures StrandedAt(order, schedule, id, n)
  {
    var holds := (m: nat) => StrandedAt(order, schedule, id, m);
    forall i: nat | n + 1 <= i < |schedule| && holds(i + 1) ensures holds(i) {
      assert ReleasedAt(order, schedule, id, i) && ReleasedAt(order, schedule, id, i + 1);
      StrandedWhileReleased(order, schedule, id, i);
    }
    Backwards(holds, n + 1, |schedule|);
    assert ReleasedAt(order, schedule, id, n + 1);
    StrandedEarlier(order, schedule, id, n);
  }

  /** Only an explicit release frees what a stop held. If a gate-admitted intent without a
      RunID is clear while its policy is not ACTIVE in its epoch, some action of the run was
      the release that cleared its POLICY_DISABLE blocker: before it the intent was held, and
      no stop, no acceptance record and no other client has set that blocker since. */
  lemma OnlyReleaseFrees(order: PublicationOrder, schedule: seq<Action>, id: ID) returns (n: nat)
    requires var s := Run(order, Init, schedule).core.store;
             Stranded(s, id) && s.intents[id].blockers.policyDisable == Clear
    ensures n < |schedule| && IsRelease(Run(order, Init, schedule[..n]), schedule[n], id)
    ensures var s := Run(order, Init, schedule[..n]).core.store;
            Stranded(s, id) && s.intents[id].blockers.policyDisable != Clear
    ensures forall m :: n < m <= |schedule| ==>
              var s := Run(order, Init, schedule[..m]).core.store;
              id in s.intents && s.intents[id].blockers.policyDisable == Clear
  {
    HoldsSurvive(order, schedule, id);
    n := ReleasedSince(order, schedule, id);
    RunFits(order, schedule[..n]);
    ReleasesIsRelease(order, Run(order, Init, schedule[..n]), schedule[n], id);
    assert schedule[..|schedule|] == schedule;
    StrandedBefore(order, schedule, id, n);
    HoldsSurvive(order, schedule[..n], id);
    forall m | n < m <= |schedule|
      ensures var s := Run(order, Init, schedule[..m]).core.store;
              id in s.intents && s.intents[id].blockers.policyDisable == Clear
    {
      assert ReleasedAt(order, schedule, id, m);
      RunClear(order, schedule[..m]);
    }
  }

  // ---- What a stop reports ------------------------------------------------------------

  /** The lists are the policy's membership in a state: the automatic intents that hold a
      POLICY_DISABLE blocker, and those without one that have a RunID, both sorted. */
  ghost predicate MembershipIn(s: S.State, policy: string, m: S.Membership) {
    && StrictlySorted(m.held) && StrictlySorted(m.attached)
    && (forall id :: id in m.held <==> BelongsTo(s, policy, id) && s.intents[id].blockers.policyDisable != Clear)
    && (forall id :: id in m.attached <==>
          BelongsTo(s, policy, id) && s.intents[id].blockers.policyDisable == Clear && s.intents[id].runID != "")
  }

  ghost predicate BelongsTo(s: S.State, policy: string, id: ID) {
    id in s.intents && s.intents[id].origin == Automatic && s.intents[id].autoRunPolicyID == policy
  }

  lemma MembershipIsIn(s: S.State, policy: string)
    requires S.Valid(s)
    ensures MembershipIn(s, policy, S.MembershipOf(s, policy))
  {
    var m := S.MembershipOf(s, policy);
    forall id ensures id in m.held <==> BelongsTo(s, policy, id) && s.intents[id].blockers.policyDisable != Clear {
      if BelongsTo(s, policy, id) { assert S.KeyOf(s.intents[id]) in s.auto; }
    }
    forall id ensures id in m.attached <==>
                        BelongsTo(s, policy, id) && s.intents[id].blockers.policyDisable == Clear && s.intents[id].runID != "" {
      if BelongsTo(s, policy, id) { assert S.KeyOf(s.intents[id]) in s.auto; }
    }
  }

  /** In this state the record and the lists are the policy's own, and the policy has stopped
      as the call asked. */
  ghost predicate Reported(k: Core, call: Call, rec: PolicyRecord, m: S.Membership) {
    && call.StopPolicy? && rec == S.RecordAt(k.store, call.policy)
    && rec.state == (if call.retire then Retired else Disabled)
    && MembershipIn(k.store, call.policy, m)
  }

  lemma StopReads(k: Core, call: Call, start: nat, tries: nat)
    requires S.Valid(k.store) && call.StopPolicy? && call.policy in k.store.policies
    ensures var rec := S.RecordAt(k.store, call.policy);
            var cl := DecideStop(call, start, tries, Some(S.Appended(rec, S.MembershipOf(k.store, call.policy))));
            cl.Done? && cl.outcome.Stopped? ==> Reported(k, call, cl.outcome.record, cl.outcome.members)
  {
    MembershipIsIn(k.store, call.policy);
  }

  lemma StopAppends(order: PublicationOrder, k: Core, c: nat, call: Call, start: nat, pc: Pc, env: Env)
    requires CoreInv(order, k) && PcOK(order, k, call, start, pc) && pc.Append? && call.StopPolicy?
    requires pc.transition.kind == if call.retire then Retire else Disable
    ensures var (k', r) := AppendStep(k, c, call.policy, pc.record.number, pc.transition, true, env.store);
            r.Ok? ==> Reported(k', call, r.value.record, r.value.members)
  {
    var (k', r) := AppendStep(k, c, call.policy, pc.record.number, pc.transition, true, env.store);
    AppendKeeps(order, k, c, call.policy, pc.record, pc.transition, env.store);
    AppendedState(k.store, call.policy, pc.record.number, pc.transition, true, env.store);
    AppendedMembers(k, c, call.policy, pc.record.number, pc.transition, env.store);
    if r.Ok? { MembershipIsIn(k'.store, call.policy); }
  }

  lemma AppendedMembers(k: Core, c: nat, policy: string, expected: nat, t: PolicyTransition, env: S.Env)
    ensures var (k', r) := AppendStep(k, c, policy, expected, t, true, env);
            && (r.Ok? ==> r.value.members == S.MembershipOf(k'.store, policy))
            && (r.Ok? ==> k'.store == S.AppendPolicyTransition(k.store, policy, expected, t, true, env).0)
            && r == S.AppendPolicyTransition(k.store, policy, expected, t, true, env).1
  {
  }

  lemma AppendAnswers(call: Call, start: nat, tries: nat, r: Result<S.Appended>)
    ensures var cl := AfterAppend(call, start, tries, r);
            cl.Done? && cl.outcome.Stopped? ==> !call.EnablePolicy? && r.Ok? && cl.outcome == Stopped(r.value.record, r.value.members)
  {
  }

  lemma AppendStops(order: PublicationOrder, k: Core, c: nat, call: Call, start: nat, pc: Pc, env: Env)
    requires CoreInv(order, k) && PcOK(order, k, call, start, pc) && KindOK(call, pc) && pc.Append?
    ensures var (k', cl) := ClientStep(order, k, c, call, start, pc, env);
            cl.Done? && cl.outcome.Stopped? ==> Reported(k', call, cl.outcome.record, cl.outcome.members)
  {
    var (k', r) := AppendStep(k, c, call.Policy(), pc.record.number, pc.transition, call.StopPolicy?, env.store);
    assert ClientStep(order, k, c, call, start, pc, env) == (k', AfterAppend(call, start, pc.tries, r));
    AppendAnswers(call, start, pc.tries, r);
    if call.StopPolicy? { StopAppends(order, k, c, call, start, pc, env); }
  }

  lemma ReadStops(order: PublicationOrder, k: Core, c: nat, call: Call, start: nat, pc: Pc, env: Env)
    requires S.Valid(k.store) && KindOK(call, pc) && pc.ReadPolicy?
    ensures var (k', cl) := ClientStep(order, k, c, call, start, pc, env);
            cl.Done? && cl.outcome.Stopped? ==> Reported(k', call, cl.outcome.record, cl.outcome.members)
  {
    assert ClientStep(order, k, c, call, start, pc, env) == (k, ReadStep(order, k, call, start, pc, env));
    if call.StopPolicy? && call.policy in k.store.policies { StopReads(k, call, start, pc.tries); }
  }

  lemma WriteStopsNothing(order: PublicationOrder, k: Core, c: nat, call: Call, start: nat, pc: Pc, env: Env)
    requires Fits(call, pc) && (pc.Write? || pc.CheckThenWrite?)
    ensures var cl := ClientStep(order, k, c, call, start, pc, env).1; cl.Done? ==> !cl.outcome.Stopped?
  {
  }

  lemma LookupStopsNothing(order: PublicationOrder, k: Core, c: nat, call: Call, start: nat, pc: Pc, env: Env)
    requires Fits(call, pc) && (pc.Lookup? || pc.CheckRevision? || pc.Create?)
    ensures var cl := ClientStep(order, k, c, call, start, pc, env).1; cl.Done? ==> !cl.outcome.Stopped?
  {
  }

  lemma StepStops(order: PublicationOrder, k: Core, c: nat, call: Call, start: nat, pc: Pc, env: Env)
    requires CoreInv(order, k) && PcOK(order, k, call, start, pc) && KindOK(call, pc)
    ensures var (k', cl) := ClientStep(order, k, c, call, start, pc, env);
            cl.Done? && cl.outcome.Stopped? ==> Reported(k', call, cl.outcome.record, cl.outcome.members)
  {
    if pc.Append? { AppendStops(order, k, c, call, start, pc, env); }
    else if pc.ReadPolicy? { ReadStops(order, k, c, call, start, pc, env); }
    else if pc.Write? || pc.CheckThenWrite? { WriteStopsNothing(order, k, c, call, start, pc, env); }
    else { LookupStopsNothing(order, k, c, call, start, pc, env); }
  }

  // ---- How an answer came about -------------------------------------------------------

  /** The client was in the middle of this call. */
  ghost predicate During(w: World, c: nat, call: Call, start: nat) {
    c in w.clients && w.clients[c].Running? && w.clients[c].call == call && w.clients[c].start == start
  }

  /** The action gives client c its answer: its call fails the argument checks, or takes its
      last step. */
  ghost predicate Answers(order: PublicationOrder, w: World, a: Action, c: nat, cl: Client) {
    || (a == Begin(c, cl.call) && cl.Done? && cl.call.Precheck().Some? && cl.outcome == Failed(cl.call.Precheck().value))
    || (a.Advance? && a.client == c && During(w, c, cl.call, cl.start)
        && ClientStep(order, w.core, c, cl.call, cl.start, w.clients[c].pc, a.env) == (Step(order, w, a).core, cl))
  }

  lemma LastAction(order: PublicationOrder, w: World, a: Action, c: nat)
    requires AllFit(w)
    requires var w' := Step(order, w, a);
             c in w'.clients && w'.clients[c].Done? && !(c in w.clients && w.clients[c] == w'.clients[c])
    ensures Answers(order, w, a, c, Step(order, w, a).clients[c])
  {
    if a.Advance? {
      var before := w.clients[c];
      StepCloser(order, w.core, c, before.call, before.start, before.pc, a.env);
    }
  }

  /** In every state of the run from the n-th on the client is done with this answer. */
  ghost predicate DoneFrom(order: PublicationOrder, schedule: seq<Action>, c: nat, cl: Client, n: nat) {
    forall m :: n <= m <= |schedule| ==>
      var w := Run(order, Init, schedule[..m]); c in w.clients && w.clients[c] == cl
  }

  lemma DoneFromNext(order: PublicationOrder, schedule: seq<Action>, c: nat, cl: Client, n: nat)
    requires schedule != [] && n < |schedule| && DoneFrom(order, schedule[..|schedule|-1], c, cl, n)
    requires var w := Run(order, Init, schedule); c in w.clients && w.clients[c] == cl
    ensures DoneFrom(order, schedule, c, cl, n)
  {
    var last := |schedule| - 1;
    forall m | n <= m <= |schedule|
      ensures var w := Run(order, Init, schedule[..m]); c in w.clients && w.clients[c] == cl
    {
      if m <= last { assert schedule[..last][..m] == schedule[..m]; } else { assert schedule[..m] == schedule; }
    }
  }

  /** Every answer was given by one action of the run and has stood since. */
  lemma {:induction false} AnsweredBy(order: PublicationOrder, schedule: seq<Action>, c: nat) returns (n: nat)
    requires var w := Run(order, Init, schedule); c in w.clients && w.clients[c].Done?
    ensures var cl := Run(order, Init, schedule).clients[c];
            && 0 < n <= |schedule| && Answers(order, Run(order, Init, schedule[..n-1]), schedule[n-1], c, cl)
            && DoneFrom(order, schedule, c, cl, n)
  {
    var last := |schedule| - 1;
    var w, cl := Run(order, Init, schedule[..last]), Run(order, Init, schedule).clients[c];
    RunLast(order, Init, schedule);
    if c in w.clients && w.clients[c] == cl {
      n := AnsweredBy(order, schedule[..last], c);
      assert schedule[..last][..n-1] == schedule[..n-1];
      DoneFromNext(order, schedule, c, cl, n);
    } else {
      n := |schedule|;
      assert schedule[..n] == schedule;
      RunFits(order, schedule[..last]);
      LastAction(order, w, schedule[last], c);
    }
  }

  /** A stop answer is the membership of the state its last step leads to. */
  lemma StopAnswer(order: PublicationOrder, w: World, a: Action, c: nat, cl: Client)
    requires Inv(order, w) && AllTruthful(order, w) && Answers(order, w, a, c, cl) && cl.Done? && cl.outcome.Stopped?
    ensures During(w, c, cl.call, cl.start)
    ensures Reported(Step(order, w, a).core, cl.call, cl.outcome.record, cl.outcome.members)
  {
    StepStops(order, w.core, c, cl.call, cl.start, w.clients[c].pc, a.env);
  }

  /** Every stop answer, fresh or repeated, shows the record and the membership the policy had
      together in one state of the run: the state in which the client, until then in the middle
      of this very call, got the answer it has had since. */
  lemma StoppedReports(order: PublicationOrder, schedule: seq<Action>, c: nat) returns (n: nat)
    requires var w := Run(order, Init, schedule); c in w.clients && w.clients[c].Done? && w.clients[c].outcome.Stopped?
    ensures var cl := Run(order, Init, schedule).clients[c];
            && 0 < n <= |schedule| && DoneFrom(order, schedule, c, cl, n)
            && During(Run(order, Init, schedule[..n-1]), c, cl.call, cl.start)
            && Reported(Run(order, Init, schedule[..n]).core, cl.call, cl.outcome.record, cl.outcome.members)
  {
    n := AnsweredBy(order, schedule, c);
    RunInv(order, schedule[..n-1]);
    RunTruth(order, schedule[..n-1]);
    assert schedule[..n][..n-1] == schedule[..n-1];
    RunLast(order, Init, schedule[..n]);
    StopAnswer(order, Run(order, Init, schedule[..n-1]), schedule[n-1], c, Run(order, Init, schedule).clients[c]);
  }
}
