/** What every interleaving of the Service calls keeps. The store re-checks only a log
    length or a state and an epoch; the rules proved here follow from the log being
    append-only and from every pending decision having been taken on a point of it. */
module AdmissionSafety {
  import opened Prelude
  import opened Ordering
  import opened Intents
  import opened PolicyLog
  import opened Admission
  import S = StoreSpec

  // ---- The invariant of the shared state ----------------------------------------------

  ghost predicate LogsLegal(order: PublicationOrder, s: S.State) {
    forall p :: p in s.policyLogs ==> LegalLog(order, p, s.policyLogs[p])
  }

  ghost predicate AuthorsMatch(k: Core) {
    forall p :: |AuthorsAt(k, p)| == |S.LogAt(k.store, p)|
  }

  /** The gate was open, at the intent's epoch, at the log point where it was recorded. */
  ghost predicate WitnessOK(order: PublicationOrder, s: S.State, intent: Intent, w: Witness) {
    var log := S.LogAt(s, intent.autoRunPolicyID);
    && w.at <= |log|
    && GateOpen(order, Fold(intent.autoRunPolicyID, log[..w.at]), w.facts)
    && Fold(intent.autoRunPolicyID, log[..w.at]).epoch == intent.admissionEpoch
  }

  ghost predicate Witnessed(order: PublicationOrder, k: Core) {
    forall id :: id in k.store.intents && k.store.intents[id].admissionEpoch > 0 ==>
      k.store.intents[id].origin == Automatic && id in k.admitted
      && WitnessOK(order, k.store, k.store.intents[id], k.admitted[id])
  }

  ghost predicate ActiveAt(s: S.State, policy: string, epoch: nat) {
    S.RecordAt(s, policy).state == Active && S.RecordAt(s, policy).epoch == epoch
  }

  /** A gate-admitted intent whose policy has left the intent's epoch is assigned, held, or
      was explicitly released since it was last held. */
  ghost predicate Kept(k: Core, id: ID)
    requires id in k.store.intents
  {
    var intent := k.store.intents[id];
    intent.admissionEpoch > 0 && !ActiveAt(k.store, intent.autoRunPolicyID, intent.admissionEpoch) ==>
      intent.runID != "" || intent.blockers.policyDisable != Clear || id in k.released
  }

  ghost predicate HoldsKept(k: Core) {
    forall id :: id in k.store.intents ==> Kept(k, id)
  }

  /** What the history adds to the store's own invariant. */
  ghost predicate Tracked(order: PublicationOrder, k: Core) {
    && LogsLegal(order, k.store)
    && AuthorsMatch(k)
    && Witnessed(order, k)
    && HoldsKept(k)
  }

  ghost predicate CoreInv(order: PublicationOrder, k: Core) {
    S.Valid(k.store) && Tracked(order, k)
  }

  /** How the shared state may change: logs and authors only grow at the end, intents are
      never lost, their identity is frozen and a RunID, once set, stays. */
  ghost predicate Grown(k: Core, k': Core) {
    && (forall p :: S.LogAt(k.store, p) <= S.LogAt(k'.store, p))
    && (forall p :: AuthorsAt(k, p) <= AuthorsAt(k', p))
    && (forall id :: id in k.store.intents ==>
          id in k'.store.intents && SameFrozen(k.store.intents[id], k'.store.intents[id])
          && (k.store.intents[id].runID != "" ==> k'.store.intents[id].runID == k.store.intents[id].runID))
  }

  lemma GrownTransitive(a: Core, b: Core, c: Core)
    requires Grown(a, b) && Grown(b, c)
    ensures Grown(a, c)
  {
    forall p ensures S.LogAt(a.store, p) <= S.LogAt(c.store, p) {
      assert S.LogAt(a.store, p) <= S.LogAt(b.store, p) <= S.LogAt(c.store, p);
    }
    forall p ensures AuthorsAt(a, p) <= AuthorsAt(c, p) {
      assert AuthorsAt(a, p) <= AuthorsAt(b, p) <= AuthorsAt(c, p);
    }
  }

  /** The current record is the fold of the whole log. */
  lemma CurrentRecord(s: S.State, policy: string)
    requires S.Valid(s)
    ensures S.RecordAt(s, policy) == Fold(policy, S.LogAt(s, policy))
    ensures S.RecordAt(s, policy).number == |S.LogAt(s, policy)|
    ensures S.LogAt(s, policy)[..|S.LogAt(s, policy)|] == S.LogAt(s, policy)
  {
  }

  lemma LegalAt(order: PublicationOrder, s: S.State, policy: string)
    requires LogsLegal(order, s)
    ensures LegalLog(order, policy, S.LogAt(s, policy))
  {
  }

  ghost predicate SamePolicies(s: S.State, s': S.State) {
    s'.policyLogs == s.policyLogs && s'.policies == s.policies
  }

  // ---- Store steps keep the invariant -------------------------------------------------

  /** A witness survives any growth of the log. */
  lemma WitnessStable(order: PublicationOrder, s: S.State, s': S.State, intent: Intent, w: Witness)
    requires WitnessOK(order, s, intent, w) && S.LogAt(s, intent.autoRunPolicyID) <= S.LogAt(s', intent.autoRunPolicyID)
    ensures WitnessOK(order, s', intent, w)
  {
    var p := intent.autoRunPolicyID;
    assert S.LogAt(s', p)[..w.at] == S.LogAt(s, p)[..w.at];
  }

  /** rec is the record of some point of the policy's log. */
  ghost predicate PointOf(s: S.State, policy: string, rec: PolicyRecord) {
    rec.number <= |S.LogAt(s, policy)| && rec == Fold(policy, S.LogAt(s, policy)[..rec.number])
  }

  ghost predicate Stop(t: PolicyTransition) { t.kind == Disable || t.kind == Retire }

  /** The append as it is made visible, once the length check has passed. */
  lemma AppendedLegal(order: PublicationOrder, s: S.State, policy: string, rec: PolicyRecord, t: PolicyTransition, hold: bool)
    requires S.Valid(s) && LogsLegal(order, s)
    requires PointOf(s, policy, rec) && rec.number == |S.LogAt(s, policy)| && LegalNext(order, rec, t)
    ensures LogsLegal(order, S.Extended(s, policy, t.(number := rec.number + 1), hold))
  {
    CurrentRecord(s, policy);
    LegalAt(order, s, policy);
    LegalAppend(order, policy, S.LogAt(s, policy), t.(number := rec.number + 1));
  }

  /** The shared state once an append is visible. */
  ghost function Published(k: Core, c: nat, policy: string, entry: PolicyTransition, hold: bool): Core {
    k.(store := S.Extended(k.store, policy, entry, hold), released := ReleasedAfter(k, policy, hold),
       authors := k.authors[policy := AuthorsAt(k, policy) + [c]])
  }

  lemma ExtendedGrows(k: Core, c: nat, policy: string, entry: PolicyTransition, hold: bool)
    ensures Grown(k, Published(k, c, policy, entry, hold))
  {
  }

  lemma ExtendedAuthors(k: Core, c: nat, policy: string, entry: PolicyTransition, hold: bool)
    requires AuthorsMatch(k)
    ensures AuthorsMatch(Published(k, c, policy, entry, hold))
  {
    var k' := Published(k, c, policy, entry, hold);
    forall p ensures |AuthorsAt(k', p)| == |S.LogAt(k'.store, p)| {
      assert |AuthorsAt(k, p)| == |S.LogAt(k.store, p)|;
    }
  }

  lemma AuthorsUntouched(k: Core, k': Core)
    requires AuthorsMatch(k) && k'.authors == k.authors && SamePolicies(k.store, k'.store)
    ensures AuthorsMatch(k')
  {
    forall p ensures |AuthorsAt(k', p)| == |S.LogAt(k'.store, p)| {
      assert |AuthorsAt(k, p)| == |S.LogAt(k.store, p)|;
    }
  }

  lemma ExtendedWitnessed(order: PublicationOrder, k: Core, k': Core, policy: string, entry: PolicyTransition, hold: bool)
    requires Witnessed(order, k) && k'.store == S.Extended(k.store, policy, entry, hold) && k'.admitted == k.admitted
    ensures Witnessed(order, k')
  {
    var s' := k'.store;
    forall id | id in s'.intents && s'.intents[id].admissionEpoch > 0
      ensures s'.intents[id].origin == Automatic && id in k.admitted && WitnessOK(order, s', s'.intents[id], k.admitted[id])
    {
      var intent := k.store.intents[id];
      assert SameFrozen(intent, s'.intents[id]);
      WitnessStable(order, k.store, s', intent, k.admitted[id]);
    }
  }

  /** A stop holds what it leaves behind; an opening follows a stop that already did. */
  lemma ExtendedKept(order: PublicationOrder, k: Core, c: nat, policy: string, rec: PolicyRecord, t: PolicyTransition)
    requires S.Valid(k.store) && Witnessed(order, k) && HoldsKept(k)
    requires PointOf(k.store, policy, rec) && rec.number == |S.LogAt(k.store, policy)| && LegalNext(order, rec, t)
    ensures HoldsKept(Published(k, c, policy, t.(number := rec.number + 1), Stop(t)))
  {
    var s := k.store;
    var k' := Published(k, c, policy, t.(number := rec.number + 1), Stop(t));
    var s' := k'.store;
    CurrentRecord(s, policy);
    forall id | id in s'.intents ensures Kept(k', id) {
      var intent := s.intents[id];
      assert Kept(k, id);
      if intent.admissionEpoch > 0 {
        assert intent.origin == Automatic;
        var key := S.KeyOf(intent);
        assert key in s.auto && s.auto[key] == id;
        if intent.autoRunPolicyID != policy {
          assert S.RecordAt(s', intent.autoRunPolicyID) == S.RecordAt(s, intent.autoRunPolicyID);
          NotUnassigned(s, policy, id);
        } else if Stop(t) {
          if intent.runID == "" { assert id in S.Unassigned(s, policy); }
        }
      }
    }
  }

  lemma NotUnassigned(s: S.State, policy: string, id: ID)
    requires S.Valid(s) && id in s.intents && s.intents[id].autoRunPolicyID != policy
    ensures id !in S.Unassigned(s, policy)
  {
    forall k | k in s.auto && s.auto[k] == id ensures k.policyID != policy { assert S.KeyOf(s.intents[id]) == k; }
  }

  lemma AppendTracked(order: PublicationOrder, k: Core, c: nat, policy: string, rec: PolicyRecord, t: PolicyTransition)
    requires CoreInv(order, k)
    requires PointOf(k.store, policy, rec) && rec.number == |S.LogAt(k.store, policy)| && LegalNext(order, rec, t)
    ensures Tracked(order, Published(k, c, policy, t.(number := rec.number + 1), Stop(t)))
  {
    var entry := t.(number := rec.number + 1);
    AppendedLegal(order, k.store, policy, rec, t, Stop(t));
    ExtendedAuthors(k, c, policy, entry, Stop(t));
    ExtendedWitnessed(order, k, Published(k, c, policy, entry, Stop(t)), policy, entry, Stop(t));
    ExtendedKept(order, k, c, policy, rec, t);
  }

  lemma AppendKeeps(order: PublicationOrder, k: Core, c: nat, policy: string, rec: PolicyRecord, t: PolicyTransition, env: S.Env)
    requires CoreInv(order, k) && PointOf(k.store, policy, rec) && LegalNext(order, rec, t)
    ensures var (k', r) := AppendStep(k, c, policy, rec.number, t, Stop(t), env);
            && CoreInv(order, k') && Grown(k, k')
  {
    if AppendStep(k, c, policy, rec.number, t, Stop(t), env).1.Ok? {
      S.ExtendedValid(k.store, policy, t.(number := rec.number + 1), Stop(t));
      AppendTracked(order, k, c, policy, rec, t);
      ExtendedGrows(k, c, policy, t.(number := rec.number + 1), Stop(t));
    }
  }

  // Adding an intent, with its witness if the gate admitted it.

  ghost predicate WitnessAdded(a: map<ID, Witness>, b: map<ID, Witness>, id: ID) {
    forall i :: i in a && i != id ==> i in b && b[i] == a[i]
  }

  ghost predicate AdmittedNow(order: PublicationOrder, s: S.State, intent: Intent, admitted: map<ID, Witness>) {
    && intent.origin == Automatic && intent.id in admitted && WitnessOK(order, s, intent, admitted[intent.id])
    && ActiveAt(s, intent.autoRunPolicyID, intent.admissionEpoch)
  }

  lemma AddedWitnessed(order: PublicationOrder, k: Core, s': S.State, intent: Intent, admitted': map<ID, Witness>)
    requires Witnessed(order, k) && intent.id !in k.store.intents
    requires s'.intents == k.store.intents[intent.id := intent] && SamePolicies(k.store, s')
    requires WitnessAdded(k.admitted, admitted', intent.id)
    requires intent.admissionEpoch > 0 ==> AdmittedNow(order, k.store, intent, admitted')
    ensures Witnessed(order, k.(store := s', admitted := admitted'))
  {
    forall id | id in s'.intents && s'.intents[id].admissionEpoch > 0
      ensures s'.intents[id].origin == Automatic && id in admitted' && WitnessOK(order, s', s'.intents[id], admitted'[id])
    {
      WitnessStable(order, k.store, s', s'.intents[id], admitted'[id]);
    }
  }

  lemma AddedKept(order: PublicationOrder, k: Core, s': S.State, intent: Intent, admitted': map<ID, Witness>)
    requires HoldsKept(k) && intent.id !in k.store.intents
    requires s'.intents == k.store.intents[intent.id := intent] && SamePolicies(k.store, s')
    requires intent.admissionEpoch > 0 ==> AdmittedNow(order, k.store, intent, admitted')
    ensures HoldsKept(k.(store := s', admitted := admitted'))
  {
    var k' := k.(store := s', admitted := admitted');
    forall id | id in s'.intents ensures Kept(k', id) {
      if id != intent.id { assert Kept(k, id); }
    }
  }

  lemma AddedKeeps(order: PublicationOrder, k: Core, s': S.State, intent: Intent, admitted': map<ID, Witness>)
    requires Tracked(order, k) && intent.id !in k.store.intents
    requires s'.intents == k.store.intents[intent.id := intent] && SamePolicies(k.store, s')
    requires WitnessAdded(k.admitted, admitted', intent.id)
    requires intent.admissionEpoch > 0 ==> AdmittedNow(order, k.store, intent, admitted')
    ensures Tracked(order, k.(store := s', admitted := admitted')) && Grown(k, k.(store := s', admitted := admitted'))
  {
    AddedWitnessed(order, k, s', intent, admitted');
    AddedKept(order, k, s', intent, admitted');
    AuthorsUntouched(k, k.(store := s', admitted := admitted'));
  }

  /** The conditional create checks only ACTIVE at the epoch. By then the log has either not
      moved since the decision or has moved to a point that check refuses. */
  lemma AdmitAgrees(order: PublicationOrder, s: S.State, req: AutomaticRequest, rec: PolicyRecord)
    requires S.Valid(s) && LogsLegal(order, s) && PointOf(s, req.policyID, rec) && rec.state == Active
    ensures ActiveAt(s, req.policyID, rec.epoch) <==> rec.number == |S.LogAt(s, req.policyID)|
    ensures ActiveAt(s, req.policyID, rec.epoch) ==> rec == S.RecordAt(s, req.policyID) && req.policyID in s.policies
  {
    var log := S.LogAt(s, req.policyID);
    CurrentRecord(s, req.policyID);
    LegalAt(order, s, req.policyID);
    if ActiveAt(s, req.policyID, rec.epoch) {
      ActiveAtEpochIsOnePoint(order, req.policyID, log, rec.number, |log|);
    }
  }

  /** What the conditional create adds to the store, when it adds an intent. */
  lemma AdmittedAdds(s: S.State, draft: Intent, epoch: nat, env: S.Env)
    requires var r := S.CreateAutomaticAdmitted(s, draft, epoch, env).1; r.Ok? && r.value.created
    ensures var (s', r) := S.CreateAutomaticAdmitted(s, draft, epoch, env);
            var intent := r.value.intent;
            && intent == draft.(id := intent.id) && intent.id !in s.intents && s'.intents == s.intents[intent.id := intent]
            && SamePolicies(s, s') && ActiveAt(s, draft.autoRunPolicyID, epoch)
  {
  }

  /** The step with its witness. */
  lemma AdmitAdds(order: PublicationOrder, k: Core, req: AutomaticRequest, rec: PolicyRecord, facts: PublicationFacts, env: S.Env)
    requires S.Valid(k.store) && LogsLegal(order, k.store)
    requires PointOf(k.store, req.policyID, rec) && GateOpen(order, rec, facts)
    requires var r := AdmitStep(k, req.Draft(rec.epoch), rec.epoch, facts, env).1; r.Ok? && r.value.created
    ensures var (k', r) := AdmitStep(k, req.Draft(rec.epoch), rec.epoch, facts, env);
            var intent := r.value.intent;
            && intent.id !in k.store.intents && k'.store.intents == k.store.intents[intent.id := intent]
            && SamePolicies(k.store, k'.store) && WitnessAdded(k.admitted, k'.admitted, intent.id)
            && AdmittedNow(order, k.store, intent, k'.admitted)
            && k' == k.(store := k'.store, admitted := k'.admitted)
  {
    AdmittedAdds(k.store, req.Draft(rec.epoch), rec.epoch, env);
    AdmittedSeen(order, k, req, rec, facts);
  }

  /** The witness of an intent recorded at the current point is in order. */
  lemma AdmittedSeen(order: PublicationOrder, k: Core, req: AutomaticRequest, rec: PolicyRecord, facts: PublicationFacts)
    requires S.Valid(k.store) && LogsLegal(order, k.store)
    requires PointOf(k.store, req.policyID, rec) && GateOpen(order, rec, facts) && ActiveAt(k.store, req.policyID, rec.epoch)
    ensures forall id :: WitnessOK(order, k.store, req.Draft(rec.epoch).(id := id),
                                   Witness(facts, |S.LogAt(k.store, req.policyID)|))
  {
    AdmitAgrees(order, k.store, req, rec);
    CurrentRecord(k.store, req.policyID);
  }

  lemma AdmitAddsNothing(k: Core, draft: Intent, epoch: nat, facts: PublicationFacts, env: S.Env)
    requires var r := AdmitStep(k, draft, epoch, facts, env).1; r.Err? || !r.value.created
    ensures AdmitStep(k, draft, epoch, facts, env).0 == k
  {
  }

  lemma GrownReflexive(k: Core)
    ensures Grown(k, k)
  {
  }

  lemma AdmitKeeps(order: PublicationOrder, k: Core, req: AutomaticRequest, rec: PolicyRecord, facts: PublicationFacts, env: S.Env)
    requires S.Valid(k.store) && Tracked(order, k) && PointOf(k.store, req.policyID, rec) && GateOpen(order, rec, facts)
    ensures var (k', r) := AdmitStep(k, req.Draft(rec.epoch), rec.epoch, facts, env);
            Tracked(order, k') && Grown(k, k')
  {
    var (k', r) := AdmitStep(k, req.Draft(rec.epoch), rec.epoch, facts, env);
    if r.Ok? && r.value.created {
      AdmitAdds(order, k, req, rec, facts, env);
      AddedKeeps(order, k, k'.store, r.value.intent, k'.admitted);
    } else {
      AdmitAddsNothing(k, req.Draft(rec.epoch), rec.epoch, facts, env);
      GrownReflexive(k);
    }
  }

  lemma AdmitStores(k: Core, draft: Intent, epoch: nat, facts: PublicationFacts, env: S.Env)
    ensures AdmitStep(k, draft, epoch, facts, env).0.store == S.CreateAutomaticAdmitted(k.store, draft, epoch, env).0
  {
  }

  lemma AdmitValid(k: Core, req: AutomaticRequest, epoch: nat, facts: PublicationFacts, env: S.Env)
    requires S.Valid(k.store)
    ensures S.Valid(AdmitStep(k, req.Draft(epoch), epoch, facts, env).0.store)
  {
    S.CreateAdmittedValid(k.store, req.Draft(epoch), epoch, env);
    AdmitStores(k, req.Draft(epoch), epoch, facts, env);
  }

  /** A stale answer means the log has grown since the decision. */
  lemma AdmitStale(order: PublicationOrder, k: Core, req: AutomaticRequest, rec: PolicyRecord, facts: PublicationFacts, env: S.Env)
    requires S.Valid(k.store) && LogsLegal(order, k.store) && PointOf(k.store, req.policyID, rec) && rec.state == Active
    requires AdmitStep(k, req.Draft(rec.epoch), rec.epoch, facts, env).1 == Err(PolicyStale)
    ensures rec.number < |S.LogAt(k.store, req.policyID)|
  {
    AdmitAgrees(order, k.store, req, rec);
    if ActiveAt(k.store, req.policyID, rec.epoch) { ActiveNotStale(k.store, req.Draft(rec.epoch), rec.epoch, env); }
  }

  lemma ActiveNotStale(s: S.State, draft: Intent, epoch: nat, env: S.Env)
    requires draft.autoRunPolicyID in s.policies && ActiveAt(s, draft.autoRunPolicyID, epoch)
    ensures S.CreateAutomaticAdmitted(s, draft, epoch, env).1 != Err(PolicyStale)
  {
  }

  lemma UngatedKeeps(order: PublicationOrder, k: Core, req: AutomaticRequest, env: S.Env)
    requires CoreInv(order, k)
    ensures var k' := k.(store := S.CreateAutomatic(k.store, req.Draft(0), env).0);
            Tracked(order, k') && Grown(k, k')
  {
    var (s, r) := S.CreateAutomatic(k.store, req.Draft(0), env);
    if r.Ok? && r.value.created { AddedKeeps(order, k, s, r.value.intent, k.admitted); }
  }

  lemma ExplicitAdds(s: S.State, req: ExplicitRequest, env: S.Env)
    requires var r := S.CreateExplicit(s, req.Draft(), env).1; r.Ok? && r.value.created
    ensures var (s', r) := S.CreateExplicit(s, req.Draft(), env);
            var intent := r.value.intent;
            && intent.id !in s.intents && s'.intents == s.intents[intent.id := intent]
            && SamePolicies(s, s') && intent.admissionEpoch == 0
  {
  }

  lemma ExplicitKeeps(order: PublicationOrder, k: Core, req: ExplicitRequest, env: S.Env)
    requires CoreInv(order, k)
    ensures var k' := k.(store := S.CreateExplicit(k.store, req.Draft(), env).0);
            Tracked(order, k') && Grown(k, k')
  {
    var (s, r) := S.CreateExplicit(k.store, req.Draft(), env);
    if r.Ok? && r.value.created {
      ExplicitAdds(k.store, req, env);
      AddedKeeps(order, k, s, r.value.intent, k.admitted);
    } else {
      assert s == k.store;
    }
  }

  // Rewriting one intent's RunID or blockers.

  ghost predicate SafeRewrite(a: Intent, b: Intent, released: bool) {
    && SameFrozen(a, b)
    && (a.runID != "" ==> b.runID == a.runID)
    && (a.blockers.policyDisable != Clear ==> b.blockers.policyDisable != Clear || released)
  }

  lemma RewrittenWitnessed(order: PublicationOrder, k: Core, s': S.State, id: ID, out: Intent)
    requires Witnessed(order, k) && id in k.store.intents && SameFrozen(k.store.intents[id], out)
    requires s'.intents == k.store.intents[id := out] && SamePolicies(k.store, s')
    ensures Witnessed(order, k.(store := s'))
  {
    forall i | i in s'.intents && s'.intents[i].admissionEpoch > 0
      ensures s'.intents[i].origin == Automatic && i in k.admitted && WitnessOK(order, s', s'.intents[i], k.admitted[i])
    {
      WitnessStable(order, k.store, s', k.store.intents[i], k.admitted[i]);
    }
  }

  /** A rewrite of one intent ends its release only by holding it again. */
  ghost predicate ReleaseRewrite(k: Core, id: ID, out: Intent, released': set<ID>) {
    k.released - {id} <= released' && (id in k.released && id !in released' ==> out.blockers.policyDisable != Clear)
  }

  lemma RewrittenKept(k: Core, s': S.State, id: ID, out: Intent, released': set<ID>)
    requires HoldsKept(k) && id in k.store.intents && SafeRewrite(k.store.intents[id], out, id in released')
    requires s'.intents == k.store.intents[id := out] && SamePolicies(k.store, s')
    requires ReleaseRewrite(k, id, out, released')
    ensures HoldsKept(k.(store := s', released := released'))
  {
    var k' := k.(store := s', released := released');
    forall i | i in s'.intents ensures Kept(k', i) { assert Kept(k, i); }
  }

  lemma RewrittenKeeps(order: PublicationOrder, k: Core, s': S.State, id: ID, out: Intent, released': set<ID>)
    requires Tracked(order, k) && id in k.store.intents && SafeRewrite(k.store.intents[id], out, id in released')
    requires s'.intents == k.store.intents[id := out] && SamePolicies(k.store, s')
    requires ReleaseRewrite(k, id, out, released')
    ensures Tracked(order, k.(store := s', released := released')) && Grown(k, k.(store := s', released := released'))
  {
    RewrittenWitnessed(order, k, s', id, out);
    RewrittenKept(k, s', id, out, released');
    AuthorsUntouched(k, k.(store := s', released := released'));
    assert Witnessed(order, k.(store := s'));
  }

  lemma AttachKeeps(order: PublicationOrder, k: Core, id: ID, run: RunID, env: S.Env)
    requires CoreInv(order, k)
    ensures var k' := k.(store := S.AttachRunID(k.store, id, run, env).0);
            Tracked(order, k') && Grown(k, k')
  {
    var (s, r) := S.AttachRunID(k.store, id, run, env);
    if s != k.store { RewrittenKeeps(order, k, s, id, r.value, k.released); }
  }

  /** Reading a blocker update as a rewrite of one intent. */
  lemma BlockerRewrites(s: S.State, id: ID, owner: BlockerOwner, state: BlockerState, env: S.Env)
    requires S.UpdateBlocker(s, id, owner, state, env).1.Ok?
    ensures var (s', r) := S.UpdateBlocker(s, id, owner, state, env);
            && id in s.intents && s'.intents == s.intents[id := r.value] && SamePolicies(s, s')
            && SafeRewrite(s.intents[id], r.value, owner == PolicyDisable && state == Clear)
  {
    var (s', r) := S.UpdateBlocker(s, id, owner, state, env);
    var intent := s.intents[id];
    assert intent.blockers.Slot(PolicyDisable) == Some(intent.blockers.policyDisable);
    assert r.value.blockers.Slot(PolicyDisable) == Some(r.value.blockers.policyDisable);
  }

  lemma BlockerReleases(k: Core, id: ID, owner: BlockerOwner, state: BlockerState, env: S.Env)
    requires BlockerStep(k, id, owner, state, env).1.Ok?
    ensures var (k', r) := BlockerStep(k, id, owner, state, env);
            && k' == k.(store := S.UpdateBlocker(k.store, id, owner, state, env).0, released := k'.released)
            && ReleaseRewrite(k, id, r.value, k'.released) && (owner == PolicyDisable && state == Clear ==> id in k'.released)
  {
    var r := S.UpdateBlocker(k.store, id, owner, state, env).1;
    assert r.value.blockers.Slot(PolicyDisable) == Some(r.value.blockers.policyDisable);
  }

  lemma BlockerKeeps(order: PublicationOrder, k: Core, id: ID, owner: BlockerOwner, state: BlockerState, env: S.Env)
    requires CoreInv(order, k)
    ensures var (k', _) := BlockerStep(k, id, owner, state, env);
            Tracked(order, k') && Grown(k, k')
  {
    var (k', r) := BlockerStep(k, id, owner, state, env);
    if r.Ok? {
      BlockerRewrites(k.store, id, owner, state, env);
      BlockerReleases(k, id, owner, state, env);
      RewrittenKeeps(order, k, k'.store, id, r.value, k'.released);
    } else {
      GrownReflexive(k);
    }
  }
}
