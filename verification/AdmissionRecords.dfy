/** Where the records come from: every intent and every log entry of a reachable state was
    written by one action of the run, for the request of one call, and a call writes an intent
    only after it has looked it up and the revision reader has confirmed its revision. */
module AdmissionRecords {
  import opened Prelude
  import opened Intents
  import opened PolicyLog
  import opened Admission
  import opened AdmissionSafety
  import opened AdmissionTheorems
  import opened AdmissionProgress
  import opened AdmissionAnswers
  import opened AdmissionHistory
  import opened AdmissionFailures
  import S = StoreSpec

  // ---- Intents ------------------------------------------------------------------------

  /** Nothing a request must name is missing. */
  predicate Named(revision: RevisionRef) { revision.pipelineID != "" && revision.revisionID != "" }

  /** The intent is what the call at this point asks for, and the request is complete. */
  ghost predicate WrittenFor(intent: Intent, id: ID, call: Call, pc: Pc) {
    && intent.id == id
    && match call
       case AdmitAutomatic(req, facts) =>
         pc.Create? && FreshFor(intent, req, pc.record.epoch)
         && req.policyID != "" && req.policyRevision != "" && req.subject != "" && Named(req.pipelineRevision)
       case CreateUngated(req) =>
         pc.Write? && FreshFor(intent, req, 0)
         && req.policyID != "" && req.policyRevision != "" && req.subject != "" && Named(req.pipelineRevision)
       case CreateExplicit(req) =>
         pc.Write? && FreshForOperation(intent, req) && req.operationID != "" && req.subject != "" && Named(req.pipelineRevision)
       case _ => false
  }

  /** What a write that may record an intent adds to the intents. */
  ghost predicate AddsFor(before: map<ID, Intent>, after: map<ID, Intent>, call: Call, pc: Pc) {
    forall id :: id in after && id !in before ==> WrittenFor(after[id], id, call, pc)
  }

  lemma SameIntentsAdd(before: map<ID, Intent>, after: map<ID, Intent>, call: Call, pc: Pc)
    requires after.Keys == before.Keys
    ensures AddsFor(before, after, call, pc)
  {
  }

  lemma GatedAdds(k: Core, call: Call, pc: Pc, env: S.Env)
    requires Fits(call, pc) && pc.Create?
    ensures AddsFor(k.store.intents, AdmitStep(k, call.req.Draft(pc.record.epoch), pc.record.epoch, call.facts, env).0.store.intents,
                    call, pc)
  {
  }

  lemma UngatedAdds(s: S.State, call: Call, env: S.Env)
    requires Fits(call, Write) && call.CreateUngated?
    ensures AddsFor(s.intents, S.CreateAutomatic(s, call.req.Draft(0), env).0.intents, call, Write)
  {
  }

  lemma OperationAdds(s: S.State, call: Call, env: S.Env)
    requires Fits(call, Write) && call.CreateExplicit?
    ensures AddsFor(s.intents, S.CreateExplicit(s, call.explicit.Draft(), env).0.intents, call, Write)
  {
  }

  lemma RewritesAdd(s: S.State, call: Call, id: ID, owner: BlockerOwner, state: BlockerState, run: RunID, env: S.Env)
    ensures S.UpdateBlocker(s, id, owner, state, env).0.intents.Keys == s.intents.Keys
    ensures S.AttachRunID(s, id, run, env).0.intents.Keys == s.intents.Keys
  {
  }

  lemma AppendAdds(k: Core, c: nat, policy: string, expected: nat, t: PolicyTransition, hold: bool, env: S.Env)
    ensures AppendStep(k, c, policy, expected, t, hold, env).0.store.intents.Keys == k.store.intents.Keys
  {
  }

  lemma WriteAdds(order: PublicationOrder, k: Core, c: nat, call: Call, start: nat, env: Env)
    requires Fits(call, Write)
    ensures AddsFor(k.store.intents, ClientStep(order, k, c, call, start, Write, env).0.store.intents, call, Write)
  {
    match call
    case CreateUngated(_) => UngatedAdds(k.store, call, env.store);
    case CreateExplicit(_) => OperationAdds(k.store, call, env.store);
    case AttachRunID(id, run) => RewritesAdd(k.store, call, id, PolicyDisable, Clear, run, env.store);
    case RecordAcceptance(id, _) => RewritesAdd(k.store, call, id, PolicyDisable, Blocked, "", env.store);
    case SetBlocker(id, owner, state) => RewritesAdd(k.store, call, id, owner, state, "", env.store);
    case ReleaseBlocker(id, owner) => RewritesAdd(k.store, call, id, owner, Clear, "", env.store);
  }

  lemma ClientAdds(order: PublicationOrder, k: Core, c: nat, call: Call, start: nat, pc: Pc, env: Env)
    requires Fits(call, pc)
    ensures AddsFor(k.store.intents, ClientStep(order, k, c, call, start, pc, env).0.store.intents, call, pc)
  {
    match pc
    case Append(_, rec, t) => AppendAdds(k, c, call.Policy(), rec.number, t, call.StopPolicy?, env.store);
    case Create(_, _) => GatedAdds(k, call, pc, env.store);
    case Write => WriteAdds(order, k, c, call, start, env);
    case _ =>
  }

  /** The action is a step of client c, in the middle of a call. */
  ghost predicate StepOf(w: World, a: Action, c: nat) {
    a.Advance? && a.client == c && c in w.clients && w.clients[c].Running?
  }

  /** The action recorded the intent, for the request of the call it is a step of. */
  ghost predicate Records(order: PublicationOrder, w: World, a: Action, id: ID) {
    var w' := Step(order, w, a);
    && id !in w.core.store.intents && id in w'.core.store.intents && StepOf(w, a, a.client)
    && WrittenFor(w'.core.store.intents[id], id, w.clients[a.client].call, w.clients[a.client].pc)
  }

  lemma StepRecords(order: PublicationOrder, w: World, a: Action, id: ID)
    requires AllFit(w) && id !in w.core.store.intents && id in Step(order, w, a).core.store.intents
    ensures Records(order, w, a, id)
  {
    var cl := w.clients[a.client];
    ClientAdds(order, w.core, a.client, cl.call, cl.start, cl.pc, a.env);
  }

  lemma {:induction false} RecordingAction(order: PublicationOrder, schedule: seq<Action>, id: ID) returns (n: nat)
    requires id in Run(order, Init, schedule).core.store.intents
    ensures n < |schedule| && Records(order, Run(order, Init, schedule[..n]), schedule[n], id)
  {
    var last := |schedule| - 1;
    RunLast(order, Init, schedule);
    if id in Run(order, Init, schedule[..last]).core.store.intents {
      n := RecordingAction(order, schedule[..last], id);
      assert schedule[..last][..n] == schedule[..n];
    } else {
      n := last;
      RunFits(order, schedule[..last]);
      StepRecords(order, Run(order, Init, schedule[..last]), schedule[last], id);
    }
  }

  /** Every recorded intent was recorded by one action, as the complete request of that call
      describes it, and still has the identity it was recorded with. */
  lemma RecordedBy(order: PublicationOrder, schedule: seq<Action>, id: ID) returns (n: nat)
    requires id in Run(order, Init, schedule).core.store.intents
    ensures n < |schedule| && Records(order, Run(order, Init, schedule[..n]), schedule[n], id)
    ensures id in Run(order, Init, schedule[..n+1]).core.store.intents
    ensures SameFrozen(Run(order, Init, schedule[..n+1]).core.store.intents[id], Run(order, Init, schedule).core.store.intents[id])
  {
    n := RecordingAction(order, schedule, id);
    assert schedule[..n+1][..n] == schedule[..n];
    RunLast(order, Init, schedule[..n+1]);
    StaysRecorded(order, schedule, id, n + 1);
  }

  lemma StaysRecorded(order: PublicationOrder, schedule: seq<Action>, id: ID, m: nat)
    requires m <= |schedule| && id in Run(order, Init, schedule[..m]).core.store.intents
    ensures id in Run(order, Init, schedule).core.store.intents
    ensures SameFrozen(Run(order, Init, schedule[..m]).core.store.intents[id], Run(order, Init, schedule).core.store.intents[id])
  {
    RunFreezes(order, schedule[..m], schedule[m..]);
    assert schedule[..m] + schedule[m..] == schedule;
  }

  // ---- Log entries --------------------------------------------------------------------

  /** The entry is the transition the call asks for, with the frontier it names. */
  ghost predicate EntryFor(entry: PolicyTransition, call: Call) {
    match call
    case EnablePolicy(_, frontier) => (entry.kind == Activate || entry.kind == Reenable) && entry.frontier == frontier
    case StopPolicy(_, retire) => entry.kind == if retire then Retire else Disable
    case _ => false
  }

  /** A step leaves the policy's log alone or appends one entry for its call. */
  lemma LogStep(order: PublicationOrder, k: Core, c: nat, call: Call, start: nat, pc: Pc, env: Env, policy: string)
    requires KindOK(call, pc)
    ensures var before, after := S.LogAt(k.store, policy), S.LogAt(ClientStep(order, k, c, call, start, pc, env).0.store, policy);
            || after == before
            || (policy == call.Policy() && |after| == |before| + 1 && EntryFor(after[|before|], call))
  {
    if !pc.Append? { SteadyPolicies(order, k, c, call, start, pc, env); }
  }

  /** The action appended entry i of the policy's log, for the call it is a step of. */
  ghost predicate Appends(order: PublicationOrder, w: World, a: Action, policy: string, i: nat) {
    var after := S.LogAt(Step(order, w, a).core.store, policy);
    && |S.LogAt(w.core.store, policy)| == i && |after| == i + 1 && StepOf(w, a, a.client)
    && w.clients[a.client].call.Policy() == policy && EntryFor(after[i], w.clients[a.client].call)
  }

  lemma StepAppends(order: PublicationOrder, w: World, a: Action, policy: string, i: nat)
    requires AllTruthful(order, w) && |S.LogAt(w.core.store, policy)| <= i < |S.LogAt(Step(order, w, a).core.store, policy)|
    ensures Appends(order, w, a, policy, i)
  {
    var cl := w.clients[a.client];
    assert Truthful(order, w.core, cl);
    LogStep(order, w.core, a.client, cl.call, cl.start, cl.pc, a.env, policy);
  }

  lemma {:induction false} AppendingAction(order: PublicationOrder, schedule: seq<Action>, policy: string, i: nat) returns (n: nat)
    requires i < |S.LogAt(Run(order, Init, schedule).core.store, policy)|
    ensures n < |schedule| && Appends(order, Run(order, Init, schedule[..n]), schedule[n], policy, i)
  {
    var last := |schedule| - 1;
    RunLast(order, Init, schedule);
    if i < |S.LogAt(Run(order, Init, schedule[..last]).core.store, policy)| {
      n := AppendingAction(order, schedule[..last], policy, i);
      assert schedule[..last][..n] == schedule[..n];
    } else {
      n := last;
      RunTruth(order, schedule[..last]);
      StepAppends(order, Run(order, Init, schedule[..last]), schedule[last], policy, i);
    }
  }

  /** Every log entry was appended by one action, as the call it is a step of asks, and stands
      in the log ever since. */
  lemma AppendedBy(order: PublicationOrder, schedule: seq<Action>, policy: string, i: nat) returns (n: nat)
    requires i < |S.LogAt(Run(order, Init, schedule).core.store, policy)|
    ensures n < |schedule| && Appends(order, Run(order, Init, schedule[..n]), schedule[n], policy, i)
    ensures var w := Run(order, Init, schedule[..n]);
            EntryFor(S.LogAt(Run(order, Init, schedule).core.store, policy)[i], w.clients[schedule[n].client].call)
  {
    n := AppendingAction(order, schedule, policy, i);
    assert schedule[..n+1][..n] == schedule[..n];
    RunLast(order, Init, schedule[..n+1]);
    StaysLogged(order, schedule, policy, n + 1);
  }

  lemma StaysLogged(order: PublicationOrder, schedule: seq<Action>, policy: string, m: nat)
    requires m <= |schedule|
    ensures S.LogAt(Run(order, Init, schedule[..m]).core.store, policy) <= S.LogAt(Run(order, Init, schedule).core.store, policy)
  {
    RunFreezes(order, schedule[..m], schedule[m..]);
    assert schedule[..m] + schedule[m..] == schedule;
  }

  // ---- What a call has behind it when it writes ---------------------------------------

  /** A call that may record an intent first finds none recorded, and has the revision
      confirmed. */
  datatype Milestone = LookedUp | Confirmed

  /** The step that passes the milestone. */
  ghost predicate Passes(m: Milestone, s: S.State, call: Call, pc: Pc, env: Env) {
    match m
    case Confirmed => env.readable && (pc.CheckRevision? || pc.CheckThenWrite?)
    case LookedUp =>
      && pc.Lookup?
      && match call
         case AdmitAutomatic(req, _) => forall id :: id in s.intents ==> !ForRequest(s.intents[id], req)
         case CreateUngated(req) => forall id :: id in s.intents ==> !ForRequest(s.intents[id], req)
         case CreateExplicit(req) =>
           forall id :: id in s.intents ==> !(s.intents[id].origin == Explicit && s.intents[id].operationID == req.operationID)
         case _ => false
  }

  /** The program points behind the milestone. */
  predicate Behind(m: Milestone, call: Call, pc: Pc) {
    Creates(call) && match m
                     case LookedUp => !pc.Lookup?
                     case Confirmed => pc.Create? || pc.Write? || (pc.ReadPolicy? && pc.checked)
  }

  lemma LookupFindsNone(s: S.State, req: AutomaticRequest)
    requires S.Valid(s) && S.LookupAutomatic(s, req.policyID, req.subject).None?
    ensures forall id :: id in s.intents ==> !ForRequest(s.intents[id], req)
  {
    forall id | id in s.intents ensures !ForRequest(s.intents[id], req) {
      assert s.intents[id].origin == Automatic ==> S.KeyOf(s.intents[id]) in s.auto;
    }
  }

  lemma LookupPasses(order: PublicationOrder, k: Core, c: nat, call: Call, start: nat, env: Env)
    requires S.Valid(k.store) && Fits(call, Lookup) && Creates(call)
    requires ClientStep(order, k, c, call, start, Lookup, env).1.Running?
    ensures Passes(LookedUp, k.store, call, Lookup, env)
    ensures var next := ClientStep(order, k, c, call, start, Lookup, env).1; !Behind(Confirmed, call, next.pc)
  {
    match call
    case AdmitAutomatic(req, _) => LookupFindsNone(k.store, req);
    case CreateUngated(req) => LookupFindsNone(k.store, req);
    case CreateExplicit(req) =>
  }

  /** No other step takes a call past a milestone. */
  lemma StepPasses(order: PublicationOrder, k: Core, c: nat, call: Call, start: nat, pc: Pc, env: Env, m: Milestone)
    requires S.Valid(k.store) && Fits(call, pc)
    requires var next := ClientStep(order, k, c, call, start, pc, env).1; next.Running? && Behind(m, call, next.pc)
    ensures Behind(m, call, pc) || Passes(m, k.store, call, pc, env)
  {
    if pc.Lookup? { LookupPasses(order, k, c, call, start, env); }
  }

  /** The action took client c past the milestone, in the middle of this call. */
  ghost predicate PassesAt(w: World, a: Action, c: nat, call: Call, start: nat, m: Milestone) {
    && a.Advance? && a.client == c && During(w, c, call, start) && Passes(m, w.core.store, call, w.clients[c].pc, a.env)
  }

  /** From the n-th state on the client is in the middle of this call. */
  ghost predicate DuringFrom(order: PublicationOrder, schedule: seq<Action>, c: nat, call: Call, start: nat, n: nat) {
    forall l :: n <= l <= |schedule| ==> During(Run(order, Init, schedule[..l]), c, call, start)
  }

  lemma DuringNext(order: PublicationOrder, schedule: seq<Action>, c: nat, call: Call, start: nat, n: nat)
    requires schedule != [] && n < |schedule| && During(Run(order, Init, schedule), c, call, start)
    requires DuringFrom(order, schedule[..|schedule|-1], c, call, start, n)
    ensures DuringFrom(order, schedule, c, call, start, n)
  {
    var last := |schedule| - 1;
    forall l | n <= l <= |schedule| ensures During(Run(order, Init, schedule[..l]), c, call, start) {
      if l <= last { assert schedule[..last][..l] == schedule[..l]; } else { assert schedule[..l] == schedule; }
    }
  }

  /** One action: a client behind a milestone was behind it before, or passed it now. */
  lemma ActionPasses(order: PublicationOrder, w: World, a: Action, c: nat, m: Milestone)
    requires Inv(order, w) && AllFit(w)
    requires var w' := Step(order, w, a); c in w'.clients && w'.clients[c].Running? && Behind(m, w'.clients[c].call, w'.clients[c].pc)
    ensures var cl := Step(order, w, a).clients[c];
            && During(w, c, cl.call, cl.start)
            && (Behind(m, cl.call, w.clients[c].pc) || PassesAt(w, a, c, cl.call, cl.start, m))
  {
    if a.Advance? && a.client == c && c in w.clients && w.clients[c].Running? {
      var before := w.clients[c];
      StepCloser(order, w.core, c, before.call, before.start, before.pc, a.env);
      StepPasses(order, w.core, c, before.call, before.start, before.pc, a.env, m);
    }
  }

  lemma LastPasses(order: PublicationOrder, schedule: seq<Action>, c: nat, m: Milestone)
    requires var w := Run(order, Init, schedule);
             c in w.clients && w.clients[c].Running? && Behind(m, w.clients[c].call, w.clients[c].pc)
    ensures schedule != []
    ensures var w, cl := Run(order, Init, schedule[..|schedule|-1]), Run(order, Init, schedule).clients[c];
            && During(w, c, cl.call, cl.start)
            && (Behind(m, cl.call, w.clients[c].pc) || PassesAt(w, schedule[|schedule|-1], c, cl.call, cl.start, m))
  {
    var last := |schedule| - 1;
    RunLast(order, Init, schedule);
    RunInv(order, schedule[..last]);
    RunFits(order, schedule[..last]);
    ActionPasses(order, Run(order, Init, schedule[..last]), schedule[last], c, m);
  }

  /** A call behind a milestone passed it by one of its own steps. */
  lemma {:induction false} PassedBy(order: PublicationOrder, schedule: seq<Action>, c: nat, m: Milestone) returns (n: nat)
    requires var w := Run(order, Init, schedule);
             c in w.clients && w.clients[c].Running? && Behind(m, w.clients[c].call, w.clients[c].pc)
    ensures var cl := Run(order, Init, schedule).clients[c];
            && n < |schedule| && PassesAt(Run(order, Init, schedule[..n]), schedule[n], c, cl.call, cl.start, m)
            && DuringFrom(order, schedule, c, cl.call, cl.start, n)
  {
    var last := |schedule| - 1;
    var w, cl := Run(order, Init, schedule[..last]), Run(order, Init, schedule).clients[c];
    LastPasses(order, schedule, c, m);
    if Behind(m, cl.call, w.clients[c].pc) {
      n := PassedBy(order, schedule[..last], c, m);
      assert schedule[..last][..n] == schedule[..n];
    } else {
      n := last;
      assert schedule[..last][..last] == schedule[..last];
    }
    DuringNext(order, schedule, c, cl.call, cl.start, n);
  }

  /** Before the action that recorded an intent its call had found none recorded for the request
      and had the revision confirmed, both since the call began. */
  lemma WrittenAfterChecks(order: PublicationOrder, schedule: seq<Action>, id: ID) returns (l: nat, m: nat, n: nat)
    requires id in Run(order, Init, schedule).core.store.intents
    ensures l < n && m < n < |schedule| && Records(order, Run(order, Init, schedule[..n]), schedule[n], id)
    ensures var cl := Run(order, Init, schedule[..n]).clients[schedule[n].client];
            && PassesAt(Run(order, Init, schedule[..l]), schedule[l], schedule[n].client, cl.call, cl.start, LookedUp)
            && PassesAt(Run(order, Init, schedule[..m]), schedule[m], schedule[n].client, cl.call, cl.start, Confirmed)
  {
    n := RecordingAction(order, schedule, id);
    var c := schedule[n].client;
    l := PassedBy(order, schedule[..n], c, LookedUp);
    m := PassedBy(order, schedule[..n], c, Confirmed);
    assert schedule[..n][..l] == schedule[..l] && schedule[..n][..m] == schedule[..m];
  }
}
