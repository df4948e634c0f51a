/** Every call settles: it finishes after a bounded number of its own steps, whatever other
    clients do in between, and gives up only if others moved the policy eight times. */
module AdmissionProgress {
  import opened Prelude
  import opened Intents
  import opened PolicyLog
  import opened Admission
  import opened AdmissionTheorems
  import S = StoreSpec

  /** The program points a call can be at, once its arguments have passed their checks. */
  predicate Fits(call: Call, pc: Pc) { call.Precheck().None? && Reaches(call, pc) }

  predicate Reaches(call: Call, pc: Pc) {
    match pc
    case Lookup => call.AdmitAutomatic? || call.CreateUngated? || call.CreateExplicit? || call.RecordAcceptance?
    case ReadPolicy(tries, _) =>
      tries < MaxPolicyRetries && (call.AdmitAutomatic? || call.StopPolicy? || call.EnablePolicy?)
    case Append(tries, _, _) => tries < MaxPolicyRetries && (call.StopPolicy? || call.EnablePolicy?)
    case CheckRevision(tries, _) => tries < MaxPolicyRetries && call.AdmitAutomatic?
    case Create(tries, _) => tries < MaxPolicyRetries && call.AdmitAutomatic?
    case CheckThenWrite => call.CreateUngated? || call.CreateExplicit?
    case Write => !call.EnablePolicy? && !call.StopPolicy? && !call.AdmitAutomatic?
  }

  ghost predicate ClientFits(cl: Client) { cl.Running? ==> Fits(cl.call, cl.pc) }

  /** An upper bound on the steps a client still takes. */
  function StepsLeft(cl: Client): nat {
    match cl
    case Done(_, _, _) => 0
    case Running(_, _, pc) =>
      match pc
      case Lookup => 4 * MaxPolicyRetries + 1
      case ReadPolicy(tries, _) => if tries < MaxPolicyRetries then 4 * (MaxPolicyRetries - tries) else 0
      case CheckRevision(tries, _) => if tries < MaxPolicyRetries then 4 * (MaxPolicyRetries - tries) - 1 else 0
      case Append(tries, _, _) => if tries < MaxPolicyRetries then 4 * (MaxPolicyRetries - tries) - 2 else 0
      case Create(tries, _) => if tries < MaxPolicyRetries then 4 * (MaxPolicyRetries - tries) - 2 else 0
      case CheckThenWrite => 2
      case Write => 1
  }

  /** The same call, closer to its end. */
  ghost predicate Closer(before: Client, after: Client) {
    after.call == before.call && after.start == before.start && ClientFits(after) && StepsLeft(after) < StepsLeft(before)
  }

  lemma ReadCloser(order: PublicationOrder, k: Core, call: Call, start: nat, pc: Pc, env: Env)
    requires Fits(call, pc) && (pc.Lookup? || pc.ReadPolicy? || pc.CheckRevision?)
    ensures Closer(Running(call, start, pc), ReadStep(order, k, call, start, pc, env))
  {
  }

  lemma AppendCloser(call: Call, start: nat, tries: nat, rec: PolicyRecord, t: PolicyTransition, r: Result<S.Appended>)
    requires Fits(call, Append(tries, rec, t))
    ensures Closer(Running(call, start, Append(tries, rec, t)), AfterAppend(call, start, tries, r))
  {
  }

  lemma CreateCloser(call: Call, start: nat, tries: nat, rec: PolicyRecord, r: Result<S.Created>)
    requires Fits(call, Create(tries, rec))
    ensures Closer(Running(call, start, Create(tries, rec)), AfterCreate(call, start, tries, rec, r))
  {
  }

  lemma StepCloser(order: PublicationOrder, k: Core, c: nat, call: Call, start: nat, pc: Pc, env: Env)
    requires Fits(call, pc)
    ensures Closer(Running(call, start, pc), ClientStep(order, k, c, call, start, pc, env).1)
  {
    match pc
    case Append(tries, rec, t) =>
      AppendCloser(call, start, tries, rec, t, AppendStep(k, c, call.Policy(), rec.number, t, call.StopPolicy?, env.store).1);
    case Create(tries, rec) =>
      CreateCloser(call, start, tries, rec, AdmitStep(k, call.req.Draft(rec.epoch), rec.epoch, call.facts, env.store).1);
    case CheckThenWrite =>
    case Write =>
    case _ => ReadCloser(order, k, call, start, pc, env);
  }

  ghost predicate AllFit(w: World) { forall c :: c in w.clients ==> ClientFits(w.clients[c]) }

  lemma BeginFits(call: Call)
    requires call.Precheck().None?
    ensures Fits(call, call.FirstStep())
  {
  }

  lemma StepFits(order: PublicationOrder, w: World, a: Action)
    requires AllFit(w)
    ensures AllFit(Step(order, w, a))
  {
    match a
    case Begin(c, call) => if call.Precheck().None? { BeginFits(call); }
    case Advance(c, env) =>
      if c in w.clients && w.clients[c].Running? {
        var cl := w.clients[c];
        StepCloser(order, w.core, c, cl.call, cl.start, cl.pc, env);
      }
    case Crash(_) =>
  }

  lemma {:induction false} RunFits(order: PublicationOrder, schedule: seq<Action>)
    ensures AllFit(Run(order, Init, schedule))
  {
    if schedule != [] {
      RunFits(order, schedule[..|schedule|-1]);
      StepFits(order, Run(order, Init, schedule[..|schedule|-1]), schedule[|schedule|-1]);
    }
  }

  /** The client neither crashes nor begins another call. */
  ghost predicate Undisturbed(c: nat, schedule: seq<Action>) {
    forall i :: 0 <= i < |schedule| && !schedule[i].Advance? ==> schedule[i].client != c
  }

  /** How often the schedule lets the client take a step. */
  function Turns(c: nat, schedule: seq<Action>): nat {
    if schedule == [] then 0
    else
      var last := schedule[|schedule|-1];
      Turns(c, schedule[..|schedule|-1]) + if last.Advance? && last.client == c then 1 else 0
  }

  /** One action: a turn brings the client closer, anything else leaves it alone. */
  lemma ActionCloser(order: PublicationOrder, w: World, a: Action, c: nat)
    requires AllFit(w) && c in w.clients && (a.Advance? || a.client != c)
    ensures var w' := Step(order, w, a);
            && c in w'.clients
            && if a.Advance? && a.client == c && w.clients[c].Running? then Closer(w.clients[c], w'.clients[c])
               else w'.clients[c] == w.clients[c]
  {
    if a.Advance? && a.client == c && w.clients[c].Running? {
      var cl := w.clients[c];
      StepCloser(order, w.core, c, cl.call, cl.start, cl.pc, a.env);
    }
  }

  lemma {:induction false} TurnsFinish(order: PublicationOrder, before: seq<Action>, more: seq<Action>, c: nat)
    requires c in Run(order, Init, before).clients && Undisturbed(c, more)
    ensures var cl := Run(order, Init, before).clients[c];
            var w := Run(order, Init, before + more);
            && c in w.clients && w.clients[c].call == cl.call && w.clients[c].start == cl.start
            && (w.clients[c].Done? || StepsLeft(w.clients[c]) + Turns(c, more) <= StepsLeft(cl))
  {
    if more == [] {
      assert before + more == before;
    } else {
      var n := |more| - 1;
      assert Undisturbed(c, more[..n]) by {
        forall i | 0 <= i < n && !more[..n][i].Advance? ensures more[..n][i].client != c { assert more[i] == more[..n][i]; }
      }
      TurnsFinish(order, before, more[..n], c);
      RunSnoc(order, Init, before, more);
      RunFits(order, before + more[..n]);
      ActionCloser(order, Run(order, Init, before + more[..n]), more[n], c);
    }
  }

  lemma RunningTakesSteps(order: PublicationOrder, schedule: seq<Action>, c: nat)
    requires c in Run(order, Init, schedule).clients && Run(order, Init, schedule).clients[c].Running?
    ensures 0 < StepsLeft(Run(order, Init, schedule).clients[c]) <= 33
  {
    RunFits(order, schedule);
  }

  /** Every call settles. A client that is neither restarted nor crashed has its answer after
      at most 33 of its own turns, under any interleaving and any faults; and the answer is
      not POLICY_STALE if the policy's log grew by fewer than eight entries since the call
      began. */
  lemma CallSettles(order: PublicationOrder, before: seq<Action>, more: seq<Action>, c: nat)
    requires c in Run(order, Init, before).clients && Undisturbed(c, more) && Turns(c, more) >= 33
    ensures var cl := Run(order, Init, before).clients[c];
            var w := Run(order, Init, before + more);
            && c in w.clients && w.clients[c].Done? && w.clients[c].call == cl.call
            && (|S.LogAt(w.core.store, cl.call.Policy())| < cl.start + 8
                ==> w.clients[c].outcome != Failed(PolicyStale))
  {
    TurnsFinish(order, before, more, c);
    var w := Run(order, Init, before + more);
    if w.clients[c].Running? {
      RunningTakesSteps(order, before + more, c);
      if Run(order, Init, before).clients[c].Running? { RunningTakesSteps(order, before, c); }
    } else if w.clients[c].outcome == Failed(PolicyStale) {
      GivingUpNeedsEight(order, before + more, c);
    }
  }
}
