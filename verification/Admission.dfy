/** The Service calls as clients of one shared store. A call is a short program whose every
    store access is one atomic step; between two steps any other client may run. */
module Admission {
  import opened Prelude
  import opened Intents
  import opened PolicyLog
  import S = StoreSpec

  const MaxPolicyRetries := 8

  // ---- Calls, program counters and outcomes -------------------------------------------

  datatype Acceptance = Accepted | NotAccepted | AcceptanceUnknown

  datatype Call =
    | EnablePolicy(policy: string, frontier: Option<Position>)
    | StopPolicy(policy: string, retire: bool)
    | AdmitAutomatic(req: AutomaticRequest, facts: PublicationFacts)
    | CreateUngated(req: AutomaticRequest)
    | CreateExplicit(explicit: ExplicitRequest)
    | AttachRunID(id: ID, run: RunID)
    | RecordAcceptance(id: ID, observed: Acceptance)
    | SetBlocker(id: ID, owner: BlockerOwner, state: BlockerState)
    | ReleaseBlocker(id: ID, owner: BlockerOwner)
  {
    /** The policy whose log the call reads or writes, if any. */
    function Policy(): string {
      match this
      case EnablePolicy(p, _) => p
      case StopPolicy(p, _) => p
      case AdmitAutomatic(r, _) => r.policyID
      case CreateUngated(r) => r.policyID
      case _ => ""
    }

    /** The argument checks each call makes before it touches the store. */
    function Precheck(): Option<Code> {
      match this
      case EnablePolicy(p, f) => if p == "" || f.None? then Some(MissingCoordinate) else None
      case StopPolicy(p, _) => if p == "" then Some(MissingCoordinate) else None
      case AdmitAutomatic(r, _) => if r.Complete() then None else Some(MissingCoordinate)
      case CreateUngated(r) => if r.Complete() then None else Some(MissingCoordinate)
      case CreateExplicit(r) => if r.Complete() then None else Some(MissingCoordinate)
      case AttachRunID(id, run) => if id == "" || run == "" then Some(MissingCoordinate) else None
      case RecordAcceptance(id, _) => if id == "" then Some(MissingCoordinate) else None
      case SetBlocker(id, owner, state) =>
        if state == Clear then Some(InvalidTransition)
        else if id == "" then Some(MissingCoordinate)
        else if owner.UnknownOwner? then Some(InvalidTransition)
        else None
      case ReleaseBlocker(id, owner) =>
        if id == "" then Some(MissingCoordinate)
        else if owner.UnknownOwner? then Some(InvalidTransition)
        else None
    }

    function FirstStep(): Pc {
      match this
      case EnablePolicy(_, _) => ReadPolicy(0, false)
      case StopPolicy(_, _) => ReadPolicy(0, false)
      case AttachRunID(_, _) => Write
      case SetBlocker(_, _, _) => Write
      case ReleaseBlocker(_, _) => Write
      case _ => Lookup
    }
  }

  /** The next store access of a running call. `tries` counts its failed conditional
      writes; `record` is the policy record its decision was taken on. */
  datatype Pc =
    | Lookup
    | ReadPolicy(tries: nat, checked: bool)
    | Append(tries: nat, record: PolicyRecord, transition: PolicyTransition)
    | CheckRevision(tries: nat, record: PolicyRecord)
    | Create(tries: nat, record: PolicyRecord)
    | CheckThenWrite
    | Write

  datatype Outcome =
    | Failed(code: Code)
    | Enabled(record: PolicyRecord)
    | Stopped(record: PolicyRecord, members: S.Membership)
    | NotAdmitted(reason: NotAdmittedReason, record: PolicyRecord)
    | Admitted(record: PolicyRecord, intent: Intent)
    | Returned(result: CreateResult)
    | Updated(intent: Intent)

  /** `start` is a history variable: the length of the call's policy log when it began. */
  datatype Client =
    | Running(call: Call, start: nat, pc: Pc)
    | Done(call: Call, start: nat, outcome: Outcome)

  // ---- The shared state ---------------------------------------------------------------

  /** What the admission gate saw when it recorded an intent: the publication facts and the
      length of the policy's log at the write. */
  datatype Witness = Witness(facts: PublicationFacts, at: nat)

  /** The store with three history variables: the witness of every gate-admitted intent, the
      intents whose POLICY_DISABLE blocker was written last by an explicit release, and which
      client appended each log entry. */
  datatype Core = Core(store: S.State, admitted: map<ID, Witness>, released: set<ID>, authors: map<string, seq<nat>>)

  datatype World = World(core: Core, clients: map<nat, Client>)

  const Init := World(Core(S.Empty, map[], {}, map[]), map[])

  function AuthorsAt(k: Core, policy: string): seq<nat> {
    if policy in k.authors then k.authors[policy] else []
  }

  // ---- Store steps with their history -------------------------------------------------

  /** A stop that holds an intent ends its release. */
  ghost function ReleasedAfter(k: Core, policy: string, hold: bool): set<ID> {
    if hold then k.released - S.Unassigned(k.store, policy) else k.released
  }

  ghost function AppendStep(k: Core, c: nat, policy: string, expected: nat, t: PolicyTransition, hold: bool, env: S.Env)
    : (Core, Result<S.Appended>)
  {
    var (s, r) := S.AppendPolicyTransition(k.store, policy, expected, t, hold, env);
    (if r.Ok? then k.(store := s, released := ReleasedAfter(k, policy, hold),
                      authors := k.authors[policy := AuthorsAt(k, policy) + [c]])
     else k, r)
  }

  function AdmitStep(k: Core, draft: Intent, epoch: nat, facts: PublicationFacts, env: S.Env): (Core, Result<S.Created>) {
    var (s, r) := S.CreateAutomaticAdmitted(k.store, draft, epoch, env);
    if r.Ok? && r.value.created then
      var seen := Witness(facts, |S.LogAt(k.store, draft.autoRunPolicyID)|);
      (k.(store := s, admitted := k.admitted[r.value.intent.id := seen]), r)
    else (k.(store := s), r)
  }

  function BlockerStep(k: Core, id: ID, owner: BlockerOwner, state: BlockerState, env: S.Env): (Core, Result<Intent>) {
    var (s, r) := S.UpdateBlocker(k.store, id, owner, state, env);
    var released := if r.Err? || owner != PolicyDisable then k.released
                    else if state == Clear then k.released + {id}
                    else k.released - {id};
    (k.(store := s, released := released), r)
  }

  // ---- One step of one client ---------------------------------------------------------

  /** The environment of a step: the store's faults and fresh identifiers, and whether the
      revision reader confirms the committed revision. */
  datatype Env = Env(store: S.Env, readable: bool)

  /** After a stale conditional write: read again, or give up after the last attempt. */
  function Retry(call: Call, start: nat, tries: nat): Client {
    if tries + 1 < MaxPolicyRetries then Running(call, start, ReadPolicy(tries + 1, true))
    else Done(call, start, Failed(PolicyStale))
  }

  function DecideEnable(order: PublicationOrder, call: Call, start: nat, tries: nat, found: Option<PolicyRecord>): Client
    requires call.EnablePolicy? && call.frontier.Some?
  {
    var rec := if found.Some? then found.value else ZeroRecord;
    match rec.state
    case Active => Done(call, start, Enabled(rec))
    case Retired => Done(call, start, Failed(PolicyRetired))
    case Disabled =>
      if rec.frontier.None? || !NotBefore(order, call.frontier.value, rec.frontier.value)
      then Done(call, start, Failed(FrontierInvalid))
      else Running(call, start, Append(tries, rec, PolicyTransition(0, Reenable, rec.epoch + 1, call.frontier)))
    case NoState => Running(call, start, Append(tries, rec, PolicyTransition(0, Activate, 1, call.frontier)))
  }

  ghost function DecideStop(call: Call, start: nat, tries: nat, found: Option<S.Appended>): Client
    requires call.StopPolicy?
  {
    if found.None? then Done(call, start, Failed(NotFound))
    else
      var rec := found.value.record;
      if rec.state == (if call.retire then Retired else Disabled) then Done(call, start, Stopped(rec, found.value.members))
      else if rec.state == Retired then Done(call, start, Failed(PolicyRetired))
      else Running(call, start, Append(tries, rec, PolicyTransition(0, if call.retire then Retire else Disable, rec.epoch, None)))
  }

  function DecideAdmit(order: PublicationOrder, call: Call, start: nat, tries: nat, checked: bool, found: Option<PolicyRecord>)
    : Client
    requires call.AdmitAutomatic?
  {
    if found.None? then Done(call, start, NotAdmitted(PolicyNotActive, ZeroRecord))
    else match Refusal(order, found.value, call.facts)
      case Some(reason) => Done(call, start, NotAdmitted(reason, found.value))
      case None => Running(call, start, if checked then Create(tries, found.value) else CheckRevision(tries, found.value))
  }

  function AfterCreate(call: Call, start: nat, tries: nat, rec: PolicyRecord, r: Result<S.Created>): Client
    requires call.AdmitAutomatic?
  {
    match r
    case Err(code) => if code == PolicyStale then Retry(call, start, tries) else Done(call, start, Failed(code))
    case Ok(v) =>
      if v.created then Done(call, start, Admitted(rec, v.intent))
      else Done(call, start, Returned(AutomaticReplay(v.intent, call.req)))
  }

  ghost function AfterAppend(call: Call, start: nat, tries: nat, r: Result<S.Appended>): Client {
    match r
    case Err(code) => if code == PolicyStale then Retry(call, start, tries) else Done(call, start, Failed(code))
    case Ok(v) => Done(call, start, if call.EnablePolicy? then Enabled(v.record) else Stopped(v.record, v.members))
  }

  function FromIntent(call: Call, start: nat, r: Result<Intent>): Client {
    match r
    case Err(code) => Done(call, start, Failed(code))
    case Ok(intent) => Done(call, start, Updated(intent))
  }

  function FromCreate(call: Call, start: nat, r: Result<CreateResult>): Client {
    match r
    case Err(code) => Done(call, start, Failed(code))
    case Ok(v) => Done(call, start, Returned(v))
  }

  /** The lookups and reads: no write, one decision. */
  ghost function ReadStep(order: PublicationOrder, k: Core, call: Call, start: nat, pc: Pc, env: Env): Client
    requires pc.Lookup? || pc.ReadPolicy? || pc.CheckRevision?
  {
    match (pc, call)
    case (Lookup, AdmitAutomatic(req, _)) =>
      (match S.LookupAutomatic(k.store, req.policyID, req.subject)
       case Some(intent) => Done(call, start, Returned(AutomaticReplay(intent, req)))
       case None => Running(call, start, ReadPolicy(0, false)))
    case (Lookup, CreateUngated(req)) =>
      (match S.LookupAutomatic(k.store, req.policyID, req.subject)
       case Some(intent) => Done(call, start, Returned(AutomaticReplay(intent, req)))
       case None => Running(call, start, CheckThenWrite))
    case (Lookup, CreateExplicit(req)) =>
      (match S.LookupExplicit(k.store, req.operationID)
       case Some(intent) => FromCreate(call, start, ExplicitReplay(intent, req.Draft()))
       case None => Running(call, start, CheckThenWrite))
    case (Lookup, RecordAcceptance(id, observed)) =>
      (match S.Get(k.store, id)
       case Err(code) => Done(call, start, Failed(code))
       case Ok(intent) =>
         if intent.origin != Automatic || intent.runID == "" then Done(call, start, Failed(InvalidTransition))
         else if observed == Accepted then Done(call, start, Updated(intent))
         else Running(call, start, Write))
    case (ReadPolicy(tries, _), EnablePolicy(p, f)) =>
      if f.Some? then DecideEnable(order, call, start, tries, S.GetPolicy(k.store, p))
      else Done(call, start, Failed(MissingCoordinate))
    case (ReadPolicy(tries, _), StopPolicy(p, _)) =>
      (match S.GetPolicy(k.store, p)
       case None => DecideStop(call, start, tries, None)
       case Some(rec) => DecideStop(call, start, tries, Some(S.Appended(rec, S.MembershipOf(k.store, p)))))
    case (ReadPolicy(tries, checked), AdmitAutomatic(req, _)) =>
      DecideAdmit(order, call, start, tries, checked, S.GetPolicy(k.store, req.policyID))
    case (CheckRevision(tries, rec), AdmitAutomatic(_, _)) =>
      if env.readable then Running(call, start, Create(tries, rec)) else Done(call, start, Failed(NotFound))
    case _ => Running(call, start, pc)
  }

  /** One step of the call of client c from program point pc. */
  ghost function ClientStep(order: PublicationOrder, k: Core, c: nat, call: Call, start: nat, pc: Pc, env: Env): (Core, Client) {
    match (pc, call)
    case (Append(tries, rec, t), _) =>
      var (k', r) := AppendStep(k, c, call.Policy(), rec.number, t, call.StopPolicy?, env.store);
      (k', AfterAppend(call, start, tries, r))
    case (Create(tries, rec), AdmitAutomatic(req, facts)) =>
      var (k', r) := AdmitStep(k, req.Draft(rec.epoch), rec.epoch, facts, env.store);
      (k', AfterCreate(call, start, tries, rec, r))
    case (CheckThenWrite, _) =>
      (k, if env.readable then Running(call, start, Write) else Done(call, start, Failed(NotFound)))
    case (Write, CreateUngated(req)) =>
      var (s, r) := S.CreateAutomatic(k.store, req.Draft(0), env.store);
      (k.(store := s),
       match r
       case Err(code) => Done(call, start, Failed(code))
       case Ok(v) => Done(call, start, Returned(if v.created then CreateResult(v.intent, true, None) else AutomaticReplay(v.intent, req))))
    case (Write, CreateExplicit(req)) =>
      var (s, r) := S.CreateExplicit(k.store, req.Draft(), env.store);
      (k.(store := s),
       match r
       case Err(code) => Done(call, start, Failed(code))
       case Ok(v) => if v.created then Done(call, start, Returned(CreateResult(v.intent, true, None)))
                     else FromCreate(call, start, ExplicitReplay(v.intent, req.Draft())))
    case (Write, AttachRunID(id, run)) =>
      var (s, r) := S.AttachRunID(k.store, id, run, env.store);
      (k.(store := s), FromIntent(call, start, r))
    case (Write, RecordAcceptance(id, _)) =>
      var (k', r) := BlockerStep(k, id, PolicyDisable, Blocked, env.store);
      (k', FromIntent(call, start, r))
    case (Write, SetBlocker(id, owner, state)) =>
      var (k', r) := BlockerStep(k, id, owner, state, env.store);
      (k', FromIntent(call, start, r))
    case (Write, ReleaseBlocker(id, owner)) =>
      var (k', r) := BlockerStep(k, id, owner, Clear, env.store);
      (k', FromIntent(call, start, r))
    case _ =>
      (k, if pc.Lookup? || pc.ReadPolicy? || pc.CheckRevision? then ReadStep(order, k, call, start, pc, env)
          else Running(call, start, pc))
  }

  // ---- Runs ---------------------------------------------------------------------------

  datatype Action =
    | Begin(client: nat, call: Call)
    | Advance(client: nat, env: Env)
    | Crash(client: nat)

  ghost function Step(order: PublicationOrder, w: World, a: Action): World {
    match a
    case Begin(c, call) =>
      if c in w.clients && w.clients[c].Running? then w
      else
        var start := |S.LogAt(w.core.store, call.Policy())|;
        var next := match call.Precheck()
                    case Some(code) => Done(call, start, Failed(code))
                    case None => Running(call, start, call.FirstStep());
        w.(clients := w.clients[c := next])
    case Advance(c, env) =>
      if c in w.clients && w.clients[c].Running? then
        var cl := w.clients[c];
        var (k, next) := ClientStep(order, w.core, c, cl.call, cl.start, cl.pc, env);
        World(k, w.clients[c := next])
      else w
    case Crash(c) => w.(clients := w.clients - {c})
  }

  /** The world after a schedule: any clients, any interleaving, any faults. */
  ghost function Run(order: PublicationOrder, w: World, schedule: seq<Action>): World {
    if schedule == [] then w
    else Step(order, Run(order, w, schedule[..|schedule|-1]), schedule[|schedule|-1])
  }
}
