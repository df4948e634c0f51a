/** The indexed intent store on values: its six maps, every call as a function from one
    state to the next, and the invariant that ties the maps together. */
module StoreSpec {
  import opened Prelude
  import opened Ordering
  import opened Intents
  import opened PolicyLog

  datatype AutoKey = AutoKey(policyID: string, subject: string)

  datatype State = State(
    intents: map<ID, Intent>,
    auto: map<AutoKey, ID>,
    ops: map<string, ID>,
    runs: map<RunID, ID>,
    policyLogs: map<string, Log>,
    policies: map<string, PolicyRecord>)

  const Empty := State(map[], map[], map[], map[], map[], map[])

  /** The staged steps of a write at which a fault may abort it. */
  datatype Step = IndexStaged | LedgerStaged | RunIndexStaged | IntentStaged
                | PolicyStaged | HoldStaged | BlockerStaged

  /** What the environment decides for one call: the allocated identifier, None when the
      random source fails, and the steps at which the fault hook reports an error. */
  datatype Env = Env(id: Option<ID>, faults: set<Step>)

  datatype Created = Created(intent: Intent, created: bool)

  datatype Membership = Membership(held: seq<ID>, attached: seq<ID>)

  datatype Appended = Appended(record: PolicyRecord, members: Membership)

  function KeyOf(intent: Intent): AutoKey { AutoKey(intent.autoRunPolicyID, intent.subject) }

  const ZeroIntent := Intent("", OtherOrigin, "", "", "", "", RevisionRef("", ""), "", 0, NoBlockers)

  /** A map read, with the zero value for a missing key. */
  function IntentAt(s: State, id: ID): Intent {
    if id in s.intents then s.intents[id] else ZeroIntent
  }

  function LogAt(s: State, policy: string): Log {
    if policy in s.policyLogs then s.policyLogs[policy] else []
  }

  function RecordAt(s: State, policy: string): PolicyRecord {
    if policy in s.policies then s.policies[policy] else ZeroRecord
  }

  // ---- The invariant ------------------------------------------------------------------

  ghost predicate AutoIndexed(s: State) {
    && (forall k :: k in s.auto ==> s.auto[k] in s.intents && s.intents[s.auto[k]].origin == Automatic
                                    && KeyOf(s.intents[s.auto[k]]) == k)
    && (forall id :: id in s.intents && s.intents[id].origin == Automatic ==>
                     KeyOf(s.intents[id]) in s.auto && s.auto[KeyOf(s.intents[id])] == id)
  }

  ghost predicate OpsIndexed(s: State) {
    && (forall op :: op in s.ops ==> s.ops[op] in s.intents && s.intents[s.ops[op]].origin == Explicit
                                     && s.intents[s.ops[op]].operationID == op)
    && (forall id :: id in s.intents && s.intents[id].origin == Explicit ==>
                     s.intents[id].operationID in s.ops && s.ops[s.intents[id].operationID] == id)
  }

  ghost predicate RunsIndexed(s: State) {
    && (forall r :: r in s.runs ==> r != "" && s.runs[r] in s.intents && s.intents[s.runs[r]].runID == r)
    && (forall id :: id in s.intents && s.intents[id].runID != "" ==>
                     s.intents[id].runID in s.runs && s.runs[s.intents[id].runID] == id)
  }

  ghost predicate PoliciesFolded(s: State) {
    && s.policies.Keys == s.policyLogs.Keys
    && (forall p :: p in s.policyLogs ==> s.policyLogs[p] != [] && s.policies[p] == Fold(p, s.policyLogs[p])
                                          && s.policies[p].number == |s.policyLogs[p]|)
  }

  ghost predicate Identified(s: State) {
    forall id :: id in s.intents ==> s.intents[id].id == id && s.intents[id].origin != OtherOrigin
  }

  /** `auto`, `ops` and `runs` are exactly the inverse indexes of `intents`. */
  ghost predicate Indexed(s: State) {
    && Identified(s)
    && AutoIndexed(s)
    && OpsIndexed(s)
    && RunsIndexed(s)
  }

  /** The indexes agree with the intents, and every policy record is the fold of its log. */
  ghost predicate Valid(s: State) {
    && Indexed(s)
    && PoliciesFolded(s)
  }

  /** The draft of an automatic intent as the Service builds it. */
  ghost predicate FreshAutomatic(draft: Intent) {
    draft.origin == Automatic && draft.operationID == "" && draft.runID == "" && draft.blockers == NoBlockers
  }

  // ---- Membership ---------------------------------------------------------------------

  ghost function AutomaticIDs(s: State, policy: string): set<ID> {
    set k | k in s.auto && k.policyID == policy :: s.auto[k]
  }

  /** The ids reached through `keys` that hold a POLICY_DISABLE blocker. */
  ghost function HeldAmong(s: State, policy: string, keys: set<AutoKey>): set<ID> {
    set k | k in keys && k in s.auto && k.policyID == policy && IntentAt(s, s.auto[k]).blockers.policyDisable != Clear
      :: s.auto[k]
  }

  /** The ids reached through `keys` with a RunID and no POLICY_DISABLE blocker. */
  ghost function AttachedAmong(s: State, policy: string, keys: set<AutoKey>): set<ID> {
    set k | k in keys && k in s.auto && k.policyID == policy && IntentAt(s, s.auto[k]).blockers.policyDisable == Clear
            && IntentAt(s, s.auto[k]).runID != "" :: s.auto[k]
  }

  ghost function HeldIDs(s: State, policy: string): set<ID> { HeldAmong(s, policy, s.auto.Keys) }

  ghost function AttachedIDs(s: State, policy: string): set<ID> { AttachedAmong(s, policy, s.auto.Keys) }

  ghost function MembershipOf(s: State, policy: string): Membership {
    Membership(Listing(HeldIDs(s, policy)), Listing(AttachedIDs(s, policy)))
  }

  const NoMembers := Membership([], [])

  // ---- Reads --------------------------------------------------------------------------

  function LookupAutomatic(s: State, policy: string, subject: string): Option<Intent> {
    var k := AutoKey(policy, subject);
    if k in s.auto then Some(IntentAt(s, s.auto[k])) else None
  }

  function LookupExplicit(s: State, op: string): Option<Intent> {
    if op in s.ops then Some(IntentAt(s, s.ops[op])) else None
  }

  function Get(s: State, id: ID): Result<Intent> {
    if id in s.intents then Ok(s.intents[id]) else Err(NotFound)
  }

  function GetPolicy(s: State, policy: string): Option<PolicyRecord> {
    if policy in s.policies then Some(s.policies[policy]) else None
  }

  // ---- Writes -------------------------------------------------------------------------

  function AllocateID(s: State, env: Env): Result<ID> {
    if env.id.None? then Err(Fault)
    else if env.id.value in s.intents then Err(Duplicate)
    else Ok(env.id.value)
  }

  /** Records a draft that no index entry answers for. */
  function Record(s: State, draft: Intent, env: Env, staged: Step): Result<Intent> {
    match AllocateID(s, env)
    case Err(code) => Err(code)
    case Ok(id) =>
      if staged in env.faults || IntentStaged in env.faults then Err(Fault) else Ok(draft.(id := id))
  }

  function CreateAutomatic(s: State, draft: Intent, env: Env): (State, Result<Created>) {
    var k := KeyOf(draft);
    if k in s.auto then (s, Ok(Created(IntentAt(s, s.auto[k]), false)))
    else match Record(s, draft, env, IndexStaged)
      case Err(code) => (s, Err(code))
      case Ok(intent) => (s.(auto := s.auto[k := intent.id], intents := s.intents[intent.id := intent]), Ok(Created(intent, true)))
  }

  function CreateAutomaticAdmitted(s: State, draft: Intent, epoch: nat, env: Env): (State, Result<Created>) {
    var rec := RecordAt(s, draft.autoRunPolicyID);
    if KeyOf(draft) !in s.auto && (draft.autoRunPolicyID !in s.policies || rec.state != Active || rec.epoch != epoch)
    then (s, Err(PolicyStale))
    else CreateAutomatic(s, draft, env)
  }

  predicate ExplicitDraftOK(draft: Intent) {
    draft.origin == Explicit && draft.operationID != "" && draft.autoRunPolicyID == ""
    && draft.autoRunPolicyRevision == "" && draft.admissionEpoch == 0 && draft.runID == ""
  }

  function CreateExplicit(s: State, draft: Intent, env: Env): (State, Result<Created>) {
    var op := draft.operationID;
    if !ExplicitDraftOK(draft) then (s, Err(InvalidContract))
    else if op in s.ops then (s, Ok(Created(IntentAt(s, s.ops[op]), false)))
    else match Record(s, draft, env, LedgerStaged)
      case Err(code) => (s, Err(code))
      case Ok(intent) => (s.(ops := s.ops[op := intent.id], intents := s.intents[intent.id := intent]), Ok(Created(intent, true)))
  }

  function AttachRunID(s: State, id: ID, run: RunID, env: Env): (State, Result<Intent>) {
    if id !in s.intents then (s, Err(NotFound))
    else
      var intent := s.intents[id];
      if intent.runID == run then (s, Ok(intent))
      else if intent.runID != "" || run in s.runs then (s, Err(RunIDConflict))
      else if RunIndexStaged in env.faults || IntentStaged in env.faults then (s, Err(Fault))
      else
        var out := intent.(runID := run);
        (s.(runs := s.runs[run := id], intents := s.intents[id := out]), Ok(out))
  }

  function UpdateBlocker(s: State, id: ID, owner: BlockerOwner, state: BlockerState, env: Env): (State, Result<Intent>) {
    if id !in s.intents then (s, Err(NotFound))
    else
      var intent := s.intents[id];
      match intent.blockers.Slot(owner)
      case None => (s, Err(InvalidTransition))
      case Some(current) =>
        if current == state then (s, Ok(intent))
        else if BlockerStaged in env.faults then (s, Err(Fault))
        else
          var out := intent.(blockers := intent.blockers.SetSlot(owner, state));
          (s.(intents := s.intents[id := out]), Ok(out))
  }

  /** The policy's automatic intents that a stop must hold: those without a RunID. */
  ghost function Unassigned(s: State, policy: string): set<ID> {
    set k | k in s.auto && k.policyID == policy && IntentAt(s, s.auto[k]).runID == "" :: s.auto[k]
  }

  ghost function HoldAll(intents: map<ID, Intent>, ids: set<ID>): map<ID, Intent> {
    map id | id in intents ::
      if id in ids then intents[id].(blockers := intents[id].blockers.(policyDisable := Blocked)) else intents[id]
  }

  /** Holding only the intents that are not BLOCKED yet holds them all. */
  lemma HoldSkipsBlocked(intents: map<ID, Intent>, ids: set<ID>, held: set<ID>)
    requires held == set id | id in ids && id in intents && intents[id].blockers.policyDisable != Blocked
    ensures HoldAll(intents, ids) == HoldAll(intents, held)
  {
    forall id | id in intents ensures HoldAll(intents, held)[id] == HoldAll(intents, ids)[id] {
    }
  }

  /** The state after `entry` is appended, with every unassigned intent held if `hold`. */
  ghost function Extended(s: State, policy: string, entry: PolicyTransition, hold: bool): State {
    s.(policyLogs := s.policyLogs[policy := LogAt(s, policy) + [entry]],
       policies := s.policies[policy := RecordAt(s, policy).Apply(policy, entry)],
       intents := if hold then HoldAll(s.intents, Unassigned(s, policy)) else s.intents)
  }

  ghost function AppendPolicyTransition(s: State, policy: string, expected: nat, t: PolicyTransition, hold: bool, env: Env)
    : (State, Result<Appended>)
  {
    if |LogAt(s, policy)| != expected then (s, Err(PolicyStale))
    else if PolicyStaged in env.faults || (hold && HoldStaged in env.faults) then (s, Err(Fault))
    else
      var s' := Extended(s, policy, t.(number := expected + 1), hold);
      (s', Ok(Appended(RecordAt(s', policy), if hold then MembershipOf(s', policy) else NoMembers)))
  }

  // ---- Every write keeps the invariant ------------------------------------------------

  lemma EmptyValid()
    ensures Valid(Empty)
  {
  }

  function Added(s: State, intent: Intent): State { s.(intents := s.intents[intent.id := intent]) }

  lemma AutoExtended(s: State, intent: Intent)
    requires AutoIndexed(s) && intent.id !in s.intents && KeyOf(intent) !in s.auto && intent.origin == Automatic
    ensures AutoIndexed(Added(s, intent).(auto := s.auto[KeyOf(intent) := intent.id]))
  {
    var s' := Added(s, intent).(auto := s.auto[KeyOf(intent) := intent.id]);
    forall k | k in s'.auto
      ensures s'.auto[k] in s'.intents && s'.intents[s'.auto[k]].origin == Automatic && KeyOf(s'.intents[s'.auto[k]]) == k
    {
      if k != KeyOf(intent) { assert s.auto[k] in s.intents; }
    }
  }

  lemma OpsExtended(s: State, intent: Intent)
    requires OpsIndexed(s) && intent.id !in s.intents && intent.operationID !in s.ops && intent.origin == Explicit
    ensures OpsIndexed(Added(s, intent).(ops := s.ops[intent.operationID := intent.id]))
  {
    var s' := Added(s, intent).(ops := s.ops[intent.operationID := intent.id]);
    forall op | op in s'.ops
      ensures s'.ops[op] in s'.intents && s'.intents[s'.ops[op]].origin == Explicit
              && s'.intents[s'.ops[op]].operationID == op
    {
      if op != intent.operationID { assert s.ops[op] in s.intents; }
    }
  }

  lemma AutoKept(s: State, intent: Intent, ops: map<string, ID>)
    requires AutoIndexed(s) && intent.id !in s.intents && intent.origin != Automatic
    ensures AutoIndexed(Added(s, intent).(ops := ops))
  {
  }

  lemma OpsKept(s: State, intent: Intent, auto: map<AutoKey, ID>)
    requires OpsIndexed(s) && intent.id !in s.intents && intent.origin != Explicit
    ensures OpsIndexed(Added(s, intent).(auto := auto))
  {
  }

  lemma RunsKept(s: State, intent: Intent, auto: map<AutoKey, ID>, ops: map<string, ID>)
    requires RunsIndexed(s) && intent.id !in s.intents && intent.runID == ""
    ensures RunsIndexed(Added(s, intent).(auto := auto, ops := ops))
  {
  }

  /** Recording an intent under a fresh id and its one index entry keeps every index. */
  lemma RecordAutomaticValid(s: State, intent: Intent)
    requires Valid(s) && intent.id !in s.intents && KeyOf(intent) !in s.auto
    requires intent.origin == Automatic && intent.runID == ""
    ensures Valid(Added(s, intent).(auto := s.auto[KeyOf(intent) := intent.id]))
  {
    var auto := s.auto[KeyOf(intent) := intent.id];
    AutoExtended(s, intent);
    OpsKept(s, intent, auto);
    RunsKept(s, intent, auto, s.ops);
  }

  lemma RecordExplicitValid(s: State, intent: Intent)
    requires Valid(s) && intent.id !in s.intents && intent.operationID !in s.ops
    requires intent.origin == Explicit && intent.runID == ""
    ensures Valid(Added(s, intent).(ops := s.ops[intent.operationID := intent.id]))
  {
    var ops := s.ops[intent.operationID := intent.id];
    OpsExtended(s, intent);
    AutoKept(s, intent, ops);
    RunsKept(s, intent, s.auto, ops);
  }

  lemma CreateAutomaticValid(s: State, draft: Intent, env: Env)
    requires Valid(s) && FreshAutomatic(draft)
    ensures Valid(CreateAutomatic(s, draft, env).0)
  {
    var (s', r) := CreateAutomatic(s, draft, env);
    if r.Ok? && r.value.created { RecordAutomaticValid(s, r.value.intent); }
  }

  lemma CreateAdmittedValid(s: State, draft: Intent, epoch: nat, env: Env)
    requires Valid(s) && FreshAutomatic(draft)
    ensures Valid(CreateAutomaticAdmitted(s, draft, epoch, env).0)
  {
    CreateAutomaticValid(s, draft, env);
  }

  lemma CreateExplicitValid(s: State, draft: Intent, env: Env)
    requires Valid(s)
    ensures Valid(CreateExplicit(s, draft, env).0)
  {
    var (s', r) := CreateExplicit(s, draft, env);
    if r.Ok? && r.value.created { RecordExplicitValid(s, r.value.intent); }
  }

  /** The same intents up to RunID and blockers. */
  ghost predicate SameIdentities(a: map<ID, Intent>, b: map<ID, Intent>) {
    a.Keys == b.Keys && forall id :: id in a ==> SameFrozen(a[id], b[id])
  }

  lemma AutoUntouched(s: State, s': State)
    requires AutoIndexed(s) && SameIdentities(s.intents, s'.intents) && s'.auto == s.auto
    ensures AutoIndexed(s')
  {
  }

  lemma OpsUntouched(s: State, s': State)
    requires OpsIndexed(s) && SameIdentities(s.intents, s'.intents) && s'.ops == s.ops
    ensures OpsIndexed(s')
  {
  }

  lemma RunsUntouched(s: State, s': State)
    requires RunsIndexed(s) && s'.runs == s.runs && s'.intents.Keys == s.intents.Keys
    requires forall id :: id in s.intents ==> s'.intents[id].runID == s.intents[id].runID
    ensures RunsIndexed(s')
  {
  }

  lemma RunsExtended(s: State, id: ID, run: RunID)
    requires RunsIndexed(s) && id in s.intents && s.intents[id].runID == "" && run != "" && run !in s.runs
    ensures RunsIndexed(s.(runs := s.runs[run := id], intents := s.intents[id := s.intents[id].(runID := run)]))
  {
    var s' := s.(runs := s.runs[run := id], intents := s.intents[id := s.intents[id].(runID := run)]);
    forall r | r in s'.runs
      ensures r != "" && s'.runs[r] in s'.intents && s'.intents[s'.runs[r]].runID == r
    {
      if r != run { assert s.runs[r] != id; }
    }
  }

  /** A write that touches only RunIDs and blockers keeps the indexes if it keeps the
      RunID index. */
  lemma RewriteIndexed(s: State, s': State)
    requires Indexed(s) && SameIdentities(s.intents, s'.intents) && s'.auto == s.auto && s'.ops == s.ops
    requires RunsIndexed(s')
    ensures Indexed(s')
  {
    AutoUntouched(s, s');
    OpsUntouched(s, s');
  }

  lemma AttachedSame(s: State, id: ID, run: RunID)
    requires id in s.intents
    ensures SameIdentities(s.intents, s.intents[id := s.intents[id].(runID := run)])
  {
  }

  lemma AttachedIndexed(s: State, id: ID, run: RunID)
    requires Indexed(s) && id in s.intents && s.intents[id].runID == "" && run != "" && run !in s.runs
    ensures Indexed(s.(runs := s.runs[run := id], intents := s.intents[id := s.intents[id].(runID := run)]))
  {
    AttachedSame(s, id, run);
    RunsExtended(s, id, run);
    RewriteIndexed(s, s.(runs := s.runs[run := id], intents := s.intents[id := s.intents[id].(runID := run)]));
  }

  lemma AttachedValid(s: State, id: ID, run: RunID)
    requires Valid(s) && id in s.intents && s.intents[id].runID == "" && run != "" && run !in s.runs
    ensures Valid(s.(runs := s.runs[run := id], intents := s.intents[id := s.intents[id].(runID := run)]))
  {
    AttachedIndexed(s, id, run);
  }

  lemma ReblockedValid(s: State, id: ID, blockers: Blockers)
    requires Valid(s) && id in s.intents
    ensures Valid(s.(intents := s.intents[id := s.intents[id].(blockers := blockers)]))
  {
    var s' := s.(intents := s.intents[id := s.intents[id].(blockers := blockers)]);
    assert SameIdentities(s.intents, s'.intents);
    RunsUntouched(s, s');
    RewriteIndexed(s, s');
  }

  lemma AttachRunIDValid(s: State, id: ID, run: RunID, env: Env)
    requires Valid(s)
    ensures Valid(AttachRunID(s, id, run, env).0)
  {
    if AttachRunID(s, id, run, env).0 != s { AttachedValid(s, id, run); }
  }

  lemma UpdateBlockerValid(s: State, id: ID, owner: BlockerOwner, state: BlockerState, env: Env)
    requires Valid(s)
    ensures Valid(UpdateBlocker(s, id, owner, state, env).0)
  {
    if id in s.intents { ReblockedValid(s, id, s.intents[id].blockers.SetSlot(owner, state)); }
  }

  lemma AppendFolded(s: State, policy: string, entry: PolicyTransition)
    requires PoliciesFolded(s) && entry.number == |LogAt(s, policy)| + 1
    ensures PoliciesFolded(s.(policyLogs := s.policyLogs[policy := LogAt(s, policy) + [entry]],
                              policies := s.policies[policy := RecordAt(s, policy).Apply(policy, entry)]))
  {
    FoldAppend(policy, LogAt(s, policy), entry);
  }

  lemma ExtendedIndexed(s: State, policy: string, entry: PolicyTransition, hold: bool)
    requires Indexed(s)
    ensures Indexed(Extended(s, policy, entry, hold))
  {
    var s' := Extended(s, policy, entry, hold);
    assert SameIdentities(s.intents, s'.intents);
    RunsUntouched(s, s');
    RewriteIndexed(s, s');
  }

  lemma ExtendedValid(s: State, policy: string, entry: PolicyTransition, hold: bool)
    requires Valid(s) && entry.number == |LogAt(s, policy)| + 1
    ensures Valid(Extended(s, policy, entry, hold))
  {
    ExtendedIndexed(s, policy, entry, hold);
    AppendFolded(s, policy, entry);
  }

  // ---- What a transition changes ------------------------------------------------------

  /** The intent as a stop leaves it. */
  ghost predicate HeldBy(policy: string, before: Intent, after: Intent) {
    && after == before.(blockers := after.blockers)
    && after.blockers.campaignPause == before.blockers.campaignPause && after.blockers.authorization == before.blockers.authorization
    && after.blockers.materializationPrereq == before.blockers.materializationPrereq
    && after.blockers.policyDisable == if before.origin == Automatic && before.autoRunPolicyID == policy && before.runID == ""
                                       then Blocked else before.blockers.policyDisable
  }

  /** An append adds its entry, under the next number, to the end of one log; with holds it sets
      POLICY_DISABLE to BLOCKED on exactly the policy's unassigned automatic intents. */
  lemma AppendChanges(s: State, policy: string, expected: nat, t: PolicyTransition, hold: bool, env: Env)
    requires Valid(s) && AppendPolicyTransition(s, policy, expected, t, hold, env).1.Ok?
    ensures var s' := AppendPolicyTransition(s, policy, expected, t, hold, env).0;
            && |LogAt(s, policy)| == expected
            && LogAt(s', policy) == LogAt(s, policy) + [PolicyTransition(expected + 1, t.kind, t.epoch, t.frontier)]
            && (forall other :: other != policy ==> LogAt(s', other) == LogAt(s, other))
            && s'.intents.Keys == s.intents.Keys
            && forall id :: id in s.intents ==> if hold then HeldBy(policy, s.intents[id], s'.intents[id])
                                                else s'.intents[id] == s.intents[id]
  {
    var s' := AppendPolicyTransition(s, policy, expected, t, hold, env).0;
    if hold {
      forall id | id in s.intents ensures HeldBy(policy, s.intents[id], s'.intents[id]) { UnassignedMeans(s, policy, id); }
    }
  }

  lemma UnassignedMeans(s: State, policy: string, id: ID)
    requires Valid(s) && id in s.intents
    ensures id in Unassigned(s, policy) <==>
            s.intents[id].origin == Automatic && s.intents[id].autoRunPolicyID == policy && s.intents[id].runID == ""
  {
    if s.intents[id].origin == Automatic { assert s.auto[KeyOf(s.intents[id])] == id; }
  }

  // ---- Stop membership ----------------------------------------------------------------

  /** A successful stop returns an exact snapshot: both lists are sorted, no intent is in
      both, and together they are all the policy's automatic intents at that write. */
  lemma StopMembershipExact(s: State, policy: string, expected: nat, t: PolicyTransition, env: Env)
    requires Valid(s)
    requires AppendPolicyTransition(s, policy, expected, t, true, env).1.Ok?
    ensures var (s', r) := AppendPolicyTransition(s, policy, expected, t, true, env);
            var m := r.value.members;
            && StrictlySorted(m.held) && StrictlySorted(m.attached)
            && (forall id :: !(id in m.held && id in m.attached))
            && (forall id :: id in m.held || id in m.attached <==>
                  id in s'.intents && s'.intents[id].origin == Automatic && s'.intents[id].autoRunPolicyID == policy)
            && AutomaticIDs(s', policy) == AutomaticIDs(s, policy)
  {
    var (s', r) := AppendPolicyTransition(s, policy, expected, t, true, env);
    ExtendedValid(s, policy, t.(number := expected + 1), true);
    forall id | id in s'.intents && s'.intents[id].origin == Automatic && s'.intents[id].autoRunPolicyID == policy
      ensures id in HeldIDs(s', policy) || id in AttachedIDs(s', policy)
    {
      var k := KeyOf(s'.intents[id]);
      assert k in s.auto && s.auto[k] == id;
      if s.intents[id].runID == "" { assert id in Unassigned(s, policy); }
    }
  }
}
