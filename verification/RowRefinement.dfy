/** The durable row store refines the indexed store: from related states every call gives the
    same answer and leaves related states, over any list of calls. */
module RowRefinement {
  import opened Prelude
  import opened Intents
  import opened RowSpec
  import S = StoreSpec

  // ---- The relation -------------------------------------------------------------------

  ghost function RowsOf(s: S.State): Table { set id | id in s.intents :: Encode(s.intents[id]) }

  /** The table holds exactly the intents, each as one row with an epoch the column can hold. */
  ghost predicate Holds(rows: Table, s: S.State) {
    rows == RowsOf(s) && forall id :: id in s.intents ==> s.intents[id].admissionEpoch <= MaxEpoch
  }

  ghost predicate Represents(rows: Table, s: S.State) { S.Valid(s) && Holds(rows, s) }

  /** An answer up to the class of an identifier collision, which the row store reports as
      an unclassified constraint failure. */
  function Unclassified<T>(r: Result<T>): Result<T> {
    if r == Err(Duplicate) then Err(Fault) else r
  }

  lemma RowOfIntent(rows: Table, s: S.State, row: Row)
    requires Holds(rows, s) && S.Identified(s)
    ensures row in rows <==> row.id in s.intents && row == Encode(s.intents[row.id])
  {
  }

  lemma FindsAuto(rows: Table, s: S.State, policy: string, subject: string)
    requires Holds(rows, s) && S.Identified(s) && S.AutoIndexed(s)
    ensures Query(rows, ByAuto(policy, subject)) == Ok(S.LookupAutomatic(s, policy, subject))
  {
    var k := S.AutoKey(policy, subject);
    var where := ByAuto(policy, subject);
    if k in s.auto {
      var id := s.auto[k];
      RowOfIntent(rows, s, Encode(s.intents[id]));
      assert Matches(Encode(s.intents[id]), where);
      var row := Find(rows, where).value;
      RowOfIntent(rows, s, row);
      assert S.KeyOf(s.intents[row.id]) == k;
      DecodeUndoes(s.intents[id]);
    } else if Find(rows, where).Some? {
      RowOfIntent(rows, s, Find(rows, where).value);
    }
  }

  lemma FindsOperation(rows: Table, s: S.State, op: string)
    requires Holds(rows, s) && S.Identified(s) && S.OpsIndexed(s)
    ensures Query(rows, ByOperation(op)) == Ok(S.LookupExplicit(s, op))
  {
    var where := ByOperation(op);
    if op in s.ops {
      var id := s.ops[op];
      RowOfIntent(rows, s, Encode(s.intents[id]));
      assert Matches(Encode(s.intents[id]), where);
      var row := Find(rows, where).value;
      RowOfIntent(rows, s, row);
      DecodeUndoes(s.intents[id]);
    } else if Find(rows, where).Some? {
      RowOfIntent(rows, s, Find(rows, where).value);
    }
  }

  lemma FindsID(rows: Table, s: S.State, id: ID)
    requires Holds(rows, s) && S.Identified(s)
    ensures Query(rows, ByID(id)) == Ok(if id in s.intents then Some(s.intents[id]) else None)
  {
    if id in s.intents {
      RowOfIntent(rows, s, Encode(s.intents[id]));
      assert Matches(Encode(s.intents[id]), ByID(id));
      RowOfIntent(rows, s, Find(rows, ByID(id)).value);
      DecodeUndoes(s.intents[id]);
    } else if Find(rows, ByID(id)).Some? {
      RowOfIntent(rows, s, Find(rows, ByID(id)).value);
    }
  }

  lemma FindsRun(rows: Table, s: S.State, run: RunID)
    requires Holds(rows, s) && S.Identified(s) && S.RunsIndexed(s) && run != ""
    ensures Query(rows, ByRunID(run)).Ok?
    ensures Query(rows, ByRunID(run)).value.Some? <==> run in s.runs
  {
    if run in s.runs {
      RowOfIntent(rows, s, Encode(s.intents[s.runs[run]]));
      assert Matches(Encode(s.intents[s.runs[run]]), ByRunID(run));
    }
    if Find(rows, ByRunID(run)).Some? { RowOfIntent(rows, s, Find(rows, ByRunID(run)).value); }
  }

  /** A new intent clashes with a row exactly if its identifier is taken. */
  lemma OnlyIDsClash(rows: Table, s: S.State, intent: Intent)
    requires Holds(rows, s) && S.Identified(s) && S.AutoIndexed(s) && S.OpsIndexed(s) && intent.runID == ""
    requires intent.origin == Automatic ==> S.KeyOf(intent) !in s.auto
    requires intent.origin == Explicit ==> intent.operationID !in s.ops
    ensures Violates(rows, Encode(intent)) <==> intent.id in s.intents
  {
    if intent.id in s.intents {
      RowOfIntent(rows, s, Encode(s.intents[intent.id]));
      assert Clash(Encode(s.intents[intent.id]), Encode(intent));
    }
    if Violates(rows, Encode(intent)) {
      var other :| other in rows && Clash(other, Encode(intent));
      RowOfIntent(rows, s, other);
      var stored := s.intents[other.id];
      assert stored.origin == Automatic ==> S.KeyOf(stored) in s.auto;
      assert stored.origin == Explicit ==> stored.operationID in s.ops;
    }
  }

  lemma InsertHolds(rows: Table, s: S.State, s': S.State, intent: Intent)
    requires Holds(rows, s) && intent.id !in s.intents && s'.intents == s.intents[intent.id := intent]
    requires intent.admissionEpoch <= MaxEpoch
    ensures Holds(rows + {Encode(intent)}, s')
  {
    assert RowsOf(s') == RowsOf(s) + {Encode(intent)} by {
      forall id | id in s.intents ensures Encode(s.intents[id]) in RowsOf(s') { assert s'.intents[id] == s.intents[id]; }
      assert s'.intents[intent.id] == intent;
    }
  }

  lemma UpdateHolds(rows: Table, s: S.State, s': S.State, id: ID, intent: Intent)
    requires Holds(rows, s) && S.Identified(s) && id in s.intents && s'.intents == s.intents[id := intent]
    requires intent.admissionEpoch == s.intents[id].admissionEpoch && intent.id == id
    ensures Holds(Updated(rows, id, intent), s')
  {
    forall row ensures row in Updated(rows, id, intent) <==> row in RowsOf(s') {
      RowOfIntent(rows, s, row);
      if row in RowsOf(s') { var k :| k in s'.intents && row == Encode(s'.intents[k]); }
      if row in Updated(rows, id, intent) && row.id != id { assert s'.intents[row.id] == s.intents[row.id]; }
      assert s'.intents[id] == intent;
    }
  }

  /** Every column holds the field it is named after, and a row reads back as its intent unless
      its epoch is negative. */
  lemma ColumnsHold(intent: Intent, row: Row)
    ensures var r := Encode(intent);
            && r.id == intent.id && r.origin == intent.origin && r.operationID == intent.operationID && r.subject == intent.subject
            && r.policyID == intent.autoRunPolicyID && r.policyRevision == intent.autoRunPolicyRevision
            && r.pipelineID == intent.pipelineRevision.pipelineID && r.revisionID == intent.pipelineRevision.revisionID
            && r.runID == intent.runID && r.epoch == intent.admissionEpoch && r.blockers == intent.blockers
    ensures Decode(row) == Err(Integrity) <==> row.epoch < 0
    ensures row.epoch >= 0 ==> Decode(row).Ok? && Encode(Decode(row).value) == row
  {
  }

  // ---- Call by call -------------------------------------------------------------------

  /** The driver does what it is asked. */
  predicate Sound(env: Env) { env.unread == {} && !env.broken }

  lemma CreateAutomaticRefines(rows: Table, s: S.State, draft: Intent, env: Env)
    requires Holds(rows, s) && S.Identified(s) && S.AutoIndexed(s) && S.OpsIndexed(s)
    requires S.FreshAutomatic(draft) && draft.admissionEpoch <= MaxEpoch && Sound(env)
    ensures var (rows', r) := CreateAutomatic(rows, draft, env);
            var (s', m) := S.CreateAutomatic(s, draft, env.memory);
            Holds(rows', s') && r == Unclassified(m)
  {
    FindsAuto(rows, s, draft.autoRunPolicyID, draft.subject);
    if S.KeyOf(draft) !in s.auto && env.memory.id.Some? {
      var intent := draft.(id := env.memory.id.value);
      OnlyIDsClash(rows, s, intent);
      var (s', m) := S.CreateAutomatic(s, draft, env.memory);
      if m.Ok? { InsertHolds(rows, s, s', intent); }
    }
  }

  lemma CreateExplicitRefines(rows: Table, s: S.State, draft: Intent, env: Env)
    requires Holds(rows, s) && S.Identified(s) && S.AutoIndexed(s) && S.OpsIndexed(s) && Sound(env)
    ensures var (rows', r) := CreateExplicit(rows, draft, env);
            var (s', m) := S.CreateExplicit(s, draft, env.memory);
            Holds(rows', s') && r == Unclassified(m)
  {
    FindsOperation(rows, s, draft.operationID);
    if S.ExplicitDraftOK(draft) && draft.operationID !in s.ops && env.memory.id.Some? {
      var intent := draft.(id := env.memory.id.value);
      OnlyIDsClash(rows, s, intent);
      var (s', m) := S.CreateExplicit(s, draft, env.memory);
      if m.Ok? { InsertHolds(rows, s, s', intent); }
    }
  }

  lemma AttachRunIDRefines(rows: Table, s: S.State, id: ID, run: RunID, env: Env)
    requires Holds(rows, s) && S.Identified(s) && S.RunsIndexed(s) && Sound(env)
    ensures var (rows', r) := AttachRunID(rows, id, run, env);
            var (s', m) := S.AttachRunID(s, id, run, env.memory);
            Holds(rows', s') && r == m
  {
    FindsID(rows, s, id);
    if run != "" { FindsRun(rows, s, run); }
    var (s', m) := S.AttachRunID(s, id, run, env.memory);
    if s' != s { UpdateHolds(rows, s, s', id, m.value); }
  }

  lemma UpdateBlockerRefines(rows: Table, s: S.State, id: ID, owner: BlockerOwner, state: BlockerState, env: Env)
    requires Holds(rows, s) && S.Identified(s) && Sound(env)
    ensures var (rows', r) := UpdateBlocker(rows, id, owner, state, env);
            var (s', m) := S.UpdateBlocker(s, id, owner, state, env.memory);
            Holds(rows', s') && r == m
  {
    FindsID(rows, s, id);
    if id in s.intents && s.intents[id].blockers.Slot(owner).Some? {
      var out := s.intents[id].(blockers := s.intents[id].blockers.SetSlot(owner, state));
      UpdateHolds(rows, s, s.(intents := s.intents[id := out]), id, out);
    }
  }

  // ---- Calls in general ---------------------------------------------------------------

  datatype Call =
    | CallCreateAutomatic(draft: Intent)
    | CallCreateExplicit(draft: Intent)
    | CallAttachRunID(id: ID, run: RunID)
    | CallUpdateBlocker(id: ID, owner: BlockerOwner, state: BlockerState)
    | CallGet(id: ID)
    | CallLookupAutomatic(policy: string, subject: string)
    | CallLookupExplicit(op: string)

  datatype Answer = Made(created: Result<S.Created>) | Held(intent: Result<Intent>) | Found(lookup: Result<Option<Intent>>)

  ghost function OnRows(rows: Table, call: Call, env: Env): (Table, Answer) {
    match call
    case CallCreateAutomatic(draft) => var (t, r) := CreateAutomatic(rows, draft, env); (t, Made(r))
    case CallCreateExplicit(draft) => var (t, r) := CreateExplicit(rows, draft, env); (t, Made(r))
    case CallAttachRunID(id, run) => var (t, r) := AttachRunID(rows, id, run, env); (t, Held(r))
    case CallUpdateBlocker(id, owner, state) => var (t, r) := UpdateBlocker(rows, id, owner, state, env); (t, Held(r))
    case CallGet(id) => (rows, Held(Get(rows, id, env)))
    case CallLookupAutomatic(policy, subject) => (rows, Found(Read(rows, ByAuto(policy, subject), env, 0)))
    case CallLookupExplicit(op) => (rows, Found(Read(rows, ByOperation(op), env, 0)))
  }

  function OnIndexes(s: S.State, call: Call, env: S.Env): (S.State, Answer) {
    match call
    case CallCreateAutomatic(draft) => var (t, r) := S.CreateAutomatic(s, draft, env); (t, Made(r))
    case CallCreateExplicit(draft) => var (t, r) := S.CreateExplicit(s, draft, env); (t, Made(r))
    case CallAttachRunID(id, run) => var (t, r) := S.AttachRunID(s, id, run, env); (t, Held(r))
    case CallUpdateBlocker(id, owner, state) => var (t, r) := S.UpdateBlocker(s, id, owner, state, env); (t, Held(r))
    case CallGet(id) => (s, Held(S.Get(s, id)))
    case CallLookupAutomatic(policy, subject) => (s, Found(Ok(S.LookupAutomatic(s, policy, subject))))
    case CallLookupExplicit(op) => (s, Found(Ok(S.LookupExplicit(s, op))))
  }

  function Expected(a: Answer): Answer {
    match a
    case Made(r) => Made(Unclassified(r))
    case Held(_) => a
    case Found(_) => a
  }

  /** Raw automatic creates take the Service's drafts, with an epoch the column can hold. */
  ghost predicate Proper(call: Call) {
    call.CallCreateAutomatic? ==> S.FreshAutomatic(call.draft) && call.draft.admissionEpoch <= MaxEpoch
  }

  lemma CallKeepsValid(s: S.State, call: Call, env: S.Env)
    requires S.Valid(s) && (call.CallCreateAutomatic? ==> S.FreshAutomatic(call.draft))
    ensures S.Valid(OnIndexes(s, call, env).0)
  {
    match call
    case CallCreateAutomatic(draft) => S.CreateAutomaticValid(s, draft, env);
    case CallCreateExplicit(draft) => S.CreateExplicitValid(s, draft, env);
    case CallAttachRunID(id, run) => S.AttachRunIDValid(s, id, run, env);
    case CallUpdateBlocker(id, owner, state) => S.UpdateBlockerValid(s, id, owner, state, env);
    case CallGet(_) =>
    case CallLookupAutomatic(_, _) =>
    case CallLookupExplicit(_) =>
  }

  /** One call from related states: the same answer, and tables that stay related. */
  lemma CallRefines(rows: Table, s: S.State, call: Call, env: Env)
    requires Represents(rows, s) && Proper(call) && Sound(env)
    ensures var (rows', a) := OnRows(rows, call, env);
            var (s', b) := OnIndexes(s, call, env.memory);
            Holds(rows', s') && a == Expected(b)
  {
    match call
    case CallCreateAutomatic(draft) => CreateAutomaticRefines(rows, s, draft, env);
    case CallCreateExplicit(draft) => CreateExplicitRefines(rows, s, draft, env);
    case CallAttachRunID(id, run) => AttachRunIDRefines(rows, s, id, run, env);
    case CallUpdateBlocker(id, owner, state) => UpdateBlockerRefines(rows, s, id, owner, state, env);
    case CallGet(id) => FindsID(rows, s, id);
    case CallLookupAutomatic(policy, subject) => FindsAuto(rows, s, policy, subject);
    case CallLookupExplicit(op) => FindsOperation(rows, s, op);
  }

  predicate Failed(a: Answer) {
    match a
    case Made(r) => r.Err?
    case Held(r) => r.Err?
    case Found(r) => r.Err?
  }

  /** A call that fails, whatever the reason, changes nothing, and a transaction that does
      not commit always fails. */
  lemma FailureKeepsRows(rows: Table, call: Call, env: Env)
    ensures Failed(OnRows(rows, call, env).1) ==> OnRows(rows, call, env).0 == rows
    ensures env.broken ==> OnRows(rows, call, env).0 == rows
  {
  }

  // ---- Transactions that do not commit ------------------------------------------------

  predicate Writes(call: Call) { !call.CallGet? && !call.CallLookupAutomatic? && !call.CallLookupExplicit? }

  /** The answer of a write whose commit failed: what would have succeeded fails without an
      error class, and what fails anyway fails as it would. */
  function Uncommitted(a: Answer): Answer {
    match a
    case Made(r) => Made(if r.Ok? then Err(Fault) else r)
    case Held(r) => Held(if r.Ok? then Err(Fault) else r)
    case Found(_) => a
  }

  lemma BrokenRows(rows: Table, call: Call, env: Env)
    requires env.broken
    ensures OnRows(rows, call, env)
            == if Writes(call) then (rows, Uncommitted(OnRows(rows, call, env.(broken := false)).1))
               else OnRows(rows, call, env.(broken := false))
  {
  }

  // ---- Queries that fail in the driver ------------------------------------------------

  /** The call comes to a query that fails. */
  predicate Unread(s: S.State, call: Call, env: Env) {
    || (0 in env.unread && !(call.CallCreateExplicit? && !S.ExplicitDraftOK(call.draft)))
    || (1 in env.unread && call.CallAttachRunID? && call.id in s.intents && s.intents[call.id].runID == "" && call.run != "")
  }

  function UnreadAnswer(call: Call): Answer {
    match call
    case CallCreateAutomatic(_) => Made(Err(Fault))
    case CallCreateExplicit(_) => Made(Err(Fault))
    case CallLookupAutomatic(_, _) => Found(Err(Fault))
    case CallLookupExplicit(_) => Found(Err(Fault))
    case _ => Held(Err(Fault))
  }

  lemma UnreadRows(rows: Table, s: S.State, call: Call, env: Env)
    requires Holds(rows, s) && S.Identified(s)
    ensures OnRows(rows, call, env)
            == if Unread(s, call, env) then (rows, UnreadAnswer(call)) else OnRows(rows, call, env.(unread := {}))
  {
    if call.CallAttachRunID? { FindsID(rows, s, call.id); }
  }

  // ---- Whole runs ---------------------------------------------------------------------

  datatype Event = Event(call: Call, env: Env)

  ghost function RunRows(rows: Table, events: seq<Event>): (Table, seq<Answer>)
    decreases |events|
  {
    if events == [] then (rows, [])
    else
      var (t, a) := OnRows(rows, events[0].call, events[0].env);
      var (end, rest) := RunRows(t, events[1..]);
      (end, [a] + rest)
  }

  /** One event on the indexed store: a call that cannot read, and a write whose commit fails,
      are skipped. */
  function IndexStep(s: S.State, e: Event): (S.State, Answer) {
    var (t, a) := OnIndexes(s, e.call, e.env.memory);
    if Unread(s, e.call, e.env) then (s, UnreadAnswer(e.call))
    else if e.env.broken && Writes(e.call) then (s, Uncommitted(Expected(a))) else (t, Expected(a))
  }

  function RunIndexes(s: S.State, events: seq<Event>): (S.State, seq<Answer>)
    decreases |events|
  {
    if events == [] then (s, [])
    else
      var (t, a) := IndexStep(s, events[0]);
      var (end, rest) := RunIndexes(t, events[1..]);
      (end, [a] + rest)
  }

  lemma EventRefines(rows: Table, s: S.State, e: Event)
    requires Represents(rows, s) && Proper(e.call)
    ensures var (rows', a) := OnRows(rows, e.call, e.env);
            var (s', b) := IndexStep(s, e);
            S.Valid(s') && Holds(rows', s') && a == b
  {
    var read := e.env.(unread := {});
    CallKeepsValid(s, e.call, e.env.memory);
    UnreadRows(rows, s, e.call, e.env);
    if e.env.broken { BrokenRows(rows, e.call, read); }
    CallRefines(rows, s, e.call, read.(broken := false));
  }

  /** Any list of calls gives the same answers on both stores, in the same order, and ends
      in related states, whichever queries fail and whichever transactions fail to commit. */
  lemma {:induction false} RunRefines(rows: Table, s: S.State, events: seq<Event>)
    requires Represents(rows, s)
    requires forall e :: e in events ==> Proper(e.call)
    ensures RunRows(rows, events).1 == RunIndexes(s, events).1
    ensures Represents(RunRows(rows, events).0, RunIndexes(s, events).0)
    decreases |events|
  {
    if events != [] {
      EventRefines(rows, s, events[0]);
      RunRefines(OnRows(rows, events[0].call, events[0].env).0, IndexStep(s, events[0]).0, events[1..]);
    }
  }

  /** In particular the two stores agree from their creation on. */
  lemma StoresAgree(events: seq<Event>)
    requires forall e :: e in events ==> Proper(e.call)
    ensures RunRows({}, events).1 == RunIndexes(S.Empty, events).1
    ensures Represents(RunRows({}, events).0, RunIndexes(S.Empty, events).0)
  {
    RunRefines({}, S.Empty, events);
  }

  // ---- Where the two stores differ ----------------------------------------------------

  /** On a draft whose epoch is beyond the column the stores agree exactly if the intent was
      recorded before, or the attempt fails before the row is written. */
  lemma EpochLimitExact(rows: Table, s: S.State, draft: Intent, env: Env)
    requires Represents(rows, s) && S.FreshAutomatic(draft) && draft.admissionEpoch > MaxEpoch && Sound(env)
    ensures CreateAutomatic(rows, draft, env).0 == rows
    ensures CreateAutomatic(rows, draft, env).1 == Unclassified(S.CreateAutomatic(s, draft, env.memory).1) <==>
            S.KeyOf(draft) in s.auto || env.memory.id.None? || S.IndexStaged in env.memory.faults
  {
    FindsAuto(rows, s, draft.autoRunPolicyID, draft.subject);
  }
}
