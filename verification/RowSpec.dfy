/** The durable intent store on values: one table of rows under a primary key and three
    partial unique indexes, and every call as a function on the table. */
module RowSpec {
  import opened Prelude
  import opened Intents
  import S = StoreSpec

  // ---- Rows ---------------------------------------------------------------------------

  /** One row; the epoch column is a signed 64-bit integer. */
  datatype Row = Row(id: ID, origin: Origin, policyID: string, policyRevision: string, operationID: string,
                     subject: string, pipelineID: string, revisionID: string, runID: RunID, epoch: int,
                     blockers: Blockers)

  type Table = set<Row>

  const MaxEpoch: nat := 0x7fff_ffff_ffff_ffff

  function Encode(intent: Intent): Row {
    Row(intent.id, intent.origin, intent.autoRunPolicyID, intent.autoRunPolicyRevision, intent.operationID, intent.subject,
        intent.pipelineRevision.pipelineID, intent.pipelineRevision.revisionID, intent.runID, intent.admissionEpoch, intent.blockers)
  }

  function Decode(row: Row): Result<Intent> {
    if row.epoch < 0 then Err(Integrity)
    else Ok(Intent(row.id, row.origin, row.policyID, row.policyRevision, row.operationID, row.subject,
                   RevisionRef(row.pipelineID, row.revisionID), row.runID, row.epoch, row.blockers))
  }

  lemma DecodeUndoes(intent: Intent)
    ensures Decode(Encode(intent)) == Ok(intent)
  {
  }

  // ---- Queries ------------------------------------------------------------------------

  predicate IsAuto(row: Row, policy: string, subject: string) {
    row.origin == Automatic && row.policyID == policy && row.subject == subject
  }

  predicate IsOperation(row: Row, op: string) { row.origin == Explicit && row.operationID == op }

  datatype Where = ByAuto(policy: string, subject: string) | ByOperation(op: string) | ByID(id: ID) | ByRunID(run: RunID)

  predicate Matches(row: Row, where: Where) {
    match where
    case ByAuto(policy, subject) => IsAuto(row, policy, subject)
    case ByOperation(op) => IsOperation(row, op)
    case ByID(id) => row.id == id
    case ByRunID(run) => row.runID == run
  }

  ghost predicate Unique(rows: Table, where: Where) {
    forall a, b :: a in rows && b in rows && Matches(a, where) && Matches(b, where) ==> a == b
  }

  /** The single row a query selects; None when there is none. */
  ghost function Find(rows: Table, where: Where): (r: Option<Row>)
    ensures r.Some? ==> r.value in rows && Matches(r.value, where)
    ensures r.None? ==> forall row :: row in rows ==> !Matches(row, where)
  {
    if exists row :: row in rows && Matches(row, where)
    then var row :| row in rows && Matches(row, where); Some(row)
    else None
  }

  /** The answer of a query: the decoded row it selected. */
  ghost function Query(rows: Table, where: Where): Result<Option<Intent>> {
    match Find(rows, where)
    case None => Ok(None)
    case Some(row) =>
      match Decode(row)
      case Err(code) => Err(code)
      case Ok(intent) => Ok(Some(intent))
  }

  // ---- Constraints --------------------------------------------------------------------

  /** Two rows that may not stand in the table together. */
  predicate Clash(a: Row, b: Row) {
    || a.id == b.id
    || (a.origin == Automatic && b.origin == Automatic && a.policyID == b.policyID && a.subject == b.subject)
    || (a.origin == Explicit && b.origin == Explicit && a.operationID == b.operationID)
    || (a.runID != "" && a.runID == b.runID)
  }

  ghost predicate Violates(rows: Table, row: Row) { exists other :: other in rows && Clash(other, row) }

  // ---- Calls --------------------------------------------------------------------------

  /** What the environment decides: as for the indexed store, which of the call's queries fail
      in the driver, counted in the order they are made, and whether the commit of the
      transaction fails. A transaction that cannot begin answers as a failed first query. */
  datatype Env = Env(memory: S.Env, unread: set<nat>, broken: bool)

  /** The n-th query of a call. */
  ghost function Read(rows: Table, where: Where, env: Env, n: nat): Result<Option<Intent>> {
    if n in env.unread then Err(Fault) else Query(rows, where)
  }

  ghost function Insert(rows: Table, draft: Intent, env: Env, staged: S.Step): (Table, Result<S.Created>) {
    if env.memory.id.None? || staged in env.memory.faults then (rows, Err(Fault))
    else
      var intent := draft.(id := env.memory.id.value);
      if intent.admissionEpoch > MaxEpoch then (rows, Err(InvalidContract))
      else if Violates(rows, Encode(intent)) || S.IntentStaged in env.memory.faults || env.broken then (rows, Err(Fault))
      else (rows + {Encode(intent)}, Ok(S.Created(intent, true)))
  }

  ghost function Create(rows: Table, draft: Intent, where: Where, env: Env, staged: S.Step): (Table, Result<S.Created>) {
    match Read(rows, where, env, 0)
    case Err(code) => (rows, Err(code))
    case Ok(Some(intent)) => (rows, if env.broken then Err(Fault) else Ok(S.Created(intent, false)))
    case Ok(None) => Insert(rows, draft, env, staged)
  }

  ghost function CreateAutomatic(rows: Table, draft: Intent, env: Env): (Table, Result<S.Created>) {
    Create(rows, draft, ByAuto(draft.autoRunPolicyID, draft.subject), env, S.IndexStaged)
  }

  ghost function CreateExplicit(rows: Table, draft: Intent, env: Env): (Table, Result<S.Created>) {
    if !S.ExplicitDraftOK(draft) then (rows, Err(InvalidContract))
    else Create(rows, draft, ByOperation(draft.operationID), env, S.LedgerStaged)
  }

  /** Rewrites every row with this id. */
  ghost function Updated(rows: Table, id: ID, intent: Intent): Table {
    (set row | row in rows && row.id != id) + {Encode(intent)}
  }

  ghost function AttachRunID(rows: Table, id: ID, run: RunID, env: Env): (Table, Result<Intent>) {
    match Read(rows, ByID(id), env, 0)
    case Err(code) => (rows, Err(code))
    case Ok(None) => (rows, Err(NotFound))
    case Ok(Some(intent)) =>
      if intent.runID == run then (rows, if env.broken then Err(Fault) else Ok(intent))
      else if intent.runID != "" then (rows, Err(RunIDConflict))
      else
        var owner := Read(rows, ByRunID(run), env, 1);
        if owner.Err? then (rows, Err(owner.code))
        else if owner.value.Some? then (rows, Err(RunIDConflict))
        else if S.RunIndexStaged in env.memory.faults || S.IntentStaged in env.memory.faults || env.broken then (rows, Err(Fault))
        else
          var out := intent.(runID := run);
          (Updated(rows, id, out), Ok(out))
  }

  ghost function UpdateBlocker(rows: Table, id: ID, owner: BlockerOwner, state: BlockerState, env: Env): (Table, Result<Intent>) {
    match Read(rows, ByID(id), env, 0)
    case Err(code) => (rows, Err(code))
    case Ok(None) => (rows, Err(NotFound))
    case Ok(Some(intent)) =>
      match intent.blockers.Slot(owner)
      case None => (rows, Err(InvalidTransition))
      case Some(current) =>
        if current == state then (rows, if env.broken then Err(Fault) else Ok(intent))
        else if S.BlockerStaged in env.memory.faults || env.broken then (rows, Err(Fault))
        else
          var out := intent.(blockers := intent.blockers.SetSlot(owner, state));
          (Updated(rows, id, out), Ok(out))
  }

  ghost function Get(rows: Table, id: ID, env: Env): Result<Intent> {
    match Read(rows, ByID(id), env, 0)
    case Err(code) => Err(code)
    case Ok(None) => Err(NotFound)
    case Ok(Some(intent)) => Ok(intent)
  }
}
