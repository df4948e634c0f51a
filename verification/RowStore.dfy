/** The durable intent store: each write is one transaction that stages its rows and makes
    them the table only when it commits. */
module RowStores {
  import opened Prelude
  import opened Intents
  import opened RowSpec
  import S = StoreSpec

  class SQLiteStore {
    var rows: Table

    /** What the primary key and the unique indexes guarantee about every query but the one
        for an empty RunID, which is never made. */
    ghost predicate Valid()
      reads this
    {
      forall a, b :: a in rows && b in rows && Clash(a, b) ==> a == b
    }

    constructor ()
      ensures Valid() && rows == {}
    {
      rows := {};
    }

    /** The row the n-th query of a call selects, whichever the database finds first. */
    method QueryIntent(tx: Table, where: Where, env: Env, n: nat) returns (r: Result<Option<Intent>>)
      requires Unique(tx, where)
      ensures r == Read(tx, where, env, n)
    {
      if n in env.unread { return Err(Fault); }
      if row :| row in tx && Matches(row, where) {
        assert Find(tx, where) == Some(row);
        var intent := Decode(row);
        if intent.Err? { return Err(intent.code); }
        return Ok(Some(intent.value));
      }
      r := Ok(None);
    }

    method LookupAutomatic(policy: string, subject: string, env: Env) returns (r: Result<Option<Intent>>)
      requires Valid()
      ensures r == Read(rows, ByAuto(policy, subject), env, 0)
    {
      r := QueryIntent(rows, ByAuto(policy, subject), env, 0);
    }

    method LookupExplicit(op: string, env: Env) returns (r: Result<Option<Intent>>)
      requires Valid()
      ensures r == Read(rows, ByOperation(op), env, 0)
    {
      r := QueryIntent(rows, ByOperation(op), env, 0);
    }

    /** INSERT under the epoch limit and the table's constraints. */
    method InsertIntent(tx: Table, intent: Intent) returns (r: Result<Table>)
      ensures r == if intent.admissionEpoch > MaxEpoch then Err(InvalidContract)
                   else if Violates(tx, Encode(intent)) then Err(Fault)
                   else Ok(tx + {Encode(intent)})
    {
      if intent.admissionEpoch > MaxEpoch { return Err(InvalidContract); }
      if other :| other in tx && Clash(other, Encode(intent)) { return Err(Fault); }
      r := Ok(tx + {Encode(intent)});
    }

    method CreateAutomatic(draft: Intent, env: Env) returns (r: Result<S.Created>)
      requires Valid()
      modifies this
      ensures Valid() && (rows, r) == RowSpec.CreateAutomatic(old(rows), draft, env)
    {
      var existing := QueryIntent(rows, ByAuto(draft.autoRunPolicyID, draft.subject), env, 0);
      if existing.Err? { return Err(existing.code); }
      if existing.value.Some? {
        if env.broken { return Err(Fault); }
        return Ok(S.Created(existing.value.value, false));
      }
      if env.memory.id.None? { return Err(Fault); }
      var intent := draft.(id := env.memory.id.value);
      if S.IndexStaged in env.memory.faults { return Err(Fault); }
      var tx := InsertIntent(rows, intent);
      if tx.Err? { return Err(tx.code); }
      if S.IntentStaged in env.memory.faults { return Err(Fault); }
      if env.broken { return Err(Fault); }
      rows := tx.value;
      r := Ok(S.Created(intent, true));
    }

    method CreateExplicit(draft: Intent, env: Env) returns (r: Result<S.Created>)
      requires Valid()
      modifies this
      ensures Valid() && (rows, r) == RowSpec.CreateExplicit(old(rows), draft, env)
    {
      if !S.ExplicitDraftOK(draft) { return Err(InvalidContract); }
      var existing := QueryIntent(rows, ByOperation(draft.operationID), env, 0);
      if existing.Err? { return Err(existing.code); }
      if existing.value.Some? {
        if env.broken { return Err(Fault); }
        return Ok(S.Created(existing.value.value, false));
      }
      if env.memory.id.None? { return Err(Fault); }
      var intent := draft.(id := env.memory.id.value);
      if S.LedgerStaged in env.memory.faults { return Err(Fault); }
      var tx := InsertIntent(rows, intent);
      if tx.Err? { return Err(tx.code); }
      if S.IntentStaged in env.memory.faults { return Err(Fault); }
      if env.broken { return Err(Fault); }
      rows := tx.value;
      r := Ok(S.Created(intent, true));
    }

    /** UPDATE of the rows with this id. */
    method UpdateRows(tx: Table, id: ID, intent: Intent) returns (next: Table)
      ensures next == Updated(tx, id, intent)
    {
      next := (set row | row in tx && row.id != id) + {Encode(intent)};
    }

    method AttachRunID(id: ID, run: RunID, env: Env) returns (r: Result<Intent>)
      requires Valid()
      modifies this
      ensures Valid() && (rows, r) == RowSpec.AttachRunID(old(rows), id, run, env)
    {
      var found := QueryIntent(rows, ByID(id), env, 0);
      if found.Err? { return Err(found.code); }
      if found.value.None? { return Err(NotFound); }
      var intent := found.value.value;
      if intent.runID == run {
        if env.broken { return Err(Fault); }
        return Ok(intent);
      }
      if intent.runID != "" { return Err(RunIDConflict); }
      var owner := QueryIntent(rows, ByRunID(run), env, 1);
      if owner.Err? { return Err(owner.code); }
      if owner.value.Some? { return Err(RunIDConflict); }
      if S.RunIndexStaged in env.memory.faults { return Err(Fault); }
      var tx := UpdateRows(rows, id, intent.(runID := run));
      if S.IntentStaged in env.memory.faults { return Err(Fault); }
      if env.broken { return Err(Fault); }
      rows := tx;
      r := Ok(intent.(runID := run));
    }

    method UpdateBlocker(id: ID, owner: BlockerOwner, state: BlockerState, env: Env) returns (r: Result<Intent>)
      requires Valid()
      modifies this
      ensures Valid() && (rows, r) == RowSpec.UpdateBlocker(old(rows), id, owner, state, env)
    {
      var found := QueryIntent(rows, ByID(id), env, 0);
      if found.Err? { return Err(found.code); }
      if found.value.None? { return Err(NotFound); }
      var intent := found.value.value;
      var slot := intent.blockers.Slot(owner);
      if slot.None? { return Err(InvalidTransition); }
      if slot.value == state {
        if env.broken { return Err(Fault); }
        return Ok(intent);
      }
      if S.BlockerStaged in env.memory.faults { return Err(Fault); }
      var out := intent.(blockers := intent.blockers.SetSlot(owner, state));
      var tx := UpdateRows(rows, id, out);
      if env.broken { return Err(Fault); }
      rows := tx;
      r := Ok(out);
    }

    method Get(id: ID, env: Env) returns (r: Result<Intent>)
      requires Valid()
      ensures r == RowSpec.Get(rows, id, env)
    {
      var found := QueryIntent(rows, ByID(id), env, 0);
      if found.Err? { return Err(found.code); }
      if found.value.None? { return Err(NotFound); }
      r := Ok(found.value.value);
    }
  }
}
