/** The three tables of the revision store and what one commit, a single transaction, may do
    to them. A transaction is one atomic step on the tables. */
module RevisionTables {
  import opened Prelude
  import opened Contracts
  import opened Digests

  // ---- Tables -------------------------------------------------------------------------

  datatype RevisionKey = RevisionKey(pipelineID: string, revisionID: string)

  datatype RevisionRow = RevisionRow(digest: string, semVersion: string, canonVersion: string, body: string)

  datatype OperationRow = OperationRow(pipelineID: string, revisionID: string, fingerprint: string)

  datatype DigestKey = DigestKey(pipelineID: string, canonVersion: string, digest: string)

  datatype Tables = Tables(revisions: map<RevisionKey, RevisionRow>, operations: map<string, OperationRow>,
                           digests: map<DigestKey, string>)

  const EmptyTables := Tables(map[], map[], map[])

  function WithOperation(t: Tables, operationID: string, row: OperationRow): Tables {
    Tables(t.revisions, t.operations[operationID := row], t.digests)
  }

  // ---- Reading a revision -------------------------------------------------------------

  function RowRevision(key: RevisionKey, row: RevisionRow, c: Contract): Revision {
    Revision(key.pipelineID, key.revisionID, row.digest, row.semVersion, row.canonVersion, row.body, Some(c))
  }

  /** The strict parser, kept as a parameter here. */
  type Parser = string -> Result<Contract>

  /** The loader: fails closed on any mismatch between the columns and the body. */
  function Load(sha: Hash, parse: Parser, t: Tables, key: RevisionKey): Result<Revision> {
    if key !in t.revisions then Err(NotFound)
    else
      var row := t.revisions[key];
      if row.canonVersion != ContractVersionV1 then Err(Integrity)
      else if DigestCanonical(sha, row.body) != row.digest then Err(Integrity)
      else match parse(row.body)
        case Err(_) => Err(Integrity)
        case Ok(c) =>
          if row.semVersion != c.semVersion || row.canonVersion != c.canonVersion then Err(Integrity)
          else Ok(RowRevision(key, row, c))
  }

  // ---- One commit ---------------------------------------------------------------------

  datatype Request = Request(operationID: string, pipelineID: string, body: string)

  datatype Committed = Committed(revision: Revision, created: bool)

  /** What a commit meets: the identifier drawn for a new revision, a fault at the injection
      point, and a durable commit that fails. */
  datatype Conditions = Conditions(freshID: string, injected: bool, broken: bool)

  function FingerprintOf(sha: Hash, req: Request, pre: Prepared): string {
    RequestFingerprint(sha, req.pipelineID, pre.digest)
  }

  function DigestKeyOf(req: Request, pre: Prepared): DigestKey {
    DigestKey(req.pipelineID, pre.contract.canonVersion, pre.digest)
  }

  function Minted(sha: Hash, t: Tables, req: Request, pre: Prepared, id: string): Tables {
    Tables(t.revisions[RevisionKey(req.pipelineID, id) :=
                         RevisionRow(pre.digest, pre.contract.semVersion, pre.contract.canonVersion, pre.canonical)],
           t.operations[req.operationID := OperationRow(req.pipelineID, id, FingerprintOf(sha, req, pre))],
           t.digests[DigestKeyOf(req, pre) := id])
  }

  function MintedRevision(req: Request, pre: Prepared, id: string): Revision {
    Revision(req.pipelineID, id, pre.digest, pre.contract.semVersion, pre.contract.canonVersion, pre.canonical,
             Some(pre.contract))
  }

  function Converged(sha: Hash, t: Tables, req: Request, pre: Prepared): Tables
    requires DigestKeyOf(req, pre) in t.digests
  {
    WithOperation(t, req.operationID, OperationRow(req.pipelineID, t.digests[DigestKeyOf(req, pre)], FingerprintOf(sha, req, pre)))
  }

  /** The same operation again: replayed if it is bound to the same identity. */
  ghost predicate ReplayStep(sha: Hash, parse: Parser, t: Tables, req: Request, pre: Prepared, env: Conditions,
                             t': Tables, r: Result<Committed>)
    requires req.operationID in t.operations
  {
    var row := t.operations[req.operationID];
    var loaded := Load(sha, parse, t, RevisionKey(req.pipelineID, row.revisionID));
    && t' == t
    && r == if row.fingerprint != FingerprintOf(sha, req, pre) then Err(OperationConflict)
            else if loaded.Err? then Err(loaded.code)
            else if env.broken then Err(Fault)
            else Ok(Committed(loaded.value, false))
  }

  /** A new operation on known content: recorded against the existing revision. */
  ghost predicate ConvergeStep(sha: Hash, parse: Parser, t: Tables, req: Request, pre: Prepared, env: Conditions,
                               t': Tables, r: Result<Committed>)
    requires DigestKeyOf(req, pre) in t.digests
  {
    var staged := Converged(sha, t, req, pre);
    var loaded := Load(sha, parse, staged, RevisionKey(req.pipelineID, t.digests[DigestKeyOf(req, pre)]));
    && r == (if loaded.Err? then Err(loaded.code)
             else if env.injected || env.broken then Err(Fault)
             else Ok(Committed(loaded.value, false)))
    && t' == if r.Ok? then staged else t
  }

  /** New content, accepted or not by validation as of now. A revision id that is taken in
      the pipeline violates the primary key. */
  ghost predicate MintStep(sha: Hash, t: Tables, req: Request, pre: Prepared, accepted: bool, env: Conditions,
                           t': Tables, r: Result<Committed>) {
    if accepted && RevisionKey(req.pipelineID, env.freshID) !in t.revisions && !env.injected && !env.broken then
      t' == Minted(sha, t, req, pre, env.freshID) && r == Ok(Committed(MintedRevision(req, pre, env.freshID), true))
    else t' == t && r.Err?
  }

  /** One commit, given what the request body prepares to and whether validation accepts it. */
  ghost predicate CommitStep(sha: Hash, parse: Parser, t: Tables, req: Request, prepared: Result<Prepared>, accepted: bool,
                             env: Conditions, t': Tables, r: Result<Committed>) {
    if req.operationID == "" || req.pipelineID == "" then t' == t && r == Err(Fault)
    else match prepared
      case Err(code) => t' == t && r == Err(code)
      case Ok(pre) =>
        if req.operationID in t.operations then ReplayStep(sha, parse, t, req, pre, env, t', r)
        else if DigestKeyOf(req, pre) in t.digests then ConvergeStep(sha, parse, t, req, pre, env, t', r)
        else MintStep(sha, t, req, pre, accepted, env, t', r)
  }
}
