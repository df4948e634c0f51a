/** The revision store: commit as one transaction over the three tables, and the exact read
    of a revision. */
module Revisions {
  import opened Prelude
  import opened Contracts
  import opened Canonical
  import opened Digests
  import opened Validation
  import opened Preparation
  import opened RevisionTables

  // ---- The store ----------------------------------------------------------------------

  class RevisionStore {
    const sha: Hash
    var revisions: map<RevisionKey, RevisionRow>
    var operations: map<string, OperationRow>
    var digests: map<DigestKey, string>

    function Rows(): Tables
      reads this
    {
      Tables(revisions, operations, digests)
    }

    constructor (sha: Hash)
      ensures this.sha == sha && Rows() == EmptyTables
    {
      this.sha := sha;
      revisions, operations, digests := map[], map[], map[];
    }

    /** The durable commit boundary: the staged rows become the rows. */
    method Settle(tx: Tables)
      modifies this
      ensures Rows() == tx
    {
      revisions, operations, digests := tx.revisions, tx.operations, tx.digests;
    }

    method GetRevision(pipelineID: string, revisionID: string) returns (r: Result<Revision>)
      ensures r == Load(sha, Parse, Rows(), RevisionKey(pipelineID, revisionID))
    {
      r := LoadRevision(Rows(), RevisionKey(pipelineID, revisionID));
    }

    /** Reads a revision from the rows a transaction sees. */
    method LoadRevision(tx: Tables, key: RevisionKey) returns (r: Result<Revision>)
      ensures r == Load(sha, Parse, tx, key)
    {
      if key !in tx.revisions { return Err(NotFound); }
      var row := tx.revisions[key];
      if row.canonVersion != ContractVersionV1 { return Err(Integrity); }
      if DigestCanonical(sha, row.body) != row.digest { return Err(Integrity); }
      var c := ParseBody(row.body);
      if c.Err? { return Err(Integrity); }
      if row.semVersion != c.value.semVersion { return Err(Integrity); }
      if row.canonVersion != c.value.canonVersion { return Err(Integrity); }
      r := Ok(RowRevision(key, row, c.value));
    }

    method Replay(req: Request, pre: Prepared, env: Conditions) returns (r: Result<Committed>)
      requires req.operationID in operations
      ensures ReplayStep(sha, Parse, Rows(), req, pre, env, Rows(), r)
    {
      var row := operations[req.operationID];
      if row.fingerprint != FingerprintOf(sha, req, pre) { return Err(OperationConflict); }
      var loaded := LoadRevision(Rows(), RevisionKey(req.pipelineID, row.revisionID));
      if loaded.Err? { return Err(loaded.code); }
      if env.broken { return Err(Fault); }
      r := Ok(Committed(loaded.value, false));
    }

    method Converge(req: Request, pre: Prepared, env: Conditions) returns (r: Result<Committed>)
      requires DigestKeyOf(req, pre) in digests
      modifies this
      ensures ConvergeStep(sha, Parse, old(Rows()), req, pre, env, Rows(), r)
    {
      var revisionID := digests[DigestKeyOf(req, pre)];
      var tx := WithOperation(Rows(), req.operationID, OperationRow(req.pipelineID, revisionID, FingerprintOf(sha, req, pre)));
      var loaded := LoadRevision(tx, RevisionKey(req.pipelineID, revisionID));
      if loaded.Err? { return Err(loaded.code); }
      if env.injected { return Err(Fault); }
      if env.broken { return Err(Fault); }
      Settle(tx);
      r := Ok(Committed(loaded.value, false));
    }

    method Mint(req: Request, ghost pre: Prepared, res: Resolvers, env: Conditions) returns (r: Result<Committed>)
      requires Identity(sha, req.body) == Ok(pre)
      modifies this
      ensures MintStep(sha, old(Rows()), req, pre, AcceptedBody(req.body, res), env, Rows(), r)
      ensures r.Err? ==> if AcceptedBody(req.body, res) then r.code == Fault
                         else Reports(Parse(req.body).value, res, r.code)
    {
      var prepared := Prepare(sha, req.body, res);
      if prepared.Err? { return Err(prepared.code); }
      var prep := prepared.value;
      var key := RevisionKey(req.pipelineID, env.freshID);
      if key in revisions { return Err(Fault); }
      var tx := Rows();
      tx := tx.(revisions := tx.revisions[key := RevisionRow(prep.digest, prep.contract.semVersion,
                                                             prep.contract.canonVersion, prep.canonical)]);
      tx := WithOperation(tx, req.operationID, OperationRow(req.pipelineID, env.freshID, FingerprintOf(sha, req, prep)));
      tx := tx.(digests := tx.digests[DigestKeyOf(req, prep) := env.freshID]);
      if env.injected { return Err(Fault); }
      if env.broken { return Err(Fault); }
      Settle(tx);
      r := Ok(Committed(MintedRevision(req, prep, env.freshID), true));
    }

    /** Commits a request under the resolvers as they answer now. */
    method Commit(req: Request, res: Resolvers, env: Conditions) returns (r: Result<Committed>)
      modifies this
      ensures CommitStep(sha, Parse, old(Rows()), req, Identity(sha, req.body), AcceptedBody(req.body, res), env, Rows(), r)
    {
      if req.operationID == "" { return Err(Fault); }
      if req.pipelineID == "" { return Err(Fault); }
      var pre := PrepareUnvalidated(sha, req.body);
      if pre.Err? { return Err(pre.code); }
      if req.operationID in operations {
        r := Replay(req, pre.value, env);
      } else if DigestKeyOf(req, pre.value) in digests {
        r := Converge(req, pre.value, env);
      } else {
        r := Mint(req, pre.value, res, env);
      }
    }
  }
}
