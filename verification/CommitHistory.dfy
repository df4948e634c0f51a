/** What a history of commits shows its callers, in terms of the requests, the rows and the
    returned revisions alone. */
module CommitHistory {
  import opened Prelude
  import opened Contracts
  import opened Canonical
  import opened Digests
  import opened Validation
  import opened Preparation
  import opened RevisionTables
  import opened RevisionSafety
  import opened RevisionTheorems

  /** The row a successful call names. */
  function KeyOf(c: Call): RevisionKey
    requires c.result.Ok?
  {
    RevisionKey(c.req.pipelineID, c.result.value.revision.revisionID)
  }

  // ---- One commit ---------------------------------------------------------------------

  /** The pipeline has a revision with this canonical text. */
  ghost predicate Known(t: Tables, pipelineID: string, text: string) {
    exists key :: key in t.revisions && key.pipelineID == pipelineID && t.revisions[key].body == text
  }

  lemma KnownMeans(sha: Hash, parse: Parser, t: Tables, req: Request, pre: Prepared, accepted: bool)
    requires HashLike(sha) && Consistent(sha, parse, t) && Faithful(sha, parse, pre, accepted)
    ensures DigestKeyOf(req, pre) in t.digests <==> Known(t, req.pipelineID, pre.canonical)
  {
    if DigestKeyOf(req, pre) in t.digests {
      var key := RevisionKey(req.pipelineID, t.digests[DigestKeyOf(req, pre)]);
      assert IndexKey(key, t.revisions[key]) == DigestKeyOf(req, pre) && RowOK(sha, parse, t.revisions[key]);
      DigestInjective(sha, t.revisions[key].body, pre.canonical);
    }
    if key :| key in t.revisions && key.pipelineID == req.pipelineID && t.revisions[key].body == pre.canonical {
      assert RowOK(sha, parse, t.revisions[key]) && IndexKey(key, t.revisions[key]) in t.digests;
    }
  }

  /** The operation is bound to this pipeline and canonical text. */
  ghost predicate BoundHere(t: Tables, req: Request, text: string) {
    && req.operationID in t.operations && t.operations[req.operationID].pipelineID == req.pipelineID
    && var key := RevisionKey(req.pipelineID, t.operations[req.operationID].revisionID);
    key in t.revisions && t.revisions[key].body == text
  }

  /** When a commit succeeds: a known operation repeats its own content; a new one brings known
      content, or content that is accepted under a free identifier. */
  ghost predicate Succeeds(t: Tables, req: Request, text: string, accepted: bool, env: Conditions) {
    && !env.broken
    && if req.operationID in t.operations then BoundHere(t, req, text)
       else !env.injected && (Known(t, req.pipelineID, text)
                              || (accepted && RevisionKey(req.pipelineID, env.freshID) !in t.revisions))
  }

  lemma StepSucceeds(sha: Hash, parse: Parser, t: Tables, req: Request, pre: Prepared, accepted: bool,
                     env: Conditions, t': Tables, r: Result<Committed>)
    requires HashLike(sha) && Consistent(sha, parse, t) && Faithful(sha, parse, pre, accepted)
    requires CommitStep(sha, parse, t, req, Ok(pre), accepted, env, t', r) && req.operationID != "" && req.pipelineID != ""
    ensures r.Ok? <==> Succeeds(t, req, pre.canonical, accepted, env)
    ensures r.Err? ==> t' == t
  {
    KnownMeans(sha, parse, t, req, pre, accepted);
    if req.operationID in t.operations {
      ConflictExact(sha, parse, t, req, pre, accepted, env, t', r);
    } else {
      SucceedsExactly(sha, parse, t, req, pre, accepted, env, t', r);
    }
  }

  lemma StepCreates(sha: Hash, parse: Parser, t: Tables, req: Request, pre: Prepared, accepted: bool,
                    env: Conditions, t': Tables, r: Result<Committed>)
    requires HashLike(sha) && Consistent(sha, parse, t) && Faithful(sha, parse, pre, accepted)
    requires CommitStep(sha, parse, t, req, Ok(pre), accepted, env, t', r) && r.Ok?
    ensures r.value.created <==> RevisionKey(req.pipelineID, r.value.revision.revisionID) !in t.revisions
    ensures r.value.created ==> r.value.revision.revisionID == env.freshID
  {
  }

  lemma StepAdds(sha: Hash, parse: Parser, t: Tables, req: Request, pre: Prepared, accepted: bool,
                 env: Conditions, t': Tables, r: Result<Committed>)
    requires Consistent(sha, parse, t) && CommitStep(sha, parse, t, req, Ok(pre), accepted, env, t', r) && r.Ok?
    ensures t'.revisions.Keys == t.revisions.Keys + {RevisionKey(req.pipelineID, r.value.revision.revisionID)}
    ensures t'.operations.Keys == t.operations.Keys + {req.operationID}
  {
    if req.operationID in t.operations {
      assert RevisionKey(req.pipelineID, r.value.revision.revisionID) in t.revisions;
    } else if DigestKeyOf(req, pre) in t.digests {
      assert t' == Converged(sha, t, req, pre);
    } else {
      assert t' == Minted(sha, t, req, pre, env.freshID);
    }
  }

  // ---- Histories ----------------------------------------------------------------------

  lemma CallPrepared(sha: Hash, calls: seq<Call>, states: seq<Tables>, j: nat)
    requires History(sha, calls, states) && j < |calls| && Identity(sha, calls[j].req.body).Ok?
    ensures Consistent(sha, Parse, states[j])
    ensures Faithful(sha, Parse, Identity(sha, calls[j].req.body).value, AcceptedBody(calls[j].req.body, calls[j].res))
    ensures CallStep(sha, states[j], calls[j], states[j+1])
  {
    TablesAgree(sha, calls, states, j, j);
    PreparedIsFaithful(sha, calls[j].req.body, calls[j].res);
  }

  /** A successful call says it created the revision exactly if there was no such revision
      before it, and then under the identifier drawn for it. */
  lemma CreatedExactly(sha: Hash, calls: seq<Call>, states: seq<Tables>, j: nat)
    requires HashLike(sha) && History(sha, calls, states) && j < |calls| && calls[j].result.Ok?
    ensures calls[j].result.value.created <==> KeyOf(calls[j]) !in states[j].revisions
    ensures calls[j].result.value.created ==> calls[j].result.value.revision.revisionID == calls[j].env.freshID
  {
    var c := calls[j];
    SuccessParses(sha, calls, states, j);
    CallPrepared(sha, calls, states, j);
    StepCreates(sha, Parse, states[j], c.req, Identity(sha, c.req.body).value, AcceptedBody(c.req.body, c.res), c.env,
                states[j+1], c.result);
  }

  /** It adds that revision and its own operation to the tables, if they are not there, and
      nothing else. */
  lemma AddsOnly(sha: Hash, calls: seq<Call>, states: seq<Tables>, j: nat)
    requires HashLike(sha) && History(sha, calls, states) && j < |calls| && calls[j].result.Ok?
    ensures states[j+1].revisions.Keys == states[j].revisions.Keys + {KeyOf(calls[j])}
    ensures states[j+1].operations.Keys == states[j].operations.Keys + {calls[j].req.operationID}
  {
    var c := calls[j];
    SuccessParses(sha, calls, states, j);
    CallPrepared(sha, calls, states, j);
    StepAdds(sha, Parse, states[j], c.req, Identity(sha, c.req.body).value, AcceptedBody(c.req.body, c.res), c.env,
             states[j+1], c.result);
  }

  lemma StaysThere(sha: Hash, calls: seq<Call>, states: seq<Tables>, i: nat, k: nat)
    requires HashLike(sha) && History(sha, calls, states) && i < k <= |calls| && calls[i].result.Ok?
    ensures KeyOf(calls[i]) in states[k].revisions
  {
    ReturnedReads(sha, calls, states, i, k);
  }

  /** Every returned revision was created by one call, and by only one. */
  lemma CreatedOnce(sha: Hash, calls: seq<Call>, states: seq<Tables>, j: nat) returns (i: nat)
    requires HashLike(sha) && History(sha, calls, states) && j < |calls| && calls[j].result.Ok?
    ensures i <= j && calls[i].result.Ok? && KeyOf(calls[i]) == KeyOf(calls[j])
    ensures forall k :: 0 <= k < |calls| && calls[k].result.Ok? && KeyOf(calls[k]) == KeyOf(calls[j]) ==>
              (calls[k].result.value.created <==> k == i)
  {
    i := ConvergenceJustified(sha, calls, states, j);
    CreatedExactly(sha, calls, states, i);
    forall k | 0 <= k < |calls| && calls[k].result.Ok? && KeyOf(calls[k]) == KeyOf(calls[j])
      ensures calls[k].result.value.created <==> k == i
    {
      CreatedExactly(sha, calls, states, k);
      if i < k { StaysThere(sha, calls, states, i, k); }
      if k < i { StaysThere(sha, calls, states, k, i); }
    }
  }

  /** A commit succeeds exactly on a named request whose body parses and selects no profile, if
      nothing fails and its content is its operation's own, known, or accepted as new; a commit
      that does not succeed changes nothing. */
  lemma CommitsExactly(sha: Hash, calls: seq<Call>, states: seq<Tables>, j: nat)
    requires HashLike(sha) && History(sha, calls, states) && j < |calls|
    ensures var c := calls[j];
            c.result.Ok? <==>
              && c.req.operationID != "" && c.req.pipelineID != ""
              && Parse(c.req.body).Ok? && (forall n :: n in Parse(c.req.body).value.nodes ==> n.toolProfile == None)
              && Succeeds(states[j], c.req, CanonicalText(Parse(c.req.body).value), AcceptedBody(c.req.body, c.res), c.env)
    ensures calls[j].result.Err? ==> states[j+1] == states[j]
  {
    var c := calls[j];
    assert CallStep(sha, states[j], c, states[j+1]);
    if c.req.operationID != "" && c.req.pipelineID != "" && Identity(sha, c.req.body).Ok? {
      CallPrepared(sha, calls, states, j);
      StepSucceeds(sha, Parse, states[j], c.req, Identity(sha, c.req.body).value, AcceptedBody(c.req.body, c.res), c.env,
                   states[j+1], c.result);
    }
  }

  /** The returned revision, field by field. */
  lemma ReturnedIs(sha: Hash, calls: seq<Call>, states: seq<Tables>, j: nat)
    requires HashLike(sha) && History(sha, calls, states) && j < |calls| && calls[j].result.Ok?
    ensures Parse(calls[j].req.body).Ok?
    ensures var rev, c := calls[j].result.value.revision, Parse(calls[j].req.body).value;
            && rev.pipelineID == calls[j].req.pipelineID
            && rev.semVersion == "pipelinestore.pipeline-contract.v1" && rev.canonVersion == "pipelinestore.pipeline-contract.v1"
            && rev.canonicalBody == CanonicalText(c)
            && rev.contractDigest == sha("pipelinestore.pipeline-contract.v1" + "\0" + CanonicalText(c))
            && rev.contract == Some(Sorted(c))
  {
    ReturnedReads(sha, calls, states, j, j + 1);
    var c := Parse(calls[j].req.body).value;
    var rev := calls[j].result.value.revision;
    LoadExact(sha, Parse, states[j+1], RevisionKey(rev.pipelineID, rev.revisionID));
    CanonicalReadsBack(c);
    var i := ConvergenceJustified(sha, calls, states, j);
    assert VersionsOK(c);
  }

  /** And the operation is bound to it under the fingerprint of the pipeline and the digest. */
  lemma OperationBound(sha: Hash, calls: seq<Call>, states: seq<Tables>, j: nat, k: nat)
    requires HashLike(sha) && History(sha, calls, states) && j < k <= |calls| && calls[j].result.Ok?
    ensures var c, t := calls[j], states[k];
            && c.req.operationID in t.operations
            && t.operations[c.req.operationID].pipelineID == c.req.pipelineID
            && t.operations[c.req.operationID].revisionID == c.result.value.revision.revisionID
            && t.operations[c.req.operationID].fingerprint
               == sha(c.req.pipelineID + "\0" + c.result.value.revision.contractDigest)
  {
    HistoryRuns(sha, calls, states);
    SuccessParses(sha, calls, states, j);
    ReturnedLoads(sha, Parse, EventsOf(sha, calls), states, j, k);
    ReturnedIs(sha, calls, states, j);
  }
}
