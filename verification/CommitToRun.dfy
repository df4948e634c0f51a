/** The cores joined: what the revision store returns is what lowering asks for. */
module CommitToRun {
  import opened Prelude
  import opened Contracts
  import opened Canonical
  import opened Digests
  import opened Validation
  import opened ValidationOrder
  import opened Preparation
  import opened RevisionTables
  import opened RevisionTheorems
  import opened Lowering
  import opened LoweringAgreement
  import Spec = SpecCheck

  // ---- A returned revision is intact --------------------------------------------------

  /** The columns of a revision that loads. */
  lemma LoadedColumns(sha: Hash, t: Tables, key: RevisionKey)
    requires Load(sha, Parse, t, key).Ok?
    ensures var rev := Load(sha, Parse, t, key).value;
            && rev.pipelineID == key.pipelineID && rev.revisionID == key.revisionID
            && rev.canonVersion == ContractVersionV1 && rev.contractDigest == DigestCanonical(sha, rev.canonicalBody)
            && rev.contract.Some? && Parse(rev.canonicalBody) == Ok(rev.contract.value)
            && rev.semVersion == rev.contract.value.semVersion && rev.canonVersion == rev.contract.value.canonVersion
  {
  }

  lemma CommitNamesPipeline(sha: Hash, t: Tables, c: Call, t': Tables)
    requires CallStep(sha, t, c, t') && c.result.Ok?
    ensures c.req.pipelineID != ""
  {
  }

  /** The contract of a committed body, as every reader of the revision sees it. */
  function CommittedContract(c: Call): Contract
    requires Parse(c.req.body).Ok?
  {
    Sorted(Parse(c.req.body).value)
  }

  /** Every revision a successful commit returned verifies under the same hash. */
  lemma ReturnedVerifies(sha: Hash, calls: seq<Call>, states: seq<Tables>, j: nat)
    requires HashLike(sha) && History(sha, calls, states) && j < |calls| && calls[j].result.Ok?
    requires RevisionOf(calls[j]).revisionID != ""
    ensures Parse(calls[j].req.body).Ok?
    ensures VerifyRevision(sha, RevisionOf(calls[j])) == Ok(CommittedContract(calls[j]))
  {
    var rev := RevisionOf(calls[j]);
    ReturnedReads(sha, calls, states, j, |calls|);
    LoadedColumns(sha, states[|calls|], RevisionKey(rev.pipelineID, rev.revisionID));
    var i := ConvergenceJustified(sha, calls, states, j);
    CommitNamesPipeline(sha, states[j], calls[j], states[j+1]);
    IntactVerifies(sha, rev, Parse(calls[j].req.body).value);
  }

  lemma IntactVerifies(sha: Hash, rev: Revision, c: Contract)
    requires rev.pipelineID != "" && rev.revisionID != "" && VersionsOK(c) && rev.canonicalBody == CanonicalText(c)
    requires rev.contractDigest == DigestCanonical(sha, rev.canonicalBody) && rev.contract.Some?
    requires Parse(rev.canonicalBody) == Ok(rev.contract.value)
    requires rev.semVersion == rev.contract.value.semVersion && rev.canonVersion == rev.contract.value.canonVersion
    ensures VerifyRevision(sha, rev) == Ok(Sorted(c))
  {
    CanonicalReadsBack(c);
    SortedTwice(c);
    VerifyExact(sha, rev);
  }

  // ---- And it lowers under the declarations it was validated with ----------------------

  /** The frozen declarations are the ones the resolvers gave for the contract's pins. */
  ghost predicate Agrees(tools: map<string, ToolFunctionDecl>, res: Resolvers, c: Contract) {
    forall n :: n in c.nodes ==> n.casHash in tools && res.tools(n.casHash) == Some(tools[n.casHash])
  }

  lemma AcceptableUnder(c: Contract, res: Resolvers, tools: map<string, ToolFunctionDecl>)
    requires InProfile(c) && Acceptable(c, res) && Agrees(tools, res, c)
    ensures Acceptable(c, ResolversOf(tools))
  {
    forall n | n in c.nodes ensures NodeOK(n, ResolversOf(tools)) { assert NodeOK(n, res); }
    var decls :| Pinned(c.nodes, res, decls) && LinksOK(c, res, decls);
    assert Pinned(c.nodes, ResolversOf(tools), decls) && LinksOK(c, ResolversOf(tools), decls);
  }

  /** The caller froze a run of this revision: an identifier, an instant and permission. */
  predicate Authorised(input: Input, rev: Revision) {
    input.revision == rev && input.runID != "" && input.submittedAt.Instant? && input.authorization == Allow
  }

  lemma CommittedFrozen(sha: Hash, calls: seq<Call>, states: seq<Tables>, j: nat, input: Input)
    requires HashLike(sha) && History(sha, calls, states) && j < |calls| && calls[j].result.Ok?
    requires RevisionOf(calls[j]).revisionID != "" && Authorised(input, RevisionOf(calls[j]))
    ensures Parse(calls[j].req.body).Ok?
    ensures InProfile(CommittedContract(calls[j])) ==> FrozenOK(sha, input, CommittedContract(calls[j]))
  {
    ReturnedVerifies(sha, calls, states, j);
  }

  /** From commit to run, under whatever resolvers accept the committed body: if the run
      freezes the declarations that they give, an authorised in-profile revision lowers exactly
      if it has a node, every pin runs, every edge names its ports and no output fans out. */
  lemma AcceptedLowers(sha: Hash, calls: seq<Call>, states: seq<Tables>, j: nat, input: Input, res: Resolvers)
    requires HashLike(sha) && History(sha, calls, states) && j < |calls| && calls[j].result.Ok?
    requires RevisionOf(calls[j]).revisionID != "" && Authorised(input, RevisionOf(calls[j]))
    requires AcceptedBody(calls[j].req.body, res)
    ensures var c := CommittedContract(calls[j]);
            InProfile(c) && Agrees(input.tools, res, c) ==>
              ((exists spec :: LoweredTo(sha, input, spec)) <==> Lowerable(input, c))
  {
    CommittedFrozen(sha, calls, states, j, input);
    var c := CommittedContract(calls[j]);
    if InProfile(c) && Agrees(input.tools, res, c) {
      AcceptedSorted(calls[j].req.body, res);
      AcceptableUnder(c, res, input.tools);
      AcceptableNames(c, ResolversOf(input.tools));
      LoweringAgreesWithValidation(sha, input, c);
    }
  }

  /** In particular under those of the commit that minted the revision, which accepted it. */
  lemma CommittedLowers(sha: Hash, calls: seq<Call>, states: seq<Tables>, j: nat, input: Input) returns (i: nat)
    requires HashLike(sha) && History(sha, calls, states) && j < |calls| && calls[j].result.Ok?
    requires RevisionOf(calls[j]).revisionID != "" && Authorised(input, RevisionOf(calls[j]))
    ensures i <= j && calls[i].result.Ok? && calls[i].result.value.created && RevisionOf(calls[i]) == RevisionOf(calls[j])
    ensures AcceptedBody(calls[j].req.body, calls[i].res)
    ensures var c := CommittedContract(calls[j]);
            InProfile(c) && Agrees(input.tools, calls[i].res, c) ==>
              ((exists spec :: LoweredTo(sha, input, spec)) <==> Lowerable(input, c))
  {
    i := ConvergenceJustified(sha, calls, states, j);
    AcceptedLowers(sha, calls, states, j, input, calls[i].res);
  }

  lemma AcceptedSorted(body: string, res: Resolvers)
    requires AcceptedBody(body, res)
    ensures Acceptable(Sorted(Parse(body).value), res)
  {
    AcceptableHasNoProfile(Parse(body).value, res);
    ValidationOfCanonical(Parse(body).value, res);
  }

  lemma AcceptableNames(c: Contract, res: Resolvers)
    requires Acceptable(c, res)
    ensures PinsNamed(c.nodes)
  {
    forall n | n in c.nodes ensures n.casHash != "" { assert NodeOK(n, res); }
  }
}
