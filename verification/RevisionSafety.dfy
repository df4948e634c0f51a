/** Safety of the revision tables over every run of commits, with faults before the durable
    commit and validation verdicts that change from call to call. */
module RevisionSafety {
  import opened Prelude
  import opened Contracts
  import opened Digests
  import opened RevisionTables

  // ---- What every reachable state of the tables satisfies -----------------------------

  ghost predicate RowOK(sha: Hash, parse: Parser, row: RevisionRow) {
    && row.canonVersion == ContractVersionV1 && row.digest == DigestCanonical(sha, row.body)
    && parse(row.body).Ok?
    && row.semVersion == parse(row.body).value.semVersion && row.canonVersion == parse(row.body).value.canonVersion
  }

  ghost predicate RowsOK(sha: Hash, parse: Parser, t: Tables) {
    forall key :: key in t.revisions ==> RowOK(sha, parse, t.revisions[key])
  }

  function IndexKey(key: RevisionKey, row: RevisionRow): DigestKey {
    DigestKey(key.pipelineID, row.canonVersion, row.digest)
  }

  /** Revisions and digest-index rows are in bijection. */
  ghost predicate Indexed(t: Tables) {
    && (forall key :: key in t.revisions ==>
          var dk := IndexKey(key, t.revisions[key]); dk in t.digests && t.digests[dk] == key.revisionID)
    && (forall dk :: dk in t.digests ==>
          var key := RevisionKey(dk.pipelineID, t.digests[dk]); key in t.revisions && IndexKey(key, t.revisions[key]) == dk)
  }

  /** Each operation row names a revision of its pipeline that matches its fingerprint. */
  ghost predicate LedgerOK(sha: Hash, t: Tables) {
    forall op :: op in t.operations ==>
      var row := t.operations[op];
      var key := RevisionKey(row.pipelineID, row.revisionID);
      key in t.revisions && row.fingerprint == RequestFingerprint(sha, row.pipelineID, t.revisions[key].digest)
  }

  ghost predicate Consistent(sha: Hash, parse: Parser, t: Tables) {
    RowsOK(sha, parse, t) && Indexed(t) && LedgerOK(sha, t)
  }

  /** Nothing is ever removed or rewritten. */
  ghost predicate Extends(t: Tables, t': Tables) {
    && (forall k :: k in t.revisions ==> k in t'.revisions && t'.revisions[k] == t.revisions[k])
    && (forall k :: k in t.operations ==> k in t'.operations && t'.operations[k] == t.operations[k])
    && (forall k :: k in t.digests ==> k in t'.digests && t'.digests[k] == t.digests[k])
  }

  /** What preparation guarantees: the canonical text reads back as the prepared contract,
      the digest is its digest, and only the supported version is ever accepted. */
  ghost predicate Faithful(sha: Hash, parse: Parser, pre: Prepared, accepted: bool) {
    && parse(pre.canonical) == Ok(pre.contract) && pre.digest == DigestCanonical(sha, pre.canonical)
    && (accepted ==> pre.contract.canonVersion == ContractVersionV1)
  }

  // ---- One step -----------------------------------------------------------------------

  lemma MintKeepsIndex(sha: Hash, t: Tables, req: Request, pre: Prepared, id: string)
    requires Indexed(t) && RevisionKey(req.pipelineID, id) !in t.revisions && DigestKeyOf(req, pre) !in t.digests
    ensures Indexed(Minted(sha, t, req, pre, id))
  {
    var t' := Minted(sha, t, req, pre, id);
    forall key | key in t'.revisions
      ensures var dk := IndexKey(key, t'.revisions[key]); dk in t'.digests && t'.digests[dk] == key.revisionID
    {
      if key != RevisionKey(req.pipelineID, id) { assert IndexKey(key, t.revisions[key]) in t.digests; }
    }
    forall dk | dk in t'.digests
      ensures var key := RevisionKey(dk.pipelineID, t'.digests[dk]); key in t'.revisions && IndexKey(key, t'.revisions[key]) == dk
    {
      if dk != DigestKeyOf(req, pre) { assert RevisionKey(dk.pipelineID, t.digests[dk]) in t.revisions; }
    }
  }

  lemma ConvergeKeepsLedger(sha: Hash, t: Tables, req: Request, pre: Prepared)
    requires LedgerOK(sha, t) && Indexed(t) && DigestKeyOf(req, pre) in t.digests
    ensures LedgerOK(sha, Converged(sha, t, req, pre))
  {
    var key := RevisionKey(req.pipelineID, t.digests[DigestKeyOf(req, pre)]);
    assert IndexKey(key, t.revisions[key]) == DigestKeyOf(req, pre);
  }

  lemma MintKeepsRows(sha: Hash, parse: Parser, t: Tables, req: Request, pre: Prepared, id: string)
    requires RowsOK(sha, parse, t) && Faithful(sha, parse, pre, true)
    ensures RowsOK(sha, parse, Minted(sha, t, req, pre, id))
  {
    var t' := Minted(sha, t, req, pre, id);
    forall key | key in t'.revisions ensures RowOK(sha, parse, t'.revisions[key]) {
      if key != RevisionKey(req.pipelineID, id) { assert RowOK(sha, parse, t.revisions[key]); }
    }
  }

  lemma MintKeepsLedger(sha: Hash, t: Tables, req: Request, pre: Prepared, id: string)
    requires LedgerOK(sha, t) && RevisionKey(req.pipelineID, id) !in t.revisions
    ensures LedgerOK(sha, Minted(sha, t, req, pre, id))
  {
  }

  lemma MintKeeps(sha: Hash, parse: Parser, t: Tables, req: Request, pre: Prepared, id: string)
    requires Consistent(sha, parse, t) && Faithful(sha, parse, pre, true)
    requires RevisionKey(req.pipelineID, id) !in t.revisions && DigestKeyOf(req, pre) !in t.digests
    ensures Consistent(sha, parse, Minted(sha, t, req, pre, id))
  {
    MintKeepsRows(sha, parse, t, req, pre, id);
    MintKeepsIndex(sha, t, req, pre, id);
    MintKeepsLedger(sha, t, req, pre, id);
  }

  /** Each commit keeps the tables consistent. */
  lemma CommitKeeps(sha: Hash, parse: Parser, t: Tables, req: Request, prepared: Result<Prepared>, accepted: bool,
                    env: Conditions, t': Tables, r: Result<Committed>)
    requires Consistent(sha, parse, t) && CommitStep(sha, parse, t, req, prepared, accepted, env, t', r)
    requires prepared.Ok? ==> Faithful(sha, parse, prepared.value, accepted)
    ensures Consistent(sha, parse, t')
  {
    if t' != t {
      var pre := prepared.value;
      if DigestKeyOf(req, pre) in t.digests { ConvergeKeepsLedger(sha, t, req, pre); }
      else { MintKeeps(sha, parse, t, req, pre, env.freshID); }
    }
  }

  /** Each commit only adds rows. */
  lemma CommitExtends(sha: Hash, parse: Parser, t: Tables, req: Request, prepared: Result<Prepared>, accepted: bool,
                      env: Conditions, t': Tables, r: Result<Committed>)
    requires CommitStep(sha, parse, t, req, prepared, accepted, env, t', r)
    ensures Extends(t, t')
  {
    if t' != t {
      var pre := prepared.value;
      assert req.operationID !in t.operations;
      if DigestKeyOf(req, pre) in t.digests { assert t' == Converged(sha, t, req, pre); }
      else { assert t' == Minted(sha, t, req, pre, env.freshID); }
    }
  }

  lemma ExtendsTransitive(a: Tables, b: Tables, c: Tables)
    requires Extends(a, b) && Extends(b, c)
    ensures Extends(a, c)
  {
  }

  /** What a successful commit leaves behind: the operation is bound to the returned
      revision, whose row holds the request's canonical body and loads as exactly what was
      returned. */
  ghost predicate Settled(sha: Hash, parse: Parser, t: Tables, req: Request, pre: Prepared, rev: Revision) {
    var key := RevisionKey(req.pipelineID, rev.revisionID);
    && req.operationID in t.operations
    && t.operations[req.operationID] == OperationRow(req.pipelineID, rev.revisionID, FingerprintOf(sha, req, pre))
    && key in t.revisions && t.revisions[key].body == pre.canonical
    && Load(sha, parse, t, key) == Ok(rev)
  }

  lemma SuccessSettles(sha: Hash, parse: Parser, t: Tables, req: Request, pre: Prepared, accepted: bool,
                       env: Conditions, t': Tables, r: Result<Committed>)
    requires HashLike(sha) && Consistent(sha, parse, t) && Faithful(sha, parse, pre, accepted)
    requires CommitStep(sha, parse, t, req, Ok(pre), accepted, env, t', r) && r.Ok?
    ensures Settled(sha, parse, t', req, pre, r.value.revision)
  {
    if req.operationID in t.operations {
      var row := t.operations[req.operationID];
      var own := t.revisions[RevisionKey(row.pipelineID, row.revisionID)];
      FingerprintIdentifies(sha, row.pipelineID, own.body, req.pipelineID, pre.canonical);
    } else if DigestKeyOf(req, pre) in t.digests {
      var key := RevisionKey(req.pipelineID, t.digests[DigestKeyOf(req, pre)]);
      assert IndexKey(key, t.revisions[key]) == DigestKeyOf(req, pre);
      DigestInjective(sha, t.revisions[key].body, pre.canonical);
    }
  }

  /** The operation is already bound to another pipeline or another canonical body. */
  ghost predicate BoundElsewhere(t: Tables, req: Request, pre: Prepared) {
    && req.operationID in t.operations
    && var row := t.operations[req.operationID];
    var key := RevisionKey(row.pipelineID, row.revisionID);
    key in t.revisions && !(row.pipelineID == req.pipelineID && t.revisions[key].body == pre.canonical)
  }

  /** A conflict is reported exactly when the operation is bound elsewhere, and then, as on
      every failure, nothing changes. */
  lemma ConflictExact(sha: Hash, parse: Parser, t: Tables, req: Request, pre: Prepared, accepted: bool,
                      env: Conditions, t': Tables, r: Result<Committed>)
    requires HashLike(sha) && Consistent(sha, parse, t) && Faithful(sha, parse, pre, accepted)
    requires CommitStep(sha, parse, t, req, Ok(pre), accepted, env, t', r)
    requires req.operationID != "" && req.pipelineID != "" && req.operationID in t.operations
    ensures r == Err(OperationConflict) <==> BoundElsewhere(t, req, pre)
    ensures r.Ok? <==> !BoundElsewhere(t, req, pre) && !env.broken
    ensures t' == t
  {
    var row := t.operations[req.operationID];
    var key := RevisionKey(row.pipelineID, row.revisionID);
    FingerprintIdentifies(sha, row.pipelineID, t.revisions[key].body, req.pipelineID, pre.canonical);
    assert RowOK(sha, parse, t.revisions[key]);
  }

  /** New content is minted exactly if it is accepted, its identifier is free and nothing
      fails; known content never needs the verdict. */
  lemma SucceedsExactly(sha: Hash, parse: Parser, t: Tables, req: Request, pre: Prepared, accepted: bool,
                        env: Conditions, t': Tables, r: Result<Committed>)
    requires Consistent(sha, parse, t) && Faithful(sha, parse, pre, accepted)
    requires CommitStep(sha, parse, t, req, Ok(pre), accepted, env, t', r)
    requires req.operationID != "" && req.pipelineID != "" && req.operationID !in t.operations
    ensures r.Ok? <==> !env.injected && !env.broken &&
                       (DigestKeyOf(req, pre) in t.digests || (accepted && RevisionKey(req.pipelineID, env.freshID) !in t.revisions))
    ensures r.Err? ==> t' == t
    ensures r.Ok? ==> (r.value.created <==> DigestKeyOf(req, pre) !in t.digests)
  {
    if DigestKeyOf(req, pre) in t.digests {
      var key := RevisionKey(req.pipelineID, t.digests[DigestKeyOf(req, pre)]);
      assert RowOK(sha, parse, t.revisions[key]);
    }
  }

  // ---- The loader ---------------------------------------------------------------------

  /** The loader returns exactly the rows whose columns, digest and body agree. */
  lemma LoadExact(sha: Hash, parse: Parser, t: Tables, key: RevisionKey)
    ensures Load(sha, parse, t, key).Ok? <==> key in t.revisions && RowOK(sha, parse, t.revisions[key])
    ensures Load(sha, parse, t, key).Err? ==> Load(sha, parse, t, key).code == if key in t.revisions then Integrity else NotFound
  {
  }

  /** Corruption is noticed: a loadable row that was changed, but not both in its body and in
      its digest, no longer loads. */
  lemma CorruptionRefused(sha: Hash, parse: Parser, t: Tables, t': Tables, key: RevisionKey)
    requires HashLike(sha) && Load(sha, parse, t, key).Ok? && key in t'.revisions
    requires t'.revisions[key] != t.revisions[key]
    requires t'.revisions[key].digest == t.revisions[key].digest || t'.revisions[key].body == t.revisions[key].body
    ensures Load(sha, parse, t', key) == Err(Integrity)
  {
    var row, row' := t.revisions[key], t'.revisions[key];
    LoadExact(sha, parse, t, key);
    LoadExact(sha, parse, t', key);
    if row'.digest == row.digest && row'.digest == DigestCanonical(sha, row'.body) {
      DigestInjective(sha, row.body, row'.body);
    }
  }

  // ---- Runs ---------------------------------------------------------------------------

  datatype Event = Event(req: Request, prepared: Result<Prepared>, accepted: bool, env: Conditions, result: Result<Committed>)

  ghost predicate EventStep(sha: Hash, parse: Parser, t: Tables, e: Event, t': Tables) {
    && CommitStep(sha, parse, t, e.req, e.prepared, e.accepted, e.env, t', e.result)
    && (e.prepared.Ok? ==> Faithful(sha, parse, e.prepared.value, e.accepted))
  }

  /** A run from the empty store; states[i] is the state event i acts on. */
  ghost predicate Run(sha: Hash, parse: Parser, events: seq<Event>, states: seq<Tables>) {
    && |states| == |events| + 1 && states[0] == EmptyTables
    && forall i :: 0 <= i < |events| ==> EventStep(sha, parse, states[i], events[i], states[i+1])
  }

  lemma EventKeeps(sha: Hash, parse: Parser, t: Tables, e: Event, t': Tables)
    requires Consistent(sha, parse, t) && EventStep(sha, parse, t, e, t')
    ensures Consistent(sha, parse, t')
  {
    CommitKeeps(sha, parse, t, e.req, e.prepared, e.accepted, e.env, t', e.result);
  }

  lemma EventExtends(sha: Hash, parse: Parser, t: Tables, e: Event, t': Tables)
    requires EventStep(sha, parse, t, e, t')
    ensures Extends(t, t')
  {
    CommitExtends(sha, parse, t, e.req, e.prepared, e.accepted, e.env, t', e.result);
  }

  /** In every reachable state the three tables agree. */
  lemma {:induction false} RunConsistent(sha: Hash, parse: Parser, events: seq<Event>, states: seq<Tables>, k: nat)
    requires Run(sha, parse, events, states) && k <= |events|
    ensures Consistent(sha, parse, states[k])
  {
    if k > 0 {
      RunConsistent(sha, parse, events, states, k - 1);
      EventKeeps(sha, parse, states[k-1], events[k-1], states[k]);
    }
  }

  /** Rows are only ever added. */
  lemma {:induction false} RunExtends(sha: Hash, parse: Parser, events: seq<Event>, states: seq<Tables>, j: nat, k: nat)
    requires Run(sha, parse, events, states) && j <= k <= |events|
    ensures Extends(states[j], states[k])
  {
    if j < k {
      RunExtends(sha, parse, events, states, j, k - 1);
      EventExtends(sha, parse, states[k-1], events[k-1], states[k]);
      ExtendsTransitive(states[j], states[k-1], states[k]);
    }
  }

  ghost predicate Succeeded(events: seq<Event>, i: nat) { i < |events| && events[i].result.Ok? && events[i].prepared.Ok? }

  lemma SuccessPrepared(sha: Hash, parse: Parser, events: seq<Event>, states: seq<Tables>, i: nat)
    requires Run(sha, parse, events, states) && i < |events| && events[i].result.Ok?
    ensures Succeeded(events, i)
  {
    assert EventStep(sha, parse, states[i], events[i], states[i+1]);
  }

  /** Every revision a commit ever returned passes the loader at any later time, and loads
      as exactly what was returned. */
  lemma ReturnedLoads(sha: Hash, parse: Parser, events: seq<Event>, states: seq<Tables>, i: nat, k: nat)
    requires HashLike(sha) && Run(sha, parse, events, states) && Succeeded(events, i) && i < k <= |events|
    ensures Settled(sha, parse, states[k], events[i].req, events[i].prepared.value, events[i].result.value.revision)
  {
    var e := events[i];
    RunConsistent(sha, parse, events, states, i);
    assert EventStep(sha, parse, states[i], e, states[i+1]);
    SuccessSettles(sha, parse, states[i], e.req, e.prepared.value, e.accepted, e.env, states[i+1], e.result);
    RunExtends(sha, parse, events, states, i + 1, k);
  }

  lemma SameBodySameRow(sha: Hash, parse: Parser, t: Tables, a: RevisionKey, b: RevisionKey)
    requires Consistent(sha, parse, t) && a in t.revisions && b in t.revisions && a.pipelineID == b.pipelineID
    requires t.revisions[a].body == t.revisions[b].body
    ensures a == b
  {
    assert RowOK(sha, parse, t.revisions[a]) && RowOK(sha, parse, t.revisions[b]);
    assert IndexKey(a, t.revisions[a]) == IndexKey(b, t.revisions[b]);
  }

  lemma SameRevisionIffSameText(sha: Hash, parse: Parser, events: seq<Event>, states: seq<Tables>, i: nat, j: nat)
    requires HashLike(sha) && Run(sha, parse, events, states) && Succeeded(events, i) && Succeeded(events, j)
    requires events[i].req.pipelineID == events[j].req.pipelineID
    ensures events[i].result.value.revision.revisionID == events[j].result.value.revision.revisionID
            <==> events[i].prepared.value.canonical == events[j].prepared.value.canonical
  {
    var n := |events|;
    ReturnedLoads(sha, parse, events, states, i, n);
    ReturnedLoads(sha, parse, events, states, j, n);
    RunConsistent(sha, parse, events, states, n);
    var a := RevisionKey(events[i].req.pipelineID, events[i].result.value.revision.revisionID);
    var b := RevisionKey(events[j].req.pipelineID, events[j].result.value.revision.revisionID);
    if states[n].revisions[a].body == states[n].revisions[b].body { SameBodySameRow(sha, parse, states[n], a, b); }
  }

  /** The revision was minted by this commit, whose body was accepted then. */
  ghost predicate MintedBy(events: seq<Event>, i: nat, key: RevisionKey) {
    && Succeeded(events, i) && events[i].result.value.created && events[i].accepted
    && RevisionKey(events[i].req.pipelineID, events[i].result.value.revision.revisionID) == key
  }

  lemma {:induction false} EveryRevisionMinted(sha: Hash, parse: Parser, events: seq<Event>, states: seq<Tables>, k: nat,
                                               key: RevisionKey) returns (i: nat)
    requires Run(sha, parse, events, states) && k <= |events| && key in states[k].revisions
    ensures i < k && MintedBy(events, i, key)
  {
    if key in states[k-1].revisions {
      i := EveryRevisionMinted(sha, parse, events, states, k - 1, key);
    } else {
      i := k - 1;
      assert EventStep(sha, parse, states[i], events[i], states[i+1]);
    }
  }
}
