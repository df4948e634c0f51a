/** What callers of the revision store can rely on, in terms of the bodies they send. */
module RevisionTheorems {
  import opened Prelude
  import opened Contracts
  import opened Canonical
  import opened Digests
  import opened Validation
  import opened Preparation
  import opened RevisionTables
  import opened RevisionSafety

  /** One call of Commit under the resolvers as they answered then. */
  datatype Call = Call(req: Request, res: Resolvers, env: Conditions, result: Result<Committed>)

  ghost function EventOf(sha: Hash, c: Call): Event {
    Event(c.req, Identity(sha, c.req.body), AcceptedBody(c.req.body, c.res), c.env, c.result)
  }

  ghost function EventsOf(sha: Hash, calls: seq<Call>): (r: seq<Event>)
    ensures |r| == |calls| && forall i :: 0 <= i < |calls| ==> r[i] == EventOf(sha, calls[i])
  {
    seq(|calls|, i requires 0 <= i < |calls| => EventOf(sha, calls[i]))
  }

  /** One call does what the postcondition of Commit says. */
  ghost predicate CallStep(sha: Hash, t: Tables, c: Call, t': Tables) {
    CommitStep(sha, Parse, t, c.req, Identity(sha, c.req.body), AcceptedBody(c.req.body, c.res), c.env, t', c.result)
  }

  /** A history of calls from the empty store. */
  ghost predicate History(sha: Hash, calls: seq<Call>, states: seq<Tables>) {
    && |states| == |calls| + 1 && states[0] == EmptyTables
    && forall i :: 0 <= i < |calls| ==> CallStep(sha, states[i], calls[i], states[i+1])
  }

  lemma PreparedIsFaithful(sha: Hash, body: string, res: Resolvers)
    requires Identity(sha, body).Ok?
    ensures Faithful(sha, Parse, Identity(sha, body).value, AcceptedBody(body, res))
  {
    var c := Parse(body).value;
    CanonicalReadsBack(c);
    if AcceptedBody(body, res) { assert VersionsOK(c); }
  }

  lemma CallIsEvent(sha: Hash, t: Tables, c: Call, t': Tables)
    requires CallStep(sha, t, c, t')
    ensures EventStep(sha, Parse, t, EventOf(sha, c), t')
  {
    if Identity(sha, c.req.body).Ok? { PreparedIsFaithful(sha, c.req.body, c.res); }
  }

  lemma HistoryRuns(sha: Hash, calls: seq<Call>, states: seq<Tables>)
    requires History(sha, calls, states)
    ensures Run(sha, Parse, EventsOf(sha, calls), states)
  {
    forall i | 0 <= i < |calls| ensures EventStep(sha, Parse, states[i], EventsOf(sha, calls)[i], states[i+1]) {
      CallIsEvent(sha, states[i], calls[i], states[i+1]);
    }
  }

  function RevisionOf(c: Call): Revision
    requires c.result.Ok?
  {
    c.result.value.revision
  }

  /** The body of a call parses and prepares if the call succeeded. */
  lemma SuccessParses(sha: Hash, calls: seq<Call>, states: seq<Tables>, i: nat)
    requires History(sha, calls, states) && i < |calls| && calls[i].result.Ok?
    ensures Succeeded(EventsOf(sha, calls), i)
    ensures Parse(calls[i].req.body).Ok? && Identity(sha, calls[i].req.body) == Ok(PreparedOf(sha, Parse(calls[i].req.body).value))
  {
    HistoryRuns(sha, calls, states);
    SuccessPrepared(sha, Parse, EventsOf(sha, calls), states, i);
    assert EventsOf(sha, calls)[i] == EventOf(sha, calls[i]);
  }

  /** The three tables agree after any history, and rows are only ever added. */
  lemma TablesAgree(sha: Hash, calls: seq<Call>, states: seq<Tables>, j: nat, k: nat)
    requires History(sha, calls, states) && j <= k <= |calls|
    ensures Consistent(sha, Parse, states[k]) && Extends(states[j], states[k])
  {
    HistoryRuns(sha, calls, states);
    RunConsistent(sha, Parse, EventsOf(sha, calls), states, k);
    RunExtends(sha, Parse, EventsOf(sha, calls), states, j, k);
  }

  /** Every revision ever returned can be read at any later time, and reads as exactly what
      was returned, with the canonical body of the request. */
  lemma ReturnedReads(sha: Hash, calls: seq<Call>, states: seq<Tables>, i: nat, k: nat)
    requires HashLike(sha) && History(sha, calls, states) && i < k <= |calls| && calls[i].result.Ok?
    ensures var rev := RevisionOf(calls[i]);
            && rev.pipelineID == calls[i].req.pipelineID
            && Load(sha, Parse, states[k], RevisionKey(rev.pipelineID, rev.revisionID)) == Ok(rev)
    ensures Parse(calls[i].req.body).Ok?
            && RevisionOf(calls[i]).canonicalBody == CanonicalText(Parse(calls[i].req.body).value)
  {
    HistoryRuns(sha, calls, states);
    SuccessParses(sha, calls, states, i);
    ReturnedLoads(sha, Parse, EventsOf(sha, calls), states, i, k);
  }

  /** One operation id always answers with one revision. */
  lemma OperationReplaysOneRevision(sha: Hash, calls: seq<Call>, states: seq<Tables>, i: nat, j: nat)
    requires HashLike(sha) && History(sha, calls, states) && i < |calls| && j < |calls|
    requires calls[i].result.Ok? && calls[j].result.Ok? && calls[i].req.operationID == calls[j].req.operationID
    ensures RevisionOf(calls[i]) == RevisionOf(calls[j])
  {
    HistoryRuns(sha, calls, states);
    SuccessParses(sha, calls, states, i);
    SuccessParses(sha, calls, states, j);
    ReturnedLoads(sha, Parse, EventsOf(sha, calls), states, i, |calls|);
    ReturnedLoads(sha, Parse, EventsOf(sha, calls), states, j, |calls|);
  }

  /** Two successful commits to one pipeline return the same revision exactly if their bodies
      have the same canonical text. */
  lemma SameRevisionIffSameBody(sha: Hash, calls: seq<Call>, states: seq<Tables>, i: nat, j: nat)
    requires HashLike(sha) && History(sha, calls, states) && i < |calls| && j < |calls|
    requires calls[i].result.Ok? && calls[j].result.Ok? && calls[i].req.pipelineID == calls[j].req.pipelineID
    ensures Parse(calls[i].req.body).Ok? && Parse(calls[j].req.body).Ok?
    ensures RevisionOf(calls[i]).revisionID == RevisionOf(calls[j]).revisionID
            <==> CanonicalText(Parse(calls[i].req.body).value) == CanonicalText(Parse(calls[j].req.body).value)
  {
    HistoryRuns(sha, calls, states);
    SuccessParses(sha, calls, states, i);
    SuccessParses(sha, calls, states, j);
    SameRevisionIffSameText(sha, Parse, EventsOf(sha, calls), states, i, j);
  }

  // ---- Why convergence may skip validation --------------------------------------------

  lemma SameCanonicalAcceptance(sha: Hash, a: string, b: string, res: Resolvers)
    requires HashLike(sha) && Identity(sha, a).Ok? && Identity(sha, b).Ok?
    requires Identity(sha, a).value.canonical == Identity(sha, b).value.canonical && AcceptedBody(a, res)
    ensures AcceptedBody(b, res)
  {
    IdentityDecidesAcceptance(sha, a, b, res);
  }

  /** Whatever revision a call returns, that call or an earlier one minted it after its
      resolvers had accepted the body, and those resolvers accept this call's body too. */
  lemma ConvergenceJustified(sha: Hash, calls: seq<Call>, states: seq<Tables>, j: nat) returns (i: nat)
    requires HashLike(sha) && History(sha, calls, states) && j < |calls| && calls[j].result.Ok?
    ensures i <= j && calls[i].result.Ok? && calls[i].result.value.created
    ensures calls[i].req.pipelineID == calls[j].req.pipelineID
    ensures RevisionOf(calls[i]) == RevisionOf(calls[j])
    ensures AcceptedBody(calls[i].req.body, calls[i].res) && AcceptedBody(calls[j].req.body, calls[i].res)
  {
    var events := EventsOf(sha, calls);
    HistoryRuns(sha, calls, states);
    SuccessParses(sha, calls, states, j);
    ReturnedLoads(sha, Parse, events, states, j, j + 1);
    var key := RevisionKey(calls[j].req.pipelineID, RevisionOf(calls[j]).revisionID);
    i := EveryRevisionMinted(sha, Parse, events, states, j + 1, key);
    ReturnedLoads(sha, Parse, events, states, i, j + 1);
    SameCanonicalAcceptance(sha, calls[i].req.body, calls[j].req.body, calls[i].res);
  }
}
