/** When lowering succeeds, written out on the frozen input alone. */
module LoweringRules {
  import opened Prelude
  import opened Ordering
  import opened Contracts
  import opened Canonical
  import opened Digests
  import opened Validation
  import opened Lowering
  import opened LoweringLaws
  import opened LoweringAgreement
  import opened LoweredContent
  import ValidationRules
  import SpecRules
  import Spec = SpecCheck

  /** The frozen revision is a named v1 revision, and its body and digest are those of the
      contract it carries. */
  ghost predicate RevisionRule(sha: Hash, rev: Revision) {
    && rev.pipelineID != "" && rev.revisionID != "" && rev.contract.Some?
    && rev.semVersion == "pipelinestore.pipeline-contract.v1" && rev.canonVersion == "pipelinestore.pipeline-contract.v1"
    && rev.contract.value.semVersion == "pipelinestore.pipeline-contract.v1"
    && rev.contract.value.canonVersion == "pipelinestore.pipeline-contract.v1"
    && rev.canonicalBody == CanonicalText(rev.contract.value)
    && rev.contractDigest == sha("pipelinestore.pipeline-contract.v1" + "\0" + rev.canonicalBody)
  }

  /** Nothing is used that lowering cannot represent. */
  ghost predicate PlainContract(c: Contract) {
    (forall n :: n in c.nodes ==> n.toolProfile == None && n.params == []) && c.bindings == [] && c.slots == []
  }

  /** The caller froze an identified, dated and authorised run of such a revision. */
  ghost predicate InputRule(sha: Hash, input: Input) {
    && input.runID != "" && input.submittedAt.Instant? && input.authorization == Allow
    && RevisionRule(sha, input.revision) && PlainContract(input.revision.contract.value)
  }

  lemma FrozenMeans(sha: Hash, input: Input)
    ensures (exists c :: FrozenOK(sha, input, c)) <==> InputRule(sha, input)
    ensures forall c :: FrozenOK(sha, input, c) ==> input.revision.contract == Some(c)
  {
    VerifyExact(sha, input.revision);
    if InputRule(sha, input) { assert FrozenOK(sha, input, input.revision.contract.value); }
  }

  /** There is a node, every node runs an image by digest, every edge names its ports and no
      output feeds two edges. */
  ghost predicate GraphRule(input: Input, c: Contract) {
    && c.nodes != []
    && (forall n :: n in c.nodes ==> n.casHash in input.runnables && SpecRules.ByDigest(input.runnables[n.casHash].image))
    && (forall e :: e in c.edges ==> e.fromPort != "" && e.toPort != "")
    && (forall i, j :: 0 <= i < j < |c.edges| ==>
          c.edges[i].fromNode != c.edges[j].fromNode || c.edges[i].fromPort != c.edges[j].fromPort)
  }

  lemma GraphMeans(input: Input, c: Contract)
    ensures Lowerable(input, c) <==> GraphRule(input, c)
  {
    forall n | n in c.nodes && n.casHash in input.runnables
      ensures Spec.PinnedImage(input.runnables[n.casHash].image) <==> SpecRules.ByDigest(input.runnables[n.casHash].image)
    {
      SpecRules.PinnedImageMeans(input.runnables[n.casHash].image);
    }
    assert forall i :: 0 <= i < |c.edges| ==> Map(SourceOf, c.edges)[i] == Port(c.edges[i].fromNode, c.edges[i].fromPort);
  }

  /** Lowering a contract with named pins succeeds exactly if the input is in order, the contract
      keeps the rules of validation under the frozen declarations, and the graph can be
      represented. */
  lemma LowersExactly(sha: Hash, input: Input)
    requires HashLike(sha) && input.revision.contract.Some?
    requires forall n :: n in input.revision.contract.value.nodes ==> n.casHash != ""
    ensures (exists spec :: LoweredTo(sha, input, spec)) <==>
              && InputRule(sha, input)
              && ValidationRules.Rules(input.revision.contract.value, ResolversOf(input.tools))
              && GraphRule(input, input.revision.contract.value)
  {
    var c := input.revision.contract.value;
    FrozenMeans(sha, input);
    if InputRule(sha, input) {
      var frozen :| FrozenOK(sha, input, frozen);
      LoweringAgreesWithValidation(sha, input, c);
      ValidationRules.AcceptableMeans(c, ResolversOf(input.tools));
      GraphMeans(input, c);
    } else if spec :| LoweredTo(sha, input, spec) {
      var frozen := LoweredIsFrozen(sha, input, spec);
    }
  }
}
