/** The lowering pass as a whole. */
module LoweringPass {
  import opened Prelude
  import opened Ordering
  import opened Contracts
  import opened Canonical
  import opened Digests
  import opened Validation
  import opened Lowering
  import opened LoweringLaws
  import Spec = SpecCheck

  lemma LoweringUnique(sha: Hash, input: Input, c: Contract, decls: Decls)
    requires FrozenOK(sha, input, c) && NodesLowerable(input, Sort(c.nodes, NodeKey)) && GraphLowerable(input, c, decls)
    ensures forall spec :: LoweredTo(sha, input, spec) ==> spec == SpecOf(input, decls, c) && Spec.SpecOK(spec)
  {
    forall spec | LoweredTo(sha, input, spec) ensures spec == SpecOf(input, decls, c) && Spec.SpecOK(spec) {
      var c', other :| LoweredBy(sha, input, c', other, spec);
      PinnedUnique(Sort(c.nodes, NodeKey), ResolversOf(input.tools), decls, other);
    }
  }

  lemma NothingFrozen(sha: Hash, input: Input)
    requires forall c :: !FrozenOK(sha, input, c)
    ensures forall spec :: !LoweredTo(sha, input, spec)
  {
  }

  lemma GraphPart(sha: Hash, input: Input, c: Contract, c': Contract, decls: Decls, spec: Spec.RunSpec)
    requires FrozenOK(sha, input, c) && LoweredBy(sha, input, c', decls, spec)
    ensures NodesLowerable(input, Sort(c.nodes, NodeKey)) && GraphLowerable(input, c, decls)
  {
  }

  lemma NoGraph(sha: Hash, input: Input, c: Contract)
    requires FrozenOK(sha, input, c)
    requires !NodesLowerable(input, Sort(c.nodes, NodeKey)) || forall other :: !GraphLowerable(input, c, other)
    ensures forall spec :: !LoweredTo(sha, input, spec)
  {
    forall spec ensures !LoweredTo(sha, input, spec) {
      if c', decls :| LoweredBy(sha, input, c', decls, spec) { GraphPart(sha, input, c, c', decls, spec); }
    }
  }

  lemma LoweredWitness(sha: Hash, input: Input, c: Contract, decls: Decls, spec: Spec.RunSpec)
    requires FrozenOK(sha, input, c) && NodesLowerable(input, Sort(c.nodes, NodeKey)) && GraphLowerable(input, c, decls)
    requires spec == SpecOf(input, decls, c) && Spec.SpecOK(spec)
    ensures LoweredTo(sha, input, spec)
  {
    assert LoweredBy(sha, input, c, decls, spec);
  }

  /** What the error code of a failed lowering stands for. */
  ghost predicate LowerReport(sha: Hash, input: Input, code: Code) {
    || FrozenReport(sha, input, code)
    || exists c, decls :: FrozenOK(sha, input, c) && BuildReport(input, c, decls, code)
  }

  ghost predicate BuildReport(input: Input, c: Contract, decls: Decls, code: Code) {
    || GraphReport(input, c, decls, code)
    || (NodesLowerable(input, Sort(c.nodes, NodeKey)) && GraphLowerable(input, c, decls)
        && Spec.SpecReport(SpecOf(input, decls, c), code))
  }

  lemma BuildReported(sha: Hash, input: Input, c: Contract, decls: Decls, code: Code)
    requires FrozenOK(sha, input, c) && BuildReport(input, c, decls, code)
    ensures LowerReport(sha, input, code)
  {
  }

  /** Checks a built spec; the pass never builds one that contradicts itself. */
  method CheckBuilt(sha: Hash, input: Input, ghost c: Contract, ghost decls: Decls, spec: Spec.RunSpec) returns (r: Option<Code>)
    requires NodesLowerable(input, Sort(c.nodes, NodeKey)) && GraphLowerable(input, c, decls) && spec == SpecOf(input, decls, c)
    ensures r.None? <==> Spec.SpecOK(spec)
    ensures r.Some? ==> Spec.SpecReport(spec, r.value) && r.value != SameSourceViolation
  {
    r := Spec.CheckSpec(spec);
    LoweredSameSource(input, decls, Sort(c.nodes, NodeKey), Sort(c.edges, EdgeKey));
  }

  /** Lowers a frozen input, or fails exactly when it has no lowering; the failure's code
      names a violation that is there, and never that the spec built contradicts itself. */
  method Lower(sha: Hash, input: Input) returns (r: Result<Spec.RunSpec>)
    ensures r.Ok? ==> LoweredTo(sha, input, r.value)
    ensures r.Err? ==> forall spec :: !LoweredTo(sha, input, spec)
    ensures r.Err? ==> LowerReport(sha, input, r.code) && r.code != SameSourceViolation
  {
    var frozen := CheckFrozen(sha, input);
    if frozen.Err? {
      NothingFrozen(sha, input);
      ReportCodes(sha, input, Contract("", "", [], [], [], []), map[]);
      return Err(frozen.code);
    }
    var c := frozen.value;
    var graph, decls := LowerGraph(input, c);
    if graph.Err? {
      NoGraph(sha, input, c);
      ReportCodes(sha, input, c, decls);
      BuildReported(sha, input, c, decls, graph.code);
      return graph;
    }
    var check := CheckBuilt(sha, input, c, decls, graph.value);
    if check.Some? {
      LoweringUnique(sha, input, c, decls);
      BuildReported(sha, input, c, decls, check.value);
      return Err(check.value);
    }
    LoweredWitness(sha, input, c, decls, graph.value);
    r := graph;
  }
}
