/** The authored pipeline contract and the read-only declarations it is checked against. */
module Contracts {
  import opened Prelude
  import opened Ordering

  const ContractVersionV1 := "pipelinestore.pipeline-contract.v1"

  datatype FixedParameter = FixedParameter(name: string, value: string)

  datatype Node = Node(nodeID: string, casHash: string, toolProfile: Option<string>, params: seq<FixedParameter>)

  datatype DirectEdge = DirectEdge(fromNode: string, fromPort: string, toNode: string, toPort: string)

  datatype AssetBinding = AssetBinding(toNode: string, toPort: string, assetID: string, assetRevision: string,
                                       memberKey: string)

  datatype InputSlot = InputSlot(slotID: string, toNode: string, toPort: string)

  datatype Contract = Contract(semVersion: string, canonVersion: string, nodes: seq<Node>, edges: seq<DirectEdge>,
                               bindings: seq<AssetBinding>, slots: seq<InputSlot>)

  /** A committed revision as it is returned; the decoded contract may be missing. */
  datatype Revision = Revision(pipelineID: string, revisionID: string, contractDigest: string, semVersion: string,
                               canonVersion: string, canonicalBody: string, contract: Option<Contract>)

  /** A request body ready to be stored: the contract its canonical text stands for, that
      text and its digest. */
  datatype Prepared = Prepared(contract: Contract, canonical: string, digest: string)

  /** Only SINGLE is an active capability; every other spelling is out of profile. */
  datatype Cardinality = Single | OutOfProfile(text: string)

  datatype InputPort = InputPort(format: string, cardinality: Cardinality, required: bool)

  datatype OutputPort = OutputPort(format: string, cardinality: Cardinality)

  /** A parameter's allowed values; an empty list accepts any string. */
  datatype ToolFunctionDecl = ToolFunctionDecl(inputs: map<string, InputPort>, outputs: map<string, OutputPort>,
                                               parameters: map<string, seq<string>>)

  datatype AssetMember = AssetMember(format: string, cardinality: Cardinality)

  /** The exact lookups; None is a lookup that fails. */
  datatype Resolvers = Resolvers(tools: string -> Option<ToolFunctionDecl>,
                                 assets: (string, string, string) -> Option<AssetMember>)

  predicate KnownFormat(f: string) { f != "" && f != "UNKNOWN" && f != "UNSPECIFIED" }

  /** Both formats known and exactly equal: no implicit adapter. */
  predicate Q16(from: string, to: string) { KnownFormat(from) && KnownFormat(to) && from == to }

  function NodeIDOf(n: Node): string { n.nodeID }

  function ParamNameOf(p: FixedParameter): string { p.name }

  function SlotIDOf(s: InputSlot): string { s.slotID }

  function NodeIDs(nodes: seq<Node>): seq<string> { Map(NodeIDOf, nodes) }

  function ParamNames(params: seq<FixedParameter>): seq<string> { Map(ParamNameOf, params) }

  function SlotIDs(slots: seq<InputSlot>): seq<string> { Map(SlotIDOf, slots) }
}
