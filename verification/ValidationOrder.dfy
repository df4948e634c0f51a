/** Validation factors through the canonical form: what decides it is the contract up to the
    order of its lists, and canonical text determines that. */
module ValidationOrder {
  import opened Prelude
  import opened Ordering
  import opened Contracts
  import opened Cycles
  import opened Canonical
  import opened Validation

  /** A node of a has a twin in b: the same id and pin, and the same parameters up to order. */
  lemma Twin(a: seq<Node>, b: seq<Node>, n: Node) returns (m: Node)
    requires multiset(Map(FormOf, a)) == multiset(Map(FormOf, b)) && n in a
    ensures m in b && FormOf(m) == FormOf(n)
  {
    MapMember(FormOf, a, n);
    assert FormOf(n) in multiset(Map(FormOf, b));
    var j :| 0 <= j < |b| && Map(FormOf, b)[j] == FormOf(n);
    m := b[j];
  }

  lemma SameMembers<T>(a: seq<T>, b: seq<T>)
    requires multiset(a) == multiset(b)
    ensures forall x :: x in a <==> x in b
  {
    forall x ensures x in a <==> x in b {
      assert x in a <==> x in multiset(a);
      assert x in b <==> x in multiset(b);
    }
  }

  lemma TwinOK(n: Node, m: Node, res: Resolvers)
    requires FormOf(m) == FormOf(n) && m.toolProfile.None? && NodeOK(n, res)
    ensures NodeOK(m, res)
  {
    MapPermutation(ParamNameOf, n.params, m.params);
    SameDuplicates(ParamNames(n.params), ParamNames(m.params));
    SameMembers(n.params, m.params);
  }

  lemma NodesAlike(a: seq<Node>, b: seq<Node>, res: Resolvers)
    requires multiset(Map(FormOf, a)) == multiset(Map(FormOf, b)) && NodesOK(a, res)
    requires forall m :: m in b ==> m.toolProfile.None?
    ensures NodesOK(b, res)
  {
    MapFactor(FormOf, NodeIDOf, a, b);
    SameDuplicates(NodeIDs(a), NodeIDs(b));
    forall m | m in b ensures NodeOK(m, res) {
      var n := Twin(b, a, m);
      TwinOK(n, m, res);
    }
  }

  lemma PinnedAlike(a: seq<Node>, b: seq<Node>, res: Resolvers, decls: Decls)
    requires multiset(Map(FormOf, a)) == multiset(Map(FormOf, b)) && Pinned(a, res, decls)
    ensures Pinned(b, res, decls)
  {
    forall m | m in b ensures m.nodeID in decls && res.tools(m.casHash) == Some(decls[m.nodeID]) {
      var n := Twin(b, a, m);
      assert n.nodeID == FormOf(m).nodeID && n.casHash == FormOf(m).casHash;
    }
    forall id | id in decls ensures exists m :: m in b && m.nodeID == id {
      var n :| n in a && n.nodeID == id;
      var m := Twin(a, b, n);
      assert m.nodeID == FormOf(n).nodeID;
    }
  }

  lemma LinksAlike(a: Contract, b: Contract, res: Resolvers, decls: Decls)
    requires SameUpToOrder(a, b) && LinksOK(a, res, decls)
    ensures LinksOK(b, res, decls)
  {
    SameDuplicates(a.edges, b.edges);
    SameMembers(a.edges, b.edges);
    SameDuplicates(a.bindings, b.bindings);
    SameMembers(a.bindings, b.bindings);
    MapPermutation(SlotIDOf, a.slots, b.slots);
    SameDuplicates(SlotIDs(a.slots), SlotIDs(b.slots));
    SameMembers(a.slots, b.slots);
    MapPermutation(EdgeTarget, a.edges, b.edges);
    MapPermutation(BindingTarget, a.bindings, b.bindings);
    MapPermutation(SlotTarget, a.slots, b.slots);
    assert Targets(a) == Targets(b);
  }

  lemma LinkedAlike(a: Contract, b: Contract, res: Resolvers)
    requires SameUpToOrder(a, b) && Linked(a, res)
    ensures Linked(b, res)
  {
    var decls :| Pinned(a.nodes, res, decls) && LinksOK(a, res, decls);
    PinnedAlike(a.nodes, b.nodes, res, decls);
    LinksAlike(a, b, res, decls);
  }

  lemma SameDependencies(a: seq<DirectEdge>, b: seq<DirectEdge>)
    requires multiset(a) == multiset(b)
    ensures Dependencies(a) == Dependencies(b)
  {
    SameMembers(a, b);
  }

  lemma AcceptedAlike(a: Contract, b: Contract, res: Resolvers)
    requires SameUpToOrder(a, b) && NoProfiles(b) && Acceptable(a, res)
    ensures Acceptable(b, res)
  {
    NodesAlike(a.nodes, b.nodes, res);
    LinkedAlike(a, b, res);
    SameDependencies(a.edges, b.edges);
  }

  /** Two contracts with the same canonical text are both accepted or both refused, whatever
      the order of their lists and of the program's map iterations. This is what lets a
      store return a converged revision without validating the request again. */
  lemma ValidationFactors(a: Contract, b: Contract, res: Resolvers)
    requires NoProfiles(a) && NoProfiles(b) && CanonicalText(a) == CanonicalText(b)
    ensures Acceptable(a, res) <==> Acceptable(b, res)
  {
    CanonicalInjective(a, b);
    if Acceptable(a, res) { AcceptedAlike(a, b, res); }
    if Acceptable(b, res) { AcceptedAlike(b, a, res); }
  }

  /** Validating the parsed canonical form is validating the contract. */
  lemma ValidationOfCanonical(c: Contract, res: Resolvers)
    requires NoProfiles(c)
    ensures Acceptable(c, res) <==> Acceptable(Sorted(c), res)
  {
    SortedTwice(c);
    ValidationFactors(c, Sorted(c), res);
  }
}
