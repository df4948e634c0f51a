/** The three-colour depth-first search shared by commit validation and the spec checker,
    with a proof that it reports exactly the cycles reachable from the listed nodes. */
module Cycles {
  import opened Prelude

  /** A directed graph as its set of edges. */
  type Edges = set<(string, string)>

  /** A walk along edges; a single vertex is a walk. */
  ghost predicate IsWalk(edges: Edges, p: seq<string>) {
    p != [] && forall i :: 0 <= i < |p| - 1 ==> (p[i], p[i+1]) in edges
  }

  ghost predicate WalkBetween(edges: Edges, p: seq<string>, u: string, v: string) {
    IsWalk(edges, p) && p[0] == u && p[|p|-1] == v
  }

  ghost predicate OnCycle(edges: Edges, v: string) {
    exists p :: |p| >= 2 && WalkBetween(edges, p, v, v)
  }

  ghost predicate Reachable(edges: Edges, roots: seq<string>, v: string) {
    exists p :: IsWalk(edges, p) && p[0] in roots && p[|p|-1] == v
  }

  ghost predicate Acyclic(edges: Edges) {
    forall v :: !OnCycle(edges, v)
  }

  // ---- Finishing order ----------------------------------------------------------------

  /** Each finished vertex has all its successors before it, and stands only once. */
  ghost predicate Ranked(edges: Edges, finished: seq<string>) {
    && (forall i, v :: 0 <= i < |finished| && (finished[i], v) in edges ==> v in finished[..i])
    && (forall i, j :: 0 <= i < j < |finished| ==> finished[i] != finished[j])
  }

  /** A walk out of a finished vertex only descends in the finishing order. */
  lemma {:induction false} WalkDescends(edges: Edges, finished: seq<string>, p: seq<string>, i: nat, k: nat)
    requires Ranked(edges, finished) && IsWalk(edges, p)
    requires i < |finished| && p[0] == finished[i] && 0 < k < |p|
    ensures p[k] in finished[..i]
  {
    assert (p[k-1], p[k]) in edges;
    if k > 1 {
      WalkDescends(edges, finished, p, i, k - 1);
      var j :| 0 <= j < i && finished[j] == p[k-1];
      assert p[k] in finished[..j];
    }
  }

  lemma FinishedOffCycle(edges: Edges, finished: seq<string>, v: string)
    requires Ranked(edges, finished) && v in finished
    ensures !OnCycle(edges, v)
  {
    if OnCycle(edges, v) {
      var p :| |p| >= 2 && WalkBetween(edges, p, v, v);
      var i :| 0 <= i < |finished| && finished[i] == v;
      WalkDescends(edges, finished, p, i, |p| - 1);
    }
  }

  lemma {:induction false} ReachableFinished(edges: Edges, finished: seq<string>, p: seq<string>, k: nat)
    requires Ranked(edges, finished) && IsWalk(edges, p) && p[0] in finished && k < |p|
    ensures p[k] in finished
  {
    if k > 0 {
      assert (p[k-1], p[k]) in edges;
      ReachableFinished(edges, finished, p, k - 1);
      var i :| 0 <= i < |finished| && finished[i] == p[k-1];
      assert p[k] in finished[..i];
    }
  }

  /** An edge from the top of the stack back into the stack closes a cycle. */
  lemma BackEdge(edges: Edges, path: seq<string>, v: string)
    requires IsWalk(edges, path) && v in path && (path[|path|-1], v) in edges
    ensures OnCycle(edges, v) && Reachable(edges, [path[0]], v)
  {
    var k :| 0 <= k < |path| && path[k] == v;
    assert WalkBetween(edges, path[k..] + [v], v, v);
    assert IsWalk(edges, path[..k+1]);
  }

  // ---- The search ---------------------------------------------------------------------

  type Adjacency = map<string, seq<string>>

  function Successors(adj: Adjacency, u: string): seq<string> {
    if u in adj then adj[u] else []
  }

  ghost function EdgesOf(adj: Adjacency): Edges {
    set u, v | u in adj && v in adj[u] :: (u, v)
  }

  datatype Color = White | Gray | Black

  class Search {
    const adj: Adjacency
    var color: map<string, Color>
    ghost var finished: seq<string>

    constructor (adj: Adjacency)
      ensures this.adj == adj && color == map[] && finished == [] && Consistent([])
    {
      this.adj := adj;
      color := map[];
      finished := [];
    }

    function ColorOf(u: string): Color
      reads this
    {
      if u in color then color[u] else White
    }

    /** The grey vertices are the stack, which is a walk; the black ones are finished. */
    ghost predicate Consistent(stack: seq<string>)
      reads this
    {
      && (stack == [] || IsWalk(EdgesOf(adj), stack))
      && (forall u :: ColorOf(u) == Gray <==> u in stack)
      && (forall u :: ColorOf(u) == Black <==> u in finished)
      && Ranked(EdgesOf(adj), finished)
    }

    ghost function Touched(): set<string>
      reads this
    {
      set u | u in color && color[u] != White
    }

    /** Searches from the white vertex u, which stands on top of the stack. The number of
        white vertices falls with every call. */
    method Visit(u: string, ghost stack: seq<string>, ghost universe: set<string>) returns (r: Option<string>)
      requires Consistent(stack) && ColorOf(u) == White
      requires stack == [] || (stack[|stack|-1], u) in EdgesOf(adj)
      requires u in universe && forall e :: e in EdgesOf(adj) ==> e.1 in universe
      modifies this
      ensures r.Some? ==> OnCycle(EdgesOf(adj), r.value) && Reachable(EdgesOf(adj), [(stack + [u])[0]], r.value)
      ensures r.None? ==> Consistent(stack) && ColorOf(u) == Black
      ensures r.None? ==> old(Touched()) <= Touched() && old(finished) <= finished
      decreases universe - Touched()
    {
      ghost var path := stack + [u];
      Enter(stack, u);
      var next := Successors(adj, u);
      for i := 0 to |next|
        invariant Consistent(path) && old(finished) <= finished
        invariant old(Touched()) + {u} <= Touched()
        invariant forall j :: 0 <= j < i ==> next[j] in finished
      {
        var v := next[i];
        assert (u, v) in EdgesOf(adj);
        match ColorOf(v) {
          case Gray =>
            BackEdge(EdgesOf(adj), path, v);
            return Some(v);
          case White =>
            r := Visit(v, path, universe);
            if r.Some? {
              assert (path + [v])[0] == path[0];
              return r;
            }
          case Black =>
        }
      }
      Finish(stack, u);
      r := None;
    }

    method Enter(ghost stack: seq<string>, u: string)
      requires Consistent(stack) && ColorOf(u) == White
      requires stack == [] || (stack[|stack|-1], u) in EdgesOf(adj)
      modifies this`color
      ensures Consistent(stack + [u])
      ensures u !in old(Touched()) && Touched() == old(Touched()) + {u}
    {
      color := color[u := Gray];
      assert IsWalk(EdgesOf(adj), stack + [u]);
    }

    method Finish(ghost stack: seq<string>, u: string)
      requires Consistent(stack + [u]) && u !in stack
      requires forall v :: v in Successors(adj, u) ==> v in finished
      modifies this
      ensures Consistent(stack) && ColorOf(u) == Black
      ensures old(Touched()) <= Touched() && old(finished) <= finished
    {
      ghost var edges := EdgesOf(adj);
      assert forall x :: x in stack + [u] <==> x in stack || x == u;
      assert u in stack + [u];
      assert ColorOf(u) == Gray && u !in finished;
      assert forall i :: 0 <= i < |stack| ==> (stack + [u])[i] == stack[i];
      color := color[u := Black];
      finished := finished + [u];
      assert finished[..|finished|-1] == old(finished);
      assert Ranked(edges, finished) by {
        forall i, v | 0 <= i < |finished| && (finished[i], v) in edges ensures v in finished[..i] {
          if i < |old(finished)| { assert finished[..i] == old(finished)[..i]; } else { assert v in Successors(adj, u); }
        }
      }
    }
  }

  /** Reports a vertex on a cycle exactly when a cycle is reachable from the nodes. */
  method FindCycle(nodes: seq<string>, adj: Adjacency) returns (r: Option<string>)
    ensures r.Some? ==> OnCycle(EdgesOf(adj), r.value) && Reachable(EdgesOf(adj), nodes, r.value)
    ensures r.None? ==> forall v :: Reachable(EdgesOf(adj), nodes, v) ==> !OnCycle(EdgesOf(adj), v)
  {
    var search := new Search(adj);
    ghost var edges := EdgesOf(adj);
    ghost var universe := (set e | e in edges :: e.1) + (set u | u in nodes);
    for i := 0 to |nodes|
      invariant search.adj == adj && fresh(search)
      invariant search.Consistent([])
      invariant forall j :: 0 <= j < i ==> nodes[j] in search.finished
    {
      if search.ColorOf(nodes[i]) == White {
        r := search.Visit(nodes[i], [], universe);
        if r.Some? {
          assert ([] + [nodes[i]])[0] == nodes[i];
          ghost var p :| IsWalk(edges, p) && p[0] in [nodes[i]] && p[|p|-1] == r.value;
          assert p[0] in nodes;
          return r;
        }
      }
    }
    forall v | Reachable(edges, nodes, v) ensures !OnCycle(edges, v) {
      var p :| IsWalk(edges, p) && p[0] in nodes && p[|p|-1] == v;
      ReachableFinished(edges, search.finished, p, |p| - 1);
      FinishedOffCycle(edges, search.finished, v);
    }
    r := None;
  }

  /** When every vertex with an edge is listed, "reachable from the nodes" says nothing
      more: the search decides whether the whole graph has a cycle. */
  lemma ListedReachesAll(edges: Edges, nodes: seq<string>)
    requires forall e :: e in edges ==> e.0 in nodes
    ensures (forall v :: Reachable(edges, nodes, v) ==> !OnCycle(edges, v)) <==> Acyclic(edges)
  {
    forall v | OnCycle(edges, v) ensures Reachable(edges, nodes, v) {
      var p :| |p| >= 2 && WalkBetween(edges, p, v, v);
      assert (p[0], p[1]) in edges;
      assert IsWalk(edges, [v]) && [v][0] in nodes;
    }
  }

  /** The adjacency lists of a list of edges, in the order of the list. */
  method BuildAdjacency(pairs: seq<(string, string)>) returns (adj: Adjacency)
    ensures EdgesOf(adj) == set e | e in pairs
  {
    adj := map[];
    for i := 0 to |pairs|
      invariant EdgesOf(adj) == set e | e in pairs[..i]
    {
      var (u, v) := pairs[i];
      ghost var before := EdgesOf(adj);
      var grown := adj[u := Successors(adj, u) + [v]];
      assert EdgesOf(grown) == before + {(u, v)};
      adj := grown;
      assert pairs[..i+1] == pairs[..i] + [pairs[i]];
    }
    assert pairs[..|pairs|] == pairs;
  }
}
