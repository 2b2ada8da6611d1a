/**
 The check that imported API schemas do not refer to themselves: the references found in
 each schema form a graph, and a three-colour depth-first search accepts it.
 */
module SchemaGraph {
  type Graph = map<string, set<string>>

  /** Every reference names a schema. */
  ghost predicate Resolved(g: Graph) {
    forall n, t :: n in g && t in g[n] ==> t in g
  }

  ghost predicate Path(g: Graph, p: seq<string>) {
    && (forall i :: 0 <= i < |p| ==> p[i] in g)
    && forall i :: 0 < i < |p| ==> p[i] in g[p[i - 1]]
  }

  ghost predicate Cycle(g: Graph, p: seq<string>) {
    |p| >= 2 && Path(g, p) && p[0] == p[|p| - 1]
  }

  ghost predicate Acyclic(g: Graph) {
    !exists p :: Cycle(g, p)
  }

  /** Each element's references stand before it. */
  ghost predicate Topological(g: Graph, order: seq<string>) {
    && (forall i :: 0 <= i < |order| ==> order[i] in g && g[order[i]] <= Elements(order[..i]))
    && Distinct(order)
  }

  ghost function Elements(s: seq<string>): (r: set<string>)
    ensures forall x :: x in r <==> x in s
  {
    set x | x in s
  }

  ghost predicate Distinct(s: seq<string>) {
    forall i, j :: 0 <= i < j < |s| ==> s[i] != s[j]
  }

  /** A path along references only moves back in a topological order. */
  lemma {:induction false} PathMovesBack(g: Graph, order: seq<string>, p: seq<string>, i: nat)
    requires Topological(g, order) && Path(g, p) && p != [] && i < |order| && order[i] == p[0]
    ensures exists j :: 0 <= j < |order| && order[j] == p[|p| - 1] && j <= i - (|p| - 1)
    decreases |p|
  {
    if |p| == 1 {
      assert order[i] == p[|p| - 1];
    } else {
      assert p[1] in g[p[0]];
      assert p[1] in order[..i];
      var k :| 0 <= k < i && order[k] == p[1];
      assert Path(g, p[1..]) by {
        assert forall j :: 0 <= j < |p[1..]| ==> p[1..][j] == p[j + 1];
      }
      PathMovesBack(g, order, p[1..], k);
    }
  }

  lemma {:induction false} TopologicalIsAcyclic(g: Graph, order: seq<string>)
    requires Topological(g, order) && Elements(order) == g.Keys
    ensures Acyclic(g)
  {
    forall p | Cycle(g, p) ensures false {
      assert p[0] in order;
      var i :| 0 <= i < |order| && order[i] == p[0];
      PathMovesBack(g, order, p, i);
    }
  }

  /** The search state; `stack` and `order` list `visiting` and `visited` in order of arrival. */
  class Search {
    const graph: Graph
    var visiting: set<string>
    var visited: set<string>
    ghost var stack: seq<string>
    ghost var order: seq<string>

    ghost predicate Valid()
      reads this
    {
      && Resolved(graph)
      && visiting == Elements(stack) && Path(graph, stack)
      && visited == Elements(order) && Topological(graph, order)
      && visiting !! visited
    }

    constructor (g: Graph)
      requires Resolved(g)
      ensures Valid() && graph == g && stack == [] && order == []
    {
      graph := g;
      visiting, visited := {}, {};
      stack, order := [], [];
    }

    /** `visit`; false is the error for a recursive definition. */
    method Visit(name: string) returns (ok: bool)
      requires Valid() && name in graph
      requires stack != [] ==> name in graph[stack[|stack| - 1]]
      modifies this
      ensures ok ==> Valid() && stack == old(stack) && old(visited) <= visited && name in visited
      ensures !ok ==> exists p :: Cycle(graph, p)
      decreases graph.Keys - visiting
    {
      if name in visiting {
        ghost var i :| 0 <= i < |stack| && stack[i] == name;
        assert Cycle(graph, stack[i..] + [name]);
        return false;
      }
      if name in visited {
        return true;
      }
      visiting, stack := visiting + {name}, stack + [name];
      var targets := graph[name];
      while targets != {}
        invariant Valid() && stack == old(stack) + [name] && visiting == old(visiting) + {name}
        invariant old(visited) <= visited && name !in visited
        invariant targets <= graph[name] && graph[name] - targets <= visited
        decreases targets
      {
        var target :| target in targets;
        targets := targets - {target};
        ok := Visit(target);
        if !ok {
          return;
        }
      }
      visiting, stack := visiting - {name}, old(stack);
      visited, order := visited + {name}, order + [name];
      ok := true;
    }
  }

  /**
   The search of `_validate_schema_graph` accepts exactly the graphs without a cycle,
   whatever order the sets are walked in.
   */
  method CheckGraph(g: Graph) returns (ok: bool)
    requires Resolved(g)
    ensures ok <==> Acyclic(g)
  {
    var search := new Search(g);
    var names := g.Keys;
    while names != {}
      invariant search.Valid() && search.graph == g && search.stack == []
      invariant names <= g.Keys && g.Keys - names <= search.visited
      decreases names
    {
      var name :| name in names;
      names := names - {name};
      ok := search.Visit(name);
      if !ok {
        return;
      }
    }
    TopologicalIsAcyclic(g, search.order);
    ok := true;
  }
}
