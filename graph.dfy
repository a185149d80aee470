/**
 * The dependency resolution of the monorepo manager: a depth-first search
 * that lists every node after everything it depends on.
 *
 * A graph maps each node to its dependencies and iterates its nodes in
 * insertion order (`keys`). The search terminates only on an acyclic graph
 * (a node is marked visited only after its dependencies), so its callers
 * give a `rank` under which every dependency ranks below its dependant.
 */
module Graph {
  import opened Wrappers
  import opened Uniqueness

  datatype Graph<T> = Graph(keys: seq<T>, edges: map<T, seq<T>>)

  /** The keys in order are exactly the nodes, and every dependency is itself a node (else `graph[start]` raises). */
  ghost predicate WellFormed<T(!new)>(g: Graph<T>)
  {
    NoDuplicates(g.keys) &&
    (forall n :: n in g.edges <==> n in g.keys) &&
    (forall u, v :: u in g.edges && v in g.edges[u] ==> v in g.edges)
  }

  /** `rank` witnesses that the graph is acyclic. */
  ghost predicate Ranked<T(!new)>(g: Graph<T>, rank: map<T, nat>)
  {
    WellFormed(g) &&
    (forall n :: n in g.edges ==> n in rank) &&
    (forall u, v :: u in g.edges && v in g.edges[u] ==> rank[v] < rank[u])
  }

  /**
   * The search from `start` (line 33-36): unless visited, its dependencies
   * first, then `start` itself. A start already listed is never looked up, so
   * it need not be a node.
   */
  function Visit<T(==,!new)>(g: Graph<T>, rank: map<T, nat>, start: T, visited: seq<T>): seq<T>
    requires Ranked(g, rank) && (start in visited || start in g.edges)
    decreases if start in g.edges then rank[start] else 0, 1
  {
    if start in visited then visited
    else VisitAll(g, rank, start, g.edges[start], visited) + [start]
  }

  /** The search from each of `nodes`, dependencies of `parent`, in turn. */
  function VisitAll<T(==,!new)>(g: Graph<T>, rank: map<T, nat>, parent: T, nodes: seq<T>, visited: seq<T>): seq<T>
    requires Ranked(g, rank) && parent in g.edges
    requires forall n :: n in nodes ==> n in g.edges[parent]
    decreases rank[parent], 0, |nodes|
  {
    if nodes == [] then visited
    else VisitAll(g, rank, parent, nodes[1..], Visit(g, rank, nodes[0], visited))
  }

  /** The search from each of the graph's keys (line 28-31). */
  function VisitKeys<T(==,!new)>(g: Graph<T>, rank: map<T, nat>, keys: seq<T>, visited: seq<T>): seq<T>
    requires Ranked(g, rank) && forall n :: n in keys ==> n in g.edges
  {
    if keys == [] then visited
    else VisitKeys(g, rank, keys[1..], Visit(g, rank, keys[0], visited))
  }

  /** Post-order: every listed node is a node of the graph, listed after all its dependencies. */
  predicate DependenciesFirst<T(==,!new)>(g: Graph<T>, s: seq<T>)
  {
    forall i :: 0 <= i < |s| ==> s[i] in g.edges && forall d :: d in g.edges[s[i]] ==> d in s[..i]
  }

  lemma DependenciesFirstPrefix<T(!new)>(g: Graph<T>, s: seq<T>, t: seq<T>)
    requires DependenciesFirst(g, s + t)
    ensures DependenciesFirst(g, s)
  {
    forall i | 0 <= i < |s|
      ensures s[i] in g.edges && forall d :: d in g.edges[s[i]] ==> d in s[..i]
    {
      assert (s + t)[i] == s[i] && (s + t)[..i] == s[..i];
    }
  }

  /**
   * What the search from `start` does: it only appends, it lists `start`,
   * what it adds ranks no higher than `start`, and it keeps the list free of
   * duplicates and in post-order.
   */
  lemma {:induction false} VisitProperties<T(!new)>(g: Graph<T>, rank: map<T, nat>, start: T, visited: seq<T>)
    requires Ranked(g, rank) && start in g.edges
    decreases rank[start], 1
    ensures var r := Visit(g, rank, start, visited);
      visited <= r && start in r &&
      (forall x :: x in r[|visited|..] ==> x in g.edges && rank[x] <= rank[start]) &&
      (NoDuplicates(visited) ==> NoDuplicates(r)) &&
      (DependenciesFirst(g, visited) ==> DependenciesFirst(g, r))
  {
    if start !in visited {
      var children := g.edges[start];
      VisitAllProperties(g, rank, start, children, visited);
      var inner := VisitAll(g, rank, start, children, visited);
      AppendedRanks(g, rank, visited, inner, start);
      if NoDuplicates(visited) {
        NoDuplicatesAppend(inner, start);
      }
      if DependenciesFirst(g, visited) {
        DependenciesFirstAppend(g, inner, start);
      }
    }
  }

  lemma AppendedRanks<T(!new)>(g: Graph<T>, rank: map<T, nat>, visited: seq<T>, inner: seq<T>, start: T)
    requires Ranked(g, rank) && start in g.edges && visited <= inner
    requires forall x :: x in inner[|visited|..] ==> x in g.edges && rank[x] < rank[start]
    ensures forall x :: x in (inner + [start])[|visited|..] ==> x in g.edges && rank[x] <= rank[start]
  {
    var r := inner + [start];
    forall x | x in r[|visited|..]
      ensures x in g.edges && rank[x] <= rank[start]
    {
      if x != start {
        var k :| |visited| <= k < |r| && r[k] == x;
        assert inner[k] == x;
        assert x in inner[|visited|..];
      }
    }
  }

  lemma DependenciesFirstAppend<T(!new)>(g: Graph<T>, inner: seq<T>, start: T)
    requires DependenciesFirst(g, inner) && start in g.edges
    requires forall d :: d in g.edges[start] ==> d in inner
    ensures DependenciesFirst(g, inner + [start])
  {
    var r := inner + [start];
    forall i | 0 <= i < |r|
      ensures r[i] in g.edges && forall d :: d in g.edges[r[i]] ==> d in r[..i]
    {
      if i < |inner| {
        assert r[i] == inner[i] && r[..i] == inner[..i];
      } else {
        assert r[..i] == inner;
      }
    }
  }

  lemma {:induction false} VisitAllProperties<T(!new)>(g: Graph<T>, rank: map<T, nat>, parent: T, nodes: seq<T>, visited: seq<T>)
    requires Ranked(g, rank) && parent in g.edges
    requires forall n :: n in nodes ==> n in g.edges[parent]
    decreases rank[parent], 0, |nodes|
    ensures var r := VisitAll(g, rank, parent, nodes, visited);
      visited <= r && (forall n :: n in nodes ==> n in r) &&
      (forall x :: x in r[|visited|..] ==> x in g.edges && rank[x] < rank[parent]) &&
      (NoDuplicates(visited) ==> NoDuplicates(r)) &&
      (DependenciesFirst(g, visited) ==> DependenciesFirst(g, r))
  {
    if nodes != [] {
      var v1 := Visit(g, rank, nodes[0], visited);
      VisitProperties(g, rank, nodes[0], visited);
      VisitAllProperties(g, rank, parent, nodes[1..], v1);
      var r := VisitAll(g, rank, parent, nodes[1..], v1);
      assert nodes[0] in r by {
        var k :| 0 <= k < |v1| && v1[k] == nodes[0];
        assert r[k] == nodes[0];
      }
      forall n | n in nodes
        ensures n in r
      {
        if n != nodes[0] {
          assert n in nodes[1..];
        }
      }
      forall x | x in r[|visited|..]
        ensures x in g.edges && rank[x] < rank[parent]
      {
        var k :| |visited| <= k < |r| && r[k] == x;
        if k < |v1| {
          assert v1[k] == x;
          assert x in v1[|visited|..];
        } else {
          assert x in r[|v1|..];
        }
      }
    }
  }

  lemma NoDuplicatesAppend<T(!new)>(s: seq<T>, x: T)
    requires NoDuplicates(s) && x !in s
    ensures NoDuplicates(s + [x])
  {
  }

  /** The search over all keys: it only appends, lists every key, and keeps the list distinct and in post-order. */
  lemma {:induction false} VisitKeysProperties<T(!new)>(g: Graph<T>, rank: map<T, nat>, keys: seq<T>, visited: seq<T>)
    requires Ranked(g, rank) && forall n :: n in keys ==> n in g.edges
    ensures var r := VisitKeys(g, rank, keys, visited);
      visited <= r && (forall n :: n in keys ==> n in r) &&
      (NoDuplicates(visited) ==> NoDuplicates(r)) &&
      (DependenciesFirst(g, visited) ==> DependenciesFirst(g, r))
  {
    if keys != [] {
      var v1 := Visit(g, rank, keys[0], visited);
      VisitProperties(g, rank, keys[0], visited);
      VisitKeysProperties(g, rank, keys[1..], v1);
      var r := VisitKeys(g, rank, keys[1..], v1);
      assert keys[0] in r by {
        var k :| 0 <= k < |v1| && v1[k] == keys[0];
        assert r[k] == keys[0];
      }
      forall n | n in keys
        ensures n in r
      {
        if n != keys[0] {
          assert n in keys[1..];
        }
      }
    }
  }

  /** Searching from nodes already listed adds nothing. */
  lemma {:induction false} VisitKeysVisited<T(!new)>(g: Graph<T>, rank: map<T, nat>, keys: seq<T>, visited: seq<T>)
    requires Ranked(g, rank) && forall n :: n in keys ==> n in g.edges && n in visited
    ensures VisitKeys(g, rank, keys, visited) == visited
  {
    if keys != [] {
      VisitKeysVisited(g, rank, keys[1..], visited);
    }
  }

  /** Searching from `a` then `b` is searching from `a + b`. */
  lemma {:induction false} VisitKeysConcat<T(!new)>(g: Graph<T>, rank: map<T, nat>, a: seq<T>, b: seq<T>, visited: seq<T>)
    requires Ranked(g, rank) && forall n :: n in a + b ==> n in g.edges
    ensures VisitKeys(g, rank, a + b, visited) == VisitKeys(g, rank, b, VisitKeys(g, rank, a, visited))
  {
    if a != [] {
      assert (a + b)[1..] == a[1..] + b;
      VisitKeysConcat(g, rank, a[1..], b, Visit(g, rank, a[0], visited));
    } else {
      assert a + b == b;
    }
  }

  /** A second search over the same keys with the same list changes nothing. */
  lemma VisitKeysIdempotent<T(!new)>(g: Graph<T>, rank: map<T, nat>, keys: seq<T>, visited: seq<T>)
    requires Ranked(g, rank) && forall n :: n in keys ==> n in g.edges
    ensures VisitKeys(g, rank, keys, VisitKeys(g, rank, keys, visited)) == VisitKeys(g, rank, keys, visited)
  {
    VisitKeysProperties(g, rank, keys, visited);
    VisitKeysVisited(g, rank, keys, VisitKeys(g, rank, keys, visited));
  }

  /** `depth_first_search` with no start node and a fresh list: every node once, dependencies first. */
  lemma SearchAllProperties<T(!new)>(g: Graph<T>, rank: map<T, nat>)
    requires Ranked(g, rank)
    ensures var r := VisitKeys(g, rank, g.keys, []);
      NoDuplicates(r) && DependenciesFirst(g, r) && (forall n :: n in g.edges <==> n in r)
  {
    VisitKeysProperties(g, rank, g.keys, []);
  }

  /** The list shared by the recursive calls. */
  class NodeList<T> {
    var items: seq<T>

    constructor(items: seq<T>)
      ensures this.items == items
    {
      this.items := items;
    }

    method Append(x: T)
      modifies this
      ensures items == old(items) + [x]
    {
      items := items + [x];
    }
  }

  /** Lines 33-36: the recursion that appends to the shared list. */
  method VisitNode<T(==,!new)>(g: Graph<T>, ghost rank: map<T, nat>, start: T, visited: NodeList<T>)
    requires Ranked(g, rank) && (start in visited.items || start in g.edges)
    modifies visited
    decreases if start in g.edges then rank[start] else 0
    ensures visited.items == Visit(g, rank, start, old(visited.items))
  {
    if start !in visited.items {
      var children := g.edges[start];
      for i := 0 to |children|
        invariant VisitAll(g, rank, start, children, old(visited.items)) == VisitAll(g, rank, start, children[i..], visited.items)
      {
        assert children[i..][1..] == children[i + 1..];
        VisitNode(g, rank, children[i], visited);
      }
      visited.Append(start);
    }
  }

  /** `depth_first_search`: a fresh list unless one is given, which is extended in place and returned. */
  method DepthFirstSearch<T(==,!new)>(g: Graph<T>, ghost rank: map<T, nat>, start: Option<T>, visited: Option<NodeList<T>>) returns (result: NodeList<T>)
    requires Ranked(g, rank)
    requires start.Some? ==> start.value in g.edges || (visited.Some? && start.value in visited.value.items)
    modifies if visited.Some? then {visited.value} else {}
    ensures visited.Some? ==> result == visited.value
    ensures visited.None? ==> fresh(result)
    ensures var before := if visited.Some? then old(visited.value.items) else [];
      result.items == if start.None? then VisitKeys(g, rank, g.keys, before) else Visit(g, rank, start.value, before)
  {
    if visited.None? {
      result := new NodeList<T>([]);
    } else {
      result := visited.value;
    }
    if start.None? {
      ghost var before := result.items;
      for i := 0 to |g.keys|
        invariant VisitKeys(g, rank, g.keys, before) == VisitKeys(g, rank, g.keys[i..], result.items)
      {
        assert g.keys[i..][1..] == g.keys[i + 1..];
        VisitNode(g, rank, g.keys[i], result);
      }
      return;
    }
    VisitNode(g, rank, start.value, result);
  }

  /** The graph of the source's test, its one-letter node names as characters. */
  function SampleGraph(): Graph<char>
  {
    Graph(['1', 'a', 'b', 'c', 'd', 'e', 'f'],
      map['1' := [], 'a' := ['b', 'c'], 'b' := ['d'], 'c' := ['d'], 'd' := ['e'], 'e' := [], 'f' := []])
  }

  function SampleRank(): map<char, nat>
  {
    map['1' := 0, 'a' := 3, 'b' := 2, 'c' := 2, 'd' := 1, 'e' := 0, 'f' := 0]
  }

  /** The dependencies of the test's graph, node by node. */
  ghost predicate SampleEdges(g: Graph<char>)
  {
    '1' in g.edges && 'a' in g.edges && 'b' in g.edges && 'c' in g.edges && 'd' in g.edges && 'e' in g.edges && 'f' in g.edges &&
    g.edges['1'] == [] && g.edges['a'] == ['b', 'c'] && g.edges['b'] == ['d'] && g.edges['c'] == ['d'] &&
    g.edges['d'] == ['e'] && g.edges['e'] == [] && g.edges['f'] == []
  }

  /** The nodes of the test's graph, in insertion order. */
  ghost predicate SampleKeys(g: Graph<char>)
  {
    g.keys == ['1', 'a', 'b', 'c', 'd', 'e', 'f'] && g.edges.Keys == {'1', 'a', 'b', 'c', 'd', 'e', 'f'}
  }

  lemma SampleRanked()
    ensures SampleKeys(SampleGraph()) && SampleEdges(SampleGraph()) && Ranked(SampleGraph(), SampleRank())
  {
    var g, rank := SampleGraph(), SampleRank();
    assert g.edges.Keys == {'1', 'a', 'b', 'c', 'd', 'e', 'f'};
    assert SampleKeys(g) && SampleEdges(g);
    SampleEdgesRanked(g, rank);
  }

  /** Every edge of the test's graph goes down in rank. */
  lemma SampleEdgesRanked(g: Graph<char>, rank: map<char, nat>)
    requires SampleKeys(g) && SampleEdges(g) && rank == SampleRank()
    ensures Ranked(g, rank)
  {
    assert NoDuplicates(g.keys);
    forall u, v | u in g.edges && v in g.edges[u]
      ensures v in g.edges && rank[v] < rank[u]
    {
      SampleEdgeRanked(g, rank, u, v);
    }
  }

  lemma SampleEdgeRanked(g: Graph<char>, rank: map<char, nat>, u: char, v: char)
    requires SampleKeys(g) && SampleEdges(g) && rank == SampleRank()
    requires u in g.edges && v in g.edges[u]
    ensures v in g.edges && rank[v] < rank[u]
  {
    assert u in {'1', 'a', 'b', 'c', 'd', 'e', 'f'};
  }

  /** The search from a node already listed, whether or not it is a node of the graph, changes nothing. */
  lemma VisitListed<T(!new)>(g: Graph<T>, rank: map<T, nat>, n: T, s: seq<T>)
    requires Ranked(g, rank) && n in s
    ensures Visit(g, rank, n, s) == s
  {
  }

  /** The search from a node not yet listed: its dependencies, then the node. */
  lemma VisitUnseen<T(!new)>(g: Graph<T>, rank: map<T, nat>, n: T, s: seq<T>)
    requires Ranked(g, rank) && n in g.edges && n !in s
    ensures Visit(g, rank, n, s) == VisitAll(g, rank, n, g.edges[n], s) + [n]
  {
  }

  lemma VisitLeaf<T(!new)>(g: Graph<T>, rank: map<T, nat>, n: T, s: seq<T>)
    requires Ranked(g, rank) && n in g.edges && n !in s && g.edges[n] == []
    ensures Visit(g, rank, n, s) == s + [n]
  {
    VisitUnseen(g, rank, n, s);
  }

  lemma VisitOneChild<T(!new)>(g: Graph<T>, rank: map<T, nat>, n: T, c: T, s: seq<T>)
    requires Ranked(g, rank) && n in g.edges && n !in s && g.edges[n] == [c]
    ensures Visit(g, rank, n, s) == Visit(g, rank, c, s) + [n]
  {
    VisitUnseen(g, rank, n, s);
    assert [c][1..] == [];
  }

  lemma VisitTwoChildren<T(!new)>(g: Graph<T>, rank: map<T, nat>, n: T, c1: T, c2: T, s: seq<T>)
    requires Ranked(g, rank) && n in g.edges && n !in s && g.edges[n] == [c1, c2]
    ensures Visit(g, rank, n, s) == Visit(g, rank, c2, Visit(g, rank, c1, s)) + [n]
  {
    VisitUnseen(g, rank, n, s);
    var s1 := Visit(g, rank, c1, s);
    assert [c1, c2][1..] == [c2];
    assert VisitAll(g, rank, n, [c1, c2], s) == VisitAll(g, rank, n, [c2], s1);
    assert [c2][1..] == [];
    assert VisitAll(g, rank, n, [c2], s1) == Visit(g, rank, c2, s1);
  }

  lemma SampleBranchB(g: Graph<char>, rank: map<char, nat>)
    requires Ranked(g, rank) && SampleEdges(g)
    ensures Visit(g, rank, 'b', ['1']) == ['1', 'e', 'd', 'b']
  {
    VisitLeaf(g, rank, 'e', ['1']);
    assert Visit(g, rank, 'e', ['1']) == ['1', 'e'];
    VisitOneChild(g, rank, 'd', 'e', ['1']);
    assert Visit(g, rank, 'd', ['1']) == ['1', 'e', 'd'];
    VisitOneChild(g, rank, 'b', 'd', ['1']);
  }

  lemma SampleBranchA(g: Graph<char>, rank: map<char, nat>)
    requires Ranked(g, rank) && SampleEdges(g)
    ensures Visit(g, rank, 'a', ['1']) == ['1', 'e', 'd', 'b', 'c', 'a']
  {
    SampleBranchB(g, rank);
    var s := ['1', 'e', 'd', 'b'];
    assert Visit(g, rank, 'd', s) == s;
    VisitOneChild(g, rank, 'c', 'd', s);
    assert Visit(g, rank, 'c', s) == ['1', 'e', 'd', 'b', 'c'];
    VisitTwoChildren(g, rank, 'a', 'b', 'c', ['1']);
    assert ['1', 'e', 'd', 'b', 'c'] + ['a'] == ['1', 'e', 'd', 'b', 'c', 'a'];
  }

  /** After `a`, the remaining keys up to `e` are all visited already, and `f` comes last. */
  lemma SampleVisitedKeys(g: Graph<char>, rank: map<char, nat>, s: seq<char>)
    requires Ranked(g, rank) && SampleEdges(g)
    requires 'b' in s && 'c' in s && 'd' in s && 'e' in s && 'f' !in s
    ensures VisitKeys(g, rank, ['b', 'c', 'd', 'e'] + ['f'], s) == s + ['f']
  {
    SampleDone(g, rank, s);
    SampleLeafF(g, rank, s);
    VisitKeysConcat(g, rank, ['b', 'c', 'd', 'e'], ['f'], s);
  }

  lemma SampleKeysAfterA(g: Graph<char>)
    requires SampleKeys(g)
    ensures g.keys[2..] == ['b', 'c', 'd', 'e'] + ['f']
  {
  }

  lemma SampleDone(g: Graph<char>, rank: map<char, nat>, s: seq<char>)
    requires Ranked(g, rank) && SampleEdges(g)
    requires 'b' in s && 'c' in s && 'd' in s && 'e' in s
    ensures VisitKeys(g, rank, ['b', 'c', 'd', 'e'], s) == s
  {
    var done := ['b', 'c', 'd', 'e'];
    assert forall n :: n in done ==> n in g.edges && n in s;
    VisitKeysVisited(g, rank, done, s);
  }

  lemma SampleLeafF(g: Graph<char>, rank: map<char, nat>, s: seq<char>)
    requires Ranked(g, rank) && SampleEdges(g) && 'f' !in s
    ensures VisitKeys(g, rank, ['f'], s) == s + ['f']
  {
    VisitLeaf(g, rank, 'f', s);
    assert ['f'][1..] == [];
  }

  /** The order of the source's test: `1`, then `a` after its dependencies, then `f`. */
  lemma SampleSearch(g: Graph<char>, rank: map<char, nat>)
    requires Ranked(g, rank) && SampleKeys(g) && SampleEdges(g)
    ensures VisitKeys(g, rank, g.keys, []) == ['1', 'e', 'd', 'b', 'c', 'a', 'f']
  {
    SampleSearchHead(g, rank);
    SampleAfterA(g, rank);
  }

  /** After `1` and `a`, only `f` is left to list. */
  lemma SampleAfterA(g: Graph<char>, rank: map<char, nat>)
    requires Ranked(g, rank) && SampleEdges(g)
    ensures VisitKeys(g, rank, ['b', 'c', 'd', 'e'] + ['f'], Visit(g, rank, 'a', ['1'])) == ['1', 'e', 'd', 'b', 'c', 'a', 'f']
  {
    SampleBranchA(g, rank);
    var s := ['1', 'e', 'd', 'b', 'c', 'a'];
    SampleVisitedKeys(g, rank, s);
    assert s + ['f'] == ['1', 'e', 'd', 'b', 'c', 'a', 'f'];
  }

  /** The search of the test's graph visits `1` and then `a` before the remaining keys. */
  lemma SampleSearchHead(g: Graph<char>, rank: map<char, nat>)
    requires Ranked(g, rank) && SampleKeys(g) && SampleEdges(g)
    ensures VisitKeys(g, rank, g.keys, []) == VisitKeys(g, rank, ['b', 'c', 'd', 'e'] + ['f'], Visit(g, rank, 'a', ['1']))
  {
    SampleKeysAfterA(g);
    VisitLeaf(g, rank, '1', []);
    assert Visit(g, rank, '1', []) == ['1'];
    assert g.keys[1..][1..] == g.keys[2..];
  }

  /** The search of the test's graph itself. */
  lemma SampleGraphSearch()
    ensures Ranked(SampleGraph(), SampleRank()) &&
      VisitKeys(SampleGraph(), SampleRank(), SampleGraph().keys, []) == ['1', 'e', 'd', 'b', 'c', 'a', 'f']
  {
    SampleRanked();
    SampleSearch(SampleGraph(), SampleRank());
  }
}
