/**
 The recursive cycle check on an adjacency table, with its two sets of nodes:
 those on the current path and those whose descendants are all explored.
 */
module DepthFirst {

  type Adjacency = map<string, seq<string>>

  /** Every child is itself a node. */
  ghost predicate Closed(adjacency: Adjacency) {
    forall n, c :: n in adjacency && c in adjacency[n] ==> c in adjacency
  }

  /** A path along edges; a single node is a path. */
  ghost predicate Walk(adjacency: Adjacency, path: seq<string>) {
    && path != []
    && (forall i :: 0 <= i < |path| ==> path[i] in adjacency)
    && (forall i :: 0 < i < |path| ==> path[i] in adjacency[path[i - 1]])
  }

  ghost predicate Cycle(adjacency: Adjacency, path: seq<string>) {
    Walk(adjacency, path) && |path| >= 2 && path[0] == path[|path| - 1]
  }

  ghost predicate Cyclic(adjacency: Adjacency) {
    exists path :: Cycle(adjacency, path)
  }

  /** Listed without repetition, every node after all its children. */
  ghost predicate ChildrenFirst(adjacency: Adjacency, order: seq<string>) {
    && (forall i, j :: 0 <= i < j < |order| ==> order[i] != order[j])
    && (forall i :: 0 <= i < |order| ==> order[i] in adjacency)
    && (forall i, c :: 0 <= i < |order| && c in adjacency[order[i]] ==> c in order[..i])
  }

  /** Along a walk, positions in a children-first order only go down. */
  lemma {:induction false} WalkGoesDown(adjacency: Adjacency, order: seq<string>, path: seq<string>, i: nat)
    returns (j: nat)
    requires ChildrenFirst(adjacency, order) && Walk(adjacency, path)
    requires i < |order| && order[i] == path[0]
    ensures j + |path| - 1 <= i && order[j] == path[|path| - 1]
    decreases |path|
  {
    if |path| == 1 {
      j := i;
    } else {
      assert path[1] in order[..i];
      var k :| 0 <= k < i && order[k] == path[1];
      j := WalkGoesDown(adjacency, order, path[1..], k);
    }
  }

  lemma {:induction false} ChildrenFirstIsAcyclic(adjacency: Adjacency, order: seq<string>)
    requires ChildrenFirst(adjacency, order) && forall n :: n in adjacency ==> n in order
    ensures !Cyclic(adjacency)
  {
    forall path | Cycle(adjacency, path) ensures false {
      var i :| 0 <= i < |order| && order[i] == path[0];
      var j := WalkGoesDown(adjacency, order, path, i);
    }
  }

  lemma ExtendWalk(adjacency: Adjacency, path: seq<string>, n: string)
    requires n in adjacency
    requires path != [] ==> Walk(adjacency, path) && n in adjacency[path[|path| - 1]]
    ensures Walk(adjacency, path + [n])
  {
  }

  lemma ClosesCycle(adjacency: Adjacency, path: seq<string>, n: string)
    requires Walk(adjacency, path) && n in path && n in adjacency && n in adjacency[path[|path| - 1]]
    ensures Cyclic(adjacency)
  {
    var i :| 0 <= i < |path| && path[i] == n;
    assert Cycle(adjacency, path[i..] + [n]);
  }

  lemma ExtendOrder(adjacency: Adjacency, order: seq<string>, n: string)
    requires ChildrenFirst(adjacency, order) && n in adjacency && n !in order
    requires forall c :: c in adjacency[n] ==> c in order
    ensures ChildrenFirst(adjacency, order + [n])
  {
    var longer := order + [n];
    forall i, c | 0 <= i < |longer| && c in adjacency[longer[i]] ensures c in longer[..i] {
      assert longer[..i] == order[..i];
      if i == |order| { assert order[..i] == order; }
    }
  }

  function Members(nodes: seq<string>): set<string> {
    set n | n in nodes
  }

  /** `trail` lists the nodes being visited, outermost first; `finished` the visited ones, in the
      order they finished. */
  ghost predicate Consistent(
    adjacency: Adjacency, visiting: set<string>, visited: set<string>, trail: seq<string>, finished: seq<string>)
  {
    && Closed(adjacency)
    && visiting == Members(trail)
    && (trail != [] ==> Walk(adjacency, trail))
    && visited == Members(finished)
    && ChildrenFirst(adjacency, finished)
    && visiting !! visited
  }

  lemma {:induction false} Enter(
    adjacency: Adjacency, visiting: set<string>, visited: set<string>, trail: seq<string>, finished: seq<string>,
    n: string)
    requires Consistent(adjacency, visiting, visited, trail, finished)
    requires n in adjacency && n !in visited && (trail != [] ==> n in adjacency[trail[|trail| - 1]])
    ensures Consistent(adjacency, visiting + {n}, visited, trail + [n], finished)
  {
    ExtendWalk(adjacency, trail, n);
  }

  lemma Leave(
    adjacency: Adjacency, visiting: set<string>, visited: set<string>, trail: seq<string>, finished: seq<string>,
    n: string)
    requires Consistent(adjacency, visiting + {n}, visited, trail + [n], finished)
    requires n !in visiting && n !in trail
    requires forall k :: 0 <= k < |adjacency[n]| ==> adjacency[n][k] in visited
    ensures Consistent(adjacency, visiting, visited + {n}, trail, finished + [n])
  {
    ExtendOrder(adjacency, finished, n);
    var longer := trail + [n];
    assert Members(longer) == Members(trail) + {n};
    if trail != [] {
      assert forall i :: 0 <= i < |trail| ==> longer[i] == trail[i];
    }
  }

  class Explorer {
    const adjacency: Adjacency
    var visiting: set<string>
    var visited: set<string>
    ghost var trail: seq<string>
    ghost var finished: seq<string>

    ghost predicate Valid()
      reads this
    {
      Consistent(adjacency, visiting, visited, trail, finished)
    }

    /** `n` is a child of the node being visited, or starts a new trail. */
    ghost predicate FollowsTrail(n: string)
      requires Valid()
      reads this
    {
      trail != [] ==> n in adjacency[trail[|trail| - 1]]
    }

    constructor (adjacency: Adjacency)
      requires Closed(adjacency)
      ensures Valid() && this.adjacency == adjacency && trail == [] && finished == []
    {
      this.adjacency := adjacency;
      visiting, visited, trail, finished := {}, {}, [], [];
    }

    /** Explores everything below `node`, or finds that some path leads back into itself. */
    method Visit(node: string) returns (acyclic: bool)
      requires Valid() && node in adjacency
      requires FollowsTrail(node)
      modifies this
      ensures acyclic ==> Valid() && node in visited
      ensures acyclic ==> trail == old(trail) && visiting == old(visiting) && old(visited) <= visited
      ensures !acyclic ==> Cyclic(adjacency)
      decreases |adjacency.Keys - visiting|, 1
    {
      if node in visiting {
        ClosesCycle(adjacency, trail, node);
        return false;
      }
      if node in visited {
        return true;
      }
      acyclic := Explore(node);
    }

    /** A node met for the first time: it is being visited while its children are, and visited then. */
    method Explore(node: string) returns (acyclic: bool)
      requires Valid() && node in adjacency && node !in visiting && node !in visited
      requires FollowsTrail(node)
      modifies this
      ensures acyclic ==> Valid() && node in visited
      ensures acyclic ==> trail == old(trail) && visiting == old(visiting) && old(visited) <= visited
      ensures !acyclic ==> Cyclic(adjacency)
      decreases |adjacency.Keys - visiting|, 0
    {
      Shrinks(adjacency.Keys, visiting, node);
      Enter(adjacency, visiting, visited, trail, finished, node);
      visiting := visiting + {node};
      trail := trail + [node];
      acyclic := VisitChildren(node);
      if acyclic {
        Leave(adjacency, old(visiting), visited, old(trail), finished, node);
        visiting := visiting - {node};
        assert visiting == old(visiting);
        visited := visited + {node};
        trail := old(trail);
        finished := finished + [node];
      }
    }

    /** The children of the node being visited, in the order the table lists them. */
    method VisitChildren(node: string) returns (acyclic: bool)
      requires Valid() && trail != [] && node == trail[|trail| - 1] && node in adjacency
      modifies this
      ensures acyclic ==> Valid() && forall k :: 0 <= k < |adjacency[node]| ==> adjacency[node][k] in visited
      ensures acyclic ==> trail == old(trail) && visiting == old(visiting) && old(visited) <= visited
      ensures !acyclic ==> Cyclic(adjacency)
      decreases |adjacency.Keys - visiting|, 2
    {
      for k := 0 to |adjacency[node]|
        invariant Valid()
        invariant trail == old(trail) && visiting == old(visiting) && old(visited) <= visited
        invariant forall m :: 0 <= m < k ==> adjacency[node][m] in visited
      {
        acyclic := Visit(adjacency[node][k]);
        if !acyclic {
          return;
        }
      }
      acyclic := true;
    }

    /** Visits every node, in no particular order. */
    method VisitAll() returns (acyclic: bool)
      requires Valid() && trail == [] && finished == []
      modifies this
      ensures acyclic <==> !Cyclic(adjacency)
    {
      var todo := adjacency.Keys;
      while todo != {}
        invariant Valid() && trail == [] && todo <= adjacency.Keys
        invariant forall n :: n in adjacency.Keys - todo ==> n in visited
      {
        var node :| node in todo;
        acyclic := Visit(node);
        if !acyclic {
          return;
        }
        todo := todo - {node};
      }
      assert forall n :: n in adjacency ==> n in Members(finished);
      ChildrenFirstIsAcyclic(adjacency, finished);
      acyclic := true;
    }
  }

  lemma Shrinks(all: set<string>, some: set<string>, n: string)
    requires n in all && n !in some
    ensures |all - (some + {n})| < |all - some|
  {
    assert all - some == (all - (some + {n})) + {n};
  }
}
