/**
 The server's flat index over the node tree: nodes by path text, nodes by id, endpoints by path text.

 Adding and removing walk a subtree.  They are specified by which nodes and endpoints the three maps
 file, which determines the maps completely, and by the number of traced errors, which does not
 change: no key is ever found occupied when it is added, or missing when it is removed.
 */
module StateTables {
  import opened Paths
  import opened Forest

  /** `t` holds exactly the nodes of `D`, each under the text of its path. */
  ghost predicate FilesNodes(t: map<string, Node>, D: set<Node>)
    reads D`path
  {
    && (forall n :: n in D ==> Join(n.path) in t && t[Join(n.path)] == n)
    && (forall k :: k in t ==> t[k] in D && Join(t[k].path) == k)
  }

  ghost predicate FilesIds(t: map<nat, Node>, D: set<Node>) {
    && (forall n :: n in D ==> n.id in t && t[n.id] == n)
    && (forall k :: k in t ==> t[k] in D && t[k].id == k)
  }

  ghost predicate FilesEndpoints(t: map<string, NodeEndpoint>, E: set<NodeEndpoint>)
    reads E`path
  {
    && (forall e :: e in E ==> Join(e.path) in t && t[Join(e.path)] == e)
    && (forall k :: k in t ==> t[k] in E && Join(t[k].path) == k)
  }

  /** What a map files determines the map. */
  lemma FiledOnce(t: map<string, Node>, u: map<string, Node>, D: set<Node>)
    requires FilesNodes(t, D) && FilesNodes(u, D)
    ensures t == u
  {
    assert forall k :: k in t ==> k == Join(t[k].path);
    assert forall k :: k in u ==> k == Join(u[k].path);
  }

  class StateTable {
    var nodes: map<string, Node>
    var nodesById: map<nat, Node>
    var nodeEndpoints: map<string, NodeEndpoint>
    var tracedErrors: nat

    constructor ()
      ensures nodes == map[] && nodesById == map[] && nodeEndpoints == map[] && tracedErrors == 0
    {
      nodes, nodesById, nodeEndpoints, tracedErrors := map[], map[], map[], 0;
    }

    /** Files one endpoint; if its key is taken the map stays as it is and the error is traced. */
    method FileEndpoint(e: NodeEndpoint)
      modifies `nodeEndpoints, `tracedErrors
      ensures Join(e.path) in old(nodeEndpoints) ==>
                nodeEndpoints == old(nodeEndpoints) && tracedErrors == old(tracedErrors) + 1
      ensures Join(e.path) !in old(nodeEndpoints) ==>
                nodeEndpoints == old(nodeEndpoints)[Join(e.path) := e] && tracedErrors == old(tracedErrors)
    {
      var key := Join(e.path);
      if key in nodeEndpoints {
        tracedErrors := tracedErrors + 1;
      } else {
        nodeEndpoints := nodeEndpoints[key := e];
      }
    }

    method FileEndpoints(n: Node, ghost w: World, ghost base: set<Node>)
      requires w.Valid() && n in w.live && base <= w.live && n !in base
      requires FilesEndpoints(nodeEndpoints, EndpointsOf(base))
      modifies `nodeEndpoints, `tracedErrors
      ensures FilesEndpoints(nodeEndpoints, EndpointsOf(base + {n}))
      ensures tracedErrors == old(tracedErrors)
    {
      hide *;
      var todo := n.endpoints.Keys;
      ghost var E := EndpointsOf(base);
      EndpointsAtNone(n);
      while todo != {}
        invariant todo <= n.endpoints.Keys
        invariant E == EndpointsOf(base) + EndpointsAt(n, n.endpoints.Keys - todo)
        invariant FilesEndpoints(nodeEndpoints, E)
        invariant tracedErrors == old(tracedErrors)
        decreases todo
      {
        var k :| k in todo;
        EndpointKeyFree(w, base, n, todo, k, nodeEndpoints, E);
        FiledNext(nodeEndpoints, E, n.endpoints[k]);
        FileEndpoint(n.endpoints[k]);
        EndpointsAtNext(n, todo, k);
        E := E + {n.endpoints[k]};
        todo := todo - {k};
      }
      EndpointsAtAll(n, base);
    }

    method FileNode(n: Node)
      modifies `nodes, `nodesById, `tracedErrors
      ensures var freePath, freeId := Join(n.path) !in old(nodes), n.id !in old(nodesById);
              && nodes == (if freePath then old(nodes)[Join(n.path) := n] else old(nodes))
              && nodesById == (if freeId then old(nodesById)[n.id := n] else old(nodesById))
              && tracedErrors == old(tracedErrors) + (if freePath then 0 else 1) + (if freeId then 0 else 1)
    {
      var path := Join(n.path);
      if path in nodes {
        tracedErrors := tracedErrors + 1;
      } else {
        nodes := nodes[path := n];
      }
      if n.id in nodesById {
        tracedErrors := tracedErrors + 1;
      } else {
        nodesById := nodesById[n.id := n];
      }
    }

    method AddSelf(n: Node, ghost w: World, ghost base: set<Node>)
      requires w.Valid() && n in w.live && base <= w.live && n !in base
      requires FilesNodes(nodes, base) && FilesIds(nodesById, base)
      requires FilesEndpoints(nodeEndpoints, EndpointsOf(base))
      modifies this
      ensures FilesNodes(nodes, base + {n}) && FilesIds(nodesById, base + {n})
      ensures FilesEndpoints(nodeEndpoints, EndpointsOf(base + {n}))
      ensures tracedErrors == old(tracedErrors)
    {
      hide *;
      NodeKeyFree(w, base, n);
      FiledNodeNext(nodes, nodesById, base, n);
      ghost var E := EndpointsOf(base);
      assert FilesEndpoints(nodeEndpoints, E);
      FileNode(n);
      assert EndpointsOf(base) == E;
      assert FilesEndpoints(nodeEndpoints, E);
      FileEndpoints(n, w, base);
    }

    /** Files a node, its endpoints and everything below it. */
    method Add(n: Node, ghost w: World, ghost base: set<Node>)
      requires w.Valid() && n in w.live && base <= w.live && n in w.Paths() && base !! Below(w.Paths(), n)
      requires FilesNodes(nodes, base) && FilesIds(nodesById, base)
      requires FilesEndpoints(nodeEndpoints, EndpointsOf(base))
      modifies this
      ensures FilesNodes(nodes, base + Below(w.Paths(), n)) && FilesIds(nodesById, base + Below(w.Paths(), n))
      ensures FilesEndpoints(nodeEndpoints, EndpointsOf(base + Below(w.Paths(), n)))
      ensures tracedErrors == old(tracedErrors)
      decreases Below(w.Paths(), n)
    {
      hide *;
      ValidWalk(w, n);
      ghost var was := w.Paths();
      WalkEnds(w, was, [], n);
      AddSelf(n, w, base);
      var todo := n.children.Keys;
      while todo != {}
        invariant todo <= n.children.Keys
        invariant FilesNodes(nodes, base + Walked(was, n, todo)) && FilesIds(nodesById, base + Walked(was, n, todo))
        invariant FilesEndpoints(nodeEndpoints, EndpointsOf(base + Walked(was, n, todo)))
        invariant tracedErrors == old(tracedErrors)
        decreases todo
      {
        var k :| k in todo;
        WalkNext(w, was, [], n, todo, k);
        ghost var D := base + Walked(was, n, todo);
        AddedTwice(base, Walked(was, n, todo), Below(was, n.children[k]), Below(was, n));
        Add(n.children[k], w, D);
        todo := todo - {k};
      }
    }

    /** Takes one endpoint out; a missing key is traced. */
    method UnfileEndpoint(e: NodeEndpoint)
      modifies `nodeEndpoints, `tracedErrors
      ensures nodeEndpoints == old(nodeEndpoints) - {Join(e.path)}
      ensures tracedErrors == old(tracedErrors) + if Join(e.path) in old(nodeEndpoints) then 0 else 1
    {
      var key := Join(e.path);
      if key !in nodeEndpoints {
        tracedErrors := tracedErrors + 1;
      } else {
        nodeEndpoints := nodeEndpoints - {key};
      }
    }

    method UnfileEndpoints(n: Node, ghost w: World, ghost D: set<Node>)
      requires w.Valid() && n in D && D <= w.live
      requires FilesEndpoints(nodeEndpoints, EndpointsOf(D))
      modifies `nodeEndpoints, `tracedErrors
      ensures FilesEndpoints(nodeEndpoints, EndpointsOf(D - {n}))
      ensures tracedErrors == old(tracedErrors)
    {
      hide *;
      var todo := n.endpoints.Keys;
      EndpointsLeftEnds(w, n, D);
      while todo != {}
        invariant todo <= n.endpoints.Keys
        invariant FilesEndpoints(nodeEndpoints, EndpointsLeft(n, D, todo))
        invariant tracedErrors == old(tracedErrors)
        decreases todo
      {
        var k :| k in todo;
        EndpointsLeftNext(w, n, D, todo, k);
        UnfiledNext(nodeEndpoints, EndpointsLeft(n, D, todo), n.endpoints[k]);
        UnfileEndpoint(n.endpoints[k]);
        todo := todo - {k};
      }
    }

    method UnfileNode(n: Node)
      modifies `nodes, `nodesById, `tracedErrors
      ensures nodes == old(nodes) - {Join(n.path)} && nodesById == old(nodesById) - {n.id}
      ensures tracedErrors == old(tracedErrors) + (if Join(n.path) in old(nodes) then 0 else 1)
                                               + (if n.id in old(nodesById) then 0 else 1)
    {
      var path := Join(n.path);
      if path !in nodes {
        tracedErrors := tracedErrors + 1;
      } else {
        nodes := nodes - {path};
      }
      if n.id !in nodesById {
        tracedErrors := tracedErrors + 1;
      } else {
        nodesById := nodesById - {n.id};
      }
    }

    method RemoveSelf(n: Node, ghost w: World, ghost D: set<Node>)
      requires w.Valid() && n in D && D <= w.live
      requires FilesNodes(nodes, D) && FilesIds(nodesById, D)
      requires FilesEndpoints(nodeEndpoints, EndpointsOf(D))
      modifies this
      ensures FilesNodes(nodes, D - {n}) && FilesIds(nodesById, D - {n})
      ensures FilesEndpoints(nodeEndpoints, EndpointsOf(D - {n}))
      ensures tracedErrors == old(tracedErrors)
    {
      hide *;
      UnfiledNodeNext(nodes, nodesById, D, n);
      ghost var E := EndpointsOf(D);
      assert FilesEndpoints(nodeEndpoints, E);
      UnfileNode(n);
      assert EndpointsOf(D) == E;
      assert FilesEndpoints(nodeEndpoints, E);
      UnfileEndpoints(n, w, D);
    }

    /** Takes a node, its endpoints and everything below it out of the three maps. */
    method Remove(n: Node, ghost w: World, ghost D: set<Node>)
      requires w.Valid() && n in w.live && D <= w.live && n in w.Paths() && Below(w.Paths(), n) <= D
      requires FilesNodes(nodes, D) && FilesIds(nodesById, D)
      requires FilesEndpoints(nodeEndpoints, EndpointsOf(D))
      modifies this
      ensures FilesNodes(nodes, D - Below(w.Paths(), n)) && FilesIds(nodesById, D - Below(w.Paths(), n))
      ensures FilesEndpoints(nodeEndpoints, EndpointsOf(D - Below(w.Paths(), n)))
      ensures tracedErrors == old(tracedErrors)
      decreases Below(w.Paths(), n), 1
    {
      hide *;
      ValidWalk(w, n);
      ghost var was := w.Paths();
      WalkEnds(w, was, [], n);
      RemoveSelf(n, w, D);
      var todo := n.children.Keys;
      while todo != {}
        invariant todo <= n.children.Keys
        invariant FilesNodes(nodes, D - Walked(was, n, todo)) && FilesIds(nodesById, D - Walked(was, n, todo))
        invariant FilesEndpoints(nodeEndpoints, EndpointsOf(D - Walked(was, n, todo)))
        invariant tracedErrors == old(tracedErrors)
        decreases todo
      {
        var k :| k in todo;
        RemoveChild(n, k, w, D, todo);
        todo := todo - {k};
      }
    }

    /** Takes one child out, when those named in `todo` are left. */
    method RemoveChild(n: Node, k: string, ghost w: World, ghost D: set<Node>, ghost todo: set<string>)
      requires w.Valid() && n in w.live && D <= w.live && n in w.Paths() && Below(w.Paths(), n) <= D
      requires k in todo && todo <= n.children.Keys
      requires FilesNodes(nodes, D - Walked(w.Paths(), n, todo)) && FilesIds(nodesById, D - Walked(w.Paths(), n, todo))
      requires FilesEndpoints(nodeEndpoints, EndpointsOf(D - Walked(w.Paths(), n, todo)))
      modifies this
      ensures FilesNodes(nodes, D - Walked(w.Paths(), n, todo - {k})) && FilesIds(nodesById, D - Walked(w.Paths(), n, todo - {k}))
      ensures FilesEndpoints(nodeEndpoints, EndpointsOf(D - Walked(w.Paths(), n, todo - {k})))
      ensures tracedErrors == old(tracedErrors)
      decreases Below(w.Paths(), n), 0
    {
      hide *;
      ghost var was := w.Paths();
      ValidWalk(w, n);
      WalkNext(w, was, [], n, todo, k);
      PathsAt(w, n.children[k]);
      TakenTwice(D, Walked(was, n, todo), Below(was, n.children[k]), Below(was, n));
      Remove(n.children[k], w, D - Walked(was, n, todo));
    }
  }

  lemma TakenTwice(D: set<Node>, first: set<Node>, second: set<Node>, all: set<Node>)
    ensures D - first - second == D - (first + second)
    ensures first !! second && second <= all <= D ==> second <= D - first
  {
  }

  lemma AddedTwice(D: set<Node>, first: set<Node>, second: set<Node>, all: set<Node>)
    ensures D + first + second == D + (first + second)
    ensures first !! second && second <= all && D !! all ==> D + first !! second
  {
  }

  lemma UnfiledNodeNext(t: map<string, Node>, ids: map<nat, Node>, D: set<Node>, n: Node)
    requires FilesNodes(t, D) && FilesIds(ids, D) && n in D
    ensures Join(n.path) in t && n.id in ids
    ensures FilesNodes(t - {Join(n.path)}, D - {n}) && FilesIds(ids - {n.id}, D - {n})
  {
  }

  lemma UnfiledNext(t: map<string, NodeEndpoint>, E: set<NodeEndpoint>, e: NodeEndpoint)
    requires FilesEndpoints(t, E) && e in E
    ensures Join(e.path) in t
    ensures FilesEndpoints(t - {Join(e.path)}, E - {e})
  {
  }

  /** The endpoints still filed while those of `n` named in `todo` are still to be taken out. */
  ghost function EndpointsLeft(n: Node, D: set<Node>, todo: set<string>): set<NodeEndpoint>
    requires todo <= n.endpoints.Keys
    reads n, D
  {
    EndpointsOf(D - {n}) + EndpointsAt(n, todo)
  }

  lemma EndpointsLeftEnds(w: World, n: Node, D: set<Node>)
    requires n in D
    ensures EndpointsLeft(n, D, n.endpoints.Keys) == EndpointsOf(D)
    ensures EndpointsLeft(n, D, {}) == EndpointsOf(D - {n})
  {
    assert EndpointsAt(n, {}) == {};
    EndpointsAtAll(n, D - {n});
    assert D - {n} + {n} == D && n.endpoints.Keys - {} == n.endpoints.Keys;
  }

  lemma EndpointsLeftNext(w: World, n: Node, D: set<Node>, todo: set<string>, k: string)
    requires w.Valid() && n in D && D <= w.live
    requires k in todo && todo <= n.endpoints.Keys
    ensures n.endpoints[k] in EndpointsLeft(n, D, todo)
    ensures EndpointsLeft(n, D, todo - {k}) == EndpointsLeft(n, D, todo) - {n.endpoints[k]}
  {
    var e := n.endpoints[k];
    assert w.EndpointsPlaced(n);
    forall m, l | m in D && l in m.endpoints && m.endpoints[l] == e ensures m == n && l == k {
      assert w.EndpointsPlaced(m);
    }
  }

  /** The keys of a node not yet filed are not in use. */
  lemma NodeKeyFree(w: World, base: set<Node>, n: Node)
    requires w.Valid() && n in w.live && base <= w.live && n !in base
    ensures forall m :: m in base ==> Join(m.path) != Join(n.path) && m.id != n.id
  {
    forall m | m in base ensures Join(m.path) != Join(n.path) && m.id != n.id {
      KeyUnique(w, m, n);
    }
  }

  lemma FiledNodeNext(t: map<string, Node>, ids: map<nat, Node>, base: set<Node>, n: Node)
    requires FilesNodes(t, base) && FilesIds(ids, base)
    requires forall m :: m in base ==> Join(m.path) != Join(n.path) && m.id != n.id
    ensures Join(n.path) !in t && n.id !in ids
    ensures FilesNodes(t[Join(n.path) := n], base + {n}) && FilesIds(ids[n.id := n], base + {n})
  {
  }

  lemma FiledNext(t: map<string, NodeEndpoint>, E: set<NodeEndpoint>, e: NodeEndpoint)
    requires FilesEndpoints(t, E) && Join(e.path) !in t
    ensures FilesEndpoints(t[Join(e.path) := e], E + {e})
  {
  }

  ghost function EndpointsAt(n: Node, names: set<string>): set<NodeEndpoint>
    requires names <= n.endpoints.Keys
    reads n
  {
    set k | k in names :: n.endpoints[k]
  }

  lemma EndpointsAtNone(n: Node)
    ensures EndpointsAt(n, n.endpoints.Keys - n.endpoints.Keys) == {}
  {
  }

  lemma EndpointsAtNext(n: Node, todo: set<string>, k: string)
    requires k in todo && todo <= n.endpoints.Keys
    ensures EndpointsAt(n, n.endpoints.Keys - (todo - {k}))
         == EndpointsAt(n, n.endpoints.Keys - todo) + {n.endpoints[k]}
  {
    assert n.endpoints.Keys - (todo - {k}) == (n.endpoints.Keys - todo) + {k};
  }

  lemma EndpointsAtAll(n: Node, base: set<Node>)
    ensures EndpointsOf(base) + EndpointsAt(n, n.endpoints.Keys - {}) == EndpointsOf(base + {n})
  {
  }

  /** The key of an endpoint not yet filed is not in use. */
  lemma EndpointKeyFree(w: World, base: set<Node>, n: Node, todo: set<string>, k: string,
                        t: map<string, NodeEndpoint>, E: set<NodeEndpoint>)
    requires w.Valid() && n in w.live && base <= w.live && n !in base
    requires k in todo && todo <= n.endpoints.Keys
    requires E == EndpointsOf(base) + EndpointsAt(n, n.endpoints.Keys - todo) && FilesEndpoints(t, E)
    ensures Join(n.endpoints[k].path) !in t
  {
    forall f | f in E
      ensures Join(f.path) != Join(n.endpoints[k].path)
    {
      if f in EndpointsOf(base) {
        var m, l :| m in base && l in m.endpoints && f == m.endpoints[l];
        EndpointKeyUnique(w, m, l, n, k);
      } else {
        var l :| l in n.endpoints.Keys - todo && f == n.endpoints[l];
        EndpointKeyUnique(w, n, l, n, k);
      }
    }
  }
}
