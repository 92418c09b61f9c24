/**
 The server: the node tree, its index, and the commands that edit both.

 Every command leaves the server valid: links are mutual, cached paths are right, and the three maps
 of the index hold exactly the nodes and endpoints of the tree.
 */
module Servers {
  import opened Paths
  import opened Values
  import opened Forest
  import opened StateTables
  import opened Relocation
  import opened Relinking
  import opened Growth
  import opened FreshNames
  import opened Decimal

  datatype CommandError = SUCCESS | FAILED | INPUT_ERROR | TYPE_ERROR | PATH_ERROR | CONSTRAINT_ERROR

  ghost predicate IdsBelow(live: set<Node>, bound: nat) {
    forall n :: n in live ==> n.id < bound
  }

  class Server {
    var nodes: map<string, Node>
    const table: StateTable
    var nextInternalId: nat
    ghost var live: set<Node>
    ghost var eps: set<NodeEndpoint>

    ghost function W(): World
      reads this
    {
      World(live, eps, nodes)
    }

    ghost predicate Indexed()
      reads this, table, live, eps
    {
      && FilesNodes(table.nodes, live)
      && FilesIds(table.nodesById, live)
      && FilesEndpoints(table.nodeEndpoints, eps)
    }

    ghost predicate Valid()
      reads this, table, live, eps
    {
      && W().Valid()
      && Indexed()
      && IdsBelow(live, nextInternalId)
      && WellTyped(live, eps)
    }

    constructor ()
      ensures Valid() && live == {} && eps == {} && nodes == map[] && fresh(table) && table.tracedErrors == 0
    {
      nodes, nextInternalId, live, eps := map[], 0, {}, {};
      table := new StateTable();
    }

    /** In the sibling map of `n`, its entry goes from `previous` to its present name. */
    method SwapSibling(n: Node, previous: string)
      requires n in live && (n.parent != null ==> n.parent in live)
      modifies `nodes, live`children
      ensures forall m :: m in live ==>
                m.children == Edited(old(m.children), m == n.parent, previous, m == n.parent, n.name, n)
      ensures nodes == Edited(old(nodes), n.parent == null, previous, n.parent == null, n.name, n)
    {
      if n.parent == null {
        nodes := nodes - {previous};
        nodes := nodes[n.name := n];
      } else {
        n.parent.children := n.parent.children - {previous};
        n.parent.children := n.parent.children[n.name := n];
      }
    }

    /** Gives `n` its new name and brings the cached paths at and below it up to date. */
    method RenameAndRepath(n: Node, name: string, ghost w: World, ghost to: Path)
      requires w.Valid() && n in w.live
      requires to == (if n.parent == null then [] else n.parent.path) + [name]
      modifies n`name, w.live`path, w.eps`path
      ensures n.name == name && n in old(w.Paths())
      ensures Relocated(w.Paths(), old(w.Paths()), old(w.Paths()), Below(old(w.Paths()), n), old(w.Paths())[n], to)
      ensures EndpointsRelocated(w.EndpointPaths(), old(w.EndpointPaths()), old(w.Paths()),
                                 Below(old(w.Paths()), n), old(w.Paths())[n], to)
    {
      hide *;
      ghost var was := w.Paths();
      ValidIsShaped(w, n.path);
      ValidLinks(w, n);
      n.name := name;
      ShapedKept(Change(w, n, to));
      UpdateAllPaths(n, w, was, was[n], to);
    }

    /** The same, and the sibling map of `n` follows. */
    method RenameInTree(n: Node, name: string, ghost w: World, ghost to: Path)
      requires w.Valid() && n in w.live && w == World(live, eps, nodes)
      requires to == (if n.parent == null then [] else n.parent.path) + [name]
      modifies `nodes, n`name, live`path, live`children, eps`path
      ensures n.name == name && n in old(w.Paths())
      ensures forall m :: m in live ==>
                m.children == Edited(old(m.children), m == n.parent, old(n.name), m == n.parent, name, n)
      ensures nodes == Edited(old(nodes), n.parent == null, old(n.name), n.parent == null, name, n)
      ensures Relocated(w.Paths(), old(w.Paths()), old(w.Paths()), Below(old(w.Paths()), n), old(w.Paths())[n], to)
      ensures EndpointsRelocated(w.EndpointPaths(), old(w.EndpointPaths()), old(w.Paths()),
                                 Below(old(w.Paths()), n), old(w.Paths())[n], to)
    {
      hide *;
      ValidLinks(w, n);
      var previous := n.name;
      RenameAndRepath(n, name, w, to);
      SwapSibling(n, previous);
    }

    /** Takes `n` and everything below it out of the index. */
    method Unindex(n: Node, ghost w: World)
      requires Valid() && n in live && w == W()
      modifies table
      ensures n in w.Paths()
      ensures var D := live - Below(w.Paths(), n);
              && D <= w.Paths().Keys && EndpointsOf(D) <= w.EndpointPaths().Keys
              && FiledUnder(table.nodes, D, w.Paths())
              && FilesIds(table.nodesById, D)
              && EndpointsFiledUnder(table.nodeEndpoints, EndpointsOf(D), w.EndpointPaths())
      ensures table.tracedErrors == old(table.tracedErrors)
    {
      hide *;
      ValidParts();
      WIs();
      ValidLinks(w, n);
      EndpointsAreAll(w);
      ghost var D := live - Below(w.Paths(), n);
      ghost var E, was, wasE := EndpointsOf(D), w.Paths(), w.EndpointPaths();
      table.Remove(n, w, live);
      assert EndpointsOf(D) == E && w.Paths() == was && w.EndpointPaths() == wasE;
      PathsAre(w, D);
      FiledUnderPaths(table.nodes, D, was);
      EndpointsFiledUnderPaths(table.nodeEndpoints, E, wasE);
    }

    /** Files `n` and everything below it, the rest having been left in the index under its paths. */
    method Reindex(n: Node, ghost D: set<Node>, ghost was: map<Node, Path>, ghost wasE: map<NodeEndpoint, Path>)
      requires W().Valid() && IdsBelow(live, nextInternalId) && WellTyped(live, eps)
      requires n in live && n in W().Paths() && D == live - Below(W().Paths(), n)
      requires D <= was.Keys && forall m :: m in D ==> m.path == was[m]
      requires EndpointsOf(D) <= wasE.Keys && forall e :: e in EndpointsOf(D) ==> e.path == wasE[e]
      requires FiledUnder(table.nodes, D, was)
      requires FilesIds(table.nodesById, D)
      requires EndpointsFiledUnder(table.nodeEndpoints, EndpointsOf(D), wasE)
      modifies table
      ensures Valid()
      ensures table.tracedErrors == old(table.tracedErrors)
    {
      hide *;
      ghost var w := W();
      WIs();
      FiledUnderPaths(table.nodes, D, was);
      EndpointsFiledUnderPaths(table.nodeEndpoints, EndpointsOf(D), wasE);
      ValidLinks(w, n);
      EndpointsAreAll(w);
      ghost var B, E := Below(w.Paths(), n), EndpointsOf(live);
      assert D + B == live;
      table.Add(n, w, D);
      assert EndpointsOf(live) == E;
      assert W() == w;
      ValidParts();
    }

    /** A rename up to the point where the node goes back into the index. */
    method RenameUnindexed(n: Node, name: string, ghost c: Change)
      requires Valid() && n in live && IsNodeName(name) && name !in Siblings(W(), n.parent)
      requires c.w == W() && c.n == n && c.to == n.ParentPath() + [name]
      requires c.to == (if n.parent == null then [] else n.parent.path) + [name]
      modifies `nodes, table, n`name, live`path, live`children, eps`path
      ensures n.name == name && n.parent == old(n.parent)
      ensures Carried(c, W())
      ensures LeftFiled(c, old(W().Paths()), old(W().EndpointPaths()), old(EndpointsOf(live - Below(W().Paths(), n))))
      ensures table.tracedErrors == old(table.tracedErrors)
    {
      hide *;
      ValidParts();
      WIs();
      ghost var w := World(live, eps, nodes);
      ValidLinks(w, n);
      ghost var E := EndpointsOf(live - Below(w.Paths(), n));
      Unindex(n, w);
      RenameInTree(n, name, w, c.to);
      c.AllowedInPlace();
      MakeCarried(c, World(live, eps, nodes));
      WIs();
      LeftFiledIs(c, old(W().Paths()), old(W().EndpointPaths()), E);
    }

    /** The renaming itself, once the new name is known to be legal and free. */
    method RenameTo(n: Node, name: string, ghost c: Change)
      requires Valid() && n in live && IsNodeName(name) && name !in Siblings(W(), n.parent)
      requires c.w == W() && c.n == n && c.to == n.ParentPath() + [name]
      requires c.to == (if n.parent == null then [] else n.parent.path) + [name]
      modifies `nodes, table, n`name, live`path, live`children, eps`path
      ensures Valid()
      ensures n.name == name && n.parent == old(n.parent)
      ensures Carried(c, W())
      ensures table.tracedErrors == old(table.tracedErrors)
    {
      hide *;
      ValidParts();
      WIs();
      ValidIsShaped(c.w, []);
      ValidIsRooted(c.w);
      ValidLinks(c.w, n);
      ghost var was, wasE, E := c.w.Paths(), c.w.EndpointPaths(), EndpointsOf(live - Below(c.w.Paths(), n));
      RenameUnindexed(n, name, c);
      WIs();
      RelinkedValid(c, W());
      RelinkedBelow(c, W());
      OutsideKept(c, W());
      LeftFiledIs(c, was, wasE, E);
      Reindex(n, live - Below(was, n), was, wasE);
    }

    // ---------------------------------------------------------------- parts of the invariant

    /** The index holds what the edit `c` leaves alone, under the paths from before. */
    ghost predicate LeftFiled(c: Change, was: map<Node, Path>, wasE: map<NodeEndpoint, Path>, E: set<NodeEndpoint>)
      reads table
    {
      && c.n in was
      && var D := c.w.live - Below(was, c.n);
         D <= was.Keys && E <= wasE.Keys
         && FiledUnder(table.nodes, D, was)
         && FilesIds(table.nodesById, D)
         && EndpointsFiledUnder(table.nodeEndpoints, E, wasE)
    }

    lemma LeftFiledIs(c: Change, was: map<Node, Path>, wasE: map<NodeEndpoint, Path>, E: set<NodeEndpoint>)
      requires c.n in was
      ensures LeftFiled(c, was, wasE, E) <==>
                var D := c.w.live - Below(was, c.n);
                D <= was.Keys && E <= wasE.Keys
                && FiledUnder(table.nodes, D, was)
                && FilesIds(table.nodesById, D)
                && EndpointsFiledUnder(table.nodeEndpoints, E, wasE)
    {
    }

    lemma ValidParts()
      ensures Valid() <==> W().Valid() && Indexed() && IdsBelow(live, nextInternalId) && WellTyped(live, eps)
      ensures Indexed() <==> FilesNodes(table.nodes, live) && FilesIds(table.nodesById, live)
                             && FilesEndpoints(table.nodeEndpoints, eps)
    {
    }

    lemma WIs()
      ensures W() == World(live, eps, nodes)
    {
    }

    lemma ChildIs(n: Node, k: string)
      requires Valid() && n in live && k in n.children
      ensures n.children[k] in live && n.children[k].path == n.path + [k] && IsPath(n.children[k].path)
      ensures n.children[k].parent == n && n.children[k].name == k
      ensures forall m :: m in live && m.path == n.path + [k] ==> m == n.children[k]
    {
      ChildPath(W(), n, k);
      forall m | m in live && m.path == n.path + [k] ensures m == n.children[k] {
        PathUnique(W(), m, n.children[k]);
      }
      PathLegal(W(), n.children[k]);
    }

    // ---------------------------------------------------------------- moving

    /** The entry of `n` goes from its own sibling map to that of the children of `p`. */
    method ChangeSiblings(n: Node, p: Node?)
      requires n in live && (n.parent != null ==> n.parent in live) && (p != null ==> p in live)
      modifies `nodes, live`children
      ensures forall m :: m in live ==>
                m.children == Edited(old(m.children), m == n.parent, n.name, m == p, n.name, n)
      ensures forall m :: m in live && m != n.parent && m != p ==> m.children == old(m.children)
      ensures nodes == Edited(old(nodes), n.parent == null, n.name, p == null, n.name, n)
    {
      if n.parent == null {
        nodes := nodes - {n.name};
      } else {
        n.parent.children := n.parent.children - {n.name};
      }
      if p == null {
        nodes := nodes[n.name := n];
      } else {
        p.children := p.children[n.name := n];
      }
    }

    /** Hangs `n` below `p`; the cached paths are stale then, but the shape below `n` is as before. */
    method Rehang(n: Node, p: Node?, ghost w: World)
      requires w.Valid() && n in w.live && w == World(live, eps, nodes)
      requires p != null ==> p in w.live && !Under(n.path, p.path)
      modifies `nodes, live`children, n`parent
      ensures n.parent == p
      ensures forall m :: m in live ==>
                m.children == Edited(old(m.children), m == old(n.parent), n.name, m == p, n.name, n)
      ensures nodes == Edited(old(nodes), old(n.parent) == null, n.name, p == null, n.name, n)
      ensures w.Shaped(old(w.Paths()), old(n.path))
    {
      hide *;
      ValidIsShaped(w, n.path);
      ValidLinks(w, n);
      ghost var below := Below(w.Paths(), n);
      BelowIs(w, n);
      assert n.parent == null || n.parent !in below;
      assert p == null || p !in below;
      ChangeSiblings(n, p);
      assert forall m :: m in below ==> m.children == old(m.children);
      n.parent := p;
      ShapedKept(Change(w, n, []));
    }

    method ReparentAndRepath(n: Node, p: Node?, ghost w: World, ghost to: Path)
      requires w.Valid() && n in w.live && w == World(live, eps, nodes)
      requires p != null ==> p in w.live && !Under(n.path, p.path)
      requires to == (if p == null then [] else p.path) + [n.name]
      modifies `nodes, live`children, n`parent, live`path, eps`path
      ensures n.parent == p && n in old(w.Paths())
      ensures forall m :: m in live ==>
                m.children == Edited(old(m.children), m == old(n.parent), n.name, m == p, n.name, n)
      ensures nodes == Edited(old(nodes), old(n.parent) == null, n.name, p == null, n.name, n)
      ensures Relocated(w.Paths(), old(w.Paths()), old(w.Paths()), Below(old(w.Paths()), n), old(w.Paths())[n], to)
      ensures EndpointsRelocated(w.EndpointPaths(), old(w.EndpointPaths()), old(w.Paths()),
                                 Below(old(w.Paths()), n), old(w.Paths())[n], to)
    {
      hide *;
      ghost var was := w.Paths();
      ValidLinks(w, n);
      if p != null {
        PathsAt(w, p);
      }
      Rehang(n, p, w);
      UpdateAllPaths(n, w, was, was[n], to);
    }

    /** A move up to the point where the node goes back into the index. */
    method MoveUnindexed(n: Node, p: Node?, ghost c: Change)
      requires Valid() && n in live && (p != null ==> p in live && !Under(n.path, p.path))
      requires n.name !in Siblings(W(), p) || p == n.parent
      requires c.w == W() && c.n == n && c.to == (if p == null then [] else p.path) + [n.name]
      modifies `nodes, table, n`parent, live`path, live`children, eps`path
      ensures n.parent == p && n.name == old(n.name)
      ensures Carried(c, W())
      ensures LeftFiled(c, old(W().Paths()), old(W().EndpointPaths()), old(EndpointsOf(live - Below(W().Paths(), n))))
      ensures table.tracedErrors == old(table.tracedErrors)
    {
      hide *;
      ValidParts();
      WIs();
      ghost var w := World(live, eps, nodes);
      ValidLinks(w, n);
      ghost var E := EndpointsOf(live - Below(w.Paths(), n));
      Unindex(n, w);
      ReparentAndRepath(n, p, w, c.to);
      c.AllowedUnder();
      MakeCarried(c, World(live, eps, nodes));
      WIs();
      LeftFiledIs(c, old(W().Paths()), old(W().EndpointPaths()), E);
    }

    /** The moving itself, once it is known that the node may go there. */
    method MoveTo(n: Node, p: Node?, ghost c: Change)
      requires Valid() && n in live && (p != null ==> p in live && !Under(n.path, p.path))
      requires n.name !in Siblings(W(), p) || p == n.parent
      requires c.w == W() && c.n == n && c.to == (if p == null then [] else p.path) + [n.name]
      modifies `nodes, table, n`parent, live`path, live`children, eps`path
      ensures Valid()
      ensures n.parent == p && n.name == old(n.name)
      ensures Carried(c, W())
      ensures table.tracedErrors == old(table.tracedErrors)
    {
      hide *;
      ValidParts();
      WIs();
      ValidIsShaped(c.w, []);
      ValidIsRooted(c.w);
      ValidLinks(c.w, n);
      ghost var was, wasE, E := c.w.Paths(), c.w.EndpointPaths(), EndpointsOf(live - Below(c.w.Paths(), n));
      MoveUnindexed(n, p, c);
      WIs();
      RelinkedValid(c, W());
      RelinkedBelow(c, W());
      OutsideKept(c, W());
      LeftFiledIs(c, was, wasE, E);
      Reindex(n, live - Below(was, n), was, wasE);
    }

    // ---------------------------------------------------------------- lookups

    method FindNode(path: Path) returns (n: Node?)
      requires Valid() && IsPath(path)
      ensures n != null ==> n in live && n.path == path
      ensures n == null ==> forall m :: m in live ==> m.path != path
    {
      var key := Join(path);
      if key in table.nodes {
        n := table.nodes[key];
        PathLegal(W(), n);
        NotEmptyKey(path, n.path);
        JoinInjective(path, n.path);
      } else {
        n := null;
      }
    }

    // ---------------------------------------------------------------- creating

    /** Looks an endpoint up by the elements of a path, relative to a node if there is one. */
    method FindNodeEndpoint(path: Path, relativeTo: Node?) returns (e: NodeEndpoint?)
      requires Valid() && (relativeTo != null ==> relativeTo in live)
      ensures e != null ==> e in eps
      ensures forall f :: f in eps ==>
                (LookupKey(if relativeTo == null then [] else relativeTo.path, path) == Join(f.path) <==> f == e)
    {
      hide *;
      ValidParts();
      WIs();
      if relativeTo != null {
        NodeHasPath(W(), relativeTo);
      }
      var key := if relativeTo != null then Join(relativeTo.path) + "." + Join(path) else Join(path);
      LookupKeyIs(if relativeTo == null then [] else relativeTo.path, path);
      FiledEndpoints(table.nodeEndpoints, eps);
      if key !in table.nodeEndpoints {
        return null;
      }
      e := table.nodeEndpoints[key];
    }

    method CreateInternalId() returns (id: nat)
      requires Valid()
      modifies `nextInternalId
      ensures Valid() && W() == old(W())
      ensures id == old(nextInternalId) && nextInternalId == id + 1 && IdsBelow(live, id)
    {
      hide World.Valid, WellTyped, FilesNodes, FilesIds, FilesEndpoints;
      id := nextInternalId;
      nextInternalId := nextInternalId + 1;
    }

    /** Puts a new node into the sibling map of its parent's children. */
    method LinkInTree(n: Node)
      requires W().Valid() && n !in live && Newborn(n, n.parent) && (n.parent != null ==> n.parent in live)
      requires n.name !in Siblings(W(), n.parent) && IdsBelow(live, n.id)
      modifies `nodes, `live, `eps, live`children
      ensures W().Valid()
      ensures live == old(live) + {n} && eps == old(eps) + n.endpoints.Values && n.children == map[]
      ensures forall m :: m in old(live) ==>
                m.children == if m == n.parent then old(m.children)[n.name := n] else old(m.children)
      ensures nodes == if n.parent == null then old(nodes)[n.name := n] else old(nodes)
    {
      hide *;
      WIs();
      ghost var l := Place(World(live, eps, nodes), n.parent);
      ValidIsShaped(l.w, []);
      IdsBelowDiffer(live, n);
      NewbornHasNoChildren(n);
      if n.parent == null {
        nodes := nodes[n.name := n];
      } else {
        n.parent.children := n.parent.children[n.name := n];
      }
      live := live + {n};
      eps := eps + n.endpoints.Values;
      ghost var w' := World(live, eps, nodes);
      MakeAdded(l, w', n);
      AddedValid(l, w', n);
      WIs();
    }

    /** Puts a new node into the tree and into the index. */
    method Link(n: Node)
      requires Valid() && n !in live && Newborn(n, n.parent) && (n.parent != null ==> n.parent in live)
      requires n.name !in Siblings(W(), n.parent) && IdsBelow(live, n.id) && n.id < nextInternalId
      requires WellTyped({n}, n.endpoints.Values)
      modifies `nodes, `live, `eps, table, live`children
      ensures Valid()
      ensures live == old(live) + {n} && eps == old(eps) + n.endpoints.Values && n.children == map[]
      ensures forall m :: m in old(live) ==>
                m.children == if m == n.parent then old(m.children)[n.name := n] else old(m.children)
      ensures nodes == if n.parent == null then old(nodes)[n.name := n] else old(nodes)
      ensures table.tracedErrors == old(table.tracedErrors)
    {
      hide *;
      ValidParts();
      WIs();
      EndpointsAreAll(W());
      LinkInTree(n);
      WIs();
      LeafIsAlone(W(), n);
      EndpointsAreAll(W());
      GrownIsWellTyped(old(live), old(eps), n, nextInternalId);
      ghost var w, E := World(live, eps, nodes), EndpointsOf(live);
      table.Add(n, w, old(live));
      assert EndpointsOf(live) == E;
      WIs();
      ValidParts();
    }

    /** Creates a node below `p`, once its name is known to be legal and free there. */
    method Insert(iface: Interface, name: string, id: nat, p: Node?) returns (n: Node)
      requires Valid() && iface.Valid() && IsNodeName(name) && (p != null ==> p in live)
      requires name !in Siblings(W(), p) && IdsBelow(live, id) && id < nextInternalId
      modifies `nodes, `live, `eps, table, live`children
      ensures Valid()
      ensures fresh(n) && n.iface == iface && n.name == name && n.parent == p && n.id == id
      ensures n.IsUnset()
      ensures live == old(live) + {n} && eps == old(eps) + n.endpoints.Values
      ensures fresh(n.endpoints.Values) && n.children == map[]
      ensures forall m :: m in old(live) ==>
                m.children == if m == p then old(m.children)[name := n] else old(m.children)
      ensures nodes == if p == null then old(nodes)[name := n] else old(nodes)
      ensures table.tracedErrors == old(table.tracedErrors)
    {
      hide Server.Valid, World.Valid, IdsBelow, NodeEndpoint.HoldsZero;
      n := new Node(iface, name, id, p);
      assert WellTyped({n}, n.endpoints.Values);
      Link(n);
    }

    // ---------------------------------------------------------------- deleting

    /** Takes a node without children out of the index and out of its sibling map. */
    method DeleteLeaf(n: Node)
      requires Valid() && n in live && n.children == map[]
      modifies `nodes, `live, `eps, table, live`children
      ensures Valid()
      ensures live == old(live) - {n} && eps <= old(eps)
      ensures forall m :: m in live ==>
                m.children == if m == n.parent then old(m.children) - {n.name} else old(m.children)
      ensures nodes == if n.parent == null then old(nodes) - {n.name} else old(nodes)
      ensures table.tracedErrors == old(table.tracedErrors)
    {
      hide *;
      ValidParts();
      WIs();
      ghost var w := World(live, eps, nodes);
      ValidIsShaped(w, []);
      ValidLinks(w, n);
      LeafIsAlone(w, n);
      EndpointsAreAll(w);
      ghost var D := live - {n};
      ghost var E := EndpointsOf(D);
      table.Remove(n, w, live);
      if n.parent == null {
        nodes := nodes - {n.name};
      } else {
        n.parent.children := n.parent.children - {n.name};
      }
      live := D;
      eps := eps - n.endpoints.Values;
      ghost var w' := World(live, eps, nodes);
      MakeRemoved(Removal(w, n), w');
      RemovedValid(Removal(w, n), w');
      WIs();
      EndpointsAreAll(w');
      assert EndpointsOf(D) == E;
      SmallerIsWellTyped(live, old(live), eps, old(eps), nextInternalId);
      ValidParts();
    }

    /** Deletes the node and everything below it, deepest first. */
    method DeleteNode(n: Node)
      requires Valid() && n in live
      modifies `nodes, `live, `eps, table, live`children
      ensures Valid()
      ensures live == old(live) - old(LiveUnder(live, n.path)) && eps <= old(eps)
      ensures forall m :: m in live ==>
                m.children == if m == n.parent then old(m.children) - {n.name} else old(m.children)
      ensures nodes == if n.parent == null then old(nodes) - {n.name} else old(nodes)
      ensures table.tracedErrors == old(table.tracedErrors)
      decreases LiveUnder(live, n.path), 0
    {
      hide *;
      ValidParts();
      WIs();
      var copy := n.children;
      var todo := copy.Keys;
      UnderEnds(W(), n);
      assert copy.Keys - copy.Keys == {} && copy.Keys - {} == copy.Keys;
      while todo != {}
        invariant Valid() && n in live && live <= old(live) && eps <= old(eps) && todo <= copy.Keys
        invariant live == old(live) - (old(LiveUnderAny(live, n.path, copy.Keys - todo)) - {n})
        invariant n.children == copy - (copy.Keys - todo)
        invariant forall m :: m in live && m != n ==> m.children == old(m.children)
        invariant nodes == old(nodes) && table.tracedErrors == old(table.tracedErrors)
        decreases todo
      {
        var k :| k in todo;
        var c := copy[k];
        ChildIs(n, k);
        DeletedNext(old(live), live, n, copy.Keys, todo, k);
        var error, d := Delete(c.path);
        assert d == c;
        todo := todo - {k};
      }
      DeleteLeaf(n);
    }

    /** Deletes the node at `path`, if there is one, and everything below it. */
    method Delete(path: Path) returns (error: CommandError, ghost n: Node?)
      requires Valid() && IsPath(path)
      modifies `nodes, `live, `eps, table, live`children
      ensures Valid()
      ensures error == if n == null then PATH_ERROR else SUCCESS
      ensures n == null ==>
                && (forall m :: m in old(live) ==> m.path != path)
                && live == old(live) && eps == old(eps) && nodes == old(nodes)
                && (forall m :: m in live ==> m.children == old(m.children))
      ensures n != null ==>
                && n in old(live) && n.path == path
                && live == old(live) - old(LiveUnder(live, path)) && eps <= old(eps)
                && (forall m :: m in live ==>
                      m.children == if m == n.parent then old(m.children) - {n.name} else old(m.children))
                && nodes == if n.parent == null then old(nodes) - {n.name} else old(nodes)
      ensures table.tracedErrors == old(table.tracedErrors)
      decreases LiveUnder(live, path), 1
    {
      hide *;
      var node := FindNode(path);
      n := node;
      if node == null {
        return PATH_ERROR, null;
      }
      DeleteNode(node);
      error := SUCCESS;
    }
  }

  lemma SmallerIsWellTyped(live: set<Node>, all: set<Node>, eps: set<NodeEndpoint>, allEps: set<NodeEndpoint>, bound: nat)
    requires live <= all && IdsBelow(all, bound)
    requires eps <= allEps && WellTyped(all, allEps)
    ensures IdsBelow(live, bound) && WellTyped(live, eps)
  {
  }

  lemma IdsBelowDiffer(live: set<Node>, n: Node)
    requires IdsBelow(live, n.id)
    ensures forall m :: m in live ==> m.id != n.id
  {
  }

  lemma NewbornHasNoChildren(n: Node)
    requires Newborn(n, n.parent)
    ensures n.children == map[]
  {
  }

  lemma GrownIsWellTyped(live: set<Node>, eps: set<NodeEndpoint>, n: Node, bound: nat)
    requires WellTyped(live, eps) && WellTyped({n}, n.endpoints.Values)
    requires IdsBelow(live, bound) && n.id < bound
    ensures WellTyped(live + {n}, eps + n.endpoints.Values) && IdsBelow(live + {n}, bound)
  {
    forall m | m in live + {n} ensures m.iface.Valid() && m.HasDeclaredEndpoints() {
      assert m in live || m in {n};
    }
  }

  lemma BelowIs(w: World, n: Node)
    requires n in w.Paths()
    ensures forall m :: m in Below(w.Paths(), n) <==> m in w.live && Under(n.path, m.path)
  {
  }

  lemma NodeHasPath(w: World, n: Node)
    requires w.Valid() && n in w.live
    ensures n.path != []
  {
    PathLegal(w, n);
  }

  lemma LookupKeyIs(scope: Path, path: Path)
    ensures LookupKey(scope, path) == if scope == [] then Join(path) else Join(scope) + "." + Join(path)
  {
  }

  lemma FiledEndpoints(t: map<string, NodeEndpoint>, E: set<NodeEndpoint>)
    requires FilesEndpoints(t, E)
    ensures forall e :: e in E ==> Join(e.path) in t && t[Join(e.path)] == e
    ensures forall k :: k in t ==> t[k] in E && Join(t[k].path) == k
  {
  }

  lemma NotEmptyKey(p: Path, q: Path)
    requires IsNodePath(q) && Join(p) == Join(q)
    ensures p != []
  {
    JoinNotEmpty(q);
  }
}
