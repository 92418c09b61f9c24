/**
 Bringing cached paths up to date.

 After a node has got another name or another parent, its cached path, those of its endpoints and
 those of everything below it are stale.  The recursive update is specified against `was`, the paths
 before the change: every path at or below the node changes its prefix, and no other path changes.
 */
module Relocation {
  import opened Paths
  import opened Forest

  /** `p` with the prefix `root`, if it has it, replaced by `to`. */
  function MovedTo(p: Path, root: Path, to: Path): Path {
    if Under(root, p) then to + p[|root|..] else p
  }

  /** Exactly the paths of the nodes in `S` have moved from `root` to `to`. */
  ghost predicate Relocated(now: map<Node, Path>, before: map<Node, Path>, was: map<Node, Path>,
                            S: set<Node>, root: Path, to: Path)
  {
    && now.Keys == before.Keys == was.Keys
    && forall m :: m in was ==> now[m] == if m in S then MovedTo(was[m], root, to) else before[m]
  }

  /** Exactly the paths of the endpoints of the nodes in `S` have moved from `root` to `to`. */
  ghost predicate EndpointsRelocated(now: map<NodeEndpoint, Path>, before: map<NodeEndpoint, Path>, was: map<Node, Path>,
                                     S: set<Node>, root: Path, to: Path)
  {
    && now.Keys == before.Keys
    && forall e :: e in now ==> now[e] == if e.node in was && e.node in S then MovedTo(was[e.node], root, to) + [e.name] else before[e]
  }

  method UpdateEndpointPaths(n: Node, ghost w: World)
    requires n in w.live && w.EndpointsLinked() && w.EndpointsOwned()
    modifies w.eps`path
    ensures forall e :: e in w.eps ==> e.path == if e.node == n then n.path + [e.name] else old(e.path)
  {
    var todo := n.endpoints.Keys;
    while todo != {}
      invariant todo <= n.endpoints.Keys
      invariant forall e :: e in w.eps ==>
                  e.path == if e.node == n && e.name !in todo then n.path + [e.name] else old(e.path)
      decreases todo
    {
      var k :| k in todo;
      n.endpoints[k].path := n.path + [k];
      todo := todo - {k};
    }
  }

  method UpdateSelf(n: Node, ghost w: World, ghost was: map<Node, Path>, ghost root: Path, ghost to: Path)
    requires w.Shaped(was, root) && w.EndpointsLinked() && w.EndpointsOwned()
    requires n in w.live && n in was && Under(root, was[n])
    requires to == (if n.parent == null then [] else n.parent.path) + [n.name]
    modifies w.live`path, w.eps`path
    ensures n.path == to
    ensures Relocated(w.Paths(), old(w.Paths()), was, {n}, was[n], to)
    ensures EndpointsRelocated(w.EndpointPaths(), old(w.EndpointPaths()), was, {n}, was[n], to)
  {
    n.path := (if n.parent == null then [] else n.parent.path) + [n.name];
    UpdateEndpointPaths(n, w);
    assert MovedTo(was[n], was[n], to) == to;
  }

  lemma MovedToStep(p: Path, root: Path, k: string, to: Path)
    requires Under(root + [k], p)
    ensures MovedTo(p, root + [k], to + [k]) == MovedTo(p, root, to)
  {
    assert p[|root|..] == [k] + p[|root| + 1..];
  }

  lemma RelocatedNext(now: map<Node, Path>, mid: map<Node, Path>, before: map<Node, Path>, was: map<Node, Path>,
                      S: set<Node>, c: Node, root: Path, k: string, to: Path)
    requires c in was && was[c] == root + [k] && S !! Below(was, c)
    requires Relocated(mid, before, was, S, root, to)
    requires Relocated(now, mid, was, Below(was, c), was[c], to + [k])
    ensures Relocated(now, before, was, S + Below(was, c), root, to)
  {
    forall m | m in Below(was, c) ensures MovedTo(was[m], root + [k], to + [k]) == MovedTo(was[m], root, to) {
      MovedToStep(was[m], root, k, to);
    }
    hide MovedTo;
  }

  lemma EndpointsRelocatedNext(now: map<NodeEndpoint, Path>, mid: map<NodeEndpoint, Path>, before: map<NodeEndpoint, Path>,
                               was: map<Node, Path>, S: set<Node>, c: Node, root: Path, k: string, to: Path)
    requires c in was && was[c] == root + [k] && S !! Below(was, c)
    requires EndpointsRelocated(mid, before, was, S, root, to)
    requires EndpointsRelocated(now, mid, was, Below(was, c), was[c], to + [k])
    ensures EndpointsRelocated(now, before, was, S + Below(was, c), root, to)
  {
    forall m | m in Below(was, c) ensures MovedTo(was[m], root + [k], to + [k]) == MovedTo(was[m], root, to) {
      MovedToStep(was[m], root, k, to);
    }
    hide MovedTo;
  }

  /** A node that is not at or below `n` keeps its path. */
  lemma RelocatedOutside(w: World, before: map<Node, Path>, was: map<Node, Path>, n: Node, to: Path, m: Node)
    requires n in was && m in was && !Under(was[n], was[m]) && w.live == was.Keys
    requires Relocated(w.Paths(), before, was, Below(was, n), was[n], to)
    ensures m.path == before[m]
  {
  }

  /** Takes the cached paths of the node, of its endpoints and of everything below it again. */
  method UpdateAllPaths(n: Node, ghost w: World, ghost was: map<Node, Path>, ghost root: Path, ghost to: Path)
    requires w.Shaped(was, root) && w.EndpointsLinked() && w.EndpointsOwned()
    requires n in w.live && n in was && Under(root, was[n])
    requires n.parent != null ==> n.parent in was && n.parent in w.live && !Under(was[n], was[n.parent])
    requires to == (if n.parent == null then [] else n.parent.path) + [n.name]
    modifies w.live`path, w.eps`path
    ensures Relocated(w.Paths(), old(w.Paths()), was, Below(was, n), was[n], to)
    ensures EndpointsRelocated(w.EndpointPaths(), old(w.EndpointPaths()), was, Below(was, n), was[n], to)
    ensures n.parent != null ==> n.parent.path == old(n.parent.path)
    decreases Below(was, n)
  {
    hide *;
    WalkEnds(w, was, root, n);
    if n.parent != null {
      PathsAt(w, n.parent);
    }
    UpdateSelf(n, w, was, root, to);
    var todo := n.children.Keys;
    while todo != {}
      invariant todo <= n.children.Keys
      invariant n.path == to
      invariant Relocated(w.Paths(), old(w.Paths()), was, Walked(was, n, todo), was[n], to)
      invariant EndpointsRelocated(w.EndpointPaths(), old(w.EndpointPaths()), was, Walked(was, n, todo), was[n], to)
      decreases todo
    {
      var k :| k in todo;
      var c := n.children[k];
      WalkNext(w, was, root, n, todo, k);
      ghost var paths, endpointPaths := w.Paths(), w.EndpointPaths();
      UpdateAllPaths(c, w, was, root, to + [k]);
      RelocatedNext(w.Paths(), paths, old(w.Paths()), was, Walked(was, n, todo), c, was[n], k, to);
      EndpointsRelocatedNext(w.EndpointPaths(), endpointPaths, old(w.EndpointPaths()), was, Walked(was, n, todo), c, was[n], k, to);
      todo := todo - {k};
    }
    if n.parent != null {
      RelocatedOutside(w, old(w.Paths()), was, n, to, n.parent);
    }
  }
}
