/**
 Giving a node another name or another parent.

 Renaming and moving both take a node out of one sibling map, put it under a name into one that has
 no such name, and bring the cached paths up to date.  This module proves that the result is a valid
 world again, whatever the two sibling maps are, and that the subtree below the node is the same set
 of nodes as before.
 */
module Relinking {
  import opened Paths
  import opened Forest
  import opened Relocation
  import opened StateTables

  /** A sibling map after the node has left it (if `leaves`) and entered it (if `enters`). */
  function Edited(siblings: map<string, Node>, leaves: bool, from: string, enters: bool, to: string, n: Node): map<string, Node> {
    var rest := if leaves then siblings - {from} else siblings;
    if enters then rest[to := n] else rest
  }

  lemma EditedAt(siblings: map<string, Node>, leaves: bool, from: string, enters: bool, to: string, n: Node, k: string)
    ensures k in Edited(siblings, leaves, from, enters, to, n) <==>
              (enters && k == to) || (k in siblings && !(leaves && k == from))
    ensures k in Edited(siblings, leaves, from, enters, to, n) ==>
              Edited(siblings, leaves, from, enters, to, n)[k] == if enters && k == to then n else siblings[k]
  {
  }

  function SiblingMap(top: map<string, Node>, parent: Node?): map<string, Node>
    reads (if parent == null then {} else {parent})`children
  {
    if parent == null then top else parent.children
  }

  ghost function Siblings(w: World, parent: Node?): map<string, Node>
    reads (if parent == null then {} else {parent})`children
  {
    SiblingMap(w.top, parent)
  }

  /** The node `n` of the world `w` gets its present name and parent, and with them the path `to`. */
  datatype Change = Change(w: World, n: Node, to: Path)
  {
    /** Only `n` got another name and parent, and only the sibling maps it left and entered changed. */
    twostate predicate Relinked(new w': World)
      reads w.live
    {
      && w'.live == w.live && w'.eps == w.eps && n in w.live
      && (forall m :: m in w.live && m != n ==> m.name == old(m.name) && m.parent == old(m.parent))
      && (forall m :: m in w.live ==> m.endpoints == old(m.endpoints))
      && (forall m :: m in w.live ==>
            m.children == Edited(old(m.children), m == old(n.parent), old(n.name), m == n.parent, n.name, n))
      && w'.top == Edited(w.top, old(n.parent) == null, old(n.name), n.parent == null, n.name, n)
    }

    /** The name is legal and free among the siblings that `n` has anyway. */
    twostate lemma AllowedInPlace()
      requires n in w.live && IsNodeName(n.name) && n.parent == old(n.parent)
      requires n.name !in old(Siblings(w, n.parent))
      requires n.parent != null ==> n.parent in w.live && !Under(old(n.path), old(n.parent.path))
      requires to == old(n.ParentPath()) + [n.name]
      ensures Allowed()
    {
    }

    /** The new parent is not in the subtree and has no other node of that name. */
    twostate lemma AllowedUnder()
      requires n in w.live && IsNodeName(n.name) && n.name == old(n.name)
      requires n.parent != null ==> n.parent in w.live
      requires var q := n.parent; q != null ==> !Under(old(n.path), old(q.path))
      requires var q := n.parent; n.name !in old(Siblings(w, q)) || q == old(n.parent)
      requires var q := n.parent; to == (if q == null then [] else old(q.path)) + [n.name]
      ensures Allowed()
    {
    }

    /** Where `n` goes is outside its subtree, and its name is legal and free there. */
    twostate predicate Allowed()
      reads n, n.parent
    {
      var q := n.parent;
      && IsNodeName(n.name)
      && (q == null || (q in w.live && !Under(old(n.path), old(q.path))))
      && (n.name !in old(Siblings(w, q)) || (q == old(n.parent) && n.name == old(n.name)))
      && to == (if q == null then [] else old(q.path)) + [n.name]
    }

    /** Every cached path at or below `n` has got the prefix `to`, and no other has changed. */
    twostate predicate Repathed()
      requires n in w.live
      reads w.live, w.eps
    {
      var was := old(w.Paths());
      && Relocated(w.Paths(), was, was, Below(was, n), was[n], to)
      && EndpointsRelocated(w.EndpointPaths(), old(w.EndpointPaths()), was, Below(was, n), was[n], to)
    }
  }

  /** The whole change: links, name and cached paths. */
  twostate predicate Carried(c: Change, new w': World)
    reads c.w.live, c.w.eps, c.n, c.n.parent
  {
    c.Relinked(w') && c.Allowed() && c.Repathed()
  }

  twostate lemma MakeCarried(c: Change, new w': World)
    requires w'.live == c.w.live && w'.eps == c.w.eps && c.n in c.w.live
    requires forall m :: m in c.w.live && m != c.n ==> m.name == old(m.name) && m.parent == old(m.parent)
    requires forall m :: m in c.w.live ==> m.endpoints == old(m.endpoints)
    requires forall m :: m in c.w.live ==>
               m.children == Edited(old(m.children), m == old(c.n.parent), old(c.n.name), m == c.n.parent, c.n.name, c.n)
    requires w'.top == Edited(c.w.top, old(c.n.parent) == null, old(c.n.name), c.n.parent == null, c.n.name, c.n)
    requires c.Allowed()
    requires c.n in old(c.w.Paths())
    requires Relocated(c.w.Paths(), old(c.w.Paths()), old(c.w.Paths()), Below(old(c.w.Paths()), c.n),
                       old(c.w.Paths())[c.n], c.to)
    requires EndpointsRelocated(c.w.EndpointPaths(), old(c.w.EndpointPaths()), old(c.w.Paths()),
                                Below(old(c.w.Paths()), c.n), old(c.w.Paths())[c.n], c.to)
    ensures Carried(c, w')
  {
    hide Edited, Relocated, EndpointsRelocated, Below, Change.Allowed;
  }

  twostate lemma CarriedParts(c: Change, new w': World)
    requires Carried(c, w')
    ensures c.n in c.w.live && w'.live == c.w.live && w'.eps == c.w.eps && c.n in old(c.w.Paths())
    ensures old(c.w.Paths())[c.n] == old(c.n.path)
    ensures Relocated(w'.Paths(), old(c.w.Paths()), old(c.w.Paths()), Below(old(c.w.Paths()), c.n), old(c.n.path), c.to)
    ensures EndpointsRelocated(w'.EndpointPaths(), old(c.w.EndpointPaths()), old(c.w.Paths()),
                               Below(old(c.w.Paths()), c.n), old(c.n.path), c.to)
    ensures forall m :: m in c.w.live && m != c.n ==> m.name == old(m.name) && m.parent == old(m.parent)
    ensures forall m :: m in c.w.live ==>
              m.children == Edited(old(m.children), m == old(c.n.parent), old(c.n.name), m == c.n.parent, c.n.name, c.n)
    ensures w'.top == Edited(c.w.top, old(c.n.parent) == null, old(c.n.name), c.n.parent == null, c.n.name, c.n)
  {
    assert c.Relinked(w') && c.Repathed();
    hide Edited, Relocated, EndpointsRelocated, Below, Change.Allowed;
  }

  twostate lemma OldLinks(w: World)
    requires old(w.Valid())
    ensures forall m :: m in w.live ==>
              && (old(m.parent) == null || old(m.parent) in w.live)
              && old(m.name) in old(Siblings(w, m.parent))
              && old(Siblings(w, m.parent))[old(m.name)] == m
  {
    forall m | m in w.live
      ensures old(m.parent) == null || old(m.parent) in w.live
      ensures old(m.name) in old(Siblings(w, m.parent)) && old(Siblings(w, m.parent))[old(m.name)] == m
    {
      assert old(w.LinkedUp(m));
    }
  }

  twostate lemma OldChildren(w: World)
    requires old(w.Valid())
    ensures forall m, k :: m in w.live && k in old(m.children) ==>
              && old(m.children)[k] in w.live
              && old(m.children[k].parent) == m
              && old(m.children[k].name) == k
    ensures forall k :: k in w.top ==> w.top[k] in w.live && old(w.top[k].parent) == null && old(w.top[k].name) == k
  {
    forall m, k | m in w.live && k in old(m.children)
      ensures old(m.children)[k] in w.live
      ensures old(m.children[k].parent) == m && old(m.children[k].name) == k
    {
      assert old(w.LinkedDown(m)) && old(m.children)[k] in old(m.children.Values);
    }
  }

  twostate lemma OldPaths(w: World)
    requires old(w.Valid()) && old(w.Shaped(w.Paths(), []))
    ensures forall m :: m in w.live ==>
              && IsNodeName(old(m.name))
              && (old(m.parent) == null || old(m.parent) in w.live)
              && old(m.path) == old(m.ParentPath()) + [old(m.name)]
    ensures forall m, m' :: m in w.live && m' in w.live && old(m.path) == old(m'.path) ==> m == m'
  {
    forall m | m in w.live
      ensures IsNodeName(old(m.name)) && old(m.path) == old(m.ParentPath()) + [old(m.name)]
    {
      assert old(Placed(m));
    }
    forall m, m' | m in w.live && m' in w.live && old(m.path) == old(m'.path) ensures m == m' {
      var was := old(w.Paths());
      assert was[m] == was[m'];
    }
  }

  twostate lemma OldEndpoints(w: World)
    requires old(w.Valid())
    ensures forall m, k {:trigger old(m.endpoints)[k]} :: m in w.live && k in old(m.endpoints) ==>
              && old(m.endpoints)[k] in w.eps
              && old(m.endpoints)[k].node == m
              && old(m.endpoints)[k].name == k
              && IsNodeName(k)
              && old(m.endpoints[k].path) == old(m.path) + [k]
    ensures forall e :: e in w.eps ==>
              e.node in w.live && e.name in old(e.node.endpoints) && old(e.node.endpoints)[e.name] == e
  {
    assert old(w.EndpointsOwned());
    forall m, k | m in w.live && k in old(m.endpoints)
      ensures old(m.endpoints)[k] in w.eps && old(m.endpoints)[k].node == m && old(m.endpoints)[k].name == k
      ensures IsNodeName(k) && old(m.endpoints[k].path) == old(m.path) + [k]
    {
      assert old(w.EndpointsPlaced(m));
    }
  }

  twostate lemma RelinkedUp(c: Change, new w': World)
    requires old(c.w.Valid()) && c.Relinked(w') && c.Allowed()
    ensures forall m :: m in c.w.live ==> (m.parent == null || m.parent in c.w.live) && w'.LinkedUp(m)
  {
    hide World.Valid, Edited;
    var w, n := c.w, c.n;
    OldLinks(w);
    forall m | m in w.live
      ensures m.parent == null || m.parent in w.live
      ensures w'.LinkedUp(m)
    {
      var p, a, q, b := m.parent, m.name, old(n.parent), old(n.name);
      var before := old(Siblings(w, p));
      var after := Edited(before, p == q, b, p == n.parent, n.name, n);
      assert Siblings(w', p) == after;
      EditedAt(before, p == q, b, p == n.parent, n.name, n, a);
      assert a in after && after[a] == m;
    }
  }

  twostate lemma RelinkedDown(c: Change, new w': World)
    requires old(c.w.Valid()) && c.Relinked(w') && c.Allowed()
    ensures forall m :: m in c.w.live ==> m.children.Values <= c.w.live && w'.LinkedDown(m)
    ensures w'.LinkedTop()
  {
    hide World.Valid, Edited;
    var w, n := c.w, c.n;
    OldLinks(w);
    OldChildren(w);
    forall m, k | m in w.live && k in m.children
      ensures m.children[k] in w.live && m.children[k].parent == m && m.children[k].name == k
    {
      EditedAt(old(m.children), m == old(n.parent), old(n.name), m == n.parent, n.name, n, k);
    }
    forall k | k in w'.top
      ensures w'.top[k] in w.live && w'.top[k].parent == null && w'.top[k].name == k
    {
      EditedAt(w.top, old(n.parent) == null, old(n.name), n.parent == null, n.name, n, k);
    }
  }

  lemma MovedToChild(p: Path, a: string, root: Path, to: Path)
    requires p + [a] != root
    ensures MovedTo(p + [a], root, to) == MovedTo(p, root, to) + [a]
  {
    if Under(root, p + [a]) {
      assert Under(root, p);
      assert (p + [a])[|root|..] == p[|root|..] + [a];
    }
  }

  lemma RelocatedAt(now: map<Node, Path>, was: map<Node, Path>, n: Node, to: Path, m: Node)
    requires n in was && m in was && Relocated(now, was, was, Below(was, n), was[n], to)
    ensures m in now && now[m] == MovedTo(was[m], was[n], to)
  {
  }

  lemma MovedToSelf(root: Path, to: Path)
    ensures MovedTo(root, root, to) == to
  {
  }

  lemma MovedToNothing(p: Path, root: Path, to: Path)
    requires !Under(root, p)
    ensures MovedTo(p, root, to) == p
  {
  }

  lemma TopIsNotBelow(root: Path, a: string)
    requires root != [] && root != [a]
    ensures !Under(root, [a])
  {
  }

  twostate lemma RelinkedPlaced(c: Change, new w': World)
    requires old(c.w.Valid()) && old(c.w.Shaped(c.w.Paths(), []))
    requires c.Relinked(w') && c.Allowed() && c.Repathed()
    ensures forall m :: m in c.w.live ==> Placed(m)
  {
    hide World.Valid, World.Shaped, Edited, MovedTo, Relocated, EndpointsRelocated, Below, Under;
    var w, n := c.w, c.n;
    OldPaths(w);
    var was := old(w.Paths());
    forall m | m in w.live ensures Placed(m) {
      RelocatedAt(w.Paths(), was, n, c.to, m);
      var p := m.parent;
      if p != null {
        RelocatedAt(w.Paths(), was, n, c.to, p);
        if m == n {
          MovedToSelf(was[n], c.to);
          MovedToNothing(was[p], was[n], c.to);
        } else {
          MovedToChild(was[p], m.name, was[n], c.to);
        }
      } else if m == n {
        MovedToSelf(was[n], c.to);
      } else {
        assert was[m] == [m.name] && was[n] != [] && was[n] != was[m];
        TopIsNotBelow(was[n], m.name);
        MovedToNothing(was[m], was[n], c.to);
      }
    }
  }

  lemma RelocatedTogether(now: map<Node, Path>, was: map<Node, Path>, n: Node, to: Path,
                          endpointsNow: map<NodeEndpoint, Path>, before: map<NodeEndpoint, Path>, e: NodeEndpoint)
    requires n in was && e.node in was && e in before && before[e] == was[e.node] + [e.name]
    requires Relocated(now, was, was, Below(was, n), was[n], to)
    requires EndpointsRelocated(endpointsNow, before, was, Below(was, n), was[n], to)
    ensures e.node in now && e in endpointsNow && endpointsNow[e] == now[e.node] + [e.name]
  {
  }

  twostate lemma RelinkedEndpoints(c: Change, new w': World)
    requires old(c.w.Valid()) && c.Relinked(w') && c.Repathed()
    ensures forall m :: m in c.w.live ==> w'.EndpointsPlaced(m)
    ensures w'.EndpointsOwned()
  {
    hide World.Valid, World.Shaped, World.LinkedUp, World.LinkedDown, Placed, Edited, MovedTo, Below, EndpointsRelocated, Relocated;
    var w, n := c.w, c.n;
    OldEndpoints(w);
    var was, before := old(w.Paths()), old(w.EndpointPaths());
    forall m, k | m in w.live && k in m.endpoints
      ensures m.endpoints[k] in w'.eps && m.endpoints[k].node == m && m.endpoints[k].name == k
      ensures IsNodeName(k) && m.endpoints[k].path == m.path + [k]
    {
      assert m.endpoints == old(m.endpoints);
      var e := old(m.endpoints)[k];
      assert e in w.eps && e.node == m && e.name == k;
      assert e in before && before[e] == was[m] + [k];
      RelocatedTogether(w.Paths(), was, n, c.to, w.EndpointPaths(), before, e);
    }
  }

  twostate lemma IdsKept(c: Change, new w': World)
    requires old(c.w.Valid()) && c.Relinked(w')
    ensures w'.live == c.w.live && w'.DistinctIds()
  {
  }

  lemma MakeValid(w: World)
    requires w.LinkedTop() && w.EndpointsOwned() && w.DistinctIds()
    requires forall m :: m in w.live ==> (m.parent == null || m.parent in w.live) && w.LinkedUp(m)
    requires forall m :: m in w.live ==> m.children.Values <= w.live && w.LinkedDown(m)
    requires forall m :: m in w.live ==> Placed(m)
    requires forall m :: m in w.live ==> w.EndpointsPlaced(m)
    ensures w.Valid()
  {
  }

  /** The links and cached paths agree again. */
  twostate lemma RelinkedValid(c: Change, new w': World)
    requires old(c.w.Valid()) && old(c.w.Shaped(c.w.Paths(), []))
    requires Carried(c, w')
    ensures w'.Valid()
  {
    assert c.Relinked(w') && c.Allowed() && c.Repathed();
    hide *;
    IdsKept(c, w');
    RelinkedUp(c, w');
    RelinkedDown(c, w');
    RelinkedPlaced(c, w');
    RelinkedEndpoints(c, w');
    MakeValid(w');
  }

  /** Nothing outside the subtree of the node lies where the node goes. */
  twostate lemma TargetIsFree(c: Change, new w': World)
    requires old(c.w.Valid()) && old(c.w.Shaped(c.w.Paths(), [])) && old(Rooted(c.w, c.w.Paths()))
    requires c.Relinked(w') && c.Allowed()
    ensures forall m :: m in c.w.live && Under(c.to, old(m.path)) ==> Under(old(c.n.path), old(m.path))
  {
    hide World.Valid, Edited;
    var w, n, q := c.w, c.n, c.n.parent;
    OldPaths(w);
    var was := old(w.Paths());
    forall m | m in w.live && Under(c.to, was[m])
      ensures Under(was[n], was[m])
    {
      if q == null {
        assert was[m][0] == n.name;
      } else {
        assert was[m][|was[q]|] == n.name;
        assert Under([], was[q]) && was[q] < was[m];
      }
      assert n.name in old(Siblings(w, q));
    }
  }

  lemma BelowKept(was: map<Node, Path>, now: map<Node, Path>, n: Node, to: Path)
    requires n in was && Relocated(now, was, was, Below(was, n), was[n], to)
    requires forall m :: m in was && Under(to, was[m]) ==> Under(was[n], was[m])
    ensures n in now && Below(now, n) == Below(was, n)
  {
    assert MovedTo(was[n], was[n], to) == to;
  }

  /** The subtree of the node is the same set of nodes as before, and the others kept their paths. */
  twostate lemma RelinkedBelow(c: Change, new w': World)
    requires old(c.w.Valid()) && old(c.w.Shaped(c.w.Paths(), [])) && old(Rooted(c.w, c.w.Paths()))
    requires Carried(c, w')
    ensures c.n in w'.Paths() && c.n in old(c.w.Paths())
    ensures Below(w'.Paths(), c.n) == Below(old(c.w.Paths()), c.n)
  {
    hide World.Valid, World.Shaped, Rooted, Edited, MovedTo, Relocated, EndpointsRelocated, Below, Under, Change.Allowed;
    TargetIsFree(c, w');
    var was := old(c.w.Paths());
    assert forall m :: m in was ==> was[m] == old(m.path);
    BelowKept(was, c.w.Paths(), c.n, c.to);
    assert w'.Paths() == c.w.Paths();
  }

  // ---------------------------------------------------------------- what stays as it was

  /** Changing the name and parent of a node leaves the shape below it alone. */
  twostate lemma ShapedKept(c: Change)
    requires c.n in old(c.w.Paths())
    requires old(c.w.Shaped(c.w.Paths(), c.n.path))
    requires forall m :: m in c.w.live && m != c.n ==> m.name == old(m.name) && m.parent == old(m.parent)
    requires forall m :: m in c.w.live && Under(old(c.n.path), old(m.path)) ==> m.children == old(m.children)
    ensures c.w.Shaped(old(c.w.Paths()), old(c.n.path))
  {
    var w, was, root := c.w, old(c.w.Paths()), old(c.n.path);
    forall m, k | m in w.live && Under(root, was[m]) && k in m.children
      ensures m.children[k] in w.live && m.children[k].parent == m && m.children[k].name == k
      ensures was[m.children[k]] == was[m] + [k]
    {
      assert m.children == old(m.children);
      var d := old(m.children)[k];
      assert was[d] == was[m] + [k] && d != c.n;
    }
  }

  /** `t` files the nodes of `D` under the paths `was` gives them. */
  ghost predicate FiledUnder(t: map<string, Node>, D: set<Node>, was: map<Node, Path>)
    requires D <= was.Keys
  {
    && (forall n :: n in D ==> Join(was[n]) in t && t[Join(was[n])] == n)
    && (forall k :: k in t ==> t[k] in D && Join(was[t[k]]) == k)
  }

  lemma FiledUnderPaths(t: map<string, Node>, D: set<Node>, was: map<Node, Path>)
    requires D <= was.Keys && forall n :: n in D ==> n.path == was[n]
    ensures FilesNodes(t, D) <==> FiledUnder(t, D, was)
  {
  }

  ghost predicate EndpointsFiledUnder(t: map<string, NodeEndpoint>, E: set<NodeEndpoint>, was: map<NodeEndpoint, Path>)
    requires E <= was.Keys
  {
    && (forall e :: e in E ==> Join(was[e]) in t && t[Join(was[e])] == e)
    && (forall k :: k in t ==> t[k] in E && Join(was[t[k]]) == k)
  }

  lemma EndpointsFiledUnderPaths(t: map<string, NodeEndpoint>, E: set<NodeEndpoint>, was: map<NodeEndpoint, Path>)
    requires E <= was.Keys && forall e :: e in E ==> e.path == was[e]
    ensures FilesEndpoints(t, E) <==> EndpointsFiledUnder(t, E, was)
  {
  }

  /** What lies outside the subtree, and its endpoints, kept its cached paths. */
  twostate lemma OutsideKept(c: Change, new w': World)
    requires old(c.w.Valid()) && Carried(c, w')
    ensures c.n in old(c.w.Paths())
    ensures forall m :: m in c.w.live - Below(old(c.w.Paths()), c.n) ==> m.path == old(c.w.Paths())[m]
    ensures forall e :: e in EndpointsOf(c.w.live - Below(old(c.w.Paths()), c.n)) ==>
              e in old(c.w.EndpointPaths()) && e.path == old(c.w.EndpointPaths())[e]
    ensures EndpointsOf(c.w.live - Below(old(c.w.Paths()), c.n)) == old(EndpointsOf(c.w.live - Below(c.w.Paths(), c.n)))
  {
    hide World.Valid, Edited, Below, MovedTo;
    OldEndpoints(c.w);
    var was, before := old(c.w.Paths()), old(c.w.EndpointPaths());
    var D := c.w.live - Below(was, c.n);
    forall m | m in D ensures m.path == was[m] {
      assert c.w.Paths()[m] == was[m];
    }
    forall e | e in EndpointsOf(D) ensures e in before && e.path == before[e] {
      var m, k :| m in D && k in m.endpoints && m.endpoints[k] == e;
      assert old(m.endpoints)[k] == e && e.node == m;
      assert e in c.w.EndpointPaths() && c.w.EndpointPaths()[e] == before[e];
    }
  }
}
