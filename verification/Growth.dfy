/**
 Adding a node without children to a world, and taking one out of it.
 */
module Growth {
  import opened Paths
  import opened Forest
  import opened Relinking

  /** Below which node of which world something is added or removed. */
  datatype Place = Place(w: World, p: Node?)

  /** `n` is new and hangs below the place; nothing else has changed but the sibling map it entered. */
  twostate predicate Added(l: Place, new w': World, new n: Node)
    reads l.w.live, l.w.eps, n
  {
    && w'.live == l.w.live + {n} && n !in l.w.live && w'.eps == l.w.eps + n.endpoints.Values
    && n.parent == l.p && (l.p != null ==> l.p in l.w.live)
    && n.name !in old(Siblings(l.w, l.p))
    && (forall m :: m in l.w.live ==>
          && m.name == old(m.name) && m.path == old(m.path) && m.parent == old(m.parent)
          && m.endpoints == old(m.endpoints)
          && m.children == (if m == l.p then old(m.children)[n.name := n] else old(m.children)))
    && (forall e :: e in l.w.eps ==> e.path == old(e.path))
    && w'.top == (if l.p == null then l.w.top[n.name := n] else l.w.top)
  }

  /** What the constructor makes of a node. */
  ghost predicate Newborn(n: Node, p: Node?)
    reads n`name, n`path, n`parent, n`children, n`endpoints, n.endpoints.Values`path, (if p == null then {} else {p})`path
  {
    && IsNodeName(n.name) && n.parent == p && n.children == map[]
    && n.path == (if p == null then [] else p.path) + [n.name]
    && (forall k :: k in n.endpoints ==>
          n.endpoints[k].node == n && n.endpoints[k].name == k && IsNodeName(k) && n.endpoints[k].path == n.path + [k])
  }

  twostate lemma MakeAdded(l: Place, new w': World, new n: Node)
    requires w'.live == l.w.live + {n} && n !in l.w.live && w'.eps == l.w.eps + n.endpoints.Values
    requires n.parent == l.p && (l.p != null ==> l.p in l.w.live)
    requires n.name !in old(Siblings(l.w, l.p))
    requires forall m :: m in l.w.live ==>
               && m.name == old(m.name) && m.path == old(m.path) && m.parent == old(m.parent)
               && m.endpoints == old(m.endpoints)
               && m.children == (if m == l.p then old(m.children)[n.name := n] else old(m.children))
    requires forall e :: e in l.w.eps ==> e.path == old(e.path)
    requires w'.top == (if l.p == null then l.w.top[n.name := n] else l.w.top)
    ensures Added(l, w', n)
  {
  }

  twostate lemma AddedUp(l: Place, new w': World, new n: Node)
    requires old(l.w.Valid()) && Added(l, w', n) && Newborn(n, l.p)
    ensures forall m :: m in w'.live ==> (m.parent == null || m.parent in w'.live) && w'.LinkedUp(m)
  {
    hide World.Valid;
    OldLinks(l.w);
    forall m | m in w'.live
      ensures m.parent == null || m.parent in w'.live
      ensures w'.LinkedUp(m)
    {
      if m != n {
        assert m.name in old(Siblings(l.w, m.parent)) && old(Siblings(l.w, m.parent))[m.name] == m;
      }
    }
  }

  twostate lemma AddedDown(l: Place, new w': World, new n: Node)
    requires old(l.w.Valid()) && Added(l, w', n) && Newborn(n, l.p)
    ensures forall m :: m in w'.live ==> m.children.Values <= w'.live && w'.LinkedDown(m)
    ensures w'.LinkedTop()
  {
    hide World.Valid;
    OldChildren(l.w);
    forall m, k | m in w'.live && k in m.children
      ensures m.children[k] in w'.live && m.children[k].parent == m && m.children[k].name == k
    {
      if m.children[k] != n {
        assert k in old(m.children) && m.children[k] == old(m.children)[k];
      }
    }
  }

  twostate lemma AddedPaths(l: Place, new w': World, new n: Node)
    requires old(l.w.Valid()) && old(l.w.Shaped(l.w.Paths(), []))
    requires Added(l, w', n) && Newborn(n, l.p)
    ensures forall m :: m in w'.live ==> Placed(m)
    ensures forall m :: m in w'.live ==> w'.EndpointsPlaced(m)
    ensures w'.EndpointsOwned()
  {
    hide World.Valid, World.Shaped;
    OldPaths(l.w);
    OldEndpoints(l.w);
    forall m, k | m in l.w.live && k in m.endpoints
      ensures m.endpoints[k] in w'.eps && m.endpoints[k].node == m && m.endpoints[k].name == k
      ensures IsNodeName(k) && m.endpoints[k].path == m.path + [k]
    {
      assert old(m.endpoints)[k] in l.w.eps;
    }
  }

  twostate lemma AddedIds(l: Place, new w': World, new n: Node)
    requires old(l.w.Valid()) && Added(l, w', n)
    requires forall m :: m in l.w.live ==> m.id != n.id
    ensures w'.DistinctIds()
  {
    hide World.LinkedUp, World.LinkedDown, World.EndpointsPlaced, Placed;
  }

  twostate lemma AddedValid(l: Place, new w': World, new n: Node)
    requires old(l.w.Valid()) && old(l.w.Shaped(l.w.Paths(), []))
    requires Added(l, w', n) && Newborn(n, l.p)
    requires forall m :: m in l.w.live ==> m.id != n.id
    ensures w'.Valid()
  {
    hide *;
    AddedUp(l, w', n);
    AddedDown(l, w', n);
    AddedPaths(l, w', n);
    AddedIds(l, w', n);
    MakeValid(w');
  }

  // ---------------------------------------------------------------- removal

  datatype Removal = Removal(w: World, n: Node)

  /** `n` had no children and is gone; nothing else has changed but the sibling map it left. */
  twostate predicate Removed(r: Removal, new w': World)
    reads r.w.live, r.w.eps
  {
    && r.n in r.w.live && old(r.n.children) == map[]
    && w'.live == r.w.live - {r.n} && w'.eps == r.w.eps - old(r.n.endpoints).Values
    && (forall m :: m in w'.live ==>
          && m.name == old(m.name) && m.path == old(m.path) && m.parent == old(m.parent)
          && m.endpoints == old(m.endpoints)
          && m.children == (if m == old(r.n.parent) then old(m.children) - {old(r.n.name)} else old(m.children)))
    && (forall e :: e in w'.eps ==> e.path == old(e.path))
    && w'.top == (if old(r.n.parent) == null then r.w.top - {old(r.n.name)} else r.w.top)
  }

  twostate lemma RemovedUp(r: Removal, new w': World)
    requires old(r.w.Valid()) && Removed(r, w')
    ensures forall m :: m in w'.live ==> (m.parent == null || m.parent in w'.live) && w'.LinkedUp(m)
  {
    hide World.Valid;
    OldLinks(r.w);
    var n := r.n;
    assert old(Siblings(r.w, n.parent))[old(n.name)] == n;
    forall m | m in w'.live
      ensures m.parent == null || m.parent in w'.live
      ensures w'.LinkedUp(m)
    {
      var p, a := m.parent, m.name;
      var before := old(Siblings(r.w, p));
      assert a in before && before[a] == m;
      assert Siblings(w', p) == if p == old(n.parent) then before - {old(n.name)} else before;
    }
  }

  twostate lemma RemovedDown(r: Removal, new w': World)
    requires old(r.w.Valid()) && Removed(r, w')
    ensures forall m :: m in w'.live ==> m.children.Values <= w'.live && w'.LinkedDown(m)
    ensures w'.LinkedTop()
  {
    hide World.Valid;
    OldChildren(r.w);
    forall m, k | m in w'.live && k in m.children
      ensures m.children[k] in w'.live && m.children[k].parent == m && m.children[k].name == k
    {
      assert k in old(m.children) && m.children[k] == old(m.children)[k];
    }
  }

  twostate lemma RemovedPaths(r: Removal, new w': World)
    requires old(r.w.Valid()) && old(r.w.Shaped(r.w.Paths(), []))
    requires Removed(r, w')
    ensures forall m :: m in w'.live ==> Placed(m)
  {
    hide World.Valid, World.Shaped;
    OldPaths(r.w);
    RemovedUp(r, w');
    hide World.LinkedUp, World.LinkedDown;
    forall m | m in w'.live ensures Placed(m) {
      var p := m.parent;
      assert m.path == old(m.ParentPath()) + [m.name];
      assert p != null ==> p.path == old(p.path);
    }
  }

  twostate lemma RemovedEndpoints(r: Removal, new w': World)
    requires old(r.w.Valid()) && Removed(r, w')
    ensures forall m :: m in w'.live ==> w'.EndpointsPlaced(m)
    ensures w'.EndpointsOwned()
  {
    hide World.Valid;
    OldEndpoints(r.w);
    forall m, k | m in w'.live && k in m.endpoints
      ensures m.endpoints[k] in w'.eps && m.endpoints[k].node == m && m.endpoints[k].name == k
      ensures IsNodeName(k) && m.endpoints[k].path == m.path + [k]
    {
      assert old(m.endpoints)[k] in r.w.eps && old(m.endpoints)[k].node == m;
      forall l | l in old(r.n.endpoints) ensures old(r.n.endpoints)[l] != m.endpoints[k] {
        assert old(r.n.endpoints)[l].node == r.n;
      }
    }
    forall e | e in w'.eps ensures e.node in w'.live {
      assert old(e.node.endpoints)[e.name] == e;
    }
  }

  twostate lemma RemovedIds(r: Removal, new w': World)
    requires old(r.w.Valid()) && Removed(r, w')
    ensures w'.DistinctIds()
  {
    hide World.LinkedUp, World.LinkedDown, World.EndpointsPlaced, Placed;
  }

  twostate lemma RemovedValid(r: Removal, new w': World)
    requires old(r.w.Valid()) && old(r.w.Shaped(r.w.Paths(), []))
    requires Removed(r, w')
    ensures w'.Valid()
  {
    hide *;
    RemovedUp(r, w');
    RemovedDown(r, w');
    RemovedPaths(r, w');
    RemovedEndpoints(r, w');
    RemovedIds(r, w');
    MakeValid(w');
  }

  // ---------------------------------------------------------------- nodes by where they lie

  ghost function LiveUnder(live: set<Node>, p: Path): set<Node>
    reads live`path
  {
    set m | m in live && Under(p, m.path)
  }

  ghost function LiveUnderAny(live: set<Node>, p: Path, names: set<string>): set<Node>
    reads live`path
  {
    set m | m in live && UnderAny(p, names, m.path)
  }

  /** Through no child only the node itself is reached, through all of them its whole subtree. */
  lemma UnderEnds(w: World, n: Node)
    requires w.Valid() && n in w.live
    ensures LiveUnderAny(w.live, n.path, {}) == {n}
    ensures LiveUnderAny(w.live, n.path, n.children.Keys) == LiveUnder(w.live, n.path)
    ensures n in LiveUnder(w.live, n.path)
  {
    ValidIsShaped(w, []);
    hide World.Valid;
    WalkEnds(w, w.Paths(), [], n);
    assert n.children.Keys - n.children.Keys == {} && n.children.Keys - {} == n.children.Keys;
    assert LiveUnderAny(w.live, n.path, {}) == Walked(w.Paths(), n, n.children.Keys);
    assert LiveUnderAny(w.live, n.path, n.children.Keys) == Walked(w.Paths(), n, {});
  }

  lemma UnderNext(live: set<Node>, p: Path, names: set<string>, k: string)
    requires k !in names
    ensures LiveUnderAny(live, p, names + {k}) == LiveUnderAny(live, p, names) + LiveUnder(live, p + [k])
    ensures LiveUnderAny(live, p, names) !! LiveUnder(live, p + [k])
  {
    forall m | m in live
      ensures UnderAny(p, names + {k}, m.path) <==> UnderAny(p, names, m.path) || Under(p + [k], m.path)
      ensures !(UnderAny(p, names, m.path) && Under(p + [k], m.path))
    {
      UnderStep(p, names, k, m.path);
    }
    hide UnderAny, Under;
  }

  lemma BelowIsUnder(w: World, n: Node)
    requires n in w.live
    ensures n in w.Paths() && Below(w.Paths(), n) == LiveUnder(w.live, n.path)
  {
  }

  lemma LeafIsAlone(w: World, n: Node)
    requires w.Valid() && n in w.live && n.children == map[]
    ensures n in w.Paths() && Below(w.Paths(), n) == {n}
  {
    UnderEnds(w, n);
    BelowIsUnder(w, n);
  }

  twostate lemma MakeRemoved(r: Removal, new w': World)
    requires r.n in r.w.live && old(r.n.children) == map[]
    requires w'.live == r.w.live - {r.n} && w'.eps == r.w.eps - old(r.n.endpoints).Values
    requires forall m :: m in w'.live ==>
               && m.name == old(m.name) && m.path == old(m.path) && m.parent == old(m.parent)
               && m.endpoints == old(m.endpoints)
               && m.children == (if m == old(r.n.parent) then old(m.children) - {old(r.n.name)} else old(m.children))
    requires forall e :: e in w'.eps ==> e.path == old(e.path)
    requires w'.top == (if old(r.n.parent) == null then r.w.top - {old(r.n.name)} else r.w.top)
    ensures Removed(r, w')
  {
  }

  /** Deleting the child `k` removes what a walk reaches through it. */
  lemma DeletedNext(all: set<Node>, live: set<Node>, n: Node, names: set<string>, todo: set<string>, k: string)
    requires n in live && live <= all && k in todo && todo <= names
    requires live == all - (LiveUnderAny(all, n.path, names - todo) - {n})
    ensures live - LiveUnder(live, n.path + [k]) == all - (LiveUnderAny(all, n.path, names - (todo - {k})) - {n})
    ensures LiveUnder(live, n.path + [k]) < LiveUnder(all, n.path)
    ensures n !in LiveUnder(live, n.path + [k])
  {
    UnderNext(all, n.path, names - todo, k);
    assert names - (todo - {k}) == names - todo + {k};
    assert Under(n.path, n.path) && !Under(n.path + [k], n.path);
    assert forall m :: m in all && Under(n.path + [k], m.path) ==> Under(n.path, m.path);
    assert n in LiveUnder(all, n.path);
    hide Under, UnderAny;
  }
}
