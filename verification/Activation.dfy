/**
 Containers switch what they contain: a node that is no container is to be active exactly when every
 container above it is.

 The properties are stated on snapshots: where the nodes lie, which endpoint is the switch of which
 node, and what values the endpoints hold.
 */
module Activation {
  import opened Paths
  import opened Values
  import opened Forest
  import opened Relocation
  import opened Connections

  /** The active endpoint of each node that has one. */
  ghost function Switches(live: set<Node>): map<Node, NodeEndpoint>
    reads live`endpoints
  {
    map n | n in live && ACTIVE in n.endpoints :: n.endpoints[ACTIVE]
  }

  predicate Nonzero(v: Option<Value>) {
    v.Some? && v.value.IntegerValue? && v.value.i != 0
  }

  ghost predicate On(sw: map<Node, NodeEndpoint>, values: Valuation, n: Node) {
    n in sw && sw[n] in values && Nonzero(values[sw[n]])
  }

  /** All containers from `root` down to just above `p` are on. */
  ghost predicate LitFrom(was: map<Node, Path>, sw: map<Node, NodeEndpoint>, values: Valuation, root: Path, p: Path) {
    forall a :: a in was && a.iface.kind == CONTAINER && Under(root, was[a]) && was[a] < p ==> On(sw, values, a)
  }

  /** All containers above `p` are on. */
  ghost predicate Lit(was: map<Node, Path>, sw: map<Node, NodeEndpoint>, values: Valuation, p: Path) {
    LitFrom(was, sw, values, [], p)
  }

  function Flag(b: bool): Option<Value> {
    Some(IntegerValue(if b then 1 else 0))
  }

  /** Every node that is no container is active exactly when all containers above it are. */
  ghost predicate InSeries(was: map<Node, Path>, sw: map<Node, NodeEndpoint>, values: Valuation) {
    forall n :: n in was && n in sw && n.iface.kind != CONTAINER ==>
      sw[n] in values && values[sw[n]] == Flag(Lit(was, sw, values, was[n]))
  }

  /** The series property of a tree as it is. */
  ghost predicate Series(w: World)
    reads w.live`path, w.live`endpoints, w.eps`value
  {
    InSeries(w.Paths(), Switches(w.live), ValuesOf(w.eps))
  }

  /** `e` is the switch of a node of `S` that is no container. */
  ghost predicate Switched(sw: map<Node, NodeEndpoint>, S: set<Node>, e: NodeEndpoint) {
    e.node in S && e.node in sw && sw[e.node] == e && e.node.iface.kind != CONTAINER
  }

  /** Exactly the switches in `S` were set, each to whether `on` and all containers from `root` on are on. */
  ghost predicate Activated(now: Valuation, before: Valuation, was: map<Node, Path>, sw: map<Node, NodeEndpoint>,
                            S: set<Node>, root: Path, on: bool)
  {
    && now.Keys == before.Keys
    && forall e :: e in now ==>
         now[e] == if e.node in was && Switched(sw, S, e) then Flag(on && LitFrom(was, sw, before, root, was[e.node])) else before[e]
  }

  /** Switches belong to the nodes they switch. */
  ghost predicate SwitchesFit(sw: map<Node, NodeEndpoint>) {
    forall n :: n in sw ==> sw[n].node == n
  }

  /** Setting switches of nodes that are no containers does not change what is lit. */
  lemma ContainersKept(now: Valuation, before: Valuation, was: map<Node, Path>, sw: map<Node, NodeEndpoint>,
                       S: set<Node>, root: Path, on: bool)
    requires Activated(now, before, was, sw, S, root, on) && SwitchesFit(sw)
    ensures forall a :: a in was && a.iface.kind == CONTAINER ==> (On(sw, now, a) <==> On(sw, before, a))
    ensures forall r, p :: LitFrom(was, sw, now, r, p) <==> LitFrom(was, sw, before, r, p)
  {
    forall a | a in was && a.iface.kind == CONTAINER ensures On(sw, now, a) <==> On(sw, before, a) {
      if a in sw {
        assert sw[a].node == a && !Switched(sw, S, sw[a]);
      }
    }
  }

  /** Everything above `p` from `n` on: `n` itself, and what lies from its child on. */
  lemma LitStep(was: map<Node, Path>, sw: map<Node, NodeEndpoint>, values: Valuation, n: Node, k: string, p: Path)
    requires n in was && Under(was[n] + [k], p)
    requires forall a :: a in was && was[a] == was[n] ==> a == n
    ensures LitFrom(was, sw, values, was[n], p) <==>
              (n.iface.kind == CONTAINER ==> On(sw, values, n)) && LitFrom(was, sw, values, was[n] + [k], p)
  {
    forall a | a in was && Under(was[n], was[a]) && was[a] < p ensures a == n || Under(was[n] + [k], was[a]) {
      if |was[a]| > |was[n]| {
        assert was[a][..|was[n]| + 1] == p[..|was[n]| + 1] == was[n] + [k];
      } else {
        assert was[a] == was[n];
      }
    }
    assert was[n] < p;
  }

  lemma ActivatedNext(now: Valuation, mid: Valuation, before: Valuation, was: map<Node, Path>, sw: map<Node, NodeEndpoint>,
                      S: set<Node>, n: Node, c: Node, k: string, on: bool)
    requires n in was && c in was && was[c] == was[n] + [k] && S !! Below(was, c) && SwitchesFit(sw)
    requires forall a :: a in was && was[a] == was[n] ==> a == n
    requires Activated(mid, before, was, sw, S, was[n], on)
    requires Activated(now, mid, was, sw, Below(was, c), was[c], on && (n.iface.kind == CONTAINER ==> On(sw, before, n)))
    ensures Activated(now, before, was, sw, S + Below(was, c), was[n], on)
  {
    ContainersKept(mid, before, was, sw, S, was[n], on);
    forall m | m in Below(was, c)
      ensures LitFrom(was, sw, before, was[n], was[m]) <==>
                (n.iface.kind == CONTAINER ==> On(sw, before, n)) && LitFrom(was, sw, mid, was[c], was[m])
    {
      LitStep(was, sw, before, n, k, was[m]);
    }
    hide LitFrom, On;
  }

  // ---------------------------------------------------------------- asking upwards

  /** Every node above `p` that has a switch is on. */
  ghost predicate AllOnAbove(was: map<Node, Path>, sw: map<Node, NodeEndpoint>, values: Valuation, p: Path) {
    forall a :: a in was && a in sw && was[a] < p ==> On(sw, values, a)
  }

  /** What lies above a node: its parent, and what lies above that. */
  lemma AboveStep(w: World, n: Node)
    requires w.Valid() && n in w.live
    ensures n.parent != null ==> n.parent in w.live && |n.parent.path| < |n.path|
    ensures forall a :: a in w.live ==> (a.path < n.path <==> n.parent != null && (a == n.parent || a.path < n.parent.path))
  {
    assert Placed(n);
    forall a | a in w.live
      ensures a.path < n.path <==> n.parent != null && (a == n.parent || a.path < n.parent.path)
    {
      PathLegal(w, a);
      ProperPrefixOf(a.path, n.path);
      assert Init(n.path) == n.ParentPath();
      if n.parent != null {
        PathUnique(w, a, n.parent);
      }
    }
  }

  /** A container declares a switch, and every switch is declared as an integer. */
  lemma DeclaredSwitch(n: Node)
    requires n.iface.Valid() && n.HasDeclaredEndpoints()
    ensures n.iface.kind == CONTAINER ==> ACTIVE in n.endpoints
    ensures ACTIVE in n.endpoints ==>
              n.endpoints[ACTIVE].definition.initial.Some? && n.endpoints[ACTIVE].definition.initial.value.IntegerValue?
  {
    if n.iface.kind == CONTAINER {
      DeclaredEndpoint(n, ACTIVE, INTEGER);
    }
  }

  lemma TypedAt(live: set<Node>, eps: set<NodeEndpoint>, n: Node, e: NodeEndpoint)
    requires WellTyped(live, eps) && n in live && e in eps
    ensures n.iface.Valid() && n.HasDeclaredEndpoints()
    ensures e.definition.initial.Some? && e.definition.initial.value.IntegerValue? ==> e.value.Some? && e.value.value.IntegerValue?
  {
    assert e.HasDeclaredType();
  }

  lemma EndpointOf(w: World, n: Node, k: string)
    requires w.Valid() && n in w.live && k in n.endpoints
    ensures n.endpoints[k] in w.eps && n.endpoints[k].node == n && n.endpoints[k].name == k
  {
    assert w.EndpointsPlaced(n);
  }

  lemma MakeHasSwitch(w: World, n: Node)
    requires n in w.live && ACTIVE in n.endpoints && n.endpoints[ACTIVE] in w.eps
    requires n.endpoints[ACTIVE].value.Some? && n.endpoints[ACTIVE].value.value.IntegerValue?
    ensures HasSwitch(w, n)
  {
  }

  /** The switch of a node holds an integer. */
  lemma SwitchOf(w: World, n: Node)
    requires w.Valid() && WellTyped(w.live, w.eps) && n in w.live
    ensures n.iface.kind == CONTAINER ==> ACTIVE in n.endpoints
    ensures ACTIVE in n.endpoints ==> HasSwitch(w, n)
    ensures n in Switches(w.live) ==> ACTIVE in n.endpoints
  {
    SwitchIsDeclared(w, n);
    hide *;
    if ACTIVE in n.endpoints {
      EndpointOf(w, n, ACTIVE);
      TypedAt(w.live, w.eps, n, n.endpoints[ACTIVE]);
      MakeHasSwitch(w, n);
    }
  }

  lemma SwitchIsDeclared(w: World, n: Node)
    requires WellTyped(w.live, w.eps) && n in w.live
    ensures n.iface.kind == CONTAINER ==> ACTIVE in n.endpoints
    ensures ACTIVE in n.endpoints ==>
              n.endpoints[ACTIVE].definition.initial.Some? && n.endpoints[ACTIVE].definition.initial.value.IntegerValue?
    ensures n in Switches(w.live) ==> ACTIVE in n.endpoints
  {
    hide Interface.Valid, Node.HasDeclaredEndpoints, NodeEndpoint.HasDeclaredType;
    DeclaredSwitch(n);
  }

  ghost predicate HasSwitch(w: World, n: Node)
    reads w.live`endpoints, w.eps`value
  {
    && n in w.live && ACTIVE in n.endpoints && n.endpoints[ACTIVE] in w.eps
    && n in Switches(w.live) && Switches(w.live)[n] == n.endpoints[ACTIVE]
    && ValuesOf(w.eps)[n.endpoints[ACTIVE]].Some?
    && ValuesOf(w.eps)[n.endpoints[ACTIVE]].value.IntegerValue?
  }

  lemma SwitchIs(w: World, n: Node)
    requires HasSwitch(w, n)
    ensures ACTIVE in n.endpoints && n.endpoints[ACTIVE] in w.eps
    ensures ValuesOf(w.eps).Keys == w.eps && ValuesOf(w.eps)[n.endpoints[ACTIVE]] == n.endpoints[ACTIVE].value
    ensures n in Switches(w.live) && Switches(w.live)[n] == n.endpoints[ACTIVE]
    ensures n.endpoints[ACTIVE].value.Some? && n.endpoints[ACTIVE].value.value.IntegerValue?
    ensures On(Switches(w.live), ValuesOf(w.eps), n) <==> n.endpoints[ACTIVE].value != Some(IntegerValue(0))
  {
  }

  /** No switch above is at zero. */
  lemma AllOnAboveMeans(w: World, n: Node)
    requires w.Valid() && WellTyped(w.live, w.eps) && n in w.live
    ensures AllOnAbove(w.Paths(), Switches(w.live), ValuesOf(w.eps), n.path) <==>
              forall a :: a in w.live && a.path < n.path && "active" in a.endpoints ==>
                a.endpoints["active"].value != Some(IntegerValue(0))
  {
    hide World.Valid, WellTyped, On;
    forall a | a in w.live && "active" in a.endpoints
      ensures a in w.Paths() && a in Switches(w.live) && w.Paths()[a] == a.path
      ensures On(Switches(w.live), ValuesOf(w.eps), a) <==> a.endpoints["active"].value != Some(IntegerValue(0))
    {
      PathsAt(w, a);
      SwitchOf(w, a);
      SwitchIs(w, a);
    }
  }

  method AreAllAncestorsActive(n: Node, ghost w: World) returns (all: bool)
    requires w.Valid() && WellTyped(w.live, w.eps) && n in w.live
    ensures all <==> AllOnAbove(w.Paths(), Switches(w.live), ValuesOf(w.eps), n.path)
    decreases |n.path|
  {
    hide World.Valid, WellTyped, On, HasSwitch;
    AboveStep(w, n);
    var parent := n.parent;
    if parent == null {
      return true;
    }
    SwitchOf(w, parent);
    if ACTIVE in parent.endpoints {
      SwitchIs(w, parent);
      if parent.endpoints[ACTIVE].value == Some(IntegerValue(0)) {
        return false;
      }
    }
    all := AreAllAncestorsActive(parent, w);
  }

  // ---------------------------------------------------------------- switching downwards

  lemma WorldFits(w: World)
    requires w.Valid()
    ensures SwitchesFit(Switches(w.live)) && ValuesOf(w.eps).Keys == w.eps && w.Paths().Keys == w.live
    ensures forall n :: n in Switches(w.live) ==> Switches(w.live)[n] in w.eps
    ensures forall a, n :: a in w.live && n in w.live && w.Paths()[a] == w.Paths()[n] ==> a == n
  {
    forall n | n in w.live ensures w.EndpointsPlaced(n) {
    }
    forall a, n | a in w.live && n in w.live && a.path == n.path ensures a == n {
      PathUnique(w, a, n);
    }
  }

  lemma SelfActivated(now: Valuation, before: Valuation, was: map<Node, Path>, sw: map<Node, NodeEndpoint>, n: Node, on: bool)
    requires n in was && SwitchesFit(sw) && (n in sw ==> sw[n] in before)
    requires now == if n in sw && n.iface.kind != CONTAINER then before[sw[n] := Flag(on)] else before
    ensures Activated(now, before, was, sw, {n}, was[n], on)
  {
  }

  /** The paths of the nodes of `S` that have been switched on. */
  ghost function TurnedOn(now: Valuation, before: Valuation, was: map<Node, Path>, sw: map<Node, NodeEndpoint>, S: set<Node>): set<Path> {
    set n | n in S && TurnedOnAt(now, before, was, sw, n) :: was[n]
  }

  ghost predicate TurnedOnAt(now: Valuation, before: Valuation, was: map<Node, Path>, sw: map<Node, NodeEndpoint>, n: Node) {
    && n in was && n in sw && n.iface.kind != CONTAINER && sw[n] in now && sw[n] in before
    && now[sw[n]] == Flag(true) && before[sw[n]] != Flag(true)
  }

  lemma SelfTurnedOn(now: Valuation, before: Valuation, was: map<Node, Path>, sw: map<Node, NodeEndpoint>, n: Node, on: bool, b: bool)
    requires n in was && (n in sw ==> sw[n] in before)
    requires now == if n in sw && n.iface.kind != CONTAINER then before[sw[n] := Flag(on)] else before
    requires b <==> n in sw && n.iface.kind != CONTAINER && on && before[sw[n]] != Flag(on)
    ensures TurnedOn(now, before, was, sw, {n}) == if b then {was[n]} else {}
  {
  }

  lemma FlagIsTyped(values: Valuation, e: NodeEndpoint, on: bool)
    requires TypedValues(values) && e in values && values[e].Some? && values[e].value.IntegerValue?
    ensures TypedValues(values[e := Flag(on)])
  {
  }

  method SetValue(e: NodeEndpoint, v: Option<Value>, ghost eps: set<NodeEndpoint>)
    requires e in eps
    modifies e`value
    ensures ValuesOf(eps) == old(ValuesOf(eps))[e := v]
  {
    e.value := v;
  }

  /** Sets the switch of `n`, if it has one and is no container. */
  method ActivateSelf(n: Node, activate: bool, ghost w: World) returns (on: bool, activated: bool)
    requires w.Valid() && WellTyped(w.live, w.eps) && n in w.live
    modifies w.eps`value
    ensures on <==> activate && (n.iface.kind == CONTAINER ==> On(Switches(w.live), old(ValuesOf(w.eps)), n))
    ensures Activated(ValuesOf(w.eps), old(ValuesOf(w.eps)), w.Paths(), Switches(w.live), {n}, n.path, activate)
    ensures WellTyped(w.live, w.eps)
    ensures TurnedOn(ValuesOf(w.eps), old(ValuesOf(w.eps)), w.Paths(), Switches(w.live), {n}) == if activated then {n.path} else {}
  {
    hide *;
    ghost var before, sw := ValuesOf(w.eps), Switches(w.live);
    WorldFits(w);
    PathsAt(w, n);
    SwitchOf(w, n);
    WellTypedValues(w.live, w.eps);
    on, activated := activate, false;
    if ACTIVE in n.endpoints {
      SwitchIs(w, n);
    }
    if n.iface.kind == CONTAINER {
      on := on && n.endpoints[ACTIVE].value != Some(IntegerValue(0));
    } else if ACTIVE in n.endpoints {
      var value := Flag(activate);
      if n.endpoints[ACTIVE].value != value {
        SetValue(n.endpoints[ACTIVE], value, w.eps);
        activated := activate;
      }
      assert activated <==> activate && before[n.endpoints[ACTIVE]] != value;
      FlagIsTyped(before, n.endpoints[ACTIVE], activate);
      assert ValuesOf(w.eps) == before[n.endpoints[ACTIVE] := value];
    }
    SelfActivated(ValuesOf(w.eps), before, w.Paths(), sw, n, activate);
    SelfTurnedOn(ValuesOf(w.eps), before, w.Paths(), sw, n, activate, activated);
    WellTypedValues(w.live, w.eps);
  }

  lemma TurnedOnNext(now: Valuation, mid: Valuation, before: Valuation, was: map<Node, Path>, sw: map<Node, NodeEndpoint>,
                     S: set<Node>, T: set<Node>, r: Path, a: bool, q: Path, b: bool)
    requires SwitchesFit(sw) && S !! T
    requires Activated(mid, before, was, sw, S, r, a) && Activated(now, mid, was, sw, T, q, b)
    ensures TurnedOn(now, before, was, sw, S + T) == TurnedOn(mid, before, was, sw, S) + TurnedOn(now, mid, was, sw, T)
  {
    forall n | n in was && n in sw && sw[n] in before
      ensures n !in T ==> now[sw[n]] == mid[sw[n]]
      ensures n !in S ==> mid[sw[n]] == before[sw[n]]
    {
      assert sw[n].node == n;
    }
    hide Activated, LitFrom;
    assert now.Keys == mid.Keys == before.Keys;
  }

  /** `all` goes on from `list` with exactly the paths of `on`. */
  ghost predicate Listed(all: seq<Path>, list: seq<Path>, on: set<Path>) {
    forall p :: p in all <==> p in list || p in on
  }

  lemma ListedSelf(list: seq<Path>, p: Path, activated: bool)
    ensures Listed(if activated then list + [p] else list, list, if activated then {p} else {})
  {
  }

  lemma ListedNext(all: seq<Path>, mid: seq<Path>, list: seq<Path>, A: set<Path>, B: set<Path>)
    requires Listed(mid, list, A) && Listed(all, mid, B)
    ensures Listed(all, list, A + B)
  {
  }

  /** Switches everything at and below `n`, and lists what has been switched on. */
  method ActivateTree(n: Node, activate: bool, list: seq<Path>, ghost w: World) returns (all: seq<Path>)
    requires w.Valid() && WellTyped(w.live, w.eps) && n in w.live && n in w.Paths()
    modifies w.eps`value
    ensures Activated(ValuesOf(w.eps), old(ValuesOf(w.eps)), w.Paths(), Switches(w.live), Below(w.Paths(), n), n.path, activate)
    ensures WellTyped(w.live, w.eps)
    ensures Listed(all, list, TurnedOn(ValuesOf(w.eps), old(ValuesOf(w.eps)), w.Paths(), Switches(w.live), Below(w.Paths(), n)))
    decreases Below(w.Paths(), n)
  {
    hide *;
    ghost var was, before, sw := w.Paths(), ValuesOf(w.eps), Switches(w.live);
    ValidWalk(w, n);
    WalkEnds(w, was, [], n);
    WorldFits(w);
    PathsAt(w, n);
    var on, activated := ActivateSelf(n, activate, w);
    all := list;
    if activated {
      all := all + [n.path];
    }
    ListedSelf(list, n.path, activated);
    var todo := n.children.Keys;
    while todo != {}
      invariant todo <= n.children.Keys && WellTyped(w.live, w.eps)
      invariant Activated(ValuesOf(w.eps), before, was, sw, Walked(was, n, todo), n.path, activate)
      invariant Listed(all, list, TurnedOn(ValuesOf(w.eps), before, was, sw, Walked(was, n, todo)))
      decreases todo
    {
      var k :| k in todo;
      var c := n.children[k];
      WalkNext(w, was, [], n, todo, k);
      PathsAt(w, c);
      ghost var S, mid, listed := Walked(was, n, todo), ValuesOf(w.eps), all;
      all := ActivateTree(c, on, all, w);
      ActivatedNext(ValuesOf(w.eps), mid, before, was, sw, S, n, c, k, activate);
      TurnedOnNext(ValuesOf(w.eps), mid, before, was, sw, S, Below(was, c), n.path, activate, c.path, on);
      ListedNext(all, listed, list, TurnedOn(mid, before, was, sw, S), TurnedOn(ValuesOf(w.eps), mid, was, sw, Below(was, c)));
      todo := todo - {k};
    }
  }

  /** Nothing has been activated yet, as far as the container itself goes. */
  lemma ContainerActivated(values: Valuation, was: map<Node, Path>, sw: map<Node, NodeEndpoint>, n: Node, on: bool)
    requires n in was && n.iface.kind == CONTAINER && SwitchesFit(sw) && (n in sw ==> sw[n] in values)
    ensures Activated(values, values, was, sw, {n}, was[n], on)
    ensures TurnedOn(values, values, was, sw, {n}) == {}
  {
  }

  /** Switching below `n` changes nothing above it. */
  lemma AboveKept(now: Valuation, before: Valuation, was: map<Node, Path>, sw: map<Node, NodeEndpoint>, n: Node,
                  S: set<Node>, on: bool)
    requires n in was && S <= Below(was, n) && SwitchesFit(sw)
    requires Activated(now, before, was, sw, S, was[n], on)
    ensures AllOnAbove(was, sw, now, was[n]) <==> AllOnAbove(was, sw, before, was[n])
  {
    forall a | a in was && a in sw && was[a] < was[n] ensures On(sw, now, a) <==> On(sw, before, a) {
      assert sw[a].node == a && a !in S;
    }
  }

  /** What a container does to its children when its own switch has been set. */
  method ActivateChildren(n: Node, active: bool, ghost w: World) returns (all: seq<Path>)
    requires w.Valid() && WellTyped(w.live, w.eps) && n in w.live && n.iface.kind == CONTAINER && n in w.Paths()
    requires active <==> On(Switches(w.live), ValuesOf(w.eps), n)
    modifies w.eps`value
    ensures Activated(ValuesOf(w.eps), old(ValuesOf(w.eps)), w.Paths(), Switches(w.live), Below(w.Paths(), n), n.path,
                      old(AllOnAbove(w.Paths(), Switches(w.live), ValuesOf(w.eps), n.path)))
    ensures WellTyped(w.live, w.eps)
    ensures Listed(all, [], TurnedOn(ValuesOf(w.eps), old(ValuesOf(w.eps)), w.Paths(), Switches(w.live), Below(w.Paths(), n)))
  {
    hide *;
    ghost var was, before, sw := w.Paths(), ValuesOf(w.eps), Switches(w.live);
    ghost var lit := AllOnAbove(was, sw, before, n.path);
    ValidWalk(w, n);
    WalkEnds(w, was, [], n);
    WorldFits(w);
    PathsAt(w, n);
    all := [];
    ListedSelf([], n.path, false);
    ContainerActivated(before, was, sw, n, lit);
    var todo := n.children.Keys;
    while todo != {}
      invariant todo <= n.children.Keys && WellTyped(w.live, w.eps)
      invariant Activated(ValuesOf(w.eps), before, was, sw, Walked(was, n, todo), n.path, lit)
      invariant Listed(all, [], TurnedOn(ValuesOf(w.eps), before, was, sw, Walked(was, n, todo)))
      decreases todo
    {
      var k :| k in todo;
      var c := n.children[k];
      WalkNext(w, was, [], n, todo, k);
      PathsAt(w, c);
      ghost var S, mid, listed := Walked(was, n, todo), ValuesOf(w.eps), all;
      AboveKept(mid, before, was, sw, n, S, lit);
      var above := AreAllAncestorsActive(n, w);
      var on := active && above;
      all := ActivateTree(c, on, all, w);
      ActivatedNext(ValuesOf(w.eps), mid, before, was, sw, S, n, c, k, lit);
      TurnedOnNext(ValuesOf(w.eps), mid, before, was, sw, S, Below(was, c), n.path, lit, c.path, on);
      ListedNext(all, listed, [], TurnedOn(mid, before, was, sw, S), TurnedOn(ValuesOf(w.eps), mid, was, sw, Below(was, c)));
      todo := todo - {k};
    }
  }

  // ---------------------------------------------------------------- the series property

  /** Above a node whose surroundings are in series, everything is on if the containers are. */
  lemma LitMeansAllOn(was: map<Node, Path>, sw: map<Node, NodeEndpoint>, values: Valuation, p: Path)
    requires forall a :: a in was && a in sw && a.iface.kind != CONTAINER && was[a] < p ==>
               sw[a] in values && values[sw[a]] == Flag(Lit(was, sw, values, was[a]))
    requires forall a :: a in was && a.iface.kind == CONTAINER ==> a in sw
    ensures AllOnAbove(was, sw, values, p) <==> Lit(was, sw, values, p)
  {
    forall a | a in was && a in sw && was[a] < p && Lit(was, sw, values, p) ensures On(sw, values, a) {
      assert Under([], was[a]);
      if a.iface.kind != CONTAINER {
        forall b | b in was && b.iface.kind == CONTAINER && was[b] < was[a] ensures On(sw, values, b) {
          assert Under([], was[b]) && was[b] < p;
        }
        assert Lit(was, sw, values, was[a]);
      }
    }
  }

  /** What is lit below `n` is so by what is above `n` and what is from `n` on. */
  lemma LitSplit(was: map<Node, Path>, sw: map<Node, NodeEndpoint>, values: Valuation, root: Path, p: Path)
    requires Under(root, p)
    ensures Lit(was, sw, values, p) <==> Lit(was, sw, values, root) && LitFrom(was, sw, values, root, p)
  {
    forall a | a in was && was[a] < p ensures was[a] < root || Under(root, was[a]) {
    }
    assert forall a :: a in was ==> Under([], was[a]);
    assert forall a :: a in was && was[a] < root ==> was[a] < p;
  }

  /**
   A container toggle restores the series property: if it held before the container's own switch was
   set, it holds after the container has switched what is below it.
   */
  lemma ToggleKeepsSeries(now: Valuation, set_: Valuation, before: Valuation, was: map<Node, Path>, sw: map<Node, NodeEndpoint>,
                          n: Node, v: Option<Value>)
    requires n in was && n.iface.kind == CONTAINER && n in sw && sw[n] in before && SwitchesFit(sw)
    requires InSeries(was, sw, before) && set_ == before[sw[n] := v]
    requires forall a :: a in was && a.iface.kind == CONTAINER ==> a in sw
    requires Activated(now, set_, was, sw, Below(was, n), was[n], AllOnAbove(was, sw, set_, was[n]))
    ensures InSeries(was, sw, now)
  {
    assert forall a :: a in was && a != n && a in sw ==> sw[a] != sw[n];
    assert forall a :: a in was && a != n ==> (On(sw, set_, a) <==> On(sw, before, a));
    OffBranchKept(set_, before, was, sw, n);
    LitMeansAllOn(was, sw, set_, was[n]);
    ContainersKept(now, set_, was, sw, Below(was, n), was[n], AllOnAbove(was, sw, set_, was[n]));
    forall m | m in was && m in sw && m.iface.kind != CONTAINER
      ensures sw[m] in now && now[sw[m]] == Flag(Lit(was, sw, now, was[m]))
    {
      assert sw[m].node == m;
      if m in Below(was, n) {
        LitSplit(was, sw, set_, was[n], was[m]);
      }
    }
  }

  /** Off the subtree of `n` nothing hangs on the switch of `n`. */
  lemma OffBranchKept(set_: Valuation, before: Valuation, was: map<Node, Path>, sw: map<Node, NodeEndpoint>, n: Node)
    requires n in was
    requires forall a :: a in was && a != n ==> (On(sw, set_, a) <==> On(sw, before, a))
    ensures forall p :: !(was[n] < p) ==> (Lit(was, sw, set_, p) <==> Lit(was, sw, before, p))
  {
  }

  // ---------------------------------------------------------------- a new node

  /** The value an endpoint of a new node gets, if `above` says whether everything above the node is on.
      A default that breaks the constraint is refused. */
  function InitialValue(e: NodeEndpoint, above: bool): Option<Value> {
    if e.definition.initial.Some? && !e.definition.HasFittingDefault() then Some(Zero(e.definition.initial.value.Type()))
    else if e.name == ACTIVE && e.node.iface.kind != CONTAINER && !above then Flag(false)
    else e.definition.initial
  }

  /** The endpoints of `n` but for those named in `todo` have their initial values. */
  ghost predicate Initialised(now: Valuation, before: Valuation, n: Node, todo: set<string>, above: bool) {
    && now.Keys == before.Keys
    && forall e :: e in now ==>
         now[e] == if e.node == n && e.name !in todo && e.definition.initial.Some? then InitialValue(e, above) else before[e]
  }

  lemma InitialisedNext(now: Valuation, before: Valuation, n: Node, todo: set<string>, above: bool, e: NodeEndpoint)
    requires Initialised(now, before, n, todo, above) && e in now && e.node == n && e.definition.initial.Some? && e.name in todo
    requires forall f :: f in now && f.node == n && f.name == e.name ==> f == e
    ensures Initialised(now[e := InitialValue(e, above)], before, n, todo - {e.name}, above)
  {
  }

  lemma InitialisedSkip(now: Valuation, before: Valuation, n: Node, todo: set<string>, above: bool, e: NodeEndpoint)
    requires Initialised(now, before, n, todo, above) && e in now && e.node == n && e.definition.initial.None?
    requires forall f :: f in now && f.node == n && f.name == e.name ==> f == e
    ensures Initialised(now, before, n, todo - {e.name}, above)
  {
  }

  /** A new leaf keeps the series property if its own switch is set by what is above it. */
  lemma LeafKeepsSeries(now: Valuation, before: Valuation, was': map<Node, Path>, was: map<Node, Path>,
                        sw': map<Node, NodeEndpoint>, sw: map<Node, NodeEndpoint>, n: Node)
    requires InSeries(was, sw, before) && n !in was && was'.Keys == was.Keys + {n}
    requires forall m :: m in was ==> was'[m] == was[m] && !(was'[n] < was[m]) && (m in sw' <==> m in sw)
    requires forall m :: m in was && m in sw ==>
               sw'[m] == sw[m] && sw[m] in before && sw[m] in now && now[sw[m]] == before[sw[m]]
    requires forall a :: a in was' && a.iface.kind == CONTAINER ==> a in sw'
    requires n in sw' && n.iface.kind != CONTAINER ==>
               sw'[n] in now && now[sw'[n]] == Flag(AllOnAbove(was', sw', now, was'[n]))
    ensures InSeries(was', sw', now)
  {
    forall a | a in was ensures On(sw', now, a) <==> On(sw, before, a) {
    }
    forall m | m in was ensures Lit(was', sw', now, was'[m]) <==> Lit(was, sw, before, was[m]) {
    }
    LitMeansAllOn(was', sw', now, was'[n]);
  }

  /** What remains after a deletion still has everything above it. */
  lemma DeletionKeepsSeries(now: Valuation, before: Valuation, was': map<Node, Path>, was: map<Node, Path>,
                            sw': map<Node, NodeEndpoint>, sw: map<Node, NodeEndpoint>, root: Path)
    requires InSeries(was, sw, before) && was'.Keys <= was.Keys
    requires forall m :: m in was ==> (m in was' <==> !Under(root, was[m]))
    requires forall m :: m in was' ==> was'[m] == was[m] && (m in sw' <==> m in sw)
    requires forall m :: m in was' && m in sw ==>
               sw'[m] == sw[m] && sw[m] in before && sw[m] in now && now[sw[m]] == before[sw[m]]
    ensures InSeries(was', sw', now)
  {
    forall a | a in was' ensures On(sw', now, a) <==> On(sw, before, a) {
    }
    forall m | m in was' ensures Lit(was', sw', now, was'[m]) <==> Lit(was, sw, before, was[m]) {
    }
  }

  /** A rename leaves the order of paths alone. */
  lemma RenameKeepsOrder(p: Path, q: Path, root: Path, to: Path)
    requires root != [] && to != [] && |to| == |root| && Init(to) == Init(root)
    requires Under(to, p) ==> Under(root, p)
    requires Under(to, q) ==> Under(root, q)
    ensures MovedTo(p, root, to) < MovedTo(q, root, to) <==> p < q
  {
    if Under(root, p) && Under(root, q) {
      var x, y := p[|root|..], q[|root|..];
      assert p == root + x && q == root + y;
      PrefixBehind(root, x, y);
      PrefixBehind(to, x, y);
    } else if Under(root, q) {
      var y := q[|root|..];
      assert q == root + y;
      OutsidePrefix(p, root, y);
      OutsidePrefix(p, to, y);
      ProperPrefixOf(p, root);
      ProperPrefixOf(p, to);
    }
  }

  lemma PrefixBehind(root: Path, x: Path, y: Path)
    ensures root + x < root + y <==> x < y
  {
    if root + x < root + y {
      assert x == (root + x)[|root|..];
      assert y == (root + y)[|root|..];
      assert forall i :: 0 <= i < |x| ==> x[i] == (root + x)[|root| + i] == (root + y)[|root| + i] == y[i];
    }
    if x < y {
      assert (root + y)[..|root + x|] == root + x;
    }
  }

  lemma OutsidePrefix(p: Path, root: Path, y: Path)
    requires !Under(root, p)
    ensures p < root + y <==> p < root
  {
  }

  lemma SameOrderSameLight(now: Valuation, before: Valuation, was': map<Node, Path>, was: map<Node, Path>,
                           sw: map<Node, NodeEndpoint>, p': Path, p: Path)
    requires was'.Keys == was.Keys && forall a :: a in was ==> (was'[a] < p' <==> was[a] < p)
    requires forall a :: a in was && a in sw ==> sw[a] in before && sw[a] in now && now[sw[a]] == before[sw[a]]
    ensures Lit(was', sw, now, p') <==> Lit(was, sw, before, p)
  {
  }

  /** Where switches and the order of paths are as before, so is the series property. */
  lemma SameOrderKeepsSeries(now: Valuation, before: Valuation, was': map<Node, Path>, was: map<Node, Path>, sw: map<Node, NodeEndpoint>)
    requires InSeries(was, sw, before) && was'.Keys == was.Keys
    requires forall a, m :: a in was && m in was ==> (was'[a] < was'[m] <==> was[a] < was[m])
    requires forall m :: m in was && m in sw ==> sw[m] in before && sw[m] in now && now[sw[m]] == before[sw[m]]
    ensures InSeries(was', sw, now)
  {
    hide Lit;
    forall m | m in was ensures Lit(was', sw, now, was'[m]) <==> Lit(was, sw, before, was[m]) {
      SameOrderSameLight(now, before, was', was, sw, was'[m], was[m]);
    }
  }

  /** A rename changes no switch and no order, so it keeps the series property. */
  lemma RenameKeepsSeries(now: Valuation, before: Valuation, was': map<Node, Path>, was: map<Node, Path>,
                          sw: map<Node, NodeEndpoint>, n: Node, to: Path)
    requires InSeries(was, sw, before) && n in was && was[n] != [] && to != [] && |to| == |was[n]| && Init(to) == Init(was[n])
    requires forall m :: m in was && Under(to, was[m]) ==> Under(was[n], was[m])
    requires Relocated(was', was, was, Below(was, n), was[n], to)
    requires forall m :: m in was && m in sw ==> sw[m] in before && sw[m] in now && now[sw[m]] == before[sw[m]]
    ensures InSeries(was', sw, now)
  {
    assert forall m :: m in was ==> was'[m] == MovedTo(was[m], was[n], to);
    assert was'.Keys == was.Keys;
    hide *;
    forall a, m | a in was && m in was ensures was'[a] < was'[m] <==> was[a] < was[m] {
      RenameKeepsOrder(was[a], was[m], was[n], to);
    }
    SameOrderKeepsSeries(now, before, was', was, sw);
  }
}
