/**
 The node tree as linked objects.

 A node caches its path, and each of its endpoints caches one too.  This module says when a set of
 nodes is a forest whose links and cached paths agree, and what follows from that: a path belongs to
 at most one node or endpoint, and the nodes below a node are reached through its children.
 */
module Forest {
  import opened Paths
  import opened Values

  /** The logic class a node's interface selects, as far as nesting and activation depend on it. */
  datatype Kind = CONTAINER | CONNECTION | ENVELOPE | CONTROL_POINT | PLAYER | SCENE | OTHER

  /** Which nodes may hang below which: control points below envelopes, scenes below players, anything
      else at the top or below containers. */
  predicate MayHang(kind: Kind, parent: Option<Kind>) {
    match kind
    case CONTROL_POINT => parent == Some(ENVELOPE)
    case SCENE => parent == Some(PLAYER)
    case _ => parent == None || parent == Some(CONTAINER)
  }

  /** Control points hang below envelopes, scenes below players, and all else below containers or at the top. */
  lemma MayHangMeans(kind: Kind, parent: Option<Kind>)
    ensures kind == CONTROL_POINT ==> (MayHang(kind, parent) <==> parent == Some(ENVELOPE))
    ensures kind == SCENE ==> (MayHang(kind, parent) <==> parent == Some(PLAYER))
    ensures kind != CONTROL_POINT && kind != SCENE ==> (MayHang(kind, parent) <==> parent == None || parent == Some(CONTAINER))
  {
  }

  function KindOf(n: Node?): Option<Kind> {
    if n == null then None else Some(n.iface.kind)
  }

  const ACTIVE := "active"
  const SOURCE_PATH := "sourcePath"
  const TARGET_PATH := "targetPath"

  /** `initial` is the default of a stateful endpoint; streams and bangs have none.  Some stateful
      endpoints are saved to files. */
  datatype EndpointDefinition = EndpointDefinition(name: string, initial: Option<Value>, constraint: Constraint, savedToFile: bool)
  {
    /** A value of the endpoint's type meets its constraint. */
    predicate Allows(v: Value) {
      && initial.Some? && v.Type() == initial.value.Type()
      && StateInfo(v.Type(), constraint, initial.value).Valid()
      && StateInfo(v.Type(), constraint, initial.value).Satisfied(v)
    }

    /** A set command to the default would not be refused. */
    predicate HasFittingDefault() {
      initial.Some? && Allows(initial.value)
    }
  }

  datatype Interface = Interface(name: string, kind: Kind, endpoints: seq<EndpointDefinition>)
  {
    /** Endpoint names are legal path elements and do not repeat, and the endpoints that the logic
        classes rely on are there, have the type they rely on, and can be switched. */
    ghost predicate Valid() {
      && IsNodeName(name)
      && (forall i :: 0 <= i < |endpoints| ==> IsNodeName(endpoints[i].name))
      && (forall i, j :: 0 <= i < j < |endpoints| ==> endpoints[i].name != endpoints[j].name)
      && (kind == CONTAINER ==> Declares(ACTIVE, INTEGER))
      && (kind == CONNECTION ==> Declares(SOURCE_PATH, STRING) && Declares(TARGET_PATH, STRING))
      && (forall i :: 0 <= i < |endpoints| && endpoints[i].name == ACTIVE ==>
            && endpoints[i].initial.Some? && endpoints[i].initial.value.IntegerValue?
            && endpoints[i].Allows(IntegerValue(0)) && endpoints[i].Allows(IntegerValue(1)))
    }

    ghost predicate Declares(endpoint: string, t: ValueType) {
      exists i :: 0 <= i < |endpoints| && endpoints[i].name == endpoint
                  && endpoints[i].initial.Some? && endpoints[i].initial.value.Type() == t
    }
  }

  class NodeEndpoint {
    const node: Node
    const name: string
    const definition: EndpointDefinition
    var path: Path
    var value: Option<Value>

    constructor (node: Node, definition: EndpointDefinition)
      ensures this.node == node && this.definition == definition && name == definition.name
      ensures path == node.path + [definition.name]
      ensures HasDeclaredType() && HoldsZero()
      ensures match definition.initial
              case None => value == None
              case Some(IntegerValue(_)) => value == Some(IntegerValue(0))
              case Some(FloatValue(_)) => value == Some(FloatValue(0.0))
              case Some(StringValue(_)) => value == Some(StringValue(""))
    {
      this.node, this.definition, name := node, definition, definition.name;
      path := node.path + [definition.name];
      value := if definition.initial.None? then None else Some(Zero(definition.initial.value.Type()));
    }

    /** It has not been set yet. */
    ghost predicate HoldsZero()
      reads `value
    {
      value == if definition.initial.None? then None else Some(Zero(definition.initial.value.Type()))
    }

    /** A stateful endpoint has a value of the type of its default, the others have none. */
    ghost predicate HasDeclaredType()
      reads `value
    {
      && (value.Some? <==> definition.initial.Some?)
      && (value.Some? ==> value.value.Type() == definition.initial.value.Type())
    }
  }

  class Node {
    const id: nat
    const iface: Interface
    var name: string
    var path: Path
    var parent: Node?
    var children: map<string, Node>
    var endpoints: map<string, NodeEndpoint>

    function ParentPath(): Path
      reads `parent, (if parent == null then {} else {parent})`path
    {
      if parent == null then [] else parent.path
    }

    /** None of its endpoints has been set yet. */
    ghost predicate IsUnset()
      reads `endpoints, endpoints.Values`value
    {
      forall k :: k in endpoints ==> endpoints[k].HoldsZero()
    }

    /** The endpoints are those the interface declares. */
    ghost predicate HasDeclaredEndpoints()
      reads `endpoints
    {
      && (forall i :: 0 <= i < |iface.endpoints| ==>
            && iface.endpoints[i].name in endpoints
            && endpoints[iface.endpoints[i].name].definition == iface.endpoints[i])
      && (forall k :: k in endpoints ==> endpoints[k].definition.name == k && endpoints[k].definition in iface.endpoints)
    }

    constructor (iface: Interface, name: string, id: nat, parent: Node?)
      requires iface.Valid()
      ensures this.id == id && this.iface == iface && this.name == name && this.parent == parent
      ensures path == (if parent == null then [] else parent.path) + [name]
      ensures children == map[]
      ensures HasDeclaredEndpoints()
      ensures forall k :: k in endpoints ==>
                && fresh(endpoints[k])
                && endpoints[k].node == this
                && endpoints[k].name == k
                && IsNodeName(k)
                && endpoints[k].path == path + [k]
                && endpoints[k].HasDeclaredType() && endpoints[k].HoldsZero()
    {
      this.id, this.iface, this.name, this.parent := id, iface, name, parent;
      path := (if parent == null then [] else parent.path) + [name];
      children := map[];
      endpoints := map[];
      new;
      for i := 0 to |iface.endpoints|
        invariant this.id == id && this.iface == iface && this.name == name && this.parent == parent
        invariant fresh(this) && children == map[]
        invariant path == (if parent == null then [] else parent.path) + [name]
        invariant HasEndpoints(endpoints, i) && forall k :: k in endpoints ==> fresh(endpoints[k])
      {
        AddEndpoint(i);
      }
    }

    /** `es` are the first `n` endpoints that the interface declares, as they start. */
    ghost predicate HasEndpoints(es: map<string, NodeEndpoint>, n: nat)
      requires n <= |iface.endpoints|
      reads `path, es.Values`path, es.Values`value
    {
      && (forall j :: 0 <= j < n ==>
            && iface.endpoints[j].name in es
            && es[iface.endpoints[j].name].definition == iface.endpoints[j])
      && (forall k :: k in es ==> Starts(k, es[k]))
    }

    ghost predicate Starts(k: string, e: NodeEndpoint)
      reads `path, e`path, e`value
    {
      && e.node == this && e.name == k == e.definition.name && e.definition in iface.endpoints && IsNodeName(k)
      && e.path == path + [k] && e.HasDeclaredType() && e.HoldsZero()
    }

    lemma MakeStarts(i: nat, e: NodeEndpoint)
      requires iface.Valid() && i < |iface.endpoints| && e.node == this && e.definition == iface.endpoints[i]
      requires e.name == e.definition.name && e.path == path + [e.name] && e.HasDeclaredType() && e.HoldsZero()
      ensures Starts(e.name, e)
    {
    }

    lemma HasOneMore(es: map<string, NodeEndpoint>, i: nat, e: NodeEndpoint)
      requires iface.Valid() && i < |iface.endpoints| && HasEndpoints(es, i)
      requires Starts(e.name, e) && e.definition == iface.endpoints[i]
      ensures HasEndpoints(es[e.name := e], i + 1)
    {
      assert forall j :: 0 <= j < i ==> iface.endpoints[j].name != iface.endpoints[i].name;
      assert e.name == e.definition.name;
      hide Interface.Valid, Starts;
    }

    method AddEndpoint(i: nat)
      requires iface.Valid() && i < |iface.endpoints| && HasEndpoints(endpoints, i)
      modifies `endpoints
      ensures HasEndpoints(endpoints, i + 1)
      ensures forall k :: k in endpoints ==> fresh(endpoints[k]) || (k in old(endpoints) && endpoints[k] == old(endpoints)[k])
    {
      hide *;
      var e := new NodeEndpoint(this, iface.endpoints[i]);
      MakeStarts(i, e);
      HasOneMore(endpoints, i, e);
      endpoints := endpoints[e.name := e];
    }
  }

  // ---------------------------------------------------------------- agreement of links and paths

  /** `q` is the path `p` or lies below it. */
  predicate Under(p: Path, q: Path) {
    p <= q
  }

  /** `q` is the path `p`, or lies below it in the direction of one of `names`. */
  predicate UnderAny(p: Path, names: set<string>, q: Path) {
    Under(p, q) && (|q| == |p| || q[|p|] in names)
  }

  /** A set of nodes, the endpoints they use, and the map of the nodes without a parent. */
  datatype World = World(live: set<Node>, eps: set<NodeEndpoint>, top: map<string, Node>)
  {
    ghost predicate LinkedUp(n: Node)
      reads n`name, n`parent, (if n.parent == null then {} else {n.parent})`children
    {
      if n.parent == null then n.name in top && top[n.name] == n
      else n.parent in live && n.name in n.parent.children && n.parent.children[n.name] == n
    }

    ghost predicate LinkedDown(n: Node)
      reads n`children, n.children.Values`name, n.children.Values`parent
    {
      forall k :: k in n.children ==>
        n.children[k] in live && n.children[k].parent == n && n.children[k].name == k
    }

    ghost predicate LinkedTop()
      reads live`name, live`parent
    {
      forall k :: k in top ==> top[k] in live && top[k].parent == null && top[k].name == k
    }

    /** The endpoints of a node belong to it, and their cached paths are its path and their own names. */
    ghost predicate EndpointsPlaced(n: Node)
      reads n`path, n`endpoints, eps`path
    {
      forall k :: k in n.endpoints ==>
        && n.endpoints[k] in eps
        && n.endpoints[k].node == n
        && n.endpoints[k].name == k
        && IsNodeName(k)
        && n.endpoints[k].path == n.path + [k]
    }

    /** Links are mutual and stay inside the set. */
    ghost predicate Linked()
      reads live`name, live`parent, live`children
    {
      && LinkedTop()
      && (forall n :: n in live ==> (n.parent == null || n.parent in live) && LinkedUp(n))
      && (forall n :: n in live ==> n.children.Values <= live && LinkedDown(n))
    }

    /** The endpoints of a node name it as theirs. */
    ghost predicate EndpointsLinked()
      reads live`endpoints
    {
      forall n, k :: n in live && k in n.endpoints ==>
        n.endpoints[k] in eps && n.endpoints[k].node == n && n.endpoints[k].name == k
    }

    /** Every endpoint of the world is the one its node has under its name. */
    ghost predicate EndpointsOwned()
      reads live`endpoints
    {
      forall e :: e in eps ==> e.node in live && e.name in e.node.endpoints && e.node.endpoints[e.name] == e
    }

    ghost predicate DistinctIds() {
      forall n, m :: n in live && m in live && n.id == m.id ==> n == m
    }

    ghost predicate Valid()
      reads live`name, live`path, live`parent, live`children, live`endpoints, eps`path
    {
      && Linked()
      && (forall n :: n in live ==> Placed(n))
      && (forall n :: n in live ==> EndpointsPlaced(n))
      && EndpointsOwned()
      && DistinctIds()
    }

    ghost function Paths(): map<Node, Path>
      reads live`path
    {
      map n | n in live :: n.path
    }

    ghost function EndpointPaths(): map<NodeEndpoint, Path>
      reads eps`path
    {
      map e | e in eps :: e.path
    }

    /** The child links of the nodes at or below `root` agree with the paths `was` gives them. */
    ghost predicate Shaped(was: map<Node, Path>, root: Path)
      reads live`children, live`parent, live`name
    {
      && was.Keys == live
      && (forall n, k :: n in live && Under(root, was[n]) && k in n.children ==>
            && n.children[k] in live
            && n.children[k].parent == n
            && n.children[k].name == k
            && was[n.children[k]] == was[n] + [k])
      && (forall n, m :: n in live && m in live && was[n] == was[m] ==> n == m)
      && (forall n, m :: n in live && m in live && Under(root, was[n]) && was[n] < was[m] ==>
            was[m][|was[n]|] in n.children)
    }
  }

  /** The first element of every path names a node without a parent. */
  ghost predicate Rooted(w: World, was: map<Node, Path>) {
    was.Keys == w.live && forall n :: n in w.live ==> was[n] != [] && was[n][0] in w.top
  }

  /** `n` and everything below it, by the paths `was` gives. */
  ghost function Below(was: map<Node, Path>, n: Node): set<Node>
    requires n in was
  {
    set m | m in was && Under(was[n], was[m])
  }

  /** What a walk from `n` has reached when the children named in `todo` are still to be visited. */
  ghost function Walked(was: map<Node, Path>, n: Node, todo: set<string>): set<Node>
    requires n in was
    reads n`children
  {
    set m | m in was && UnderAny(was[n], n.children.Keys - todo, was[m])
  }

  ghost function EndpointsOf(D: set<Node>): set<NodeEndpoint>
    reads D`endpoints
  {
    set n, k | n in D && k in n.endpoints :: n.endpoints[k]
  }

  /** Nodes have the endpoints their interfaces declare, and endpoints values of the declared types. */
  ghost predicate WellTyped(live: set<Node>, eps: set<NodeEndpoint>)
    reads live`endpoints, eps`value
  {
    && Declared(live)
    && (forall e :: e in eps ==> e.HasDeclaredType())
  }

  ghost predicate Declared(live: set<Node>)
    reads live`endpoints
  {
    forall n :: n in live ==> n.iface.Valid() && n.HasDeclaredEndpoints()
  }

  /** The cached path of a node is its parent's path and its own name. */
  ghost predicate Placed(n: Node)
    reads n`name, n`path, n`parent, (if n.parent == null then {} else {n.parent})`path
  {
    IsNodeName(n.name) && n.path == n.ParentPath() + [n.name]
  }

  // ---------------------------------------------------------------- consequences

  lemma {:induction false} PathLegal(w: World, n: Node)
    requires w.Valid() && n in w.live
    ensures IsNodePath(n.path)
    decreases |n.path|
  {
    assert Placed(n);
    if n.parent != null {
      PathLegal(w, n.parent);
    }
  }

  /** A path belongs to at most one node. */
  lemma {:induction false} PathUnique(w: World, n: Node, m: Node)
    requires w.Valid() && n in w.live && m in w.live
    ensures n.path == m.path <==> n == m
    decreases |n.path|
  {
    if n.path == m.path {
      assert Placed(n) && Placed(m) && w.LinkedUp(n) && w.LinkedUp(m);
      assert n.name == Last(n.path) == Last(m.path) == m.name;
      assert n.ParentPath() == Init(n.path) == Init(m.path) == m.ParentPath();
      if n.parent != null && m.parent != null {
        PathUnique(w, n.parent, m.parent);
      }
    }
  }

  /** A node that is not at the top lies one element below its parent. */
  lemma ParentPathIsInit(w: World, m: Node)
    requires w.Valid() && m in w.live && |m.path| > 1
    ensures m.parent != null && m.parent in w.live && m.parent.path == Init(m.path)
    ensures Last(m.path) in m.parent.children && m.parent.children[Last(m.path)] == m
  {
    assert Placed(m) && w.LinkedUp(m);
  }

  /** Everything strictly below a node is at or below the child that the next path element names. */
  lemma {:induction false} BelowChild(w: World, n: Node, m: Node)
    requires w.Valid() && n in w.live && m in w.live
    requires n.path < m.path
    ensures m.path[|n.path|] in n.children
    decreases |m.path|
  {
    assert Placed(n);
    ParentPathIsInit(w, m);
    if |m.path| == |n.path| + 1 {
      assert m.parent.path == n.path;
      PathUnique(w, m.parent, n);
    } else {
      BelowChild(w, n, m.parent);
    }
  }

  /** The text of a node's path is the key of no other node. */
  lemma KeyUnique(w: World, n: Node, m: Node)
    requires w.Valid() && n in w.live && m in w.live
    ensures Join(n.path) == Join(m.path) <==> n == m
  {
    PathLegal(w, n);
    PathLegal(w, m);
    JoinInjective(n.path, m.path);
    PathUnique(w, n, m);
  }

  /** The text of an endpoint's path is the key of no other endpoint. */
  lemma EndpointKeyUnique(w: World, n: Node, k: string, m: Node, l: string)
    requires w.Valid() && n in w.live && m in w.live
    requires k in n.endpoints && l in m.endpoints
    ensures Join(n.endpoints[k].path) == Join(m.endpoints[l].path) <==> n == m && k == l
  {
    assert w.EndpointsPlaced(n) && w.EndpointsPlaced(m);
    EndpointPathLegal(w, n, k);
    EndpointPathLegal(w, m, l);
    var p, q := n.endpoints[k].path, m.endpoints[l].path;
    JoinInjective(p, q);
    if p == q {
      assert Init(p) == n.path && Init(q) == m.path && Last(p) == k && Last(q) == l;
      PathUnique(w, n, m);
    }
  }

  lemma EndpointPathLegal(w: World, n: Node, k: string)
    requires w.Valid() && n in w.live && k in n.endpoints
    ensures IsNodePath(n.endpoints[k].path)
  {
    assert w.EndpointsPlaced(n);
    PathLegal(w, n);
  }

  // ---------------------------------------------------------------- walking a subtree

  lemma ChildPath(w: World, n: Node, k: string)
    requires w.Valid() && n in w.live && k in n.children
    ensures n.children[k] in w.live && n.children[k].path == n.path + [k]
    ensures n.children[k].parent == n && n.children[k].name == k
  {
    var c := n.children[k];
    assert w.LinkedDown(n) && c in n.children.Values && Placed(c);
  }

  lemma UnderStep(p: Path, names: set<string>, k: string, q: Path)
    ensures UnderAny(p, names + {k}, q) <==> UnderAny(p, names, q) || Under(p + [k], q)
    ensures k !in names ==> !(UnderAny(p, names, q) && Under(p + [k], q))
    ensures Under(p + [k], q) ==> Under(p, q)
  {
    if p < q && q[|p|] == k {
      assert q[..|p| + 1] == p + [k];
    }
  }

  /** In a valid world the current paths have the shape of the child links. */
  lemma ValidIsShaped(w: World, root: Path)
    requires w.Valid()
    ensures w.Shaped(w.Paths(), root)
  {
    forall n, k | n in w.live && k in n.children
      ensures n.children[k] in w.live && n.children[k].path == n.path + [k]
      ensures n.children[k].parent == n && n.children[k].name == k
    {
      ChildPath(w, n, k);
    }
    forall n, m | n in w.live && m in w.live && n.path == m.path ensures n == m {
      PathUnique(w, n, m);
    }
    forall n, m | n in w.live && m in w.live && n.path < m.path ensures m.path[|n.path|] in n.children {
      BelowChild(w, n, m);
    }
  }

  lemma {:induction false} PathStartsAtTop(w: World, n: Node)
    requires w.Valid() && n in w.live
    ensures n.path != [] && n.path[0] in w.top
    decreases |n.path|
  {
    assert Placed(n) && w.LinkedUp(n);
    if n.parent != null {
      PathStartsAtTop(w, n.parent);
    }
  }

  lemma ValidIsRooted(w: World)
    requires w.Valid()
    ensures Rooted(w, w.Paths())
  {
    forall n | n in w.live ensures n.path != [] && n.path[0] in w.top {
      PathStartsAtTop(w, n);
    }
  }

  lemma ValidWalk(w: World, n: Node)
    requires w.Valid() && n in w.live
    ensures w.Shaped(w.Paths(), [])
    ensures n in w.Paths() && Under([], w.Paths()[n])
  {
    ValidIsShaped(w, []);
  }

  lemma PathsAt(w: World, n: Node)
    requires n in w.live
    ensures n in w.Paths() && w.Paths()[n] == n.path
  {
  }

  /** A walk starts with the node alone and ends with the whole subtree. */
  lemma WalkEnds(w: World, was: map<Node, Path>, root: Path, n: Node)
    requires w.Shaped(was, root) && n in w.live && Under(root, was[n])
    ensures Walked(was, n, n.children.Keys) == {n}
    ensures Walked(was, n, {}) == Below(was, n)
    ensures n in Below(was, n) && Below(was, n) <= w.live
    ensures was.Keys == w.live
  {
    assert n.children.Keys - n.children.Keys == {};
    assert n.children.Keys - {} == n.children.Keys;
    forall m | m in w.live
      ensures UnderAny(was[n], {}, was[m]) <==> m == n
      ensures UnderAny(was[n], n.children.Keys, was[m]) <==> Under(was[n], was[m])
    {
      if Under(was[n], was[m]) && |was[m]| == |was[n]| {
        assert was[n] == was[m];
      }
    }
  }

  /** Walking into one more child reaches the child's whole subtree, and nothing reached before. */
  lemma WalkNext(w: World, was: map<Node, Path>, root: Path, n: Node, todo: set<string>, k: string)
    requires w.Shaped(was, root) && n in w.live && Under(root, was[n])
    requires k in todo && todo <= n.children.Keys
    ensures n.children[k] in w.live && Under(root, was[n.children[k]])
    ensures n.children[k].parent == n && n.children[k].name == k
    ensures was[n.children[k]] == was[n] + [k] && !Under(was[n.children[k]], was[n])
    ensures Walked(was, n, todo - {k}) == Walked(was, n, todo) + Below(was, n.children[k])
    ensures Walked(was, n, todo) !! Below(was, n.children[k])
    ensures Below(was, n.children[k]) < Below(was, n)
    ensures Walked(was, n, todo) <= Below(was, n)
  {
    var p, c := was[n], n.children[k];
    assert was[c] == p + [k];
    var names := n.children.Keys - todo;
    assert n.children.Keys - (todo - {k}) == names + {k};
    assert Under(p, p) && !Under(was[c], p);
    assert forall m :: m in was && UnderAny(p, names, was[m]) ==> Under(p, was[m]);
    hide World.Shaped, Under, UnderAny;
    forall m | m in was
      ensures UnderAny(p, names + {k}, was[m]) <==> UnderAny(p, names, was[m]) || Under(was[c], was[m])
      ensures !(UnderAny(p, names, was[m]) && Under(was[c], was[m]))
      ensures Under(was[c], was[m]) ==> Under(p, was[m])
    {
      UnderStep(p, names, k, was[m]);
    }
    assert n in Below(was, n) && n !in Below(was, c);
  }

  lemma EndpointsAreAll(w: World)
    requires w.Valid()
    ensures EndpointsOf(w.live) == w.eps
  {
    forall n, k | n in w.live && k in n.endpoints ensures n.endpoints[k] in w.eps {
      assert w.EndpointsPlaced(n);
    }
  }

  /** What an update of cached paths needs to know of a valid world. */
  lemma ValidLinks(w: World, n: Node)
    requires w.Valid() && n in w.live
    ensures w.EndpointsLinked() && w.EndpointsOwned()
    ensures n in w.Paths() && w.Paths()[n] == n.path && Under(n.path, n.path)
    ensures IsNodeName(n.name)
    ensures n.parent != null ==> n.parent in w.live && n.parent in w.Paths() && !Under(n.path, n.parent.path)
    ensures n.parent != null ==> w.Paths()[n.parent] == n.parent.path
    ensures n in Below(w.Paths(), n) && Below(w.Paths(), n) <= w.live && w.Paths().Keys == w.live
  {
    forall m, k | m in w.live && k in m.endpoints
      ensures m.endpoints[k] in w.eps && m.endpoints[k].node == m && m.endpoints[k].name == k
    {
      assert w.EndpointsPlaced(m);
    }
    assert Placed(n);
  }

  lemma PathsAre(w: World, D: set<Node>)
    requires w.Valid() && D <= w.live
    ensures D <= w.Paths().Keys && forall n :: n in D ==> n.path == w.Paths()[n]
    ensures EndpointsOf(D) <= w.EndpointPaths().Keys
    ensures forall e :: e in EndpointsOf(D) ==> e.path == w.EndpointPaths()[e]
  {
    forall n, k | n in D && k in n.endpoints ensures n.endpoints[k] in w.eps {
      assert w.EndpointsPlaced(n);
    }
  }
}
