/**
 Loading a saved tree into a server.

 The loader keeps the node it stands on, the depth of the last object, and the values collected so
 far by node id.  It is proved to follow the loader on records step by step, so that loading what was
 saved of a node creates nodes of the same interfaces and names, nested the same way.
 */
module Loading {
  import opened Paths
  import opened Values
  import opened Forest
  import opened Relinking
  import opened FreshNames
  import opened Servers
  import opened Commands
  import opened Creation
  import opened FileFormat
  import opened FileIO

  // ---------------------------------------------------------------- what can be loaded

  /** Interfaces and names are legal, and siblings have different names. */
  ghost predicate Sound(records: seq<Record>) {
    && (forall i :: 0 <= i < |records| ==> records[i].iface.Valid() && IsNodeName(records[i].name))
    && (forall i, j :: 0 <= i < j < |records| && records[i].parent == records[j].parent ==> records[i].name != records[j].name)
  }

  /** Every node may hang where the records say, the first one below a node of the kind `target`. */
  ghost predicate AllNest(records: seq<Record>, target: Option<Kind>) {
    forall i :: 0 <= i < |records| ==> Nests(records, records[i], target)
  }

  ghost predicate Nests(records: seq<Record>, r: Record, target: Option<Kind>) {
    MayHang(r.iface.kind,
      if r.parent.Some? && r.parent.value < |records| then Some(records[r.parent.value].iface.kind) else target)
  }

  // ---------------------------------------------------------------- depths change by one at a time

  ghost predicate Gentle(es: seq<Event>, previous: nat) {
    es == [] ||
    match es[0]
    case Start(depth, iface, _) => iface.Some? && 1 <= depth && previous - 1 <= depth <= previous + 1 && Gentle(es[1..], depth)
    case End(depth) => 1 <= depth && previous - 1 <= depth <= previous && Gentle(es[1..], depth)
    case Attr(_) => 1 <= previous && Gentle(es[1..], previous)
  }

  lemma {:induction false} GentleAttributes(attributes: seq<Attribute>, rest: seq<Event>, depth: nat)
    requires 1 <= depth && Gentle(rest, depth)
    ensures Gentle(PrintAttributes(attributes) + rest, depth)
  {
    PrintAttributesIs(attributes);
    hide PrintAttributes;
    if attributes == [] {
      assert [] + rest == rest;
    } else {
      var more := PrintAttributes(attributes[1..]);
      GentleAttributes(attributes[1..], rest, depth);
      Associative([Attr(attributes[0])], more, rest);
      assert ([Attr(attributes[0])] + (more + rest))[1..] == more + rest;
    }
  }

  lemma {:induction false} GentlePrint(t: Tree, rest: seq<Event>, depth: nat, previous: nat)
    requires 1 <= depth && (previous == depth || previous + 1 == depth) && Gentle(rest, depth)
    ensures Gentle(Print(t, depth) + rest, previous)
    decreases t, 1
  {
    var tail := Tail(t, depth) + rest;
    var start := Start(depth, Some(t.iface), t.name);
    if t.children == [] {
      assert PrintAll(t.children, depth + 1) + tail == tail;
      GentleTail(t, rest, depth, depth);
    } else {
      GentleTail(t, rest, depth, depth + 1);
      GentlePrintAll(t.children, tail, depth + 1, depth);
    }
    var body := PrintAttributes(t.attributes) + (PrintAll(t.children, depth + 1) + tail);
    GentleAttributes(t.attributes, PrintAll(t.children, depth + 1) + tail, depth);
    Parts(t, depth, None, 0);
    HeadAndTail(t, depth);
    hide Print, PrintAll, PrintAttributes, Head, Tail, Gentle;
    Regroup([start], PrintAttributes(t.attributes), PrintAll(t.children, depth + 1), Tail(t, depth), rest);
    GentleStart(start, body, previous);
  }

  lemma Regroup<T>(a: seq<T>, b: seq<T>, c: seq<T>, d: seq<T>, e: seq<T>)
    ensures ((a + b) + c + d) + e == a + (b + (c + (d + e)))
  {
  }

  lemma GentleStart(e: Event, rest: seq<Event>, previous: nat)
    requires e.Start? && e.iface.Some? && 1 <= e.depth && previous - 1 <= e.depth <= previous + 1 && Gentle(rest, e.depth)
    ensures Gentle([e] + rest, previous)
  {
    assert ([e] + rest)[1..] == rest;
  }

  lemma GentleTail(t: Tree, rest: seq<Event>, depth: nat, previous: nat)
    requires 1 <= depth && Gentle(rest, depth)
    requires previous == if t.children == [] then depth else depth + 1
    ensures Gentle(Tail(t, depth) + rest, previous)
  {
    if Tail(t, depth) == [] {
      assert Tail(t, depth) + rest == rest;
    } else {
      assert ([End(depth)] + rest)[1..] == rest;
    }
  }

  lemma {:induction false} GentlePrintAll(ts: seq<Tree>, rest: seq<Event>, depth: nat, previous: nat)
    requires 1 <= depth && (previous == depth || previous + 1 == depth) && Gentle(rest, depth)
    requires ts == [] ==> previous == depth
    ensures Gentle(PrintAll(ts, depth) + rest, previous)
    decreases ts, 0
  {
    if ts == [] {
      assert PrintAll(ts, depth) + rest == rest;
    } else {
      GentlePrintAll(ts[1..], rest, depth, depth);
      GentlePrint(ts[0], PrintAll(ts[1..], depth) + rest, depth, previous);
      AllIs(ts, depth, 0, 0);
      hide Gentle, PrintAll, Print;
      Associative(Print(ts[0], depth), PrintAll(ts[1..], depth), rest);
    }
  }

  /** The loader stands on a node of the depth of the last object. */
  ghost predicate Levels(l: Load, depths: seq<nat>) {
    && l.Valid() && |depths| == |l.records|
    && (forall i :: 0 <= i < |depths| ==>
          depths[i] == if l.records[i].parent.None? then 1 else depths[l.records[i].parent.value] + 1)
    && (if l.previousDepth == 0 then l.node.None? else l.node.Some? && depths[l.node.value] == l.previousDepth)
  }

  /** Gentle events keep the loader on a level, and never lead above the first node. */
  lemma LevelsNext(l: Load, depths: seq<nat>, es: seq<Event>)
    requires Levels(l, depths) && es != [] && Gentle(es, l.previousDepth)
    ensures var l' := Step(l, es[0]);
            && Gentle(es[1..], l'.previousDepth)
            && Levels(l', if es[0].Start? then depths + [es[0].depth] else depths)
    ensures !es[0].Start? ==> l.node.Some?
    ensures !es[0].Attr? && es[0].depth <= l.previousDepth ==> l.node.Some?
    ensures !es[0].Attr? && es[0].depth < l.previousDepth ==> l.records[l.node.value].parent.Some?
    ensures !es[0].Attr? ==> (l.ParentAt(es[0].depth).Some? ==> l.ParentAt(es[0].depth).value < |l.records|)
  {
  }

  lemma {:induction false} RecordsGrow(l: Load, es: seq<Event>)
    requires l.Valid()
    ensures l.records <= Steps(l, es).records
    decreases |es|
  {
    if es != [] {
      RecordsGrow(Step(l, es[0]), es[1..]);
    }
  }

  // ---------------------------------------------------------------- records and nodes

  /** The node that an index stands for. */
  function NodeAt(loaded: seq<Node>, i: Option<nat>, target: Node?): Node? {
    if i.Some? && i.value < |loaded| then loaded[i.value] else target
  }

  /** The created nodes are as the records say, and hang below each other or below `target` as they say. */
  ghost predicate Mirrors(loaded: seq<Node>, records: seq<Record>, target: Node?)
    reads loaded`name, loaded`parent
  {
    && |loaded| == |records|
    && (forall i, j :: 0 <= i < j < |loaded| ==> loaded[i] != loaded[j])
    && (forall i :: 0 <= i < |loaded| ==> loaded[i] != target)
    && (forall i :: 0 <= i < |loaded| ==>
          && loaded[i].iface == records[i].iface
          && (i > 0 ==> loaded[i].name == records[i].name)
          && loaded[i].parent == NodeAt(loaded, records[i].parent, target))
  }

  /** The created nodes have no other children than created ones. */
  ghost predicate OwnChildren(loaded: seq<Node>)
    reads loaded`children
  {
    forall i, k :: 0 <= i < |loaded| && k in loaded[i].children ==> loaded[i].children[k] in loaded
  }

  function ValueOf(a: Attribute, texts: Texts): Value {
    Converted(StringValue(a.text), a.valueType, texts)
  }

  /** `values` holds, by node id, what has been collected for the nodes that have anything. */
  ghost predicate Collects(values: map<nat, map<string, Value>>, loaded: seq<Node>, collected: seq<map<string, Attribute>>, texts: Texts) {
    && |collected| == |loaded|
    && (forall k :: k in values ==> exists i :: 0 <= i < |loaded| && loaded[i].id == k)
    && (forall i :: 0 <= i < |loaded| ==> (loaded[i].id in values <==> collected[i] != map[]))
    && (forall i :: 0 <= i < |loaded| && collected[i] != map[] ==> HoldsValues(values[loaded[i].id], collected[i], texts))
  }

  ghost predicate HoldsValues(values: map<string, Value>, attributes: map<string, Attribute>, texts: Texts) {
    && values.Keys == attributes.Keys
    && forall k :: k in values ==> values[k] == ValueOf(attributes[k], texts)
  }

  /** Moves the loader to where an object of the depth is read, and says below what it would be created. */
  method StepTo(node: Node?, previousDepth: nat, depth: nat, ghost l: Load, ghost loaded: seq<Node>, ghost target: Node?)
    returns (at: Node?, parent: Node?)
    requires l.Valid() && l.previousDepth == previousDepth && Mirrors(loaded, l.records, target)
    requires node == NodeAt(loaded, l.node, target)
    requires depth <= previousDepth ==> l.node.Some?
    requires depth < previousDepth ==> l.records[l.node.value].parent.Some?
    ensures at == NodeAt(loaded, l.Stepped(depth), target)
    ensures parent == NodeAt(loaded, l.ParentAt(depth), target)
  {
    at := node;
    if depth > previousDepth {
      parent := at;
    } else {
      if depth < previousDepth {
        assert at.parent != null;
        at := at.parent;
        parent := at.parent;
      } else {
        parent := at.parent;
      }
    }
  }

  /** Keeps a saved value for the node, if its interface still wants it. */
  method Collect(node: Node, a: Attribute, values: map<nat, map<string, Value>>, texts: Texts) returns (now: map<nat, map<string, Value>>)
    requires node.iface.Valid() && node.HasDeclaredEndpoints()
    ensures now == if ShouldLoad(node.iface, a)
                   then values[node.id := (if node.id in values then values[node.id] else map[])[a.name := ValueOf(a, texts)]]
                   else values
  {
    now := values;
    WantedEndpoint(node, a);
    if a.name in node.endpoints {
      var d := node.endpoints[a.name].definition;
      if d.initial.Some? && d.savedToFile && d.initial.value.Type() == a.valueType {
        var own := if node.id in values then values[node.id] else map[];
        now := values[node.id := own[a.name := ValueOf(a, texts)]];
      }
    }
  }

  lemma WantedEndpoint(n: Node, a: Attribute)
    requires n.iface.Valid() && n.HasDeclaredEndpoints()
    ensures ShouldLoad(n.iface, a) <==> a.name in n.endpoints && IsSavedAs(n.endpoints[a.name].definition, a.valueType)
  {
    if a.name in n.endpoints && IsSavedAs(n.endpoints[a.name].definition, a.valueType) {
      var d := n.endpoints[a.name].definition;
      assert d in n.iface.endpoints && d.name == a.name;
      var i :| 0 <= i < |n.iface.endpoints| && n.iface.endpoints[i] == d;
      assert IsSavedAs(n.iface.endpoints[i], a.valueType);
    }
    if ShouldLoad(n.iface, a) {
      var i :| 0 <= i < |n.iface.endpoints| && n.iface.endpoints[i].name == a.name && IsSavedAs(n.iface.endpoints[i], a.valueType);
      assert n.endpoints[a.name].definition == n.iface.endpoints[i];
    }
  }

  // ---------------------------------------------------------------- the steps of the loader

  lemma MirrorsNext(loaded: seq<Node>, records: seq<Record>, target: Node?, n: Node, r: Record)
    requires Mirrors(loaded, records, target) && n !in loaded && n != target
    requires r.parent.Some? ==> r.parent.value < |loaded|
    requires n.iface == r.iface && (|loaded| > 0 ==> n.name == r.name) && n.parent == NodeAt(loaded, r.parent, target)
    requires forall i :: 0 <= i < |records| && records[i].parent.Some? ==> records[i].parent.value < i
    ensures Mirrors(loaded + [n], records + [r], target)
  {
  }

  lemma CollectsNext(values: map<nat, map<string, Value>>, loaded: seq<Node>, collected: seq<map<string, Attribute>>, texts: Texts, n: Node)
    requires Collects(values, loaded, collected, texts)
    requires forall i :: 0 <= i < |loaded| ==> loaded[i].id != n.id
    ensures Collects(values, loaded + [n], collected + [map[]], texts)
  {
    var all := loaded + [n];
    forall k | k in values ensures exists i :: 0 <= i < |all| && all[i].id == k {
      var i :| 0 <= i < |loaded| && loaded[i].id == k;
      assert all[i].id == k;
    }
    hide HoldsValues;
  }

  lemma HoldsMore(own: map<string, Value>, attributes: map<string, Attribute>, texts: Texts, a: Attribute)
    requires HoldsValues(own, attributes, texts)
    ensures HoldsValues(own[a.name := ValueOf(a, texts)], attributes[a.name := a], texts)
    ensures HoldsValues(map[], map[], texts) && attributes[a.name := a] != map[]
  {
    assert a.name in attributes[a.name := a];
  }

  lemma CollectsMore(now: map<nat, map<string, Value>>, values: map<nat, map<string, Value>>, loaded: seq<Node>,
                     collected: seq<map<string, Attribute>>, texts: Texts, i: nat, a: Attribute)
    requires Collects(values, loaded, collected, texts) && i < |loaded|
    requires forall j, k :: 0 <= j < k < |loaded| ==> loaded[j].id != loaded[k].id
    requires now == values[loaded[i].id := (if loaded[i].id in values then values[loaded[i].id] else map[])[a.name := ValueOf(a, texts)]]
    ensures i < |collected| && Collects(now, loaded, collected[i := collected[i][a.name := a]], texts)
  {
    hide HoldsValues;
    var own := if loaded[i].id in values then values[loaded[i].id] else map[];
    HoldsMore(map[], map[], texts, a);
    HoldsMore(own, collected[i], texts, a);
    hide ValueOf;
  }

  /** Creates a node below `parent` by the command that clients use. */
  method CreateNode(s: Server, iface: Interface, name: string, parent: Node?) returns (n: Node?)
    requires s.Valid() && (parent != null ==> parent in s.live) && iface.Valid() && IsNodeName(name)
    modifies s`nodes, s`live, s`eps, s`nextInternalId, s.table, s.live`children, s.eps`value
    ensures s.Valid()
    ensures n != null <==> MayHang(iface.kind, KindOf(parent))
    ensures n == null ==> s.live == old(s.live) && forall m :: m in s.live ==> m.children == old(m.children)
    ensures n != null ==>
              && fresh(n) && n.iface == iface && n.parent == parent && n.children == map[]
              && s.live == old(s.live) + {n}
              && IsFirstFree(old(Siblings(s.W(), parent).Keys), name, n.name)
              && forall m :: m in old(s.live) ==>
                   m.children == if m == parent then old(m.children)[n.name := n] else old(m.children)
    ensures fresh(s.eps - old(s.eps)) && forall f :: f in old(s.eps) ==> f in s.eps && f.value == old(f.value)
  {
    hide *;
    var path := if parent == null then [] else parent.path;
    s.ValidParts();
    s.WIs();
    ParentFound(s.W(), parent);
    var c := new NewCommand(Some(iface), name, path);
    NameIsWanted(c, s.nextInternalId, name);
    var error; ghost var p;
    error, n, p := c.Execute(s);
    assert p == parent;
    CanBeChildIs(iface.kind, parent);
  }

  lemma CanBeChildIs(kind: Kind, parent: Node?)
    ensures CanBeChildOf(kind, parent) <==> MayHang(kind, KindOf(parent))
  {
  }

  lemma NameIsWanted(c: NewCommand, id: nat, name: string)
    requires c.iface.Some? && c.nodeName == name && IsNodeName(name)
    ensures c.WantedName(id) == name
  {
  }

  lemma ParentFound(w: World, parent: Node?)
    requires w.Valid() && (parent != null ==> parent in w.live)
    ensures IsPath(if parent == null then [] else parent.path)
    ensures forall m :: m in w.live ==> (m.path == (if parent == null then [] else parent.path) <==> m == parent)
  {
    if parent != null {
      PathLegal(w, parent);
    }
    forall m | m in w.live ensures m.path == (if parent == null then [] else parent.path) <==> m == parent {
      PathLegal(w, m);
      if parent != null {
        PathUnique(w, m, parent);
      }
    }
  }

  /** The record that a start event makes is the next of the records to come. */
  lemma AtStart(l: Load, rest: seq<Event>, F: seq<Record>, r: Record)
    requires l.Valid() && rest != [] && rest[0].Start? && rest[0].iface.Some?
    requires Steps(l, rest).records == F
    requires r == Record(rest[0].iface.value, rest[0].name, l.ParentAt(rest[0].depth))
    ensures l.records <= F && |l.records| < |F| && F[|l.records|] == r
  {
    RecordsGrow(Step(l, rest[0]), rest[1..]);
    assert Step(l, rest[0]).records == l.records + [r];
    assert Steps(l, rest) == Steps(Step(l, rest[0]), rest[1..]);
    hide *;
    assert F[|l.records|] == (l.records + [r])[|l.records|];
    assert forall j :: 0 <= j < |l.records| ==> l.records[j] == (l.records + [r])[j] == F[j];
  }

  /** So it is sound, and hangs below an earlier one unless it is the first. */
  lemma NextIsSound(t: Tree, records: seq<Record>, r: Record)
    requires Sound(Flatten(t, None, 0)) && records <= Flatten(t, None, 0)
    requires |records| < |Flatten(t, None, 0)| && Flatten(t, None, 0)[|records|] == r
    ensures r.iface.Valid() && IsNodeName(r.name)
    ensures if |records| == 0 then r.name == t.name && r.parent == None else r.parent.Some? && records[0].parent == None
    ensures forall j :: 0 <= j < |records| && records[j].parent == r.parent ==> records[j].name != r.name
  {
    ParentsInside(t, None, 0);
    assert Flatten(t, None, 0)[0] == Record(t.iface, t.name, None);
    assert forall j :: 0 <= j < |records| ==> records[j] == Flatten(t, None, 0)[j];
    hide Interface.Valid, IsNodeName, Flatten;
  }

  /** A child of a created node is among the records. */
  lemma ChildIsRecorded(w: World, loaded: seq<Node>, records: seq<Record>, target: Node?, p: nat, k: string)
    requires w.Valid() && Mirrors(loaded, records, target) && OwnChildren(loaded)
    requires p < |loaded| && loaded[p] in w.live && k in loaded[p].children
    requires |records| > 0 ==> records[0].parent.None?
    requires forall j :: 0 <= j < |records| && records[j].parent.Some? ==> records[j].parent.value < |records|
    ensures exists j :: 0 <= j < |records| && records[j].parent == Some(p) && records[j].name == k
  {
    ChildPath(w, loaded[p], k);
    hide World.Valid;
    var c := loaded[p].children[k];
    var j :| 0 <= j < |loaded| && loaded[j] == c;
    assert c.parent == loaded[p] == NodeAt(loaded, records[j].parent, target);
    assert records[j].parent == Some(p);
  }

  /** The name of the next record is free among the children of the node it hangs below. */
  lemma NameIsFree(w: World, loaded: seq<Node>, records: seq<Record>, target: Node?, r: Record)
    requires w.Valid() && Mirrors(loaded, records, target) && OwnChildren(loaded)
    requires forall i :: 0 <= i < |loaded| ==> loaded[i] in w.live
    requires r.parent.Some? && r.parent.value < |loaded|
    requires forall j :: 0 <= j < |records| && records[j].parent == r.parent ==> records[j].name != r.name
    requires records[0].parent.None?
    requires forall j :: 0 <= j < |records| && records[j].parent.Some? ==> records[j].parent.value < |records|
    ensures r.name !in Siblings(w, NodeAt(loaded, r.parent, target))
  {
    var p := r.parent.value;
    forall k | k in loaded[p].children ensures k != r.name {
      ChildIsRecorded(w, loaded, records, target, p, k);
    }
  }

  /** Whether the next node may hang where it is to is what the nesting of the records says. */
  lemma NestsIs(loaded: seq<Node>, records: seq<Record>, target: Node?, F: seq<Record>, r: Record)
    requires Mirrors(loaded, records, target) && records <= F && (r.parent.Some? ==> r.parent.value < |records|)
    ensures MayHang(r.iface.kind, KindOf(NodeAt(loaded, r.parent, target))) <==> Nests(F, r, KindOf(target))
  {
  }

  lemma NodeAtLast(loaded: seq<Node>, n: Node, target: Node?)
    ensures NodeAt(loaded + [n], Some(|loaded|), target) == n
  {
  }

  ghost function Nodes(loaded: seq<Node>): set<Node> {
    set n | n in loaded
  }

  /** What the loader keeps true: it stands where the loader on records stands, which has the rest of the
      file still to read. */
  ghost predicate Follows(l: Load, depths: seq<nat>, rest: seq<Event>, t: Tree, loaded: seq<Node>, node: Node?, previousDepth: nat,
                          target: Node?)
    reads loaded`name, loaded`parent, loaded`children
  {
    && Levels(l, depths) && l.previousDepth == previousDepth && Gentle(rest, previousDepth)
    && Steps(l, rest) == Load(Flatten(t, None, 0), FlattenValues(t), Some(0), 1)
    && node == NodeAt(loaded, l.node, target)
    && Mirrors(loaded, l.records, target) && OwnChildren(loaded)
  }

  lemma FollowsFromStart(t: Tree, target: Node?, texts: Texts)
    ensures Follows(Load([], [], None, 0), [], Print(t, 1), t, [], target, 0, target)
    ensures Collects(map[], [], [], texts)
  {
    hide *;
    LoadPrinted(t);
    NothingRead();
    NothingLoaded(target);
    NothingCollectedYet(texts);
    GentlePrint(t, [], 1, 0);
    assert Print(t, 1) + [] == Print(t, 1);
    MakeFollows(Load([], [], None, 0), [], Print(t, 1), t, [], target, target);
  }

  lemma NothingRead()
    ensures Gentle([], 1) && Levels(Load([], [], None, 0), []) && Load([], [], None, 0).Valid()
  {
  }

  lemma NothingLoaded(target: Node?)
    ensures target == NodeAt([], None, target) && Mirrors([], [], target) && OwnChildren([])
  {
  }

  lemma NothingCollectedYet(texts: Texts)
    ensures Collects(map[], [], [], texts)
  {
  }

  lemma FollowsParts(l: Load, depths: seq<nat>, rest: seq<Event>, t: Tree, loaded: seq<Node>, node: Node?, previousDepth: nat,
                     target: Node?)
    requires Follows(l, depths, rest, t, loaded, node, previousDepth, target)
    ensures Levels(l, depths) && l.Valid() && l.previousDepth == previousDepth && Gentle(rest, previousDepth)
    ensures Steps(l, rest).records == Flatten(t, None, 0)
    ensures rest != [] ==> Steps(Step(l, rest[0]), rest[1..]) == Steps(l, rest)
    ensures rest != [] && rest[0].Start? ==> rest[0].iface.Some?
    ensures node == NodeAt(loaded, l.node, target)
    ensures Mirrors(loaded, l.records, target) && OwnChildren(loaded) && |loaded| == |l.records| == |l.values|
    ensures forall j :: 0 <= j < |l.records| && l.records[j].parent.Some? ==> l.records[j].parent.value < j
    ensures l.node.Some? ==> l.node.value < |loaded|
  {
  }

  /** What a step on records makes of its parts. */
  lemma StepIs(l: Load, e: Event)
    requires l.Valid()
    ensures e.Start? && e.iface.Some? ==>
              Step(l, e) == Load(l.records + [Record(e.iface.value, e.name, l.ParentAt(e.depth))], l.values + [map[]], Some(|l.records|), e.depth)
    ensures e.End? ==> Step(l, e) == l.(node := l.Stepped(e.depth), previousDepth := e.depth)
    ensures e.Attr? ==> Step(l, e).records == l.records && Step(l, e).node == l.node && Step(l, e).previousDepth == l.previousDepth
  {
  }

  lemma MakeFollows(l: Load, depths: seq<nat>, rest: seq<Event>, t: Tree, loaded: seq<Node>, node: Node?, target: Node?)
    requires Levels(l, depths) && Gentle(rest, l.previousDepth)
    requires Steps(l, rest) == Load(Flatten(t, None, 0), FlattenValues(t), Some(0), 1)
    requires node == NodeAt(loaded, l.node, target)
    requires Mirrors(loaded, l.records, target) && OwnChildren(loaded)
    ensures Follows(l, depths, rest, t, loaded, node, l.previousDepth, target)
  {
  }

  lemma FollowsToEnd(l: Load, depths: seq<nat>, rest: seq<Event>, t: Tree, loaded: seq<Node>, node: Node?, previousDepth: nat,
                     target: Node?)
    requires Follows(l, depths, rest, t, loaded, node, previousDepth, target)
    ensures Steps(l, rest) == Load(Flatten(t, None, 0), FlattenValues(t), Some(0), 1)
    ensures rest == [] ==> l == Load(Flatten(t, None, 0), FlattenValues(t), Some(0), 1)
  {
  }

  datatype Growing = Growing(loaded: seq<Node>, parent: Node?)

  twostate lemma OwnChildrenGrow(g: Growing, new n: Node)
    requires old(OwnChildren(g.loaded)) && n.children == map[]
    requires forall m :: m in g.loaded ==> m.children == if m == g.parent then old(m.children)[n.name := n] else old(m.children)
    ensures OwnChildren(g.loaded + [n])
  {
  }

  lemma NodesSnoc(loaded: seq<Node>, n: Node)
    ensures Nodes(loaded + [n]) == Nodes(loaded) + {n}
    ensures n in loaded <==> n in Nodes(loaded)
    ensures forall m :: m in loaded ==> m in Nodes(loaded)
  {
  }

  lemma NodeAtIsLive(loaded: seq<Node>, i: Option<nat>, target: Node?, live: set<Node>)
    requires Nodes(loaded) <= live && (target != null ==> target in live)
    ensures NodeAt(loaded, i, target) != null ==> NodeAt(loaded, i, target) in live
    ensures forall j :: 0 <= j < |loaded| ==> loaded[j] in live
    ensures i == None ==> NodeAt(loaded, i, target) == target
  {
    forall j | 0 <= j < |loaded| ensures loaded[j] in live {
      assert loaded[j] in Nodes(loaded);
    }
  }

  lemma NotNested(F: seq<Record>, i: nat, target: Option<Kind>)
    requires i < |F| && !Nests(F, F[i], target)
    ensures !AllNest(F, target)
  {
  }

  /** Creates the node of the next record below `parent`. */
  method ReadStart(s: Server, iface: Interface, name: string, parent: Node?, loaded: seq<Node>, target: Node?,
                   ghost records: seq<Record>, ghost r: Record, ghost t: Tree)
    returns (n: Node?, all: seq<Node>)
    requires s.Valid() && (target != null ==> target in s.live) && Nodes(loaded) <= s.live
    requires r.iface == iface && r.name == name && parent == NodeAt(loaded, r.parent, target)
    requires IsNext(records, r, t) && Sound(Flatten(t, None, 0))
    requires Mirrors(loaded, records, target) && OwnChildren(loaded)
    modifies s`nodes, s`live, s`eps, s`nextInternalId, s.table, s.live`children, s.eps`value
    ensures s.Valid() && fresh(s.eps - old(s.eps))
    ensures forall f :: f in old(s.eps) ==> f in s.eps && f.value == old(f.value)
    ensures n == null ==> s.live == old(s.live) && !AllNest(Flatten(t, None, 0), KindOf(target))
    ensures n != null ==>
              && fresh(n) && s.live == old(s.live) + {n}
              && |all| == |loaded| + 1 && all[|loaded|] == n && all[..|loaded|] == loaded
              && Mirrors(all, records + [r], target) && OwnChildren(all) && Nests(Flatten(t, None, 0), r, KindOf(target))
              && (loaded == [] ==> IsFirstFree(old(Siblings(s.W(), target).Keys), t.name, n.name))
  {
    hide *;
    ghost var F := Flatten(t, None, 0);
    s.ValidParts();
    IsNextParts(records, r, t);
    MirrorsLength(loaded, records, target);
    s.WIs();
    NodeAtIsLive(loaded, r.parent, target, s.live);
    NestsIs(loaded, records, target, F, r);
    if r.parent.Some? {
      NameIsFree(s.W(), loaded, records, target, r);
    }
    all := loaded;
    n := CreateNode(s, iface, name, parent);
    if n == null {
      NotNested(F, |records|, KindOf(target));
      return;
    }
    if r.parent.Some? {
      FreeNameIsKept(old(Siblings(s.W(), parent).Keys), name, n.name);
    }
    OwnChildrenGrow(Growing(loaded, parent), n);
    NodesSnoc(loaded, n);
    MirrorsNext(loaded, records, target, n, r);
    all := loaded + [n];
  }

  /** `r` comes next behind `records` in what the tree becomes. */
  ghost predicate IsNext(records: seq<Record>, r: Record, t: Tree) {
    var F := Flatten(t, None, 0);
    records <= F && |records| < |F| && F[|records|] == r
  }

  lemma IsNextParts(records: seq<Record>, r: Record, t: Tree)
    requires IsNext(records, r, t) && Sound(Flatten(t, None, 0))
    ensures records <= Flatten(t, None, 0) && |records| < |Flatten(t, None, 0)| && Flatten(t, None, 0)[|records|] == r
    ensures r.iface.Valid() && IsNodeName(r.name)
    ensures if |records| == 0 then r.name == t.name && r.parent == None else r.parent.Some? && records[0].parent == None
    ensures forall j :: 0 <= j < |records| && records[j].parent == r.parent ==> records[j].name != r.name
    ensures r.parent.Some? ==> r.parent.value < |records|
    ensures forall j :: 0 <= j < |records| && records[j].parent.Some? ==> records[j].parent.value < j
  {
    NextIsSound(t, records, r);
    ParentsInside(t, None, 0);
    assert Flatten(t, None, 0)[0] == Record(t.iface, t.name, None);
    assert forall j :: 0 <= j < |records| ==> records[j] == Flatten(t, None, 0)[j];
    hide Interface.Valid, IsNodeName, Flatten, Sound;
  }

  lemma MirrorsLength(loaded: seq<Node>, records: seq<Record>, target: Node?)
    requires Mirrors(loaded, records, target)
    ensures |loaded| == |records| && (target != null ==> target !in Nodes(loaded))
  {
  }

  /** Reads one object event: moves, and if it is a start creates the node. */
  method ReadObject(s: Server, e: Event, node: Node?, previousDepth: nat, loaded: seq<Node>, target: Node?,
                    ghost l: Load, ghost depths: seq<nat>, ghost rest: seq<Event>, ghost t: Tree)
    returns (ok: bool, at: Node?, all: seq<Node>)
    requires s.Valid() && (target != null ==> target in s.live) && Nodes(loaded) <= s.live
    requires rest != [] && rest[0] == e && !e.Attr? && Sound(Flatten(t, None, 0))
    requires Follows(l, depths, rest, t, loaded, node, previousDepth, target)
    modifies s`nodes, s`live, s`eps, s`nextInternalId, s.table, s.live`children, s.eps`value
    ensures s.Valid() && fresh(s.eps - old(s.eps)) && fresh(s.live - old(s.live)) && old(s.live) <= s.live
    ensures forall f :: f in old(s.eps) ==> f in s.eps && f.value == old(f.value)
    ensures ok ==> l.Valid() && Follows(Step(l, e), if e.Start? then depths + [e.depth] else depths, rest[1..], t, all, at, e.depth, target)
    ensures ok ==> if e.Start? then |all| == |loaded| + 1 && all[..|loaded|] == loaded && s.live == old(s.live) + {all[|loaded|]}
                                    && fresh(all[|loaded|])
                                    && (loaded == [] ==> IsFirstFree(old(Siblings(s.W(), target).Keys), t.name, all[0].name))
                   else all == loaded && s.live == old(s.live)
    ensures ok && e.Start? ==> e.iface.Some? && Nests(Flatten(t, None, 0), Record(e.iface.value, e.name, l.ParentAt(e.depth)), KindOf(target))
    ensures !ok ==> !AllNest(Flatten(t, None, 0), KindOf(target))
  {
    hide *;
    FollowsParts(l, depths, rest, t, loaded, node, previousDepth, target);
    FollowsToEnd(l, depths, rest, t, loaded, node, previousDepth, target);
    LevelsNext(l, depths, rest);
    StepIs(l, e);
    ok, all := true, loaded;
    var parent;
    at, parent := StepTo(node, previousDepth, e.depth, l, loaded, target);
    if e.Start? && e.iface.Some? {
      ghost var r := Record(e.iface.value, e.name, l.ParentAt(e.depth));
      AtStart(l, rest, Flatten(t, None, 0), r);
      MakeIsNext(l.records, r, t);
      at, all := ReadStart(s, e.iface.value, e.name, parent, loaded, target, l.records, r, t);
      if at == null {
        ok := false;
        return;
      }
      NodeAtLast(loaded, at, target);
      assert all == loaded + [at];
    }
    MakeFollows(Step(l, e), if e.Start? then depths + [e.depth] else depths, rest[1..], t, all, at, target);
  }

  lemma MakeIsNext(records: seq<Record>, r: Record, t: Tree)
    requires records <= Flatten(t, None, 0) && |records| < |Flatten(t, None, 0)| && Flatten(t, None, 0)[|records|] == r
    ensures IsNext(records, r, t)
  {
  }

  /** Ids tell the created nodes apart. */
  lemma IdsDiffer(w: World, loaded: seq<Node>, records: seq<Record>, target: Node?)
    requires w.Valid() && Mirrors(loaded, records, target) && Nodes(loaded) <= w.live
    ensures forall i, j :: 0 <= i < j < |loaded| ==> loaded[i].id != loaded[j].id
  {
    NodeAtIsLive(loaded, None, null, w.live);
    assert w.DistinctIds();
  }

  /** Reads one attribute event: keeps the value for the node the loader stands on. */
  method ReadAttribute(s: Server, e: Event, node: Node?, previousDepth: nat, loaded: seq<Node>, target: Node?,
                       values: map<nat, map<string, Value>>, texts: Texts,
                       ghost l: Load, ghost depths: seq<nat>, ghost rest: seq<Event>, ghost t: Tree)
    returns (now: map<nat, map<string, Value>>)
    requires s.Valid() && Nodes(loaded) <= s.live
    requires rest != [] && rest[0] == e && e.Attr?
    requires Follows(l, depths, rest, t, loaded, node, previousDepth, target) && Collects(values, loaded, l.values, texts)
    ensures l.Valid() && Follows(Step(l, e), depths, rest[1..], t, loaded, node, previousDepth, target)
    ensures Collects(now, loaded, Step(l, e).values, texts)
  {
    hide *;
    FollowsParts(l, depths, rest, t, loaded, node, previousDepth, target);
    FollowsToEnd(l, depths, rest, t, loaded, node, previousDepth, target);
    LevelsNext(l, depths, rest);
    StepIs(l, e);
    s.ValidParts();
    s.WIs();
    IdsDiffer(s.W(), loaded, l.records, target);
    NodeAtIsLive(loaded, l.node, null, s.live);
    LiveIsDeclared(s.live, s.eps);
    AttributeStep(l, e.attribute, loaded, target);
    now := Collect(node, e.attribute, values, texts);
    if ShouldLoad(node.iface, e.attribute) {
      CollectsMore(now, values, loaded, l.values, texts, l.node.value, e.attribute);
    }
    MakeFollows(Step(l, e), depths, rest[1..], t, loaded, node, target);
  }

  lemma LiveIsDeclared(live: set<Node>, eps: set<NodeEndpoint>)
    requires WellTyped(live, eps)
    ensures forall n :: n in live ==> n.iface.Valid() && n.HasDeclaredEndpoints()
  {
  }

  lemma AttributeStep(l: Load, a: Attribute, loaded: seq<Node>, target: Node?)
    requires l.Valid() && l.node.Some? && Mirrors(loaded, l.records, target)
    ensures l.node.value < |loaded| && NodeAt(loaded, l.node, target) == loaded[l.node.value]
    ensures Step(l, Attr(a)).values ==
            if ShouldLoad(loaded[l.node.value].iface, a) then l.values[l.node.value := l.values[l.node.value][a.name := a]] else l.values
  {
  }

  /**
   Loads what was printed for `t` below `target`, or at the top if there is none.  It succeeds exactly
   if every node may hang where it belongs; then the created nodes are those of `t`, nested the same
   way and of the same names, but for the first, which may have to give way to one that is there; and
   what has been collected for them are the attributes of `t`.
   */
  /** Nothing has been collected yet for the node just created. */
  lemma StartCollected(w: World, values: map<nat, map<string, Value>>, loaded: seq<Node>, all: seq<Node>, l: Load, l': Load,
                       target: Node?, texts: Texts)
    requires w.Valid() && Mirrors(all, l'.records, target) && Nodes(all) <= w.live && Collects(values, loaded, l.values, texts)
    requires |all| == |loaded| + 1 && all == loaded + [all[|loaded|]] && l'.values == l.values + [map[]]
    ensures Collects(values, all, l'.values, texts)
  {
    hide *;
    IdsDiffer(w, all, l'.records, target);
    assert forall i :: 0 <= i < |loaded| ==> loaded[i] == all[i];
    CollectsNext(values, loaded, l.values, texts, all[|loaded|]);
  }

  method LoadNodes(s: Server, target: Node?, events: seq<Event>, texts: Texts, ghost t: Tree)
    returns (error: CommandError, loaded: seq<Node>, values: map<nat, map<string, Value>>)
    requires s.Valid() && (target != null ==> target in s.live)
    requires events == Print(t, 1) && Sound(Flatten(t, None, 0))
    modifies s`nodes, s`live, s`eps, s`nextInternalId, s.table, s.live`children, s.eps`value
    ensures s.Valid()
    ensures error == if AllNest(Flatten(t, None, 0), KindOf(target)) then SUCCESS else FAILED
    ensures forall f :: f in old(s.eps) ==> f in s.eps && f.value == old(f.value)
    ensures error == SUCCESS ==>
              && s.live == old(s.live) + Nodes(loaded) && fresh(Nodes(loaded))
              && Mirrors(loaded, Flatten(t, None, 0), target) && loaded != []
              && IsFirstFree(old(Siblings(s.W(), target).Keys), t.name, loaded[0].name)
              && Collects(values, loaded, FlattenValues(t), texts)
  {
    hide *;
    loaded, values := [], map[];
    var node, previousDepth := target, 0;
    ghost var l: Load, depths: seq<nat> := Load([], [], None, 0), [];
    FollowsFromStart(t, target, texts);
    NoneNested(Flatten(t, None, 0), KindOf(target));
    for i := 0 to |events|
      invariant s.Valid() && (target != null ==> target in s.live)
      invariant s.live == old(s.live) + Nodes(loaded) && fresh(Nodes(loaded)) && fresh(s.eps - old(s.eps))
      invariant forall f :: f in old(s.eps) ==> f in s.eps && f.value == old(f.value)
      invariant Follows(l, depths, events[i..], t, loaded, node, previousDepth, target)
      invariant Collects(values, loaded, l.values, texts)
      invariant NestSoFar(Flatten(t, None, 0), l.records, KindOf(target))
      invariant if loaded == [] then Siblings(s.W(), target) == old(Siblings(s.W(), target))
                else IsFirstFree(old(Siblings(s.W(), target).Keys), t.name, loaded[0].name)
    {
      var e := events[i];
      ghost var rest := events[i..];
      assert rest[0] == e && rest[1..] == events[i + 1..];
      FollowsParts(l, depths, rest, t, loaded, node, previousDepth, target);
      LevelsNext(l, depths, rest);
      StepIs(l, e);
      if e.Start? || e.End? {
        var ok, at, all := ReadObject(s, e, node, previousDepth, loaded, target, l, depths, rest, t);
        if !ok {
          error := FAILED;
          return;
        }
        if e.Start? {
          assert all == loaded + [all[|loaded|]];
          NodesSnoc(loaded, all[|loaded|]);
          s.ValidParts();
          s.WIs();
          FollowsParts(Step(l, e), depths + [e.depth], rest[1..], t, all, at, e.depth, target);
          StartCollected(s.W(), values, loaded, all, l, Step(l, e), target, texts);
          NestNext(Flatten(t, None, 0), l.records, KindOf(target), Record(e.iface.value, e.name, l.ParentAt(e.depth)));
          depths := depths + [e.depth];
        }
        node, previousDepth, loaded := at, e.depth, all;
      } else {
        values := ReadAttribute(s, e, node, previousDepth, loaded, target, values, texts, l, depths, rest, t);
      }
      l := Step(l, e);
    }
    FollowsToEnd(l, depths, events[|events|..], t, loaded, node, previousDepth, target);
    FollowsParts(l, depths, events[|events|..], t, loaded, node, previousDepth, target);
    NestedToEnd(Flatten(t, None, 0), KindOf(target));
    error := SUCCESS;
  }

  /** The records so far may hang where they belong. */
  ghost predicate NestSoFar(F: seq<Record>, records: seq<Record>, target: Option<Kind>) {
    forall i :: 0 <= i < |records| ==> Nests(F, records[i], target)
  }

  lemma NoneNested(F: seq<Record>, target: Option<Kind>)
    ensures NestSoFar(F, [], target) && Nodes([]) == {}
  {
  }

  lemma NestNext(F: seq<Record>, records: seq<Record>, target: Option<Kind>, r: Record)
    requires NestSoFar(F, records, target) && Nests(F, r, target)
    ensures NestSoFar(F, records + [r], target)
  {
  }

  lemma NestedToEnd(F: seq<Record>, target: Option<Kind>)
    requires NestSoFar(F, F, target)
    ensures AllNest(F, target)
  {
  }

  // ---------------------------------------------------------------- what has been saved can be loaded

  /** Interfaces and names are legal, and the children of a node have different names. */
  ghost predicate Good(t: Tree)
    decreases t, 1
  {
    t.iface.Valid() && IsNodeName(t.name) && AllGood(t.children)
  }

  ghost predicate AllGood(ts: seq<Tree>)
    decreases ts, 0
  {
    && (forall i :: 0 <= i < |ts| ==> Good(ts[i]))
    && (forall i, j :: 0 <= i < j < |ts| ==> ts[i].name != ts[j].name)
  }

  /** A record directly below the parent of a list is that of one of its trees. */
  lemma {:induction false} TopRecord(ts: seq<Tree>, parent: nat, base: nat, j: nat)
    requires parent < base && j < |FlattenAll(ts, parent, base)| && FlattenAll(ts, parent, base)[j].parent == Some(parent)
    ensures exists k :: 0 <= k < |ts| && ts[k].name == FlattenAll(ts, parent, base)[j].name
    decreases |ts|
  {
    var f := Flatten(ts[0], Some(parent), base);
    AllIs(ts, 0, parent, base);
    ParentsInside(ts[0], Some(parent), base);
    Parts(ts[0], 0, Some(parent), base);
    hide Flatten, FlattenAll;
    if j < |f| {
      assert j == 0 && f[0].name == ts[0].name;
    } else {
      TopRecord(ts[1..], parent, base + |f|, j - |f|);
      var k :| 0 <= k < |ts[1..]| && ts[1..][k].name == FlattenAll(ts[1..], parent, base + |f|)[j - |f|].name;
      assert ts[k + 1].name == ts[1..][k].name;
    }
  }

  lemma SoundConcat(f: seq<Record>, g: seq<Record>)
    requires Sound(f) && Sound(g)
    requires forall i, j :: 0 <= i < |f| && 0 <= j < |g| && f[i].parent == g[j].parent ==> f[i].name != g[j].name
    ensures Sound(f + g)
  {
  }

  lemma {:induction false} GoodIsSound(t: Tree, parent: Option<nat>, base: nat)
    requires Good(t) && (parent.Some? ==> parent.value < base)
    ensures Sound(Flatten(t, parent, base))
    decreases t, 1
  {
    AllGoodIsSound(t.children, base, base + 1);
    ParentsInsideAll(t.children, base, base + 1);
    Parts(t, 0, parent, base);
    SoundConcat([Record(t.iface, t.name, parent)], FlattenAll(t.children, base, base + 1));
  }

  /** The first tree and the others have no top name in common. */
  lemma FirstDiffers(ts: seq<Tree>, parent: nat, base: nat)
    requires ts != [] && AllGood(ts) && parent < base
    ensures var f := Flatten(ts[0], Some(parent), base);
            var g := FlattenAll(ts[1..], parent, base + |f|);
            forall i, j :: 0 <= i < |f| && 0 <= j < |g| && f[i].parent == g[j].parent ==> f[i].name != g[j].name
  {
    var f := Flatten(ts[0], Some(parent), base);
    var g := FlattenAll(ts[1..], parent, base + |f|);
    ParentsInside(ts[0], Some(parent), base);
    ParentsInsideAll(ts[1..], parent, base + |f|);
    Parts(ts[0], 0, Some(parent), base);
    hide Flatten, FlattenAll, Good;
    forall i, j | 0 <= i < |f| && 0 <= j < |g| && f[i].parent == g[j].parent ensures f[i].name != g[j].name {
      assert i == 0 && g[j].parent == Some(parent);
      TopRecord(ts[1..], parent, base + |f|, j);
    }
  }

  lemma AllGoodParts(ts: seq<Tree>, parent: nat, base: nat)
    requires AllGood(ts)
    ensures ts == [] ==> Sound(FlattenAll(ts, parent, base))
    ensures ts != [] ==> Good(ts[0]) && AllGood(ts[1..])
  {
  }

  lemma {:induction false} AllGoodIsSound(ts: seq<Tree>, parent: nat, base: nat)
    requires AllGood(ts) && parent < base
    ensures Sound(FlattenAll(ts, parent, base))
    decreases ts, 0
  {
    hide *;
    AllGoodParts(ts, parent, base);
    if ts != [] {
      var f := Flatten(ts[0], Some(parent), base);
      var g := FlattenAll(ts[1..], parent, base + |f|);
      AllIs(ts, 0, parent, base);
      GoodIsSound(ts[0], Some(parent), base);
      AllGoodIsSound(ts[1..], parent, base + |f|);
      FirstDiffers(ts, parent, base);
      SoundConcat(f, g);
    }
  }

  /** What represents a node of a valid tree is good. */
  lemma {:induction false} RepresentsGood(w: World, t: Tree, n: Node, texts: Texts)
    requires w.Valid() && Declared(w.live) && Represents(w, t, n, texts)
    ensures Good(t)
    decreases t
  {
    assert Placed(n);
    forall i | 0 <= i < |t.children| ensures Good(t.children[i]) {
      RepresentsGood(w, t.children[i], n.children[t.children[i].name], texts);
    }
  }

  // ---------------------------------------------------------------- the saved values come back

  function NamesOf(attributes: seq<Attribute>): set<string> {
    set i | 0 <= i < |attributes| :: attributes[i].name
  }

  lemma CollectedSnoc(iface: Interface, attributes: seq<Attribute>, a: Attribute)
    requires ShouldLoad(iface, a)
    ensures Collected(iface, attributes + [a]) == Collected(iface, attributes)[a.name := a]
    ensures NamesOf(attributes + [a]) == NamesOf(attributes) + {a.name}
  {
    var all := attributes + [a];
    assert all[..|all| - 1] == attributes && all[|attributes|] == a;
    hide Collected;
    forall i | 0 <= i < |attributes| ensures attributes[i].name in NamesOf(all) {
      assert all[i] == attributes[i];
    }
  }

  /** Under each name the collected attribute of that name. */
  predicate HoldsAll(collected: map<string, Attribute>, attributes: seq<Attribute>) {
    forall i :: 0 <= i < |attributes| ==> attributes[i].name in collected && collected[attributes[i].name] == attributes[i]
  }

  predicate AllDiffer(attributes: seq<Attribute>) {
    forall i, j :: 0 <= i < j < |attributes| ==> attributes[i].name != attributes[j].name
  }

  predicate AllWanted(iface: Interface, attributes: seq<Attribute>) {
    forall i :: 0 <= i < |attributes| ==> ShouldLoad(iface, attributes[i])
  }

  lemma AllButTheLast(iface: Interface, attributes: seq<Attribute>)
    requires attributes != [] && AllDiffer(attributes) && AllWanted(iface, attributes)
    ensures var init := attributes[..|attributes| - 1];
            AllDiffer(init) && AllWanted(iface, init) && ShouldLoad(iface, attributes[|attributes| - 1])
  {
    hide ShouldLoad;
  }

  lemma HoldsOneMore(collected: map<string, Attribute>, attributes: seq<Attribute>)
    requires attributes != [] && AllDiffer(attributes) && HoldsAll(collected, attributes[..|attributes| - 1])
    ensures HoldsAll(collected[attributes[|attributes| - 1].name := attributes[|attributes| - 1]], attributes)
  {
    var init := attributes[..|attributes| - 1];
    forall i | 0 <= i < |attributes| - 1
      ensures attributes[i].name in collected && collected[attributes[i].name] == attributes[i]
      ensures attributes[i].name != attributes[|attributes| - 1].name
    {
      assert init[i] == attributes[i];
    }
  }

  lemma {:induction false} CollectedAll(iface: Interface, attributes: seq<Attribute>)
    requires AllWanted(iface, attributes) && AllDiffer(attributes)
    ensures Collected(iface, attributes).Keys == NamesOf(attributes) && HoldsAll(Collected(iface, attributes), attributes)
    decreases |attributes|
  {
    if attributes != [] {
      hide *;
      var init, a := attributes[..|attributes| - 1], attributes[|attributes| - 1];
      AllButTheLast(iface, attributes);
      CollectedAll(iface, init);
      CollectedSnoc(iface, init, a);
      HoldsOneMore(Collected(iface, init), attributes);
      assert attributes == init + [a];
    }
  }

  /** Exactly the saved endpoints of `n`, each as it is saved. */
  ghost predicate HoldsSaved(collected: map<string, Attribute>, n: Node, texts: Texts)
    reads n`endpoints, n.endpoints.Values`value
  {
    && (forall k :: k in collected <==> k in n.endpoints && IsSaved(n.endpoints[k]))
    && (forall k :: k in collected ==> collected[k] == AttributeOf(n.endpoints[k], texts))
  }

  /** What is collected for a node is what was saved of it: exactly its saved endpoints, each as it was. */
  lemma CollectedIsSaved(w: World, t: Tree, n: Node, texts: Texts)
    requires w.Valid() && WellTyped(w.live, w.eps) && Represents(w, t, n, texts)
    ensures HoldsSaved(Collected(t.iface, t.attributes), n, texts)
  {
    hide *;
    RepresentsParts(w, t, n, texts);
    forall i | 0 <= i < |t.attributes| ensures ShouldLoad(t.iface, t.attributes[i]) {
      ListedAt(t.attributes, n, texts, i);
      SavedIsWanted(w, n, t.attributes[i].name, texts);
    }
    MakeAllWanted(t.iface, t.attributes);
    ListedDiffer(t.attributes, n, texts);
    EndpointNames(w, n);
    CollectedAll(t.iface, t.attributes);
    ListedHold(Collected(t.iface, t.attributes), t.attributes, n, texts);
  }

  lemma RepresentsParts(w: World, t: Tree, n: Node, texts: Texts)
    requires Represents(w, t, n, texts)
    ensures n in w.live && t.iface == n.iface && ListsAttributes(t.attributes, n, {}, texts)
  {
  }

  lemma MakeAllWanted(iface: Interface, attributes: seq<Attribute>)
    requires forall i :: 0 <= i < |attributes| ==> ShouldLoad(iface, attributes[i])
    ensures AllWanted(iface, attributes)
  {
  }

  lemma ListedAt(attributes: seq<Attribute>, n: Node, texts: Texts, i: nat)
    requires ListsAttributes(attributes, n, {}, texts) && i < |attributes|
    ensures attributes[i].name in n.endpoints && IsSaved(n.endpoints[attributes[i].name])
    ensures attributes[i] == AttributeOf(n.endpoints[attributes[i].name], texts)
  {
  }

  lemma ListedDiffer(attributes: seq<Attribute>, n: Node, texts: Texts)
    requires ListsAttributes(attributes, n, {}, texts)
    ensures AllDiffer(attributes)
  {
  }

  /** A map of just the listed attributes holds just what is saved. */
  lemma ListedHold(collected: map<string, Attribute>, attributes: seq<Attribute>, n: Node, texts: Texts)
    requires ListsAttributes(attributes, n, {}, texts) && collected.Keys == NamesOf(attributes) && HoldsAll(collected, attributes)
    requires forall k :: k in n.endpoints ==> n.endpoints[k].name == k
    ensures HoldsSaved(collected, n, texts)
  {
    forall k | k in n.endpoints && IsSaved(n.endpoints[k]) ensures k in collected {
      var i :| 0 <= i < |attributes| && attributes[i] == AttributeOf(n.endpoints[k], texts);
      assert attributes[i].name in NamesOf(attributes);
    }
  }

  lemma SavedIsWanted(w: World, n: Node, k: string, texts: Texts)
    requires w.Valid() && WellTyped(w.live, w.eps) && n in w.live && k in n.endpoints && IsSaved(n.endpoints[k])
    ensures ShouldLoad(n.iface, AttributeOf(n.endpoints[k], texts))
  {
    assert w.EndpointsPlaced(n) && n.iface.Valid() && n.HasDeclaredEndpoints();
    var e := n.endpoints[k];
    assert e in w.eps && e.HasDeclaredType();
    WantedEndpoint(n, AttributeOf(e, texts));
  }

  /** The text of a value gives it back: texts always, integers if their printing can be read, and of
      floats what is left after printing. */
  lemma ValueComesBack(e: NodeEndpoint, texts: Texts)
    requires e.value.Some?
    ensures ValueOf(AttributeOf(e, texts), texts) ==
            match e.value.value
            case StringValue(s) => StringValue(s)
            case IntegerValue(i) => IntegerValue(texts.readInteger(texts.printInteger(i)))
            case FloatValue(r) => FloatValue(texts.readFloat(texts.printFloat(r)))
  {
  }

  lemma WellTypedIsDeclared(live: set<Node>, eps: set<NodeEndpoint>)
    requires WellTyped(live, eps)
    ensures Declared(live)
  {
  }
}
