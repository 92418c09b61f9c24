/**
 Saving a node of one server and loading the result into another, or into the same.

 The saved tree is only a means: what is said in the end is about the nodes that were there and those
 that have been created, one by one.
 */
module Copying {
  import opened Paths
  import opened Values
  import opened Forest
  import opened Relinking
  import opened Growth
  import opened FreshNames
  import opened Servers
  import opened Commands
  import opened FileFormat
  import opened FileIO
  import opened Loading

  // ---------------------------------------------------------------- the nodes that a tree was saved of

  /** The node `m` is saved as `r` and `collected`. */
  ghost predicate IsSavedAs(w: World, m: Node, r: Record, collected: map<string, Attribute>, texts: Texts)
    reads w.live`name, w.live`endpoints, w.eps`value
  {
    && m in w.live && m.endpoints.Values <= w.eps
    && m.iface == r.iface && m.name == r.name && HoldsSaved(collected, m, texts)
  }

  /** `ns` are the nodes that these records and values were saved of.  Records whose parent is `parent`
      are those of nodes that hang below `p`, the others' parents are counted from `base`. */
  ghost predicate Origins(w: World, ns: seq<Node>, records: seq<Record>, collected: seq<map<string, Attribute>>,
                          parent: Option<nat>, base: nat, p: Node?, texts: Texts)
    reads w.live`name, w.live`parent, w.live`endpoints, w.eps`value
  {
    && |ns| == |records| == |collected|
    && (forall i :: 0 <= i < |ns| ==> IsSavedAs(w, ns[i], records[i], collected[i], texts))
    && (forall i :: 0 <= i < |ns| ==> HangsAs(ns, records[i].parent, parent, base, p, i))
  }

  ghost predicate HangsAs(ns: seq<Node>, of: Option<nat>, parent: Option<nat>, base: nat, p: Node?, i: nat)
    requires i < |ns|
    reads ns`parent
  {
    || (of == parent && ns[i].parent == p)
    || (of.Some? && base <= of.value < base + i && ns[i].parent == ns[of.value - base])
  }

  lemma OriginsConcat(w: World, f: seq<Node>, g: seq<Node>, r: seq<Record>, q: seq<Record>,
                      c: seq<map<string, Attribute>>, d: seq<map<string, Attribute>>, parent: Option<nat>, base: nat, p: Node?, texts: Texts)
    requires Origins(w, f, r, c, parent, base, p, texts) && Origins(w, g, q, d, parent, base + |f|, p, texts)
    ensures Origins(w, f + g, r + q, c + d, parent, base, p, texts)
  {
    hide IsSavedAs;
  }

  lemma OriginsBelow(w: World, n: Node, ns: seq<Node>, r: Record, records: seq<Record>, c: map<string, Attribute>,
                     collected: seq<map<string, Attribute>>, parent: Option<nat>, base: nat, texts: Texts)
    requires IsSavedAs(w, n, r, c, texts) && r.parent == parent
    requires Origins(w, ns, records, collected, Some(base), base + 1, n, texts)
    ensures Origins(w, [n] + ns, [r] + records, [c] + collected, parent, base, n.parent, texts)
  {
    hide IsSavedAs;
    var all := [n] + ns;
    forall i | 0 < i < |all| ensures HangsAs(all, ([r] + records)[i].parent, parent, base, n.parent, i) {
      assert HangsAs(ns, records[i - 1].parent, Some(base), base + 1, n, i - 1);
    }
  }

  /** The names of some trees. */
  function NamesOfTrees(ts: seq<Tree>): set<string> {
    set i | 0 <= i < |ts| :: ts[i].name
  }

  lemma NamesNext(ts: seq<Tree>)
    requires ts != [] && forall i, j :: 0 <= i < j < |ts| ==> ts[i].name != ts[j].name
    ensures NamesOfTrees(ts) == NamesOfTrees(ts[1..]) + {ts[0].name} && ts[0].name !in NamesOfTrees(ts[1..])
  {
    forall k | k in NamesOfTrees(ts) && k != ts[0].name ensures k in NamesOfTrees(ts[1..]) {
      var i :| 0 <= i < |ts| && ts[i].name == k;
      assert ts[1..][i - 1].name == k;
    }
  }

  /** What is known of the trees of children of `n`. */
  ghost predicate OfChildren(w: World, ts: seq<Tree>, n: Node, texts: Texts)
    requires n in w.live
    reads w.live`name, w.live`children, w.live`endpoints, w.eps`value
  {
    && (forall i :: 0 <= i < |ts| ==> ts[i].name in n.children && Represents(w, ts[i], n.children[ts[i].name], texts))
    && (forall i, j :: 0 <= i < j < |ts| ==> ts[i].name != ts[j].name)
  }

  lemma OfChildrenNext(w: World, ts: seq<Tree>, n: Node, texts: Texts)
    requires n in w.live && ts != [] && OfChildren(w, ts, n, texts)
    ensures ts[0].name in n.children && Represents(w, ts[0], n.children[ts[0].name], texts)
    ensures OfChildren(w, ts[1..], n, texts)
    ensures NamesOfTrees(ts) <= n.children.Keys
    ensures NamesOfTrees(ts) == NamesOfTrees(ts[1..]) + {ts[0].name} && ts[0].name !in NamesOfTrees(ts[1..])
  {
    hide Represents;
    NamesNext(ts);
  }

  lemma RepresentsIs(w: World, t: Tree, n: Node, texts: Texts)
    requires Represents(w, t, n, texts)
    ensures n in w.live && t.iface == n.iface && t.name == n.name && n.endpoints.Values <= w.eps
    ensures OfChildren(w, t.children, n, texts) && NamesOfTrees(t.children) == n.children.Keys
  {
    hide ListsAttributes;
  }

  lemma MakeIsSavedAs(w: World, t: Tree, n: Node, parent: Option<nat>, texts: Texts)
    requires w.Valid() && WellTyped(w.live, w.eps) && Represents(w, t, n, texts)
    ensures IsSavedAs(w, n, Record(t.iface, t.name, parent), Collected(t.iface, t.attributes), texts)
  {
    hide *;
    RepresentsIs(w, t, n, texts);
    CollectedIsSaved(w, t, n, texts);
    SavedAsIs(w, n, Record(t.iface, t.name, parent), Collected(t.iface, t.attributes), texts);
  }

  lemma SavedAsIs(w: World, m: Node, r: Record, collected: map<string, Attribute>, texts: Texts)
    requires m in w.live && m.endpoints.Values <= w.eps && m.iface == r.iface && m.name == r.name && HoldsSaved(collected, m, texts)
    ensures IsSavedAs(w, m, r, collected, texts)
  {
  }

  /** The nodes that a tree was saved of, in the order of its records: exactly those at and below `n`. */
  lemma {:induction false} Originals(w: World, t: Tree, n: Node, parent: Option<nat>, base: nat, texts: Texts) returns (ns: seq<Node>)
    requires w.Valid() && w.Shaped(w.Paths(), []) && WellTyped(w.live, w.eps) && Represents(w, t, n, texts) && n in w.Paths()
    ensures Origins(w, ns, Flatten(t, parent, base), FlattenValues(t), parent, base, n.parent, texts)
    ensures ns != [] && ns[0] == n && Nodes(ns) == Below(w.Paths(), n)
    ensures AllDistinct(ns)
    decreases t, 1
  {
    hide *;
    RepresentsIs(w, t, n, texts);
    MakeIsSavedAs(w, t, n, parent, texts);
    var below := OriginalsOfAll(w, t.children, n, base, base + 1, texts);
    OriginsBelow(w, n, below, Record(t.iface, t.name, parent), FlattenAll(t.children, base, base + 1),
                 Collected(t.iface, t.attributes), FlattenAllValues(t.children), parent, base, texts);
    Parts(t, 0, parent, base);
    NodesCons(n, below);
    UnderRoot(w.Paths()[n]);
    WalkEnds(w, w.Paths(), [], n);
    assert n.children.Keys - NamesOfTrees(t.children) == {};
    ns := [n] + below;
  }

  lemma {:induction false} OriginalsOfAll(w: World, ts: seq<Tree>, n: Node, parent: nat, base: nat, texts: Texts) returns (ns: seq<Node>)
    requires w.Valid() && w.Shaped(w.Paths(), []) && WellTyped(w.live, w.eps) && n in w.live && n in w.Paths()
    requires OfChildren(w, ts, n, texts)
    ensures Origins(w, ns, FlattenAll(ts, parent, base), FlattenAllValues(ts), Some(parent), base, n, texts)
    ensures Nodes(ns) + {n} == Walked(w.Paths(), n, n.children.Keys - NamesOfTrees(ts)) && n !in ns
    ensures AllDistinct(ns)
    decreases ts, 0
  {
    hide *;
    UnderRoot(w.Paths()[n]);
    if ts == [] {
      NothingFlat(w, ts, n, parent, base, texts);
      WalkEnds(w, w.Paths(), [], n);
      assert n.children.Keys - NamesOfTrees(ts) == n.children.Keys;
      ns := [];
    } else {
      OfChildrenNext(w, ts, n, texts);
      var k, todo := ts[0].name, n.children.Keys - NamesOfTrees(ts[1..]);
      WalkNext(w, w.Paths(), [], n, todo, k);
      PathsAt(w, n.children[k]);
      var first := Originals(w, ts[0], n.children[k], Some(parent), base, texts);
      OriginsLength(w, first, Flatten(ts[0], Some(parent), base), FlattenValues(ts[0]), Some(parent), base, n, texts);
      var rest := OriginalsOfAll(w, ts[1..], n, parent, base + |first|, texts);
      AllIs(ts, 0, parent, base);
      OriginsConcat(w, first, rest, Flatten(ts[0], Some(parent), base), FlattenAll(ts[1..], parent, base + |first|),
                    FlattenValues(ts[0]), FlattenAllValues(ts[1..]), Some(parent), base, n, texts);
      NodesConcat(first, rest);
      NotBelowChild(w, n, n.children[k]);
      assert n.children.Keys - NamesOfTrees(ts) == todo - {k};
      ns := first + rest;
    }
  }

  predicate AllDistinct(ns: seq<Node>) {
    forall i, j :: 0 <= i < j < |ns| ==> ns[i] != ns[j]
  }

  lemma NodesCons(n: Node, ns: seq<Node>)
    ensures Nodes([n] + ns) == Nodes(ns) + {n}
    ensures n !in ns && AllDistinct(ns) ==> AllDistinct([n] + ns)
  {
  }

  lemma NodesConcat(f: seq<Node>, g: seq<Node>)
    ensures Nodes(f + g) == Nodes(f) + Nodes(g)
    ensures AllDistinct(f) && AllDistinct(g) && Nodes(f) !! Nodes(g) ==> AllDistinct(f + g)
    ensures forall n :: n in f <==> n in Nodes(f)
    ensures forall n :: n in g <==> n in Nodes(g)
    ensures forall n :: n in f + g <==> n in f || n in g
  {
    if Nodes(f) !! Nodes(g) {
      forall i, j | 0 <= i < |f| && 0 <= j < |g| ensures f[i] != g[j] {
        assert f[i] in Nodes(f) && g[j] in Nodes(g);
      }
    }
  }

  lemma UnderRoot(p: Path)
    ensures Under([], p)
  {
  }

  lemma NotBelowChild(w: World, n: Node, c: Node)
    requires n in w.live && c in w.Paths() && n in w.Paths() && !Under(w.Paths()[c], w.Paths()[n])
    ensures n !in Below(w.Paths(), c)
  {
  }

  lemma OriginsLength(w: World, ns: seq<Node>, records: seq<Record>, collected: seq<map<string, Attribute>>,
                      parent: Option<nat>, base: nat, p: Node?, texts: Texts)
    requires Origins(w, ns, records, collected, parent, base, p, texts)
    ensures |ns| == |records|
  {
  }

  lemma NothingFlat(w: World, ts: seq<Tree>, n: Node, parent: nat, base: nat, texts: Texts)
    requires ts == []
    ensures Origins(w, [], FlattenAll(ts, parent, base), FlattenAllValues(ts), Some(parent), base, n, texts)
    ensures NamesOfTrees(ts) == {} && Nodes([]) == {} && AllDistinct([])
  {
  }

  // ---------------------------------------------------------------- copies

  /** The node may hang where the copy of its parent, or, for the top one, the target is. */
  ghost predicate MayHangAgain(ns: seq<Node>, target: Node?)
    reads ns`parent
  {
    forall i :: 0 <= i < |ns| ==> MayHang(ns[i].iface.kind, KindOf(if i == 0 then target else ns[i].parent))
  }

  /** Node by node, `copies` have the interfaces and names of `ns` and hang below each other as these do. */
  ghost predicate AreCopies(copies: seq<Node>, ns: seq<Node>, target: Node?)
    reads copies`name, copies`parent, ns`name, ns`parent
  {
    && |copies| == |ns| > 0 && AllDistinct(copies) && copies[0].parent == target
    && (forall i :: 0 <= i < |ns| ==> copies[i].iface == ns[i].iface)
    && (forall i :: 0 < i < |ns| ==> copies[i].name == ns[i].name)
    && (forall i :: 0 < i < |ns| ==> exists j :: 0 <= j < i && ns[i].parent == ns[j] && copies[i].parent == copies[j])
  }

  /** The values collected for a node are exactly those of its saved endpoints, as their texts give them back. */
  ghost predicate HasValues(values: map<string, Value>, n: Node, texts: Texts)
    reads n`endpoints, n.endpoints.Values`value
  {
    && (forall k :: k in values <==> k in n.endpoints && n.endpoints[k].value.Some? && n.endpoints[k].definition.savedToFile)
    && (forall k :: k in values ==>
          match n.endpoints[k].value.value
          case StringValue(s) => values[k] == StringValue(s)
          case IntegerValue(i) => values[k] == IntegerValue(texts.readInteger(texts.printInteger(i)))
          case FloatValue(r) => values[k] == FloatValue(texts.readFloat(texts.printFloat(r))))
  }

  function ValuesAt(values: map<nat, map<string, Value>>, id: nat): map<string, Value> {
    if id in values then values[id] else map[]
  }

  lemma NestedAsIs(w: World, ns: seq<Node>, t: Tree, p: Node?, target: Node?, texts: Texts)
    requires Origins(w, ns, Flatten(t, None, 0), FlattenValues(t), None, 0, p, texts)
    ensures AllNest(Flatten(t, None, 0), KindOf(target)) <==> MayHangAgain(ns, target)
  {
    var records := Flatten(t, None, 0);
    ParentsInside(t, None, 0);
    assert records[0].parent == None;
    hide Flatten, FlattenValues, MayHang;
    forall i | 0 <= i < |ns| ensures Nests(records, records[i], KindOf(target)) <==>
                                     MayHang(ns[i].iface.kind, KindOf(if i == 0 then target else ns[i].parent)) {
      assert HangsAs(ns, records[i].parent, None, 0, p, i);
      assert IsSavedAs(w, ns[i], records[i], FlattenValues(t)[i], texts);
      if i > 0 {
        var j := records[i].parent.value;
        assert IsSavedAs(w, ns[j], records[j], FlattenValues(t)[j], texts);
      }
    }
  }

  lemma MirrorsAreCopies(w: World, copies: seq<Node>, ns: seq<Node>, t: Tree, p: Node?, target: Node?, texts: Texts)
    requires Origins(w, ns, Flatten(t, None, 0), FlattenValues(t), None, 0, p, texts)
    requires Mirrors(copies, Flatten(t, None, 0), target) && copies != []
    ensures AreCopies(copies, ns, target)
  {
    var records := Flatten(t, None, 0);
    ParentsInside(t, None, 0);
    assert records[0].parent == None;
    hide Flatten, FlattenValues;
    forall i | 0 < i < |ns|
      ensures copies[i].name == ns[i].name
      ensures exists j :: 0 <= j < i && ns[i].parent == ns[j] && copies[i].parent == copies[j]
    {
      assert HangsAs(ns, records[i].parent, None, 0, p, i);
      assert IsSavedAs(w, ns[i], records[i], FlattenValues(t)[i], texts);
      var j := records[i].parent.value;
      assert 0 <= j < i && ns[i].parent == ns[j] && copies[i].parent == copies[j];
    }
    forall i | 0 <= i < |ns| ensures copies[i].iface == ns[i].iface {
      assert IsSavedAs(w, ns[i], records[i], FlattenValues(t)[i], texts);
    }
  }

  lemma CollectedAreValues(w: World, values: map<nat, map<string, Value>>, copies: seq<Node>, ns: seq<Node>, t: Tree, p: Node?, texts: Texts)
    requires Origins(w, ns, Flatten(t, None, 0), FlattenValues(t), None, 0, p, texts)
    requires Collects(values, copies, FlattenValues(t), texts)
    ensures |copies| == |ns|
    ensures forall i :: 0 <= i < |ns| ==> HasValues(ValuesAt(values, copies[i].id), ns[i], texts)
    ensures forall id :: id in values ==> exists i :: 0 <= i < |copies| && copies[i].id == id
  {
    hide Flatten, FlattenValues, HasValues, ValuesAt, HoldsValues, IsSavedAs;
    forall i | 0 <= i < |ns| ensures HasValues(ValuesAt(values, copies[i].id), ns[i], texts) {
      assert IsSavedAs(w, ns[i], Flatten(t, None, 0)[i], FlattenValues(t)[i], texts);
      OneHasValues(w, values, copies[i].id, ns[i], Flatten(t, None, 0)[i], FlattenValues(t)[i], texts);
    }
  }

  lemma OneHasValues(w: World, values: map<nat, map<string, Value>>, id: nat, m: Node, r: Record, collected: map<string, Attribute>, texts: Texts)
    requires IsSavedAs(w, m, r, collected, texts)
    requires id in values <==> collected != map[]
    requires id in values ==> HoldsValues(values[id], collected, texts)
    ensures HasValues(ValuesAt(values, id), m, texts)
  {
    assert id !in values ==> collected.Keys == {};
    forall k | k in ValuesAt(values, id) ensures k in m.endpoints && IsSaved(m.endpoints[k]) {
      ValueComesBack(m.endpoints[k], texts);
    }
    hide ValueOf, AttributeOf;
  }

  /** Loading changes nothing of what was saved. */
  method LoadBeside(s: Server, target: Node?, events: seq<Event>, texts: Texts, ghost t: Tree, ghost w: World, ghost ns: seq<Node>, ghost p: Node?)
    returns (error: CommandError, loaded: seq<Node>, values: map<nat, map<string, Value>>)
    requires s.Valid() && (target != null ==> target in s.live)
    requires events == Print(t, 1) && Sound(Flatten(t, None, 0))
    requires Origins(w, ns, Flatten(t, None, 0), FlattenValues(t), None, 0, p, texts)
    modifies s`nodes, s`live, s`eps, s`nextInternalId, s.table, s.live`children, s.eps`value
    ensures s.Valid()
    ensures Origins(w, ns, Flatten(t, None, 0), FlattenValues(t), None, 0, p, texts)
    ensures error == if AllNest(Flatten(t, None, 0), KindOf(target)) then SUCCESS else FAILED
    ensures forall f :: f in old(s.eps) ==> f in s.eps && f.value == old(f.value)
    ensures error == SUCCESS ==>
              && s.live == old(s.live) + Nodes(loaded) && fresh(Nodes(loaded))
              && Mirrors(loaded, Flatten(t, None, 0), target) && loaded != []
              && IsFirstFree(old(Siblings(s.W(), target).Keys), t.name, loaded[0].name)
              && Collects(values, loaded, FlattenValues(t), texts)
  {
    hide *;
    error, loaded, values := LoadNodes(s, target, events, texts, t);
    assert forall e :: e in w.eps ==> e.value == old(e.value);
  }

  /**
   The whole round trip.  `ns` are exactly the nodes at and below `n`, and what is loaded are copies of
   them, one by one and as they hang, below `target`; the top one has the first free name.  It succeeds
   exactly if each may hang where it is to.  For each copy exactly the saved values of its original are
   collected.  Nothing that was there before changes, but for the new child of `target`.
   */
  method Copy(from: Server, n: Node, s: Server, target: Node?, texts: Texts)
    returns (error: CommandError, copies: seq<Node>, values: map<nat, map<string, Value>>, ghost ns: seq<Node>)
    requires from.Valid() && n in from.live && s.Valid() && (target != null ==> target in s.live)
    modifies s`nodes, s`live, s`eps, s`nextInternalId, s.table, s.live`children, s.eps`value
    ensures s.Valid()
    ensures ns != [] && ns[0] == n && AllDistinct(ns) && Nodes(ns) == old(LiveUnder(from.live, n.path))
    ensures error == if MayHangAgain(ns, target) then SUCCESS else FAILED
    ensures forall f :: f in old(s.eps) ==> f in s.eps && f.value == old(f.value)
    ensures error == SUCCESS ==>
              && s.live == old(s.live) + Nodes(copies) && fresh(Nodes(copies))
              && AreCopies(copies, ns, target)
              && IsFirstFree(old(Siblings(s.W(), target).Keys), n.name, copies[0].name)
              && (forall i :: 0 <= i < |ns| ==> HasValues(ValuesAt(values, copies[i].id), ns[i], texts))
              && (forall id :: id in values ==> exists i :: 0 <= i < |copies| && copies[i].id == id)
  {
    hide *;
    from.ValidParts();
    from.WIs();
    ghost var w := from.W();
    PathsAt(w, n);
    WellTypedIsDeclared(from.live, from.eps);
    var events;
    events := SaveNodeTree(n, 1, texts, w);
    ghost var t := TreeOf(events, w, n, 1, texts);
    RepresentsGood(w, t, n, texts);
    RepresentsIs(w, t, n, texts);
    GoodIsSound(t, None, 0);
    ValidWalk(w, n);
    BelowIsUnder(w, n);
    ns := Originals(w, t, n, None, 0, texts);
    ghost var p := n.parent;
    error, copies, values := LoadBeside(s, target, events, texts, t, w, ns, p);
    NestedAsIs(w, ns, t, p, target, texts);
    if error == SUCCESS {
      MirrorsAreCopies(w, copies, ns, t, p, target, texts);
      CollectedAreValues(w, values, copies, ns, t, p, texts);
    }
  }
}
