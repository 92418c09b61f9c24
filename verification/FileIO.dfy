/**
 Saving a node and everything below it, and loading what has been saved.
 */
module FileIO {
  import opened Paths
  import opened Values
  import opened Forest
  import opened FileFormat

  // ---------------------------------------------------------------- what is saved

  /** An endpoint is saved if it has a value and its definition says so. */
  ghost predicate IsSaved(e: NodeEndpoint)
    reads e`value
  {
    e.value.Some? && e.definition.savedToFile
  }

  ghost function AttributeOf(e: NodeEndpoint, texts: Texts): Attribute
    requires e.value.Some?
    reads e`value
  {
    Attribute(e.name, e.value.value.Type(), Converted(e.value.value, STRING, texts).s)
  }

  /** `attributes` lists the saved endpoints of `n` but for those named in `todo`, each once. */
  ghost predicate ListsAttributes(attributes: seq<Attribute>, n: Node, todo: set<string>, texts: Texts)
    reads n`endpoints, n.endpoints.Values`value
  {
    && (forall i :: 0 <= i < |attributes| ==>
          && attributes[i].name in n.endpoints && attributes[i].name !in todo
          && IsSaved(n.endpoints[attributes[i].name])
          && attributes[i] == AttributeOf(n.endpoints[attributes[i].name], texts))
    && (forall i, j :: 0 <= i < j < |attributes| ==> attributes[i].name != attributes[j].name)
    && (forall k :: k in n.endpoints && k !in todo && IsSaved(n.endpoints[k]) ==>
          AttributeOf(n.endpoints[k], texts) in attributes)
  }

  /** `t` is what is to be saved of `n` and of everything below it, in some order. */
  ghost predicate Represents(w: World, t: Tree, n: Node, texts: Texts)
    reads w.live`name, w.live`children, w.live`endpoints, w.eps`value
    decreases t, 1
  {
    && n in w.live && t.iface == n.iface && t.name == n.name
    && n.endpoints.Values <= w.eps && ListsAttributes(t.attributes, n, {}, texts)
    && RepresentsAll(w, t.children, n, {}, texts)
  }

  /** `ts` are what is to be saved of the children of `n` but for those named in `todo`, each once. */
  ghost predicate RepresentsAll(w: World, ts: seq<Tree>, n: Node, todo: set<string>, texts: Texts)
    requires n in w.live
    reads w.live`name, w.live`children, w.live`endpoints, w.eps`value
    decreases ts, 0
  {
    && (forall i :: 0 <= i < |ts| ==>
          ts[i].name in n.children && ts[i].name !in todo && Represents(w, ts[i], n.children[ts[i].name], texts))
    && (forall i, j :: 0 <= i < j < |ts| ==> ts[i].name != ts[j].name)
    && (forall k :: k in n.children && k !in todo ==> exists i :: 0 <= i < |ts| && ts[i].name == k)
  }

  lemma {:induction false} PrintAttributesSnoc(attributes: seq<Attribute>, a: Attribute)
    ensures PrintAttributes(attributes + [a]) == PrintAttributes(attributes) + [Attr(a)]
  {
    if attributes != [] {
      assert (attributes + [a])[1..] == attributes[1..] + [a];
      PrintAttributesSnoc(attributes[1..], a);
    } else {
      assert [a][1..] == [];
    }
  }

  lemma {:induction false} PrintAllSnoc(ts: seq<Tree>, t: Tree, depth: nat)
    ensures PrintAll(ts + [t], depth) == PrintAll(ts, depth) + Print(t, depth)
    decreases |ts|
  {
    if ts == [] {
      assert [t][1..] == [] && ts + [t] == [t];
    } else {
      assert (ts + [t])[1..] == ts[1..] + [t];
      PrintAllSnoc(ts[1..], t, depth);
      AllIs(ts, depth, 0, 0);
      AllIs(ts + [t], depth, 0, 0);
      hide *;
      Associative(Print(ts[0], depth), PrintAll(ts[1..], depth), Print(t, depth));
    }
  }

  /** The events write exactly the saved endpoints of `n`. */
  ghost predicate WritesAttributes(events: seq<Event>, n: Node, texts: Texts)
    reads n`endpoints, n.endpoints.Values`value
  {
    exists attributes :: ListsAttributes(attributes, n, {}, texts) && events == PrintAttributes(attributes)
  }

  /** The events write `n` and everything below it. */
  ghost predicate Writes(events: seq<Event>, w: World, n: Node, depth: nat, texts: Texts)
    reads w.live`name, w.live`children, w.live`endpoints, w.eps`value
  {
    exists t: Tree :: Represents(w, t, n, texts) && events == Print(t, depth)
  }

  lemma AttributesOf(events: seq<Event>, n: Node, texts: Texts) returns (attributes: seq<Attribute>)
    requires WritesAttributes(events, n, texts)
    ensures ListsAttributes(attributes, n, {}, texts) && events == PrintAttributes(attributes)
    ensures events == [] <==> attributes == []
  {
    attributes :| ListsAttributes(attributes, n, {}, texts) && events == PrintAttributes(attributes);
  }

  lemma TreeOf(events: seq<Event>, w: World, n: Node, depth: nat, texts: Texts) returns (t: Tree)
    requires Writes(events, w, n, depth, texts)
    ensures Represents(w, t, n, texts) && events == Print(t, depth)
  {
    t :| Represents(w, t, n, texts) && events == Print(t, depth);
  }

  lemma MakeWrites(events: seq<Event>, w: World, n: Node, depth: nat, texts: Texts, t: Tree)
    requires Represents(w, t, n, texts) && events == Print(t, depth)
    ensures Writes(events, w, n, depth, texts)
  {
  }

  /** Writes the saved endpoints of a node. */
  method SaveAttributes(n: Node, texts: Texts) returns (events: seq<Event>)
    requires forall k :: k in n.endpoints ==> n.endpoints[k].name == k
    ensures WritesAttributes(events, n, texts)
  {
    events := [];
    ghost var attributes: seq<Attribute> := [];
    var todo := n.endpoints.Keys;
    while todo != {}
      invariant todo <= n.endpoints.Keys
      invariant events == PrintAttributes(attributes) && ListsAttributes(attributes, n, todo, texts)
      decreases todo
    {
      var k :| k in todo;
      var e := n.endpoints[k];
      todo := todo - {k};
      if e.value.None? || !e.definition.savedToFile {
        continue;
      }
      var a := Attribute(k, e.value.value.Type(), Converted(e.value.value, STRING, texts).s);
      PrintAttributesSnoc(attributes, a);
      events := events + [Attr(a)];
      attributes := attributes + [a];
    }
  }

  method SaveNodeTree(n: Node, depth: nat, texts: Texts, ghost w: World) returns (events: seq<Event>)
    requires w.Valid() && n in w.live && n in w.Paths()
    ensures Writes(events, w, n, depth, texts)
    decreases Below(w.Paths(), n)
  {
    hide *;
    ValidWalk(w, n);
    ghost var was := w.Paths();
    WalkEnds(w, was, [], n);
    EndpointNames(w, n);
    var attributeEvents := SaveAttributes(n, texts);
    ghost var attributes := AttributesOf(attributeEvents, n, texts);
    var childEvents := [];
    ghost var ts := [];
    NoneRepresented(w, n, depth, texts);
    var todo := n.children.Keys;
    while todo != {}
      invariant todo <= n.children.Keys
      invariant childEvents == PrintAll(ts, depth + 1) && RepresentsAll(w, ts, n, todo, texts)
      invariant ts == [] <==> todo == n.children.Keys
      decreases todo
    {
      var k :| k in todo;
      WalkNext(w, was, [], n, todo, k);
      var more := SaveNodeTree(n.children[k], depth + 1, texts, w);
      ghost var c := TreeOf(more, w, n.children[k], depth + 1, texts);
      PrintAllSnoc(ts, c, depth + 1);
      OneMoreRepresented(w, ts, c, n, todo, k, texts);
      childEvents := childEvents + more;
      ts := ts + [c];
      todo := todo - {k};
    }
    ghost var t := Tree(n.iface, n.name, attributes, ts);
    MakeRepresents(w, t, n, texts);
    Parts(t, depth, None, 0);
    HeadAndTail(t, depth);
    events := [Start(depth, Some(n.iface), n.name)] + attributeEvents + childEvents;
    if |attributeEvents| > 0 || n.children != map[] {
      events := events + [End(depth)];
    }
    MakeWrites(events, w, n, depth, texts, t);
  }

  lemma HeadAndTail(t: Tree, depth: nat)
    ensures Head(t, depth) == [Start(depth, Some(t.iface), t.name)] + PrintAttributes(t.attributes)
    ensures Tail(t, depth) == if t.attributes == [] && t.children == [] then [] else [End(depth)]
  {
  }

  lemma EndpointNames(w: World, n: Node)
    requires w.Valid() && n in w.live
    ensures forall k :: k in n.endpoints ==> n.endpoints[k].name == k
  {
    assert w.EndpointsPlaced(n);
  }

  lemma NoneRepresented(w: World, n: Node, depth: nat, texts: Texts)
    requires n in w.live
    ensures PrintAll([], depth + 1) == [] && RepresentsAll(w, [], n, n.children.Keys, texts)
    ensures n.children == map[] <==> n.children.Keys == {}
  {
  }

  lemma OneMoreRepresented(w: World, ts: seq<Tree>, c: Tree, n: Node, todo: set<string>, k: string, texts: Texts)
    requires n in w.live && RepresentsAll(w, ts, n, todo, texts) && k in todo && todo <= n.children.Keys
    requires Represents(w, c, n.children[k], texts) && n.children[k].name == k
    ensures RepresentsAll(w, ts + [c], n, todo - {k}, texts)
  {
    assert c.name == k;
    var us := ts + [c];
    forall l | l in n.children && l !in todo - {k} ensures exists i :: 0 <= i < |us| && us[i].name == l {
      if l == k {
        assert us[|ts|].name == k;
      } else {
        var i :| 0 <= i < |ts| && ts[i].name == l;
        assert us[i].name == l;
      }
    }
  }

  lemma MakeRepresents(w: World, t: Tree, n: Node, texts: Texts)
    requires w.Valid() && n in w.live && t.iface == n.iface && t.name == n.name
    requires ListsAttributes(t.attributes, n, {}, texts) && RepresentsAll(w, t.children, n, {}, texts)
    ensures Represents(w, t, n, texts)
  {
    assert w.EndpointsPlaced(n);
  }
}
