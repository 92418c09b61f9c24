/**
 The saved form of a node tree, and what the loader makes of it.

 A file is read as a flat stream of events.  The loader rebuilds the nesting from the depths of the
 events and the parent pointers of the nodes it has created, without a stack.  This module describes
 the loader on records of the created nodes, and proves that the stream printed for a tree rebuilds
 that tree.
 */
module FileFormat {
  import opened Paths
  import opened Values
  import opened Forest

  /** One saved attribute: its name, its type, and its value as text. */
  datatype Attribute = Attribute(name: string, valueType: ValueType, text: string)

  /** What is saved of a node and of everything below it. */
  datatype Tree = Tree(iface: Interface, name: string, attributes: seq<Attribute>, children: seq<Tree>)

  /** An object element without content has no end. */
  datatype Event =
    | Start(depth: nat, iface: Option<Interface>, name: string)
    | Attr(attribute: Attribute)
    | End(depth: nat)

  function PrintAttributes(attributes: seq<Attribute>): seq<Event> {
    if attributes == [] then [] else [Attr(attributes[0])] + PrintAttributes(attributes[1..])
  }

  function Print(t: Tree, depth: nat): seq<Event> {
    [Start(depth, Some(t.iface), t.name)]
    + PrintAttributes(t.attributes)
    + PrintAll(t.children, depth + 1)
    + if t.attributes == [] && t.children == [] then [] else [End(depth)]
  }

  function PrintAll(ts: seq<Tree>, depth: nat): seq<Event> {
    if ts == [] then [] else Print(ts[0], depth) + PrintAll(ts[1..], depth)
  }

  // ---------------------------------------------------------------- the loader

  /** A created node: the index of the created node it hangs below, if it is not the first. */
  datatype Record = Record(iface: Interface, name: string, parent: Option<nat>)

  /** `node` is where the loader stands: the last object that was started or returned to. */
  datatype Load = Load(records: seq<Record>, values: seq<map<string, Attribute>>, node: Option<nat>, previousDepth: nat)
  {
    ghost predicate Valid() {
      && |values| == |records|
      && (node.Some? ==> node.value < |records|)
      && (forall i :: 0 <= i < |records| && records[i].parent.Some? ==> records[i].parent.value < i)
    }

    function ParentOf(n: Option<nat>): (p: Option<nat>)
      requires Valid()
    {
      if n.Some? && n.value < |records| then records[n.value].parent else None
    }

    /** Where the loader stands after an object event at `depth`, before any node is created. */
    function Stepped(depth: nat): Option<nat>
      requires Valid()
    {
      if depth < previousDepth then ParentOf(node) else node
    }

    /** Below what a node that starts at `depth` is created. */
    function ParentAt(depth: nat): Option<nat>
      requires Valid()
    {
      if depth > previousDepth then node else ParentOf(Stepped(depth))
    }
  }

  /** A saved value is loaded if the interface still declares it as saved, with the same type. */
  predicate ShouldLoad(iface: Interface, a: Attribute) {
    exists i :: 0 <= i < |iface.endpoints| && iface.endpoints[i].name == a.name && IsSavedAs(iface.endpoints[i], a.valueType)
  }

  predicate IsSavedAs(d: EndpointDefinition, t: ValueType) {
    d.initial.Some? && d.savedToFile && d.initial.value.Type() == t
  }

  /** A value is wanted if the interface has a stateful endpoint of that name and type that is saved. */
  lemma ShouldLoadMeans(iface: Interface, a: Attribute)
    ensures ShouldLoad(iface, a) <==>
              exists d :: d in iface.endpoints && d.name == a.name && d.savedToFile
                          && match a.valueType
                             case INTEGER => d.initial.Some? && d.initial.value.IntegerValue?
                             case FLOAT => d.initial.Some? && d.initial.value.FloatValue?
                             case STRING => d.initial.Some? && d.initial.value.StringValue?
  {
  }

  ghost function Step(l: Load, e: Event): (l': Load)
    requires l.Valid()
    ensures l'.Valid()
  {
    match e
    case Start(depth, iface, name) =>
      if iface.Some? then
        Load(l.records + [Record(iface.value, name, l.ParentAt(depth))], l.values + [map[]], Some(|l.records|), depth)
      else
        l.(node := l.Stepped(depth), previousDepth := depth)
    case End(depth) =>
      l.(node := l.Stepped(depth), previousDepth := depth)
    case Attr(a) =>
      if l.node.Some? && ShouldLoad(l.records[l.node.value].iface, a) then
        l.(values := l.values[l.node.value := l.values[l.node.value][a.name := a]])
      else l
  }

  ghost function Steps(l: Load, es: seq<Event>): (l': Load)
    requires l.Valid()
    ensures l'.Valid()
    decreases |es|
  {
    if es == [] then l else Steps(Step(l, es[0]), es[1..])
  }

  lemma {:induction false} StepsConcat(l: Load, a: seq<Event>, b: seq<Event>)
    requires l.Valid()
    ensures Steps(l, a + b) == Steps(Steps(l, a), b)
    decreases |a|
  {
    if a == [] {
      assert a + b == b;
    } else {
      assert (a + b)[1..] == a[1..] + b;
      StepsConcat(Step(l, a[0]), a[1..], b);
    }
  }

  // ---------------------------------------------------------------- what a tree should become

  /** The nodes of `t` in the order they are started, hanging below `parent`; the first has index `base`. */
  function Flatten(t: Tree, parent: Option<nat>, base: nat): (r: seq<Record>)
    ensures |r| > 0
  {
    [Record(t.iface, t.name, parent)] + FlattenAll(t.children, base, base + 1)
  }

  function FlattenAll(ts: seq<Tree>, parent: nat, base: nat): seq<Record> {
    if ts == [] then []
    else
      var first := Flatten(ts[0], Some(parent), base);
      first + FlattenAll(ts[1..], parent, base + |first|)
  }

  /** The attributes that a loader collects for a node. */
  function Collected(iface: Interface, attributes: seq<Attribute>): map<string, Attribute> {
    if attributes == [] then map[]
    else
      var a := attributes[|attributes| - 1];
      var before := Collected(iface, attributes[..|attributes| - 1]);
      if ShouldLoad(iface, a) then before[a.name := a] else before
  }

  function FlattenValues(t: Tree): (r: seq<map<string, Attribute>>) {
    [Collected(t.iface, t.attributes)] + FlattenAllValues(t.children)
  }

  function FlattenAllValues(ts: seq<Tree>): seq<map<string, Attribute>> {
    if ts == [] then [] else FlattenValues(ts[0]) + FlattenAllValues(ts[1..])
  }

  // ---------------------------------------------------------------- the loader rebuilds the tree

  /** The loader is about to read an object at `depth` that belongs below `parent`: it stands either on
      `parent` itself, or on the child of `parent` it has read last. */
  ghost predicate Ready(l: Load, parent: Option<nat>, depth: nat) {
    && l.Valid()
    && if l.previousDepth < depth then l.previousDepth + 1 == depth && l.node == parent
       else l.previousDepth == depth && l.node.Some? && l.records[l.node.value].parent == parent
  }

  lemma StepAttribute(l: Load, a: Attribute, done: seq<Attribute>)
    requires l.Valid() && l.node.Some?
    requires l.values[l.node.value] == Collected(l.records[l.node.value].iface, done)
    ensures Step(l, Attr(a)) == l.(values := l.values[l.node.value := Collected(l.records[l.node.value].iface, done + [a])])
  {
    assert (done + [a])[..|done|] == done;
    assert l.values[l.node.value := l.values[l.node.value]] == l.values;
  }

  lemma StepsMore(l: Load, e: Event, rest: seq<Event>)
    requires l.Valid()
    ensures Steps(l, [e] + rest) == Steps(Step(l, e), rest)
    ensures Steps(l, []) == l
  {
    assert ([e] + rest)[1..] == rest;
  }

  lemma PrintAttributesIs(attributes: seq<Attribute>)
    ensures attributes == [] ==> PrintAttributes(attributes) == []
    ensures attributes != [] ==> PrintAttributes(attributes) == [Attr(attributes[0])] + PrintAttributes(attributes[1..])
  {
  }

  lemma UpdatedTwice<T>(s: seq<T>, i: nat, x: T, y: T)
    requires i < |s|
    ensures s[i := x][i := y] == s[i := y] && s[i := s[i]] == s
  {
  }

  lemma {:induction false} StepsAttributes(l: Load, attributes: seq<Attribute>, done: seq<Attribute>, rest: seq<Attribute>)
    requires l.Valid() && l.node.Some? && l.node.value < |l.records| == |l.values| && attributes == done + rest
    requires l.values[l.node.value] == Collected(l.records[l.node.value].iface, done)
    ensures Steps(l, PrintAttributes(rest)) ==
            l.(values := l.values[l.node.value := Collected(l.records[l.node.value].iface, attributes)])
    decreases |rest|
  {
    hide *;
    var i, collected := l.node.value, Collected(l.records[l.node.value].iface, attributes);
    PrintAttributesIs(rest);
    if rest == [] {
      StepsMore(l, End(0), []);
      assert done == attributes;
      UpdatedTwice(l.values, i, collected, collected);
    } else {
      var a, done' := rest[0], done + [rest[0]];
      assert [a] + rest[1..] == rest;
      Associative(done, [a], rest[1..]);
      StepsMore(l, Attr(a), PrintAttributes(rest[1..]));
      StepAttribute(l, a, done);
      UpdatedTwice(l.values, i, Collected(l.records[i].iface, done'), collected);
      StepsAttributes(Step(l, Attr(a)), attributes, done', rest[1..]);
    }
  }

  lemma StepStart(l: Load, iface: Interface, name: string, parent: Option<nat>, depth: nat)
    requires Ready(l, parent, depth) && (parent.Some? ==> parent.value < |l.records|)
    ensures l.Valid()
    ensures Step(l, Start(depth, Some(iface), name)) ==
            Load(l.records + [Record(iface, name, parent)], l.values + [map[]], Some(|l.records|), depth)
  {
  }

  lemma NothingCollected(iface: Interface, values: seq<map<string, Attribute>>, m: map<string, Attribute>)
    ensures Collected(iface, []) == map[]
    ensures (values + [map[]])[|values| := m] == values + [m]
  {
  }

  /** Starting the object of `t` and reading its attributes. */
  lemma StepsObject(l: Load, t: Tree, parent: Option<nat>, depth: nat)
    requires Ready(l, parent, depth) && (parent.Some? ==> parent.value < |l.records|)
    ensures l.Valid()
    ensures Steps(l, Head(t, depth)) ==
            Load(l.records + [Record(t.iface, t.name, parent)], l.values + [Collected(t.iface, t.attributes)], Some(|l.records|), depth)
  {
    assert Head(t, depth) == [Start(depth, Some(t.iface), t.name)] + PrintAttributes(t.attributes);
    assert l.Valid() ==> |l.values| == |l.records|;
    hide *;
    StepStart(l, t.iface, t.name, parent, depth);
    var l1 := Step(l, Start(depth, Some(t.iface), t.name));
    StepsMore(l, Start(depth, Some(t.iface), t.name), PrintAttributes(t.attributes));
    NothingCollected(t.iface, l.values, Collected(t.iface, t.attributes));
    assert [] + t.attributes == t.attributes;
    StepsAttributes(l1, t.attributes, [], t.attributes);
  }

  /** The end of an object brings the loader back to it, if it is not there already. */
  lemma StepsEnd(l: Load, n: nat, depth: nat)
    requires l.Valid() && n < |l.records|
    requires (l.previousDepth == depth && l.node == Some(n)) || Ready(l, Some(n), depth + 1)
    ensures Steps(l, [End(depth)]) == l.(node := Some(n), previousDepth := depth)
  {
    assert [End(depth)][1..] == [];
    assert Steps(l, [End(depth)]) == Steps(Step(l, End(depth)), []);
  }

  function Head(t: Tree, depth: nat): seq<Event> {
    [Start(depth, Some(t.iface), t.name)] + PrintAttributes(t.attributes)
  }

  function Tail(t: Tree, depth: nat): seq<Event> {
    if t.attributes == [] && t.children == [] then [] else [End(depth)]
  }

  /** What printing and flattening a tree are made of. */
  lemma Parts(t: Tree, depth: nat, parent: Option<nat>, base: nat)
    ensures Print(t, depth) == Head(t, depth) + PrintAll(t.children, depth + 1) + Tail(t, depth)
    ensures Flatten(t, parent, base) == [Record(t.iface, t.name, parent)] + FlattenAll(t.children, base, base + 1)
    ensures FlattenValues(t) == [Collected(t.iface, t.attributes)] + FlattenAllValues(t.children)
  {
  }

  lemma StepsTail(l: Load, t: Tree, n: nat, depth: nat)
    requires l.Valid() && n < |l.records|
    requires if t.children == [] then l.previousDepth == depth && l.node == Some(n) else Ready(l, Some(n), depth + 1)
    ensures Steps(l, Tail(t, depth)) == l.(node := Some(n), previousDepth := depth)
  {
    if Tail(t, depth) != [] {
      StepsEnd(l, n, depth);
    }
  }

  lemma ReadyBelow(l: Load, n: nat, depth: nat)
    requires l.Valid() && l.node == Some(n) && l.previousDepth == depth
    ensures Ready(l, Some(n), depth + 1)
  {
  }

  /** Reading a printed tree appends its nodes and values, and leaves the loader ready for a sibling. */
  lemma {:induction false} StepsPrint(l: Load, t: Tree, parent: Option<nat>, depth: nat)
    requires Ready(l, parent, depth) && (parent.Some? ==> parent.value < |l.records|)
    ensures Steps(l, Print(t, depth)) ==
            Load(l.records + Flatten(t, parent, |l.records|), l.values + FlattenValues(t), Some(|l.records|), depth)
    decreases t, 1
  {
    hide *;
    var n, body := |l.records|, PrintAll(t.children, depth + 1);
    Parts(t, depth, parent, n);
    Inserted(l.records, [Record(t.iface, t.name, parent)], FlattenAll(t.children, n, n + 1), Flatten(t, parent, n));
    Inserted(l.values, [Collected(t.iface, t.attributes)], FlattenAllValues(t.children), FlattenValues(t));
    StepsObject(l, t, parent, depth);
    var l2 := Steps(l, Head(t, depth));
    ReadyBelow(l2, n, depth);
    StepsPrintAll(l2, t.children, n, depth + 1);
    StepsConcat(l, Head(t, depth), body);
    StepsTail(Steps(l2, body), t, n, depth);
    StepsConcat(l, Head(t, depth) + body, Tail(t, depth));
  }

  lemma AllIs(ts: seq<Tree>, depth: nat, parent: nat, base: nat)
    requires ts != []
    ensures PrintAll(ts, depth) == Print(ts[0], depth) + PrintAll(ts[1..], depth)
    ensures FlattenAll(ts, parent, base) ==
            Flatten(ts[0], Some(parent), base) + FlattenAll(ts[1..], parent, base + |Flatten(ts[0], Some(parent), base)|)
    ensures FlattenAllValues(ts) == FlattenValues(ts[0]) + FlattenAllValues(ts[1..])
  {
  }

  lemma Inserted<T>(a: seq<T>, b: seq<T>, c: seq<T>, d: seq<T>)
    requires d == b + c
    ensures a + b + c == a + d
  {
    Associative(a, b, c);
  }

  lemma Associative<T>(a: seq<T>, b: seq<T>, c: seq<T>)
    ensures a + b + c == a + (b + c)
  {
  }

  lemma ReadyBehind(l: Load, records: seq<Record>, t: Tree, parent: nat, depth: nat)
    requires l.Valid() && l.records == records + Flatten(t, Some(parent), |records|)
    requires l.node == Some(|records|) && l.previousDepth == depth
    ensures Ready(l, Some(parent), depth)
  {
    assert l.records[|records|] == Flatten(t, Some(parent), |records|)[0];
  }

  lemma StepsNothing(l: Load, ts: seq<Tree>, parent: nat, depth: nat)
    requires Ready(l, Some(parent), depth) && ts == []
    ensures l.Valid() && Steps(l, PrintAll(ts, depth)) == l
    ensures l.records + FlattenAll(ts, parent, |l.records|) == l.records
    ensures l.values + FlattenAllValues(ts) == l.values
  {
  }

  lemma {:induction false} StepsPrintAll(l: Load, ts: seq<Tree>, parent: nat, depth: nat)
    requires Ready(l, Some(parent), depth) && parent < |l.records|
    ensures var l' := Steps(l, PrintAll(ts, depth));
            && l'.records == l.records + FlattenAll(ts, parent, |l.records|)
            && l'.values == l.values + FlattenAllValues(ts)
            && (if ts == [] then l' == l else l'.previousDepth == depth && Ready(l', Some(parent), depth))
    decreases ts, 0
  {
    hide *;
    if ts == [] {
      StepsNothing(l, ts, parent, depth);
    } else {
      AllIs(ts, depth, parent, |l.records|);
      StepsPrint(l, ts[0], Some(parent), depth);
      ReadyIsValid(l, Some(parent), depth);
      var l1 := Steps(l, Print(ts[0], depth));
      assert |l1.records| == |l.records| + |Flatten(ts[0], Some(parent), |l.records|)|;
      ReadyBehind(l1, l.records, ts[0], parent, depth);
      StepsPrintAll(l1, ts[1..], parent, depth);
      StepsConcat(l, Print(ts[0], depth), PrintAll(ts[1..], depth));
      StepsNothing(l1, [], parent, depth);
      Inserted(l.records, Flatten(ts[0], Some(parent), |l.records|), FlattenAll(ts[1..], parent, |l1.records|),
               FlattenAll(ts, parent, |l.records|));
      Inserted(l.values, FlattenValues(ts[0]), FlattenAllValues(ts[1..]), FlattenAllValues(ts));
    }
  }

  lemma ReadyIsValid(l: Load, parent: Option<nat>, depth: nat)
    requires Ready(l, parent, depth)
    ensures l.Valid()
  {
  }

  /** Loading the file printed for a tree creates the nodes of the tree and collects its attributes. */
  lemma LoadPrinted(t: Tree)
    ensures Steps(Load([], [], None, 0), Print(t, 1)) == Load(Flatten(t, None, 0), FlattenValues(t), Some(0), 1)
  {
    assert Ready(Load([], [], None, 0), None, 1);
    StepsPrint(Load([], [], None, 0), t, None, 1);
    assert [] + Flatten(t, None, 0) == Flatten(t, None, 0);
  }

  // ---------------------------------------------------------------- the records determine the tree

  /** What the records show of a tree: everything but its attributes. */
  function Shape(t: Tree): Tree {
    Tree(t.iface, t.name, [], Shapes(t.children))
  }

  function Shapes(ts: seq<Tree>): seq<Tree> {
    if ts == [] then [] else [Shape(ts[0])] + Shapes(ts[1..])
  }

  /** All records of a tree but the first hang below records of the same tree. */
  lemma {:induction false} ParentsInside(t: Tree, parent: Option<nat>, base: nat)
    ensures forall i :: 0 < i < |Flatten(t, parent, base)| ==>
              var p := Flatten(t, parent, base)[i].parent;
              p.Some? && base <= p.value < base + i
    decreases t, 1
  {
    ParentsInsideAll(t.children, base, base + 1);
  }

  lemma {:induction false} ParentsInsideAll(ts: seq<Tree>, parent: nat, base: nat)
    requires parent < base
    ensures forall i :: 0 <= i < |FlattenAll(ts, parent, base)| ==>
              var p := FlattenAll(ts, parent, base)[i].parent;
              p.Some? && (p.value == parent || base <= p.value < base + i)
    decreases ts, 0
  {
    if ts == [] {
    } else {
      ParentsInside(ts[0], Some(parent), base);
      ParentsInsideAll(ts[1..], parent, base + |Flatten(ts[0], Some(parent), base)|);
    }
  }

  /** Trees with the same records have the same shape. */
  lemma {:induction false} FlattenInjective(t: Tree, u: Tree, parent: Option<nat>, base: nat)
    requires Flatten(t, parent, base) == Flatten(u, parent, base)
    ensures Shape(t) == Shape(u)
    decreases t, 1
  {
    var f, g := Flatten(t, parent, base), Flatten(u, parent, base);
    assert f[0] == g[0];
    assert f[1..] == FlattenAll(t.children, base, base + 1) && g[1..] == FlattenAll(u.children, base, base + 1);
    FlattenAllInjective(t.children, u.children, base, base + 1);
  }

  lemma {:induction false} FlattenAllInjective(ts: seq<Tree>, us: seq<Tree>, parent: nat, base: nat)
    requires FlattenAll(ts, parent, base) == FlattenAll(us, parent, base) && parent < base
    ensures Shapes(ts) == Shapes(us)
    decreases ts, 0
  {
    if ts != [] && us != [] {
      var f, g := Flatten(ts[0], Some(parent), base), Flatten(us[0], Some(parent), base);
      FirstEnds(ts, us, parent, base);
      FirstEnds(us, ts, parent, base);
      var all := FlattenAll(ts, parent, base);
      assert f == all[..|f|] == all[..|g|] == g;
      FlattenInjective(ts[0], us[0], Some(parent), base);
      assert FlattenAll(ts[1..], parent, base + |f|) == all[|f|..] == all[|g|..] == FlattenAll(us[1..], parent, base + |g|);
      FlattenAllInjective(ts[1..], us[1..], parent, base + |f|);
    }
  }

  /** Behind the first tree of a list comes a record that hangs below the parent of the list, if any. */
  lemma NextRecord(ts: seq<Tree>, parent: nat, base: nat)
    requires ts != []
    ensures var f, all := Flatten(ts[0], Some(parent), base), FlattenAll(ts, parent, base);
            |f| <= |all| && all[..|f|] == f && (|all| > |f| ==> all[|f|].parent == Some(parent))
  {
    var f := Flatten(ts[0], Some(parent), base);
    assert FlattenAll(ts, parent, base) == f + FlattenAll(ts[1..], parent, base + |f|);
  }

  /** The first tree of a list ends where the next record hangs below the parent of the list. */
  lemma FirstEnds(ts: seq<Tree>, us: seq<Tree>, parent: nat, base: nat)
    requires ts != [] && us != [] && FlattenAll(ts, parent, base) == FlattenAll(us, parent, base) && parent < base
    ensures |Flatten(ts[0], Some(parent), base)| >= |Flatten(us[0], Some(parent), base)|
  {
    NextRecord(ts, parent, base);
    NextRecord(us, parent, base);
    ParentsInside(us[0], Some(parent), base);
  }
}
