/**
 Creating nodes: naming, linking, and initialising the endpoints.
 */
module Creation {
  import opened Paths
  import opened Values
  import opened Forest
  import opened Relinking
  import opened Growth
  import opened Relocation
  import opened FreshNames
  import opened Decimal
  import opened Connections
  import opened Activation
  import opened Servers
  import opened Commands

  // ---------------------------------------------------------------- initial values

  /** Setting endpoints of `n` changes nothing above `n`. */
  lemma AboveUnaffected(w: World, now: Valuation, before: Valuation, n: Node)
    requires w.Valid() && n in w.live && now.Keys == before.Keys
    requires forall e :: e in now && e.node != n ==> now[e] == before[e]
    ensures AllOnAbove(w.Paths(), Switches(w.live), now, n.path) <==> AllOnAbove(w.Paths(), Switches(w.live), before, n.path)
  {
    WorldFits(w);
    hide World.Valid;
    var was, sw := w.Paths(), Switches(w.live);
    forall a | a in was && a in sw && was[a] < n.path ensures On(sw, now, a) <==> On(sw, before, a) {
      assert sw[a].node == a && a != n;
    }
  }

  lemma InitialisedAbove(w: World, now: Valuation, before: Valuation, n: Node, todo: set<string>, above: bool)
    requires w.Valid() && n in w.live && Initialised(now, before, n, todo, above)
    ensures AllOnAbove(w.Paths(), Switches(w.live), now, n.path) <==> AllOnAbove(w.Paths(), Switches(w.live), before, n.path)
  {
    hide World.Valid, AllOnAbove;
    AboveUnaffected(w, now, before, n);
  }

  lemma InitialIsTyped(values: Valuation, e: NodeEndpoint, above: bool)
    requires TypedValues(values) && e in values && e.definition.initial.Some?
    requires e.name == ACTIVE ==> e.definition.initial.value.IntegerValue?
    ensures TypedValues(values[e := InitialValue(e, above)])
  {
  }

  /** What the initialising set command makes of one endpoint. */
  method SetDefault(e: NodeEndpoint, ghost w: World)
    requires w.Valid() && WellTyped(w.live, w.eps) && e in w.eps && e.node in w.live && e.definition.initial.Some? && e.HoldsZero()
    requires e.name == ACTIVE ==> e.definition.initial.value.IntegerValue?
    modifies w.eps`value
    ensures WellTyped(w.live, w.eps)
    ensures ValuesOf(w.eps) == old(ValuesOf(w.eps))[e := InitialValue(e, old(AllOnAbove(w.Paths(), Switches(w.live), ValuesOf(w.eps), e.node.path)))]
  {
    hide *;
    ghost var before, was, sw := ValuesOf(w.eps), w.Paths(), Switches(w.live);
    ghost var above := AllOnAbove(was, sw, before, e.node.path);
    WellTypedValues(w.live, w.eps);
    ValuesAndScopes(w.eps);
    InitialIsTyped(before, e, above);
    InitialValueIs(e);
    if !e.definition.HasFittingDefault() {
      KeptAsItIs(before, e, e.value);
      return;
    }
    SetValue(e, e.definition.initial, w.eps);
    if e.name == ACTIVE && e.node.iface.kind != CONTAINER {
      DefaultIsTyped(before, e);
      WellTypedValues(w.live, w.eps);
      OwnSwitchIsNotAbove(w, before, e, e.definition.initial);
      var all := AreAllAncestorsActive(e.node, w);
      if !all {
        SetValue(e, Flag(false), w.eps);
        UpdatedTwice(before, e, e.definition.initial, Flag(false));
      }
    }
    WellTypedValues(w.live, w.eps);
  }

  lemma UpdatedTwice(values: Valuation, e: NodeEndpoint, v: Option<Value>, u: Option<Value>)
    ensures var once: Valuation := values[e := v];
            once[e := u] == values[e := u]
  {
  }

  lemma KeptAsItIs(values: Valuation, e: NodeEndpoint, v: Option<Value>)
    requires e in values && values[e] == v
    ensures values[e := v] == values
  {
  }

  lemma InitialValueIs(e: NodeEndpoint)
    requires e.definition.initial.Some?
    ensures e.definition.HasFittingDefault() ==>
              && InitialValue(e, true) == e.definition.initial
              && (!(e.name == ACTIVE && e.node.iface.kind != CONTAINER) ==> InitialValue(e, false) == e.definition.initial)
              && (e.name == ACTIVE && e.node.iface.kind != CONTAINER ==> InitialValue(e, false) == Flag(false))
    ensures !e.definition.HasFittingDefault() ==>
              (e.HoldsZero() ==> InitialValue(e, true) == InitialValue(e, false) == e.value)
  {
  }

  /** What an endpoint of a new node starts with: zero or nothing where its constraint refuses the default;
      else the default, but for the switch of a node that is no container, which is off below anything off. */
  lemma InitialValueMeans(e: NodeEndpoint, above: bool)
    requires e.definition.initial.Some?
    ensures var v, c := e.definition.initial.value, e.definition.constraint;
            var fits := match c
                        case Allowed(states) => v in states
                        case Range(lo, hi) =>
                          match v
                          case IntegerValue(i) => lo.IntegerValue? && hi.IntegerValue? && lo.i <= i <= hi.i
                          case FloatValue(r) => lo.FloatValue? && hi.FloatValue? && lo.r <= r <= hi.r
                          case StringValue(s) => lo.IntegerValue? && hi.IntegerValue? && lo.i <= |s| <= hi.i;
            && (!fits ==> InitialValue(e, above) == Some(match v
                                                        case IntegerValue(_) => IntegerValue(0)
                                                        case FloatValue(_) => FloatValue(0.0)
                                                        case StringValue(_) => StringValue("")))
            && (fits && e.name == "active" && e.node.iface.kind != CONTAINER && !above ==> InitialValue(e, above) == Some(IntegerValue(0)))
            && (fits && !(e.name == "active" && e.node.iface.kind != CONTAINER && !above) ==> InitialValue(e, above) == Some(v))
  {
  }

  lemma DefaultIsTyped(values: Valuation, e: NodeEndpoint)
    requires TypedValues(values) && e in values && e.definition.initial.Some?
    ensures TypedValues(values[e := e.definition.initial])
  {
  }

  lemma OwnSwitchIsNotAbove(w: World, values: Valuation, e: NodeEndpoint, v: Option<Value>)
    requires w.Valid() && e.node in w.live && e in values
    ensures AllOnAbove(w.Paths(), Switches(w.live), values[e := v], e.node.path) <==>
            AllOnAbove(w.Paths(), Switches(w.live), values, e.node.path)
  {
    hide *;
    AboveUnaffected(w, values[e := v], values, e.node);
  }

  ghost function NamesFrom(definitions: seq<EndpointDefinition>, i: nat): set<string>
    requires i <= |definitions|
  {
    set j | i <= j < |definitions| :: definitions[j].name
  }

  lemma NamesFromNext(definitions: seq<EndpointDefinition>, i: nat)
    requires i < |definitions|
    requires forall j, k :: 0 <= j < k < |definitions| ==> definitions[j].name != definitions[k].name
    ensures NamesFrom(definitions, i + 1) == NamesFrom(definitions, i) - {definitions[i].name}
    ensures definitions[i].name in NamesFrom(definitions, i)
  {
  }

  lemma NothingInitialised(w: World, values: Valuation, n: Node, above: bool)
    requires w.Valid() && Declared(w.live) && n in w.live && values.Keys == w.eps
    ensures Initialised(values, values, n, NamesFrom(n.iface.endpoints, 0), above)
    ensures NamesFrom(n.iface.endpoints, |n.iface.endpoints|) == {}
  {
    forall e | e in w.eps && e.node == n ensures e.name in NamesFrom(n.iface.endpoints, 0) {
      assert w.EndpointsOwned() && n.endpoints[e.name] == e && n.HasDeclaredEndpoints();
      var j :| 0 <= j < |n.iface.endpoints| && n.iface.endpoints[j] == e.definition;
      assert n.iface.endpoints[j].name == e.name;
    }
  }

  /** What is known of the endpoint that the definition at `i` declares. */
  lemma DefinedEndpoint(w: World, n: Node, i: nat)
    requires w.Valid() && Declared(w.live) && n in w.live && i < |n.iface.endpoints|
    ensures n.iface.endpoints[i].name in n.endpoints
    ensures var e := n.endpoints[n.iface.endpoints[i].name];
            && e in w.eps && e.node == n && e.name == n.iface.endpoints[i].name && e.definition == n.iface.endpoints[i]
            && (e.name == ACTIVE ==> e.definition.initial.Some? && e.definition.initial.value.IntegerValue?)
            && (forall f :: f in w.eps && f.node == n && f.name == e.name ==> f == e)
    ensures forall j, k :: 0 <= j < k < |n.iface.endpoints| ==> n.iface.endpoints[j].name != n.iface.endpoints[k].name
  {
    assert n.iface.Valid() && n.HasDeclaredEndpoints() && w.EndpointsPlaced(n) && w.EndpointsOwned();
  }

  lemma ZeroBefore(w: World, n: Node, before: Valuation)
    requires w.Valid() && n in w.live && before == ValuesOf(w.eps) && n.IsUnset()
    ensures forall k :: k in n.endpoints ==> n.endpoints[k] in before && IsZero(n.endpoints[k], before[n.endpoints[k]])
  {
    assert w.EndpointsPlaced(n);
  }

  ghost predicate IsZero(e: NodeEndpoint, value: Option<Value>) {
    value == if e.definition.initial.None? then None else Some(Zero(e.definition.initial.value.Type()))
  }

  lemma StillZero(now: Valuation, before: Valuation, n: Node, todo: set<string>, above: bool, e: NodeEndpoint)
    requires Initialised(now, before, n, todo, above) && e in now && e in before && e.name in todo && IsZero(e, before[e])
    requires e.value == now[e]
    ensures e.HoldsZero()
  {
  }

  /** Sets the defaults of a new node. */
  method SetDefaults(n: Node, ghost w: World)
    requires w.Valid() && WellTyped(w.live, w.eps) && n in w.live
    requires n.IsUnset()
    modifies w.eps`value
    ensures WellTyped(w.live, w.eps)
    ensures Initialised(ValuesOf(w.eps), old(ValuesOf(w.eps)), n, {},
                        old(AllOnAbove(w.Paths(), Switches(w.live), ValuesOf(w.eps), n.path)))
  {
    hide *;
    var definitions := n.iface.endpoints;
    ghost var before, was, sw := ValuesOf(w.eps), w.Paths(), Switches(w.live);
    ghost var above := AllOnAbove(was, sw, before, n.path);
    WellTypedValues(w.live, w.eps);
    ValuesAndScopes(w.eps);
    NothingInitialised(w, before, n, above);
    ZeroBefore(w, n, before);
    for i := 0 to |definitions|
      invariant WellTyped(w.live, w.eps)
      invariant Initialised(ValuesOf(w.eps), before, n, NamesFrom(definitions, i), above)
    {
      ghost var now := ValuesOf(w.eps);
      WellTypedValues(w.live, w.eps);
      ValuesAndScopes(w.eps);
      DefinedEndpoint(w, n, i);
      NamesFromNext(definitions, i);
      InitialisedAbove(w, now, before, n, NamesFrom(definitions, i), above);
      var e := n.endpoints[definitions[i].name];
      if definitions[i].initial.None? {
        InitialisedSkip(now, before, n, NamesFrom(definitions, i), above, e);
        continue;
      }
      InitialisedNext(now, before, n, NamesFrom(definitions, i), above, e);
      StillZero(now, before, n, NamesFrom(definitions, i), above, e);
      SetDefault(e, w);
    }
  }

  /** A leaf that has just been linked keeps the series property if its own switch shows what is above it. */
  lemma LeafInSeries(w: World, n: Node, was: map<Node, Path>, sw: map<Node, NodeEndpoint>, before: Valuation)
    requires w.Valid() && WellTyped(w.live, w.eps) && n in w.live && n.children == map[]
    requires n !in was && w.live == was.Keys + {n} && forall m :: m in was ==> m.path == was[m]
    requires forall m :: m in was ==> (m in sw <==> ACTIVE in m.endpoints)
    requires forall m :: m in was && m in sw ==> sw[m] == m.endpoints[ACTIVE] && sw[m] in before && sw[m].value == before[sw[m]]
    requires ACTIVE in n.endpoints && n.iface.kind != CONTAINER ==>
               n.endpoints[ACTIVE].value == Flag(AllOnAbove(w.Paths(), Switches(w.live), ValuesOf(w.eps), n.path))
    requires InSeries(was, sw, before)
    ensures Series(w)
  {
    hide *;
    LeafIsLowest(w, n);
    SnapshotsAre(w);
    ContainersHaveSwitches(w);
    SeriesIs(w);
    LeafKeepsSeries(ValuesOf(w.eps), before, w.Paths(), was, Switches(w.live), sw, n);
  }

  lemma LeafIsLowest(w: World, n: Node)
    requires w.Valid() && n in w.live && n.children == map[]
    ensures forall m :: m in w.live && m != n ==> !(n.path < m.path)
  {
    LeafIsAlone(w, n);
    hide World.Valid;
    forall m | m in w.live && n.path < m.path ensures m == n {
      assert m in Below(w.Paths(), n);
    }
  }

  lemma SnapshotsAre(w: World)
    requires w.Valid()
    ensures w.Paths().Keys == w.live && forall m :: m in w.live ==> w.Paths()[m] == m.path
    ensures forall m :: m in w.live ==> (m in Switches(w.live) <==> ACTIVE in m.endpoints)
    ensures forall m :: m in Switches(w.live) ==>
              && m in w.live && ACTIVE in m.endpoints
              && Switches(w.live)[m] == m.endpoints[ACTIVE] && Switches(w.live)[m] in ValuesOf(w.eps)
              && ValuesOf(w.eps)[Switches(w.live)[m]] == m.endpoints[ACTIVE].value
    ensures forall e :: e in w.eps ==> e in ValuesOf(w.eps) && ValuesOf(w.eps)[e] == e.value
  {
    WorldFits(w);
  }

  lemma ContainersHaveSwitches(w: World)
    requires w.Valid() && WellTyped(w.live, w.eps)
    ensures forall a :: a in w.live && a.iface.kind == CONTAINER ==> a in Switches(w.live)
  {
    hide World.Valid, WellTyped;
    forall a | a in w.live && a.iface.kind == CONTAINER ensures a in Switches(w.live) {
      SwitchOf(w, a);
    }
  }

  lemma SeriesIs(w: World)
    ensures Series(w) <==> InSeries(w.Paths(), Switches(w.live), ValuesOf(w.eps))
  {
  }

  /** Sets the defaults of a node that has just been linked. */
  method Initialise(s: Server, n: Node, ghost w: World)
    requires s.Valid() && n in s.live && w == s.W() && n.IsUnset()
    modifies s.eps`value
    ensures s.Valid()
    ensures forall e :: e in s.eps && e.node != n ==> e.value == old(e.value)
    ensures forall e :: e in n.endpoints.Values && e.definition.initial.Some? ==>
              e.value == InitialValue(e, AllOnAbove(w.Paths(), Switches(w.live), ValuesOf(w.eps), n.path))
    ensures StartsOn(n.iface) && ACTIVE in n.endpoints && n.iface.kind != CONTAINER ==>
              n.endpoints[ACTIVE].value == Flag(AllOnAbove(w.Paths(), Switches(w.live), ValuesOf(w.eps), n.path))
  {
    hide *;
    s.ValidParts();
    s.WIs();
    ghost var before := ValuesOf(s.eps);
    ValuesAndScopes(s.eps);
    SetDefaults(n, w);
    assert w.Valid();
    ghost var above := old(AllOnAbove(w.Paths(), Switches(w.live), ValuesOf(w.eps), n.path));
    InitialisedAbove(w, ValuesOf(w.eps), before, n, {}, above);
    NewInitialised(w, ValuesOf(w.eps), before, n, above);
    WellTypedValues(s.live, s.eps);
    if StartsOn(n.iface) {
      StartsLikeAbove(w, n, above);
    }
    TypedAgain(s);
  }

  // ---------------------------------------------------------------- the command

  class NewCommand {
    /** The interface found for the requested module, if it is installed. */
    const iface: Option<Interface>
    var nodeName: string
    const parentPath: Path

    constructor (iface: Option<Interface>, nodeName: string, parentPath: Path)
      ensures this.iface == iface && this.nodeName == nodeName && this.parentPath == parentPath
    {
      this.iface, this.nodeName, this.parentPath := iface, nodeName, parentPath;
    }

    /** The name that is tried first: an empty one is made from the interface's name and a new id. */
    function WantedName(id: nat): (name: string)
      requires iface.Some?
      reads this
      ensures name != ""
    {
      if nodeName == "" then iface.value.name + Print(id) else nodeName
    }

    /** Makes up a name if none was asked for. */
    method MakeNodeName(s: Server)
      requires s.Valid() && iface.Some?
      modifies `nodeName, s`nextInternalId
      ensures s.Valid() && s.W() == old(s.W()) && nodeName == old(WantedName(s.nextInternalId)) && nodeName != ""
      ensures nodeName == if old(nodeName) == "" then iface.value.name + Print(old(s.nextInternalId)) else old(nodeName)
    {
      hide Server.Valid;
      if nodeName == "" {
        var id := s.CreateInternalId();
        nodeName := iface.value.name + Print(id);
      }
    }

    method Execute(s: Server) returns (error: CommandError, n: Node?, ghost p: Node?)
      requires s.Valid() && IsPath(parentPath) && (iface.Some? ==> iface.value.Valid())
      modifies `nodeName, s`nodes, s`live, s`eps, s`nextInternalId, s.table, s.live`children, s.eps`value
      ensures s.Valid() && s.table.tracedErrors == old(s.table.tracedErrors)
      ensures error == if iface.None? then FAILED
                       else if !IsNodeName(old(WantedName(s.nextInternalId))) then FAILED
                       else if !CanBeChildOf(iface.value.kind, p) then TYPE_ERROR
                       else SUCCESS
      ensures iface.Some? ==>
                && (p == null <==> forall m :: m in old(s.live) ==> m.path != parentPath)
                && (p != null ==> p in old(s.live) && p.path == parentPath)
      ensures error != SUCCESS ==>
                && n == null && s.nodes == old(s.nodes) && s.live == old(s.live) && s.eps == old(s.eps)
                && unchanged(s.table) && unchanged(s.live) && unchanged(s.eps)
      ensures error == SUCCESS ==>
                && n != null && fresh(n) && fresh(n.endpoints.Values) && n.iface == iface.value && n.parent == p
                && IsFirstFree(old(Siblings(s.W(), p).Keys), old(WantedName(s.nextInternalId)), n.name)
                && s.live == old(s.live) + {n} && s.eps == old(s.eps) + n.endpoints.Values && n.children == map[]
                && (forall m :: m in old(s.live) ==>
                      m.children == if m == p then old(m.children)[n.name := n] else old(m.children))
                && s.nodes == (if p == null then old(s.nodes)[n.name := n] else old(s.nodes))
                && (forall e :: e in old(s.eps) ==> e.value == old(e.value))
                && (forall e :: e in n.endpoints.Values && e.definition.initial.Some? ==>
                      e.value == InitialValue(e, AllOnAbove(s.W().Paths(), Switches(s.live), ValuesOf(s.eps), n.path)))
      ensures old(Series(s.W())) && (iface.Some? ==> StartsOn(iface.value)) ==> Series(s.W())
    {
      hide *;
      ghost var w, inSeries := s.W(), Series(s.W());
      n, p := null, null;
      if iface.None? {
        return FAILED, null, null;
      }
      MakeNodeName(s);
      var parent := s.FindNode(parentPath);
      p := parent;
      SiblingsAre(s, parent);
      nodeName := Fresh(SiblingMap(s.nodes, parent).Keys, nodeName);
      if !IsNodeName(nodeName) {
        assert s.W() == w && Series(w) == inSeries;
        error := FAILED;
        return;
      }
      var id := s.CreateInternalId();
      if !CanBeChildOf(iface.value.kind, parent) {
        assert s.W() == w && Series(w) == inSeries;
        error := TYPE_ERROR;
        return;
      }
      n := CreateInSeries(s, nodeName, id, parent);
      error := SUCCESS;
    }

    /** Links a new node and initialises it, once it is known that it may hang there under that name. */
    method Create(s: Server, name: string, id: nat, parent: Node?) returns (n: Node)
      requires s.Valid() && iface.Some? && iface.value.Valid() && IsNodeName(name) && (parent != null ==> parent in s.live)
      requires name !in Siblings(s.W(), parent) && IdsBelow(s.live, id) && id < s.nextInternalId
      modifies s`nodes, s`live, s`eps, s.table, s.live`children, s.eps`value
      ensures s.Valid() && s.table.tracedErrors == old(s.table.tracedErrors) && fresh(n.endpoints.Values)
      ensures fresh(n) && n.iface == iface.value && n.parent == parent && n.name == name && n.id == id
      ensures s.live == old(s.live) + {n} && s.eps == old(s.eps) + n.endpoints.Values && n.children == map[]
      ensures forall m :: m in old(s.live) ==>
                m.children == if m == parent then old(m.children)[name := n] else old(m.children)
      ensures s.nodes == if parent == null then old(s.nodes)[name := n] else old(s.nodes)
      ensures forall e :: e in old(s.eps) ==> e.value == old(e.value)
      ensures forall e :: e in n.endpoints.Values && e.definition.initial.Some? ==>
                e.value == InitialValue(e, AllOnAbove(s.W().Paths(), Switches(s.live), ValuesOf(s.eps), n.path))
      ensures StartsOn(n.iface) && ACTIVE in n.endpoints && n.iface.kind != CONTAINER ==>
                n.endpoints[ACTIVE].value == Flag(AllOnAbove(s.W().Paths(), Switches(s.live), ValuesOf(s.eps), n.path))
    {
      hide *;
      s.ValidParts();
      s.WIs();
      OwnersLive(s.W());
      n := s.Insert(iface.value, name, id, parent);
      s.WIs();
      ghost var w := s.W();
      Initialise(s, n, w);
      assert s.W() == w;
    }

    /** The same, seen from the switches. */
    method CreateInSeries(s: Server, name: string, id: nat, parent: Node?) returns (n: Node)
      requires s.Valid() && iface.Some? && iface.value.Valid() && IsNodeName(name) && (parent != null ==> parent in s.live)
      requires name !in Siblings(s.W(), parent) && IdsBelow(s.live, id) && id < s.nextInternalId
      modifies s`nodes, s`live, s`eps, s.table, s.live`children, s.eps`value
      ensures s.Valid() && s.table.tracedErrors == old(s.table.tracedErrors) && fresh(n.endpoints.Values)
      ensures fresh(n) && n.iface == iface.value && n.parent == parent && n.name == name && n.id == id
      ensures s.live == old(s.live) + {n} && s.eps == old(s.eps) + n.endpoints.Values && n.children == map[]
      ensures forall m :: m in old(s.live) ==>
                m.children == if m == parent then old(m.children)[name := n] else old(m.children)
      ensures s.nodes == if parent == null then old(s.nodes)[name := n] else old(s.nodes)
      ensures forall e :: e in old(s.eps) ==> e.value == old(e.value)
      ensures forall e :: e in n.endpoints.Values && e.definition.initial.Some? ==>
                e.value == InitialValue(e, AllOnAbove(s.W().Paths(), Switches(s.live), ValuesOf(s.eps), n.path))
      ensures old(Series(s.W())) && StartsOn(iface.value) ==> Series(s.W())
    {
      hide *;
      s.ValidParts();
      s.WIs();
      ghost var was, sw, before := s.W().Paths(), Switches(s.live), ValuesOf(s.eps);
      SnapshotsAre(s.W());
      SeriesIs(s.W());
      n := Create(s, name, id, parent);
      s.ValidParts();
      s.WIs();
      if InSeries(was, sw, before) && StartsOn(n.iface) {
        LeafInSeries(s.W(), n, was, sw, before);
      }
    }
  }

  /** Initialising `n` sets the values of its endpoints and no others. */
  lemma NewInitialised(w: World, now: Valuation, before: Valuation, n: Node, above: bool)
    requires w.Valid() && n in w.live && now == ValuesOf(w.eps) && Initialised(now, before, n, {}, above)
    ensures now.Keys == before.Keys == w.eps
    ensures forall e :: e in w.eps ==> (e in n.endpoints.Values <==> e.node == n)
    ensures forall e :: e in w.eps && e.node != n ==> e.value == before[e]
    ensures forall e :: e in n.endpoints.Values && e.definition.initial.Some? ==> e.value == InitialValue(e, above)
  {
    assert w.EndpointsPlaced(n) && w.EndpointsOwned();
    hide World.Valid;
    assert forall e :: e in w.eps ==> e.value == now[e];
    forall e | e in n.endpoints.Values ensures e in w.eps && e.node == n {
      var k :| k in n.endpoints && n.endpoints[k] == e;
    }
    forall e | e in w.eps && e.node == n ensures e in n.endpoints.Values {
      assert n.endpoints[e.name] == e;
    }
  }

  lemma OwnersLive(w: World)
    requires w.Valid()
    ensures forall e :: e in w.eps ==> e.node in w.live
  {
    assert w.EndpointsOwned();
  }

  /** A switch that starts on shows, once initialised, what is above it. */
  lemma StartsLikeAbove(w: World, n: Node, above: bool)
    requires WellTyped(w.live, w.eps) && n in w.live && StartsOn(n.iface)
    requires forall e :: e in n.endpoints.Values && e.definition.initial.Some? ==> e.value == InitialValue(e, above)
    requires w.Valid()
    ensures ACTIVE in n.endpoints && n.iface.kind != CONTAINER ==> n.endpoints[ACTIVE].value == Flag(above)
  {
    if ACTIVE in n.endpoints {
      var e := n.endpoints[ACTIVE];
      EndpointOf(w, n, ACTIVE);
      TypedAt(w.live, w.eps, n, e);
      hide World.Valid, WellTyped;
      assert e in n.endpoints.Values && e.definition in n.iface.endpoints && e.definition.name == ACTIVE;
    }
  }

  /** A switch is on by default. */
  ghost predicate StartsOn(iface: Interface) {
    forall i :: 0 <= i < |iface.endpoints| && iface.endpoints[i].name == ACTIVE ==>
      iface.endpoints[i].initial == Flag(true)
  }
}
