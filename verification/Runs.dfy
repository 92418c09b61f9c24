/**
 Whole runs of the server: any sequence of commands from a client that keeps to what a move demands.
 */
module Runs {
  import opened Paths
  import opened Values
  import opened Forest
  import opened StateTables
  import opened Relocation
  import opened Relinking
  import opened Growth
  import opened Naming
  import opened Connections
  import opened Activation
  import opened Servers
  import opened Commands
  import opened Creation
  import opened Constraints

  // ---------------------------------------------------------------- toggling a container

  lemma ToggleFits(w: World, n: Node, value: int)
    requires w.Valid() && WellTyped(w.live, w.eps) && n in w.live && n.iface.kind == CONTAINER
    ensures ACTIVE in n.endpoints && n.endpoints[ACTIVE] in w.eps
    ensures var e := n.endpoints[ACTIVE];
            var set_: Valuation := ValuesOf(w.eps)[e := Some(IntegerValue(value))];
            TypedValues(set_) && (On(Switches(w.live), set_, n) <==> value != 0)
  {
    hide *;
    SwitchOf(w, n);
    SwitchIs(w, n);
    WellTypedValues(w.live, w.eps);
    SwitchIsSet(ValuesOf(w.eps), Switches(w.live), n, n.endpoints[ACTIVE], value);
  }

  lemma SwitchIsSet(values: Valuation, sw: map<Node, NodeEndpoint>, n: Node, e: NodeEndpoint, value: int)
    requires TypedValues(values) && e in values && values[e].Some? && values[e].value.IntegerValue?
    requires n in sw && sw[n] == e
    ensures TypedValues(values[e := Some(IntegerValue(value))])
    ensures On(sw, values[e := Some(IntegerValue(value))], n) <==> value != 0
  {
  }

  /** A listed path belongs to a node with a switch. */
  ghost predicate AreSwitched(w: World, list: seq<Path>)
    reads w.live`path, w.live`endpoints
  {
    forall p :: p in list ==> exists m :: m in w.live && m.path == p && ACTIVE in m.endpoints
  }

  lemma ListedAreSwitched(w: World, list: seq<Path>, now: Valuation, before: Valuation, n: Node)
    requires w.Valid() && n in w.Paths()
    requires Listed(list, [], TurnedOn(now, before, w.Paths(), Switches(w.live), Below(w.Paths(), n)))
    ensures AreSwitched(w, list)
  {
    SnapshotsAre(w);
    hide World.Valid;
    forall p | p in list ensures exists m :: m in w.live && m.path == p && ACTIVE in m.endpoints {
      var m :| m in Below(w.Paths(), n) && TurnedOnAt(now, before, w.Paths(), Switches(w.live), m) && w.Paths()[m] == p;
      assert m in w.live && m.path == p && m in Switches(w.live);
    }
  }

  lemma SwitchedAt(w: World, list: seq<Path>, p: Path)
    requires w.Valid() && AreSwitched(w, list) && p in list
    ensures IsPath(p) && exists m :: m in w.live && m.path == p && ACTIVE in m.endpoints
    ensures forall m :: m in w.live && m.path == p ==> ACTIVE in m.endpoints && m.endpoints[ACTIVE] in w.eps
  {
    var m :| m in w.live && m.path == p && ACTIVE in m.endpoints;
    PathLegal(w, m);
    EndpointOf(w, m, ACTIVE);
    forall l | l in w.live && l.path == p ensures l == m {
      PathUnique(w, l, m);
    }
  }

  lemma SetToItself(values: Valuation, e: NodeEndpoint)
    requires e in values
    ensures values[e := values[e]] == values
  {
  }

  /** Sets one switch to what it holds. */
  method ReactivateOne(s: Server, m: Node, ghost w: World)
    requires s.Valid() && w == s.W() && m in s.live && ACTIVE in m.endpoints && m.endpoints[ACTIVE] in s.eps
    modifies s.eps`value
    ensures s.Valid() && ValuesOf(w.eps) == old(ValuesOf(w.eps))
  {
    hide *;
    s.ValidParts();
    s.WIs();
    WellTypedValues(s.live, s.eps);
    ValuesAndScopes(w.eps);
    SetToItself(ValuesOf(w.eps), m.endpoints[ACTIVE]);
    SetValue(m.endpoints[ACTIVE], m.endpoints[ACTIVE].value, w.eps);
    assert w.Valid();
    TypedAgain(s);
  }

  /** Sets the switches that have been turned on once more; each listed node is still found. */
  method Reactivate(s: Server, list: seq<Path>, ghost w: World)
    requires s.Valid() && w == s.W() && AreSwitched(w, list)
    modifies s.eps`value
    ensures s.Valid() && ValuesOf(w.eps) == old(ValuesOf(w.eps))
  {
    hide *;
    s.ValidParts();
    s.WIs();
    ghost var values := ValuesOf(w.eps);
    for i := 0 to |list|
      invariant s.Valid() && ValuesOf(w.eps) == values && s.W() == w
    {
      SwitchedAt(w, list, list[i]);
      var m := s.FindNode(list[i]);
      assert m != null;
      ReactivateOne(s, m, w);
    }
  }

  /** Setting a container's own switch. */
  class ToggleCommand {
    const path: Path
    const value: int

    constructor (path: Path, value: int)
      ensures this.path == path && this.value == value
    {
      this.path, this.value := path, value;
    }

    /** What the toggle makes of the values: the container's own switch, and then all switches below it. */
    ghost predicate Toggled(w: World, before: Valuation, n: Node)
      reads w.live`path, w.live`endpoints, w.eps`value
    {
      && n in w.live && ACTIVE in n.endpoints && n in w.Paths()
      && var set_: Valuation := before[n.endpoints[ACTIVE] := Some(IntegerValue(value))];
         Activated(ValuesOf(w.eps), set_, w.Paths(), Switches(w.live), Below(w.Paths(), n), n.path,
                   AllOnAbove(w.Paths(), Switches(w.live), set_, n.path))
    }

    /** Only containers are toggled here. */
    ghost predicate Demands(w: World)
      reads w.live`path
    {
      forall m :: m in w.live && m.path == path ==> m.iface.kind == CONTAINER
    }

    method Execute(s: Server) returns (error: CommandError, ghost n: Node?)
      requires s.Valid() && IsPath(path) && Demands(s.W())
      modifies s.eps`value
      ensures s.Valid()
      ensures old(Series(s.W())) ==> Series(s.W())
      ensures n == null <==> forall m :: m in s.live ==> m.path != path
      ensures error == if n == null then PATH_ERROR
                       else if !(ACTIVE in n.endpoints && n.endpoints[ACTIVE].definition.Allows(IntegerValue(value))) then CONSTRAINT_ERROR
                       else SUCCESS
      ensures error != SUCCESS ==> unchanged(s.eps)
      ensures error == SUCCESS ==> n != null && n.path == path && Toggled(s.W(), old(ValuesOf(s.eps)), n)
      ensures error == SUCCESS ==> "active" in n.endpoints && n.endpoints["active"].value == Some(IntegerValue(value))
    {
      hide *;
      ghost var w := s.W();
      s.ValidParts();
      s.WIs();
      SeriesIs(w);
      ValuesAndScopes(s.eps);
      var node := s.FindNode(path);
      n := node;
      if node == null {
        return PATH_ERROR, null;
      }
      DemandsOf(w, node);
      ToggleFits(w, node, value);
      if !node.endpoints[ACTIVE].definition.Allows(IntegerValue(value)) {
        return CONSTRAINT_ERROR, node;
      }
      Perform(s, node, w);
      s.ValidParts();
      SnapshotsAre(w);
      ToggledKeepsSeries(w, old(ValuesOf(w.eps)), node);
      OwnSwitchIsSet(w, old(ValuesOf(w.eps)), node);
      error := SUCCESS;
    }

    lemma OwnSwitchIsSet(w: World, before: Valuation, n: Node)
      requires w.Valid() && Toggled(w, before, n) && n.iface.kind == CONTAINER
      ensures "active" in n.endpoints && n.endpoints["active"].value == Some(IntegerValue(value))
    {
      EndpointOf(w, n, ACTIVE);
      WorldFits(w);
      assert ValuesOf(w.eps)[n.endpoints[ACTIVE]] == n.endpoints[ACTIVE].value;
      hide World.Valid, AllOnAbove, LitFrom;
    }

    lemma DemandsOf(w: World, n: Node)
      requires Demands(w) && n in w.live && n.path == path
      ensures n.iface.kind == CONTAINER
    {
    }

    lemma ToggledKeepsSeries(w: World, before: Valuation, n: Node)
      requires w.Valid() && WellTyped(w.live, w.eps) && before.Keys == w.eps && n.iface.kind == CONTAINER
      requires Toggled(w, before, n)
      ensures InSeries(w.Paths(), Switches(w.live), before) ==> Series(w)
    {
      SnapshotsAre(w);
      WorldFits(w);
      ContainersHaveSwitches(w);
      hide World.Valid, WellTyped, InSeries, Activated, AllOnAbove;
      if InSeries(w.Paths(), Switches(w.live), before) {
        var set_: Valuation := before[n.endpoints[ACTIVE] := Some(IntegerValue(value))];
        ToggleKeepsSeries(ValuesOf(w.eps), set_, before, w.Paths(), Switches(w.live), n, Some(IntegerValue(value)));
      }
    }

    lemma MakeToggled(w: World, before: Valuation, n: Node)
      requires n in w.live && ACTIVE in n.endpoints
      requires n in w.Paths()
      requires var set_: Valuation := before[n.endpoints[ACTIVE] := Some(IntegerValue(value))];
               Activated(ValuesOf(w.eps), set_, w.Paths(), Switches(w.live), Below(w.Paths(), n), n.path,
                         AllOnAbove(w.Paths(), Switches(w.live), set_, n.path))
      ensures Toggled(w, before, n)
    {
    }

    /** Sets the switch of the container, and what the container does in consequence. */
    method Perform(s: Server, n: Node, ghost w: World)
      requires s.Valid() && n in s.live && w == s.W() && n.iface.kind == CONTAINER
      modifies s.eps`value
      ensures s.Valid() && Toggled(s.W(), old(ValuesOf(s.eps)), n)
    {
      hide *;
      s.ValidParts();
      s.WIs();
      PathsAt(w, n);
      ToggleFits(w, n, value);
      WellTypedValues(s.live, s.eps);
      SetValue(n.endpoints[ACTIVE], Some(IntegerValue(value)), w.eps);
      WellTypedValues(s.live, s.eps);
      ghost var set_ := ValuesOf(w.eps);
      var list := ActivateChildren(n, value != 0, w);
      WellTypedValues(s.live, s.eps);
      assert w.Valid();
      TypedAgain(s);
      ListedAreSwitched(w, list, ValuesOf(w.eps), set_, n);
      Reactivate(s, list, w);
      MakeToggled(w, old(ValuesOf(s.eps)), n);
    }
  }

  // ---------------------------------------------------------------- the series property under the other commands

  /** The rewriting of connections leaves switches alone. */
  lemma SwitchesNotRewritten(w: World, before: Valuation, p: Path, edit: Edit)
    requires w.Valid() && Scopes(w.eps).Keys == w.eps
    requires Rewritten(ValuesOf(w.eps), before, Scopes(w.eps), EndsAbove(w.eps, Scopes(w.eps), p), edit)
    ensures forall m :: m in Switches(w.live) ==>
              && Switches(w.live)[m] in before && Switches(w.live)[m] in ValuesOf(w.eps)
              && ValuesOf(w.eps)[Switches(w.live)[m]] == before[Switches(w.live)[m]]
  {
    hide *;
    SnapshotsAre(w);
    forall m | m in Switches(w.live)
      ensures Switches(w.live)[m] in before && ValuesOf(w.eps)[Switches(w.live)[m]] == before[Switches(w.live)[m]]
    {
      EndpointOf(w, m, ACTIVE);
      NotRewritten(ValuesOf(w.eps), before, Scopes(w.eps), w.eps, p, edit, m.endpoints[ACTIVE]);
    }
  }

  lemma NotRewritten(now: Valuation, before: Valuation, scopes: map<NodeEndpoint, Path>, eps: set<NodeEndpoint>,
                     p: Path, edit: Edit, e: NodeEndpoint)
    requires scopes.Keys == eps && Rewritten(now, before, scopes, EndsAbove(eps, scopes, p), edit)
    requires e in now && e.name == ACTIVE
    ensures e in before && now[e] == before[e]
  {
  }

  lemma RenamedInSeries(w: World, was: map<Node, Path>, wasE: map<NodeEndpoint, Path>, before: Valuation, n: Node, edit: Edit)
    requires w.Valid() && Updated(w, was, wasE, before, n, edit, edit.to)
    requires IsRename(edit.root, edit.to) && NothingThere(was, edit.root, edit.to)
    requires InSeries(was, Switches(w.live), before)
    ensures Series(w)
  {
    hide World.Valid, InSeries;
    SwitchesNotRewritten(w, before, edit.to, edit);
    RenameKeepsSeries(ValuesOf(w.eps), before, w.Paths(), was, Switches(w.live), n, edit.to);
  }

  lemma DeletedInSeries(w: World, was: map<Node, Path>, sw: map<Node, NodeEndpoint>, before: Valuation, root: Path)
    requires w.Valid() && InSeries(was, sw, before) && w.live <= was.Keys
    requires forall m :: m in was ==> (m in w.live <==> !Under(root, was[m]))
    requires forall m :: m in w.live ==> m.path == was[m] && (m in sw <==> ACTIVE in m.endpoints)
    requires forall m :: m in w.live && m in sw ==>
               sw[m] == m.endpoints[ACTIVE] && sw[m] in before && before[sw[m]] == m.endpoints[ACTIVE].value
    ensures Series(w)
  {
    SnapshotsAre(w);
    hide World.Valid, InSeries;
    DeletionKeepsSeries(ValuesOf(w.eps), before, w.Paths(), was, Switches(w.live), sw, root);
  }

  // ---------------------------------------------------------------- runs

  datatype Request =
    | New(iface: Option<Interface>, name: string, parent: Path)
    | Delete(path: Path)
    | Rename(path: Path, name: string)
    | Move(path: Path, parent: Path)
    | Toggle(path: Path, value: int)
  {
    ghost predicate Legal() {
      match this
      case New(iface, _, parent) => IsPath(parent) && (iface.Some? ==> iface.value.Valid())
      case Delete(path) => IsPath(path)
      case Rename(path, _) => IsPath(path)
      case Move(path, parent) => IsPath(path) && IsPath(parent)
      case Toggle(path, _) => IsPath(path)
    }

    /** Requests that keep the series property: all but moves, if switches are on by default. */
    ghost predicate KeepsSeries() {
      !Move? && (New? && iface.Some? ==> StartsOn(iface.value))
    }
  }

  /** Control points hang below envelopes, scenes below players, and all else below containers or at the top. */
  ghost predicate KindsFit(live: set<Node>)
    reads live`parent
  {
    forall n :: n in live ==>
      if n.iface.kind == CONTROL_POINT then n.parent != null && n.parent.iface.kind == ENVELOPE
      else if n.iface.kind == SCENE then n.parent != null && n.parent.iface.kind == PLAYER
      else n.parent != null ==> n.parent.iface.kind == CONTAINER
  }

  lemma KindsFitWithNew(live: set<Node>, before: set<Node>, n: Node)
    requires KindsFit(before) && live == before + {n} && CanBeChildOf(n.iface.kind, n.parent)
    ensures KindsFit(live)
  {
    MayHangMeans(n.iface.kind, KindOf(n.parent));
  }

  ghost function Parents(live: set<Node>): map<Node, Node?>
    reads live`parent
  {
    map n | n in live :: n.parent
  }

  ghost predicate FitBefore(parents: map<Node, Node?>) {
    forall n :: n in parents ==> CanBeChildOf(n.iface.kind, parents[n])
  }

  lemma KindsFitIs(live: set<Node>)
    ensures KindsFit(live) <==> FitBefore(Parents(live))
    ensures Parents(live).Keys == live && forall m :: m in live ==> Parents(live)[m] == m.parent
  {
    forall n | n in live ensures Parents(live)[n] == n.parent {
      MayHangMeans(n.iface.kind, KindOf(n.parent));
    }
    assert KindsFit(live) ==> FitBefore(Parents(live));
    if FitBefore(Parents(live)) {
      forall n | n in live ensures CanBeChildOf(n.iface.kind, n.parent) {
        assert CanBeChildOf(n.iface.kind, Parents(live)[n]);
      }
    }
  }

  lemma KindsFitMoved(live: set<Node>, before: map<Node, Node?>, n: Node)
    requires FitBefore(before) && before.Keys == live && n in live && CanBeChildOf(n.iface.kind, n.parent)
    requires forall m :: m in live && m != n ==> m.parent == before[m]
    ensures KindsFit(live)
  {
    KindsFitIs(live);
    hide CanBeChildOf;
  }

  lemma KindsFitOfFewer(live: set<Node>, before: set<Node>)
    requires KindsFit(before) && live <= before
    ensures KindsFit(live)
  {
  }

  method ServeNew(s: Server, iface: Option<Interface>, name: string, parent: Path)
    requires s.Valid() && IsPath(parent) && (iface.Some? ==> iface.value.Valid())
    modifies s`nodes, s`live, s`eps, s`nextInternalId, s.table, s.live`children, s.eps`value
    ensures s.Valid() && s.table.tracedErrors == old(s.table.tracedErrors)
    ensures fresh(s.live - old(s.live)) && fresh(s.eps - old(s.eps))
    ensures old(Series(s.W())) && (iface.Some? ==> StartsOn(iface.value)) ==> Series(s.W())
    ensures old(AllMeet(ValuesOf(s.eps))) ==> AllMeet(ValuesOf(s.eps))
    ensures old(KindsFit(s.live)) ==> KindsFit(s.live)
  {
    hide *;
    ghost var w, inSeries, before, eps := s.W(), Series(s.W()), ValuesOf(s.eps), s.eps;
    ValuesAndScopes(s.eps);
    ghost var live, kindsFit := s.live, KindsFit(s.live);
    var c := new NewCommand(iface, name, parent);
    assert s.W() == w && Series(w) == inSeries;
    var error, n, p := c.Execute(s);
    assert KindsFit(live) == kindsFit;
    if kindsFit && error == SUCCESS {
      KindsFitWithNew(s.live, live, n);
    }
    ValuesAndScopes(s.eps);
    if old(AllMeet(ValuesOf(s.eps))) {
      if error == SUCCESS {
        s.ValidParts();
        s.WIs();
        MetWithNew(s.W(), ValuesOf(s.eps), before, AllOnAbove(s.W().Paths(), Switches(s.live), ValuesOf(s.eps), n.path));
      } else {
        MetOfFewer(ValuesOf(s.eps), before);
      }
    }
  }

  method ServeToggle(s: Server, path: Path, value: int)
    requires s.Valid() && IsPath(path)
    modifies s.eps`value
    ensures s.Valid()
    ensures old(Series(s.W())) ==> Series(s.W())
    ensures old(AllMeet(ValuesOf(s.eps))) ==> AllMeet(ValuesOf(s.eps))
    ensures old(KindsFit(s.live)) ==> KindsFit(s.live)
  {
    hide *;
    ghost var w, inSeries, before := s.W(), Series(s.W()), ValuesOf(s.eps);
    ValuesAndScopes(s.eps);
    s.WIs();
    var c := new ToggleCommand(path, value);
    assert s.W() == w && Series(w) == inSeries && ValuesOf(s.eps) == before;
    var may := MayToggle(s, c);
    assert s.W() == w && Series(w) == inSeries && ValuesOf(s.eps) == before;
    if may {
      var error, n := c.Execute(s);
      if error == SUCCESS {
        s.ValidParts();
        s.WIs();
        MetAfterToggle(c, w, before, n);
      } else {
        ValuesAndScopes(s.eps);
        assert ValuesOf(s.eps) == before;
      }
    }
  }

  lemma MetAfterToggle(c: ToggleCommand, w: World, before: Valuation, n: Node)
    requires w.Valid() && WellTyped(w.live, w.eps) && before.Keys == w.eps
    requires c.Toggled(w, before, n) && n.endpoints[ACTIVE].definition.Allows(IntegerValue(c.value))
    ensures AllMeet(before) ==> AllMeet(ValuesOf(w.eps))
  {
    hide *;
    ToggledIs(c, w, before, n);
    EndpointOf(w, n, ACTIVE);
    WorldFits(w);
    if AllMeet(before) {
      var set_: Valuation := before[n.endpoints[ACTIVE] := Some(IntegerValue(c.value))];
      MetAfterSetting(before, n.endpoints[ACTIVE], IntegerValue(c.value));
      MetAfterActivating(w, ValuesOf(w.eps), set_, Below(w.Paths(), n), n.path, AllOnAbove(w.Paths(), Switches(w.live), set_, n.path));
    }
  }

  lemma ToggledIs(c: ToggleCommand, w: World, before: Valuation, n: Node)
    requires c.Toggled(w, before, n)
    ensures n in w.live && ACTIVE in n.endpoints && n in w.Paths()
    ensures var set_: Valuation := before[n.endpoints[ACTIVE] := Some(IntegerValue(c.value))];
            Activated(ValuesOf(w.eps), set_, w.Paths(), Switches(w.live), Below(w.Paths(), n), n.path,
                      AllOnAbove(w.Paths(), Switches(w.live), set_, n.path))
  {
  }

  method ServeRename(s: Server, path: Path, name: string)
    requires s.Valid() && IsPath(path)
    modifies s`nodes, s.table, s.live`name, s.live`path, s.live`children, s.eps`path, s.eps`value
    ensures s.Valid() && s.table.tracedErrors == old(s.table.tracedErrors)
    ensures old(Series(s.W())) ==> Series(s.W())
    ensures old(AllMeet(ValuesOf(s.eps))) ==> AllMeet(ValuesOf(s.eps))
    ensures old(KindsFit(s.live)) ==> KindsFit(s.live)
  {
    hide *;
    s.ValidParts();
    s.WIs();
    SeriesIs(s.W());
    WellTypedEndsAreTexts(s.W());
    ValuesAndScopes(s.eps);
    ghost var was, wasE, before := s.W().Paths(), s.W().EndpointPaths(), ValuesOf(s.eps);
    ghost var sw, inSeries, w := Switches(s.live), Series(s.W()), s.W();
    var c := new RenameCommand(path, name);
    var error, n := c.Execute(s);
    s.ValidParts();
    s.WIs();
    if inSeries {
      if error == SUCCESS {
        RenamedInSeries(s.W(), was, wasE, before, n, Renaming(path, Init(path) + [c.newName]));
      } else {
        assert s.W() == w && Series(w);
      }
    }
    if error == SUCCESS {
      MetAfterUpdate(s.W(), was, wasE, before, n, Renaming(path, Init(path) + [c.newName]), Init(path) + [c.newName]);
    } else {
      ValuesAndScopes(s.eps);
      assert ValuesOf(s.eps) == before;
    }
  }

  lemma MetAfterUpdate(w: World, was: map<Node, Path>, wasE: map<NodeEndpoint, Path>, before: Valuation, n: Node, edit: Edit, p: Path)
    requires w.Valid() && Updated(w, was, wasE, before, n, edit, p) && EndsAreTexts(before)
    ensures AllMeet(before) ==> AllMeet(ValuesOf(w.eps))
  {
    hide World.Valid, AllMeet, EndsAreTexts, Rewritten;
    if AllMeet(before) {
      MetAfterRewriting(ValuesOf(w.eps), before, Scopes(w.eps), w.eps, p, edit);
    }
  }

  lemma LiveUnderIs(live: set<Node>, p: Path)
    ensures forall m :: m in LiveUnder(live, p) <==> m in live && Under(p, m.path)
  {
  }

  method ServeDelete(s: Server, path: Path)
    requires s.Valid() && IsPath(path)
    modifies s`nodes, s`live, s`eps, s.table, s.live`children
    ensures s.Valid() && s.table.tracedErrors == old(s.table.tracedErrors)
    ensures s.live <= old(s.live) && s.eps <= old(s.eps)
    ensures old(Series(s.W())) ==> Series(s.W())
    ensures old(AllMeet(ValuesOf(s.eps))) ==> AllMeet(ValuesOf(s.eps))
    ensures old(KindsFit(s.live)) ==> KindsFit(s.live)
  {
    hide *;
    s.ValidParts();
    s.WIs();
    SeriesIs(s.W());
    SnapshotsAre(s.W());
    ghost var was, before, sw, inSeries := s.W().Paths(), ValuesOf(s.eps), Switches(s.live), Series(s.W());
    ghost var w, under, live, kindsFit := s.W(), LiveUnder(s.live, path), s.live, KindsFit(s.live);
    LiveUnderIs(s.live, path);
    ValuesAndScopes(s.eps);
    var error, n := s.Delete(path);
    assert KindsFit(live) == kindsFit;
    if kindsFit {
      KindsFitOfFewer(s.live, live);
    }
    s.ValidParts();
    s.WIs();
    ValuesAndScopes(s.eps);
    if old(AllMeet(ValuesOf(s.eps))) {
      MetOfFewer(ValuesOf(s.eps), before);
    }
    if inSeries {
      if n == null {
        assert s.W() == w && Series(w);
      } else {
        assert s.live == old(s.live) - under;
        DeletedInSeries(s.W(), was, sw, before, path);
      }
    }
  }

  /** What a client asks before a move: whether the server's state meets the demands of the command. */
  method MayMove(s: Server, c: MoveCommand) returns (may: bool)
    requires s.Valid() && IsPath(c.nodePath) && IsPath(c.newParentPath)
    ensures may <==> c.Demands(s.W())
  {
    hide *;
    s.ValidParts();
    s.WIs();
    var n := s.FindNode(c.nodePath);
    if n == null {
      NothingDemanded(c, s.W());
      return true;
    }
    var p := s.FindNode(c.newParentPath);
    SiblingsAre(s, p);
    DemandsAre(c, s.W(), n, p);
    may := !Under(c.nodePath, c.newParentPath) && CanBeChildOf(n.iface.kind, p)
           && (n.name !in SiblingMap(s.nodes, p) || n.parent == p);
  }

  lemma NothingDemanded(c: MoveCommand, w: World)
    requires forall m :: m in w.live ==> m.path != c.nodePath
    ensures c.Demands(w)
  {
  }

  lemma DemandsAre(c: MoveCommand, w: World, n: Node, p: Node?)
    requires w.Valid() && n in w.live && n.path == c.nodePath
    requires p != null ==> p in w.live && p.path == c.newParentPath
    requires p == null ==> forall m :: m in w.live ==> m.path != c.newParentPath
    ensures c.Demands(w) <==>
              && !Under(c.nodePath, c.newParentPath) && CanBeChildOf(n.iface.kind, p)
              && (n.name !in Siblings(w, p) || n.parent == p)
  {
    forall m | m in w.live ensures (m.path == n.path <==> m == n) && (p != null ==> (m.path == p.path <==> m == p)) {
      PathUnique(w, m, n);
      if p != null {
        PathUnique(w, m, p);
      }
    }
    hide World.Valid, CanBeChildOf, Under;
  }

  method MayToggle(s: Server, c: ToggleCommand) returns (may: bool)
    requires s.Valid() && IsPath(c.path)
    ensures may <==> c.Demands(s.W())
  {
    hide *;
    s.ValidParts();
    s.WIs();
    var n := s.FindNode(c.path);
    if n == null {
      NoToggleDemanded(c, s.W());
      return true;
    }
    ToggleDemandsAre(c, s.W(), n);
    may := n.iface.kind == CONTAINER;
  }

  lemma NoToggleDemanded(c: ToggleCommand, w: World)
    requires forall m :: m in w.live ==> m.path != c.path
    ensures c.Demands(w)
  {
  }

  lemma ToggleDemandsAre(c: ToggleCommand, w: World, n: Node)
    requires w.Valid() && n in w.live && n.path == c.path
    ensures c.Demands(w) <==> n.iface.kind == CONTAINER
  {
    forall m | m in w.live && m.path == n.path ensures m == n {
      PathUnique(w, m, n);
    }
    hide World.Valid;
  }

  method ServeMove(s: Server, path: Path, parent: Path)
    requires s.Valid() && IsPath(path) && IsPath(parent)
    modifies s`nodes, s.table, s.live`parent, s.live`path, s.live`children, s.eps`path, s.eps`value
    ensures s.Valid() && s.table.tracedErrors == old(s.table.tracedErrors)
    ensures old(AllMeet(ValuesOf(s.eps))) ==> AllMeet(ValuesOf(s.eps))
    ensures old(KindsFit(s.live)) ==> KindsFit(s.live)
  {
    hide *;
    var c := new MoveCommand(path, parent);
    var may := MayMove(s, c);
    if may {
      Move(s, c);
    }
  }

  /** A move whose demands are met. */
  method Move(s: Server, c: MoveCommand)
    requires s.Valid() && IsPath(c.nodePath) && IsPath(c.newParentPath) && c.Demands(s.W())
    modifies s`nodes, s.table, s.live`parent, s.live`path, s.live`children, s.eps`path, s.eps`value
    ensures s.Valid() && s.table.tracedErrors == old(s.table.tracedErrors)
    ensures old(AllMeet(ValuesOf(s.eps))) ==> AllMeet(ValuesOf(s.eps))
    ensures old(KindsFit(s.live)) ==> KindsFit(s.live)
  {
    hide *;
    s.ValidParts();
    s.WIs();
    WellTypedEndsAreTexts(s.W());
    ValuesAndScopes(s.eps);
    DemandedKinds(c, s.W());
    KindsFitIs(s.live);
    ghost var was, wasE, before := s.W().Paths(), s.W().EndpointPaths(), ValuesOf(s.eps);
    ghost var parents, kindsFit := Parents(s.live), KindsFit(s.live);
    var error, n, p := c.Execute(s);
    s.ValidParts();
    s.WIs();
    if error == SUCCESS {
      if kindsFit {
        KindsFitMoved(s.live, parents, n);
      }
      ghost var to := old(Destination(p, n.name));
      MetAfterUpdate(s.W(), was, wasE, before, n, Moving(c.nodePath, to), to);
    } else {
      assert KindsFit(s.live) == kindsFit && ValuesOf(s.eps) == before;
    }
  }

  lemma DemandedKinds(c: MoveCommand, w: World)
    requires c.Demands(w)
    ensures forall n :: n in w.live && n.path == c.nodePath && (forall p :: p in w.live ==> p.path != c.newParentPath) ==>
              CanBeChildOf(n.iface.kind, null)
    ensures forall n, p :: n in w.live && n.path == c.nodePath && p in w.live && p.path == c.newParentPath ==>
              CanBeChildOf(n.iface.kind, p)
  {
  }

  /** Serves one request; moves and toggles whose demands are not met are not sent. */
  method Serve(s: Server, r: Request)
    requires s.Valid() && r.Legal()
    modifies s, s.table, s.live, s.eps
    ensures s.Valid() && s.table.tracedErrors == old(s.table.tracedErrors)
    ensures fresh(s.live - old(s.live)) && fresh(s.eps - old(s.eps))
    ensures old(Series(s.W())) && r.KeepsSeries() ==> Series(s.W())
    ensures old(AllMeet(ValuesOf(s.eps))) ==> AllMeet(ValuesOf(s.eps))
    ensures old(KindsFit(s.live)) ==> KindsFit(s.live)
  {
    hide *;
    LegalParts(r);
    match r
    case New(iface, name, parent) =>
      ServeNew(s, iface, name, parent);
    case Delete(path) =>
      ServeDelete(s, path);
    case Rename(path, name) =>
      ServeRename(s, path, name);
    case Move(path, parent) =>
      ServeMove(s, path, parent);
    case Toggle(path, value) =>
      ServeToggle(s, path, value);
  }

  lemma LegalParts(r: Request)
    requires r.Legal()
    ensures r.New? ==> IsPath(r.parent) && (r.iface.Some? ==> r.iface.value.Valid())
    ensures r.Delete? || r.Rename? || r.Move? || r.Toggle? ==> IsPath(r.path)
    ensures r.Move? ==> IsPath(r.parent)
    ensures r.KeepsSeries() <==> !r.Move? && (r.New? && r.iface.Some? ==> StartsOn(r.iface.value))
  {
  }

  /**
   Whatever a client sends, in whatever order: after every request the tree is a tree, its cached
   paths are right, the index files exactly its nodes and endpoints, and no key was ever found
   occupied or missing.  Every node hangs where its kind may.  Every endpoint whose default can be set meets its constraint.  Without moves, every node that is no container is active exactly when all
   containers above it are.
   */
  method Run(requests: seq<Request>) returns (s: Server)
    requires forall i :: 0 <= i < |requests| ==> requests[i].Legal()
    ensures fresh(s) && s.Valid() && s.table.tracedErrors == 0
    ensures AllMeet(ValuesOf(s.eps)) && KindsFit(s.live)
    ensures (forall i :: 0 <= i < |requests| ==> requests[i].KeepsSeries()) ==> Series(s.W())
  {
    hide *;
    s := new Server();
    NothingInSeries(s);
    NothingUnmet(s);
    for i := 0 to |requests|
      invariant fresh(s) && fresh(s.table) && fresh(s.live) && fresh(s.eps)
      invariant s.Valid() && s.table.tracedErrors == 0 && AllMeet(ValuesOf(s.eps)) && KindsFit(s.live)
      invariant (forall j :: 0 <= j < i ==> requests[j].KeepsSeries()) ==> Series(s.W())
    {
      Serve(s, requests[i]);
    }
  }

  lemma NothingUnmet(s: Server)
    requires s.live == {} && s.eps == {}
    ensures AllMeet(ValuesOf(s.eps)) && KindsFit(s.live)
  {
  }

  lemma NothingInSeries(s: Server)
    requires s.live == {}
    ensures Series(s.W())
  {
  }
}
