/**
 The commands that clients send, as objects that are executed on a server.
 */
module Commands {
  import opened Paths
  import opened Values
  import opened Forest
  import opened StateTables
  import opened Relocation
  import opened Relinking
  import opened Growth
  import opened FreshNames
  import opened Decimal
  import opened Naming
  import opened Connections
  import opened Servers

  // ---------------------------------------------------------------- what connections mean, before and after

  /** From the node paths `was`, endpoint paths `wasE` and values `before`: `c`, so read, reached `e`. */
  ghost predicate Reached(how: Reading, was: map<Node, Path>, wasE: map<NodeEndpoint, Path>, before: Valuation,
                          c: NodeEndpoint, e: NodeEndpoint)
    requires c.node in was && c in before && e in wasE
  {
    was[c.node] != [] && Means(how, Init(was[c.node]), TextIn(before[c]), wasE[e])
  }

  /** Paths as a valid tree has them. */
  ghost predicate PathsFit(was: map<Node, Path>, wasE: map<NodeEndpoint, Path>) {
    && (forall n :: n in was ==> IsNodePath(was[n]))
    && (forall e :: e in wasE ==> e.node in was && IsNodeName(e.name) && wasE[e] == was[e.node] + [e.name])
  }

  lemma ValidPathsFit(w: World)
    requires w.Valid()
    ensures PathsFit(w.Paths(), w.EndpointPaths())
  {
    forall n | n in w.live ensures IsNodePath(n.path) {
      PathLegal(w, n);
    }
    forall e | e in w.eps ensures e.node in w.live && IsNodeName(e.name) && e.path == e.node.path + [e.name] {
      assert w.EndpointsOwned() && w.EndpointsPlaced(e.node);
    }
  }

  lemma ReachedIsReaches(how: Reading, w: World, c: NodeEndpoint, e: NodeEndpoint)
    requires w.Valid() && c in w.eps && e in w.eps
    ensures c.node in w.Paths()
    ensures Reached(how, w.Paths(), w.EndpointPaths(), ValuesOf(w.eps), c, e) <==> Reaches(how, c, e)
  {
    assert w.EndpointsOwned();
    PathLegal(w, c.node);
  }

  /** Which endpoints the connections reach, in terms of paths and values of the moment. */
  lemma MeaningBefore(w: World)
    requires w.Valid()
    ensures ValuesOf(w.eps).Keys == w.EndpointPaths().Keys == w.eps
    ensures forall c :: c in w.eps ==>
              && c.node in w.Paths() && w.Paths()[c.node] == c.node.path != []
              && Scope(c) == Init(c.node.path) && Text(c) == TextIn(ValuesOf(w.eps)[c])
    ensures forall how, c, e :: c in w.eps && e in w.eps ==>
              (Reached(how, w.Paths(), w.EndpointPaths(), ValuesOf(w.eps), c, e) <==> Reaches(how, c, e))
    ensures forall e :: e in w.eps ==> w.EndpointPaths()[e] == e.path
  {
    assert w.EndpointsOwned();
    hide World.Valid, Means;
    forall c | c in w.eps
      ensures c.node in w.Paths() && w.Paths()[c.node] == c.node.path != []
      ensures Scope(c) == Init(c.node.path) && Text(c) == TextIn(ValuesOf(w.eps)[c])
    {
      PathLegal(w, c.node);
    }
    forall how, c, e | c in w.eps && e in w.eps
      ensures Reached(how, w.Paths(), w.EndpointPaths(), ValuesOf(w.eps), c, e) <==> Reaches(how, c, e)
    {
      ReachedIsReaches(how, w, c, e);
    }
  }

  /** What the program finds for a target, or for an end of an audio connection, is what the text reaches. */
  method Resolve(s: Server, c: NodeEndpoint) returns (e: NodeEndpoint?)
    requires s.Valid() && c in s.eps && c.value.Some? && c.value.value.StringValue?
    ensures e != null ==> e in s.eps
    ensures forall f :: f in s.eps ==> (Reaches(LookedUp, c, f) <==> f == e)
  {
    hide *;
    s.ValidParts();
    s.WIs();
    MeaningBefore(s.W());
    EndpointIsOwned(s.W(), c);
    ParentScope(s.W(), c.node);
    TextIs(c);
    e := s.FindNodeEndpoint(Parse(c.value.value.s), c.node.parent);
    forall f | f in s.eps
      ensures Reaches(LookedUp, c, f) <==> LookupKey(Init(c.node.path), Parse(Text(c))) == Join(f.path)
    {
      LookedUpIs(c, f);
    }
  }

  lemma EndpointIsOwned(w: World, e: NodeEndpoint)
    requires w.Valid() && e in w.eps
    ensures e.node in w.live
  {
    assert w.EndpointsOwned();
  }

  lemma TextIs(c: NodeEndpoint)
    requires c.value.Some? && c.value.value.StringValue?
    ensures Text(c) == c.value.value.s
  {
  }

  lemma LookedUpIs(c: NodeEndpoint, e: NodeEndpoint)
    requires c.node.path != [] && Scope(c) == Init(c.node.path)
    ensures Reaches(LookedUp, c, e) <==> LookupKey(Init(c.node.path), Parse(Text(c))) == Join(e.path)
  {
  }

  /** An endpoint moves exactly when its node does. */
  lemma EndpointMovesWithNode(q: Path, k: string, root: Path, to: Path)
    ensures EndpointMovedTo(q + [k], root, to) == MovedTo(q, root, to) + [k]
  {
    if Under(root, q) {
      assert (q + [k])[|root|..] == q[|root|..] + [k];
    }
  }

  /** A connection's scope moves with its node when a rename moves the node. */
  lemma ScopeMovesOnRename(q: Path, root: Path, to: Path)
    requires q != [] && IsRename(root, to)
    ensures MovedTo(q, root, to) != [] && Init(MovedTo(q, root, to)) == MovedTo(Init(q), root, to)
    ensures Init(MovedTo(q, root, to)) < to <==> Init(q) < root
    ensures Init(q) < root ==> MovedTo(Init(q), root, to) == Init(q)
  {
    if Under(root, q) {
      if q == root {
        assert !Under(root, Init(root));
      } else {
        assert Under(root, Init(q));
        assert MovedTo(q, root, to) == to + q[|root|..];
      }
    } else {
      assert !Under(root, Init(q));
      ProperPrefixOf(Init(q), root);
      ProperPrefixOf(Init(q), to);
    }
  }

  /** What is known once paths have moved from `root` to `to` and texts have been rewritten. */
  ghost predicate Updated(w: World, was: map<Node, Path>, wasE: map<NodeEndpoint, Path>,
                          before: Valuation, n: Node, edit: Edit, last: Path)
    reads w.live`path, w.eps`path, w.eps`value
    reads set e | e in w.eps :: e.node`path
  {
    && n in was && PathsFit(was, wasE) && was[n] == edit.root
    && Relocated(w.Paths(), was, was, Below(was, n), edit.root, edit.to)
    && EndpointsRelocated(w.EndpointPaths(), wasE, was, Below(was, n), edit.root, edit.to)
    && Rewritten(ValuesOf(w.eps), before, Scopes(w.eps), EndsAbove(w.eps, Scopes(w.eps), last), edit)
  }

  lemma MakeUpdated(w: World, was: map<Node, Path>, wasE: map<NodeEndpoint, Path>,
                    before: Valuation, n: Node, edit: Edit, last: Path)
    requires n in was && PathsFit(was, wasE) && was[n] == edit.root
    requires Relocated(w.Paths(), was, was, Below(was, n), edit.root, edit.to)
    requires EndpointsRelocated(w.EndpointPaths(), wasE, was, Below(was, n), edit.root, edit.to)
    requires Scopes(w.eps).Keys == w.eps
    requires Rewritten(ValuesOf(w.eps), before, Scopes(w.eps), EndsAbove(w.eps, Scopes(w.eps), last), edit)
    ensures Updated(w, was, wasE, before, n, edit, last)
  {
  }

  lemma MovedEndpoint(w: World, was: map<Node, Path>, wasE: map<NodeEndpoint, Path>,
                      before: Valuation, n: Node, edit: Edit, last: Path, e: NodeEndpoint)
    requires Updated(w, was, wasE, before, n, edit, last) && e in w.eps
    ensures e in wasE && e.node in was && IsNodePath(wasE[e]) && e.path == EndpointMovedTo(wasE[e], edit.root, edit.to)
    ensures IsNodePath(was[e.node]) && e.node.path == MovedTo(was[e.node], edit.root, edit.to)
    ensures IsNodePath(edit.root)
  {
    EndpointMovesWithNode(was[e.node], e.name, edit.root, edit.to);
    assert w.EndpointPaths()[e] == e.path;
    assert e.node in w.Paths() && w.Paths()[e.node] == e.node.path;
  }

  lemma RewrittenText(w: World, was: map<Node, Path>, wasE: map<NodeEndpoint, Path>,
                      before: Valuation, n: Node, edit: Edit, last: Path, c: NodeEndpoint)
    requires Updated(w, was, wasE, before, n, edit, last) && c in w.eps && IsConnectionEnd(c)
    ensures c in before
    ensures Text(c) ==
            if Scope(c) < last then Entered(c.definition, edit.Rewrite(Scope(c), TextIn(before[c])), TextIn(before[c])) else TextIn(before[c])
  {
    assert ValuesOf(w.eps)[c] == c.value && Scopes(w.eps)[c] == Scope(c);
  }

  lemma InitIsPath(q: Path)
    requires IsNodePath(q)
    ensures q != [] && IsPath(Init(q))
  {
  }

  lemma ReachesIs(how: Reading, c: NodeEndpoint, e: NodeEndpoint)
    requires c.node.path != []
    ensures Scope(c) == Init(c.node.path)
    ensures Reaches(how, c, e) <==> Means(how, Scope(c), Text(c), e.path)
  {
  }

  lemma ReachedIs(how: Reading, was: map<Node, Path>, wasE: map<NodeEndpoint, Path>, before: Valuation,
                  c: NodeEndpoint, e: NodeEndpoint)
    requires c.node in was && c in before && e in wasE && Reached(how, was, wasE, before, c, e)
    ensures was[c.node] != [] && Means(how, Init(was[c.node]), TextIn(before[c]), wasE[e])
  {
  }

  /** When a rename keeps what the text `v` means that an endpoint defined by `d` holds: if its constraint
      allows the rewritten text, see the naming module; if not, exactly what does not move is kept. */
  predicate KeptByRename(d: EndpointDefinition, how: Reading, scope: Path, v: string, root: Path, to: Path, p: Path) {
    if d.Allows(StringValue(RenamedText(scope, v, root, to))) then KeptOnRename(how, scope, v, root, p)
    else !(scope < root < p)
  }

  /** The rename lemma for a connection whose own path is `q`, which may be in the renamed subtree. */
  lemma RenamedPieces(d: EndpointDefinition, how: Reading, q: Path, v: string, edit: Edit, p: Path)
    requires edit.Renaming? && IsRename(edit.root, edit.to)
    requires IsNodePath(q) && IsNodePath(p) && Means(how, Init(q), v, p)
    ensures MovedTo(q, edit.root, edit.to) != []
    ensures var scope := Init(MovedTo(q, edit.root, edit.to));
            Means(how, scope, if scope < edit.to then Entered(d, edit.Rewrite(scope, v), v) else v, EndpointMovedTo(p, edit.root, edit.to)) <==>
              KeptByRename(d, how, Init(q), v, edit.root, edit.to, p)
  {
    InitIsPath(q);
    assert |edit.root| == |edit.to|;
    hide IsNodePath, IsPath, IsRename, Means, MovedTo, RewriteOnRename, Join, EndpointMovedTo, KeptOnRename, Init, EndpointDefinition.Allows;
    ScopeMovesOnRename(q, edit.root, edit.to);
    RenameKeepsReading(how, Init(q), v, edit.root, edit.to, p);
    if Init(q) < edit.root {
      LeftOnRename(how, Init(q), v, edit.root, edit.to, p);
    } else {
      KeptElsewhere(how, Init(q), v, edit.root, p);
    }
  }

  lemma KeptElsewhere(how: Reading, scope: Path, v: string, root: Path, p: Path)
    requires !(scope < root)
    ensures KeptOnRename(how, scope, v, root, p)
  {
  }

  /** After a rename a connection reaches what it reached before exactly in the cases of `KeptByRename`. */
  lemma ReachedAfterRename(how: Reading, w: World, was: map<Node, Path>, wasE: map<NodeEndpoint, Path>,
                           before: Valuation, n: Node, edit: Edit, c: NodeEndpoint, e: NodeEndpoint)
    requires Updated(w, was, wasE, before, n, edit, edit.to) && edit.Renaming? && IsRename(edit.root, edit.to)
    requires c in w.eps && IsConnectionEnd(c) && e in w.eps
    requires c.node in was && c in before && e in wasE && Reached(how, was, wasE, before, c, e)
    ensures Reaches(how, c, e) <==>
              KeptByRename(c.definition, how, Init(was[c.node]), TextIn(before[c]), edit.root, edit.to, wasE[e])
  {
    hide *;
    MovedEndpoint(w, was, wasE, before, n, edit, edit.to, c);
    MovedEndpoint(w, was, wasE, before, n, edit, edit.to, e);
    RewrittenText(w, was, wasE, before, n, edit, edit.to, c);
    ReachedIs(how, was, wasE, before, c, e);
    RenamedPieces(c.definition, how, was[c.node], TextIn(before[c]), edit, wasE[e]);
    ReachesIs(how, c, e);
  }

  /** The scope of a connection moves with its node, unless that node itself is the one that moves. */
  lemma ScopeMoves(q: Path, root: Path, to: Path)
    requires q != [] && root != [] && q != root
    requires Under(to, q) ==> Under(root, q)
    ensures MovedTo(q, root, to) != [] && Init(MovedTo(q, root, to)) == MovedTo(Init(q), root, to)
    ensures Under(to, Init(q)) ==> Under(root, Init(q))
    ensures Under(root, Init(q)) <==> Under(root, q)
  {
    if Under(root, q) {
      assert Under(root, Init(q));
      assert MovedTo(q, root, to) == to + q[|root|..];
    }
  }

  /** When a move keeps what the text `v` means that an endpoint defined by `d` of a connection at `q`
      holds: if its constraint allows the rewritten text, see the naming module; if not, what does not
      move is kept, or, for the connection that itself moves, what lies below it. */
  predicate KeptByMove(d: EndpointDefinition, q: Path, v: string, root: Path, to: Path, p: Path) {
    if d.Allows(StringValue(MovedText(ScopeOf(if q == root then to else q), v, root, to))) then KeptOnMove(q, v, root, to, p)
    else if q == root then to == root || root < p
    else Under(root, q) || to == root || !(root < p)
  }

  /** The move lemma for a connection whose own path is `q`. */
  lemma MovedPieces(d: EndpointDefinition, how: Reading, q: Path, v: string, edit: Edit, p: Path)
    requires edit.Moving? && IsMove(edit.root, edit.to)
    requires IsNodePath(q) && IsNodePath(p) && Means(how, Init(q), v, p)
    requires Under(edit.to, q) ==> Under(edit.root, q)
    ensures MovedTo(q, edit.root, edit.to) != []
    ensures var scope := Init(MovedTo(q, edit.root, edit.to));
            Means(how, scope, if scope < edit.to then Entered(d, edit.Rewrite(scope, v), v) else v, EndpointMovedTo(p, edit.root, edit.to)) <==>
              KeptByMove(d, q, v, edit.root, edit.to, p)
  {
    hide *;
    InitIsPath(q);
    MoveParts(edit.root, edit.to);
    MovedToSelf(edit.root, edit.to);
    KeptByMoveIs(d, q, v, edit.root, edit.to, p);
    if q == edit.root {
      InitIsBelow(edit.to);
      RewriteIsMovedText(edit, Init(edit.to));
      EnteredIs(d, MovedText(Init(edit.to), v, edit.root, edit.to), v);
      OwnKeptOnMove(how, v, edit.root, edit.to, p);
      OwnLeftOnMove(how, v, edit.root, edit.to, p);
    } else {
      var scope := MovedTo(Init(q), edit.root, edit.to);
      ScopeMoves(q, edit.root, edit.to);
      RewriteIsMovedText(edit, scope);
      EnteredIs(d, MovedText(scope, v, edit.root, edit.to), v);
      MoveKeepsReading(how, q, v, edit.root, edit.to, p);
      KeptOnMoveIs(q, v, edit.root, edit.to, p);
      VisitedIs(scope, edit.to);
      if Under(edit.root, q) {
        MovedInside(Init(q), edit.root, edit.to);
      } else {
        MovedToNothing(Init(q), edit.root, edit.to);
        LeftOnMove(how, Init(q), v, edit.root, edit.to, p);
        MeansBelow(how, Init(q), v, p);
        PrefixesOfOnePath(Init(q), edit.root, p);
      }
    }
  }

  lemma KeptByMoveIs(d: EndpointDefinition, q: Path, v: string, root: Path, to: Path, p: Path)
    requires q != [] && to != []
    ensures KeptByMove(d, q, v, root, to, p) <==>
              if d.Allows(StringValue(MovedText(if q == root then Init(to) else Init(q), v, root, to))) then KeptOnMove(q, v, root, to, p)
              else if q == root then to == root || root < p
              else Under(root, q) || to == root || !(root < p)
  {
  }

  lemma EnteredIs(d: EndpointDefinition, text: string, held: string)
    ensures Entered(d, text, held) == if d.Allows(StringValue(text)) then text else held
  {
  }

  lemma InitIsBelow(q: Path)
    requires q != []
    ensures Init(q) < q
  {
  }

  lemma MovedInside(scope: Path, root: Path, to: Path)
    requires Under(root, scope)
    ensures !(MovedTo(scope, root, to) < to)
  {
  }

  lemma KeptOnMoveIs(q: Path, v: string, root: Path, to: Path, p: Path)
    requires q != [] && q != root
    ensures ScopeOf(q) == Init(q)
    ensures Under(root, q) ==> KeptOnMove(q, v, root, to, p)
    ensures !Under(root, q) && !(Init(q) < to) ==> (KeptOnMove(q, v, root, to, p) <==> !(root < p))
  {
  }

  lemma PrefixesOfOnePath(a: Path, b: Path, p: Path)
    ensures a < p && b < p && !Under(b, a) ==> a < b
  {
  }

  lemma MeansBelow(how: Reading, scope: Path, v: string, p: Path)
    requires IsPath(scope) && IsNodePath(p) && Means(how, scope, v, p)
    ensures scope < p
  {
    if how.Spelled? {
      NamesBelow(scope, v, p);
    } else {
      LeadsBelow(scope, v, p);
    }
  }

  /** No node lies at or below the new place, but for those that move. */
  ghost predicate NothingThere(was: map<Node, Path>, root: Path, to: Path) {
    forall m :: m in was && Under(to, was[m]) ==> Under(root, was[m])
  }

  /** After a move a connection reaches what it reached before exactly in the cases of `KeptByMove`. */
  lemma ReachedAfterMove(how: Reading, w: World, was: map<Node, Path>, wasE: map<NodeEndpoint, Path>,
                         before: Valuation, n: Node, edit: Edit, c: NodeEndpoint, e: NodeEndpoint)
    requires Updated(w, was, wasE, before, n, edit, edit.to) && edit.Moving? && IsMove(edit.root, edit.to)
    requires NothingThere(was, edit.root, edit.to)
    requires c in w.eps && IsConnectionEnd(c) && e in w.eps && c.node in was
    requires c in before && e in wasE && Reached(how, was, wasE, before, c, e)
    ensures Reaches(how, c, e) <==> KeptByMove(c.definition, was[c.node], TextIn(before[c]), edit.root, edit.to, wasE[e])
  {
    hide *;
    MovedEndpoint(w, was, wasE, before, n, edit, edit.to, c);
    MovedEndpoint(w, was, wasE, before, n, edit, edit.to, e);
    RewrittenText(w, was, wasE, before, n, edit, edit.to, c);
    ReachedIs(how, was, wasE, before, c, e);
    NothingThereAt(was, edit.root, edit.to, c.node);
    MovedPieces(c.definition, how, was[c.node], TextIn(before[c]), edit, wasE[e]);
    ReachesIs(how, c, e);
  }

  lemma NothingThereAt(was: map<Node, Path>, root: Path, to: Path, m: Node)
    requires NothingThere(was, root, to) && m in was
    ensures Under(to, was[m]) ==> Under(root, was[m])
  {
  }

  // ---------------------------------------------------------------- rename

  /** What is reached after a rename: if the constraint lets the rewritten text be, what the naming module
      says is kept; if not, exactly what does not move. */
  lemma AllReachedAfterRename(w: World, was: map<Node, Path>, wasE: map<NodeEndpoint, Path>,
                              before: Valuation, n: Node, edit: Edit)
    requires Updated(w, was, wasE, before, n, edit, edit.to) && edit.Renaming? && IsRename(edit.root, edit.to)
    requires before.Keys == wasE.Keys == w.eps && forall c :: c in w.eps ==> c.node in was
    requires w.Valid() && WellTyped(w.live, w.eps)
    ensures forall how, c, e :: c in w.eps && IsEnd(c) && e in w.eps && Reached(how, was, wasE, before, c, e) ==>
              was[c.node] != []
              && (Reaches(how, c, e) <==>
                    var scope, text := Init(was[c.node]), RenamedText(Init(was[c.node]), TextIn(before[c]), edit.root, edit.to);
                    if (match c.definition.constraint
                        case Range(lo, hi) => lo.IntegerValue? && hi.IntegerValue? && lo.i <= |text| <= hi.i
                        case Allowed(states) => StringValue(text) in states)
                    then KeptOnRename(how, scope, TextIn(before[c]), edit.root, wasE[e])
                    else !(scope < edit.root < wasE[e]))
  {
    hide *;
    forall how, c, e | c in w.eps && IsEnd(c) && e in w.eps && Reached(how, was, wasE, before, c, e)
      ensures was[c.node] != []
              && (Reaches(how, c, e) <==>
                    var scope, text := Init(was[c.node]), RenamedText(Init(was[c.node]), TextIn(before[c]), edit.root, edit.to);
                    if (match c.definition.constraint
                        case Range(lo, hi) => lo.IntegerValue? && hi.IntegerValue? && lo.i <= |text| <= hi.i
                        case Allowed(states) => StringValue(text) in states)
                    then KeptOnRename(how, scope, TextIn(before[c]), edit.root, wasE[e])
                    else !(scope < edit.root < wasE[e]))
    {
      EndHoldsText(w, c);
      ReachedIs(how, was, wasE, before, c, e);
      ReachedAfterRename(how, w, was, wasE, before, n, edit, c, e);
      KeptByRenameMeans(c.definition, how, Init(was[c.node]), TextIn(before[c]), edit.root, edit.to, wasE[e]);
    }
  }

  /** One of the two texts of a connection. */
  ghost predicate IsEnd(c: NodeEndpoint) {
    c.node.iface.kind == CONNECTION && (c.name == "sourcePath" || c.name == "targetPath")
  }

  lemma EndHoldsText(w: World, c: NodeEndpoint)
    requires w.Valid() && WellTyped(w.live, w.eps) && c in w.eps && IsEnd(c)
    ensures IsConnectionEnd(c) && c.definition.initial.Some? && c.definition.initial.value.StringValue?
  {
    assert w.EndpointsOwned() && c.node in w.live && c.node.endpoints[c.name] == c;
    ConnectionHasEnds(w, c.node);
  }

  lemma KeptByRenameMeans(d: EndpointDefinition, how: Reading, scope: Path, v: string, root: Path, to: Path, p: Path)
    requires d.initial.Some? && d.initial.value.StringValue?
    ensures KeptByRename(d, how, scope, v, root, to, p) <==>
              var text := RenamedText(scope, v, root, to);
              if (match d.constraint
                  case Range(lo, hi) => lo.IntegerValue? && hi.IntegerValue? && lo.i <= |text| <= hi.i
                  case Allowed(states) => StringValue(text) in states)
              then KeptOnRename(how, scope, v, root, p)
              else !(scope < root < p)
  {
    TextsFit(d);
    hide EndpointDefinition.Allows, KeptOnRename, RenamedText;
  }

  lemma RenameFits(w: World, n: Node, name: string)
    requires w.Valid() && n in w.live && IsNodeName(name) && name !in Siblings(w, n.parent)
    ensures n.ParentPath() == if n.parent == null then [] else n.parent.path
    ensures n.path != [] && Init(n.path) == n.ParentPath()
    ensures var to := n.ParentPath() + [name];
            IsRename(n.path, to) && Join(n.path[|to| - 1..]) == n.name && Join(to[|to| - 1..]) == name
  {
    PathLegal(w, n);
    assert Placed(n) && w.LinkedUp(n);
    var to := n.ParentPath() + [name];
    assert n.path[|to| - 1..] == [n.name] && to[|to| - 1..] == [name];
  }

  lemma RelocatedRoot(w: World, was: map<Node, Path>, n: Node, root: Path, to: Path)
    requires n in w.live && n in was && was[n] == root
    requires Relocated(w.Paths(), was, was, Below(was, n), root, to)
    ensures n.path == to
  {
    assert w.Paths()[n] == n.path;
    MovedToSelf(root, to);
  }

  lemma InitOfRename(root: Path, to: Path)
    requires IsRename(root, to)
    ensures to != []
  {
  }

  /** A server whose values have changed to other well-typed values is still valid. */
  lemma TypedAgain(s: Server)
    requires s.W().Valid() && FilesNodes(s.table.nodes, s.live) && FilesIds(s.table.nodesById, s.live)
    requires FilesEndpoints(s.table.nodeEndpoints, s.eps) && IdsBelow(s.live, s.nextInternalId)
    requires Declared(s.live) && TypedValues(ValuesOf(s.eps))
    ensures s.Valid()
  {
    WellTypedValues(s.live, s.eps);
  }

  lemma SiblingsAre(s: Server, p: Node?)
    ensures Siblings(s.W(), p) == SiblingMap(s.nodes, p)
  {
  }

  class RenameCommand {
    const path: Path
    var newName: string

    constructor (path: Path, newName: string)
      requires IsPath(path)
      ensures this.path == path && this.newName == newName
    {
      this.path, this.newName := path, newName;
    }

    method Execute(s: Server) returns (error: CommandError, ghost n: Node?)
      requires s.Valid() && IsPath(path)
      modifies `newName, s`nodes, s.table, s.live`name, s.live`path, s.live`children, s.eps`path, s.eps`value
      ensures s.Valid() && s.table.tracedErrors == old(s.table.tracedErrors)
      ensures n == null <==> forall m :: m in s.live ==> old(m.path) != path
      ensures error == if n == null then PATH_ERROR else if !IsNodeName(old(newName)) then INPUT_ERROR else SUCCESS
      ensures error != SUCCESS ==>
                newName == old(newName) && unchanged(s) && unchanged(s.table) && unchanged(s.live) && unchanged(s.eps)
      ensures error == SUCCESS ==>
                && n != null && n in s.live && old(n.path) == path && path != []
                && IsFirstFree(old(Siblings(s.W(), n.parent).Keys), old(newName), newName)
                && n.name == newName
                && n.parent == old(n.parent) && (forall m :: m in s.live && m != n ==> m.name == old(m.name))
                && (forall m :: m in s.live ==>
                      m.children == Edited(old(m.children), m == n.parent, old(n.name), m == n.parent, newName, n))
                && s.nodes == Edited(old(s.nodes), n.parent == null, old(n.name), n.parent == null, newName, n)
                && Updated(s.W(), old(s.W().Paths()), old(s.W().EndpointPaths()), old(ValuesOf(s.eps)), n,
                           Renaming(path, Init(path) + [newName]), Init(path) + [newName])
                && NothingThere(old(s.W().Paths()), path, Init(path) + [newName])
                && IsRename(path, Init(path) + [newName])
      ensures error == SUCCESS ==>
                forall how, c, e :: c in s.eps && IsEnd(c) && e in s.eps && old(Reaches(how, c, e)) ==>
                  (Reaches(how, c, e) <==>
                     var text := RenamedText(old(Scope(c)), old(Text(c)), path, Init(path) + [newName]);
                     if (match c.definition.constraint
                         case Range(lo, hi) => lo.IntegerValue? && hi.IntegerValue? && lo.i <= |text| <= hi.i
                         case Allowed(states) => StringValue(text) in states)
                     then KeptOnRename(how, old(Scope(c)), old(Text(c)), path, old(e.path))
                     else !(old(Scope(c)) < path < old(e.path)))
    {
      hide *;
      s.ValidParts();
      ghost var w, was, wasE, before := s.W(), s.W().Paths(), s.W().EndpointPaths(), ValuesOf(s.eps);
      s.WIs();
      MeaningBefore(w);
      var node := s.FindNode(path);
      n := node;
      if node == null {
        return PATH_ERROR, null;
      }
      if !IsNodeName(newName) {
        return INPUT_ERROR, node;
      }
      TakeFreeName(s, node);
      PerformAndReach(s, node);
      error := SUCCESS;
    }

    method TakeFreeName(s: Server, n: Node)
      requires s.Valid() && n in s.live && IsNodeName(newName)
      modifies `newName
      ensures s.Valid() && s.W() == old(s.W()) && s.W().Paths() == old(s.W().Paths())
      ensures s.W().EndpointPaths() == old(s.W().EndpointPaths()) && ValuesOf(s.eps) == old(ValuesOf(s.eps))
      ensures IsNodeName(newName) && newName !in Siblings(s.W(), n.parent)
      ensures IsFirstFree(old(Siblings(s.W(), n.parent).Keys), old(newName), newName)
    {
      hide *;
      ghost var w, was, wasE, before := s.W(), s.W().Paths(), s.W().EndpointPaths(), ValuesOf(s.eps);
      SiblingsAre(s, n.parent);
      newName := Fresh(SiblingMap(s.nodes, n.parent).Keys, newName);
      assert s.W() == w && w.Paths() == was && w.EndpointPaths() == wasE && ValuesOf(s.eps) == before;
      SiblingsAre(s, n.parent);
    }

    /** The same, with what it means for connections. */
    method PerformAndReach(s: Server, n: Node)
      requires s.Valid() && n in s.live && n.path == path && IsNodeName(newName) && newName !in Siblings(s.W(), n.parent)
      modifies s`nodes, s.table, n`name, s.live`path, s.live`children, s.eps`path, s.eps`value
      ensures s.Valid() && s.table.tracedErrors == old(s.table.tracedErrors)
      ensures path != [] && n.name == newName && n.parent == old(n.parent)
      ensures NothingThere(old(s.W().Paths()), path, Init(path) + [newName])
      ensures IsRename(path, Init(path) + [newName])
      ensures forall m :: m in s.live ==>
                m.children == Edited(old(m.children), m == n.parent, old(n.name), m == n.parent, newName, n)
      ensures s.nodes == Edited(old(s.nodes), n.parent == null, old(n.name), n.parent == null, newName, n)
      ensures Updated(s.W(), old(s.W().Paths()), old(s.W().EndpointPaths()), old(ValuesOf(s.eps)), n,
                      Renaming(path, Init(path) + [newName]), Init(path) + [newName])
      ensures var was, before := old(s.W().Paths()), old(ValuesOf(s.eps));
              forall how, c, e :: c in s.eps && IsEnd(c) && e in s.eps && Reached(how, was, old(s.W().EndpointPaths()), before, c, e) ==>
                (Reaches(how, c, e) <==>
                   var text := RenamedText(Init(was[c.node]), TextIn(before[c]), path, Init(path) + [newName]);
                   if (match c.definition.constraint
                       case Range(lo, hi) => lo.IntegerValue? && hi.IntegerValue? && lo.i <= |text| <= hi.i
                       case Allowed(states) => StringValue(text) in states)
                   then KeptOnRename(how, Init(was[c.node]), TextIn(before[c]), path, old(s.W().EndpointPaths())[e])
                   else !(Init(was[c.node]) < path < old(s.W().EndpointPaths())[e]))
    {
      hide *;
      s.ValidParts();
      ghost var w, was, wasE, before := s.W(), s.W().Paths(), s.W().EndpointPaths(), ValuesOf(s.eps);
      s.WIs();
      MeaningBefore(w);
      Perform(s, n);
      s.ValidParts();
      s.WIs();
      AllReachedAfterRename(s.W(), was, wasE, before, n, Renaming(path, Init(path) + [newName]));
    }

    /** The renaming and the rewriting of connections, once the new name is known to be legal and free. */
    method Perform(s: Server, n: Node)
      requires s.Valid() && n in s.live && n.path == path && IsNodeName(newName) && newName !in Siblings(s.W(), n.parent)
      modifies s`nodes, s.table, n`name, s.live`path, s.live`children, s.eps`path, s.eps`value
      ensures s.Valid() && s.table.tracedErrors == old(s.table.tracedErrors)
      ensures path != [] && n.name == newName && n.parent == old(n.parent)
      ensures NothingThere(old(s.W().Paths()), path, Init(path) + [newName])
      ensures IsRename(path, Init(path) + [newName])
      ensures forall m :: m in s.live ==>
                m.children == Edited(old(m.children), m == n.parent, old(n.name), m == n.parent, newName, n)
      ensures s.nodes == Edited(old(s.nodes), n.parent == null, old(n.name), n.parent == null, newName, n)
      ensures Updated(s.W(), old(s.W().Paths()), old(s.W().EndpointPaths()), old(ValuesOf(s.eps)), n,
                      Renaming(path, Init(path) + [newName]), Init(path) + [newName])
    {
      hide *;
      var previous := n.name;
      ghost var w, was, wasE := s.W(), s.W().Paths(), s.W().EndpointPaths();
      ghost var to := n.ParentPath() + [newName];
      s.ValidParts();
      s.WIs();
      RenameFits(w, n, newName);
      ValidPathsFit(w);
      ValidIsShaped(w, []);
      ValidIsRooted(w);
      s.RenameTo(n, newName, Change(w, n, to));
      CarriedParts(Change(w, n, to), s.W());
      CarriedTarget(Change(w, n, to), s.W());
      s.WIs();
      RelocatedRoot(s.W(), was, n, path, to);
      ghost var w' := s.W();
      HandleRename(s, n, previous, w', Renaming(path, to));
      assert s.W() == w';
      MakeUpdated(w', was, wasE, old(ValuesOf(s.eps)), n, Renaming(path, to), to);
    }
  }

  /** Brings the connections up to date after `n` has got another name. */
  method HandleRename(s: Server, n: Node, previous: string, ghost w: World, ghost edit: Edit)
    requires s.Valid() && n in s.live && w == s.W() && edit.Renaming? && n.path == edit.to
    requires IsRename(edit.root, edit.to)
    requires previous == Join(edit.root[|edit.to| - 1..]) && n.name == Join(edit.to[|edit.to| - 1..])
    modifies s.eps`value
    ensures s.Valid() && Scopes(s.eps).Keys == s.eps
    ensures Rewritten(ValuesOf(s.eps), old(ValuesOf(s.eps)), Scopes(s.eps), EndsAbove(s.eps, Scopes(s.eps), edit.to), edit)
  {
    hide *;
    s.ValidParts();
    InitOfRename(edit.root, edit.to);
    s.WIs();
    ghost var before := ValuesOf(w.eps);
    WellTypedEndsAreTexts(w);
    WellTypedValues(s.live, s.eps);
    ValuesAndScopes(s.eps);
    UpdateConnectionsOnRename(s.nodes, n, previous, n.name, w, edit);
    assert w.Valid();
    RewrittenIsTyped(ValuesOf(s.eps), before, Scopes(s.eps), edit.to, edit);
    TypedAgain(s);
  }

  // ---------------------------------------------------------------- move

  predicate CanBeChildOf(kind: Kind, parent: Node?) {
    MayHang(kind, KindOf(parent))
  }

  /** The same for a move; of what the moved connection itself reached, what lies below it moves along. */
  lemma AllReachedAfterMove(w: World, was: map<Node, Path>, wasE: map<NodeEndpoint, Path>,
                            before: Valuation, n: Node, edit: Edit)
    requires Updated(w, was, wasE, before, n, edit, edit.to) && edit.Moving? && IsMove(edit.root, edit.to)
    requires NothingThere(was, edit.root, edit.to)
    requires before.Keys == wasE.Keys == w.eps && forall c :: c in w.eps ==> c.node in was
    requires w.Valid() && WellTyped(w.live, w.eps)
    ensures forall how, c, e :: c in w.eps && IsEnd(c) && e in w.eps && Reached(how, was, wasE, before, c, e) ==>
              (Reaches(how, c, e) <==>
                 var q, text := was[c.node], MovedText(ScopeOf(if was[c.node] == edit.root then edit.to else was[c.node]), TextIn(before[c]), edit.root, edit.to);
                 if (match c.definition.constraint
                     case Range(lo, hi) => lo.IntegerValue? && hi.IntegerValue? && lo.i <= |text| <= hi.i
                     case Allowed(states) => StringValue(text) in states)
                 then KeptOnMove(q, TextIn(before[c]), edit.root, edit.to, wasE[e])
                 else if q == edit.root then edit.to == edit.root || edit.root < wasE[e]
                 else Under(edit.root, q) || edit.to == edit.root || !(edit.root < wasE[e]))
  {
    hide *;
    forall how, c, e | c in w.eps && IsEnd(c) && e in w.eps && Reached(how, was, wasE, before, c, e)
      ensures (Reaches(how, c, e) <==>
                 var q, text := was[c.node], MovedText(ScopeOf(if was[c.node] == edit.root then edit.to else was[c.node]), TextIn(before[c]), edit.root, edit.to);
                 if (match c.definition.constraint
                     case Range(lo, hi) => lo.IntegerValue? && hi.IntegerValue? && lo.i <= |text| <= hi.i
                     case Allowed(states) => StringValue(text) in states)
                 then KeptOnMove(q, TextIn(before[c]), edit.root, edit.to, wasE[e])
                 else if q == edit.root then edit.to == edit.root || edit.root < wasE[e]
                 else Under(edit.root, q) || edit.to == edit.root || !(edit.root < wasE[e]))
    {
      EndHoldsText(w, c);
      ReachedAfterMove(how, w, was, wasE, before, n, edit, c, e);
      KeptByMoveMeans(c.definition, was[c.node], TextIn(before[c]), edit.root, edit.to, wasE[e]);
    }
  }

  lemma KeptByMoveMeans(d: EndpointDefinition, q: Path, v: string, root: Path, to: Path, p: Path)
    requires d.initial.Some? && d.initial.value.StringValue?
    ensures KeptByMove(d, q, v, root, to, p) <==>
              var text := MovedText(ScopeOf(if q == root then to else q), v, root, to);
              if (match d.constraint
                  case Range(lo, hi) => lo.IntegerValue? && hi.IntegerValue? && lo.i <= |text| <= hi.i
                  case Allowed(states) => StringValue(text) in states)
              then KeptOnMove(q, v, root, to, p)
              else if q == root then to == root || root < p
              else Under(root, q) || to == root || !(root < p)
  {
    TextsFit(d);
    hide EndpointDefinition.Allows, KeptOnMove, MovedText;
  }

  /** Where a move takes a node. */
  ghost function Destination(p: Node?, name: string): Path
    reads (if p == null then {} else {p})`path
  {
    (if p == null then [] else p.path) + [name]
  }

  lemma MoveFits(w: World, n: Node, p: Node?)
    requires w.Valid() && n in w.live && (p != null ==> p in w.live)
    ensures IsMove(n.path, Destination(p, n.name))
  {
    assert Placed(n);
    PathLegal(w, n);
    if p != null {
      PathLegal(w, p);
    }
  }

  class MoveCommand {
    const nodePath: Path
    const newParentPath: Path

    constructor (nodePath: Path, newParentPath: Path)
      ensures this.nodePath == nodePath && this.newParentPath == newParentPath
    {
      this.nodePath, this.newParentPath := nodePath, newParentPath;
    }

    /** What a move demands of its caller, since the command does not check it: the node may hang below
        the new parent, which lies outside its subtree and has no other child of that name. */
    ghost predicate Demands(w: World)
      reads w.live
    {
      forall n :: n in w.live && n.path == nodePath ==>
        && !Under(nodePath, newParentPath)
        && ((forall p :: p in w.live ==> p.path != newParentPath) ==>
              CanBeChildOf(n.iface.kind, null) && (n.name !in w.top || n.parent == null))
        && (forall p :: p in w.live && p.path == newParentPath ==>
              CanBeChildOf(n.iface.kind, p) && (n.name !in p.children || n.parent == p))
    }

    method Execute(s: Server) returns (error: CommandError, ghost n: Node?, ghost p: Node?)
      requires s.Valid() && IsPath(nodePath) && IsPath(newParentPath) && Demands(s.W())
      modifies s`nodes, s.table, s.live`parent, s.live`path, s.live`children, s.eps`path, s.eps`value
      ensures s.Valid() && s.table.tracedErrors == old(s.table.tracedErrors)
      ensures n == null <==> forall m :: m in s.live ==> old(m.path) != nodePath
      ensures error == if n == null then PATH_ERROR else SUCCESS
      ensures error != SUCCESS ==>
                unchanged(s) && unchanged(s.table) && unchanged(s.live) && unchanged(s.eps)
      ensures error == SUCCESS ==>
                && n != null && n in s.live && old(n.path) == nodePath
                && (p == null <==> forall m :: m in s.live ==> old(m.path) != newParentPath)
                && (p != null ==> p in s.live && old(p.path) == newParentPath)
                && n.parent == p
                && (forall m :: m in s.live && m != n ==> m.parent == old(m.parent))
                && (forall m :: m in s.live ==>
                      m.children == Edited(old(m.children), m == old(n.parent), n.name, m == p, n.name, n))
                && s.nodes == Edited(old(s.nodes), old(n.parent) == null, n.name, p == null, n.name, n)
                && Updated(s.W(), old(s.W().Paths()), old(s.W().EndpointPaths()), old(ValuesOf(s.eps)), n,
                           Moving(nodePath, old(Destination(p, n.name))), old(Destination(p, n.name)))
      ensures error == SUCCESS ==>
                forall how, c, e :: c in s.eps && IsEnd(c) && e in s.eps && old(Reaches(how, c, e)) ==>
                  (Reaches(how, c, e) <==>
                     var q, to := old(c.node.path), old(Destination(p, n.name));
                     var text := MovedText(ScopeOf(if q == nodePath then to else q), old(Text(c)), nodePath, to);
                     if (match c.definition.constraint
                         case Range(lo, hi) => lo.IntegerValue? && hi.IntegerValue? && lo.i <= |text| <= hi.i
                         case Allowed(states) => StringValue(text) in states)
                     then KeptOnMove(q, old(Text(c)), nodePath, to, old(e.path))
                     else if q == nodePath then to == nodePath || nodePath < old(e.path)
                     else Under(nodePath, q) || to == nodePath || !(nodePath < old(e.path)))
    {
      hide *;
      s.ValidParts();
      ghost var w, was, wasE, before := s.W(), s.W().Paths(), s.W().EndpointPaths(), ValuesOf(s.eps);
      s.WIs();
      MeaningBefore(w);
      var node, parent := FindBoth(s);
      n := node;
      if node == null {
        return PATH_ERROR, null, null;
      }
      p := parent;
      DemandsOf(w, node, parent);
      ghost var to := Destination(parent, node.name);
      MoveFits(w, node, parent);
      PerformAndReach(s, node, parent, Moving(nodePath, to));
      error := SUCCESS;
    }

    /** The node and its new parent, if they are there. */
    method FindBoth(s: Server) returns (n: Node?, p: Node?)
      requires s.Valid() && IsPath(nodePath) && IsPath(newParentPath)
      ensures n == null <==> forall m :: m in s.live ==> m.path != nodePath
      ensures n != null ==> n in s.live && n.path == nodePath
      ensures p == null <==> forall m :: m in s.live ==> m.path != newParentPath
      ensures p != null ==> p in s.live && p.path == newParentPath
    {
      hide *;
      n := s.FindNode(nodePath);
      p := s.FindNode(newParentPath);
    }

    /** The move, with what it means for connections. */
    method PerformAndReach(s: Server, n: Node, p: Node?, ghost edit: Edit)
      requires s.Valid() && n in s.live && n.path == nodePath && (p != null ==> p in s.live && !Under(n.path, p.path))
      requires n.name !in Siblings(s.W(), p) || p == n.parent
      requires edit == Moving(nodePath, Destination(p, n.name)) && IsMove(nodePath, edit.to)
      modifies s`nodes, s.table, n`parent, s.live`path, s.live`children, s.eps`path, s.eps`value
      ensures s.Valid() && n.parent == p && s.table.tracedErrors == old(s.table.tracedErrors)
      ensures forall m :: m in old(s.live) ==>
                m.children == Edited(old(m.children), m == old(n.parent), n.name, m == p, n.name, n)
      ensures s.nodes == Edited(old(s.nodes), old(n.parent) == null, n.name, p == null, n.name, n)
      ensures Updated(s.W(), old(s.W().Paths()), old(s.W().EndpointPaths()), old(ValuesOf(s.eps)), n, edit, edit.to)
      ensures var was, before := old(s.W().Paths()), old(ValuesOf(s.eps));
              forall how, c, e :: c in s.eps && IsEnd(c) && e in s.eps && Reached(how, was, old(s.W().EndpointPaths()), before, c, e) ==>
                (Reaches(how, c, e) <==>
                   var q, text := was[c.node], MovedText(ScopeOf(if was[c.node] == nodePath then edit.to else was[c.node]), TextIn(before[c]), nodePath, edit.to);
                   if (match c.definition.constraint
                       case Range(lo, hi) => lo.IntegerValue? && hi.IntegerValue? && lo.i <= |text| <= hi.i
                       case Allowed(states) => StringValue(text) in states)
                   then KeptOnMove(q, TextIn(before[c]), nodePath, edit.to, old(s.W().EndpointPaths())[e])
                   else if q == nodePath then edit.to == nodePath || nodePath < old(s.W().EndpointPaths())[e]
                   else Under(nodePath, q) || edit.to == nodePath || !(nodePath < old(s.W().EndpointPaths())[e]))
    {
      hide *;
      s.ValidParts();
      ghost var w, was, wasE, before := s.W(), s.W().Paths(), s.W().EndpointPaths(), ValuesOf(s.eps);
      s.WIs();
      MeaningBefore(w);
      Perform(s, n, p, edit);
      s.ValidParts();
      s.WIs();
      AllReachedAfterMove(s.W(), was, wasE, before, n, edit);
    }

    lemma DemandsOf(w: World, n: Node, p: Node?)
      requires Demands(w) && n in w.live && n.path == nodePath
      requires p != null ==> p in w.live && p.path == newParentPath
      requires p == null ==> forall m :: m in w.live ==> m.path != newParentPath
      ensures CanBeChildOf(n.iface.kind, p) && (p != null ==> !Under(n.path, p.path))
      ensures n.name !in Siblings(w, p) || p == n.parent
    {
    }

    /** The move and the rewriting of connections, once it is known that the node may go there. */
    method Perform(s: Server, n: Node, p: Node?, ghost edit: Edit)
      requires s.Valid() && n in s.live && n.path == nodePath && (p != null ==> p in s.live && !Under(n.path, p.path))
      requires n.name !in Siblings(s.W(), p) || p == n.parent
      requires edit == Moving(nodePath, Destination(p, n.name))
      modifies s`nodes, s.table, n`parent, s.live`path, s.live`children, s.eps`path, s.eps`value
      ensures s.Valid() && n.parent == p && s.table.tracedErrors == old(s.table.tracedErrors)
      ensures forall m :: m in old(s.live) ==>
                m.children == Edited(old(m.children), m == old(n.parent), n.name, m == p, n.name, n)
      ensures s.nodes == Edited(old(s.nodes), old(n.parent) == null, n.name, p == null, n.name, n)
      ensures Updated(s.W(), old(s.W().Paths()), old(s.W().EndpointPaths()), old(ValuesOf(s.eps)), n, edit, edit.to)
      ensures NothingThere(old(s.W().Paths()), edit.root, edit.to)
    {
      hide *;
      ghost var w, was, wasE := s.W(), s.W().Paths(), s.W().EndpointPaths();
      ghost var to := Destination(p, n.name);
      s.ValidParts();
      s.WIs();
      DestinationIs(p, n.name);
      ValidPathsFit(w);
      ValidIsShaped(w, []);
      ValidIsRooted(w);
      s.MoveTo(n, p, Change(w, n, to));
      CarriedParts(Change(w, n, to), s.W());
      CarriedTarget(Change(w, n, to), s.W());
      s.WIs();
      RelocatedRoot(s.W(), was, n, nodePath, to);
      ghost var w' := s.W();
      HandleMove(s, n, nodePath, w');
      assert s.W() == w';
      MakeUpdated(w', was, wasE, old(ValuesOf(s.eps)), n, Moving(nodePath, to), to);
    }
  }

  lemma DestinationIs(p: Node?, name: string)
    ensures Destination(p, name) == (if p == null then [] else p.path) + [name]
  {
  }

  twostate lemma CarriedTarget(c: Change, new w': World)
    requires old(c.w.Valid()) && old(c.w.Shaped(c.w.Paths(), [])) && old(Rooted(c.w, c.w.Paths()))
    requires Carried(c, w')
    ensures NothingThere(old(c.w.Paths()), old(c.n.path), c.to)
  {
    assert c.Relinked(w') && c.Allowed();
    hide World.Valid, World.Shaped, Rooted, Under, Edited;
    TargetIsFree(c, w');
  }

  /** Brings the connections up to date after `n` has moved. */
  method HandleMove(s: Server, n: Node, previousPath: Path, ghost w: World)
    requires s.Valid() && n in s.live && w == s.W() && n.path != []
    modifies s.eps`value
    ensures s.Valid() && Scopes(s.eps).Keys == s.eps
    ensures Rewritten(ValuesOf(s.eps), old(ValuesOf(s.eps)), Scopes(s.eps), EndsAbove(s.eps, Scopes(s.eps), n.path),
                      Moving(previousPath, n.path))
  {
    hide *;
    s.ValidParts();
    s.WIs();
    ghost var before, edit := ValuesOf(w.eps), Moving(previousPath, n.path);
    WellTypedEndsAreTexts(w);
    WellTypedValues(s.live, s.eps);
    ValuesAndScopes(s.eps);
    UpdateConnectionsOnMove(s.nodes, n, previousPath, n.path, w, edit);
    assert w.Valid();
    RewrittenIsTyped(ValuesOf(s.eps), before, Scopes(s.eps), n.path, edit);
    TypedAgain(s);
  }
}
