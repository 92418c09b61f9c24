/**
 Rewriting the texts of connections in the tree, at every scope that encloses a renamed or moved node.
 */
module Connections {
  import opened Paths
  import opened Values
  import opened Forest
  import opened Relinking
  import opened Naming

  /** The values of the endpoints at one moment. */
  type Valuation = map<NodeEndpoint, Option<Value>>

  /** One of the two texts of a connection. */
  ghost predicate IsConnectionEnd(e: NodeEndpoint) {
    e.node.iface.kind == CONNECTION && (e.name == SOURCE_PATH || e.name == TARGET_PATH)
  }

  /** The text an endpoint holds; an endpoint without one is treated as holding the empty text. */
  ghost function Text(e: NodeEndpoint): string
    reads e`value
  {
    if e.value.Some? && e.value.value.StringValue? then e.value.value.s else ""
  }

  /** The path of the node a connection's texts are relative to. */
  ghost function Scope(e: NodeEndpoint): Path
    reads e.node`path
  {
    ScopeOf(e.node.path)
  }

  /** A connection's text, read in the one way or the other, means the endpoint `e`. */
  ghost predicate Reaches(how: Reading, c: NodeEndpoint, e: NodeEndpoint)
    reads c`value, c.node`path, e`path
  {
    Means(how, Scope(c), Text(c), e.path)
  }

  /** The siblings of a node are the nodes whose paths differ from its path in the last element at most. */
  lemma SiblingsShareScope(w: World, n: Node, m: Node)
    requires w.Valid() && n in w.live && m in w.live
    ensures n.path != [] && m.path != []
    ensures Init(m.path) == Init(n.path) <==> m.name in SiblingMap(w.top, n.parent) && SiblingMap(w.top, n.parent)[m.name] == m
  {
    assert Placed(n) && Placed(m) && w.LinkedUp(m) && w.LinkedUp(n);
    assert Init(n.path) == n.ParentPath() && Init(m.path) == m.ParentPath();
    if n.parent != null && m.parent != null {
      PathUnique(w, n.parent, m.parent);
      assert w.LinkedDown(n.parent) && n.parent.children.Values <= w.live;
    } else if n.parent != null {
      assert Placed(n.parent) && w.LinkedDown(n.parent);
    } else if m.parent != null {
      assert Placed(m.parent) && w.LinkedTop();
    }
  }

  lemma SiblingIsLive(w: World, n: Node, k: string)
    requires w.Valid() && n in w.live && k in SiblingMap(w.top, n.parent)
    ensures SiblingMap(w.top, n.parent)[k] in w.live && SiblingMap(w.top, n.parent)[k].name == k
  {
    if n.parent != null {
      assert w.LinkedDown(n.parent) && n.parent.children[k] in n.parent.children.Values;
    } else {
      assert w.LinkedTop();
    }
  }

  lemma DeclaredEndpoint(n: Node, k: string, t: ValueType)
    requires n.iface.Valid() && n.HasDeclaredEndpoints() && n.iface.Declares(k, t)
    ensures k in n.endpoints && n.endpoints[k].definition.initial.Some?
    ensures n.endpoints[k].definition.initial.value.Type() == t
  {
    var i :| 0 <= i < |n.iface.endpoints| && n.iface.endpoints[i].name == k
             && n.iface.endpoints[i].initial.Some? && n.iface.endpoints[i].initial.value.Type() == t;
    assert n.endpoints[k].definition == n.iface.endpoints[i];
  }

  /** The two texts of a connection are there, and they are declared as texts. */
  lemma ConnectionHasEnds(w: World, n: Node)
    requires w.Valid() && Declared(w.live) && n in w.live && n.iface.kind == CONNECTION
    ensures forall k :: k == SOURCE_PATH || k == TARGET_PATH ==>
              && k in n.endpoints && n.endpoints[k] in w.eps
              && n.endpoints[k].name == k && n.endpoints[k].node == n
              && n.endpoints[k].definition.initial.Some? && n.endpoints[k].definition.initial.value.Type() == STRING
  {
    assert n.iface.Valid() && n.HasDeclaredEndpoints() && w.EndpointsPlaced(n);
    DeclaredEndpoint(n, SOURCE_PATH, STRING);
    DeclaredEndpoint(n, TARGET_PATH, STRING);
  }

  // ---------------------------------------------------------------- which texts an edit rewrites, and how

  datatype Edit = Renaming(root: Path, to: Path) | Moving(root: Path, to: Path)
  {
    function Rewrite(scope: Path, v: string): string {
      match this
      case Renaming(_, _) => RenamedText(scope, v, root, to)
      case Moving(_, _) => MovedText(scope, v, root, to)
    }
  }

  /** What an endpoint that holds the text `held` holds after a set command to `text`, which its
      constraint may refuse. */
  function Entered(d: EndpointDefinition, text: string, held: string): string {
    if d.Allows(StringValue(text)) then text else held
  }

  /** The constraint lets a text be: its length is within the bounds, or it is listed. */
  predicate TextFits(c: Constraint, text: string) {
    match c
    case Range(minimum, maximum) => minimum.IntegerValue? && maximum.IntegerValue? && minimum.i <= |text| <= maximum.i
    case Allowed(states) => StringValue(text) in states
  }

  lemma TextsFit(d: EndpointDefinition)
    requires d.initial.Some? && d.initial.value.StringValue?
    ensures forall text :: d.Allows(StringValue(text)) <==> TextFits(d.constraint, text)
  {
  }

  ghost function ValuesOf(eps: set<NodeEndpoint>): Valuation
    reads eps`value
  {
    map e | e in eps :: e.value
  }

  function TextIn(value: Option<Value>): string {
    if value.Some? && value.value.StringValue? then value.value.s else ""
  }

  ghost function Scopes(eps: set<NodeEndpoint>): map<NodeEndpoint, Path>
    reads set e | e in eps :: e.node`path
  {
    map e | e in eps :: Scope(e)
  }

  /** Exactly the texts in `S` have been rewritten, each as the edit says for its scope and as far as its
      constraint allows. */
  ghost predicate Rewritten(now: Valuation, before: Valuation,
                            scopes: map<NodeEndpoint, Path>, S: set<NodeEndpoint>, edit: Edit)
  {
    && now.Keys == before.Keys == scopes.Keys
    && forall e :: e in now ==>
         now[e] == if e in S then Some(StringValue(Entered(e.definition, edit.Rewrite(scopes[e], TextIn(before[e])), TextIn(before[e]))))
                   else before[e]
  }

  lemma RewrittenTwice(now: Valuation, mid: Valuation,
                       before: Valuation, scopes: map<NodeEndpoint, Path>,
                       S: set<NodeEndpoint>, T: set<NodeEndpoint>, edit: Edit)
    requires S !! T && Rewritten(mid, before, scopes, S, edit) && Rewritten(now, mid, scopes, T, edit)
    ensures Rewritten(now, before, scopes, S + T, edit)
  {
  }

  lemma NothingRewritten(values: Valuation, scopes: map<NodeEndpoint, Path>, edit: Edit)
    requires values.Keys == scopes.Keys
    ensures Rewritten(values, values, scopes, {}, edit)
  {
  }

  /** The texts of the connections at `scope`, but for those of nodes named in `todo`. */
  ghost function EndsAt(eps: set<NodeEndpoint>, scopes: map<NodeEndpoint, Path>, scope: Path, todo: set<string>): set<NodeEndpoint>
    requires scopes.Keys == eps
    reads set e | e in eps :: e.node`name
  {
    set e | e in eps && IsConnectionEnd(e) && scopes[e] == scope && e.node.name !in todo
  }

  /** The texts at the scopes that enclose `p`. */
  ghost function EndsAbove(eps: set<NodeEndpoint>, scopes: map<NodeEndpoint, Path>, p: Path): set<NodeEndpoint>
    requires scopes.Keys == eps
  {
    set e | e in eps && IsConnectionEnd(e) && scopes[e] < p
  }

  // ---------------------------------------------------------------- rename

  method UpdateConnectionPathOnRename(e: NodeEndpoint, previous: string, name: string)
    requires e.value.Some? && e.value.value.StringValue?
    modifies e`value
    ensures e.value == Some(StringValue(Entered(e.definition, RewriteOnRename(old(Text(e)), previous, name), old(Text(e)))))
    ensures e.definition.initial.Some? && e.definition.initial.value.StringValue? ==>
              var held := old(e.value.value.s);
              e.value == Some(StringValue(
                if |previous| < |held| && held[..|previous|] == previous && TextFits(e.definition.constraint, name + held[|previous|..])
                then name + held[|previous|..] else held))
  {
    if e.definition.initial.Some? && e.definition.initial.value.StringValue? {
      TextsFit(e.definition);
    }
    var path := e.value.value.s;
    if |path| <= |previous| || previous != path[..|previous|] {
      return;
    }
    var text := name + path[|previous|..];
    if e.definition.Allows(StringValue(text)) {
      e.value := Some(StringValue(text));
    }
  }

  predicate IsText(e: NodeEndpoint)
    reads e`value
  {
    e.value.Some? && e.value.value.StringValue?
  }

  /** Before any rewriting the texts of connections are texts. */
  ghost predicate EndsAreTexts(values: Valuation) {
    forall e :: e in values && IsConnectionEnd(e) ==> values[e].Some? && values[e].value.StringValue?
  }

  lemma WellTypedEndsAreTexts(w: World)
    requires w.Valid() && WellTyped(w.live, w.eps)
    ensures EndsAreTexts(ValuesOf(w.eps))
  {
    forall e | e in w.eps && IsConnectionEnd(e) ensures e.value.Some? && e.value.value.StringValue? {
      assert w.EndpointsOwned() && e.node in w.live && e.HasDeclaredType();
      ConnectionHasEnds(w, e.node);
      assert e.node.endpoints[e.name] == e;
    }
  }

  lemma RewrittenAreTexts(now: Valuation, before: Valuation,
                          scopes: map<NodeEndpoint, Path>, S: set<NodeEndpoint>, edit: Edit)
    requires EndsAreTexts(before) && Rewritten(now, before, scopes, S, edit)
    ensures EndsAreTexts(now)
  {
  }

  /** At first no connection of the scope has been visited, and in the end all have. */
  lemma NoneVisited(w: World, n: Node)
    requires w.Valid() && n in w.live
    ensures n.path != []
    ensures EndsAt(w.eps, Scopes(w.eps), Init(n.path), SiblingMap(w.top, n.parent).Keys) == {}
  {
    PathLegal(w, n);
    forall e | e in w.eps && Scopes(w.eps)[e] == Init(n.path) ensures e.node.name in SiblingMap(w.top, n.parent) {
      assert w.EndpointsOwned() && e.node in w.live;
      SiblingsShareScope(w, n, e.node);
    }
  }

  /** The two texts of a node, if it is a connection. */
  ghost function EndsOf(eps: set<NodeEndpoint>, c: Node): set<NodeEndpoint> {
    set e | e in eps && e.node == c && IsConnectionEnd(e)
  }

  lemma EndsOfConnection(w: World, c: Node)
    requires w.Valid() && Declared(w.live) && c in w.live && c.iface.kind == CONNECTION
    ensures SOURCE_PATH in c.endpoints && TARGET_PATH in c.endpoints
    ensures c.endpoints[SOURCE_PATH] != c.endpoints[TARGET_PATH]
    ensures EndsOf(w.eps, c) == {c.endpoints[SOURCE_PATH], c.endpoints[TARGET_PATH]}
  {
    hide *;
    ConnectionHasEnds(w, c);
    IsEndOf(w.eps, c, c.endpoints[SOURCE_PATH]);
    forall e | e in w.eps
      ensures e in EndsOf(w.eps, c) <==> e == c.endpoints[SOURCE_PATH] || e == c.endpoints[TARGET_PATH]
    {
      IsEndOf(w.eps, c, e);
      OwnedAt(w, e);
    }
    EndsAmong(w.eps, c);
  }

  lemma IsEndOf(eps: set<NodeEndpoint>, c: Node, e: NodeEndpoint)
    requires c.iface.kind == CONNECTION
    ensures e in EndsOf(eps, c) <==> e in eps && e.node == c && (e.name == SOURCE_PATH || e.name == TARGET_PATH)
    ensures SOURCE_PATH != TARGET_PATH
  {
  }

  lemma EndsAmong(eps: set<NodeEndpoint>, c: Node)
    ensures EndsOf(eps, c) <= eps
  {
  }

  lemma OwnedAt(w: World, e: NodeEndpoint)
    requires w.Valid() && e in w.eps
    ensures e.name in e.node.endpoints && e.node.endpoints[e.name] == e
  {
    assert w.EndpointsOwned();
  }

  lemma EndsOfNode(w: World, c: Node)
    requires w.Valid() && Declared(w.live) && c in w.live
    ensures EndsOf(w.eps, c) <= w.eps
    ensures if c.iface.kind == CONNECTION then
              && SOURCE_PATH in c.endpoints && TARGET_PATH in c.endpoints
              && c.endpoints[SOURCE_PATH] != c.endpoints[TARGET_PATH]
              && EndsOf(w.eps, c) == {c.endpoints[SOURCE_PATH], c.endpoints[TARGET_PATH]}
            else EndsOf(w.eps, c) == {}
  {
    if c.iface.kind == CONNECTION {
      EndsOfConnection(w, c);
    }
  }

  lemma TextsOf(a: NodeEndpoint, b: NodeEndpoint)
    requires IsText(a) && IsText(b)
    ensures a.value.Some? && a.value.value.StringValue? && Text(a) == a.value.value.s == TextIn(a.value)
    ensures b.value.Some? && b.value.value.StringValue? && Text(b) == b.value.value.s == TextIn(b.value)
  {
  }

  lemma ValuesAndScopes(eps: set<NodeEndpoint>)
    ensures ValuesOf(eps).Keys == Scopes(eps).Keys == eps
    ensures forall e :: e in eps ==> ValuesOf(eps)[e] == e.value
  {
  }

  /** Connections that have not been visited still have their texts. */
  lemma UnvisitedAreTexts(eps: set<NodeEndpoint>, before: Valuation, scopes: map<NodeEndpoint, Path>,
                          S: set<NodeEndpoint>, c: Node, edit: Edit)
    requires EndsAreTexts(before) && Rewritten(ValuesOf(eps), before, scopes, S, edit) && S !! EndsOf(eps, c)
    ensures forall e :: e in EndsOf(eps, c) ==> IsText(e)
  {
    assert forall e :: e in eps ==> ValuesOf(eps)[e] == e.value;
  }

  lemma EndsAtNext(eps: set<NodeEndpoint>, scopes: map<NodeEndpoint, Path>, scope: Path, todo: set<string>, k: string, c: Node)
    requires scopes.Keys == eps && k in todo
    requires forall e :: e in eps ==> (scopes[e] == scope && e.node.name == k <==> e.node == c)
    ensures EndsAt(eps, scopes, scope, todo - {k}) == EndsAt(eps, scopes, scope, todo) + EndsOf(eps, c)
    ensures EndsAt(eps, scopes, scope, todo) !! EndsOf(eps, c)
    ensures forall e :: e in EndsOf(eps, c) ==> scopes[e] == scope
  {
  }

  /** The endpoints of the sibling `c` are those at the scope whose node has its name. */
  lemma SiblingByName(w: World, n: Node, c: Node, scope: Path, scopes: map<NodeEndpoint, Path>)
    requires w.Valid() && n in w.live && c in w.live && n.path != [] && scope == Init(n.path) && scopes == Scopes(w.eps)
    requires c.name in SiblingMap(w.top, n.parent) && SiblingMap(w.top, n.parent)[c.name] == c
    ensures scopes.Keys == w.eps
    ensures forall e :: e in w.eps ==> (scopes[e] == scope && e.node.name == c.name <==> e.node == c)
  {
    forall e | e in w.eps
      ensures scopes[e] == scope && e.node.name == c.name <==> e.node == c
    {
      assert w.EndpointsOwned() && e.node in w.live;
      SiblingsShareScope(w, n, e.node);
    }
  }

  /** Visiting one more sibling completes the scope by its texts. */
  lemma NextSibling(w: World, n: Node, todo: set<string>, k: string, c: Node, scope: Path, scopes: map<NodeEndpoint, Path>)
    requires w.Valid() && n in w.live && n.path != [] && scope == Init(n.path) && scopes == Scopes(w.eps)
    requires k in SiblingMap(w.top, n.parent) && SiblingMap(w.top, n.parent)[k] == c && k in todo
    ensures c in w.live && scopes.Keys == w.eps
    ensures EndsAt(w.eps, scopes, scope, todo - {k}) == EndsAt(w.eps, scopes, scope, todo) + EndsOf(w.eps, c)
    ensures EndsAt(w.eps, scopes, scope, todo) !! EndsOf(w.eps, c)
    ensures forall e :: e in EndsOf(w.eps, c) ==> scopes[e] == scope
  {
    hide *;
    SiblingIsLive(w, n, k);
    SiblingByName(w, n, c, scope, scopes);
    EndsAtNext(w.eps, scopes, scope, todo, k, c);
  }

  /** What rewriting a connection does, seen as part of rewriting the scope. */
  lemma OneConnectionRewritten(now: Valuation, before: Valuation,
                               scopes: map<NodeEndpoint, Path>, S: set<NodeEndpoint>, edit: Edit, scope: Path,
                               a: NodeEndpoint, b: NodeEndpoint)
    requires now.Keys == before.Keys == scopes.Keys && S == {a, b} && S <= now.Keys
    requires forall e :: e in S ==> scopes[e] == scope
    requires forall e :: e in now ==>
               now[e] == if e == a || e == b
                         then Some(StringValue(Entered(e.definition, edit.Rewrite(scope, TextIn(before[e])), TextIn(before[e]))))
                         else before[e]
    ensures Rewritten(now, before, scopes, S, edit)
  {
  }

  /** Rewrites the two texts of a sibling, if it is a connection. */
  method UpdateSiblingOnRename(c: Node, previous: string, name: string, ghost scope: Path, ghost w: World, ghost edit: Edit)
    requires w.Valid() && Declared(w.live) && c in w.live && Scopes(w.eps).Keys == w.eps
    requires forall e :: e in EndsOf(w.eps, c) ==> IsText(e) && Scopes(w.eps)[e] == scope
    requires forall v :: edit.Rewrite(scope, v) == RewriteOnRename(v, previous, name)
    modifies w.eps`value
    ensures Rewritten(ValuesOf(w.eps), old(ValuesOf(w.eps)), Scopes(w.eps), EndsOf(w.eps, c), edit)
  {
    hide *;
    ghost var before, scopes := ValuesOf(w.eps), Scopes(w.eps);
    EndsOfNode(w, c);
    ValuesAndScopes(w.eps);
    if c.iface.kind != CONNECTION {
      NothingRewritten(before, scopes, edit);
      return;
    }
    var source, target := c.endpoints[SOURCE_PATH], c.endpoints[TARGET_PATH];
    TextsOf(source, target);
    UpdateConnectionPathOnRename(source, previous, name);
    UpdateConnectionPathOnRename(target, previous, name);
    ValuesAndScopes(w.eps);
    OneConnectionRewritten(ValuesOf(w.eps), before, scopes, EndsOf(w.eps, c), edit, scope, source, target);
  }

  /** Rewrites the texts of all connections among the siblings of `n`. */
  method UpdateScopeOnRename(siblings: map<string, Node>, previous: string, name: string,
                             ghost n: Node, ghost w: World, ghost edit: Edit)
    requires w.Valid() && Declared(w.live) && EndsAreTexts(ValuesOf(w.eps))
    requires n in w.live && siblings == SiblingMap(w.top, n.parent) && n.path != []
    requires forall v :: edit.Rewrite(Init(n.path), v) == RewriteOnRename(v, previous, name)
    modifies w.eps`value
    ensures Rewritten(ValuesOf(w.eps), old(ValuesOf(w.eps)), Scopes(w.eps), EndsAt(w.eps, Scopes(w.eps), Init(n.path), {}), edit)
  {
    hide *;
    ghost var before, scopes, scope := ValuesOf(w.eps), Scopes(w.eps), Init(n.path);
    NoneVisited(w, n);
    ValuesAndScopes(w.eps);
    NothingRewritten(before, scopes, edit);
    var todo := siblings.Keys;
    while todo != {}
      invariant todo <= siblings.Keys
      invariant siblings == SiblingMap(w.top, n.parent)
      invariant Rewritten(ValuesOf(w.eps), before, scopes, EndsAt(w.eps, scopes, scope, todo), edit)
      decreases todo
    {
      var k :| k in todo;
      NextSibling(w, n, todo, k, siblings[k], scope, scopes);
      ghost var S, T, mid := EndsAt(w.eps, scopes, scope, todo), EndsOf(w.eps, siblings[k]), ValuesOf(w.eps);
      UnvisitedAreTexts(w.eps, before, scopes, S, siblings[k], edit);
      UpdateSiblingOnRename(siblings[k], previous, name, scope, w, edit);
      RewrittenTwice(ValuesOf(w.eps), mid, before, scopes, S, T, edit);
      todo := todo - {k};
    }
  }

  lemma ProperPrefixOf(p: Path, q: Path)
    requires q != []
    ensures p < q <==> p == Init(q) || p < Init(q)
  {
  }

  lemma EndsAboveStep(eps: set<NodeEndpoint>, scopes: map<NodeEndpoint, Path>, q: Path)
    requires scopes.Keys == eps && q != []
    ensures EndsAbove(eps, scopes, q) == EndsAt(eps, scopes, Init(q), {}) + EndsAbove(eps, scopes, Init(q))
    ensures EndsAt(eps, scopes, Init(q), {}) !! EndsAbove(eps, scopes, Init(q))
    ensures EndsAbove(eps, scopes, []) == {}
  {
    forall e | e in eps ensures scopes[e] < q <==> scopes[e] == Init(q) || scopes[e] < Init(q) {
      ProperPrefixOf(scopes[e], q);
    }
  }

  /** The scopes that enclose `n` are its own and those that enclose its parent. */
  lemma EndsAboveSplit(w: World, n: Node)
    requires w.Valid() && n in w.live && n.path != []
    ensures var scopes := Scopes(w.eps);
            scopes.Keys == w.eps
            && EndsAbove(w.eps, scopes, n.path)
               == EndsAt(w.eps, scopes, Init(n.path), {}) + (if n.parent == null then {} else EndsAbove(w.eps, scopes, n.parent.path))
    ensures n.parent != null ==>
              EndsAt(w.eps, Scopes(w.eps), Init(n.path), {}) !! EndsAbove(w.eps, Scopes(w.eps), n.parent.path)
  {
    assert Placed(n);
    assert Init(n.path) == if n.parent == null then [] else n.parent.path;
    hide World.Valid, EndsAbove, EndsAt, Placed, Init;
    EndsAboveStep(w.eps, Scopes(w.eps), n.path);
  }

  lemma RewriteIs(edit: Edit, n: Path, previous: string, name: string)
    requires edit.Renaming? && IsRename(edit.root, edit.to) && n != [] && n <= edit.to
    requires previous == Join(edit.root[|n| - 1..]) && name == Join(edit.to[|n| - 1..])
    ensures forall v :: edit.Rewrite(Init(n), v) == RewriteOnRename(v, previous, name)
  {
    assert Init(n) < edit.root by { assert Init(n) <= Init(edit.to); }
  }

  /** One level up the renamed node's name gets the name of the node that encloses it in front. */
  lemma PrefixInParentScope(root: Path, k: nat)
    requires 0 < k < |root|
    ensures Join(root[k - 1..]) == root[k - 1] + "." + Join(root[k..])
  {
    assert root[k - 1..][1..] == root[k..];
  }

  /** Rewrites the texts that may name something at or below a renamed node, from `search` upwards. */
  method UpdateConnectionsOnRename(top: map<string, Node>, search: Node, previous: string, name: string,
                                   ghost w: World, ghost edit: Edit)
    requires w.Valid() && Declared(w.live) && EndsAreTexts(ValuesOf(w.eps)) && top == w.top && search in w.live
    requires edit.Renaming? && IsRename(edit.root, edit.to) && search.path != [] && search.path <= edit.to
    requires previous == Join(edit.root[|search.path| - 1..]) && name == Join(edit.to[|search.path| - 1..])
    modifies w.eps`value
    ensures Scopes(w.eps).Keys == w.eps
    ensures Rewritten(ValuesOf(w.eps), old(ValuesOf(w.eps)), Scopes(w.eps), EndsAbove(w.eps, Scopes(w.eps), search.path), edit)
    decreases |search.path|
  {
    hide *;
    ghost var before, scopes := ValuesOf(w.eps), Scopes(w.eps);
    EndsAboveSplit(w, search);
    RewriteIs(edit, search.path, previous, name);
    UpdateScopeOnRename(SiblingMap(top, search.parent), previous, name, search, w, edit);
    var parent := search.parent;
    if parent != null {
      RewrittenAreTexts(ValuesOf(w.eps), before, scopes, EndsAt(w.eps, scopes, Init(search.path), {}), edit);
      ParentIsAbove(w, search, edit);
      ghost var mid := ValuesOf(w.eps);
      UpdateConnectionsOnRename(top, parent, parent.name + "." + previous, parent.name + "." + name, w, edit);
      RewrittenTwice(ValuesOf(w.eps), mid, before, scopes, EndsAt(w.eps, scopes, Init(search.path), {}),
                     EndsAbove(w.eps, scopes, parent.path), edit);
    } else {
      assert EndsAbove(w.eps, scopes, search.path) == EndsAt(w.eps, scopes, Init(search.path), {});
    }
  }

  lemma ElementOfBoth(root: Path, to: Path, q: Path)
    requires IsRename(root, to) && q != [] && q <= Init(to)
    ensures root[|q| - 1] == to[|q| - 1] == Last(q)
  {
    assert Init(to)[|q| - 1] == Init(root)[|q| - 1];
  }

  lemma ParentPlaced(w: World, n: Node)
    requires w.Valid() && n in w.live && n.parent != null && n.path != []
    ensures n.parent in w.live && n.parent.path != [] && Last(n.parent.path) == n.parent.name
    ensures n.parent.path < n.path && |n.parent.path| == |n.path| - 1
  {
    assert Placed(n) && Placed(n.parent);
  }

  lemma PrefixOfInit(p: Path, q: Path)
    requires p < q
    ensures p <= Init(q)
  {
  }

  lemma RenameLengths(root: Path, to: Path)
    requires IsRename(root, to)
    ensures |root| == |to|
  {
  }

  lemma ParentIsAbove(w: World, n: Node, edit: Edit)
    requires w.Valid() && n in w.live && n.parent != null
    requires edit.Renaming? && IsRename(edit.root, edit.to) && n.path != [] && n.path <= edit.to
    ensures n.parent in w.live && n.parent.path != [] && n.parent.path <= edit.to && |n.parent.path| < |n.path|
    ensures n.parent.name + "." + Join(edit.root[|n.path| - 1..]) == Join(edit.root[|n.parent.path| - 1..])
    ensures n.parent.name + "." + Join(edit.to[|n.path| - 1..]) == Join(edit.to[|n.parent.path| - 1..])
  {
    hide *;
    ParentPlaced(w, n);
    var k, p := |n.path| - 1, n.parent.path;
    PrefixOfInit(p, edit.to);
    ElementOfBoth(edit.root, edit.to, p);
    RenameLengths(edit.root, edit.to);
    PrefixInParentScope(edit.root, k);
    PrefixInParentScope(edit.to, k);
  }

  // ---------------------------------------------------------------- move

  /** Rewrites one text if, made absolute, it starts with the characters of the old path and the new
      path can be reached from its scope. */
  method UpdateConnectionPathOnMove(e: NodeEndpoint, scope: Path, root: Path, to: Path)
    requires e.value.Some? && e.value.value.StringValue?
    modifies e`value
    ensures e.value == Some(StringValue(Entered(e.definition, MovedText(scope, old(Text(e)), root, to), old(Text(e)))))
    ensures e.definition.initial.Some? && e.definition.initial.value.StringValue? ==>
              var held := old(e.value.value.s);
              var absolute := if scope == [] then held else Join(scope) + "." + held;
              e.value == Some(StringValue(
                if Join(root) <= absolute && scope <= to
                   && TextFits(e.definition.constraint, Join(to[|scope|..]) + absolute[|Join(root)|..])
                then Join(to[|scope|..]) + absolute[|Join(root)|..] else held))
  {
    if e.definition.initial.Some? && e.definition.initial.value.StringValue? {
      TextsFit(e.definition);
    }
    hide Join, EndpointDefinition.Allows, TextFits;
    var text := e.value.value.s;
    var absolute := if scope == [] then text else Join(scope) + "." + text;
    var previous := Join(root);
    if |previous| > |absolute| || previous != absolute[..|previous|] {
      return;
    }
    for i := 0 to |scope|
      invariant i <= |to| && scope[..i] == to[..i]
      invariant e.value == old(e.value)
    {
      if i >= |to| || to[i] != scope[i] {
        assert !(scope <= to);
        return;
      }
    }
    assert scope <= to by { assert scope[..|scope|] == scope; }
    var relative: Path := [];
    for i := |scope| to |to|
      invariant relative == to[|scope|..i]
      invariant e.value == old(e.value)
    {
      relative := relative + [to[i]];
    }
    assert relative == to[|scope|..];
    var moved := Join(relative) + absolute[|previous|..];
    if e.definition.Allows(StringValue(moved)) {
      e.value := Some(StringValue(moved));
    }
  }

  lemma RewriteIsMovedText(edit: Edit, scope: Path)
    requires edit.Moving?
    ensures forall v :: edit.Rewrite(scope, v) == MovedText(scope, v, edit.root, edit.to)
  {
  }

  /** Rewrites the two texts of a sibling, if it is a connection. */
  method UpdateSiblingOnMove(c: Node, scope: Path, root: Path, to: Path, ghost w: World, ghost edit: Edit)
    requires w.Valid() && Declared(w.live) && c in w.live && Scopes(w.eps).Keys == w.eps
    requires forall e :: e in EndsOf(w.eps, c) ==> IsText(e) && Scopes(w.eps)[e] == scope
    requires forall v :: edit.Rewrite(scope, v) == MovedText(scope, v, root, to)
    modifies w.eps`value
    ensures Rewritten(ValuesOf(w.eps), old(ValuesOf(w.eps)), Scopes(w.eps), EndsOf(w.eps, c), edit)
  {
    hide *;
    ghost var before, scopes := ValuesOf(w.eps), Scopes(w.eps);
    EndsOfNode(w, c);
    ValuesAndScopes(w.eps);
    if c.iface.kind != CONNECTION {
      NothingRewritten(before, scopes, edit);
      return;
    }
    var source, target := c.endpoints[SOURCE_PATH], c.endpoints[TARGET_PATH];
    TextsOf(source, target);
    UpdateConnectionPathOnMove(source, scope, root, to);
    UpdateConnectionPathOnMove(target, scope, root, to);
    ValuesAndScopes(w.eps);
    OneConnectionRewritten(ValuesOf(w.eps), before, scopes, EndsOf(w.eps, c), edit, scope, source, target);
  }

  /** Rewrites the texts of all connections among the siblings of `n`. */
  method UpdateScopeOnMove(siblings: map<string, Node>, scope: Path, root: Path, to: Path,
                           ghost n: Node, ghost w: World, ghost edit: Edit)
    requires w.Valid() && Declared(w.live) && EndsAreTexts(ValuesOf(w.eps))
    requires n in w.live && siblings == SiblingMap(w.top, n.parent) && n.path != [] && scope == Init(n.path)
    requires edit == Moving(root, to)
    modifies w.eps`value
    ensures Rewritten(ValuesOf(w.eps), old(ValuesOf(w.eps)), Scopes(w.eps), EndsAt(w.eps, Scopes(w.eps), scope, {}), edit)
  {
    hide *;
    RewriteIsMovedText(edit, scope);
    ghost var before, scopes := ValuesOf(w.eps), Scopes(w.eps);
    NoneVisited(w, n);
    ValuesAndScopes(w.eps);
    NothingRewritten(before, scopes, edit);
    var todo := siblings.Keys;
    while todo != {}
      invariant todo <= siblings.Keys
      invariant siblings == SiblingMap(w.top, n.parent)
      invariant Rewritten(ValuesOf(w.eps), before, scopes, EndsAt(w.eps, scopes, scope, todo), edit)
      decreases todo
    {
      var k :| k in todo;
      NextSibling(w, n, todo, k, siblings[k], scope, scopes);
      ghost var S, T, mid := EndsAt(w.eps, scopes, scope, todo), EndsOf(w.eps, siblings[k]), ValuesOf(w.eps);
      UnvisitedAreTexts(w.eps, before, scopes, S, siblings[k], edit);
      UpdateSiblingOnMove(siblings[k], scope, root, to, w, edit);
      RewrittenTwice(ValuesOf(w.eps), mid, before, scopes, S, T, edit);
      todo := todo - {k};
    }
  }

  /** Rewrites the texts that named something at or below a moved node, from `search` upwards. */
  method UpdateConnectionsOnMove(top: map<string, Node>, search: Node, root: Path, to: Path,
                                 ghost w: World, ghost edit: Edit)
    requires w.Valid() && Declared(w.live) && EndsAreTexts(ValuesOf(w.eps)) && top == w.top && search in w.live
    requires edit == Moving(root, to) && search.path != []
    modifies w.eps`value
    ensures Scopes(w.eps).Keys == w.eps
    ensures Rewritten(ValuesOf(w.eps), old(ValuesOf(w.eps)), Scopes(w.eps), EndsAbove(w.eps, Scopes(w.eps), search.path), edit)
    decreases |search.path|
  {
    hide *;
    ghost var before, scopes := ValuesOf(w.eps), Scopes(w.eps);
    EndsAboveSplit(w, search);
    var parent := search.parent;
    ParentScope(w, search);
    var scope := if parent == null then [] else parent.path;
    UpdateScopeOnMove(SiblingMap(top, parent), scope, root, to, search, w, edit);
    if parent != null {
      RewrittenAreTexts(ValuesOf(w.eps), before, scopes, EndsAt(w.eps, scopes, Init(search.path), {}), edit);
      ghost var mid := ValuesOf(w.eps);
      UpdateConnectionsOnMove(top, parent, root, to, w, edit);
      RewrittenTwice(ValuesOf(w.eps), mid, before, scopes, EndsAt(w.eps, scopes, Init(search.path), {}),
                     EndsAbove(w.eps, scopes, parent.path), edit);
    } else {
      assert EndsAbove(w.eps, scopes, search.path) == EndsAt(w.eps, scopes, Init(search.path), {});
    }
  }

  lemma ParentScope(w: World, n: Node)
    requires w.Valid() && n in w.live && n.path != []
    ensures Init(n.path) == if n.parent == null then [] else n.parent.path
    ensures n.parent != null ==> n.parent in w.live && n.parent.path != [] && |n.parent.path| < |n.path|
  {
    assert Placed(n);
    if n.parent != null {
      assert Placed(n.parent);
    }
  }

  // ---------------------------------------------------------------- values stay well typed

  ghost predicate TypedValues(values: Valuation) {
    forall e :: e in values ==>
      && (values[e].Some? <==> e.definition.initial.Some?)
      && (values[e].Some? ==> values[e].value.Type() == e.definition.initial.value.Type())
  }

  lemma WellTypedValues(live: set<Node>, eps: set<NodeEndpoint>)
    ensures WellTyped(live, eps) <==> Declared(live) && TypedValues(ValuesOf(eps))
  {
    if TypedValues(ValuesOf(eps)) {
      forall e | e in eps ensures e.HasDeclaredType() {
        assert ValuesOf(eps)[e] == e.value;
      }
    }
  }

  /** Rewriting puts texts where texts were. */
  lemma RewrittenIsTyped(now: Valuation, before: Valuation,
                         scopes: map<NodeEndpoint, Path>, p: Path, edit: Edit)
    requires TypedValues(before) && EndsAreTexts(before) && scopes.Keys == before.Keys
    requires Rewritten(now, before, scopes, EndsAbove(before.Keys, scopes, p), edit)
    ensures TypedValues(now)
  {
  }
}
