/**
 What a connection's text means, and what rewriting it after a rename or a move does to that.

 A connection stores its two ends as texts, relative to the node that holds it.  The program reads such
 a text in two ways: it compares it, character by character, with the relative path of an endpoint, or
 it parses it, which drops illegal elements, and looks up what is left.  A rename or a move changes the
 paths of a whole subtree, and then rewrites the texts by comparing characters.  The main lemmas say,
 for both readings and for every text that meant an endpoint before, exactly when it means the same
 endpoint afterwards.
 */
module Naming {
  import opened Paths
  import opened Forest
  import opened Relocation

  /** What the texts of a connection at `q` are relative to. */
  function ScopeOf(q: Path): Path {
    if q == [] then [] else Init(q)
  }

  /** The text looked up for the connection text `v` held at `scope`. */
  function KeyFrom(scope: Path, v: string): string {
    if scope == [] then v else Join(scope) + "." + v
  }

  /** From `scope`, the text `v` names what has the path `p`. */
  predicate NamesPath(scope: Path, v: string, p: Path) {
    KeyFrom(scope, v) == Join(p)
  }

  /** A text names something below its scope, by the text of the path that leads there. */
  lemma NamesBelow(scope: Path, v: string, p: Path)
    requires IsPath(scope) && IsNodePath(p)
    ensures NamesPath(scope, v, p) <==> scope < p && v == Join(p[|scope|..])
  {
    if scope == [] {
      assert p[0..] == p;
    } else if scope < p {
      assert scope + p[|scope|..] == p;
      JoinConcat(scope, p[|scope|..]);
      assert NamesPath(scope, v, p) ==> (Join(scope) + "." + v)[|Join(scope)| + 1..] == v;
      assert (Join(scope) + "." + Join(p[|scope|..]))[|Join(scope)| + 1..] == Join(p[|scope|..]);
    } else {
      DotPrefix(scope, p);
    }
  }

  /** Parsing a text and looking up the path it gives asks for the text itself exactly if the text holds
      no character that the parser drops. */
  lemma CanonicalLookup(scope: Path, v: string)
    ensures LookupKey(scope, Parse(v)) == KeyFrom(scope, v) <==> IsCanonical(v)
  {
    JoinParse(v);
    if scope != [] {
      assert (Join(scope) + "." + Join(Parse(v)))[|Join(scope)| + 1..] == Join(Parse(v));
      assert (Join(scope) + "." + v)[|Join(scope)| + 1..] == v;
    }
  }

  /** From `scope`, looking up what is parsed of the text `v` finds what has the path `p`. */
  predicate LeadsTo(scope: Path, v: string, p: Path) {
    LookupKey(scope, Parse(v)) == Join(p)
  }

  lemma LeadsBelow(scope: Path, v: string, p: Path)
    requires IsPath(scope) && IsNodePath(p)
    ensures LeadsTo(scope, v, p) <==> scope < p && Parse(v) == p[|scope|..]
  {
    hide *;
    LeadsToIs(scope, v, p);
    ParsedIsPath(v);
    RelativeLookup(scope, Parse(v), p);
    if scope < p {
      SuffixIs(scope, Parse(v), p);
    }
  }

  lemma LeadsToIs(scope: Path, v: string, p: Path)
    ensures LeadsTo(scope, v, p) <==> LookupKey(scope, Parse(v)) == Join(p)
  {
  }

  lemma ParsedIsPath(v: string)
    ensures IsPath(Parse(v))
  {
  }

  lemma SuffixIs(a: Path, b: Path, p: Path)
    requires a < p
    ensures p == a + b <==> b == p[|a|..]
  {
    assert (a + b)[|a|..] == b;
    assert a + p[|a|..] == p;
  }

  /** A text spells a path exactly when it leads there and the parser drops nothing. */
  lemma SpelledLeads(scope: Path, v: string, p: Path)
    requires IsPath(scope) && IsNodePath(p)
    ensures NamesPath(scope, v, p) <==> LeadsTo(scope, v, p) && IsCanonical(v)
  {
    CanonicalLookup(scope, v);
    if NamesPath(scope, v, p) {
      NamesBelow(scope, v, p);
      JoinCanonical(p[|scope|..]);
    }
  }

  /** How a text is read: the source of a control connection is compared, everything else looked up. */
  datatype Reading = Spelled | LookedUp

  predicate Means(how: Reading, scope: Path, v: string, p: Path) {
    match how
    case Spelled => NamesPath(scope, v, p)
    case LookedUp => LeadsTo(scope, v, p)
  }

  lemma IllegalElementIsDropped(x: string, v: string)
    requires HasNoDot(x) && !IsElement(x)
    ensures Parse(x + "." + v) == Parse(v)
  {
    SplitStep(x, v);
    LegalCons(x, Split(v));
  }

  /** With an illegal element in front the lookup still succeeds, for a text the rewriting does not know. */
  lemma DroppedElementLookup(scope: Path, x: string, v: string, p: Path)
    requires IsPath(scope) && IsNodePath(p) && IsCanonical(v) && NamesPath(scope, v, p)
    requires HasNoDot(x) && !IsElement(x)
    ensures LookupKey(scope, Parse(x + "." + v)) == Join(p)
    ensures !NamesPath(scope, x + "." + v, p)
  {
    SpelledLeads(scope, v, p);
    IllegalElementIsDropped(x, v);
    NamesBelow(scope, v, p);
    NamesBelow(scope, x + "." + v, p);
    assert |x + "." + v| > |v|;
  }

  // ---------------------------------------------------------------- texts that go on behind a path

  /** What the parser makes of the text of `a` with more behind it. */
  lemma GoesOn(a: Path, t: string)
    requires a != [] && IsPath(a)
    ensures Split(Join(a) + t) == Met(a, Split(t))
    ensures Parse(Join(a) + t) == Init(a) + (if IsElement(Split(t)[0]) then [Last(a) + Split(t)[0]] else []) + Legal(Split(t)[1..])
  {
    SplitJoin(a);
    SplitConcat(Join(a), t);
    var x, rest := Last(a) + Split(t)[0], Split(t)[1..];
    ElementConcat(Last(a), Split(t)[0]);
    LegalConcat(Init(a) + [x], rest);
    LegalConcat(Init(a), [x]);
    LegalCons(x, []);
    NothingLegal();
    assert [x] + [] == [x];
  }

  lemma ElementConcat(x: string, y: string)
    ensures IsElement(x + y) <==> IsElement(x) && IsElement(y)
  {
    assert forall i :: 0 <= i < |x| ==> (x + y)[i] == x[i];
    assert forall i :: 0 <= i < |y| ==> (x + y)[|x| + i] == y[i];
    if IsElement(x + y) {
      forall i | 0 <= i < |y| ensures IsNameChar(y[i]) {
        assert IsNameChar((x + y)[|x| + i]);
      }
    }
  }

  /** The elements of the absolute text are those of the scope and those of the text. */
  lemma KeySplit(scope: Path, v: string)
    requires IsPath(scope)
    ensures Split(KeyFrom(scope, v)) == scope + Split(v)
    ensures Parse(KeyFrom(scope, v)) == scope + Parse(v)
  {
    hide *;
    LegalIs(scope);
    LegalConcat(scope, Split(v));
    ParseIs(v);
    ParseIs(KeyFrom(scope, v));
    KeyFromIs(scope, v);
    if scope == [] {
      assert [] + Split(v) == Split(v);
    } else {
      NoDotInNothing();
      SplitStep("", v);
      assert "" + "." + v == "." + v;
      GoesOn(scope, "." + v);
      MetBehind(scope, Split(v));
      assert Join(scope) + ("." + v) == Join(scope) + "." + v;
    }
  }

  lemma LegalIs(path: Path)
    requires IsPath(path)
    ensures Legal(path) == path
  {
  }

  lemma ParseIs(v: string)
    ensures Parse(v) == Legal(Split(v))
  {
  }

  lemma KeyFromIs(scope: Path, v: string)
    ensures KeyFrom(scope, v) == if scope == [] then v else Join(scope) + "." + v
  {
  }

  lemma NoDotInNothing()
    ensures HasNoDot("")
  {
  }

  lemma MetBehind(a: Path, s: seq<string>)
    requires a != []
    ensures Met(a, [""] + s) == a + s
  {
    assert Last(a) + "" == Last(a);
    assert Init(a) + [Last(a)] == a;
  }

  /** A text whose first elements are `a`, and which goes on, starts with the characters of `a`. */
  lemma ElementsFirst(v: string, a: Path)
    requires a != [] && a < Split(v)
    ensures |Join(a)| < |v| && v[..|Join(a)|] == Join(a)
  {
    hide *;
    var s := Split(v);
    var rest := s[|a|..];
    JoinSplit(v);
    JoinConcat(a, rest);
    assert a + rest == s;
    NotAPrefix(Join(a), Join(a) + "." + Join(rest));
  }

  lemma MetAt(a: Path, s: seq<string>)
    requires a != [] && s != []
    ensures |a| <= |Met(a, s)| && Met(a, s)[|a| - 1] == Last(a) + s[0]
    ensures a <= Met(a, s) <==> s[0] == ""
  {
    if s[0] == "" {
      assert Last(a) + s[0] == Last(a);
    } else {
      assert |Last(a) + s[0]| != |Last(a)|;
    }
  }

  // ---------------------------------------------------------------- rename

  /** Replaces the leading characters `previous`, if the text goes on behind them. */
  function RewriteOnRename(v: string, previous: string, name: string): string {
    if |v| <= |previous| || v[..|previous|] != previous then v
    else name + v[|previous|..]
  }

  /** `v` starts with the characters of `previous`, but its first elements are not those of `previous`. */
  predicate StartsInsideElement(v: string, previous: string) {
    |previous| < |v| && v[..|previous|] == previous && v[|previous|] != '.'
  }

  /** The path of an endpoint after everything strictly below `root` has moved to `to`. */
  function EndpointMovedTo(p: Path, root: Path, to: Path): Path {
    if root < p then to + p[|root|..] else p
  }

  /** What becomes of a text at `scope` when the node at `root` is renamed so that it lies at `to`. */
  function RenamedText(scope: Path, v: string, root: Path, to: Path): string {
    if scope < root && |to| == |root| then RewriteOnRename(v, Join(root[|scope|..]), Join(to[|scope|..])) else v
  }

  predicate IsRename(root: Path, to: Path) {
    IsNodePath(root) && IsNodePath(to) && |to| == |root| && Init(to) == Init(root) && to != root
  }

  /** A text that goes on with a separator is rewritten at its head only. */
  lemma RewriteHead(x: string, y: string, rest: string)
    ensures RewriteOnRename(x + "." + rest, x, y) == y + "." + rest
    ensures !StartsInsideElement(x + "." + rest, x)
  {
    var v := x + "." + rest;
    assert v[..|x|] == x && v[|x|..] == "." + rest && v[|x|] == '.';
    assert y + ("." + rest) == y + "." + rest;
  }

  lemma SliceOfConcat(scope: Path, q: Path, s: Path)
    requires scope < q
    ensures scope < q + s && (q + s)[|scope|..] == q[|scope|..] + s && q[|scope|..] != []
  {
  }

  lemma EnclosesBoth(scope: Path, root: Path, to: Path)
    requires IsRename(root, to) && scope < root
    ensures scope < to
  {
    assert scope <= Init(root);
  }

  lemma RenamedTextIs(scope: Path, v: string, root: Path, to: Path)
    requires IsRename(root, to) && scope < root && scope < to
    ensures RenamedText(scope, v, root, to) == RewriteOnRename(v, Join(root[|scope|..]), Join(to[|scope|..]))
  {
  }

  /** Texts at an enclosing scope that lead into the subtree are rewritten to lead there again. */
  lemma RenameInto(scope: Path, v: string, root: Path, to: Path, p: Path)
    requires IsPath(scope) && IsRename(root, to) && IsNodePath(p)
    requires NamesPath(scope, v, p) && scope < root && root < p
    ensures NamesPath(scope, RenamedText(scope, v, root, to), EndpointMovedTo(p, root, to))
    ensures !StartsInsideElement(v, Join(root[|scope|..]))
  {
    var s := p[|root|..];
    assert p == root + s && s != [] && EndpointMovedTo(p, root, to) == to + s;
    assert IsNodePath(to + s);
    hide *;
    EnclosesBoth(scope, root, to);
    SliceOfConcat(scope, root, s);
    SliceOfConcat(scope, to, s);
    RenamedTextIs(scope, v, root, to);
    var a, b := root[|scope|..], to[|scope|..];
    NamesBelow(scope, v, root + s);
    JoinConcat(a, s);
    JoinConcat(b, s);
    RewriteHead(Join(a), Join(b), Join(s));
    NamesBelow(scope, Join(b + s), to + s);
  }

  /** A text that goes on with a separator behind the text of `a` leads below `a`. */
  lemma SeparatorFollows(a: Path, r: Path)
    requires a != [] && r != [] && IsPath(a) && IsPath(r)
    ensures |Join(a)| < |Join(r)| && Join(r)[..|Join(a)|] == Join(a) && Join(r)[|Join(a)|] == '.' <==> a < r
  {
    DotPrefix(a, r);
    var t, v := Join(a), Join(r);
    if |t| < |v| {
      assert v[..|t| + 1] == v[..|t|] + [v[|t|]];
      assert t + "." <= v <==> v[..|t| + 1] == t + ".";
      assert (t + ".")[..|t|] == t && (t + ".")[|t|] == '.';
    }
  }

  /** Texts at an enclosing scope that lead elsewhere are spoilt when they start with the same characters. */
  lemma RenamePast(scope: Path, v: string, root: Path, to: Path, p: Path)
    requires IsPath(scope) && IsRename(root, to) && IsNodePath(p)
    requires NamesPath(scope, v, p) && scope < root && !(root < p)
    ensures NamesPath(scope, RenamedText(scope, v, root, to), p) <==> !StartsInsideElement(v, Join(root[|scope|..]))
  {
    hide *;
    NamesBelow(scope, v, p);
    RenamedFrom(scope, root, to, p);
    RenamedTextIs(scope, v, root, to);
    var a, b, r := root[|scope|..], to[|scope|..], p[|scope|..];
    var previous, name := Join(a), Join(b);
    StartsInsideIs(v, previous);
    RewriteIsBehind(v, previous, name);
    LegalFrom(scope, p);
    SeparatorFollows(a, r);
    JoinInjective(a, b);
    NamesBelow(scope, RenamedText(scope, v, root, to), p);
    if |previous| < |v| && v[..|previous|] == previous {
      SuffixDecides(previous, name, v[|previous|..]);
    }
  }

  lemma StartsInsideIs(v: string, previous: string)
    ensures StartsInsideElement(v, previous) <==> |previous| < |v| && v[..|previous|] == previous && v[|previous|] != '.'
  {
  }

  lemma LegalFrom(scope: Path, p: Path)
    requires IsNodePath(p) && scope < p
    ensures IsPath(p[|scope|..]) && p[|scope|..] != []
  {
  }

  lemma SuffixDecides(a: string, b: string, rest: string)
    ensures a + rest == b + rest <==> a == b
  {
    if a + rest == b + rest {
      assert (a + rest)[..|a|] == a && (b + rest)[..|b|] == b;
    }
  }

  /** Texts inside the subtree keep their meaning without being touched. */
  lemma InsideKeeps(scope: Path, v: string, root: Path, to: Path, p: Path)
    requires IsPath(scope) && IsNodePath(root) && IsNodePath(to) && IsNodePath(p)
    requires NamesPath(scope, v, p) && Under(root, scope)
    ensures root < p && NamesPath(MovedTo(scope, root, to), v, EndpointMovedTo(p, root, to))
  {
    hide *;
    NamesBelow(scope, v, p);
    var scope', p' := BothMoved(scope, root, to, p);
    NamesBelow(scope', v, p');
  }

  /** A scope in the subtree moves with what lies below it. */
  lemma BothMoved(scope: Path, root: Path, to: Path, p: Path) returns (scope': Path, p': Path)
    requires IsPath(scope) && IsNodePath(root) && IsNodePath(to) && IsNodePath(p) && Under(root, scope) && scope < p
    ensures root < p && scope' == MovedTo(scope, root, to) && p' == EndpointMovedTo(p, root, to)
    ensures IsPath(scope') && IsNodePath(p') && scope' < p' && p'[|scope'|..] == p[|scope|..]
  {
    scope', p' := to + scope[|root|..], to + p[|root|..];
    assert p'[|scope'|..] == p[|scope|..];
  }

  /**
   What a rename does to connections.  Whatever text named an endpoint names the same endpoint
   afterwards, unless its scope encloses the renamed node and the text starts with the characters
   of the node's old path inside a longer element.
   */
  lemma RenameKeepsMeaning(scope: Path, v: string, root: Path, to: Path, p: Path)
    requires IsPath(scope) && IsRename(root, to) && IsNodePath(p) && NamesPath(scope, v, p)
    ensures NamesPath(MovedTo(scope, root, to), RenamedText(scope, v, root, to), EndpointMovedTo(p, root, to)) <==>
              !(scope < root && StartsInsideElement(v, Join(root[|scope|..])))
  {
    if scope < root {
      if root < p {
        RenameInto(scope, v, root, to, p);
      } else {
        RenamePast(scope, v, root, to, p);
      }
    } else if Under(root, scope) {
      InsideKeeps(scope, v, root, to, p);
    } else {
      NamesBelow(scope, v, p);
    }
  }

  /** The rewriting after a rename takes hold of an element of `v` that the parser keeps. */
  predicate Replaces(v: string, a: Path)
    requires a != []
  {
    |Join(a)| < |v| && v[..|Join(a)|] == Join(a) && |a| <= |Split(v)| && IsElement(Split(v)[|a| - 1])
  }

  /** When a rename of what lies at `root` keeps what the text `v` at `scope` means, given that this has
      the path `p`.  For a text that is looked up: if it led into the renamed subtree, its own first
      elements must be those of the renamed path; if not, the rewriting must not replace a legal element. */
  predicate KeptOnRename(how: Reading, scope: Path, v: string, root: Path, p: Path) {
    scope < root ==>
      match how
      case Spelled => !StartsInsideElement(v, Join(root[|scope|..]))
      case LookedUp => if root < p then root[|scope|..] <= Split(v) else !Replaces(v, root[|scope|..])
  }

  /** Two paths that differ in the last element and go on alike, in that element and behind it. */
  lemma GoOnAlike(a: Path, b: Path, x: string, legal: bool, rest: Path)
    requires a != [] && b != [] && |a| == |b| && Init(a) == Init(b) && a != b && (x == "" ==> legal)
    ensures var pa := Init(a) + (if legal then [Last(a) + x] else []) + rest;
            var pb := Init(b) + (if legal then [Last(b) + x] else []) + rest;
            && (a < pa ==> (pb == b + pa[|a|..] <==> x == ""))
            && (!(a < pa) ==> (pb == pa <==> !legal))
  {
    var pa := Init(a) + (if legal then [Last(a) + x] else []) + rest;
    var pb := Init(b) + (if legal then [Last(b) + x] else []) + rest;
    var k := |a| - 1;
    assert a == Init(a) + [Last(a)] && b == Init(b) + [Last(b)];
    assert Last(a) != Last(b);
    SuffixDecides(Last(a), Last(b), x);
    if legal {
      assert pa[k] == Last(a) + x && pb[k] == Last(b) + x;
      if x == "" {
        assert Last(a) + x == Last(a) && Last(b) + x == Last(b);
        assert pb == b + rest;
        assert a < pa ==> pa[|a|..] == rest;
      } else {
        assert |Last(a) + x| != |Last(a)|;
      }
    } else {
      assert pa == pb;
      if a < pa {
        assert pa[k] == a[k] && (b + pa[|a|..])[k] == b[k];
      }
    }
  }

  /** The texts of `a` and `b` with the same behind them, as they are looked up. */
  lemma ParseAlike(a: Path, b: Path, t: string)
    requires a != [] && b != [] && IsPath(a) && IsPath(b) && |a| == |b| && Init(a) == Init(b) && a != b
    ensures var s, r := Split(Join(a) + t), Parse(Join(a) + t);
            && |a| <= |s|
            && (a < r ==> (Parse(Join(b) + t) == b + r[|a|..] <==> a <= s))
            && (!(a < r) ==> (Parse(Join(b) + t) == r <==> !IsElement(s[|a| - 1])))
  {
    var s := Split(t);
    assert IsElement("");
    ElementConcat(Last(a), s[0]);
    hide *;
    GoesOn(a, t);
    GoesOn(b, t);
    MetAt(a, s);
    GoOnAlike(a, b, s[0], IsElement(s[0]), Legal(s[1..]));
  }

  /** A rename seen from a scope that encloses it. */
  lemma RenamedFrom(scope: Path, root: Path, to: Path, p: Path)
    requires IsPath(scope) && IsRename(root, to) && IsNodePath(p) && scope < root && scope < p
    ensures scope < to
    ensures var a, b := root[|scope|..], to[|scope|..];
            && a != [] && b != [] && IsPath(a) && IsPath(b) && |a| == |b| && Init(a) == Init(b) && a != b
    ensures root < p <==> root[|scope|..] < p[|scope|..]
    ensures var p' := EndpointMovedTo(p, root, to);
            && IsNodePath(p') && scope < p'
            && p'[|scope|..] == if root < p then to[|scope|..] + p[|scope|..][|root[|scope|..]|..] else p[|scope|..]
  {
    hide *;
    EnclosesBoth(scope, root, to);
    var a, b, r := root[|scope|..], to[|scope|..], p[|scope|..];
    InitFrom(scope, root);
    InitFrom(scope, to);
    InitFrom(scope, p);
    RenameParts(root, to);
    SlicesOfPath(scope, root);
    SlicesOfPath(scope, to);
    ConcatFirst(scope, Init(a), Init(b));
    ConcatFirst(scope, a, b);
    PrefixFrom(scope, a, r);
    RenamedEndpoint(root, to, p);
    if root < p {
      ShiftBehind(scope, a, b, r);
    }
  }

  lemma InitFrom(scope: Path, q: Path)
    requires scope < q
    ensures q[|scope|..] != [] && scope + q[|scope|..] == q && Init(q) == scope + Init(q[|scope|..])
  {
  }

  lemma RenameParts(root: Path, to: Path)
    requires IsRename(root, to)
    ensures root != [] && to != [] && |root| == |to| && Init(root) == Init(to) && root != to
    ensures IsNodePath(root) && IsNodePath(to)
  {
  }

  lemma SlicesOfPath(scope: Path, q: Path)
    requires IsNodePath(q) && scope < q
    ensures IsPath(q[|scope|..])
  {
  }

  lemma ConcatFirst(a: Path, b: Path, c: Path)
    ensures a + b == a + c <==> b == c
  {
    if a + b == a + c {
      assert (a + b)[|a|..] == b && (a + c)[|a|..] == c;
    }
  }

  lemma PrefixFrom(scope: Path, a: Path, r: Path)
    ensures scope + a < scope + r <==> a < r
  {
    if scope + a < scope + r {
      assert (scope + r)[..|scope + a|] == scope + a;
      assert (scope + r)[..|scope + a|] == scope + r[..|a|];
      ConcatFirst(scope, a, r[..|a|]);
    }
  }

  lemma ShiftBehind(scope: Path, a: Path, b: Path, r: Path)
    requires a < r
    ensures |scope + a| <= |scope + r| && (scope + b) + (scope + r)[|scope + a|..] == scope + (b + r[|a|..])
    ensures (scope + (b + r[|a|..]))[|scope|..] == b + r[|a|..]
  {
  }

  /** Where a rename takes an endpoint. */
  lemma RenamedEndpoint(root: Path, to: Path, p: Path)
    requires IsNodePath(root) && IsNodePath(to) && IsNodePath(p)
    ensures IsNodePath(EndpointMovedTo(p, root, to))
    ensures EndpointMovedTo(p, root, to) == if root < p then to + p[|root|..] else p
  {
  }

  /** The rename lemma for texts that are looked up, at a scope that encloses the renamed node. */
  lemma RenameLookedUp(scope: Path, v: string, root: Path, to: Path, p: Path)
    requires IsPath(scope) && IsRename(root, to) && IsNodePath(p)
    requires LeadsTo(scope, v, p) && scope < root
    ensures LeadsTo(scope, RenamedText(scope, v, root, to), EndpointMovedTo(p, root, to)) <==> KeptOnRename(LookedUp, scope, v, root, p)
  {
    hide *;
    LeadsBelow(scope, v, p);
    RenamedFrom(scope, root, to, p);
    RenamedTextIs(scope, v, root, to);
    var a, b, r := root[|scope|..], to[|scope|..], p[|scope|..];
    var v', p' := RenamedText(scope, v, root, to), EndpointMovedTo(p, root, to);
    LeadsBelow(scope, v', p');
    KeptOnRenameIs(scope, v, root, p);
    RewriteIsBehind(v, Join(a), Join(b));
    if |Join(a)| < |v| && v[..|Join(a)|] == Join(a) {
      ParseAlike(a, b, v[|Join(a)|..]);
    } else if a < r {
      NotRewritten(v, a, b, r);
    }
  }

  lemma KeptOnRenameIs(scope: Path, v: string, root: Path, p: Path)
    requires scope < root
    ensures var a := root[|scope|..];
            KeptOnRename(LookedUp, scope, v, root, p) <==>
              if root < p then a <= Split(v)
              else !(|Join(a)| < |v| && v[..|Join(a)|] == Join(a) && |a| <= |Split(v)| && IsElement(Split(v)[|a| - 1]))
  {
  }

  lemma RewriteIsBehind(v: string, previous: string, name: string)
    ensures if |previous| < |v| && v[..|previous|] == previous then
              v == previous + v[|previous|..] && RewriteOnRename(v, previous, name) == name + v[|previous|..]
            else RewriteOnRename(v, previous, name) == v
  {
  }

  lemma NotRewritten(v: string, a: Path, b: Path, r: Path)
    requires a != [] && |a| == |b| && a != b && Parse(v) == r && a < r
    requires !(|Join(a)| < |v| && v[..|Join(a)|] == Join(a))
    ensures r != b + r[|a|..] && !(a <= Split(v))
  {
    hide *;
    assert r[..|a|] == a && (b + r[|a|..])[..|a|] == b;
    ParseIsNoLonger(v);
    if a < Split(v) {
      ElementsFirst(v, a);
    }
  }

  lemma ParseIsNoLonger(v: string)
    ensures |Parse(v)| <= |Split(v)|
  {
    LegalIsNoLonger(Split(v));
  }

  lemma {:induction false} LegalIsNoLonger(names: seq<string>)
    ensures |Legal(names)| <= |names|
  {
    if names != [] {
      LegalIsNoLonger(names[1..]);
    }
  }

  /** The two rename lemmas in one: what a rename does to connections, in either reading. */
  lemma RenameKeepsReading(how: Reading, scope: Path, v: string, root: Path, to: Path, p: Path)
    requires IsPath(scope) && IsRename(root, to) && IsNodePath(p) && Means(how, scope, v, p)
    ensures Means(how, MovedTo(scope, root, to), RenamedText(scope, v, root, to), EndpointMovedTo(p, root, to)) <==>
              KeptOnRename(how, scope, v, root, p)
  {
    if how.Spelled? {
      RenameKeepsMeaning(scope, v, root, to, p);
    } else if scope < root {
      RenameLookedUp(scope, v, root, to, p);
    } else if Under(root, scope) {
      InsideLeads(scope, v, root, to, p);
    } else {
      LeadsBelow(scope, v, p);
    }
  }

  /** A text means one path at most. */
  lemma MeansOne(how: Reading, scope: Path, v: string, p: Path, p': Path)
    requires IsNodePath(p) && IsNodePath(p') && Means(how, scope, v, p)
    ensures Means(how, scope, v, p') <==> p' == p
  {
    JoinInjective(p, p');
  }

  /** A text that is left as it is keeps its meaning exactly if that does not move. */
  lemma LeftOnRename(how: Reading, scope: Path, v: string, root: Path, to: Path, p: Path)
    requires IsPath(scope) && IsRename(root, to) && IsNodePath(p) && Means(how, scope, v, p) && scope < root
    ensures Means(how, scope, v, EndpointMovedTo(p, root, to)) <==> !(root < p)
  {
    var p' := EndpointMovedTo(p, root, to);
    if root < p {
      SliceOfPath(root, p);
      assert p'[..|to|] == to && p[..|root|] == root;
    }
    MeansOne(how, scope, v, p, p');
  }

  lemma SliceOfPath(root: Path, p: Path)
    requires root < p && IsNodePath(p)
    ensures forall i :: 0 <= i < |p[|root|..]| ==> IsNodeName(p[|root|..][i])
  {
  }

  lemma InsideLeads(scope: Path, v: string, root: Path, to: Path, p: Path)
    requires IsPath(scope) && IsNodePath(root) && IsNodePath(to) && IsNodePath(p)
    requires LeadsTo(scope, v, p) && Under(root, scope)
    ensures root < p && LeadsTo(MovedTo(scope, root, to), v, EndpointMovedTo(p, root, to))
  {
    hide *;
    LeadsBelow(scope, v, p);
    var scope', p' := BothMoved(scope, root, to, p);
    LeadsBelow(scope', v, p');
  }

  /** The family of texts that a rename misses: those that lead into the renamed subtree, but do not
      start with the characters of its path. */
  lemma RenameMisses(scope: Path, v: string, root: Path, to: Path, p: Path)
    requires IsPath(scope) && IsRename(root, to) && IsNodePath(p) && LeadsTo(scope, v, p)
    requires scope < root < p && !(Join(root[|scope|..]) <= v)
    ensures RenamedText(scope, v, root, to) == v && !LeadsTo(scope, v, EndpointMovedTo(p, root, to))
  {
    hide *;
    LeadsBelow(scope, v, p);
    RenamedFrom(scope, root, to, p);
    RenamedTextIs(scope, v, root, to);
    RenameLookedUp(scope, v, root, to, p);
    KeptOnRenameIs(scope, v, root, p);
    var a, b := root[|scope|..], to[|scope|..];
    NotAPrefix(Join(a), v);
    RewriteIsBehind(v, Join(a), Join(b));
    NotRewritten(v, a, b, Parse(v));
  }

  /** One of them: a target with an illegal element in front. */
  lemma RenameMissesDroppedElement()
    ensures LeadsTo([], "$.Osc.pitch", ["Osc", "pitch"])
    ensures RenamedText([], "$.Osc.pitch", ["Osc"], ["Synth"]) == "$.Osc.pitch"
    ensures EndpointMovedTo(["Osc", "pitch"], ["Osc"], ["Synth"]) == ["Synth", "pitch"]
    ensures !LeadsTo([], "$.Osc.pitch", ["Synth", "pitch"])
  {
    hide *;
    var root, to, p := ["Osc"], ["Synth"], ["Osc", "pitch"];
    OscTexts();
    ParseJoin(p);
    IllegalElementIsDropped("$", "Osc.pitch");
    assert "$" + "." + "Osc.pitch" == "$.Osc.pitch";
    assert p[0..] == p && root[0..] == root;
    LeadsBelow([], "$.Osc.pitch", p);
    assert "$.Osc.pitch"[0] != "Osc"[0];
    RenameMisses([], "$.Osc.pitch", root, to, p);
  }

  lemma OscTexts()
    ensures Join(["Osc", "pitch"]) == "Osc.pitch" && Join(["Osc"]) == "Osc"
    ensures IsRename(["Osc"], ["Synth"]) && IsNodePath(["Osc", "pitch"]) && IsPath(["Osc", "pitch"]) && IsPath([])
    ensures HasNoDot("$") && !IsElement("$")
    ensures EndpointMovedTo(["Osc", "pitch"], ["Osc"], ["Synth"]) == ["Synth", "pitch"]
  {
    assert ["Osc", "pitch"][1..] == ["pitch"];
    assert Init(["Osc"]) == Init(["Synth"]);
    assert ["Osc"][0] != ["Synth"][0];
    assert !IsNameChar("$"[0]);
  }

  /** The failing family is not empty: renaming `Osc` spoils a connection to `Osc2`. */
  lemma RenameSpoilsLongerName()
    ensures NamesPath([], "Osc2.pitch", ["Osc2", "pitch"])
    ensures RenamedText([], "Osc2.pitch", ["Osc"], ["Synth"]) == "Synth2.pitch"
    ensures EndpointMovedTo(["Osc2", "pitch"], ["Osc"], ["Synth"]) == ["Osc2", "pitch"]
    ensures !NamesPath([], "Synth2.pitch", ["Osc2", "pitch"])
  {
    assert Join(["Osc2", "pitch"]) == "Osc2" + "." + Join(["Osc2", "pitch"][1..]);
    assert ["Osc2", "pitch"][1..] == ["pitch"];
    assert ["Osc"][0..] == ["Osc"] && ["Synth"][0..] == ["Synth"];
    assert "Osc2.pitch"[..3] == "Osc" && "Osc2.pitch"[3..] == "2.pitch";
    assert "Synth2.pitch"[0] != "Osc2.pitch"[0];
  }

  // ---------------------------------------------------------------- move

  /** A connection at `scope` can only name what lies below `scope`; the update after a move visits
      the scopes that enclose the new place. */
  predicate Visited(scope: Path, to: Path) {
    scope < to
  }

  /** What becomes of the text `v` at `scope` when a node has moved from `root` to `to`. */
  function MovedText(scope: Path, v: string, root: Path, to: Path): string {
    var absolute, previous := KeyFrom(scope, v), Join(root);
    if |previous| > |absolute| || absolute[..|previous|] != previous then v
    else if !(scope <= to) then v
    else Join(to[|scope|..]) + absolute[|previous|..]
  }

  lemma MoveInto(scope: Path, v: string, root: Path, to: Path, p: Path)
    requires IsPath(scope) && IsNodePath(root) && IsNodePath(to) && IsNodePath(p)
    requires NamesPath(scope, v, p) && Visited(scope, to) && root < p
    ensures NamesPath(scope, MovedText(scope, v, root, to), EndpointMovedTo(p, root, to))
  {
    var b, s := to[|scope|..], p[|root|..];
    assert p == root + s && s != [] && EndpointMovedTo(p, root, to) == to + s;
    assert IsNodePath(to + s) && KeyFrom(scope, v) == Join(p);
    hide *;
    SliceOfConcat(scope, to, s);
    JoinConcat(root, s);
    JoinConcat(b, s);
    VisitedIs(scope, to);
    MoveHead(scope, v, root, to, Join(s));
    NamesBelow(scope, Join(b + s), to + s);
  }

  lemma VisitedIs(scope: Path, to: Path)
    ensures Visited(scope, to) <==> scope < to
  {
  }

  lemma MoveHead(scope: Path, v: string, root: Path, to: Path, rest: string)
    requires KeyFrom(scope, v) == Join(root) + "." + rest && Visited(scope, to)
    ensures MovedText(scope, v, root, to) == Join(to[|scope|..]) + "." + rest
  {
    hide Join;
    var absolute, previous := KeyFrom(scope, v), Join(root);
    assert absolute == previous + ("." + rest);
    assert absolute[..|previous|] == previous && absolute[|previous|..] == "." + rest;
    assert Join(to[|scope|..]) + ("." + rest) == Join(to[|scope|..]) + "." + rest;
  }

  lemma MovePast(scope: Path, v: string, root: Path, to: Path, p: Path)
    requires IsPath(scope) && IsNodePath(root) && IsNodePath(to) && IsNodePath(p)
    requires NamesPath(scope, v, p) && Visited(scope, to) && !(root < p)
    ensures NamesPath(scope, MovedText(scope, v, root, to), p) <==> !(Join(root) <= Join(p)) || to == root
  {
    hide *;
    var absolute, previous := Join(p), Join(root);
    VisitedIs(scope, to);
    NodePathIsPath(root);
    NodePathIsPath(to);
    NamesPathIs(scope, v, p);
    NamesPathIs(scope, MovedText(scope, v, root, to), p);
    MovedKey(scope, v, root, to);
    JoinInjective(root, to);
    if previous <= absolute {
      var rest := absolute[|previous|..];
      assert absolute == previous + rest;
      SuffixDecides(Join(to), previous, rest);
    }
  }

  lemma NamesPathIs(scope: Path, v: string, p: Path)
    ensures NamesPath(scope, v, p) <==> KeyFrom(scope, v) == Join(p)
  {
  }

  lemma NodePathIsPath(q: Path)
    requires IsNodePath(q)
    ensures IsPath(q) && q != []
  {
  }

  lemma NotAPrefix(a: string, s: string)
    ensures a <= s <==> |a| <= |s| && s[..|a|] == a
  {
  }

  lemma KeyOfConcat(scope: Path, v: string, rest: string)
    ensures KeyFrom(scope, v + rest) == KeyFrom(scope, v) + rest
  {
    var t := Join(scope) + ".";
    assert t + (v + rest) == (t + v) + rest;
  }

  /** From outside, nothing can be named in a place that is not below. */
  lemma OutOfReach(scope: Path, v: string, p: Path)
    requires IsPath(scope) && IsNodePath(p) && !(scope < p)
    ensures !NamesPath(scope, v, p)
  {
    NamesBelow(scope, v, p);
  }

  /**
   What a move does to connections, when nothing lay at the new place before.  A text that named
   something in the moved subtree names the same endpoint afterwards exactly when its scope lies in
   the subtree too or encloses the new place; a text that named something else does unless its scope
   encloses the new place and the endpoint's path starts with the characters of the old place.
   */
  lemma MoveKeepsMeaning(scope: Path, v: string, root: Path, to: Path, p: Path)
    requires IsPath(scope) && IsNodePath(root) && IsNodePath(to) && IsNodePath(p)
    requires NamesPath(scope, v, p)
    requires Under(to, scope) ==> Under(root, scope)
    ensures var scope' := MovedTo(scope, root, to);
            var v' := if Visited(scope', to) then MovedText(scope', v, root, to) else v;
            NamesPath(scope', v', EndpointMovedTo(p, root, to)) <==>
              if root < p then Under(root, scope) || Visited(scope, to)
              else !Visited(scope, to) || !(Join(root) <= Join(p)) || to == root
  {
    NamesBelow(scope, v, p);
    if Under(root, scope) {
      InsideKeeps(scope, v, root, to, p);
    } else if Visited(scope, to) {
      if root < p {
        MoveInto(scope, v, root, to, p);
      } else {
        MovePast(scope, v, root, to, p);
      }
    } else if root < p {
      OutOfReach(scope, v, EndpointMovedTo(p, root, to));
    }
  }

  /** Where the old text cannot be kept no other text would do: the endpoint is out of reach. */
  lemma MoveOutOfReach(scope: Path, v: string, root: Path, to: Path, p: Path)
    requires IsPath(scope) && IsNodePath(root) && IsNodePath(to) && IsNodePath(p)
    requires root < p && !Under(root, scope) && !Visited(scope, to)
    requires Under(to, scope) ==> Under(root, scope)
    ensures !NamesPath(scope, v, EndpointMovedTo(p, root, to))
  {
    var s := p[|root|..];
    PrefixesOfOne(scope, to, s);
    OutOfReach(scope, v, to + s);
  }

  lemma PrefixesOfOne(a: Path, b: Path, s: Path)
    ensures a < b + s ==> Under(b, a) || a < b
  {
  }

  // ---------------------------------------------------------------- move, in either reading

  /** A move hangs a node elsewhere under its own name. */
  predicate IsMove(root: Path, to: Path) {
    IsNodePath(root) && IsNodePath(to) && Last(to) == Last(root)
  }

  /**
   When the move of what lies at `root` to `to` keeps what the text `v` means that a connection at `q`
   holds, given that this has the path `p`.  A connection inside the moved subtree keeps it.  One whose
   scope does not enclose the new place keeps it if it leads elsewhere.  One whose scope does keeps it if
   its absolute text starts with the characters of the old place just when it leads into the subtree.
   If the connection is itself what moves, it keeps only what leads below itself, and that only if its
   text does not, from the new place, start with the characters of the old one.
   */
  predicate KeptOnMove(q: Path, v: string, root: Path, to: Path, p: Path) {
    if q == root then to == root || (root < p && !(Join(root) <= KeyFrom(ScopeOf(to), v)))
    else if Under(root, q) then true
    else if !Visited(ScopeOf(q), to) then !(root < p)
    else to == root || (root < p <==> Join(root) <= KeyFrom(ScopeOf(q), v))
  }

  /** A text leads to what the parser makes of its absolute text, if that lies below the scope. */
  lemma LeadsByKey(scope: Path, v: string, p: Path)
    requires IsPath(scope) && IsNodePath(p)
    ensures LeadsTo(scope, v, p) <==> scope < p && Parse(KeyFrom(scope, v)) == p
  {
    hide *;
    LeadsBelow(scope, v, p);
    KeySplit(scope, v);
    if scope < p {
      SuffixIs(scope, Parse(v), p);
    }
  }

  /** What the rewriting after a move makes of an absolute text. */
  lemma MovedKey(scope: Path, v: string, root: Path, to: Path)
    requires IsPath(scope) && IsNodePath(to) && scope < to
    ensures var absolute := KeyFrom(scope, v);
            KeyFrom(scope, MovedText(scope, v, root, to)) ==
            if Join(root) <= absolute then Join(to) + absolute[|Join(root)|..] else absolute
  {
    var absolute, b := KeyFrom(scope, v), to[|scope|..];
    NamesBelow(scope, Join(b), to);
    NotAPrefix(Join(root), absolute);
    if Join(root) <= absolute {
      KeyOfConcat(scope, Join(b), absolute[|Join(root)|..]);
    }
  }

  /** Behind two paths that end alike, the parser makes the same of what follows. */
  lemma ParseMoved(root: Path, to: Path, absolute: string) returns (x: Path)
    requires IsMove(root, to) && Join(root) <= absolute
    ensures Parse(absolute) == Init(root) + x
    ensures Parse(Join(to) + absolute[|Join(root)|..]) == Init(to) + x
  {
    hide *;
    MoveParts(root, to);
    var t := absolute[|Join(root)|..];
    assert absolute == Join(root) + t;
    GoesOn(root, t);
    GoesOn(to, t);
    var head := if IsElement(Split(t)[0]) then [Last(root) + Split(t)[0]] else [];
    x := head + Legal(Split(t)[1..]);
    Concat3(Init(root), head, Legal(Split(t)[1..]));
    Concat3(Init(to), head, Legal(Split(t)[1..]));
  }

  lemma MoveParts(root: Path, to: Path)
    requires IsMove(root, to)
    ensures IsNodePath(root) && IsNodePath(to) && IsPath(root) && IsPath(to) && root != [] && to != []
    ensures Last(to) == Last(root) && IsPath(Init(root)) && IsPath(Init(to))
    ensures Init(root) + [Last(root)] == root && Init(to) + [Last(root)] == to
    ensures Init(to) == Init(root) <==> to == root
  {
  }

  /** Where a move takes an endpoint: if it lay below the node, what followed the old place follows the new. */
  lemma MovedBehind(root: Path, to: Path, p: Path)
    requires IsMove(root, to) && IsNodePath(p)
    ensures IsNodePath(EndpointMovedTo(p, root, to))
    ensures !(root < p) ==> EndpointMovedTo(p, root, to) == p
    ensures root < p ==> to < EndpointMovedTo(p, root, to)
    ensures forall x :: root < p && p == Init(root) + x ==> EndpointMovedTo(p, root, to) == Init(to) + x
    ensures root < p ==> (EndpointMovedTo(p, root, to) == p <==> to == root)
  {
    if root < p {
      var s := p[|root|..];
      assert p == root + s && s != [];
      MovedParts(root, to, s);
    }
  }

  lemma MovedParts(root: Path, to: Path, s: Path)
    requires IsMove(root, to) && s != [] && IsNodePath(root + s)
    ensures EndpointMovedTo(root + s, root, to) == to + s && IsNodePath(to + s) && to < to + s
    ensures to + s == root + s <==> to == root
    ensures forall x :: root + s == Init(root) + x ==> to + s == Init(to) + x
  {
    hide Join;
    SuffixFirst(to, root, s);
    forall x | root + s == Init(root) + x ensures to + s == Init(to) + x {
      hide *;
      MoveParts(root, to);
      Concat3(Init(root), [Last(root)], s);
      Concat3(Init(to), [Last(root)], s);
      Crossed(Init(root), Init(root), x, [Last(root)] + s);
    }
    forall i | 0 <= i < |s| ensures IsNodeName(s[i]) {
      assert (root + s)[|root| + i] == s[i];
    }
  }

  lemma SuffixFirst(a: Path, b: Path, s: Path)
    ensures a + s == b + s <==> a == b
  {
    if a + s == b + s {
      assert (a + s)[..|a|] == a && (b + s)[..|b|] == b;
    }
  }

  /** The move lemma for texts that are looked up, at a scope that encloses the new place. */
  lemma MoveLookedUp(scope: Path, v: string, root: Path, to: Path, p: Path)
    requires IsPath(scope) && IsMove(root, to) && IsNodePath(p) && LeadsTo(scope, v, p) && scope < to
    ensures LeadsTo(scope, MovedText(scope, v, root, to), EndpointMovedTo(p, root, to)) <==>
              to == root || (root < p <==> Join(root) <= KeyFrom(scope, v))
  {
    hide *;
    MoveParts(root, to);
    MovedBehind(root, to, p);
    MovedKey(scope, v, root, to);
    LeadsByKey(scope, v, p);
    var v', p' := MovedText(scope, v, root, to), EndpointMovedTo(p, root, to);
    LeadsByKey(scope, v', p');
    var absolute := KeyFrom(scope, v);
    assert scope < p';
    if Join(root) <= absolute {
      var x := ParseMoved(root, to, absolute);
      SuffixFirst(Init(to), Init(root), x);
    }
  }

  /** The same for the ends of the connection that moves, whose scope changes with it. */
  lemma OwnLookedUp(v: string, root: Path, to: Path, p: Path)
    requires IsMove(root, to) && IsNodePath(p) && LeadsTo(Init(root), v, p)
    ensures LeadsTo(Init(to), MovedText(Init(to), v, root, to), EndpointMovedTo(p, root, to)) <==>
              to == root || (root < p && !(Join(root) <= KeyFrom(Init(to), v)))
  {
    hide *;
    MoveParts(root, to);
    MovedBehind(root, to, p);
    MovedKey(Init(to), v, root, to);
    LeadsBelow(Init(root), v, p);
    KeySplit(Init(to), v);
    var v', p', u := MovedText(Init(to), v, root, to), EndpointMovedTo(p, root, to), Parse(v);
    LeadsByKey(Init(to), v', p');
    var absolute := KeyFrom(Init(to), v);
    assert p == Init(root) + u && Parse(absolute) == Init(to) + u;
    SuffixFirst(Init(to), Init(root), u);
    if Join(root) <= absolute {
      var x := ParseMoved(root, to, absolute);
      Crossed(Init(to), Init(root), u, x);
    }
    assert root < p ==> p' == Init(to) + u;
  }

  lemma Crossed(a: Path, b: Path, u: Path, x: Path)
    requires a + u == b + x
    ensures a + x == b + u <==> a == b
    ensures x == u <==> a == b
    ensures a + x == a + u <==> a == b
  {
    if a + x == b + u {
      assert |a| == |b|;
      assert (a + u)[..|a|] == a && (b + x)[..|b|] == b;
    }
    if a == b {
      assert (a + u)[|a|..] == u && (b + x)[|b|..] == x;
    }
    if x == u {
      SuffixFirst(a, b, u);
    }
    if a + x == a + u {
      assert (a + x)[|a|..] == x && (a + u)[|a|..] == u;
    }
  }

  /** Rewriting makes no illegal character, and needs none to have been there. */
  lemma MovedStaysCanonical(scope: Path, v: string, root: Path, to: Path)
    requires IsPath(scope) && IsNodePath(to) && IsCanonical(v)
    ensures IsCanonical(MovedText(scope, v, root, to))
  {
    var absolute := KeyFrom(scope, v);
    JoinCanonical(scope);
    assert IsCanonical(absolute);
    if scope <= to && Join(root) <= absolute {
      JoinCanonical(to[|scope|..]);
      var t := absolute[|Join(root)|..];
      assert forall i :: 0 <= i < |t| ==> t[i] == absolute[|Join(root)| + i];
    } else {
      NotAPrefix(Join(root), absolute);
    }
  }

  /** The ends of the connection that moves, in either reading. */
  lemma OwnKeptOnMove(how: Reading, v: string, root: Path, to: Path, p: Path)
    requires IsMove(root, to) && IsNodePath(p) && Means(how, Init(root), v, p)
    ensures Means(how, Init(to), MovedText(Init(to), v, root, to), EndpointMovedTo(p, root, to)) <==>
              KeptOnMove(root, v, root, to, p)
  {
    MoveParts(root, to);
    MovedBehind(root, to, p);
    var v', p' := MovedText(Init(to), v, root, to), EndpointMovedTo(p, root, to);
    hide IsMove, IsNodePath, IsPath, MovedText, EndpointMovedTo, LeadsTo, NamesPath, Join, Init;
    if how.Spelled? {
      SpelledLeads(Init(root), v, p);
      MovedStaysCanonical(Init(to), v, root, to);
      SpelledLeads(Init(to), v', p');
    }
    OwnLookedUp(v, root, to, p);
  }

  /** What a move does to other connections, in either reading, when nothing lay at the new place before. */
  lemma MoveKeepsReading(how: Reading, q: Path, v: string, root: Path, to: Path, p: Path)
    requires IsNodePath(q) && q != root && IsMove(root, to) && IsNodePath(p) && Means(how, Init(q), v, p)
    requires IsPath(Init(q)) && (Under(to, Init(q)) ==> Under(root, Init(q))) && (Under(root, Init(q)) <==> Under(root, q))
    ensures var scope' := MovedTo(Init(q), root, to);
            var v' := if Visited(scope', to) then MovedText(scope', v, root, to) else v;
            Means(how, scope', v', EndpointMovedTo(p, root, to)) <==> KeptOnMove(q, v, root, to, p)
  {
    var scope := Init(q);
    MoveParts(root, to);
    if how.Spelled? {
      MoveKeepsMeaning(scope, v, root, to, p);
      NamesBelow(scope, v, p);
      if Visited(scope, to) && root < p {
        DotPrefix(root, p);
      }
    } else if Under(root, scope) {
      InsideLeads(scope, v, root, to, p);
    } else if Visited(scope, to) {
      MoveLookedUp(scope, v, root, to, p);
    } else {
      LeadsBelow(scope, v, p);
      if root < p {
        var p' := EndpointMovedTo(p, root, to);
        PrefixesOfOne(scope, to, p[|root|..]);
        MovedBehind(root, to, p);
        LeadsBelow(scope, v, p');
      }
    }
  }

  /** The same for a move, when the scope stays: what the text means moves or stays. */
  lemma LeftOnMove(how: Reading, scope: Path, v: string, root: Path, to: Path, p: Path)
    requires IsMove(root, to) && IsNodePath(p) && Means(how, scope, v, p)
    ensures Means(how, scope, v, EndpointMovedTo(p, root, to)) <==> to == root || !(root < p)
  {
    hide Means, IsMove, IsNodePath, EndpointMovedTo;
    MovedBehind(root, to, p);
    MeansOne(how, scope, v, p, EndpointMovedTo(p, root, to));
  }

  /** For the ends of the connection that moves, the text keeps what leads below the connection itself. */
  lemma OwnLeftOnMove(how: Reading, v: string, root: Path, to: Path, p: Path)
    requires IsMove(root, to) && IsNodePath(p) && Means(how, Init(root), v, p)
    ensures Means(how, Init(to), v, EndpointMovedTo(p, root, to)) <==> to == root || root < p
  {
    hide *;
    MoveParts(root, to);
    MovedBehind(root, to, p);
    var p', u := EndpointMovedTo(p, root, to), Parse(v);
    MeansLeads(how, Init(root), v, p);
    MeansLeads(how, Init(to), v, p');
    LeadsBelow(Init(root), v, p);
    LeadsBelow(Init(to), v, p');
    assert p == Init(root) + u && u != [];
    if root < p {
      assert p' == Init(to) + u;
    } else if Init(to) < p && u == p[|Init(to)|..] {
      assert p == Init(to) + u;
      SuffixFirst(Init(to), Init(root), u);
    }
  }

  lemma MeansLeads(how: Reading, scope: Path, v: string, p: Path)
    requires IsPath(scope) && IsNodePath(p)
    ensures Means(how, scope, v, p) <==> LeadsTo(scope, v, p) && (how.Spelled? ==> IsCanonical(v))
  {
    SpelledLeads(scope, v, p);
  }
}
