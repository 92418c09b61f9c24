/**
 Path values and their text form.

 A path is a sequence of element names.  Its text joins the elements with '.', and that text is
 what the server's index is keyed by.  This module says what the text of a path is, proves that
 parsing undoes joining, and that distinct paths therefore never share an index key.
 */
module Paths {

  type Path = seq<string>

  datatype Option<+T> = None | Some(value: T)

  /** The characters a node name may contain. */
  predicate IsNameChar(c: char) {
    || '0' <= c <= '9'
    || c == '_'
    || 'a' <= c <= 'z'
    || 'A' <= c <= 'Z'
  }

  /** They are digits, the underscore and the letters of the alphabet. */
  lemma NameCharsAre(c: char)
    ensures IsNameChar(c) <==> c in "0123456789_" || c in "abcdefghijklmnopqrstuvwxyz" || c in "ABCDEFGHIJKLMNOPQRSTUVWXYZ"
  {
    Digits(c);
    SmallLetters(c);
    CapitalLetters(c);
  }

  lemma Digits(c: char)
    ensures '0' <= c <= '9' || c == '_' <==> c in "0123456789_"
  {
    assert '0' <= c <= '9' ==> "0123456789_"[c as int - 48] == c;
    assert c == '_' ==> "0123456789_"[10] == c;
  }

  lemma SmallLetters(c: char)
    ensures 'a' <= c <= 'z' <==> c in "abcdefghijklmnopqrstuvwxyz"
  {
    assert 'a' <= c <= 'z' ==> "abcdefghijklmnopqrstuvwxyz"[c as int - 97] == c;
  }

  lemma CapitalLetters(c: char)
    ensures 'A' <= c <= 'Z' <==> c in "ABCDEFGHIJKLMNOPQRSTUVWXYZ"
  {
    assert 'A' <= c <= 'Z' ==> "ABCDEFGHIJKLMNOPQRSTUVWXYZ"[c as int - 65] == c;
  }

  /** What appending an element demands: no illegal character.  The empty name passes. */
  predicate IsElement(name: string) {
    forall i :: 0 <= i < |name| ==> IsNameChar(name[i])
  }

  /** What creating or renaming a node demands: legal and not empty. */
  predicate IsNodeName(name: string) {
    name != "" && IsElement(name)
  }

  predicate IsPath(path: Path) {
    forall i :: 0 <= i < |path| ==> IsElement(path[i])
  }

  /** The path of something that lives in the tree. */
  predicate IsNodePath(path: Path) {
    path != [] && forall i :: 0 <= i < |path| ==> IsNodeName(path[i])
  }

  function Last(path: Path): string
    requires path != []
  {
    path[|path| - 1]
  }

  function Init(path: Path): Path
    requires path != []
  {
    path[..|path| - 1]
  }

  // ---------------------------------------------------------------- joining and splitting

  function Join(path: Path): string {
    if path == [] then ""
    else if |path| == 1 then path[0]
    else path[0] + "." + Join(path[1..])
  }

  predicate HasNoDot(s: string) {
    forall i :: 0 <= i < |s| ==> s[i] != '.'
  }

  /** The stretches of `s` between separators. */
  function Split(s: string): (r: seq<string>)
    ensures r != []
  {
    if s == "" then [""]
    else
      var rest := Split(s[1..]);
      if s[0] == '.' then [""] + rest else [[s[0]] + rest[0]] + rest[1..]
  }

  /** What is kept of one element. */
  function Kept(name: string): Path {
    if IsElement(name) then [name] else []
  }

  /** The legal elements of `names`; an illegal element is dropped, not reported to the caller. */
  function Legal(names: seq<string>): (r: Path)
    ensures IsPath(r)
    ensures IsPath(names) ==> r == names
  {
    if names == [] then []
    else
      Kept(names[0]) + Legal(names[1..])
  }

  /** What the parsing constructor makes of a text. */
  function Parse(s: string): Path {
    Legal(Split(s))
  }

  lemma LegalCons(name: string, names: seq<string>)
    ensures Legal([name] + names) == Kept(name) + Legal(names)
  {
    assert ([name] + names)[1..] == names;
  }

  lemma {:induction false} LegalConcat(a: seq<string>, b: seq<string>)
    ensures Legal(a + b) == Legal(a) + Legal(b)
  {
    hide *;
    if a == [] {
      NothingLegal();
      assert a + b == b;
    } else {
      var x, rest := a[0], a[1..];
      LegalConcat(rest, b);
      LegalCons(x, rest);
      LegalCons(x, rest + b);
      Concat3(Kept(x), Legal(rest), Legal(b));
      Concat3([x], rest, b);
      assert a == [x] + rest;
    }
  }

  lemma NothingLegal()
    ensures Legal([]) == []
  {
  }

  /** A text made only of name characters and separators. */
  predicate IsCanonical(s: string) {
    forall i :: 0 <= i < |s| ==> s[i] == '.' || IsNameChar(s[i])
  }

  lemma {:induction false} JoinSnoc(path: Path, name: string)
    requires path != []
    ensures Join(path + [name]) == Join(path) + "." + name
  {
    if |path| > 1 {
      assert (path + [name])[1..] == path[1..] + [name];
      JoinSnoc(path[1..], name);
    } else {
      assert (path + [name])[1..] == [name];
    }
  }

  lemma {:induction false} JoinConcat(p: Path, q: Path)
    requires p != [] && q != []
    ensures Join(p + q) == Join(p) + "." + Join(q)
  {
    if |p| > 1 {
      assert (p + q)[1..] == p[1..] + q;
      JoinConcat(p[1..], q);
    } else {
      assert (p + q)[1..] == q;
    }
  }

  lemma {:induction false} SplitStep(x: string, y: string)
    requires HasNoDot(x)
    ensures Split(x + "." + y) == [x] + Split(y)
  {
    var s := x + "." + y;
    if x == "" {
      assert s[1..] == y;
    } else {
      SplitStep(x[1..], y);
      assert s[1..] == x[1..] + "." + y && [s[0]] + x[1..] == x;
    }
  }

  /** One list behind another, with the last element of the one and the first of the other in one. */
  function Met(r: seq<string>, s: seq<string>): seq<string>
    requires r != [] && s != []
  {
    Init(r) + [Last(r) + s[0]] + s[1..]
  }

  /** Where two texts meet, the last element of the one and the first of the other become one element. */
  lemma {:induction false} SplitConcat(x: string, y: string)
    ensures Split(x + y) == Met(Split(x), Split(y))
  {
    if x == "" {
      assert "" + y == y;
      MetEmpty(Split(y));
    } else {
      SplitConcat(x[1..], y);
      assert (x + y)[1..] == x[1..] + y && (x + y)[0] == x[0];
      MetFirst(Split(x[1..]), Split(y), x[0]);
    }
  }

  lemma MetEmpty(s: seq<string>)
    requires s != []
    ensures Met([""], s) == s
  {
    assert "" + s[0] == s[0];
  }

  /** A character in front changes only the first element, or adds one. */
  lemma MetFirst(r: seq<string>, s: seq<string>, c: char)
    requires r != [] && s != []
    ensures Met([""] + r, s) == [""] + Met(r, s)
    ensures Met([[c] + r[0]] + r[1..], s) == [[c] + Met(r, s)[0]] + Met(r, s)[1..]
  {
    assert [c] + (r[0] + s[0]) == [c] + r[0] + s[0];
  }

  lemma {:induction false} SplitElement(x: string)
    requires HasNoDot(x)
    ensures Split(x) == [x]
  {
    if x != "" {
      SplitElement(x[1..]);
      assert [x[0]] + x[1..] == x;
    }
  }

  /** Splitting undoes joining. */
  lemma {:induction false} SplitJoin(path: Path)
    requires path != [] && IsPath(path)
    ensures Split(Join(path)) == path
  {
    ElementHasNoDot(path[0]);
    if |path| == 1 {
      SplitElement(path[0]);
    } else {
      SplitJoin(path[1..]);
      SplitStep(path[0], Join(path[1..]));
    }
  }

  lemma ElementHasNoDot(name: string)
    requires IsElement(name)
    ensures HasNoDot(name)
  {
    forall i | 0 <= i < |name| ensures name[i] != '.' {
      assert IsNameChar(name[i]);
    }
  }

  /** Joining undoes splitting. */
  lemma {:induction false} JoinSplit(s: string)
    ensures Join(Split(s)) == s
    ensures IsCanonical(s) ==> IsPath(Split(s))
  {
    if s != "" {
      var rest := Split(s[1..]);
      JoinSplit(s[1..]);
      if s[0] == '.' {
        assert ([""] + rest)[1..] == rest;
      } else {
        assert ([[s[0]] + rest[0]] + rest[1..])[1..] == rest[1..];
      }
    }
  }

  /** Parsing gives back exactly the non-empty paths: the empty path comes back as one empty element. */
  lemma ParseJoin(path: Path)
    requires IsPath(path)
    ensures Parse(Join(path)) == path <==> path != []
    ensures path == [] ==> Parse(Join(path)) == [""]
  {
    if path != [] {
      SplitJoin(path);
    } else {
      assert Split("") == [""];
    }
  }

  /** Printing gives back a text exactly when the text held no illegal character. */
  lemma JoinParse(s: string)
    ensures Join(Parse(s)) == s <==> IsCanonical(s)
  {
    if IsCanonical(s) {
      JoinSplit(s);
    } else if Join(Parse(s)) == s {
      JoinCanonical(Parse(s));
    }
  }

  lemma {:induction false} JoinCanonical(path: Path)
    requires IsPath(path)
    ensures IsCanonical(Join(path))
  {
    if |path| > 1 {
      JoinCanonical(path[1..]);
    }
  }

  /** Distinct non-empty paths have distinct texts, so index keys do not collide. */
  lemma JoinInjective(p: Path, q: Path)
    requires p != [] && q != [] && IsPath(p) && IsPath(q)
    ensures Join(p) == Join(q) <==> p == q
  {
    SplitJoin(p);
    SplitJoin(q);
  }

  /** The text of `p` followed by '.' starts the text of `q` exactly when `p` is a proper prefix of `q`. */
  lemma {:induction false} DotPrefix(p: Path, q: Path)
    requires p != [] && q != [] && IsPath(p) && IsPath(q)
    ensures Join(p) + "." <= Join(q) <==> p < q
  {
    if p < q {
      JoinConcat(p, q[|p|..]);
      assert p + q[|p|..] == q;
    } else if Join(p) + "." <= Join(q) {
      var tail := Join(q)[|Join(p)| + 1..];
      assert Join(q) == Join(p) + "." + tail;
      JoinCanonical(q);
      assert IsCanonical(tail) by {
        forall i | 0 <= i < |tail| ensures tail[i] == '.' || IsNameChar(tail[i]) {
          assert tail[i] == Join(q)[|Join(p)| + 1 + i];
        }
      }
      JoinSplit(tail);
      JoinConcat(p, Split(tail));
      JoinInjective(p + Split(tail), q);
    }
  }

  // ---------------------------------------------------------------- lookups

  /** The text looked up for `path` relative to the node at `scope`, or absolutely if there is none. */
  function LookupKey(scope: Path, path: Path): string {
    if scope == [] then Join(path) else Join(scope) + "." + Join(path)
  }

  /** A relative lookup asks for the text of the concatenated elements; that of an empty path asks
      for a text no path has. */
  lemma RelativeLookup(scope: Path, path: Path, candidate: Path)
    requires IsPath(scope) && IsPath(path) && IsNodePath(candidate)
    ensures LookupKey(scope, path) == Join(candidate) <==> path != [] && candidate == scope + path
  {
    if path != [] {
      if scope == [] {
        assert scope + path == path;
      } else {
        JoinConcat(scope, path);
      }
      JoinInjective(scope + path, candidate);
    } else if scope == [] {
      JoinNotEmpty(candidate);
    } else if scope < candidate {
      var rest := candidate[|scope|..];
      JoinConcat(scope, rest);
      assert scope + rest == candidate;
      JoinNotEmpty(rest);
    } else {
      DotPrefix(scope, candidate);
    }
  }

  lemma JoinNotEmpty(path: Path)
    requires IsNodePath(path)
    ensures Join(path) != ""
  {
    assert IsNodeName(path[0]);
  }

  lemma Concat3(a: seq<string>, b: seq<string>, c: seq<string>)
    ensures (a + b) + c == a + (b + c)
  {
  }

  /** What one turn of the parsing loop takes off the text. */
  lemma ParseStep(s: string, start: nat, end: nat)
    requires start <= end < |s| && s[end] == '.'
    requires forall i :: start <= i < end ==> s[i] != '.'
    ensures Parse(s[start..]) == Kept(s[start..end]) + Parse(s[end + 1..])
  {
    var x, y := s[start..end], s[end + 1..];
    assert s[start..] == x + "." + y;
    SplitStep(x, y);
    LegalCons(x, Split(y));
  }

  lemma ParseElement(x: string)
    requires HasNoDot(x)
    ensures Parse(x) == Kept(x)
  {
    SplitElement(x);
    LegalCons(x, []);
  }

  /** The first position of `c` from `start` on, or the length of `s` if there is none. */
  method Find(s: string, c: char, start: nat) returns (end: nat)
    requires start <= |s|
    ensures start <= end <= |s|
    ensures end < |s| ==> s[end] == c
    ensures forall i :: start <= i < end ==> s[i] != c
  {
    end := start;
    while end < |s| && s[end] != c
      invariant start <= end <= |s|
      invariant forall i :: start <= i < end ==> s[i] != c
    {
      end := end + 1;
    }
  }

  // ---------------------------------------------------------------- the path object

  /** A path object: its elements, and a text that is rebuilt whenever it is asked for. */
  class PathObject {
    var elements: Path
    var text: string
    var textIsValid: bool

    ghost predicate Valid()
      reads this
    {
      IsPath(elements) && !textIsValid
    }

    constructor Empty()
      ensures Valid() && elements == []
    {
      elements, text, textIsValid := [], "", false;
    }

    lemma NothingIsValid()
      requires elements == [] && !textIsValid
      ensures Valid()
    {
    }

    /** Parses a text, dropping illegal elements. */
    constructor (s: string)
      ensures Valid() && elements == Parse(s)
    {
      hide *;
      elements, text, textIsValid := [], "", false;
      new;
      NothingIsValid();
      var start := 0;
      assert s[0..] == s && elements + Parse(s) == Parse(s);
      while true
        invariant 0 <= start <= |s|
        invariant Valid() && elements + Parse(s[start..]) == Parse(s)
        invariant fresh(this)
        decreases |s| - start
      {
        var end := Find(s, '.', start);
        if end == |s| {
          ParseElement(s[start..]);
          Append(s[start..]);
          break;
        }
        ParseStep(s, start, end);
        Concat3(elements, Kept(s[start..end]), Parse(s[end + 1..]));
        Append(s[start..end]);
        start := end + 1;
      }
    }

    constructor Copy(other: PathObject)
      requires other.Valid()
      ensures Valid() && elements == other.elements
    {
      elements, text, textIsValid := other.elements, "", false;
    }

    /** Appends a legal element; an illegal one leaves the path as it was. */
    method Append(name: string)
      requires Valid()
      modifies this
      ensures Valid()
      ensures elements == old(elements) + Kept(name)
    {
      if !IsElement(name) {
        return;
      }
      elements := elements + [name];
      textIsValid := false;
    }

    /** Removes and returns the last element; popping an empty path gives the empty name. */
    method Pop() returns (name: string)
      requires Valid()
      modifies this
      ensures Valid()
      ensures old(elements) == [] ==> name == "" && elements == []
      ensures old(elements) != [] ==> elements + [name] == old(elements)
    {
      if |elements| == 0 {
        return "";
      }
      name := elements[|elements| - 1];
      elements := elements[..|elements| - 1];
      textIsValid := false;
    }

    method GetString() returns (s: string)
      requires Valid()
      modifies this
      ensures Valid() && elements == old(elements)
      ensures s == text == Join(elements)
    {
      if !textIsValid {
        RebuildString();
      }
      s := text;
    }

    method RebuildString()
      requires Valid()
      modifies `text
      ensures text == Join(elements)
    {
      text := "";
      var first := true;
      for i := 0 to |elements|
        invariant first <==> i == 0
        invariant text == Join(elements[..i])
      {
        if first {
          first := false;
        } else {
          text := text + ".";
        }
        text := text + elements[i];
        assert elements[..i + 1] == elements[..i] + [elements[i]];
        if i > 0 {
          JoinSnoc(elements[..i], elements[i]);
        }
      }
      assert elements[..|elements|] == elements;
    }

    /** Printing a non-empty path object and parsing the text gives the same elements back. */
    method RoundTrip() returns (copy: PathObject)
      requires Valid() && elements != []
      modifies this
      ensures Valid() && elements == old(elements)
      ensures fresh(copy) && copy.Valid() && copy.elements == elements
    {
      var s := GetString();
      copy := new PathObject(s);
      ParseJoin(elements);
    }
  }
}
