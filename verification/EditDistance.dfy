/**
 The distance between texts, and the search for the allowed state nearest to a value.
 */
module EditDistance {
  import opened Paths
  import opened Values

  // ---------------------------------------------------------------- the distance

  function Min(a: nat, b: nat): nat {
    if a <= b then a else b
  }

  function Distance(a: string, b: string): nat
    decreases |a| + |b|
  {
    if a == "" then |b|
    else if b == "" then |a|
    else
      var cost := if a[0] != b[0] then 1 else 0;
      Min(Min(Distance(a[1..], b) + 1, Distance(a, b[1..]) + 1), Distance(a[1..], b[1..]) + cost)
  }

  // ---------------------------------------------------------------- edit scripts

  /** One step of an edit that reads a text and writes another. */
  datatype Edit = Keep | Substitute(c: char) | Insert(c: char) | Delete

  function Cost(script: seq<Edit>): nat {
    if script == [] then 0 else (if script[0].Keep? then 0 else 1) + Cost(script[1..])
  }

  /** The script turns `a` into `b`. */
  predicate Edits(script: seq<Edit>, a: string, b: string)
    decreases |script|
  {
    if script == [] then a == "" && b == ""
    else
      match script[0]
      case Keep => a != "" && b != "" && a[0] == b[0] && Edits(script[1..], a[1..], b[1..])
      case Substitute(c) => a != "" && b != "" && b[0] == c && Edits(script[1..], a[1..], b[1..])
      case Insert(c) => b != "" && b[0] == c && Edits(script[1..], a, b[1..])
      case Delete => a != "" && Edits(script[1..], a[1..], b)
  }

  /** No script is cheaper than the distance. */
  lemma {:induction false} NoScriptIsCheaper(script: seq<Edit>, a: string, b: string)
    requires Edits(script, a, b)
    ensures Distance(a, b) <= Cost(script)
    decreases |script|
  {
    if script != [] {
      match script[0]
      case Keep => NoScriptIsCheaper(script[1..], a[1..], b[1..]);
      case Substitute(_) => NoScriptIsCheaper(script[1..], a[1..], b[1..]);
      case Insert(_) =>
        NoScriptIsCheaper(script[1..], a, b[1..]);
      case Delete =>
        NoScriptIsCheaper(script[1..], a[1..], b);
    }
  }

  /** A script as cheap as the distance. */
  function Best(a: string, b: string): (script: seq<Edit>)
    ensures Edits(script, a, b) && Cost(script) == Distance(a, b)
    decreases |a| + |b|
  {
    if a == "" && b == "" then []
    else if a == "" then [Insert(b[0])] + Best(a, b[1..])
    else if b == "" then [Delete] + Best(a[1..], b)
    else if Distance(a, b) == Distance(a[1..], b) + 1 then [Delete] + Best(a[1..], b)
    else if Distance(a, b) == Distance(a, b[1..]) + 1 then [Insert(b[0])] + Best(a, b[1..])
    else [if a[0] == b[0] then Keep else Substitute(b[0])] + Best(a[1..], b[1..])
  }

  /** The distance is the least cost of any script. */
  lemma DistanceIsLeastCost(a: string, b: string, n: nat)
    ensures n == Distance(a, b) <==>
              && (exists script :: Edits(script, a, b) && Cost(script) == n)
              && (forall script :: Edits(script, a, b) ==> n <= Cost(script))
  {
    assert Edits(Best(a, b), a, b) && Cost(Best(a, b)) == Distance(a, b);
    forall script | Edits(script, a, b) ensures Distance(a, b) <= Cost(script) {
      NoScriptIsCheaper(script, a, b);
    }
  }

  // ---------------------------------------------------------------- a metric

  lemma {:induction false} ZeroIffEqual(a: string, b: string)
    ensures Distance(a, b) == 0 <==> a == b
    decreases |a|
  {
    if a != "" && b != "" {
      ZeroIffEqual(a[1..], b[1..]);
      assert a == [a[0]] + a[1..] && b == [b[0]] + b[1..];
    }
  }

  lemma {:induction false} Symmetric(a: string, b: string)
    ensures Distance(a, b) == Distance(b, a)
    decreases |a| + |b|
  {
    if a != "" && b != "" {
      Symmetric(a[1..], b);
      Symmetric(a, b[1..]);
      Symmetric(a[1..], b[1..]);
    }
  }

  lemma {:induction false} Bounds(a: string, b: string)
    ensures |a| - |b| <= Distance(a, b) && |b| - |a| <= Distance(a, b)
    ensures Distance(a, b) <= if |a| >= |b| then |a| else |b|
    decreases |a| + |b|
  {
    if a != "" && b != "" {
      Bounds(a[1..], b);
      Bounds(a, b[1..]);
      Bounds(a[1..], b[1..]);
    }
  }

  /** What one edit makes of what another has written: at most the cost of both. */
  function Composed(first: seq<Edit>, second: seq<Edit>, a: string, b: string, c: string): (script: seq<Edit>)
    requires Edits(first, a, b) && Edits(second, b, c)
    ensures Edits(script, a, c) && Cost(script) <= Cost(first) + Cost(second)
    decreases |first| + |second|
  {
    if first != [] && first[0].Delete? then [Delete] + Composed(first[1..], second, a[1..], b, c)
    else if second != [] && second[0].Insert? then [second[0]] + Composed(first, second[1..], a, b, c[1..])
    else if first == [] then []
    else if first[0].Insert? then
      if second[0].Delete? then Composed(first[1..], second[1..], a, b[1..], c)
      else [Insert(c[0])] + Composed(first[1..], second[1..], a, b[1..], c[1..])
    else if second[0].Delete? then [Delete] + Composed(first[1..], second[1..], a[1..], b[1..], c)
    else
      [if first[0].Keep? && second[0].Keep? then Keep else Substitute(c[0])]
      + Composed(first[1..], second[1..], a[1..], b[1..], c[1..])
  }

  lemma Triangle(a: string, b: string, c: string)
    ensures Distance(a, c) <= Distance(a, b) + Distance(b, c)
  {
    var script := Composed(Best(a, b), Best(b, c), a, b, c);
    NoScriptIsCheaper(script, a, c);
  }

  // ---------------------------------------------------------------- the nearest allowed state

  function Abs(r: real): real {
    if r >= 0.0 then r else -r
  }

  function ValueDistance(v: Value, w: Value): (d: real)
    requires v.Type() == w.Type()
  {
    match v
    case IntegerValue(i) => Abs((i - w.i) as real)
    case FloatValue(r) => Abs(r - w.r)
    case StringValue(s) => Distance(s, w.s) as real
  }

  /** Like values are at distance zero from each other, and from no others. */
  lemma ValueDistanceZero(v: Value, w: Value)
    requires v.Type() == w.Type()
    ensures ValueDistance(v, w) == 0.0 <==> v == w
    ensures ValueDistance(v, w) >= 0.0 && ValueDistance(v, w) == ValueDistance(w, v)
  {
    if v.StringValue? {
      ZeroIffEqual(v.s, w.s);
      Symmetric(v.s, w.s);
    }
  }

  /** The search among allowed states; states of another type are passed over. */
  method NearestAllowedState(value: Value, states: seq<Value>) returns (nearest: Option<Value>)
    ensures nearest.None? <==> forall i :: 0 <= i < |states| ==> states[i].Type() != value.Type()
    ensures nearest.Some? ==>
              && nearest.value in states && nearest.value.Type() == value.Type()
              && forall i :: 0 <= i < |states| && states[i].Type() == value.Type() ==>
                   ValueDistance(value, nearest.value) <= ValueDistance(value, states[i])
    ensures value in states ==> nearest == Some(value)
    ensures nearest.Some? && value.IntegerValue? ==>
              forall i :: 0 <= i < |states| && states[i].IntegerValue? ==>
                var (n, w) := (nearest.value.i - value.i, states[i].i - value.i);
                (if n < 0 then -n else n) <= (if w < 0 then -w else w)
    ensures nearest.Some? && value.FloatValue? ==>
              forall i :: 0 <= i < |states| && states[i].FloatValue? ==>
                var (n, w) := (nearest.value.r - value.r, states[i].r - value.r);
                (if n < 0.0 then -n else n) <= (if w < 0.0 then -w else w)
    ensures nearest.Some? && value.StringValue? ==>
              forall i :: 0 <= i < |states| && states[i].StringValue? ==>
                Distance(value.s, nearest.value.s) <= Distance(value.s, states[i].s)
  {
    nearest := None;
    var distanceToNearest := 0.0;
    var first := true;
    for i := 0 to |states|
      invariant first <==> nearest.None?
      invariant nearest.None? <==> forall j :: 0 <= j < i ==> states[j].Type() != value.Type()
      invariant nearest.Some? ==>
                  && nearest.value in states && nearest.value.Type() == value.Type()
                  && distanceToNearest == ValueDistance(value, nearest.value)
                  && forall j :: 0 <= j < i && states[j].Type() == value.Type() ==>
                       ValueDistance(value, nearest.value) <= ValueDistance(value, states[j])
    {
      if value.Type() != states[i].Type() {
        continue;
      }
      var distance := ValueDistance(value, states[i]);
      if first || distance < distanceToNearest {
        distanceToNearest := distance;
        nearest := Some(states[i]);
        first := false;
      }
    }
    if value in states {
      ValueDistanceZero(value, value);
      ValueDistanceZero(value, nearest.value);
    }
  }
}
