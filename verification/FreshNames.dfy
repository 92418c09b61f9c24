/**
 Finding a name that is not taken: underscores are appended until it is free.
 */
module FreshNames {
  import opened Paths

  function Underscored(name: string, k: nat): string
    decreases k
  {
    if k == 0 then name else Underscored(name + "_", k - 1)
  }

  /** The names that can still be in the way once `name` has been reached. */
  function InTheWay(taken: set<string>, name: string): set<string> {
    set t | t in taken && |name| <= |t|
  }

  /** `r` is `name` with the fewest underscores that make it free. */
  ghost predicate IsFirstFree(taken: set<string>, name: string, r: string) {
    exists k: nat :: IsFirstFreeAt(taken, name, r, k)
  }

  ghost predicate IsFirstFreeAt(taken: set<string>, name: string, r: string, k: nat) {
    && r == Underscored(name, k) && r !in taken
    && forall j: nat :: j < k ==> Underscored(name, j) in taken
  }

  /** That is the name itself and then nothing but underscores, and with fewer of them it is taken. */
  lemma {:induction false} UnderscoredMeans(name: string, k: nat)
    ensures |Underscored(name, k)| == |name| + k && Underscored(name, k)[..|name|] == name
    ensures forall i :: |name| <= i < |name| + k ==> Underscored(name, k)[i] == '_'
    decreases k
  {
    if k > 0 {
      UnderscoredMeans(name + "_", k - 1);
      var r := Underscored(name + "_", k - 1);
      assert r[..|name|] == r[..|name| + 1][..|name|];
      assert r[|name|] == r[..|name| + 1][|name|];
    }
  }

  method Fresh(taken: set<string>, name: string) returns (r: string)
    ensures IsFirstFree(taken, name, r)
    ensures r !in taken
    ensures IsNodeName(name) ==> IsNodeName(r)
    ensures name != "" && IsNodeName(r) ==> IsNodeName(name)
  {
    r := name;
    ghost var k: nat := 0;
    while r in taken
      invariant r == Underscored(name, k)
      invariant forall j: nat :: j < k ==> Underscored(name, j) in taken
      invariant IsElement(r) <==> IsElement(name)
      invariant |r| == |name| + k
      decreases InTheWay(taken, r)
    {
      assert r in InTheWay(taken, r) && r !in InTheWay(taken, r + "_");
      UnderscoredSnoc(name, k);
      assert (r + "_")[..|r|] == r;
      ElementWithUnderscore(r);
      r := r + "_";
      k := k + 1;
    }
    assert IsFirstFreeAt(taken, name, r, k);
  }

  lemma ElementWithUnderscore(name: string)
    ensures IsElement(name + "_") <==> IsElement(name)
  {
    if IsElement(name + "_") {
      forall i | 0 <= i < |name| ensures IsNameChar(name[i]) {
        assert name[i] == (name + "_")[i];
      }
    }
  }

  lemma {:induction false} UnderscoredSnoc(name: string, k: nat)
    ensures Underscored(name, k + 1) == Underscored(name, k) + "_"
    decreases k
  {
    if k > 0 {
      UnderscoredSnoc(name + "_", k - 1);
    }
  }

  /** The result is determined: there is one fewest number of underscores. */
  lemma FirstFreeIsUnique(taken: set<string>, name: string, r: string, s: string)
    requires IsFirstFree(taken, name, r) && IsFirstFree(taken, name, s)
    ensures r == s
  {
    var j: nat :| IsFirstFreeAt(taken, name, r, j);
    var k: nat :| IsFirstFreeAt(taken, name, s, k);
    assert !(j < k) && !(k < j);
  }

  /** A free name is kept; a taken one, such as the node's own, always grows. */
  lemma FreeNameIsKept(taken: set<string>, name: string, r: string)
    requires IsFirstFree(taken, name, r)
    ensures r == name <==> name !in taken
  {
    var k: nat :| IsFirstFreeAt(taken, name, r, k);
    if k > 0 {
      assert Underscored(name, 0) in taken;
    }
  }
}
