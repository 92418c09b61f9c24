/**
 Bookkeeping of the dsp engine: the patch ids of loaded modules, and the set commands that wait to be
 passed on.
 */
module DspEngine {
  import opened Paths

  /** The list without the element at `k`. */
  function Without<T>(s: seq<T>, k: nat): (r: seq<T>)
    requires k < |s|
    ensures |r| == |s| - 1
    ensures forall i :: 0 <= i < |r| ==> r[i] == if i < k then s[i] else s[i + 1]
  {
    s[..k] + s[k + 1..]
  }

  // ---------------------------------------------------------------- patch ids

  /** The patch id of each module is its position among the live modules, in the order of their creation. */
  ghost predicate Numbers(patchIds: map<nat, nat>, order: seq<nat>) {
    && (forall i :: 0 <= i < |order| ==> order[i] in patchIds && patchIds[order[i]] == i)
    && (forall id :: id in patchIds ==> patchIds[id] < |order| && order[patchIds[id]] == id)
  }

  /** The ids are numbered from 0 on without gaps, and no number is given twice. */
  lemma NumbersAreABijection(patchIds: map<nat, nat>, order: seq<nat>)
    requires Numbers(patchIds, order)
    ensures |patchIds| == |order|
    ensures forall n: nat :: n in patchIds.Values <==> n < |patchIds|
    ensures forall id, other :: id in patchIds && other in patchIds && patchIds[id] == patchIds[other] ==> id == other
  {
    KeysCount(patchIds, order);
    forall n | 0 <= n < |order| ensures n in patchIds.Values {
      assert order[n] in patchIds && patchIds[order[n]] == n;
    }
  }

  lemma {:induction false} KeysCount(patchIds: map<nat, nat>, order: seq<nat>)
    requires Numbers(patchIds, order)
    ensures |patchIds| == |order|
    decreases |order|
  {
    if order == [] {
      assert patchIds.Keys == {};
    } else {
      var last := order[|order| - 1];
      var fewer := patchIds - {last};
      var init := order[..|order| - 1];
      assert Numbers(fewer, init);
      KeysCount(fewer, init);
      assert patchIds.Keys == fewer.Keys + {last};
    }
  }

  /** The order is determined by the numbers. */
  lemma OrderIsUnique(patchIds: map<nat, nat>, order: seq<nat>, other: seq<nat>)
    requires Numbers(patchIds, order) && Numbers(patchIds, other)
    ensures order == other
  {
    KeysCount(patchIds, order);
    KeysCount(patchIds, other);
  }

  /** The numbers behind a removed one move down by one. */
  lemma RemovedNumbers(before: map<nat, nat>, order: seq<nat>, id: nat, now: map<nat, nat>)
    requires Numbers(before, order) && id in before && now.Keys == before.Keys - {id}
    requires forall k :: k in now ==> now[k] == if before[k] > before[id] then before[k] - 1 else before[k]
    ensures Numbers(now, Without(order, before[id]))
  {
    var p := before[id];
    forall k | k in now ensures now[k] < |order| - 1 && Without(order, p)[now[k]] == k {
      assert before[k] != p;
    }
  }

  class ModuleMap {
    var patchIds: map<nat, nat>
    /** The live modules in the order of their creation. */
    ghost var order: seq<nat>

    ghost predicate Valid()
      reads this
    {
      Numbers(patchIds, order)
    }

    constructor ()
      ensures Valid() && order == []
    {
      patchIds, order := map[], [];
    }

    method AddModule(id: nat)
      requires Valid() && id !in order
      modifies this
      ensures Valid() && order == old(order) + [id]
    {
      NumbersAreABijection(patchIds, order);
      var size := |patchIds|;
      patchIds := patchIds[id := size];
      order := order + [id];
    }

    /** The numbers behind the removed one move down by one. */
    method RemoveModule(id: nat)
      requires Valid() && id in order
      modifies this
      ensures Valid() && id in old(patchIds) && old(patchIds)[id] < |old(order)|
      ensures order == Without(old(order), old(patchIds)[id])
    {
      ghost var before := patchIds;
      var patchId := patchIds[id];
      patchIds := patchIds - {id};
      ghost var left := patchIds;
      var todo := patchIds.Keys;
      while todo != {}
        invariant todo <= patchIds.Keys == left.Keys && order == old(order)
        invariant forall k :: k in left ==> patchIds[k] == if k !in todo && left[k] > patchId then left[k] - 1 else left[k]
        decreases todo
      {
        var k :| k in todo;
        if patchIds[k] > patchId {
          patchIds := patchIds[k := patchIds[k] - 1];
        }
        todo := todo - {k};
      }
      RemovedNumbers(before, order, id, patchIds);
      order := Without(order, patchId);
    }
  }

  // ---------------------------------------------------------------- waiting set commands

  datatype SetCommand<V> = SetCommand(path: string, value: V)

  /** No endpoint is set twice. */
  predicate SetsEachOnce<V>(commands: seq<SetCommand<V>>) {
    forall i, j :: 0 <= i < j < |commands| ==> commands[i].path != commands[j].path
  }

  /** What carrying out the commands makes of the values. */
  function Performed<V>(values: map<string, V>, commands: seq<SetCommand<V>>): map<string, V> {
    if commands == [] then values
    else
      Performed(values, commands[..|commands| - 1])[commands[|commands| - 1].path := commands[|commands| - 1].value]
  }

  /** A command makes no difference if its endpoint is set again later. */
  lemma {:induction false} OverwrittenLater<V>(values: map<string, V>, a: seq<SetCommand<V>>, x: SetCommand<V>,
                                              b: seq<SetCommand<V>>, v: V)
    ensures Performed(values, a + [x] + b)[x.path := v] == Performed(values, a + b)[x.path := v]
    decreases |b|
  {
    if b == [] {
      assert a + [x] + b == a + [x] && a + b == a;
      PerformedSnoc(values, a, x);
    } else {
      var init, y := b[..|b| - 1], b[|b| - 1];
      OverwrittenLater(values, a, x, init, v);
      assert a + [x] + b == a + [x] + init + [y] && a + b == a + init + [y];
      PerformedSnoc(values, a + [x] + init, y);
      PerformedSnoc(values, a + init, y);
      hide Performed;
      UpdatedLikewise(Performed(values, a + [x] + init), Performed(values, a + init), x.path, v, y);
    }
  }

  lemma PerformedSnoc<V>(values: map<string, V>, a: seq<SetCommand<V>>, x: SetCommand<V>)
    ensures Performed(values, a + [x]) == Performed(values, a)[x.path := x.value]
  {
    assert (a + [x])[..|a|] == a;
  }

  lemma UpdatedLikewise<V>(m: map<string, V>, n: map<string, V>, path: string, v: V, y: SetCommand<V>)
    requires m[path := v] == n[path := v]
    ensures m[y.path := y.value][path := v] == n[y.path := y.value][path := v]
  {
    var p, q := m[path := v], n[path := v];
    forall k | k != path ensures (k in m <==> k in n) && (k in m ==> m[k] == n[k]) {
      assert (k in p <==> k in m) && (k in q <==> k in n);
    }
  }

  /** Adds a command; one that waits for the same endpoint gives way to it. */
  method MergeSetCommand<V>(commands: seq<SetCommand<V>>, command: SetCommand<V>) returns (merged: seq<SetCommand<V>>)
    requires SetsEachOnce(commands)
    ensures SetsEachOnce(merged) && |merged| > 0 && merged[|merged| - 1] == command
    ensures forall values :: Performed(values, merged) == Performed(values, commands + [command])
  {
    var i := 0;
    merged := commands;
    while i < |commands|
      invariant i <= |commands| && merged == commands
      invariant forall j :: 0 <= j < i ==> commands[j].path != command.path
      decreases |commands| - i
    {
      if commands[i].path == command.path {
        WithoutPerforms(commands, i, command);
        return Without(commands, i) + [command];
      }
      i := i + 1;
    }
    merged := merged + [command];
  }

  lemma WithoutParts<T>(s: seq<T>, k: nat)
    requires k < |s|
    ensures s == s[..k] + [s[k]] + s[k + 1..] && Without(s, k) == s[..k] + s[k + 1..]
  {
  }

  lemma PerformsAlike<V>(values: map<string, V>, commands: seq<SetCommand<V>>, k: nat, command: SetCommand<V>)
    requires k < |commands| && commands[k].path == command.path
    ensures Performed(values, Without(commands, k) + [command]) == Performed(values, commands + [command])
  {
    hide *;
    WithoutParts(commands, k);
    OverwrittenLater(values, commands[..k], commands[k], commands[k + 1..], command.value);
    PerformedSnoc(values, commands, command);
    PerformedSnoc(values, Without(commands, k), command);
  }

  /** Leaving out a command that is overwritten makes no difference. */
  lemma WithoutPerforms<V>(commands: seq<SetCommand<V>>, k: nat, command: SetCommand<V>)
    requires SetsEachOnce(commands) && k < |commands| && commands[k].path == command.path
    ensures SetsEachOnce(Without(commands, k) + [command])
    ensures forall values :: Performed(values, Without(commands, k) + [command]) == Performed(values, commands + [command])
  {
    hide *;
    StillEachOnce(commands, k, command);
    forall values ensures Performed(values, Without(commands, k) + [command]) == Performed(values, commands + [command]) {
      PerformsAlike(values, commands, k, command);
    }
  }

  lemma StillEachOnce<V>(commands: seq<SetCommand<V>>, k: nat, command: SetCommand<V>)
    requires SetsEachOnce(commands) && k < |commands| && commands[k].path == command.path
    ensures SetsEachOnce(Without(commands, k) + [command])
  {
  }
}
