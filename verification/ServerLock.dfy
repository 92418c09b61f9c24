/**
 Locking the server, and destroying it.

 Every client thread locks the server around its work; one thread destroys the server.  Each atomic
 step of `lock`, `unlock` and the destructor is an action, and a run is any interleaving of them.
 */
module ServerLock {
  import opened Paths

  /** Where a thread is.  From `Inside` to `Cleared` it holds the server's mutex; `owner` is set from
      `Owned` to `Failed`.  `Closing`, `ClosingCleared` and `Deleting` are stages of the destructor. */
  datatype Stage =
    | Idle | Entering | Inside | Owned | HoldsShutdown | Granted | Failed | Cleared
    | Closing | ClosingCleared | Deleting

  /** `alarms` counts the times a thread was told that it had locked the server already. */
  datatype Lock = Lock(mutex: Option<nat>, shutdown: Option<nat>, owner: Option<nat>, stages: map<nat, Stage>,
                       destroyer: nat, alarms: nat)

  datatype Action =
    | CheckOwner(i: nat) | Acquire(i: nat) | SetOwner(i: nat) | TryShutdown(i: nat) | ReleaseShutdown(i: nat)
    | ClearOwner(i: nat) | Release(i: nat)
    | TakeShutdown(i: nat) | ClearOwnerToDelete(i: nat) | ReleaseToDelete(i: nat)

  predicate Can(l: Lock, a: Action) {
    a.i in l.stages &&
    var stage := l.stages[a.i];
    match a
    case CheckOwner(_) => stage.Idle?
    case Acquire(_) => stage.Entering? && l.mutex.None?
    case SetOwner(_) => stage.Inside?
    case TryShutdown(_) => stage.Owned?
    case ReleaseShutdown(_) => stage.HoldsShutdown?
    case ClearOwner(_) => stage.Granted? || stage.Failed?
    case Release(_) => stage.Cleared?
    case TakeShutdown(i) => stage.Granted? && i == l.destroyer && l.shutdown.None?
    case ClearOwnerToDelete(_) => stage.Closing?
    case ReleaseToDelete(_) => stage.ClosingCleared?
  }

  function At(l: Lock, i: nat, stage: Stage): Lock {
    l.(stages := l.stages[i := stage])
  }

  function Do(l: Lock, a: Action): Lock
    requires Can(l, a)
  {
    match a
    case CheckOwner(i) => if l.owner == Some(i) then l.(alarms := l.alarms + 1) else At(l, i, Entering)
    case Acquire(i) => At(l, i, Inside).(mutex := Some(i))
    case SetOwner(i) => At(l, i, Owned).(owner := Some(i))
    case TryShutdown(i) => if l.shutdown.None? then At(l, i, HoldsShutdown).(shutdown := Some(i)) else At(l, i, Failed)
    case ReleaseShutdown(i) => At(l, i, Granted).(shutdown := None)
    case ClearOwner(i) => At(l, i, Cleared).(owner := None)
    case Release(i) => At(l, i, Idle).(mutex := None)
    case TakeShutdown(i) => At(l, i, Closing).(shutdown := Some(i))
    case ClearOwnerToDelete(i) => At(l, i, ClosingCleared).(owner := None)
    case ReleaseToDelete(i) => At(l, i, Deleting).(mutex := None)
  }

  function New(threads: set<nat>, destroyer: nat): Lock {
    Lock(None, None, None, map i | i in threads :: Idle, destroyer, 0)
  }

  predicate Leads(l: Lock, actions: seq<Action>, m: Lock)
    decreases |actions|
  {
    if actions == [] then l == m else Can(l, actions[0]) && Leads(Do(l, actions[0]), actions[1..], m)
  }

  // ---------------------------------------------------------------- what every run keeps

  predicate HoldsMutex(stage: Stage) {
    !stage.Idle? && !stage.Entering? && !stage.Deleting?
  }

  predicate IsOwner(stage: Stage) {
    stage.Owned? || stage.HoldsShutdown? || stage.Granted? || stage.Failed? || stage.Closing?
  }

  predicate HoldsShutdownMutex(stage: Stage) {
    stage.HoldsShutdown? || stage.Closing? || stage.ClosingCleared? || stage.Deleting?
  }

  predicate Destroys(stage: Stage) {
    stage.Closing? || stage.ClosingCleared? || stage.Deleting?
  }

  /** The mutex is held by the thread that is at a stage of holding it, and the owner likewise. */
  predicate MutexFits(l: Lock) {
    && (forall i :: i in l.stages ==> (HoldsMutex(l.stages[i]) <==> l.mutex == Some(i)))
    && (forall i :: i in l.stages ==> (IsOwner(l.stages[i]) <==> l.owner == Some(i)))
    && (l.mutex.Some? ==> l.mutex.value in l.stages) && (l.owner.Some? ==> l.owner.value in l.stages)
    && l.alarms == 0
  }

  /** So is the shutdown mutex; from the destructor on no thread has been granted the lock. */
  predicate ShutdownFits(l: Lock) {
    && (forall i :: i in l.stages ==> (HoldsShutdownMutex(l.stages[i]) <==> l.shutdown == Some(i)))
    && (l.shutdown.Some? ==> l.shutdown.value in l.stages)
    && (forall i :: i in l.stages && Destroys(l.stages[i]) ==> i == l.destroyer)
    && (forall i, j :: i in l.stages && j in l.stages && Destroys(l.stages[j]) ==> !l.stages[i].Granted?)
  }

  predicate Inv(l: Lock) {
    MutexFits(l) && ShutdownFits(l)
  }

  lemma MutexKept(l: Lock, a: Action)
    requires MutexFits(l) && Can(l, a)
    ensures MutexFits(Do(l, a))
  {
  }

  lemma ShutdownKept(l: Lock, a: Action)
    requires Inv(l) && Can(l, a)
    ensures ShutdownFits(Do(l, a))
  {
  }

  lemma InvKept(l: Lock, a: Action)
    requires Inv(l) && Can(l, a)
    ensures Inv(Do(l, a))
  {
    MutexKept(l, a);
    ShutdownKept(l, a);
    hide MutexFits, ShutdownFits, Can, Do;
  }

  lemma {:induction false} InvHolds(l: Lock, actions: seq<Action>, m: Lock)
    requires Inv(l) && Leads(l, actions, m)
    ensures Inv(m)
    decreases |actions|
  {
    if actions != [] {
      InvKept(l, actions[0]);
      hide Inv, Can, Do;
      InvHolds(Do(l, actions[0]), actions[1..], m);
    }
  }

  // ---------------------------------------------------------------- what follows

  /** The lock has been granted to `i`, and not been given back. */
  predicate Has(l: Lock, i: nat) {
    i in l.stages && (l.stages[i].Granted? || l.stages[i].Closing?)
  }

  /** In every run at most one thread has the lock, none while the nodes are being deleted, and no
      thread is ever told falsely that it has locked the server already. */
  lemma EveryRun(threads: set<nat>, destroyer: nat, actions: seq<Action>, l: Lock)
    requires Leads(New(threads, destroyer), actions, l)
    ensures forall i, j :: Has(l, i) && Has(l, j) ==> i == j
    ensures destroyer in l.stages && l.stages[destroyer].Deleting? ==> forall i :: !Has(l, i)
    ensures l.alarms == 0
  {
    InvHolds(New(threads, destroyer), actions, l);
    Constant(New(threads, destroyer), actions, l);
  }

  /** Once the destructor has taken the shutdown mutex, no thread is granted the lock any more. */
  lemma {:induction false} NoLockAfterShutdown(l: Lock, actions: seq<Action>, m: Lock)
    requires Inv(l) && l.destroyer in l.stages && Destroys(l.stages[l.destroyer])
    requires Leads(l, actions, m)
    ensures m.destroyer == l.destroyer && m.destroyer in m.stages && Destroys(m.stages[m.destroyer])
    ensures forall i :: i in m.stages && i != m.destroyer ==> !m.stages[i].Granted? && !m.stages[i].HoldsShutdown?
    decreases |actions|
  {
    if actions != [] {
      InvKept(l, actions[0]);
      NoLockAfterShutdown(Do(l, actions[0]), actions[1..], m);
    }
  }

  /** The destructor does not wait for the shutdown mutex: whoever holds it holds the server's mutex too. */
  lemma ShutdownIsFree(threads: set<nat>, destroyer: nat, actions: seq<Action>, l: Lock)
    requires Leads(New(threads, destroyer), actions, l)
    requires destroyer in l.stages && l.stages[destroyer].Granted?
    ensures Can(l, TakeShutdown(destroyer))
  {
    InvHolds(New(threads, destroyer), actions, l);
    Constant(New(threads, destroyer), actions, l);
  }

  lemma {:induction false} Constant(l: Lock, actions: seq<Action>, m: Lock)
    requires Leads(l, actions, m)
    ensures m.destroyer == l.destroyer && m.stages.Keys == l.stages.Keys
    decreases |actions|
  {
    if actions != [] {
      Constant(Do(l, actions[0]), actions[1..], m);
    }
  }

  // ---------------------------------------------------------------- the lock is granted

  /** What a thread does next depends on its own stage, unless it waits for the server's mutex, or is the
      destroyer; nobody else moves it on. */
  lemma {:induction false} OthersLeave(l: Lock, actions: seq<Action>, m: Lock, i: nat)
    requires Leads(l, actions, m) && i in l.stages && forall k :: 0 <= k < |actions| ==> actions[k].i != i
    ensures i in m.stages && m.stages[i] == l.stages[i]
    decreases |actions|
  {
    if actions != [] {
      assert actions[0].i != i;
      assert Do(l, actions[0]).stages[i] == l.stages[i];
      assert forall k :: 0 <= k < |actions| - 1 ==> actions[1..][k] == actions[k + 1];
      OthersLeave(Do(l, actions[0]), actions[1..], m, i);
    }
  }

  /** A thread that has made itself the owner is refused by its next step exactly if the destroyer has
      taken the shutdown mutex. */
  lemma RefusedOrNot(threads: set<nat>, destroyer: nat, actions: seq<Action>, l: Lock, i: nat)
    requires Leads(New(threads, destroyer), actions, l) && i in l.stages && l.stages[i] == Owned
    ensures Can(l, TryShutdown(i))
    ensures Do(l, TryShutdown(i)).stages[i] == Failed <==>
              destroyer in l.stages && (l.stages[destroyer] == Closing || l.stages[destroyer] == ClosingCleared || l.stages[destroyer] == Deleting)
    ensures Do(l, TryShutdown(i)).stages[i] != Failed ==> Do(l, TryShutdown(i)).stages[i] == HoldsShutdown
  {
    InvHolds(New(threads, destroyer), actions, l);
    Constant(New(threads, destroyer), actions, l);
    if l.shutdown.Some? {
      var j := l.shutdown.value;
      assert HoldsShutdownMutex(l.stages[j]);
    }
  }

  /** If not, it is granted the lock two steps of its own later, whatever the others do in between. */
  lemma Granting(threads: set<nat>, destroyer: nat, actions: seq<Action>, l: Lock, i: nat, others: seq<Action>, m: Lock)
    requires Leads(New(threads, destroyer), actions, l) && i in l.stages && l.stages[i] == Owned
    requires destroyer in l.stages ==>
               l.stages[destroyer] != Closing && l.stages[destroyer] != ClosingCleared && l.stages[destroyer] != Deleting
    requires Can(l, TryShutdown(i)) && Leads(Do(l, TryShutdown(i)), others, m)
    requires forall k :: 0 <= k < |others| ==> others[k].i != i
    ensures Can(m, ReleaseShutdown(i)) && Do(m, ReleaseShutdown(i)).stages[i] == Granted
  {
    RefusedOrNot(threads, destroyer, actions, l, i);
    OthersLeave(Do(l, TryShutdown(i)), others, m, i);
  }

  /** Whoever holds the server's mutex can go on, so that only the mutex itself is ever waited for. */
  lemma HolderGoesOn(threads: set<nat>, destroyer: nat, actions: seq<Action>, l: Lock)
    requires Leads(New(threads, destroyer), actions, l) && l.mutex.Some?
    ensures var i := l.mutex.value;
            || Can(l, SetOwner(i)) || Can(l, TryShutdown(i)) || Can(l, ReleaseShutdown(i)) || Can(l, ClearOwner(i))
            || Can(l, Release(i)) || Can(l, ClearOwnerToDelete(i)) || Can(l, ReleaseToDelete(i))
  {
    InvHolds(New(threads, destroyer), actions, l);
  }

  /** `i` takes the lock, all by itself. */
  function TakesLock(i: nat): seq<Action> {
    [CheckOwner(i), Acquire(i), SetOwner(i), TryShutdown(i), ReleaseShutdown(i)]
  }

  /** and gives it back. */
  function GivesBack(i: nat): seq<Action> {
    [ClearOwner(i), Release(i)]
  }

  /** In any run, when nobody has the mutex and the destroyer has not taken the other one, any idle thread
      can take the lock, and give it back, by steps of its own; all is then as it was. */
  lemma AnyoneCanLock(threads: set<nat>, destroyer: nat, actions: seq<Action>, l: Lock, i: nat) returns (m: Lock)
    requires Leads(New(threads, destroyer), actions, l) && i in l.stages && l.stages[i] == Idle && l.mutex.None?
    requires destroyer in l.stages ==> l.stages[destroyer] != Deleting
    ensures Leads(l, TakesLock(i), m) && i in m.stages && m.stages[i] == Granted
    ensures Leads(m, GivesBack(i), l)
  {
    InvHolds(New(threads, destroyer), actions, l);
    Constant(New(threads, destroyer), actions, l);
    BothAreFree(l);
    m := l.(mutex := Some(i), owner := Some(i), stages := l.stages[i := Granted]);
    Taking(l, i, m);
    GivingBack(l, i, m);
  }

  lemma BothAreFree(l: Lock)
    requires Inv(l) && l.mutex.None? && (l.destroyer in l.stages ==> l.stages[l.destroyer] != Deleting)
    ensures l.shutdown.None? && l.owner.None?
  {
  }

  lemma Taking(l: Lock, i: nat, m: Lock)
    requires i in l.stages && l.stages[i] == Idle && l.mutex.None? && l.shutdown.None? && l.owner != Some(i)
    requires m == l.(mutex := Some(i), owner := Some(i), stages := l.stages[i := Granted])
    ensures Leads(l, TakesLock(i), m)
  {
    var l1 := Do(l, CheckOwner(i));
    var l2 := Do(l1, Acquire(i));
    var l3 := Do(l2, SetOwner(i));
    var l4 := Do(l3, TryShutdown(i));
    assert Do(l4, ReleaseShutdown(i)) == m;
    Leads5(l, TakesLock(i), l1, l2, l3, l4, m);
  }

  lemma GivingBack(l: Lock, i: nat, m: Lock)
    requires i in l.stages && l.stages[i] == Idle && l.mutex.None? && l.owner.None?
    requires m == l.(mutex := Some(i), owner := Some(i), stages := l.stages[i := Granted])
    ensures Leads(m, GivesBack(i), l)
  {
    var m1 := Do(m, ClearOwner(i));
    assert Do(m1, Release(i)) == l;
    assert GivesBack(i)[1..] == [Release(i)] && [Release(i)][1..] == [];
    assert Leads(l, [], l);
    assert Leads(m1, [Release(i)], l);
  }

  lemma Leads5(l: Lock, a: seq<Action>, l1: Lock, l2: Lock, l3: Lock, l4: Lock, m: Lock)
    requires |a| == 5 && Can(l, a[0]) && Do(l, a[0]) == l1 && Can(l1, a[1]) && Do(l1, a[1]) == l2 && Can(l2, a[2]) && Do(l2, a[2]) == l3
    requires Can(l3, a[3]) && Do(l3, a[3]) == l4 && Can(l4, a[4]) && Do(l4, a[4]) == m
    ensures Leads(l, a, m)
  {
    hide Can, Do;
    assert a[4..][1..] == [];
    assert Leads(m, [], m);
    assert Leads(l4, a[4..], m);
    assert a[3..][1..] == a[4..] && Leads(l3, a[3..], m);
    assert a[2..][1..] == a[3..] && Leads(l2, a[2..], m);
    assert a[1..][1..] == a[2..] && Leads(l1, a[1..], m);
  }

  /** So from a new server any thread has a run of its own steps to the lock. */
  lemma AnyoneIsGranted(threads: set<nat>, destroyer: nat, i: nat) returns (m: Lock)
    requires i in threads
    ensures Leads(New(threads, destroyer), TakesLock(i), m) && i in m.stages && m.stages[i] == Granted && Has(m, i)
  {
    var l := New(threads, destroyer);
    assert Leads(l, [], l);
    m := AnyoneCanLock(threads, destroyer, [], l, i);
  }
}
