/**
 Threaded queues: for each, any number of threads push, one thread delivers, and one shuts it down.

 The protocol is modelled by its atomic steps; a run is any interleaving of them.  Each queue waits for
 its signals at a semaphore.  On one platform all queues open the same one by its name, on the others each
 has its own, so the semaphores are assigned to the queues in any way here.  Items are delivered at most
 once and in the order of pushing, whatever the assignment.  That no signal is lost, and that shutting
 down never waits for ever, holds exactly if no two queues share a semaphore.  Whether anything is left
 behind by the shutdown depends on whether a push meets it.
 */
module ThreadedQueue {
  import opened Paths

  /** Where a pushing thread is. */
  datatype Pusher<T> = Idle | Wanting(items: seq<T>) | Holding(items: seq<T>) | Appended | Unlocked

  /** Where the output thread is, with the batch it has taken and whether this is its last round. */
  datatype Output<T> =
    | Waiting | Woken | Locked
    | Taken(batch: seq<T>) | Checked(batch: seq<T>, last: bool) | Delivering(batch: seq<T>, last: bool)
    | Exited

  datatype Shutdown = Running | Flagged | Posted | Joined

  datatype Owner = OutputThread | PusherThread(i: nat)

  /** `pushed`, `delivered`, `late` and `taken` record what has happened: the items in the order in which
      they were appended, the batches handed over, whether a push has met the shutdown, and how many items
      had been appended when the output thread last took the content. */
  datatype Queue<T> = Queue(
    content: seq<T>, owner: Option<Owner>, semaphore: nat, finished: bool,
    pushers: map<nat, Pusher<T>>, output: Output<T>, shutdown: Shutdown,
    pushed: seq<T>, delivered: seq<seq<T>>, late: bool, taken: nat)

  datatype Action<T> =
    | Begin(i: nat, items: seq<T>) | LockToPush(i: nat) | Append(i: nat) | UnlockAfterPush(i: nat) | Signal(i: nat)
    | Wake | LockToTake | Take | Check | UnlockAfterTake | Deliver
    | SetFinished | SignalShutdown | Join

  predicate At<T(==)>(q: Queue<T>, i: nat, p: Pusher<T>) {
    i in q.pushers && q.pushers[i] == p
  }

  predicate Can<T(==)>(q: Queue<T>, a: Action<T>) {
    match a
    case Begin(i, _) => At(q, i, Idle)
    case LockToPush(i) => i in q.pushers && q.pushers[i].Wanting? && q.owner.None?
    case Append(i) => i in q.pushers && q.pushers[i].Holding?
    case UnlockAfterPush(i) => At(q, i, Appended)
    case Signal(i) => At(q, i, Unlocked)
    case Wake => q.output.Waiting? && q.semaphore > 0
    case LockToTake => q.output.Woken? && q.owner.None?
    case Take => q.output.Locked?
    case Check => q.output.Taken?
    case UnlockAfterTake => q.output.Checked?
    case Deliver => q.output.Delivering?
    case SetFinished => q.shutdown.Running?
    case SignalShutdown => q.shutdown.Flagged?
    case Join => q.shutdown.Posted? && q.output.Exited?
  }

  predicate NoPush<T>(q: Queue<T>) {
    forall i :: i in q.pushers ==> q.pushers[i].Idle?
  }

  function Do<T(==)>(q: Queue<T>, a: Action<T>): Queue<T>
    requires Can(q, a)
  {
    match a
    case Begin(i, items) => q.(pushers := q.pushers[i := Wanting(items)], late := q.late || q.finished)
    case LockToPush(i) => q.(pushers := q.pushers[i := Holding(q.pushers[i].items)], owner := Some(PusherThread(i)))
    case Append(i) =>
      var items := q.pushers[i].items;
      q.(pushers := q.pushers[i := Appended], content := q.content + items, pushed := q.pushed + items)
    case UnlockAfterPush(i) => q.(pushers := q.pushers[i := Unlocked], owner := None)
    case Signal(i) => q.(pushers := q.pushers[i := Idle], semaphore := q.semaphore + 1)
    case Wake => q.(output := Woken, semaphore := q.semaphore - 1)
    case LockToTake => q.(output := Locked, owner := Some(OutputThread))
    case Take => q.(output := Taken(q.content), content := [], taken := |q.pushed|)
    case Check => q.(output := Checked(q.output.batch, q.finished))
    case UnlockAfterTake => q.(output := Delivering(q.output.batch, q.output.last), owner := None)
    case Deliver =>
      q.(delivered := if q.output.batch == [] then q.delivered else q.delivered + [q.output.batch],
         output := if q.output.last then Exited else Waiting)
    case SetFinished => q.(shutdown := Flagged, finished := true, late := q.late || !NoPush(q))
    case SignalShutdown => q.(shutdown := Posted, semaphore := q.semaphore + 1)
    case Join => q.(shutdown := Joined)
  }

  /** A new queue, whose pushing threads are all idle. */
  function New<T>(threads: set<nat>, count: nat): Queue<T> {
    Queue([], None, count, false, map i | i in threads :: Idle, Waiting, Running, [], [], false, 0)
  }

  /** The actions can be taken one after the other, and lead from `q` to `r`. */
  predicate Leads<T(==)>(q: Queue<T>, actions: seq<Action<T>>, r: Queue<T>)
    decreases |actions|
  {
    if actions == [] then q == r else Can(q, actions[0]) && Leads(Do(q, actions[0]), actions[1..], r)
  }

  // ---------------------------------------------------------------- what every run keeps

  function Flat<T>(batches: seq<seq<T>>): seq<T> {
    if batches == [] then [] else Flat(batches[..|batches| - 1]) + batches[|batches| - 1]
  }

  function InFlight<T>(output: Output<T>): seq<T> {
    if output.Taken? || output.Checked? || output.Delivering? then output.batch else []
  }

  /** Exactly once, in order: what has been delivered, what is being delivered and what is waiting. */
  predicate InOrder<T(==)>(q: Queue<T>) {
    Adds(Flat(q.delivered), InFlight(q.output), q.content, q.pushed)
  }

  predicate Adds<T(==)>(delivered: seq<T>, inFlight: seq<T>, content: seq<T>, pushed: seq<T>) {
    delivered + inFlight + content == pushed
  }

  /** A thread owns the mutex exactly while it is between locking and unlocking. */
  predicate Exclusive<T>(q: Queue<T>) {
    && (forall i :: i in q.pushers ==> ((q.pushers[i].Holding? || q.pushers[i].Appended?) <==> q.owner == Some(PusherThread(i))))
    && ((q.output.Locked? || q.output.Taken? || q.output.Checked?) <==> q.owner == Some(OutputThread))
    && (q.owner.Some? && q.owner.value.PusherThread? ==> q.owner.value.i in q.pushers)
  }

  /** Someone has appended and has yet to signal. */
  predicate Signalling<T>(q: Queue<T>) {
    exists i :: i in q.pushers && (q.pushers[i].Appended? || q.pushers[i].Unlocked?)
  }

  /** No signal is lost: waiting content has been signalled, is about to be, or is about to be taken. */
  predicate Signalled<T>(q: Queue<T>) {
    q.content != [] ==> q.semaphore > 0 || Signalling(q) || q.output.Woken? || q.output.Locked?
  }

  /** The shutdown goes step by step. */
  predicate Flags<T>(q: Queue<T>) {
    (q.finished <==> !q.shutdown.Running?) && (q.shutdown.Joined? ==> q.output.Exited?)
  }

  /** The last signal reaches the output thread, so that joining it ends. */
  predicate EndIsSignalled<T>(q: Queue<T>) {
    q.shutdown.Posted? || q.shutdown.Joined? ==>
      && (q.output.Waiting? ==> q.semaphore > 0)
      && ((q.output.Checked? || q.output.Delivering?) && !q.output.last ==> q.semaphore > 0)
  }

  /** While no push has met the shutdown, nobody pushes once it has begun, and nothing is left behind. */
  predicate NothingLeft<T>(q: Queue<T>) {
    !q.late ==>
      && (q.finished ==> NoPush(q))
      && (q.output.Exited? ==> q.finished && q.content == [])
      && ((q.output.Checked? || q.output.Delivering?) && q.output.last ==> q.finished && q.content == [])
  }

  predicate TakenIsEmpty<T>(q: Queue<T>) {
    q.output.Taken? || q.output.Checked? ==> q.content == []
  }

  /** What waits is what has been appended since the content was last taken. */
  predicate SinceTaken<T(==)>(q: Queue<T>) {
    q.taken <= |q.pushed| && q.content == q.pushed[q.taken..]
  }

  /** What a queue keeps whatever happens to its semaphore. */
  predicate Inv<T(==)>(q: Queue<T>) {
    InOrder(q) && SinceTaken(q) && Exclusive(q) && Flags(q) && NothingLeft(q) && TakenIsEmpty(q)
  }

  /** What it keeps if its semaphore is its own. */
  predicate Heard<T>(q: Queue<T>) {
    Signalled(q) && EndIsSignalled(q)
  }

  lemma NewInv<T>(threads: set<nat>, count: nat)
    ensures Inv(New<T>(threads, count)) && Heard(New<T>(threads, count))
  {
  }

  /** The invariant does not depend on the semaphore. */
  lemma InvOfAnyCount<T>(q: Queue<T>, count: nat)
    requires Inv(q)
    ensures Inv(q.(semaphore := count))
  {
    assert InOrder(q.(semaphore := count)) && SinceTaken(q.(semaphore := count));
  }

  lemma FlatSnoc<T>(batches: seq<seq<T>>, batch: seq<T>)
    ensures Flat(batches + [batch]) == Flat(batches) + batch
  {
    assert (batches + [batch])[..|batches|] == batches;
  }

  lemma AddsUp<T>(f: seq<T>, i: seq<T>, c: seq<T>, p: seq<T>, x: seq<T>)
    requires Adds(f, i, c, p)
    ensures Adds(f, i, c + x, p + x)
    ensures i == [] ==> Adds(f, c, [], p)
    ensures Adds(f + i, [], c, p)
  {
    assert f + i + (c + x) == f + i + c + x;
    assert i == [] ==> f + c + [] == f + i + c;
    assert f + i + [] == f + i;
  }

  lemma OrderKept<T>(q: Queue<T>, a: Action<T>)
    requires Can(q, a) && InOrder(q)
    ensures InOrder(Do(q, a))
  {
    hide Adds, Flat;
    var f, i, c := Flat(q.delivered), InFlight(q.output), q.content;
    AddsUp(f, i, c, q.pushed, if a.Append? then q.pushers[a.i].items else []);
    if a.Deliver? {
      FlatSnoc(q.delivered, q.output.batch);
      assert i == [] ==> f + i == f;
    }
  }

  lemma SinceTakenKept<T>(q: Queue<T>, a: Action<T>)
    requires Can(q, a) && SinceTaken(q)
    ensures SinceTaken(Do(q, a))
  {
  }

  lemma ExclusiveKept<T>(q: Queue<T>, a: Action<T>)
    requires Can(q, a) && Exclusive(q) && TakenIsEmpty(q)
    ensures Exclusive(Do(q, a)) && TakenIsEmpty(Do(q, a))
  {
  }

  lemma SignalledKept<T>(q: Queue<T>, a: Action<T>)
    requires Can(q, a) && Signalled(q)
    ensures Signalled(Do(q, a))
  {
    var r := Do(q, a);
    if Signalling(q) {
      var i :| i in q.pushers && (q.pushers[i].Appended? || q.pushers[i].Unlocked?);
      assert i in r.pushers;
      assert a != Signal(i) ==> r.pushers[i].Appended? || r.pushers[i].Unlocked?;
    }
    if a.Append? {
      assert r.pushers[a.i].Appended?;
    }
  }

  lemma EndKept<T>(q: Queue<T>, a: Action<T>)
    requires Can(q, a) && Flags(q)
    ensures Flags(Do(q, a))
    ensures EndIsSignalled(q) ==> EndIsSignalled(Do(q, a))
  {
  }

  lemma NothingLeftKept<T>(q: Queue<T>, a: Action<T>)
    requires Can(q, a) && NothingLeft(q) && Exclusive(q) && TakenIsEmpty(q) && Flags(q)
    ensures NothingLeft(Do(q, a))
  {
  }

  lemma InvKept<T>(q: Queue<T>, a: Action<T>)
    requires Can(q, a) && Inv(q)
    ensures Inv(Do(q, a))
    ensures Heard(q) ==> Heard(Do(q, a))
  {
    hide Can, InOrder, SinceTaken, Exclusive, Signalled, Flags, EndIsSignalled, NothingLeft, TakenIsEmpty, Do;
    OrderKept(q, a);
    SinceTakenKept(q, a);
    ExclusiveKept(q, a);
    if Heard(q) {
      SignalledKept(q, a);
    }
    EndKept(q, a);
    NothingLeftKept(q, a);
  }

  // ---------------------------------------------------------------- any number of queues

  /** Which semaphore each queue waits at. */
  type Assignment = map<nat, nat>

  /** No two queues share a semaphore. */
  predicate Private(at: Assignment) {
    forall j, k :: j in at && k in at && j != k ==> at[j] != at[k]
  }

  /** Queues that share a semaphore agree on how many signals it holds. */
  type Queues<T> = map<nat, Queue<T>>

  /** A step of one of the queues. */
  datatype Step<T> = Step(k: nat, a: Action<T>)

  predicate CanStep<T(==)>(s: Queues<T>, step: Step<T>) {
    step.k in s && Can(s[step.k], step.a)
  }

  /** One queue takes an action; the others see what that does to a semaphore they share. */
  function DoStep<T(==)>(at: Assignment, s: Queues<T>, step: Step<T>): Queues<T>
    requires CanStep(s, step) && s.Keys == at.Keys
  {
    var r := Do(s[step.k], step.a);
    map j | j in s :: if j == step.k then r else if at[j] == at[step.k] then s[j].(semaphore := r.semaphore) else s[j]
  }

  /** New queues; a semaphore that had a name before may hold signals already. */
  function NewQueues<T>(at: Assignment, threads: set<nat>, counts: map<nat, nat>): Queues<T> {
    map k | k in at :: New(threads, if at[k] in counts then counts[at[k]] else 0)
  }

  predicate StepsLead<T(==)>(at: Assignment, s: Queues<T>, steps: seq<Step<T>>, r: Queues<T>)
    requires s.Keys == at.Keys
    decreases |steps|
  {
    if steps == [] then s == r else CanStep(s, steps[0]) && StepsLead(at, DoStep(at, s, steps[0]), steps[1..], r)
  }

  ghost predicate AllInv<T>(at: Assignment, s: Queues<T>) {
    s.Keys == at.Keys && forall k :: k in s ==> Inv(s[k]) && (Private(at) ==> Heard(s[k]))
  }

  lemma NewQueuesInv<T>(at: Assignment, threads: set<nat>, counts: map<nat, nat>)
    ensures AllInv(at, NewQueues<T>(at, threads, counts))
  {
    forall k | k in at ensures Inv(NewQueues<T>(at, threads, counts)[k]) && Heard(NewQueues<T>(at, threads, counts)[k]) {
      NewInv<T>(threads, if at[k] in counts then counts[at[k]] else 0);
    }
  }

  lemma StepKept<T>(at: Assignment, s: Queues<T>, step: Step<T>)
    requires AllInv(at, s) && CanStep(s, step)
    ensures AllInv(at, DoStep(at, s, step))
  {
    hide Inv, Heard, Can, Do;
    var r := DoStep(at, s, step);
    InvKept(s[step.k], step.a);
    forall j | j in r ensures Inv(r[j]) && (Private(at) ==> Heard(r[j])) {
      InvOfAnyCount(s[j], Do(s[step.k], step.a).semaphore);
    }
  }

  /** Whatever the threads do, in whatever order. */
  lemma {:induction false} InvHolds<T>(at: Assignment, s: Queues<T>, steps: seq<Step<T>>, r: Queues<T>)
    requires AllInv(at, s) && StepsLead(at, s, steps, r)
    ensures AllInv(at, r)
    decreases |steps|
  {
    if steps != [] {
      StepKept(at, s, steps[0]);
      hide AllInv, CanStep, DoStep;
      AllInvParts(at, DoStep(at, s, steps[0]));
      InvHolds(at, DoStep(at, s, steps[0]), steps[1..], r);
    }
  }

  lemma AllInvParts<T>(at: Assignment, s: Queues<T>)
    requires AllInv(at, s)
    ensures s.Keys == at.Keys && forall k :: k in s ==> Inv(s[k]) && (Private(at) ==> Heard(s[k]))
  {
  }

  // ---------------------------------------------------------------- what follows

  /** In every run of any queues, however semaphores are shared: items are delivered exactly once and in
      the order of pushing.  When the output thread is gone, what had been appended when it last took the
      content has been delivered, and what has been appended since is left, which is nothing if no push
      has met the shutdown. */
  lemma EveryRun<T>(at: Assignment, threads: set<nat>, counts: map<nat, nat>, steps: seq<Step<T>>, s: Queues<T>, k: nat)
    requires StepsLead(at, NewQueues(at, threads, counts), steps, s) && k in s
    ensures var q := s[k];
            && Flat(q.delivered) + InFlight(q.output) + q.content == q.pushed
            && q.taken <= |q.pushed| && q.content == q.pushed[q.taken..]
            && (q.output.Exited? ==> Flat(q.delivered) == q.pushed[..q.taken])
            && (q.output.Exited? ==> (q.content == [] <==> q.taken == |q.pushed|))
            && (q.output.Exited? && !q.late ==> q.content == [] && Flat(q.delivered) == q.pushed)
  {
    NewQueuesInv<T>(at, threads, counts);
    InvHolds(at, NewQueues(at, threads, counts), steps, s);
    AllInvParts(at, s);
    if s[k].output.Exited? {
      AllTaken(Flat(s[k].delivered), s[k].pushed, s[k].taken);
    }
  }

  /** The items of the last push that thread `i` of queue `k` has begun. */
  function LastBegun<T>(steps: seq<Step<T>>, k: nat, i: nat): seq<T>
    decreases |steps|
  {
    if steps == [] then []
    else
      var last := steps[|steps| - 1];
      if last.k == k && last.a.Begin? && last.a.i == i then last.a.items else LastBegun(steps[..|steps| - 1], k, i)
  }

  /** The items of the pushes on queue `k` that have been appended, in the order in which they were. */
  function PushedIn<T>(steps: seq<Step<T>>, k: nat): seq<T>
    decreases |steps|
  {
    if steps == [] then []
    else
      var init, last := steps[..|steps| - 1], steps[|steps| - 1];
      PushedIn(init, k) + if last.k == k && last.a.Append? then LastBegun(init, k, last.a.i) else []
  }

  /** A thread that is about to append has the items that it began with. */
  predicate Carries<T(==)>(q: Queue<T>, steps: seq<Step<T>>, k: nat) {
    forall i :: i in q.pushers && (q.pushers[i].Wanting? || q.pushers[i].Holding?) ==> q.pushers[i].items == LastBegun(steps, k, i)
  }

  /** What counts as pushed is all that was begun and appended, each push whole. */
  lemma {:induction false} AllIsPushed<T>(at: Assignment, threads: set<nat>, counts: map<nat, nat>, steps: seq<Step<T>>, s: Queues<T>, k: nat)
    requires StepsLead(at, NewQueues(at, threads, counts), steps, s) && k in s
    ensures s[k].pushed == PushedIn(steps, k) && Carries(s[k], steps, k)
    decreases |steps|
  {
    if steps != [] {
      var init, last := steps[..|steps| - 1], steps[|steps| - 1];
      var mid := LastStep(at, NewQueues(at, threads, counts), steps, s);
      AllIsPushed(at, threads, counts, init, mid, k);
      hide PushedIn, LastBegun, NewQueues, StepsLead;
      PushedInNext(steps, k);
      if last.k == k {
        OneMorePushed(mid[k], last.a, steps, k);
      } else {
        assert s[k].pushed == mid[k].pushed && s[k].pushers == mid[k].pushers;
      }
    }
  }

  lemma PushedInNext<T>(steps: seq<Step<T>>, k: nat)
    requires steps != []
    ensures var init, last := steps[..|steps| - 1], steps[|steps| - 1];
            && PushedIn(steps, k) == PushedIn(init, k) + (if last.k == k && last.a.Append? then LastBegun(init, k, last.a.i) else [])
            && (forall i :: LastBegun(steps, k, i) == if last.k == k && last.a.Begin? && last.a.i == i then last.a.items else LastBegun(init, k, i))
  {
  }

  lemma OneMorePushed<T>(q: Queue<T>, a: Action<T>, steps: seq<Step<T>>, k: nat)
    requires steps != [] && steps[|steps| - 1] == Step(k, a) && Can(q, a)
    requires q.pushed == PushedIn(steps[..|steps| - 1], k) && Carries(q, steps[..|steps| - 1], k)
    ensures Do(q, a).pushed == PushedIn(steps, k) && Carries(Do(q, a), steps, k)
  {
    hide PushedIn, LastBegun;
    PushedInNext(steps, k);
  }

  /** A run ends with a step. */
  lemma {:induction false} LastStep<T>(at: Assignment, s: Queues<T>, steps: seq<Step<T>>, r: Queues<T>) returns (mid: Queues<T>)
    requires s.Keys == at.Keys && steps != [] && StepsLead(at, s, steps, r)
    ensures mid.Keys == at.Keys && StepsLead(at, s, steps[..|steps| - 1], mid)
    ensures CanStep(mid, steps[|steps| - 1]) && DoStep(at, mid, steps[|steps| - 1]) == r
    decreases |steps|
  {
    KeysStay(at, s, steps[0]);
    if |steps| == 1 {
      mid := s;
      assert StepsLead(at, DoStep(at, s, steps[0]), [], r);
    } else {
      var next := DoStep(at, s, steps[0]);
      hide CanStep, DoStep;
      mid := LastStep(at, next, steps[1..], r);
      assert steps[..|steps| - 1][1..] == steps[1..][..|steps| - 2];
      assert steps[..|steps| - 1][0] == steps[0];
    }
  }

  lemma AllTaken<T>(delivered: seq<T>, pushed: seq<T>, taken: nat)
    requires taken <= |pushed| && Adds(delivered, [], pushed[taken..], pushed)
    ensures delivered == pushed[..taken]
  {
    assert delivered + [] == delivered;
    assert |delivered| == taken;
    assert (delivered + pushed[taken..])[..taken] == delivered;
  }

  /** Content that waits while the output thread waits has a signal under way. */
  predicate SignalArrives<T>(q: Queue<T>) {
    q.output.Waiting? && q.content != [] ==> q.semaphore > 0 || Signalling(q)
  }

  /** Once the shutdown has been signalled, and until the queue is joined, some thread other than the
      clients' can move: nobody waits for ever. */
  ghost predicate GoesOn<T>(q: Queue<T>) {
    q.shutdown.Posted? ==>
      || Can(q, Wake) || Can(q, LockToTake) || Can(q, Take) || Can(q, Check)
      || Can(q, UnlockAfterTake) || Can(q, Deliver) || Can(q, Join)
      || exists i :: i in q.pushers && (Can(q, Append(i)) || Can(q, UnlockAfterPush(i)))
  }

  lemma HolderMoves<T>(q: Queue<T>)
    requires Exclusive(q) && q.owner.Some? && q.output.Woken?
    ensures exists i :: i in q.pushers && (Can(q, Append(i)) || Can(q, UnlockAfterPush(i)))
  {
    var i := q.owner.value.i;
    assert Can(q, Append(i)) || Can(q, UnlockAfterPush(i));
  }

  lemma HeardGoesOn<T>(q: Queue<T>)
    requires Inv(q) && Heard(q)
    ensures SignalArrives(q) && GoesOn(q)
  {
    assert Exclusive(q) && EndIsSignalled(q) && Signalled(q);
    hide Inv, Heard, Exclusive, InOrder, SinceTaken, NothingLeft, TakenIsEmpty, Flags, Signalling;
    if q.output.Woken? && q.owner.Some? {
      HolderMoves(q);
    }
  }

  /** Where no two queues share a semaphore, no signal is lost, and no shutdown waits for ever. */
  lemma ShutdownMoves<T>(at: Assignment, threads: set<nat>, counts: map<nat, nat>, steps: seq<Step<T>>, s: Queues<T>, k: nat)
    requires Private(at) && StepsLead(at, NewQueues(at, threads, counts), steps, s) && k in s
    ensures SignalArrives(s[k]) && GoesOn(s[k])
  {
    NewQueuesInv<T>(at, threads, counts);
    InvHolds(at, NewQueues(at, threads, counts), steps, s);
    AllInvParts(at, s);
    HeardGoesOn(s[k]);
  }

  // ---------------------------------------------------------------- shared semaphores

  /** Some run leads from the queues `s` to `r`. */
  ghost predicate StepsReach<T(!new)>(at: Assignment, s: Queues<T>, r: Queues<T>) {
    s.Keys == at.Keys && exists steps: seq<Step<T>> :: StepsLead(at, s, steps, r)
  }

  lemma StepsReachSelf<T(!new)>(at: Assignment, s: Queues<T>)
    requires s.Keys == at.Keys
    ensures StepsReach(at, s, s)
  {
    assert StepsLead<T>(at, s, [], s);
  }

  /** One more step at the end of a run. */
  lemma ReachesOn<T(!new)>(at: Assignment, s: Queues<T>, r: Queues<T>, step: Step<T>)
    requires StepsReach(at, s, r) && r.Keys == at.Keys && CanStep(r, step)
    ensures StepsReach(at, s, DoStep(at, r, step))
  {
    var steps: seq<Step<T>> :| StepsLead(at, s, steps, r);
    StepsSnoc(at, s, steps, r, step);
  }

  lemma {:induction false} StepsSnoc<T>(at: Assignment, s: Queues<T>, steps: seq<Step<T>>, r: Queues<T>, step: Step<T>)
    requires s.Keys == r.Keys == at.Keys && StepsLead(at, s, steps, r) && CanStep(r, step)
    ensures StepsLead(at, s, steps + [step], DoStep(at, r, step))
    decreases |steps|
  {
    hide CanStep, DoStep;
    if steps == [] {
      assert ([] + [step])[1..] == [];
      assert ([] + [step])[0] == step;
      KeysStay(at, r, step);
      assert StepsLead(at, DoStep(at, r, step), [], DoStep(at, r, step));
    } else {
      assert (steps + [step])[1..] == steps[1..] + [step];
      KeysStay(at, s, steps[0]);
      StepsSnoc(at, DoStep(at, s, steps[0]), steps[1..], r, step);
    }
  }

  lemma KeysStay<T>(at: Assignment, s: Queues<T>, step: Step<T>)
    requires s.Keys == at.Keys && CanStep(s, step)
    ensures DoStep(at, s, step).Keys == at.Keys
  {
  }

  /** What two queues that share a semaphore are like. */
  ghost predicate Two<T>(at: Assignment, a: nat, b: nat, s: Queues<T>, p: Queue<T>, q: Queue<T>) {
    a in at && b in at && a != b && at[a] == at[b] && s.Keys == at.Keys && s[a] == p && s[b] == q
  }

  /** The first of two that share a semaphore takes an action. */
  lemma FirstActs<T(!new)>(at: Assignment, a: nat, b: nat, s: Queues<T>, r: Queues<T>, p: Queue<T>, q: Queue<T>, act: Action<T>,
                           p': Queue<T>, q': Queue<T>)
    returns (r': Queues<T>)
    requires StepsReach(at, s, r) && Two(at, a, b, r, p, q)
    requires Acts(p, act, p') && q' == q.(semaphore := p'.semaphore)
    ensures StepsReach(at, s, r') && Two(at, a, b, r', p', q')
  {
    hide Can, Do, StepsReach;
    ReachesOn(at, s, r, Step(a, act));
    r' := DoStep(at, r, Step(a, act));
  }

  lemma SecondActs<T(!new)>(at: Assignment, a: nat, b: nat, s: Queues<T>, r: Queues<T>, p: Queue<T>, q: Queue<T>, act: Action<T>,
                            p': Queue<T>, q': Queue<T>)
    returns (r': Queues<T>)
    requires StepsReach(at, s, r) && Two(at, a, b, r, p, q)
    requires Acts(q, act, q') && p' == p.(semaphore := q'.semaphore)
    ensures StepsReach(at, s, r') && Two(at, a, b, r', p', q')
  {
    hide Can, Do, StepsReach;
    ReachesOn(at, s, r, Step(b, act));
    r' := DoStep(at, r, Step(b, act));
  }

  predicate Acts<T(==)>(q: Queue<T>, a: Action<T>, r: Queue<T>) {
    Can(q, a) && Do(q, a) == r
  }

  lemma TwoNew<T(!new)>(at: Assignment, a: nat, b: nat) returns (s: Queues<T>)
    requires a in at && b in at && a != b && at[a] == at[b]
    ensures s == NewQueues(at, {0}, map[]) && StepsReach(at, s, s) && Two(at, a, b, s, New({0}, 0), New({0}, 0))
  {
    s := NewQueues(at, {0}, map[]);
    StepsReachSelf(at, s);
  }

  /** A queue in which `x` has been pushed and signalled by one thread. */
  function Pushed<T>(x: T, count: nat): Queue<T> {
    New({0}, count).(content := [x], pushed := [x])
  }

  /** The turns of a thread that pushes `x`, all but the last of which leave the semaphore as it is. */
  lemma PushTurns<T>(x: T) returns (p1: Queue<T>, p2: Queue<T>, p3: Queue<T>, p4: Queue<T>)
    ensures Acts(New({0}, 0), Begin(0, [x]), p1) && p1.semaphore == 0
    ensures Acts(p1, LockToPush(0), p2) && p2.semaphore == 0
    ensures Acts(p2, Append(0), p3) && p3.semaphore == 0
    ensures Acts(p3, UnlockAfterPush(0), p4) && p4.semaphore == 0
    ensures Acts(p4, Signal(0), Pushed(x, 1))
  {
    p1 := Do(New({0}, 0), Begin(0, [x]));
    p2 := Do(p1, LockToPush(0));
    p3 := Do(p2, Append(0));
    p4 := Do(p3, UnlockAfterPush(0));
  }

  /** Those of an output thread that finds nothing. */
  lemma EmptyRound<T>() returns (q1: Queue<T>, q2: Queue<T>, q3: Queue<T>, q4: Queue<T>, q5: Queue<T>)
    ensures Acts(New({0}, 1), Wake, q1) && q1.semaphore == 0
    ensures Acts(q1, LockToTake, q2) && q2.semaphore == 0
    ensures Acts(q2, Take, q3) && q3.semaphore == 0
    ensures Acts(q3, Check, q4) && q4.semaphore == 0
    ensures Acts(q4, UnlockAfterTake, q5) && q5.semaphore == 0
    ensures Acts(q5, Deliver, New({0}, 0))
  {
    var idle := New<T>({0}, 0);
    q1 := idle.(output := Woken);
    q2 := idle.(output := Locked, owner := Some(OutputThread));
    q3 := idle.(output := Taken([]), owner := Some(OutputThread));
    q4 := idle.(output := Checked([], false), owner := Some(OutputThread));
    q5 := idle.(output := Delivering([], false));
  }

  lemma EndTurns<T>() returns (p1: Queue<T>)
    ensures Acts(New({0}, 0), SetFinished, p1) && p1.semaphore == 0
    ensures Acts(p1, SignalShutdown, Ending(1))
  {
    p1 := Do(New({0}, 0), SetFinished);
  }

  /** Queues that differ in what is in the semaphore. */
  lemma CountsOf<T>(x: T)
    ensures forall n: nat, m: nat :: New<T>({0}, n).(semaphore := m) == New({0}, m)
    ensures forall n: nat, m: nat :: Pushed(x, n).(semaphore := m) == Pushed(x, m)
    ensures forall n: nat :: New<T>({0}, n).semaphore == n && Pushed(x, n).semaphore == n
    ensures !SignalArrives(Pushed(x, 0))
  {
  }

  lemma EndingCounts<T>()
    ensures forall n: nat, m: nat :: New<T>({0}, n).(semaphore := m) == New({0}, m)
    ensures forall n: nat, m: nat :: Ending<T>(n).(semaphore := m) == Ending(m)
    ensures forall n: nat :: New<T>({0}, n).semaphore == n && Ending<T>(n).semaphore == n
    ensures !GoesOn(Ending<T>(0))
  {
  }

  /** Of two queues that share a semaphore, the second can take the signal of a push on the first, which
      then waits, with its content and without a signal. */
  lemma SignalIsTaken<T(!new)>(at: Assignment, a: nat, b: nat, x: T) returns (s: Queues<T>)
    requires a in at && b in at && a != b && at[a] == at[b]
    ensures StepsReach(at, NewQueues(at, {0}, map[]), s) && s.Keys == at.Keys
    ensures s[a] == Pushed(x, 0) && !SignalArrives(s[a])
  {
    hide *;
    CountsOf(x);
    var idle, told := New<T>({0}, 0), New<T>({0}, 1);
    var p1, p2, p3, p4 := PushTurns(x);
    var q1, q2, q3, q4, q5 := EmptyRound<T>();
    var was := TwoNew<T>(at, a, b);
    s := FirstActs(at, a, b, was, was, idle, idle, Begin(0, [x]), p1, idle);
    s := FirstActs(at, a, b, was, s, p1, idle, LockToPush(0), p2, idle);
    s := FirstActs(at, a, b, was, s, p2, idle, Append(0), p3, idle);
    s := FirstActs(at, a, b, was, s, p3, idle, UnlockAfterPush(0), p4, idle);
    s := FirstActs(at, a, b, was, s, p4, idle, Signal(0), Pushed(x, 1), told);
    s := SecondActs(at, a, b, was, s, Pushed(x, 1), told, Wake, Pushed(x, 0), q1);
    TwoIs(at, a, b, s, Pushed(x, 0), q1);
  }

  lemma TwoIs<T>(at: Assignment, a: nat, b: nat, s: Queues<T>, p: Queue<T>, q: Queue<T>)
    requires Two(at, a, b, s, p, q)
    ensures s.Keys == at.Keys && a in s && b in s && s[a] == p && s[b] == q
  {
  }

  /** A queue whose shutdown has been signalled, and nothing else. */
  function Ending<T>(count: nat): Queue<T> {
    New({0}, count).(shutdown := Posted, finished := true)
  }

  /** It can take the last signal as well.  When it has gone round once, all threads wait for a signal that
      nobody is to send: the first queue is never joined, unless some client pushes on the second. */
  lemma LastSignalIsTaken<T(!new)>(at: Assignment, a: nat, b: nat) returns (s: Queues<T>)
    requires a in at && b in at && a != b && at[a] == at[b]
    ensures StepsReach(at, NewQueues<T>(at, {0}, map[]), s) && s.Keys == at.Keys
    ensures s[a] == Ending(0) && !GoesOn(s[a]) && s[b] == New({0}, 0)
  {
    hide *;
    EndingCounts<T>();
    var idle, told := New<T>({0}, 0), New<T>({0}, 1);
    var p1 := EndTurns<T>();
    var q1, q2, q3, q4, q5 := EmptyRound<T>();
    var was := TwoNew<T>(at, a, b);
    s := FirstActs(at, a, b, was, was, idle, idle, SetFinished, p1, idle);
    s := FirstActs(at, a, b, was, s, p1, idle, SignalShutdown, Ending(1), told);
    s := SecondActs(at, a, b, was, s, Ending(1), told, Wake, Ending(0), q1);
    s := SecondActs(at, a, b, was, s, Ending(0), q1, LockToTake, Ending(0), q2);
    s := SecondActs(at, a, b, was, s, Ending(0), q2, Take, Ending(0), q3);
    s := SecondActs(at, a, b, was, s, Ending(0), q3, Check, Ending(0), q4);
    s := SecondActs(at, a, b, was, s, Ending(0), q4, UnlockAfterTake, Ending(0), q5);
    s := SecondActs(at, a, b, was, s, Ending(0), q5, Deliver, Ending(0), idle);
    TwoIs(at, a, b, s, Ending(0), idle);
  }

  /** In every run every signal arrives. */
  ghost predicate SignalsArrive<T(!new)>(at: Assignment) {
    forall threads, counts, s: Queues<T>, k :: StepsReach(at, NewQueues(at, threads, counts), s) && k in s ==> SignalArrives(s[k])
  }

  /** In every run every shutdown goes on. */
  ghost predicate ShutdownsGoOn<T(!new)>(at: Assignment) {
    forall threads, counts, s: Queues<T>, k :: StepsReach(at, NewQueues(at, threads, counts), s) && k in s ==> GoesOn(s[k])
  }

  /** Both hold exactly of the assignments in which no two queues share a semaphore. */
  lemma SoundIffPrivate<T(!new)>(at: Assignment, x: T)
    ensures SignalsArrive<T>(at) <==> Private(at)
    ensures ShutdownsGoOn<T>(at) <==> Private(at)
  {
    if Private(at) {
      forall threads, counts, s: Queues<T>, k | StepsReach(at, NewQueues(at, threads, counts), s) && k in s
        ensures SignalArrives(s[k]) && GoesOn(s[k])
      {
        var steps: seq<Step<T>> :| StepsLead(at, NewQueues(at, threads, counts), steps, s);
        ShutdownMoves(at, threads, counts, steps, s, k);
      }
    } else {
      var a, b :| a in at && b in at && a != b && at[a] == at[b];
      var s := SignalIsTaken(at, a, b, x);
      assert a in s;
      var r := LastSignalIsTaken<T>(at, a, b);
      assert a in r;
    }
  }

  // ---------------------------------------------------------------- pushes that meet the shutdown

  /** Some run of a queue with a semaphore of its own leads from `q` to `r`. */
  ghost predicate CanReach<T(!new)>(q: Queue<T>, r: Queue<T>) {
    exists actions: seq<Action<T>> :: Leads(q, actions, r)
  }

  lemma ReachesItself<T(!new)>(q: Queue<T>)
    ensures CanReach(q, q)
  {
    assert Leads<T>(q, [], q);
  }

  lemma ReachesBefore<T(!new)>(q: Queue<T>, a: Action<T>, r: Queue<T>)
    requires Can(q, a) && CanReach(Do(q, a), r)
    ensures CanReach(q, r)
  {
    var rest: seq<Action<T>> :| Leads(Do(q, a), rest, r);
    assert ([a] + rest)[1..] == rest;
    assert Leads(q, [a] + rest, r);
  }

  /** A queue with one idle pushing thread that has been shut down but not joined. */
  function Down<T>(): Queue<T> {
    Queue([], None, 0, true, map[0 := Idle], Exited, Posted, [], [], false, 0)
  }

  lemma ShutsDown<T(!new)>(r: Queue<T>)
    requires CanReach(Down(), r)
    ensures CanReach(New({0}, 0), r)
  {
    var q1 := Do(New<T>({0}, 0), SetFinished);
    var q2 := Do(q1, SignalShutdown);
    var q3 := Do(q2, Wake);
    var q4 := Do(q3, LockToTake);
    var q5 := Do(q4, Take);
    var q6 := Do(q5, Check);
    var q7 := Do(q6, UnlockAfterTake);
    assert Do(q7, Deliver) == Down<T>();
    hide Leads, CanReach;
    ReachesBefore(q7, Deliver, r);
    ReachesBefore(q6, UnlockAfterTake, r);
    ReachesBefore(q5, Check, r);
    ReachesBefore(q4, Take, r);
    ReachesBefore(q3, LockToTake, r);
    ReachesBefore(q2, Wake, r);
    ReachesBefore(q1, SignalShutdown, r);
    ReachesBefore(New<T>({0}, 0), SetFinished, r);
  }

  /** A push that meets the shutdown can be lost: the destructor then finds content left behind. */
  lemma LatePushIsLost<T(!new)>(x: T)
    ensures exists q :: CanReach(New({0}, 0), q) && q.shutdown.Joined? && q.content == [x] && q.late
  {
    var q1 := Do(Down<T>(), Begin(0, [x]));
    var q2 := Do(q1, LockToPush(0));
    var q3 := Do(q2, Append(0));
    var q4 := Do(q3, Join);
    assert q4.shutdown.Joined? && q4.content == [x] && q4.late;
    hide Leads, CanReach;
    ReachesItself(q4);
    ReachesBefore(q3, Join, q4);
    ReachesBefore(q2, Append(0), q4);
    ReachesBefore(q1, LockToPush(0), q4);
    ReachesBefore(Down(), Begin(0, [x]), q4);
    ShutsDown(q4);
  }

  /** A queue in which a push has met the shutdown and has been signalled before the shutdown was. */
  function Late<T>(x: T): Queue<T> {
    Queue([x], None, 1, true, map[0 := Idle], Waiting, Flagged, [x], [], true, 0)
  }

  lemma PushesLate<T(!new)>(x: T, r: Queue<T>)
    requires CanReach(Late(x), r)
    ensures CanReach(New({0}, 0), r)
  {
    var q1 := Do(New<T>({0}, 0), SetFinished);
    var q2 := Do(q1, Begin(0, [x]));
    var q3 := Do(q2, LockToPush(0));
    var q4 := Do(q3, Append(0));
    var q5 := Do(q4, UnlockAfterPush(0));
    assert Do(q5, Signal(0)) == Late(x);
    hide Leads, CanReach;
    ReachesBefore(q5, Signal(0), r);
    ReachesBefore(q4, UnlockAfterPush(0), r);
    ReachesBefore(q3, Append(0), r);
    ReachesBefore(q2, LockToPush(0), r);
    ReachesBefore(q1, Begin(0, [x]), r);
    ReachesBefore(New<T>({0}, 0), SetFinished, r);
  }

  /** What becomes of it: the output thread has delivered, in its last round, what it found. */
  function Ended<T>(x: T): Queue<T> {
    Queue([], None, 0, true, map[0 := Idle], Exited, Flagged, [x], [[x]], true, 1)
  }

  lemma DeliversLate<T(!new)>(x: T, r: Queue<T>)
    requires CanReach(Ended(x), r)
    ensures CanReach(Late(x), r)
  {
    var q1 := Do(Late(x), Wake);
    var q2 := Do(q1, LockToTake);
    var q3 := Do(q2, Take);
    var q4 := Do(q3, Check);
    var q5 := Do(q4, UnlockAfterTake);
    assert Do(q5, Deliver) == Ended(x);
    hide Leads, CanReach;
    ReachesBefore(q5, Deliver, r);
    ReachesBefore(q4, UnlockAfterTake, r);
    ReachesBefore(q3, Check, r);
    ReachesBefore(q2, Take, r);
    ReachesBefore(q1, LockToTake, r);
    ReachesBefore(Late(x), Wake, r);
  }

  /** A push that meets the shutdown can be delivered as well, if it comes before the content is last taken. */
  lemma LatePushIsDelivered<T(!new)>(x: T)
    ensures exists q :: CanReach(New({0}, 0), q) && q.shutdown.Joined? && q.content == [] && q.late && q.delivered == [[x]]
  {
    var q1 := Do(Ended(x), SignalShutdown);
    var q2 := Do(q1, Join);
    assert q2.shutdown.Joined? && q2.content == [] && q2.late && q2.delivered == [[x]];
    hide Leads, CanReach;
    ReachesItself(q2);
    ReachesBefore(q1, Join, q2);
    ReachesBefore(Ended(x), SignalShutdown, q2);
    DeliversLate(x, q2);
    PushesLate(x, q2);
  }
}
