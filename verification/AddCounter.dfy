/**
 The shared counter of lab2_add: every thread adds 1 `iterations` times and then takes 1 away
 `iterations` times, with no protection, under a mutex, under a spin lock or by compare-and-swap.
 Every access to shared memory is one step, so sched_yield may fall between any two of them.
 */
module AddCounter {

  datatype Sync = NoSync | Mutex | SpinLock | CompareAndSwap

  /** Where a thread is inside add(): `Computed(oldVal)` has read the counter and has its sum. */
  datatype Pc = Ready | Spinning | Holding | Computed(oldVal: int) | Unlocking

  /** `stored` counts the additions this thread has put into the counter. */
  datatype Thread = Thread(pc: Pc, stored: nat)

  datatype State = State(counter: int, locked: bool, threads: seq<Thread>)

  /** The `value` argument of a thread's addition number k. */
  function Value(k: nat, iterations: nat): int {
    if k < iterations then 1 else -1
  }

  function Start(nThreads: nat): State {
    State(0, false, seq(nThreads, _ => Thread(Ready, 0)))
  }

  predicate Finished(th: Thread, iterations: nat) {
    th.pc == Ready && th.stored >= 2 * iterations
  }

  predicate AllFinished(s: State, iterations: nat) {
    forall t :: 0 <= t < |s.threads| ==> Finished(s.threads[t], iterations)
  }

  /** What one step of a thread leaves of (counter, lock, the thread itself). */
  function ThreadStep(sync: Sync, iterations: nat, counter: int, locked: bool, th: Thread): (int, bool, Thread) {
    match th.pc
    case Ready =>
      if th.stored >= 2 * iterations then (counter, locked, th)
      else if sync.NoSync? || sync.CompareAndSwap? then (counter, locked, Thread(Computed(counter), th.stored))
      else if !locked then (counter, true, Thread(Holding, th.stored))
      else if sync.SpinLock? then (counter, locked, Thread(Spinning, th.stored))
      else (counter, locked, th)
    case Spinning =>
      (counter, locked, if locked then th else Thread(Ready, th.stored))
    case Holding =>
      (counter, locked, Thread(Computed(counter), th.stored))
    case Computed(oldVal) =>
      if sync.CompareAndSwap? && counter != oldVal then (counter, locked, Thread(Ready, th.stored))
      else
        var next := if sync.Mutex? || sync.SpinLock? then Unlocking else Ready;
        (oldVal + Value(th.stored, iterations), locked, Thread(next, th.stored + 1))
    case Unlocking =>
      (counter, false, Thread(Ready, th.stored))
  }

  function Next(sync: Sync, iterations: nat, s: State, t: nat): State
    requires t < |s.threads|
  {
    var (c, l, th) := ThreadStep(sync, iterations, s.counter, s.locked, s.threads[t]);
    State(c, l, s.threads[t := th])
  }

  /** A schedule names the thread that moves at each step. */
  predicate IsSchedule(schedule: seq<nat>, s: State) {
    forall i :: 0 <= i < |schedule| ==> schedule[i] < |s.threads|
  }

  function After(sync: Sync, iterations: nat, s: State, schedule: seq<nat>): State
    requires IsSchedule(schedule, s)
    decreases |schedule|
  {
    if schedule == [] then s
    else After(sync, iterations, Next(sync, iterations, s, schedule[0]), schedule[1..])
  }

  // ----- what has been stored

  function Pluses(ths: seq<Thread>, iterations: nat): nat {
    if ths == [] then 0
    else (if ths[0].stored < iterations then ths[0].stored else iterations) + Pluses(ths[1..], iterations)
  }

  function Minuses(ths: seq<Thread>, iterations: nat): nat {
    if ths == [] then 0
    else (if ths[0].stored < iterations then 0 else ths[0].stored - iterations) + Minuses(ths[1..], iterations)
  }

  /** The effect on both sums of one more addition stored by thread t. */
  lemma {:induction false} StoreOne(ths: seq<Thread>, t: nat, th: Thread, iterations: nat)
    requires t < |ths| && th.stored == ths[t].stored + 1
    ensures Pluses(ths[t := th], iterations) == Pluses(ths, iterations) + (if ths[t].stored < iterations then 1 else 0)
    ensures Minuses(ths[t := th], iterations) == Minuses(ths, iterations) + (if ths[t].stored < iterations then 0 else 1)
  {
    if t > 0 {
      assert ths[t := th][1..] == ths[1..][t - 1 := th];
      StoreOne(ths[1..], t - 1, th, iterations);
    } else {
      assert ths[t := th][1..] == ths[1..];
    }
  }

  lemma {:induction false} StoreNone(ths: seq<Thread>, t: nat, th: Thread, iterations: nat)
    requires t < |ths| && th.stored == ths[t].stored
    ensures Pluses(ths[t := th], iterations) == Pluses(ths, iterations)
    ensures Minuses(ths[t := th], iterations) == Minuses(ths, iterations)
  {
    if t > 0 {
      assert ths[t := th][1..] == ths[1..][t - 1 := th];
      StoreNone(ths[1..], t - 1, th, iterations);
    } else {
      assert ths[t := th][1..] == ths[1..];
    }
  }

  lemma {:induction false} StoredBounds(ths: seq<Thread>, iterations: nat)
    requires forall t :: 0 <= t < |ths| ==> ths[t].stored <= 2 * iterations
    ensures Pluses(ths, iterations) <= |ths| * iterations
    ensures Minuses(ths, iterations) <= |ths| * iterations
  {
    if ths != [] {
      StoredBounds(ths[1..], iterations);
      assert |ths| * iterations == |ths[1..]| * iterations + iterations;
    }
  }

  lemma {:induction false} StoredAll(ths: seq<Thread>, iterations: nat)
    requires forall t :: 0 <= t < |ths| ==> ths[t].stored == 2 * iterations
    ensures Pluses(ths, iterations) == Minuses(ths, iterations)
  {
    if ths != [] {
      StoredAll(ths[1..], iterations);
    }
  }

  lemma {:induction false} StoredNothing(ths: seq<Thread>, iterations: nat)
    requires forall t :: 0 <= t < |ths| ==> ths[t].stored == 0
    ensures Pluses(ths, iterations) == Minuses(ths, iterations) == 0
  {
    if ths != [] {
      StoredNothing(ths[1..], iterations);
    }
  }

  // ----- the invariant

  predicate Inside(pc: Pc) { pc.Holding? || pc.Computed? || pc.Unlocking? }

  predicate Locking(sync: Sync) { sync.Mutex? || sync.SpinLock? }

  /** The states of add() that occur under each kind of synchronisation. */
  predicate GoodPc(sync: Sync, iterations: nat, th: Thread) {
    && th.stored <= 2 * iterations
    && (th.pc.Spinning? || th.pc.Holding? || th.pc.Computed? ==> th.stored < 2 * iterations)
    && (th.pc.Spinning? ==> sync.SpinLock?)
    && (th.pc.Holding? || th.pc.Unlocking? ==> Locking(sync))
  }

  /** The lock is taken exactly when one thread is between acquiring and releasing it. */
  ghost predicate LockGood(s: State) {
    && (s.locked <==> exists t :: 0 <= t < |s.threads| && Inside(s.threads[t].pc))
    && forall t, u :: 0 <= t < |s.threads| && 0 <= u < |s.threads| && Inside(s.threads[t].pc) && Inside(s.threads[u].pc) ==> t == u
  }

  /** A read value lies within what had been stored, and is current where a lock protects it. */
  predicate ReadGood(sync: Sync, counter: int, low: int, high: int, th: Thread) {
    th.pc.Computed? ==>
      && low <= th.pc.oldVal <= high
      && (Locking(sync) ==> th.pc.oldVal == counter)
  }

  ghost predicate Inv(sync: Sync, iterations: nat, s: State) {
    var plus: int, minus: int := Pluses(s.threads, iterations), Minuses(s.threads, iterations);
    && -minus <= s.counter <= plus
    && (!sync.NoSync? ==> s.counter == plus - minus)
    && (Locking(sync) ==> LockGood(s))
    && (!Locking(sync) ==> !s.locked)
    && (forall t :: 0 <= t < |s.threads| ==> GoodPc(sync, iterations, s.threads[t]))
    && (forall t :: 0 <= t < |s.threads| ==> ReadGood(sync, s.counter, -minus, plus, s.threads[t]))
  }

  lemma StartGood(sync: Sync, iterations: nat, nThreads: nat)
    ensures Inv(sync, iterations, Start(nThreads))
  {
    StoredNothing(Start(nThreads).threads, iterations);
  }

  lemma LockKept(sync: Sync, iterations: nat, s: State, t: nat)
    requires t < |s.threads| && Locking(sync) && LockGood(s) && GoodPc(sync, iterations, s.threads[t])
    ensures LockGood(Next(sync, iterations, s, t))
  {
    var s' := Next(sync, iterations, s, t);
    assert forall u :: 0 <= u < |s.threads| && u != t ==> s'.threads[u] == s.threads[u];
    assert Inside(s'.threads[t].pc) ==> s'.locked;
  }

  /** The counter and the moving thread, against the sums before and after the step. */
  lemma MoverKept(sync: Sync, iterations: nat, counter: int, locked: bool, th: Thread, plus: int, minus: int)
    requires GoodPc(sync, iterations, th) && ReadGood(sync, counter, -minus, plus, th)
    requires -minus <= counter <= plus && (!sync.NoSync? ==> counter == plus - minus)
    ensures var (c, l, th') := ThreadStep(sync, iterations, counter, locked, th);
            var up := if th'.stored > th.stored && th.stored < iterations then 1 else 0;
            var down := if th'.stored > th.stored && th.stored >= iterations then 1 else 0;
            && GoodPc(sync, iterations, th')
            && ReadGood(sync, c, -minus - down, plus + up, th')
            && -minus - down <= c <= plus + up
            && (!sync.NoSync? ==> c == plus + up - minus - down)
            && (th'.stored == th.stored || th'.stored == th.stored + 1)
            && (c != counter ==> th.pc.Computed?)
            && (!Locking(sync) && !locked ==> !l)
  {
  }

  /** Every step of every thread keeps the invariant. */
  lemma StepKeeps(sync: Sync, iterations: nat, s: State, t: nat)
    requires t < |s.threads| && Inv(sync, iterations, s)
    ensures Inv(sync, iterations, Next(sync, iterations, s, t))
  {
    hide Pluses, Minuses, GoodPc;
    var s' := Next(sync, iterations, s, t);
    var th, th' := s.threads[t], s'.threads[t];
    MoverKept(sync, iterations, s.counter, s.locked, th, Pluses(s.threads, iterations), Minuses(s.threads, iterations));
    if Locking(sync) {
      LockKept(sync, iterations, s, t);
    }
    if th'.stored == th.stored {
      StoreNone(s.threads, t, th', iterations);
    } else {
      StoreOne(s.threads, t, th', iterations);
    }
    hide ThreadStep;
    var plus: int, minus: int := Pluses(s'.threads, iterations), Minuses(s'.threads, iterations);
    forall u | 0 <= u < |s.threads| && u != t
      ensures ReadGood(sync, s'.counter, -minus, plus, s.threads[u])
    {
      assert Locking(sync) && s.threads[u].pc.Computed? && th.pc.Computed? ==> u == t;
    }
  }

  /** The invariant holds after every schedule. */
  lemma {:induction false} RunKeeps(sync: Sync, iterations: nat, s: State, schedule: seq<nat>)
    requires IsSchedule(schedule, s) && Inv(sync, iterations, s)
    ensures Inv(sync, iterations, After(sync, iterations, s, schedule))
    ensures |After(sync, iterations, s, schedule).threads| == |s.threads|
    decreases |schedule|
  {
    if schedule != [] {
      StepKeeps(sync, iterations, s, schedule[0]);
      RunKeeps(sync, iterations, Next(sync, iterations, s, schedule[0]), schedule[1..]);
    }
  }

  /**
   For any number of threads and iterations and any interleaving: the counter never leaves
   plus or minus threads * iterations, and once all threads are done it is 0 unless there was
   no synchronisation.
   */
  lemma CounterTheorem(sync: Sync, iterations: nat, nThreads: nat, schedule: seq<nat>)
    requires IsSchedule(schedule, Start(nThreads))
    ensures var s := After(sync, iterations, Start(nThreads), schedule);
            && -(nThreads * iterations) <= s.counter <= nThreads * iterations
            && (AllFinished(s, iterations) && !sync.NoSync? ==> s.counter == 0)
  {
    StartGood(sync, iterations, nThreads);
    RunKeeps(sync, iterations, Start(nThreads), schedule);
    var s := After(sync, iterations, Start(nThreads), schedule);
    StoredBounds(s.threads, iterations);
    if AllFinished(s, iterations) {
      StoredAll(s.threads, iterations);
    }
  }

  // ----- progress

  /** What is left to do for one thread; `stride` outweighs what one store can undo for the others. */
  function Rank(stride: nat, iterations: nat, counter: int, th: Thread): nat
    requires th.stored <= 2 * iterations
  {
    (2 * iterations - th.stored) * stride +
    match th.pc
    case Ready => if th.stored == 2 * iterations then 0 else 5
    case Spinning => 6
    case Holding => 4
    case Computed(oldVal) => if oldVal == counter then 3 else 6
    case Unlocking => 7
  }

  ghost predicate Bounded(ths: seq<Thread>, iterations: nat) {
    forall t :: 0 <= t < |ths| ==> ths[t].stored <= 2 * iterations
  }

  function TotalRank(stride: nat, iterations: nat, counter: int, ths: seq<Thread>): nat
    requires Bounded(ths, iterations)
  {
    if ths == [] then 0 else Rank(stride, iterations, counter, ths[0]) + TotalRank(stride, iterations, counter, ths[1..])
  }

  /** Another thread's store costs at most three, by making what was read out of date. */
  lemma {:induction false} Outdated(stride: nat, iterations: nat, c: int, c': int, ths: seq<Thread>)
    requires Bounded(ths, iterations)
    ensures TotalRank(stride, iterations, c', ths) <= TotalRank(stride, iterations, c, ths) + 3 * |ths|
  {
    if ths != [] {
      Outdated(stride, iterations, c, c', ths[1..]);
    }
  }

  lemma {:induction false} RankOfOne(stride: nat, iterations: nat, c: int, ths: seq<Thread>, t: nat, th: Thread)
    requires Bounded(ths, iterations) && t < |ths| && th.stored <= 2 * iterations
    ensures TotalRank(stride, iterations, c, ths[t := th])
         == TotalRank(stride, iterations, c, ths) - Rank(stride, iterations, c, ths[t]) + Rank(stride, iterations, c, th)
  {
    hide Rank;
    if t > 0 {
      assert ths[t := th][1..] == ths[1..][t - 1 := th];
      RankOfOne(stride, iterations, c, ths[1..], t - 1, th);
    } else {
      assert ths[t := th][1..] == ths[1..];
    }
  }

  ghost function Left(iterations: nat, s: State): nat
    requires Bounded(s.threads, iterations)
  {
    TotalRank(3 * |s.threads| + 10, iterations, s.counter, s.threads)
  }

  /** The threads that a step brings closer to the end. */
  predicate CanMove(sync: Sync, iterations: nat, s: State, t: nat)
    requires t < |s.threads|
  {
    && !Finished(s.threads[t], iterations)
    && (s.locked ==> Inside(s.threads[t].pc))
  }

  lemma RankDrops(sync: Sync, iterations: nat, s: State, t: nat)
    requires Inv(sync, iterations, s) && t < |s.threads| && CanMove(sync, iterations, s, t)
    ensures var s' := Next(sync, iterations, s, t);
            Bounded(s'.threads, iterations) && Left(iterations, s') < Left(iterations, s)
  {
    hide Pluses, Minuses;
    StepKeeps(sync, iterations, s, t);
    var s' := Next(sync, iterations, s, t);
    var th, th' := s.threads[t], s'.threads[t];
    var stride := 3 * |s.threads| + 10;
    RankOfOne(stride, iterations, s.counter, s.threads, t, th');
    OneDrop(sync, iterations, s.counter, s.locked, th, stride);
    if s'.counter != s.counter {
      Outdated(stride, iterations, s.counter, s'.counter, s'.threads);
    }
  }

  /** The moving thread alone, measured against the counter it found. */
  lemma OneDrop(sync: Sync, iterations: nat, counter: int, locked: bool, th: Thread, stride: nat)
    requires GoodPc(sync, iterations, th) && !Finished(th, iterations) && (locked ==> Inside(th.pc)) && stride >= 10
    requires Locking(sync) || !locked
    ensures var (c, l, th') := ThreadStep(sync, iterations, counter, locked, th);
            && th'.stored <= 2 * iterations
            && Rank(stride, iterations, counter, th') + (if c == counter then 0 else stride - 7) < Rank(stride, iterations, counter, th)
  {
    var (c, l, th') := ThreadStep(sync, iterations, counter, locked, th);
    if th'.stored == th.stored + 1 {
      assert (2 * iterations - th.stored) * stride == (2 * iterations - th'.stored) * stride + stride;
    }
  }

  /** No deadlock: as long as some thread is unfinished, a thread can move on. */
  lemma SomeoneCanMove(sync: Sync, iterations: nat, s: State)
    requires Inv(sync, iterations, s) && !AllFinished(s, iterations)
    ensures exists t :: 0 <= t < |s.threads| && CanMove(sync, iterations, s, t)
  {
    hide Pluses, Minuses;
    if s.locked {
      var t :| 0 <= t < |s.threads| && Inside(s.threads[t].pc);
      assert CanMove(sync, iterations, s, t);
    } else {
      var t :| 0 <= t < |s.threads| && !Finished(s.threads[t], iterations);
      assert CanMove(sync, iterations, s, t);
    }
  }

  /** From every reachable state, all threads can still finish. */
  lemma {:induction false} CanFinish(sync: Sync, iterations: nat, s: State) returns (schedule: seq<nat>)
    requires Inv(sync, iterations, s)
    ensures IsSchedule(schedule, s) && AllFinished(After(sync, iterations, s, schedule), iterations)
    decreases Left(iterations, s)
  {
    hide Inv;
    if AllFinished(s, iterations) {
      schedule := [];
    } else {
      SomeoneCanMove(sync, iterations, s);
      var t: nat :| t < |s.threads| && CanMove(sync, iterations, s, t);
      RankDrops(sync, iterations, s, t);
      StepKeeps(sync, iterations, s, t);
      var rest := CanFinish(sync, iterations, Next(sync, iterations, s, t));
      schedule := [t] + rest;
      assert schedule[1..] == rest;
    }
  }

  /** Every step of the schedule moves its thread on. */
  predicate NoWaiting(sync: Sync, iterations: nat, s: State, schedule: seq<nat>)
    requires IsSchedule(schedule, s)
    decreases |schedule|
  {
    schedule == [] ||
    (CanMove(sync, iterations, s, schedule[0]) && NoWaiting(sync, iterations, Next(sync, iterations, s, schedule[0]), schedule[1..]))
  }

  /** A run in which nobody waits is over after a number of steps known at its start. */
  lemma {:induction false} RunsAreShort(sync: Sync, iterations: nat, s: State, schedule: seq<nat>)
    requires Inv(sync, iterations, s) && IsSchedule(schedule, s) && NoWaiting(sync, iterations, s, schedule)
    ensures Bounded(s.threads, iterations) && |schedule| <= Left(iterations, s)
    decreases |schedule|
  {
    assert Bounded(s.threads, iterations);
    if schedule != [] {
      RankDrops(sync, iterations, s, schedule[0]);
      StepKeeps(sync, iterations, s, schedule[0]);
      RunsAreShort(sync, iterations, Next(sync, iterations, s, schedule[0]), schedule[1..]);
    }
  }

  /** With compare-and-swap (and with no synchronisation) nobody ever waits: lock freedom. */
  lemma {:induction false} NobodyWaits(sync: Sync, iterations: nat, s: State, t: nat)
    requires Inv(sync, iterations, s) && !Locking(sync) && t < |s.threads|
    ensures CanMove(sync, iterations, s, t) <==> !Finished(s.threads[t], iterations)
  {
  }

  /** No step of the schedule is given to a thread that is already done. */
  predicate OnlyUnfinished(sync: Sync, iterations: nat, s: State, schedule: seq<nat>)
    requires IsSchedule(schedule, s)
    decreases |schedule|
  {
    schedule == [] ||
    (&& !Finished(s.threads[schedule[0]], iterations)
     && OnlyUnfinished(sync, iterations, Next(sync, iterations, s, schedule[0]), schedule[1..]))
  }

  /** Lock freedom: with compare-and-swap every schedule whatever gets all threads done in a number of steps known at its start. */
  lemma {:induction false} LockFree(sync: Sync, iterations: nat, s: State, schedule: seq<nat>)
    requires Inv(sync, iterations, s) && !Locking(sync) && IsSchedule(schedule, s) && OnlyUnfinished(sync, iterations, s, schedule)
    ensures Bounded(s.threads, iterations) && |schedule| <= Left(iterations, s)
    decreases |schedule|
  {
    assert Bounded(s.threads, iterations);
    if schedule != [] {
      NobodyWaits(sync, iterations, s, schedule[0]);
      RankDrops(sync, iterations, s, schedule[0]);
      StepKeeps(sync, iterations, s, schedule[0]);
      LockFree(sync, iterations, Next(sync, iterations, s, schedule[0]), schedule[1..]);
    }
  }

  lemma StepStores(sync: Sync, iterations: nat, s: State, t: nat)
    requires t < |s.threads|
    ensures var s' := Next(sync, iterations, s, t);
            && |s'.threads| == |s.threads| && s.threads[t].stored <= s'.threads[t].stored
            && (forall u :: 0 <= u < |s.threads| && u != t ==> s'.threads[u] == s.threads[u])
            && (s'.counter != s.counter ==> s'.threads[t].stored > s.threads[t].stored)
  {
  }

  /** Thread u has put more into the counter in `e` than in `s`. */
  predicate StoredMore(s: State, e: State, u: nat) {
    u < |s.threads| && u < |e.threads| && e.threads[u].stored > s.threads[u].stored
  }

  /** A compare-and-swap fails only if another thread has stored since this thread read the counter. */
  lemma {:induction false} FailedSwap(sync: Sync, iterations: nat, s: State, schedule: seq<nat>, t: nat)
    requires IsSchedule(schedule, s) && t < |s.threads| && t !in schedule && s.threads[t].pc == Computed(s.counter)
    ensures var e := After(sync, iterations, s, schedule);
            && |e.threads| == |s.threads| && e.threads[t] == s.threads[t]
            && (e.counter != s.threads[t].pc.oldVal ==> exists u: nat :: u != t && StoredMore(s, e, u))
  {
    StoresOnly(sync, iterations, s, schedule, t);
    var e := After(sync, iterations, s, schedule);
    if e.counter != s.counter {
      var u: nat :| u < |s.threads| && u != t && e.threads[u].stored > s.threads[u].stored;
      assert StoredMore(s, e, u);
    }
  }

  lemma {:induction false} StoresOnly(sync: Sync, iterations: nat, s: State, schedule: seq<nat>, t: nat)
    requires IsSchedule(schedule, s) && t < |s.threads| && t !in schedule
    ensures var e := After(sync, iterations, s, schedule);
            && |e.threads| == |s.threads| && e.threads[t] == s.threads[t]
            && (forall u :: 0 <= u < |s.threads| ==> s.threads[u].stored <= e.threads[u].stored)
            && (e.counter != s.counter ==> exists u: nat :: u < |s.threads| && u != t && e.threads[u].stored > s.threads[u].stored)
    decreases |schedule|
  {
    hide Next;
    if schedule != [] {
      assert schedule[0] in schedule;
      StepStores(sync, iterations, s, schedule[0]);
      StoresOnly(sync, iterations, Next(sync, iterations, s, schedule[0]), schedule[1..], t);
    }
  }

  // ----- no synchronisation

  /** All threads between two additions, and the counter `d` away from what they stored. */
  ghost predicate Quiet(iterations: nat, s: State, d: int) {
    && s.counter == Pluses(s.threads, iterations) - Minuses(s.threads, iterations) + d
    && forall t :: 0 <= t < |s.threads| ==> s.threads[t].pc.Ready? && s.threads[t].stored <= 2 * iterations
  }

  function Remaining(iterations: nat, ths: seq<Thread>): nat
    requires Bounded(ths, iterations)
  {
    if ths == [] then 0 else 2 * iterations - ths[0].stored + Remaining(iterations, ths[1..])
  }

  lemma {:induction false} RemainingDrops(iterations: nat, ths: seq<Thread>, t: nat, th: Thread)
    requires t < |ths| && ths[t].stored < th.stored <= 2 * iterations && Bounded(ths, iterations)
    ensures Remaining(iterations, ths[t := th]) < Remaining(iterations, ths)
  {
    if t > 0 {
      assert ths[t := th][1..] == ths[1..][t - 1 := th];
      RemainingDrops(iterations, ths[1..], t - 1, th);
    } else {
      assert ths[t := th][1..] == ths[1..];
    }
  }

  /** Threads that run one after the other never make up for an update that was lost. */
  lemma {:induction false} LossStays(iterations: nat, s: State, d: int) returns (schedule: seq<nat>)
    requires Quiet(iterations, s, d)
    ensures IsSchedule(schedule, s)
    ensures var e := After(NoSync, iterations, s, schedule); AllFinished(e, iterations) && e.counter == d
    decreases Remaining(iterations, s.threads)
  {
    if AllFinished(s, iterations) {
      StoredAll(s.threads, iterations);
      schedule := [];
    } else {
      var t: nat :| t < |s.threads| && !Finished(s.threads[t], iterations);
      var s' := AddAlone(iterations, s, d, t);
      var rest := LossStays(iterations, s', d);
      schedule := [t, t] + rest;
      assert schedule[1..][1..] == rest;
      assert schedule[1..][0] == t;
    }
  }

  lemma AddAlone(iterations: nat, s: State, d: int, t: nat) returns (s': State)
    requires Quiet(iterations, s, d) && t < |s.threads| && s.threads[t].stored < 2 * iterations
    ensures s' == Next(NoSync, iterations, Next(NoSync, iterations, s, t), t)
    ensures Quiet(iterations, s', d) && |s'.threads| == |s.threads|
    ensures Remaining(iterations, s'.threads) < Remaining(iterations, s.threads)
  {
    var th' := Thread(Ready, s.threads[t].stored + 1);
    s' := Next(NoSync, iterations, Next(NoSync, iterations, s, t), t);
    assert s'.threads == s.threads[t := th'];
    StoreOne(s.threads, t, th', iterations);
    RemainingDrops(iterations, s.threads, t, th');
  }

  /** Two threads that both read 0 before either stores lose one addition for good. */
  lemma LostUpdate(iterations: nat, nThreads: nat) returns (schedule: seq<nat>)
    requires nThreads >= 2 && iterations >= 1
    ensures IsSchedule(schedule, Start(nThreads))
    ensures var e := After(NoSync, iterations, Start(nThreads), schedule); AllFinished(e, iterations) && e.counter == -1
  {
    var s0 := Start(nThreads);
    var one := Thread(Ready, 1);
    var s1 := Next(NoSync, iterations, s0, 0);
    var s2 := Next(NoSync, iterations, s1, 1);
    var s3 := Next(NoSync, iterations, s2, 1);
    var s4 := Next(NoSync, iterations, s3, 0);
    assert s4.threads == s0.threads[0 := one][1 := one];
    StoredNothing(s0.threads, iterations);
    StoreOne(s0.threads, 0, one, iterations);
    StoreOne(s0.threads[0 := one], 1, one, iterations);
    var rest := LossStays(iterations, s4, -1);
    schedule := [0, 1, 1, 0] + rest;
    FourSteps(iterations, s0, schedule, rest);
  }

  lemma FourSteps(iterations: nat, s: State, schedule: seq<nat>, rest: seq<nat>)
    requires |s.threads| >= 2 && schedule == [0, 1, 1, 0] + rest && IsSchedule(rest, s)
    ensures IsSchedule(schedule, s)
    ensures var s3 := Next(NoSync, iterations, Next(NoSync, iterations, Next(NoSync, iterations, s, 0), 1), 1);
            After(NoSync, iterations, s, schedule) == After(NoSync, iterations, Next(NoSync, iterations, s3, 0), rest)
  {
    var s1 := Next(NoSync, iterations, s, 0);
    var s2 := Next(NoSync, iterations, s1, 1);
    var s3 := Next(NoSync, iterations, s2, 1);
    assert schedule == [0] + ([1] + ([1] + ([0] + rest)));
    First(iterations, s3, 0, rest);
    First(iterations, s2, 1, [0] + rest);
    First(iterations, s1, 1, [1] + ([0] + rest));
    First(iterations, s, 0, [1] + ([1] + ([0] + rest)));
  }

  lemma First(iterations: nat, s: State, t: nat, rest: seq<nat>)
    requires t < |s.threads| && IsSchedule(rest, s)
    ensures |Next(NoSync, iterations, s, t).threads| == |s.threads|
    ensures IsSchedule([t] + rest, s)
    ensures After(NoSync, iterations, s, [t] + rest) == After(NoSync, iterations, Next(NoSync, iterations, s, t), rest)
  {
    assert ([t] + rest)[1..] == rest;
  }

  /** A thread on its own: nothing it has read can go out of date. */
  ghost predicate Alone(iterations: nat, s: State) {
    && |s.threads| <= 1
    && s.counter == Pluses(s.threads, iterations) - Minuses(s.threads, iterations)
    && forall t :: 0 <= t < |s.threads| ==>
        && s.threads[t].stored <= 2 * iterations
        && (s.threads[t].pc.Computed? ==> s.threads[t].pc.oldVal == s.counter && s.threads[t].stored < 2 * iterations)
        && (s.threads[t].pc.Computed? || s.threads[t].pc.Ready?)
  }

  lemma {:induction false} AloneKept(iterations: nat, s: State, schedule: seq<nat>)
    requires Alone(iterations, s) && IsSchedule(schedule, s)
    ensures Alone(iterations, After(NoSync, iterations, s, schedule))
    decreases |schedule|
  {
    if schedule != [] {
      var t := schedule[0];
      var s' := Next(NoSync, iterations, s, t);
      if s'.threads[t].stored == s.threads[t].stored {
        StoreNone(s.threads, t, s'.threads[t], iterations);
      } else {
        StoreOne(s.threads, t, s'.threads[t], iterations);
      }
      AloneKept(iterations, s', schedule[1..]);
    }
  }

  /** Every complete run ends with the counter at 0. */
  ghost predicate AlwaysZero(sync: Sync, iterations: nat, nThreads: nat) {
    forall schedule :: IsSchedule(schedule, Start(nThreads)) ==>
      var e := After(sync, iterations, Start(nThreads), schedule);
      AllFinished(e, iterations) ==> e.counter == 0
  }

  /** Exactly when the final count can be relied on. */
  lemma AlwaysZeroExactly(sync: Sync, iterations: nat, nThreads: nat)
    ensures AlwaysZero(sync, iterations, nThreads) <==> (!sync.NoSync? || nThreads <= 1 || iterations == 0)
  {
    if !sync.NoSync? || nThreads <= 1 || iterations == 0 {
      forall schedule | IsSchedule(schedule, Start(nThreads))
        ensures var e := After(sync, iterations, Start(nThreads), schedule);
                AllFinished(e, iterations) ==> e.counter == 0
      {
        CounterTheorem(sync, iterations, nThreads, schedule);
        if sync.NoSync? && nThreads <= 1 {
          StoredNothing(Start(nThreads).threads, iterations);
          AloneKept(iterations, Start(nThreads), schedule);
          var e := After(sync, iterations, Start(nThreads), schedule);
          if AllFinished(e, iterations) {
            StoredAll(e.threads, iterations);
          }
        }
      }
    } else {
      var schedule := LostUpdate(iterations, nThreads);
    }
  }

  // ----- the program

  class AddLab {
    const sync: Sync
    const iterations: nat
    const nThreads: nat
    var counter: int
    var locked: bool
    var threads: seq<Thread>
    ghost var history: seq<nat>

    ghost predicate Valid()
      reads this
    {
      && IsSchedule(history, Start(nThreads))
      && State(counter, locked, threads) == After(sync, iterations, Start(nThreads), history)
      && |threads| == nThreads
    }

    /** A negative iteration count runs neither loop. */
    constructor (sync: Sync, nThreads: nat, n: int)
      ensures Valid() && this.sync == sync && this.nThreads == nThreads
      ensures iterations == if n < 0 then 0 else n
      ensures history == []
    {
      this.sync, this.nThreads, this.iterations := sync, nThreads, if n < 0 then 0 else n;
      counter, locked, threads := 0, false, seq(nThreads, _ => Thread(Ready, 0));
      history := [];
    }

    /** One step of add() in thread t. */
    method Step(t: nat)
      requires Valid() && t < nThreads
      modifies this
      ensures Valid() && history == old(history) + [t]
    {
      ghost var s := State(counter, locked, threads);
      var th := threads[t];
      match th.pc {
        case Ready =>
          if th.stored < 2 * iterations {
            match sync {
              case NoSync => th := Thread(Computed(counter), th.stored);
              case CompareAndSwap => th := Thread(Computed(counter), th.stored);
              case Mutex => if !locked { locked, th := true, Thread(Holding, th.stored); }
              case SpinLock =>
                // test-and-set writes 1 whatever it finds
                var was := locked;
                locked := true;
                th := Thread(if was then Spinning else Holding, th.stored);
            }
          }
        case Spinning =>
          if !locked { th := Thread(Ready, th.stored); }
        case Holding =>
          th := Thread(Computed(counter), th.stored);
        case Computed(oldVal) =>
          var sum := oldVal + Value(th.stored, iterations);
          match sync {
            case NoSync => counter, th := sum, Thread(Ready, th.stored + 1);
            case CompareAndSwap =>
              if counter == oldVal {
                counter, th := sum, Thread(Ready, th.stored + 1);
              } else {
                th := Thread(Ready, th.stored);
              }
            case Mutex => counter, th := sum, Thread(Unlocking, th.stored + 1);
            case SpinLock => counter, th := sum, Thread(Unlocking, th.stored + 1);
          }
        case Unlocking =>
          locked, th := false, Thread(Ready, th.stored);
      }
      threads := threads[t := th];
      assert State(counter, locked, threads) == Next(sync, iterations, s, t);
      AfterOneMore(sync, iterations, Start(nThreads), history, t);
      history := history + [t];
    }

    /** Whole runs: the counter stays in range at every step, and ends at 0 when it must. */
    method Run(schedule: seq<nat>)
      requires Valid() && forall i :: 0 <= i < |schedule| ==> schedule[i] < nThreads
      modifies this
      ensures Valid() && history == old(history) + schedule
      ensures -(nThreads * iterations) <= counter <= nThreads * iterations
      ensures !sync.NoSync? && (forall t :: 0 <= t < |threads| ==> Finished(threads[t], iterations)) ==> counter == 0
    {
      for n := 0 to |schedule|
        invariant Valid() && history == old(history) + schedule[..n]
      {
        Step(schedule[n]);
        assert schedule[..n + 1] == schedule[..n] + [schedule[n]];
      }
      assert schedule[..|schedule|] == schedule;
      CounterTheorem(sync, iterations, nThreads, history);
    }
  }

  lemma {:induction false} AfterOneMore(sync: Sync, iterations: nat, s: State, schedule: seq<nat>, t: nat)
    requires IsSchedule(schedule, s) && t < |s.threads|
    ensures |After(sync, iterations, s, schedule).threads| == |s.threads|
    ensures IsSchedule(schedule + [t], s)
    ensures After(sync, iterations, s, schedule + [t]) == Next(sync, iterations, After(sync, iterations, s, schedule), t)
    decreases |schedule|
  {
    var more := schedule + [t];
    if schedule == [] {
      assert more[1..] == [];
    } else {
      AfterOneMore(sync, iterations, Next(sync, iterations, s, schedule[0]), schedule[1..], t);
      assert more[0] == schedule[0] && more[1..] == schedule[1..] + [t];
    }
  }
}
