/** Steps that only move a program counter or a lock keep the invariant, with the same book. */
module CentralControl {
  import opened CentralFreeList
  import opened CentralInvariant
  import opened CentralLemmas

  /** Thread `t`'s lock, and no other, is given back, and `t` no longer runs. */
  lemma UnlockKeepsLocks(threads: seq<Thread>, locks: map<Lock, nat>, t: nat, th: Thread)
    requires LocksOK(threads, locks) && t < |threads| && threads[t].Running? && !th.Running?
    ensures LocksOK(threads[t := th], locks - {LockOf(threads[t].todo)})
  {
  }

  lemma StayKeepsLocks(threads: seq<Thread>, locks: map<Lock, nat>, t: nat, th: Thread)
    requires LocksOK(threads, locks) && t < |threads|
    requires threads[t].Running? <==> th.Running?
    requires th.Running? ==> LockOf(th.todo) == LockOf(threads[t].todo)
    ensures LocksOK(threads[t := th], locks)
  {
  }

  lemma AcquireKeepsLocks(threads: seq<Thread>, locks: map<Lock, nat>, t: nat, d: Todo)
    requires LocksOK(threads, locks) && t < |threads| && threads[t] == Waiting(d) && LockOf(d) !in locks
    ensures LocksOK(threads[t := Running(d)], locks[LockOf(d) := t])
  {
  }

  /** The other threads' locks are untouched. */
  ghost predicate OthersLocksKept(locks: map<Lock, nat>, t: nat, locks': map<Lock, nat>) {
    forall l :: l in locks && locks[l] != t ==> l in locks' && locks'[l] == locks[l]
  }

  ghost predicate NeverAboutToFetch(th: Thread) {
    !(th.Running? && th.todo.Fetch?)
  }

  lemma MoveKeepsRefcounts(s: State, t: nat, th: Thread, locks: map<Lock, nat>)
    requires RefcountsOK(s.central, s.spans, s.threads, s.locks) && t < |s.threads| && OthersLocksKept(s.locks, t, locks)
    requires NeverAboutToFetch(s.threads[t])
    requires forall c :: 0 <= c < |s.central| && AboutToFetch(th, c) ==> s.central[c].nonempty != []
    ensures RefcountsOK(s.central, s.spans, s.threads[t := th], locks)
  {
  }

  lemma MoveKeepsPlaces(s: State, s': State, b: Book, t: nat)
    requires PlacesOK(s, b) && t < |s.threads|
    requires s' == s.(threads := s'.threads, locks := s'.locks) && |s'.threads| == |s.threads|
    requires forall u :: 0 <= u < |s.threads| ==> Flight(s'.threads[u]) == Flight(s.threads[u])
    ensures PlacesOK(s', b)
  {
    forall a, p ensures At(s', b.keeper, a, p) <==> At(s, b.keeper, a, p) {
    }
  }

  /** The general frame: same data, same objects in flight, same span in hand. */
  lemma MoveKeepsInv(cfg: Config, s: State, b: Book, t: nat, th: Thread, locks: map<Lock, nat>)
    requires ValidConfig(cfg) && Inv(cfg, s, b) && t < |s.threads|
    requires LocksOK(s.threads[t := th], locks) && RefcountsOK(s.central, s.spans, s.threads[t := th], locks)
    requires Flight(th) == Flight(s.threads[t]) && Held(th, t) == Held(s.threads[t], t)
    requires ThreadOK(cfg, s.spans, s.pagemap, th) && Unspent(th) <= Unspent(s.threads[t])
    ensures Inv(cfg, s.(threads := s.threads[t := th], locks := locks), b)
  {
    MoveKeepsPlaces(s, s.(threads := s.threads[t := th], locks := locks), b, t);
    ThreadsUpdate(cfg, s.spans, s.pagemap, s.threads, t, th);
    HeldUpdate(s.threads, b.keeper, t, th);
    UnspentTotalUpdate(s.threads, t, th);
  }

  /** Steps that neither take nor give a lock. */
  lemma StayStep(cfg: Config, s: State, b: Book, t: nat, th: Thread)
    requires ValidConfig(cfg) && Inv(cfg, s, b) && t < |s.threads|
    requires s.threads[t].Running? <==> th.Running?
    requires th.Running? ==> LockOf(th.todo) == LockOf(s.threads[t].todo)
    requires NeverAboutToFetch(s.threads[t])
    requires forall c :: 0 <= c < |s.central| && AboutToFetch(th, c) ==> s.central[c].nonempty != []
    requires Flight(th) == Flight(s.threads[t]) && Held(th, t) == Held(s.threads[t], t)
    requires ThreadOK(cfg, s.spans, s.pagemap, th) && Unspent(th) <= Unspent(s.threads[t])
    ensures Inv(cfg, Goto(s, t, th), b)
  {
    StayKeepsLocks(s.threads, s.locks, t, th);
    MoveKeepsRefcounts(s, t, th, s.locks);
    MoveKeepsInv(cfg, s, b, t, th, s.locks);
  }

  /** Steps that end by giving the lock back. */
  lemma UnlockStep(cfg: Config, s: State, b: Book, t: nat, th: Thread)
    requires ValidConfig(cfg) && Inv(cfg, s, b) && t < |s.threads|
    requires s.threads[t].Running? && !th.Running?
    requires NeverAboutToFetch(s.threads[t])
    requires Flight(th) == Flight(s.threads[t]) && Held(th, t) == Held(s.threads[t], t)
    requires ThreadOK(cfg, s.spans, s.pagemap, th) && Unspent(th) <= Unspent(s.threads[t])
    ensures Inv(cfg, UnlockGoto(s, t, LockOf(s.threads[t].todo), th), b)
  {
    hide PlacesOK, ObjectsOK, SpansOK, PageMapOK, ListedOK, HeldOK, CentralsOK, ThreadsOK, SlotsOK, RefcountsOK, BudgetOK, ThreadOK;
    var locks := s.locks - {LockOf(s.threads[t].todo)};
    UnlockKeepsLocks(s.threads, s.locks, t, th);
    MoveKeepsRefcounts(s, t, th, locks);
    MoveKeepsInv(cfg, s, b, t, th, locks);
  }

  lemma AcquireStep(cfg: Config, s: State, b: Book, t: nat)
    requires ValidConfig(cfg) && Inv(cfg, s, b) && t < |s.threads|
    requires s.threads[t].Waiting? && LockOf(s.threads[t].todo) !in s.locks
    ensures Inv(cfg, Next(cfg, s, t, NoChoice), b)
  {
    var d := s.threads[t].todo;
    var locks := s.locks[LockOf(d) := t];
    assert TodoOK(cfg, s.spans, s.pagemap, d) && !d.Fetch?;
    AcquireKeepsLocks(s.threads, s.locks, t, d);
    MoveKeepsRefcounts(s, t, Running(d), locks);
    MoveKeepsInv(cfg, s, b, t, Running(d), locks);
  }
}
