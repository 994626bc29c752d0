/** Steps that move chains between callers, threads and transfer-cache slots. */
module CentralCache {
  import opened Base
  import opened CentralFreeList
  import opened CentralInvariant
  import opened CentralLemmas
  import opened CentralControl

  /** The book after the objects `xs` have moved to `q`. */
  ghost function Relocate(b: Book, xs: Chain, q: Place): Book {
    Book(map a | a in b.loc :: if a in xs then q else b.loc[a], b.keeper)
  }

  /** Exactly the objects `xs` have changed place, and all of them are at `q` now. */
  ghost predicate MovedTo(s: State, s': State, keeper: Keepers, xs: Chain, q: Place) {
    forall a, p :: At(s', keeper, a, p) <==> if a in xs then p == q else At(s, keeper, a, p)
  }

  lemma RelocatePlaces(s: State, s': State, b: Book, xs: Chain, q: Place)
    requires PlacesOK(s, b) && MovedTo(s, s', b.keeper, xs, q)
    requires forall a :: a in xs ==> a in b.loc
    ensures PlacesOK(s', Relocate(b, xs, q))
  {
    var b' := Relocate(b, xs, q);
    forall a | a in b'.loc ensures At(s', b'.keeper, a, b'.loc[a]) {
      assert At(s', b.keeper, a, b'.loc[a]) <==> if a in xs then b'.loc[a] == q else At(s, b.keeper, a, b'.loc[a]);
    }
    forall a, p | At(s', b'.keeper, a, p) ensures a in b'.loc && b'.loc[a] == p {
      assert if a in xs then p == q else At(s, b.keeper, a, p);
    }
  }

  lemma RelocateObjects(cfg: Config, spans: Spans, pagemap: PageMap, b: Book, xs: Chain, q: Place)
    requires ValidConfig(cfg) && ObjectsOK(cfg, spans, pagemap, b)
    ensures ObjectsOK(cfg, spans, pagemap, Relocate(b, xs, q))
  {
    assert Relocate(b, xs, q).loc.Keys == b.loc.Keys;
  }

  /** `x` with another transfer cache. */
  ghost predicate SameLists(x: Central, y: Central) {
    y == x.(slots := y.slots, cacheSize := y.cacheSize)
  }

  lemma CacheChangeKeepsLists(cfg: Config, s: State, keeper: Keepers, c: nat, y: Central)
    requires ValidConfig(cfg) && c < |s.central| && SameLists(s.central[c], y)
    requires ListedOK(s.central, s.spans, keeper) && CentralsOK(cfg, s.spans, s.central) && CacheOK(cfg, c, y)
    ensures ListedOK(s.central[c := y], s.spans, keeper)
    ensures CentralsOK(cfg, s.spans, s.central[c := y])
  {
    hide MaxCacheSize;
    var central' := s.central[c := y];
    assert forall e, id :: 0 <= e < |s.central| ==> (OnLists(central'[e], id) <==> OnLists(s.central[e], id));
  }

  lemma CacheChangeKeepsSlots(cfg: Config, s: State, c: nat, y: Central)
    requires cfg.pageSize > 0 && c < |s.central| && SlotsOK(cfg, s.spans, s.pagemap, s.central)
    requires forall i :: 0 <= i < |y.slots| ==> ChainOK(cfg, s.spans, s.pagemap, y.slots[i], c)
    ensures SlotsOK(cfg, s.spans, s.pagemap, s.central[c := y])
  {
  }

  lemma CacheChangeKeepsRefcounts(s: State, t: nat, th: Thread, locks: map<Lock, nat>, c: nat, y: Central)
    requires c < |s.central| && t < |s.threads| && SameLists(s.central[c], y)
    requires RefcountsOK(s.central, s.spans, s.threads, s.locks) && OthersLocksKept(s.locks, t, locks)
    requires (forall e :: 0 <= e < |s.central| ==> !AboutToFetch(s.threads[t], e)) && NeverAboutToFetch(th)
    ensures RefcountsOK(s.central[c := y], s.spans, s.threads[t := th], locks)
  {
    var central', threads' := s.central[c := y], s.threads[t := th];
    forall e, id | 0 <= e < |central'| && OnLists(central'[e], id) && id in s.spans && s.spans[id].refcount <= 0
      ensures FreshFirst(central', threads', locks, e, id)
    {
      assert OnLists(s.central[e], id);
    }
  }

  /** Any step that changes one transfer cache, one program counter and the callers' objects. */
  lemma CacheStep(cfg: Config, s: State, b: Book, s': State, t: nat, th: Thread, c: nat, y: Central, xs: Chain, q: Place)
    requires ValidConfig(cfg) && Inv(cfg, s, b) && t < |s.threads| && c < |s.central|
    requires s' == State(s.central[c := y], s'.locks, s.spans, s.pagemap, s.threads[t := th], s'.out)
    requires LocksOK(s'.threads, s'.locks) && OthersLocksKept(s.locks, t, s'.locks)
    requires (forall e :: 0 <= e < |s.central| ==> !AboutToFetch(s.threads[t], e)) && NeverAboutToFetch(th)
    requires Held(th, t).None? && ThreadOK(cfg, s.spans, s.pagemap, th)
    requires SameLists(s.central[c], y) && CacheOK(cfg, c, y)
    requires forall i :: 0 <= i < |y.slots| ==> ChainOK(cfg, s.spans, s.pagemap, y.slots[i], c)
    requires y.cacheSize + Unspent(th) <= s.central[c].cacheSize + Unspent(s.threads[t])
    requires MovedTo(s, s', b.keeper, xs, q) && forall a :: a in xs ==> a in b.loc
    ensures Inv(cfg, s', Relocate(b, xs, q))
  {
    hide LocksOK, PlacesOK, ObjectsOK, SpansOK, PageMapOK, ListedOK, HeldOK, CentralsOK, ThreadsOK, SlotsOK, RefcountsOK, BudgetOK;
    RelocatePlaces(s, s', b, xs, q);
    RelocateObjects(cfg, s.spans, s.pagemap, b, xs, q);
    CacheChangeKeepsLists(cfg, s, b.keeper, c, y);
    CacheChangeKeepsSlots(cfg, s, c, y);
    CacheChangeKeepsRefcounts(s, t, th, s'.locks, c, y);
    ThreadsUpdate(cfg, s.spans, s.pagemap, s.threads, t, th);
    HeldUpdate(s.threads, b.keeper, t, th);
    BudgetUpdate(cfg, s.central, s.threads, c, y, t, th);
  }

  /** `xs` go from `p` to `q` and nothing else changes place. */
  ghost predicate Shifted(s: State, s': State, keeper: Keepers, xs: Chain, p: Place, q: Place) {
    && p != q
    && (forall a :: a in xs ==> At(s, keeper, a, p))
    && (forall a :: At(s', keeper, a, p) <==> At(s, keeper, a, p) && a !in xs)
    && (forall a :: At(s', keeper, a, q) <==> At(s, keeper, a, q) || a in xs)
    && (forall a, r :: r != p && r != q ==> (At(s', keeper, a, r) <==> At(s, keeper, a, r)))
  }

  lemma ShiftMoves(s: State, s': State, b: Book, xs: Chain, p: Place, q: Place)
    requires PlacesOK(s, b) && Shifted(s, s', b.keeper, xs, p, q)
    ensures MovedTo(s, s', b.keeper, xs, q)
    ensures forall a :: a in xs ==> a in b.loc
  {
    forall a, r ensures At(s', b.keeper, a, r) <==> if a in xs then r == q else At(s, b.keeper, a, r) {
      if r == p || r == q {
      } else {
        assert At(s', b.keeper, a, r) <==> At(s, b.keeper, a, r);
      }
    }
  }

  // ----- the steps

  lemma StartInsertStep(cfg: Config, s: State, b: Book, t: nat, cl: nat, chain: Chain)
    requires ValidConfig(cfg) && Inv(cfg, s, b)
    requires t < |s.threads| && s.threads[t] == Idle && InsertEnabled(cfg, s, cl, chain)
    ensures Inv(cfg, Goto(s.(out := s.out - (set a | a in chain)), t, Waiting(InsertBody(cl, chain))), Relocate(b, chain, InFlight(t)))
  {
    hide LocksOK, PlacesOK, ObjectsOK, SpansOK, PageMapOK, ListedOK, HeldOK, CentralsOK, ThreadsOK, SlotsOK, RefcountsOK, BudgetOK;
    Basics(cfg, s, b, t);
    var th := Waiting(InsertBody(cl, chain));
    var s' := Goto(s.(out := s.out - (set a | a in chain)), t, th);
    StayKeepsLocks(s.threads, s.locks, t, th);
    StartInsertShifts(s, b.keeper, t, cl, chain);
    ShiftMoves(s, s', b, chain, AtCaller, InFlight(t));
    CacheBasics(cfg, s, cl);
    assert s.central[cl := s.central[cl]] == s.central;
    CacheStep(cfg, s, b, s', t, th, cl, s.central[cl], chain, InFlight(t));
  }

  lemma StartInsertShifts(s: State, keeper: Keepers, t: nat, cl: nat, chain: Chain)
    requires t < |s.threads| && s.threads[t] == Idle && forall a :: a in chain ==> a in s.out
    ensures Shifted(s, Goto(s.(out := s.out - (set a | a in chain)), t, Waiting(InsertBody(cl, chain))), keeper, chain,
                    AtCaller, InFlight(t))
  {
  }

  /** InsertRange puts its chain into a free slot; `cacheSize` may have grown by a slot taken from elsewhere. */
  lemma PushSlotStep(cfg: Config, s: State, b: Book, t: nat, cl: nat, chain: Chain, cacheSize: int)
    requires ValidConfig(cfg) && Inv(cfg, s, b)
    requires t < |s.threads| && s.threads[t].Running? && LockOf(s.threads[t].todo) == ClassLock(cl)
    requires Flight(s.threads[t]) == chain && NeverAboutToFetch(s.threads[t])
    requires BatchOK(cfg, s.spans, s.pagemap, cl, chain)
    requires |s.central[cl].slots| < cacheSize <= s.central[cl].maxCacheSize
    requires cacheSize <= s.central[cl].cacheSize + Unspent(s.threads[t])
    ensures Inv(cfg, PushSlot(s, t, cl, chain, cacheSize), Relocate(b, chain, InSlot(cl, |s.central[cl].slots|)))
  {
    hide LocksOK, PlacesOK, ObjectsOK, SpansOK, PageMapOK, ListedOK, HeldOK, CentralsOK, ThreadsOK, SlotsOK, RefcountsOK, BudgetOK;
    Basics(cfg, s, b, t);
    var x := s.central[cl];
    var y := x.(slots := x.slots + [chain], cacheSize := cacheSize);
    var s' := PushSlot(s, t, cl, chain, cacheSize);
    var q := InSlot(cl, |x.slots|);
    UnlockKeepsLocks(s.threads, s.locks, t, Idle);
    PushSlotShifts(s, b.keeper, t, cl, chain, cacheSize);
    ShiftMoves(s, s', b, chain, InFlight(t), q);
    PushedCache(cfg, s, cl, chain, cacheSize, s.threads[t]);
    CacheStep(cfg, s, b, s', t, Idle, cl, y, chain, q);
  }

  lemma PushSlotShifts(s: State, keeper: Keepers, t: nat, cl: nat, chain: Chain, cacheSize: int)
    requires t < |s.threads| && cl < |s.central| && Flight(s.threads[t]) == chain
    ensures Shifted(s, PushSlot(s, t, cl, chain, cacheSize), keeper, chain, InFlight(t), InSlot(cl, |s.central[cl].slots|))
  {
  }

  lemma PushedCache(cfg: Config, s: State, cl: nat, chain: Chain, cacheSize: int, th: Thread)
    requires ValidConfig(cfg) && IsClass(cfg, cl) && CentralsOK(cfg, s.spans, s.central) && SlotsOK(cfg, s.spans, s.pagemap, s.central)
    requires ThreadOK(cfg, s.spans, s.pagemap, th) && Flight(th) == chain && BatchOK(cfg, s.spans, s.pagemap, cl, chain)
    requires |s.central[cl].slots| < cacheSize <= s.central[cl].maxCacheSize
    ensures var x := s.central[cl]; var y := x.(slots := x.slots + [chain], cacheSize := cacheSize);
            && CacheOK(cfg, cl, y)
            && forall i :: 0 <= i < |y.slots| ==> ChainOK(cfg, s.spans, s.pagemap, y.slots[i], cl)
  {
    assert CacheOK(cfg, cl, s.central[cl]);
  }

  /** ShrinkCache on a victim with a free slot. */
  lemma ShrinkStep(cfg: Config, s: State, b: Book, t: nat, cl: nat, chain: Chain, v: nat, force: bool)
    requires ValidConfig(cfg) && Inv(cfg, s, b)
    requires t < |s.threads| && s.threads[t] == Running(ShrinkBody(cl, chain, v, force)) && v < |s.central|
    requires |s.central[v].slots| < s.central[v].cacheSize
    ensures Inv(cfg, NextShrink(s, t, cl, chain, v, force), Relocate(b, [], AtCaller))
  {
    hide LocksOK, PlacesOK, ObjectsOK, SpansOK, PageMapOK, ListedOK, HeldOK, CentralsOK, ThreadsOK, SlotsOK, RefcountsOK, BudgetOK;
    Basics(cfg, s, b, t);
    var x := s.central[v];
    var th := Waiting(AfterShrink(cl, chain, force, true));
    var s' := NextShrink(s, t, cl, chain, v, force);
    UnlockKeepsLocks(s.threads, s.locks, t, th);
    ShrunkCache(cfg, s, v, x.slots, th, s.threads[t]);
    assert MovedTo(s, s', b.keeper, [], AtCaller) by {
      ShrinkMovesNothing(s, b.keeper, t, cl, chain, v, force);
    }
    CacheStep(cfg, s, b, s', t, th, v, x.(cacheSize := x.cacheSize - 1), [], AtCaller);
  }

  lemma ShrinkMovesNothing(s: State, keeper: Keepers, t: nat, cl: nat, chain: Chain, v: nat, force: bool)
    requires t < |s.threads| && s.threads[t] == Running(ShrinkBody(cl, chain, v, force)) && v < |s.central|
    requires |s.central[v].slots| < s.central[v].cacheSize
    ensures MovedTo(s, NextShrink(s, t, cl, chain, v, force), keeper, [], AtCaller)
  {
  }

  /** A victim's cache after losing a slot, with at most the first `slots` of its chains. */
  lemma ShrunkCache(cfg: Config, s: State, v: nat, slots: seq<Chain>, th: Thread, was: Thread)
    requires ValidConfig(cfg) && v < |s.central| && CentralsOK(cfg, s.spans, s.central) && SlotsOK(cfg, s.spans, s.pagemap, s.central)
    requires slots <= s.central[v].slots && |slots| < s.central[v].cacheSize
    requires ThreadOK(cfg, s.spans, s.pagemap, was)
    requires was.Running? && was.todo.ShrinkBody?
    requires th.Waiting? && th.todo == AfterShrink(was.todo.cl, was.todo.chain, was.todo.force, true)
    ensures var y := s.central[v].(cacheSize := s.central[v].cacheSize - 1, slots := slots);
            && CacheOK(cfg, v, y)
            && forall i :: 0 <= i < |y.slots| ==> ChainOK(cfg, s.spans, s.pagemap, y.slots[i], v)
    ensures ThreadOK(cfg, s.spans, s.pagemap, th)
  {
    assert CacheOK(cfg, v, s.central[v]);
  }

  /** ShrinkCache with force on a full victim: the top slot's chain is taken out. */
  lemma ForcedShrinkStep(cfg: Config, s: State, b: Book, t: nat, cl: nat, chain: Chain, v: nat)
    requires ValidConfig(cfg) && Inv(cfg, s, b)
    requires t < |s.threads| && s.threads[t] == Running(ShrinkBody(cl, chain, v, true)) && v < |s.central|
    requires 0 < |s.central[v].slots| == s.central[v].cacheSize
    ensures Inv(cfg, NextShrink(s, t, cl, chain, v, true),
                Relocate(b, s.central[v].slots[|s.central[v].slots| - 1], InFlight(t)))
  {
    hide LocksOK, PlacesOK, ObjectsOK, SpansOK, PageMapOK, ListedOK, HeldOK, CentralsOK, ThreadsOK, SlotsOK, RefcountsOK, BudgetOK;
    Basics(cfg, s, b, t);
    var x := s.central[v];
    var top := |x.slots| - 1;
    var popped := x.slots[top];
    var th := Running(ReleaseList(v, popped, Resume(cl, chain)));
    var s' := NextShrink(s, t, cl, chain, v, true);
    StayKeepsLocks(s.threads, s.locks, t, th);
    ShrunkCache(cfg, s, v, x.slots[..top], Waiting(AfterShrink(cl, chain, true, true)), s.threads[t]);
    PoppedThread(cfg, s, b, t, cl, chain, v);
    ForcedShrinkShifts(s, b.keeper, t, cl, chain, v);
    ShiftMoves(s, s', b, popped, InSlot(v, top), InFlight(t));
    CacheStep(cfg, s, b, s', t, th, v, x.(cacheSize := x.cacheSize - 1, slots := x.slots[..top]), popped, InFlight(t));
  }

  lemma ForcedShrinkShifts(s: State, keeper: Keepers, t: nat, cl: nat, chain: Chain, v: nat)
    requires t < |s.threads| && s.threads[t] == Running(ShrinkBody(cl, chain, v, true)) && v < |s.central|
    requires 0 < |s.central[v].slots| == s.central[v].cacheSize
    ensures var top := |s.central[v].slots| - 1;
            Shifted(s, NextShrink(s, t, cl, chain, v, true), keeper, s.central[v].slots[top], InSlot(v, top), InFlight(t))
  {
  }

  lemma PoppedThread(cfg: Config, s: State, b: Book, t: nat, cl: nat, chain: Chain, v: nat)
    requires ValidConfig(cfg) && PlacesOK(s, b) && CentralsOK(cfg, s.spans, s.central) && SlotsOK(cfg, s.spans, s.pagemap, s.central)
    requires t < |s.threads| && s.threads[t] == Running(ShrinkBody(cl, chain, v, true)) && v < |s.central|
    requires ThreadOK(cfg, s.spans, s.pagemap, s.threads[t]) && |s.central[v].slots| > 0
    ensures ThreadOK(cfg, s.spans, s.pagemap, Running(ReleaseList(v, s.central[v].slots[|s.central[v].slots| - 1], Resume(cl, chain))))
  {
    var top := |s.central[v].slots| - 1;
    var popped := s.central[v].slots[top];
    assert CacheOK(cfg, v, s.central[v]);
    forall a | a in chain ensures a !in popped {
      assert At(s, b.keeper, a, InFlight(t));
      if a in popped {
        assert At(s, b.keeper, a, InSlot(v, top));
        assert false;
      }
    }
    NoDupConcat(popped, chain);
    assert Flight(Running(ReleaseList(v, popped, Resume(cl, chain)))) == popped + chain;
  }

  /** RemoveRange served from the transfer cache. */
  lemma PopSlotStep(cfg: Config, s: State, b: Book, t: nat, cl: nat, n: nat)
    requires ValidConfig(cfg) && Inv(cfg, s, b)
    requires t < |s.threads| && s.threads[t] == Running(RemoveBody(cl, n))
    requires IsClass(cfg, cl) && n == cfg.classes[cl].batch && |s.central[cl].slots| > 0
    ensures Inv(cfg, NextRemove(cfg, s, t, cl, n), Relocate(b, s.central[cl].slots[|s.central[cl].slots| - 1], AtCaller))
  {
    hide LocksOK, PlacesOK, ObjectsOK, SpansOK, PageMapOK, ListedOK, HeldOK, CentralsOK, ThreadsOK, SlotsOK, RefcountsOK, BudgetOK;
    Basics(cfg, s, b, t);
    var x := s.central[cl];
    var top := |x.slots| - 1;
    var popped := x.slots[top];
    var s' := NextRemove(cfg, s, t, cl, n);
    UnlockKeepsLocks(s.threads, s.locks, t, Idle);
    PoppedCache(cfg, s, cl);
    PopSlotShifts(cfg, s, b.keeper, t, cl, n);
    ShiftMoves(s, s', b, popped, InSlot(cl, top), AtCaller);
    CacheStep(cfg, s, b, s', t, Idle, cl, x.(slots := x.slots[..top]), popped, AtCaller);
  }

  lemma PopSlotShifts(cfg: Config, s: State, keeper: Keepers, t: nat, cl: nat, n: nat)
    requires t < |s.threads| && s.threads[t] == Running(RemoveBody(cl, n)) && |s.central| == |cfg.classes|
    requires IsClass(cfg, cl) && n == cfg.classes[cl].batch && |s.central[cl].slots| > 0
    ensures var top := |s.central[cl].slots| - 1;
            Shifted(s, NextRemove(cfg, s, t, cl, n), keeper, s.central[cl].slots[top], InSlot(cl, top), AtCaller)
  {
  }

  lemma PoppedCache(cfg: Config, s: State, cl: nat)
    requires ValidConfig(cfg) && cl < |s.central| && CentralsOK(cfg, s.spans, s.central) && SlotsOK(cfg, s.spans, s.pagemap, s.central)
    requires |s.central[cl].slots| > 0
    ensures var x := s.central[cl]; var y := x.(slots := x.slots[..|x.slots| - 1]);
            && CacheOK(cfg, cl, y)
            && forall i :: 0 <= i < |y.slots| ==> ChainOK(cfg, s.spans, s.pagemap, y.slots[i], cl)
  {
    assert CacheOK(cfg, cl, s.central[cl]);
  }

  /** RemoveRange returns what it has fetched. */
  lemma ReturnStep(cfg: Config, s: State, b: Book, t: nat, cl: nat, n: nat, acc: Chain, failed: bool)
    requires ValidConfig(cfg) && Inv(cfg, s, b)
    requires t < |s.threads| && s.threads[t] == Running(Fetch(cl, n, acc, failed)) && cl < |s.central|
    requires |acc| == n || s.central[cl].nonempty == []
    ensures Inv(cfg, UnlockGoto(s.(out := s.out + (set a | a in acc)), t, ClassLock(cl), Idle), Relocate(b, acc, AtCaller))
  {
    hide LocksOK, PlacesOK, ObjectsOK, SpansOK, PageMapOK, ListedOK, HeldOK, CentralsOK, ThreadsOK, SlotsOK, RefcountsOK, BudgetOK;
    Basics(cfg, s, b, t);
    var s' := UnlockGoto(s.(out := s.out + (set a | a in acc)), t, ClassLock(cl), Idle);
    UnlockKeepsLocks(s.threads, s.locks, t, Idle);
    ReturnShifts(s, b.keeper, t, cl, n, acc, failed);
    ShiftMoves(s, s', b, acc, InFlight(t), AtCaller);
    CacheBasics(cfg, s, cl);
    assert s.central[cl := s.central[cl]] == s.central;
    CacheStep(cfg, s, b, s', t, Idle, cl, s.central[cl], acc, AtCaller);
  }

  lemma ReturnShifts(s: State, keeper: Keepers, t: nat, cl: nat, n: nat, acc: Chain, failed: bool)
    requires t < |s.threads| && s.threads[t] == Running(Fetch(cl, n, acc, failed))
    ensures Shifted(s, UnlockGoto(s.(out := s.out + (set a | a in acc)), t, ClassLock(cl), Idle), keeper, acc, InFlight(t), AtCaller)
  {
  }
}
