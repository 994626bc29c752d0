/** What holds in every reachable state of the central free list machine. */
module CentralTheorems {
  import opened Base
  import opened CentralFreeList
  import opened CentralInvariant
  import opened CentralLemmas
  import opened CentralControl
  import opened CentralCache
  import opened CentralObjects
  import opened CentralRelease
  import opened CentralSpans

  lemma InitCentralOK(cfg: Config, s: State)
    requires Init(cfg, s)
    ensures CentralsOK(cfg, s.spans, s.central) && SlotsOK(cfg, s.spans, s.pagemap, s.central)
    ensures ListedOK(s.central, s.spans, map[]) && RefcountsOK(s.central, s.spans, s.threads, s.locks)
  {
    hide MaxCacheSize;
  }

  lemma InitBudget(cfg: Config, s: State)
    requires Init(cfg, s)
    ensures BudgetOK(cfg, s.central, s.threads)
  {
    hide MaxCacheSize;
    assert s.central == seq(|cfg.classes|, c requires 0 <= c < |cfg.classes| => InitCentral(cfg, c));
    UnspentTotalIdle(s.threads);
  }

  lemma InitPlaces(cfg: Config, s: State)
    requires Init(cfg, s)
    ensures PlacesOK(s, Book(map[], map[]))
  {
    hide MaxCacheSize;
  }

  lemma InitGood(cfg: Config, s: State)
    requires Init(cfg, s)
    ensures Inv(cfg, s, Book(map[], map[]))
  {
    hide CentralsOK, SlotsOK, ListedOK, RefcountsOK, BudgetOK, PlacesOK, InitCentral;
    InitPlaces(cfg, s);
    InitCentralOK(cfg, s);
    InitBudget(cfg, s);
  }

  /** Every step of every thread, whatever the environment chooses, keeps the invariant. */
  lemma StepGood(cfg: Config, s: State, b: Book, t: nat, ch: Choice) returns (b': Book)
    requires ValidConfig(cfg) && Inv(cfg, s, b) && Enabled(cfg, s, t, ch)
    ensures Inv(cfg, Next(cfg, s, t, ch), b')
  {
    hide LocksOK, PlacesOK, ObjectsOK, SpansOK, PageMapOK, ListedOK, HeldOK, CentralsOK, ThreadsOK, SlotsOK, RefcountsOK, BudgetOK;
    hide Inv, NextInsert, NextTryEvict, NextShrink, NextAfterShrink, NextRelease, NextRemove, NextFetch;
    b' := b;
    match s.threads[t] {
      case Idle =>
        match ch {
          case Insert(cl, chain) =>
            StartInsertStep(cfg, s, b, t, cl, chain);
            b' := Relocate(b, chain, InFlight(t));
          case Remove(cl, n) =>
            StayStep(cfg, s, b, t, Waiting(RemoveBody(cl, n)));
        }
      case Waiting(d) =>
        AcquireStep(cfg, s, b, t);
      case Carving(cl, n, id) =>
        CarveStep(cfg, s, b, t, cl, n, id);
        b' := Carve(cfg, b, t, id, cl);
      case Running(d) =>
        b' := RunningGood(cfg, s, b, t, ch);
    }
  }

  lemma RunningGood(cfg: Config, s: State, b: Book, t: nat, ch: Choice) returns (b': Book)
    requires ValidConfig(cfg) && Inv(cfg, s, b) && Enabled(cfg, s, t, ch) && s.threads[t].Running?
    ensures Inv(cfg, Next(cfg, s, t, ch), b')
  {
    hide Inv, NextInsert, NextTryEvict, NextShrink, NextAfterShrink, NextRelease, NextRemove, NextFetch;
    b' := b;
    Basics(cfg, s, b, t);
    match s.threads[t].todo {
      case InsertBody(cl, chain) => b' := InsertGood(cfg, s, b, t, cl, chain);
      case TryEvict(cl, chain, force) => TryEvictGood(cfg, s, b, t, cl, chain, force, ch.v, ch.quickCheckPasses);
      case ShrinkBody(cl, chain, v, force) => b' := ShrinkGood(cfg, s, b, t, cl, chain, v, force);
      case AfterShrink(cl, chain, force, ok) => b' := AfterShrinkGood(cfg, s, b, t, cl, chain, force, ok);
      case ReleaseList(c, rest, k) => b' := ReleaseGood(cfg, s, b, t, c, rest, k);
      case DeleteSpan(c, id, rest, k) =>
        DeleteStep(cfg, s, b, t, c, id, rest, k);
        b' := Forget(b, id);
      case RemoveBody(cl, n) => b' := RemoveGood(cfg, s, b, t, cl, n);
      case AllocSpan(cl, n) =>
        if ch.start.Some? {
          NewStep(cfg, s, b, t, cl, n, ch.start.value);
          b' := Allot(b, t, ch.start.value);
        } else {
          UnlockStep(cfg, s, b, t, Waiting(AddSpan(cl, n, None)));
        }
      case AddSpan(cl, n, sp) =>
        if sp.Some? {
          AddStep(cfg, s, b, t, cl, n, sp.value);
          b' := Enlist(b, sp.value);
        } else {
          StayStep(cfg, s, b, t, Running(Fetch(cl, n, [], true)));
        }
      case Fetch(cl, n, acc, failed) =>
        if |acc| == n || s.central[cl].nonempty == [] {
          ReturnStep(cfg, s, b, t, cl, n, acc, failed);
          b' := Relocate(b, acc, AtCaller);
        } else {
          FetchStep(cfg, s, b, t, cl, n, acc, failed);
          var sp := s.spans[s.central[cl].nonempty[0]];
          b' := Relocate(b, sp.objects[..Take(n, acc, sp)], InFlight(t));
        }
    }
  }

  lemma ToReleaseList(cfg: Config, s: State, b: Book, t: nat, cl: nat, chain: Chain)
    requires ValidConfig(cfg) && Inv(cfg, s, b) && t < |s.threads| && s.threads[t].Running?
    requires var d := s.threads[t].todo;
             d == InsertBody(cl, chain) || ((d.TryEvict? || d.AfterShrink?) && d.cl == cl && d.chain == chain)
    ensures Inv(cfg, Goto(s, t, Running(ReleaseList(cl, chain, Return))), b)
  {
    hide Inv;
    Basics(cfg, s, b, t);
    assert chain + ContChain(Return) == chain;
    StayStep(cfg, s, b, t, Running(ReleaseList(cl, chain, Return)));
  }

  lemma EvictFailedGood(cfg: Config, s: State, b: Book, t: nat, cl: nat, chain: Chain, force: bool)
    requires ValidConfig(cfg) && Inv(cfg, s, b) && t < |s.threads| && s.threads[t].Running?
    requires var d := s.threads[t].todo; (d.TryEvict? || d.AfterShrink?) && d.cl == cl && d.chain == chain && d.force == force
    ensures Inv(cfg, EvictFailed(s, t, cl, chain, force), b)
  {
    hide Inv;
    if force {
      ToReleaseList(cfg, s, b, t, cl, chain);
    } else {
      Basics(cfg, s, b, t);
      StayStep(cfg, s, b, t, Running(TryEvict(cl, chain, true)));
    }
  }

  lemma InsertGood(cfg: Config, s: State, b: Book, t: nat, cl: nat, chain: Chain) returns (b': Book)
    requires ValidConfig(cfg) && Inv(cfg, s, b) && t < |s.threads| && s.threads[t] == Running(InsertBody(cl, chain))
    requires IsClass(cfg, cl) && |s.central| == |cfg.classes|
    ensures Inv(cfg, NextInsert(cfg, s, t, cl, chain), b')
  {
    hide Inv;
    b' := b;
    Basics(cfg, s, b, t);
    var x := s.central[cl];
    CacheBound(cfg, s, b, cl);
    if |chain| == cfg.classes[cl].batch && |x.slots| < x.cacheSize {
      PushSlotStep(cfg, s, b, t, cl, chain, x.cacheSize);
      b' := Relocate(b, chain, InSlot(cl, |x.slots|));
    } else if |chain| == cfg.classes[cl].batch && x.cacheSize != x.maxCacheSize {
      StayStep(cfg, s, b, t, Running(TryEvict(cl, chain, false)));
    } else {
      ToReleaseList(cfg, s, b, t, cl, chain);
    }
  }

  lemma CacheBound(cfg: Config, s: State, b: Book, c: nat)
    requires ValidConfig(cfg) && Inv(cfg, s, b) && c < |s.central|
    ensures |s.central| == |cfg.classes|
    ensures |s.central[c].slots| <= s.central[c].cacheSize <= s.central[c].maxCacheSize == MaxCacheSize(cfg, c)
  {
    hide MaxCacheSize;
    assert CacheOK(cfg, c, s.central[c]);
  }

  lemma TryEvictGood(cfg: Config, s: State, b: Book, t: nat, cl: nat, chain: Chain, force: bool, v: nat, pass: bool)
    requires ValidConfig(cfg) && Inv(cfg, s, b) && t < |s.threads|
    requires s.threads[t] == Running(TryEvict(cl, chain, force)) && v < |cfg.classes|
    ensures Inv(cfg, NextTryEvict(s, t, cl, chain, force, v, pass), b)
  {
    hide Inv;
    Basics(cfg, s, b, t);
    if v == cl || !pass {
      EvictFailedGood(cfg, s, b, t, cl, chain, force);
    } else {
      UnlockStep(cfg, s, b, t, Waiting(ShrinkBody(cl, chain, v, force)));
    }
  }

  lemma ShrinkGood(cfg: Config, s: State, b: Book, t: nat, cl: nat, chain: Chain, v: nat, force: bool) returns (b': Book)
    requires ValidConfig(cfg) && Inv(cfg, s, b) && t < |s.threads| && s.threads[t] == Running(ShrinkBody(cl, chain, v, force))
    requires v < |s.central| && |s.central[v].slots| <= s.central[v].cacheSize
    ensures Inv(cfg, NextShrink(s, t, cl, chain, v, force), b')
  {
    hide Inv;
    b' := b;
    Basics(cfg, s, b, t);
    var x := s.central[v];
    if x.cacheSize == 0 || (|x.slots| == x.cacheSize && !force) {
      UnlockStep(cfg, s, b, t, Waiting(AfterShrink(cl, chain, force, false)));
    } else if |x.slots| == x.cacheSize {
      ForcedShrinkStep(cfg, s, b, t, cl, chain, v);
      b' := Relocate(b, x.slots[|x.slots| - 1], InFlight(t));
    } else {
      ShrinkStep(cfg, s, b, t, cl, chain, v, force);
      b' := Relocate(b, [], AtCaller);
    }
  }

  lemma AfterShrinkGood(cfg: Config, s: State, b: Book, t: nat, cl: nat, chain: Chain, force: bool, ok: bool) returns (b': Book)
    requires ValidConfig(cfg) && Inv(cfg, s, b) && t < |s.threads| && s.threads[t] == Running(AfterShrink(cl, chain, force, ok))
    requires IsClass(cfg, cl) && |s.central| == |cfg.classes|
    ensures Inv(cfg, NextAfterShrink(cfg, s, t, cl, chain, force, ok), b')
  {
    hide Inv;
    b' := b;
    Basics(cfg, s, b, t);
    CacheBound(cfg, s, b, cl);
    var x := s.central[cl];
    if !ok {
      EvictFailedGood(cfg, s, b, t, cl, chain, force);
    } else if x.cacheSize < x.maxCacheSize {
      PushSlotStep(cfg, s, b, t, cl, chain, x.cacheSize + 1);
      b' := Relocate(b, chain, InSlot(cl, |x.slots|));
    } else {
      ToReleaseList(cfg, s, b, t, cl, chain);
    }
  }

  lemma ReleaseGood(cfg: Config, s: State, b: Book, t: nat, c: nat, rest: Chain, k: Cont) returns (b': Book)
    requires ValidConfig(cfg) && Inv(cfg, s, b) && t < |s.threads| && s.threads[t] == Running(ReleaseList(c, rest, k))
    requires Enabled(cfg, s, t, NoChoice)
    ensures Inv(cfg, Next(cfg, s, t, NoChoice), b')
  {
    hide Inv, NextRelease, Carved, ObjectsPerSpan, Register;
    b' := b;
    if rest == [] {
      ReleaseDone(cfg, s, b, t, c, k);
    } else {
      var id := s.pagemap[PageOf(cfg, rest[0])];
      if s.spans[id].refcount == 1 {
        RetireStep(cfg, s, b, t, c, rest, k);
        b' := Retire(cfg, b, t, id, c);
      } else {
        ReleaseStep(cfg, s, b, t, c, rest, k);
        b' := Relocate(b, [rest[0]], OnSpan(id));
      }
    }
  }

  /** ReleaseListToSpans returns, to InsertRange or to ShrinkCache. */
  lemma ReleaseDone(cfg: Config, s: State, b: Book, t: nat, c: nat, k: Cont)
    requires ValidConfig(cfg) && Inv(cfg, s, b) && t < |s.threads| && s.threads[t] == Running(ReleaseList(c, [], k))
    ensures var th := match k case Return => Idle case Resume(cl, chain) => Waiting(AfterShrink(cl, chain, true, true));
            Inv(cfg, UnlockGoto(s, t, ClassLock(c), th), b)
  {
    hide Inv;
    Basics(cfg, s, b, t);
    assert [] + ContChain(k) == ContChain(k);
    match k
    case Return => UnlockStep(cfg, s, b, t, Idle);
    case Resume(cl, chain) => UnlockStep(cfg, s, b, t, Waiting(AfterShrink(cl, chain, true, true)));
  }

  lemma RemoveGood(cfg: Config, s: State, b: Book, t: nat, cl: nat, n: nat) returns (b': Book)
    requires ValidConfig(cfg) && Inv(cfg, s, b) && t < |s.threads| && s.threads[t] == Running(RemoveBody(cl, n))
    requires IsClass(cfg, cl) && |s.central| == |cfg.classes|
    ensures Inv(cfg, NextRemove(cfg, s, t, cl, n), b')
  {
    hide Inv;
    b' := b;
    Basics(cfg, s, b, t);
    var x := s.central[cl];
    if n == cfg.classes[cl].batch && |x.slots| > 0 {
      PopSlotStep(cfg, s, b, t, cl, n);
      b' := Relocate(b, x.slots[|x.slots| - 1], AtCaller);
    } else if x.nonempty == [] {
      UnlockStep(cfg, s, b, t, Waiting(AllocSpan(cl, n)));
    } else {
      StayStep(cfg, s, b, t, Running(Fetch(cl, n, [], false)));
    }
  }

  // ----- theorems about every run

  /** The invariant holds at every point of every run. */
  lemma {:induction false} RunGood(cfg: Config, run: seq<State>, i: nat) returns (b: Book)
    requires Run(cfg, run) && i < |run|
    ensures Inv(cfg, run[i], b)
  {
    hide Inv, Enabled, Next;
    if i == 0 {
      InitGood(cfg, run[0]);
      b := Book(map[], map[]);
    } else {
      var b0 := RunGood(cfg, run, i - 1);
      assert StepTo(cfg, run[i - 1], run[i]);
      var t, ch :| Enabled(cfg, run[i - 1], t, ch) && run[i] == Next(cfg, run[i - 1], t, ch);
      b := StepGood(cfg, run[i - 1], b0, t, ch);
    }
  }

  /** Where an object is, said without the book. */
  ghost predicate Here(s: State, a: Addr, p: Place) {
    match p
    case OnSpan(id) => id in s.spans && ListedSpan(s, id) && a in s.spans[id].objects
    case InSlot(c, i) => c < |s.central| && i < |s.central[c].slots| && a in s.central[c].slots[i]
    case InFlight(t) => t < |s.threads| && a in Flight(s.threads[t])
    case AtCaller => a in s.out
  }

  ghost predicate ListedSpan(s: State, id: nat) {
    id in s.spans && s.spans[id].sizeclass < |s.central| && OnLists(s.central[s.spans[id].sizeclass], id)
  }

  /** Some listed span of class `c` has `a` among its objects. */
  ghost predicate ObjectOf(cfg: Config, s: State, a: Addr, id: nat, c: nat)
    requires ValidConfig(cfg)
  {
    ListedSpan(s, id) && s.spans[id].sizeclass == c && IsClass(cfg, c) && a in Carved(cfg, id, c)
  }

  lemma HereIsAt(cfg: Config, s: State, b: Book, a: Addr, p: Place)
    requires ValidConfig(cfg) && Inv(cfg, s, b)
    ensures Here(s, a, p) ==> At(s, b.keeper, a, p)
    ensures At(s, b.keeper, a, p) && (p.OnSpan? ==> p.id in b.keeper && b.keeper[p.id] == Listed) ==> Here(s, a, p)
  {
    hide LocksOK, PlacesOK, ObjectsOK, PageMapOK, HeldOK, CentralsOK, ThreadsOK, SlotsOK, RefcountsOK, BudgetOK, SpanOK;
  }

  /** No loss, no duplication: each object of each listed span is in exactly one place. */
  lemma ObjectsInOnePlace(cfg: Config, run: seq<State>, i: nat, a: Addr, id: nat, c: nat)
    requires Run(cfg, run) && i < |run| && ObjectOf(cfg, run[i], a, id, c)
    ensures exists p :: Here(run[i], a, p) && (p.OnSpan? ==> p.id == id) && forall q :: Here(run[i], a, q) ==> q == p
  {
    var s := run[i];
    var b := RunGood(cfg, run, i);
    ListBasics(cfg, s, b, c, id);
    LiveObject(cfg, s, b, a, id, c);
    var p := b.loc[a];
    HereIsAt(cfg, s, b, a, p);
    forall q | Here(s, a, q) ensures q == p {
      HereIsAt(cfg, s, b, a, q);
      OnePlace(s, b, a, q);
    }
  }

  lemma OnePlace(s: State, b: Book, a: Addr, q: Place)
    requires PlacesOK(s, b) && At(s, b.keeper, a, q)
    ensures a in b.loc && b.loc[a] == q
  {
  }

  lemma LiveObject(cfg: Config, s: State, b: Book, a: Addr, id: nat, c: nat)
    requires ValidConfig(cfg) && IsClass(cfg, c) && a in Carved(cfg, id, c)
    requires PlacesOK(s, b) && ObjectsOK(cfg, s.spans, s.pagemap, b) && PageMapOK(s.spans, s.pagemap) && SpansOK(cfg, s.spans, b.keeper)
    requires id in s.spans && id in b.keeper && b.keeper[id] == Listed && s.spans[id].sizeclass == c
    ensures a in b.loc && At(s, b.keeper, a, b.loc[a])
    ensures b.loc[a].OnSpan? ==> b.loc[a].id == id
  {
    hide Carved, PageOf;
    CarvedPage(cfg, id, c, a);
    assert SpanOK(cfg, id, s.spans[id], Listed);
    assert IsLiveObject(cfg, s.spans, s.pagemap, b.keeper, a);
    if b.loc[a].OnSpan? {
      var e := b.loc[a].id;
      assert SpanOK(cfg, e, s.spans[e], b.keeper[e]);
      CarvedPage(cfg, e, s.spans[e].sizeclass, a);
    }
  }

  /** Whatever is in a slot, in a thread's hands or with a caller is an object of a listed span. */
  lemma NothingElseAnywhere(cfg: Config, run: seq<State>, i: nat, a: Addr, p: Place)
    requires Run(cfg, run) && i < |run| && Here(run[i], a, p)
    ensures exists id, c :: ObjectOf(cfg, run[i], a, id, c) && (p.OnSpan? ==> p.id == id) && (p.InSlot? ==> p.c == c)
  {
    var s := run[i];
    var b := RunGood(cfg, run, i);
    HereIsAt(cfg, s, b, a, p);
    var id := HomeSpan(cfg, s, b, a, p);
    assert ObjectOf(cfg, s, a, id, s.spans[id].sizeclass);
  }

  lemma HomeSpan(cfg: Config, s: State, b: Book, a: Addr, p: Place) returns (id: nat)
    requires ValidConfig(cfg) && Inv(cfg, s, b) && At(s, b.keeper, a, p) && Here(s, a, p)
    ensures id in s.spans && ObjectOf(cfg, s, a, id, s.spans[id].sizeclass)
    ensures (p.OnSpan? ==> p.id == id) && (p.InSlot? ==> p.c == s.spans[id].sizeclass)
  {
    hide LocksOK, HeldOK, RefcountsOK, BudgetOK, Carved, CentralsOK, ThreadsOK;
    OnePlace(s, b, a, p);
    assert IsLiveObject(cfg, s.spans, s.pagemap, b.keeper, a);
    id := s.pagemap[PageOf(cfg, a)];
    assert SpanOK(cfg, id, s.spans[id], b.keeper[id]);
    if p.OnSpan? {
      assert SpanOK(cfg, p.id, s.spans[p.id], b.keeper[p.id]);
      CarvedPage(cfg, p.id, s.spans[p.id].sizeclass, a);
    } else {
      assert !At(s, b.keeper, a, OnSpan(id));
      OutsideObject(cfg, id, s.spans[id], b.keeper[id], a);
      if p.InSlot? {
        assert ChainOK(cfg, s.spans, s.pagemap, s.central[p.c].slots[p.i], p.c);
      }
    }
  }

  /** While a span is on its way back to the page heap, none of its objects is anywhere else. */
  lemma SafeToDelete(cfg: Config, run: seq<State>, i: nat, t: nat, a: Addr, p: Place)
    requires Run(cfg, run) && i < |run|
    requires t < |run[i].threads| && (run[i].threads[t].Waiting? || run[i].threads[t].Running?) && run[i].threads[t].todo.DeleteSpan?
    ensures var id := run[i].threads[t].todo.id;
            && id in run[i].spans && IsClass(cfg, run[i].spans[id].sizeclass)
            && (a in Carved(cfg, id, run[i].spans[id].sizeclass) ==> !Here(run[i], a, p))
  {
    var s := run[i];
    var b := RunGood(cfg, run, i);
    var id := s.threads[t].todo.id;
    Basics(cfg, s, b, t);
    SpanShape(cfg, s.spans, b.keeper, id);
    if a in Carved(cfg, id, s.spans[id].sizeclass) && Here(s, a, p) {
      HereIsAt(cfg, s, b, a, p);
      DyingIsNowhere(cfg, s, b, a, p, id, t);
      assert false;
    }
  }

  lemma DyingIsNowhere(cfg: Config, s: State, b: Book, a: Addr, p: Place, id: nat, t: nat)
    requires ValidConfig(cfg) && PlacesOK(s, b) && ObjectsOK(cfg, s.spans, s.pagemap, b) && PageMapOK(s.spans, s.pagemap)
    requires id in s.spans && id in b.keeper && b.keeper[id] == Dying(t) && SpanOK(cfg, id, s.spans[id], Dying(t))
    requires a in Carved(cfg, id, s.spans[id].sizeclass)
    ensures !At(s, b.keeper, a, p)
  {
    hide Carved;
    CarvedPage(cfg, id, s.spans[id].sizeclass, a);
    assert !IsLiveObject(cfg, s.spans, s.pagemap, b.keeper, a);
  }

  /** No chain or list names an object twice. */
  lemma NoDuplicates(cfg: Config, run: seq<State>, i: nat)
    requires Run(cfg, run) && i < |run|
    ensures var s := run[i];
            && (forall id :: id in s.spans ==> NoDup(s.spans[id].objects))
            && (forall t :: 0 <= t < |s.threads| ==> NoDup(Flight(s.threads[t])))
            && (forall c, j :: 0 <= c < |s.central| && 0 <= j < |s.central[c].slots| ==> NoDup(s.central[c].slots[j]))
  {
    var s := run[i];
    var b := RunGood(cfg, run, i);
    forall id | id in s.spans ensures NoDup(s.spans[id].objects) {
      SpanShape(cfg, s.spans, b.keeper, id);
    }
    forall t | 0 <= t < |s.threads| ensures NoDup(Flight(s.threads[t])) {
      Basics(cfg, s, b, t);
    }
    forall c, j | 0 <= c < |s.central| && 0 <= j < |s.central[c].slots| ensures NoDup(s.central[c].slots[j]) {
      CacheBasics(cfg, s, c);
    }
  }

  /** The books of one class: counters and reference counts, exact at every point of every run. */
  lemma ListsAndCounters(cfg: Config, run: seq<State>, i: nat, c: nat)
    requires Run(cfg, run) && i < |run| && IsClass(cfg, c)
    ensures |run[i].central| == |cfg.classes|
    ensures var s := run[i]; var x := s.central[c];
            && NoDup(x.nonempty) && NoDup(x.empty)
            && x.numSpans == |x.nonempty| + |x.empty|
            && x.counter == FreeObjects(s.spans, x.nonempty)
            && forall id :: OnLists(x, id) ==>
                 && id in s.spans && s.spans[id].sizeclass == c
                 && s.spans[id].refcount + |s.spans[id].objects| == ObjectsPerSpan(cfg, c)
                 && (id in x.nonempty <==> s.spans[id].objects != []) && (id in x.empty <==> s.spans[id].objects == [])
                 && (ClassLock(c) !in s.locks ==> s.spans[id].refcount > 0)
  {
    var s := run[i];
    var b := RunGood(cfg, run, i);
    CountersOf(cfg, s, b, c);
    forall id | OnLists(s.central[c], id)
      ensures && id in s.spans && s.spans[id].sizeclass == c
              && s.spans[id].refcount + |s.spans[id].objects| == ObjectsPerSpan(cfg, c)
              && (ClassLock(c) !in s.locks ==> s.spans[id].refcount > 0)
    {
      ListBasics(cfg, s, b, c, id);
      RefcountOf(s, c, id);
    }
  }

  lemma CountersOf(cfg: Config, s: State, b: Book, c: nat)
    requires ValidConfig(cfg) && Inv(cfg, s, b) && IsClass(cfg, c)
    ensures |s.central| == |cfg.classes| && CountersOK(cfg, s.spans, c, s.central[c])
  {
  }

  lemma RefcountOf(s: State, c: nat, id: nat)
    requires RefcountsOK(s.central, s.spans, s.threads, s.locks) && c < |s.central| && OnLists(s.central[c], id) && id in s.spans
    ensures ClassLock(c) !in s.locks ==> s.spans[id].refcount > 0
  {
  }

  /**
   The transfer caches: each within the bounds Init set, which never exceed 64, and together
   never more slots than Init handed out, counting those taken from a victim and not yet spent.
   */
  lemma SlotBudget(cfg: Config, run: seq<State>, i: nat)
    requires Run(cfg, run) && i < |run|
    ensures |run[i].central| == |cfg.classes|
    ensures forall c :: 0 <= c < |run[i].central| ==>
              |run[i].central[c].slots| <= run[i].central[c].cacheSize <= MaxCacheSize(cfg, c) <= MAX_TRANSFER_ENTRIES
    ensures CacheTotal(run[i].central) + UnspentTotal(run[i].threads) <= CacheTotal(run[0].central)
  {
    hide MaxCacheSize;
    var s := run[i];
    var b := RunGood(cfg, run, i);
    forall c | 0 <= c < |s.central|
      ensures |s.central[c].slots| <= s.central[c].cacheSize <= MaxCacheSize(cfg, c) <= MAX_TRANSFER_ENTRIES
    {
      CacheBound(cfg, s, b, c);
      MaxCacheBound(cfg, c);
    }
    assert run[0].central == seq(|cfg.classes|, c requires 0 <= c < |cfg.classes| => InitCentral(cfg, c));
  }

  lemma MaxCacheBound(cfg: Config, c: nat)
    requires ValidConfig(cfg) && c < |cfg.classes|
    ensures MaxCacheSize(cfg, c) <= MAX_TRANSFER_ENTRIES
  {
  }

  /** Lock discipline: no thread ever holds two locks, and one that waits or is idle holds none. */
  lemma AtMostOneLock(cfg: Config, run: seq<State>, i: nat)
    requires Run(cfg, run) && i < |run|
    ensures var s := run[i];
            && (forall l, m :: l in s.locks && m in s.locks && s.locks[l] == s.locks[m] ==> l == m)
            && (forall l :: l in s.locks ==> s.locks[l] < |s.threads| && s.threads[s.locks[l]].Running?)
  {
    hide PlacesOK, ObjectsOK, SpansOK, PageMapOK, ListedOK, HeldOK, CentralsOK, ThreadsOK, SlotsOK, RefcountsOK, BudgetOK;
    var b := RunGood(cfg, run, i);
  }

  /** A caller may insert any objects of one class that it has, in any chain, and ask for any number, whenever it is not inside a call. */
  lemma CallsAllowed(cfg: Config, run: seq<State>, i: nat, t: nat, cl: nat, chain: Chain, n: nat)
    requires Run(cfg, run) && i < |run| && t < |run[i].threads| && run[i].threads[t] == Idle && IsClass(cfg, cl) && n > 0
    requires NoDup(chain) && forall a :: a in chain ==> a in run[i].out && OfClass(cfg, run[i], a, cl)
    ensures Enabled(cfg, run[i], t, Insert(cl, chain)) && Enabled(cfg, run[i], t, Remove(cl, n))
  {
    var s := run[i];
    var b := RunGood(cfg, run, i);
    hide Inv, OfClass, ClassOfObject;
    Basics(cfg, s, b, t);
    forall a | a in chain ensures ClassOfObject(cfg, s.spans, s.pagemap, a) == Some(cl) {
      ClassKnown(cfg, s, b, a, cl);
    }
  }

  /** The object was carved from a listed span of the class. */
  ghost predicate OfClass(cfg: Config, s: State, a: Addr, c: nat)
    requires ValidConfig(cfg)
  {
    exists id :: ObjectOf(cfg, s, a, id, c)
  }

  lemma ClassKnown(cfg: Config, s: State, b: Book, a: Addr, c: nat)
    requires ValidConfig(cfg) && Inv(cfg, s, b) && OfClass(cfg, s, a, c)
    ensures ClassOfObject(cfg, s.spans, s.pagemap, a) == Some(c)
  {
    hide LocksOK, PlacesOK, ListedOK, ObjectsOK, HeldOK, CentralsOK, ThreadsOK, SlotsOK, RefcountsOK, BudgetOK, Carved;
    var id :| ObjectOf(cfg, s, a, id, c);
    CarvedPage(cfg, id, c, a);
    assert id in b.keeper;
    assert SpanOK(cfg, id, s.spans[id], b.keeper[id]);
  }

  /** Every class may turn up as the victim, however the quick check comes out; the page heap may refuse, or give any unused pages. */
  lemma ChoicesAllowed(cfg: Config, s: State, b: Book, t: nat, ch: Choice)
    requires ValidConfig(cfg) && Inv(cfg, s, b) && t < |s.threads| && s.threads[t].Running?
    requires match s.threads[t].todo
             case TryEvict(_, _, _) => ch.Victim? && ch.v < |cfg.classes|
             case AllocSpan(cl, _) =>
               ch.Pages? && (ch.start.Some? ==>
                 forall p :: ch.start.value <= p < ch.start.value + cfg.classes[cl].pages ==> p !in s.pagemap)
             case _ => false
    ensures Enabled(cfg, s, t, ch)
  {
    hide Inv;
    Basics(cfg, s, b, t);
  }

  /** A thread that holds a lock, or is carving, can always go on: no assertion of the code fails. */
  lemma HoldersCanStep(cfg: Config, s: State, b: Book, t: nat) returns (ch: Choice)
    requires ValidConfig(cfg) && Inv(cfg, s, b) && t < |s.threads| && (s.threads[t].Running? || s.threads[t].Carving?)
    ensures Enabled(cfg, s, t, ch)
  {
    hide Inv, CountersOK, SpanOK;
    Basics(cfg, s, b, t);
    ch := NoChoice;
    if s.threads[t].Running? {
      match s.threads[t].todo {
        case TryEvict(cl, chain, force) => ch := Victim(0, false);
        case ShrinkBody(cl, chain, v, force) => CacheBound(cfg, s, b, v);
        case ReleaseList(c, rest, k) => if rest != [] { ReleasedObject(cfg, s, b, t, c, rest, k); }
        case AllocSpan(cl, n) => ch := Pages(None);
        case Fetch(cl, n, acc, failed) =>
          if s.central[cl].nonempty != [] { ListBasics(cfg, s, b, cl, s.central[cl].nonempty[0]); }
        case _ =>
      }
    }
  }

  /** Progress: as long as some thread is inside an operation, some such thread can take a step. */
  lemma NoDeadlock(cfg: Config, run: seq<State>, i: nat, u: nat) returns (t: nat, ch: Choice)
    requires Run(cfg, run) && i < |run| && u < |run[i].threads| && !run[i].threads[u].Idle?
    ensures t < |run[i].threads| && !run[i].threads[t].Idle? && Enabled(cfg, run[i], t, ch)
    ensures run[i].threads[u].Running? || run[i].threads[u].Carving? ==> t == u
  {
    var s := run[i];
    var b := RunGood(cfg, run, i);
    t, ch := u, NoChoice;
    if !s.threads[u].Waiting? {
      ch := HoldersCanStep(cfg, s, b, u);
    } else {
      Basics(cfg, s, b, u);
      var l := LockOf(s.threads[u].todo);
      if l in s.locks {
        t := s.locks[l];
        HolderRuns(s, l);
        ch := HoldersCanStep(cfg, s, b, t);
      }
    }
  }

  lemma HolderRuns(s: State, l: Lock)
    requires LocksOK(s.threads, s.locks) && l in s.locks
    ensures s.locks[l] < |s.threads| && s.threads[s.locks[l]].Running?
  {
  }

  /**
   What RemoveRange(N) hands out: never more than N objects, all of N from a cache slot, and
   nothing at all only if the page heap had no span to give.
   */
  lemma RemoveRangeResult(cfg: Config, run: seq<State>, i: nat, t: nat)
    requires Run(cfg, run) && i < |run| && t < |run[i].threads| && run[i].threads[t].Running?
    ensures |run[i].central| == |cfg.classes|
    ensures var s, d := run[i], run[i].threads[t].todo;
            d.Fetch? ==> && IsClass(cfg, d.cl) && |d.acc| <= d.n
                         && (|d.acc| == d.n || s.central[d.cl].nonempty == [] ==> d.acc != [] || d.failed)
    ensures var s, d := run[i], run[i].threads[t].todo;
            d.RemoveBody? ==> && IsClass(cfg, d.cl)
                              && forall j :: 0 <= j < |s.central[d.cl].slots| ==> |s.central[d.cl].slots[j]| == cfg.classes[d.cl].batch
  {
    var s := run[i];
    var b := RunGood(cfg, run, i);
    Basics(cfg, s, b, t);
    if s.threads[t].todo.RemoveBody? {
      CacheBasics(cfg, s, s.threads[t].todo.cl);
    }
  }
}
