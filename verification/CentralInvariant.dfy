/**
 What every step of the central free list machine keeps.

 The invariant says that there is a book: for every live object the one place it is
 in, and for every span who is looking after it.  The book is not part of the machine;
 each step's proof says how its entries move.
 */
module CentralInvariant {
  import opened Base
  import opened CentralFreeList

  type Spans = map<nat, Span>
  type PageMap = map<nat, nat>

  /** Where an object can be. */
  datatype Place = OnSpan(id: nat) | InSlot(c: nat, i: nat) | InFlight(t: nat) | AtCaller

  /** Who looks after a span: the lists of its class, or the one thread that is creating or deleting it. */
  datatype Keeper = Listed | Uncarved(t: nat) | Private(t: nat) | Dying(t: nat)

  type Keepers = map<nat, Keeper>

  datatype Book = Book(loc: map<Addr, Place>, keeper: Keepers)

  ghost predicate Live(k: Keeper) {
    k.Listed? || k.Private?
  }

  ghost predicate At(s: State, keeper: Keepers, a: Addr, p: Place) {
    match p
    case OnSpan(id) => id in s.spans && id in keeper && Live(keeper[id]) && a in s.spans[id].objects
    case InSlot(c, i) => c < |s.central| && i < |s.central[c].slots| && a in s.central[c].slots[i]
    case InFlight(t) => t < |s.threads| && a in Flight(s.threads[t])
    case AtCaller => a in s.out
  }

  /** `a` was carved from a span that is listed or about to be. */
  ghost predicate IsLiveObject(cfg: Config, spans: Spans, pagemap: PageMap, keeper: Keepers, a: Addr)
    requires ValidConfig(cfg)
  {
    var p := PageOf(cfg, a);
    && p in pagemap && pagemap[p] in spans && pagemap[p] in keeper
    && Live(keeper[pagemap[p]])
    && IsClass(cfg, spans[pagemap[p]].sizeclass)
    && a in Carved(cfg, pagemap[p], spans[pagemap[p]].sizeclass)
  }

  // ----- the parts of the invariant

  /** The lock table and the program counters agree. */
  ghost predicate LocksOK(threads: seq<Thread>, locks: map<Lock, nat>) {
    && (forall l :: l in locks ==>
                      && locks[l] < |threads|
                      && threads[locks[l]].Running?
                      && LockOf(threads[locks[l]].todo) == l)
    && (forall t :: 0 <= t < |threads| && threads[t].Running? ==>
                      LockOf(threads[t].todo) in locks && locks[LockOf(threads[t].todo)] == t)
  }

  ghost predicate PlacesOK(s: State, b: Book) {
    && (forall a :: a in b.loc ==> At(s, b.keeper, a, b.loc[a]))
    && (forall a, p :: At(s, b.keeper, a, p) ==> a in b.loc && b.loc[a] == p)
  }

  ghost predicate ObjectsOK(cfg: Config, spans: Spans, pagemap: PageMap, b: Book)
    requires ValidConfig(cfg)
  {
    forall a :: a in b.loc <==> IsLiveObject(cfg, spans, pagemap, b.keeper, a)
  }

  ghost predicate SpansOK(cfg: Config, spans: Spans, keeper: Keepers)
    requires ValidConfig(cfg)
  {
    && keeper.Keys == spans.Keys
    && forall id :: id in spans ==> SpanOK(cfg, id, spans[id], keeper[id])
  }

  ghost predicate SpanOK(cfg: Config, id: nat, sp: Span, k: Keeper)
    requires ValidConfig(cfg)
  {
    && IsClass(cfg, sp.sizeclass)
    && sp.length == cfg.classes[sp.sizeclass].pages
    && sp.refcount >= 0
    && NoDup(sp.objects)
    && (k.Uncarved? ==> sp.objects == [])
    && (k.Private? ==> sp.refcount == 0)
    && (Live(k) ==> sp.refcount + |sp.objects| == ObjectsPerSpan(cfg, sp.sizeclass))
    && (Live(k) ==> forall a :: a in sp.objects ==> a in Carved(cfg, id, sp.sizeclass))
  }

  /** Every page of every span leads to it, and nothing else is in the page map. */
  ghost predicate PageMapOK(spans: Spans, pagemap: PageMap) {
    && (forall p :: p in pagemap ==> pagemap[p] in spans && pagemap[p] <= p < pagemap[p] + spans[pagemap[p]].length)
    && (forall id, p :: id in spans && id <= p < id + spans[id].length ==> p in pagemap && pagemap[p] == id)
  }

  /** The span a thread alone has in its hands, and in which role. */
  function Held(th: Thread, t: nat): Option<(nat, Keeper)> {
    match th
    case Carving(_, _, id) => Some((id, Uncarved(t)))
    case Idle => None
    case Waiting(d) => TodoHeld(d, t)
    case Running(d) => TodoHeld(d, t)
  }

  function TodoHeld(d: Todo, t: nat): Option<(nat, Keeper)> {
    match d
    case DeleteSpan(_, id, _, _) => Some((id, Dying(t)))
    case AddSpan(_, _, Some(id)) => Some((id, Private(t)))
    case _ => None
  }

  ghost predicate OnLists(x: Central, id: nat) {
    id in x.nonempty || id in x.empty
  }

  /** Exactly the listed spans are on the lists of their class. */
  ghost predicate ListedOK(central: seq<Central>, spans: Spans, keeper: Keepers) {
    && (forall id :: id in keeper && id in spans && keeper[id].Listed? ==>
                       spans[id].sizeclass < |central| && OnLists(central[spans[id].sizeclass], id))
    && (forall c, id :: 0 <= c < |central| && OnLists(central[c], id) ==>
                          id in spans && id in keeper && keeper[id].Listed? && spans[id].sizeclass == c)
  }

  ghost predicate HeldOK(threads: seq<Thread>, keeper: Keepers) {
    forall t :: 0 <= t < |threads| && Held(threads[t], t).Some? ==>
                  Held(threads[t], t).value.0 in keeper && keeper[Held(threads[t], t).value.0] == Held(threads[t], t).value.1
  }

  /** Sum of the lengths of the object lists of `ids`. */
  ghost function FreeObjects(spans: Spans, ids: seq<nat>): nat
  {
    if ids == [] then 0
    else (if ids[0] in spans then |spans[ids[0]].objects| else 0) + FreeObjects(spans, ids[1..])
  }

  /** Lists and counters of one class: what its lock protects. */
  ghost predicate CountersOK(cfg: Config, spans: Spans, c: nat, x: Central)
  {
    && NoDup(x.nonempty) && NoDup(x.empty)
    && x.numSpans == |x.nonempty| + |x.empty|
    && x.counter == FreeObjects(spans, x.nonempty)
    && (forall id :: id in x.nonempty && id in spans ==> spans[id].objects != [])
    && (forall id :: id in x.empty && id in spans ==> spans[id].objects == [])
  }

  /** The transfer cache of one class. */
  ghost predicate CacheOK(cfg: Config, c: nat, x: Central)
    requires ValidConfig(cfg) && c < |cfg.classes|
  {
    && |x.slots| <= x.cacheSize <= x.maxCacheSize == MaxCacheSize(cfg, c)
    && (c == 0 ==> x.slots == [])
    && (forall i :: 0 <= i < |x.slots| ==> NoDup(x.slots[i]) && |x.slots[i]| == cfg.classes[c].batch)
  }

  ghost predicate CentralsOK(cfg: Config, spans: Spans, central: seq<Central>)
    requires ValidConfig(cfg)
  {
    && |central| == |cfg.classes|
    && forall c :: 0 <= c < |central| ==> CountersOK(cfg, spans, c, central[c]) && CacheOK(cfg, c, central[c])
  }

  ghost predicate ChainOK(cfg: Config, spans: Spans, pagemap: PageMap, chain: Chain, c: nat)
    requires cfg.pageSize > 0
  {
    forall a :: a in chain ==> ClassOfObject(cfg, spans, pagemap, a) == Some(c)
  }

  ghost predicate BatchOK(cfg: Config, spans: Spans, pagemap: PageMap, cl: nat, chain: Chain)
    requires cfg.pageSize > 0
  {
    IsClass(cfg, cl) && ChainOK(cfg, spans, pagemap, chain, cl) && |chain| == cfg.classes[cl].batch
  }

  ghost predicate ContOK(cfg: Config, spans: Spans, pagemap: PageMap, k: Cont)
    requires cfg.pageSize > 0
  {
    k.Resume? ==> BatchOK(cfg, spans, pagemap, k.cl, k.chain)
  }

  ghost predicate TodoOK(cfg: Config, spans: Spans, pagemap: PageMap, d: Todo)
    requires cfg.pageSize > 0
  {
    match d
    case InsertBody(cl, chain) => IsClass(cfg, cl) && ChainOK(cfg, spans, pagemap, chain, cl)
    case TryEvict(cl, chain, _) => BatchOK(cfg, spans, pagemap, cl, chain)
    case ShrinkBody(cl, chain, v, _) => BatchOK(cfg, spans, pagemap, cl, chain) && v < |cfg.classes|
    case AfterShrink(cl, chain, _, _) => BatchOK(cfg, spans, pagemap, cl, chain)
    case ReleaseList(c, rest, k) => IsClass(cfg, c) && ChainOK(cfg, spans, pagemap, rest, c) && ContOK(cfg, spans, pagemap, k)
    case DeleteSpan(c, id, rest, k) => IsClass(cfg, c) && ChainOK(cfg, spans, pagemap, rest, c) && ContOK(cfg, spans, pagemap, k)
    case RemoveBody(cl, n) => IsClass(cfg, cl) && n > 0
    case AllocSpan(cl, n) => IsClass(cfg, cl) && n > 0
    case AddSpan(cl, n, sp) =>
      IsClass(cfg, cl) && n > 0 && (sp.Some? ==> sp.value in spans && spans[sp.value].sizeclass == cl)
    case Fetch(cl, n, acc, _) => IsClass(cfg, cl) && n > 0 && |acc| <= n && ChainOK(cfg, spans, pagemap, acc, cl)
  }

  ghost predicate ThreadOK(cfg: Config, spans: Spans, pagemap: PageMap, th: Thread)
    requires cfg.pageSize > 0
  {
    && NoDup(Flight(th))
    && match th
       case Idle => true
       case Waiting(d) => TodoOK(cfg, spans, pagemap, d) && !d.TryEvict? && !d.Fetch?
       case Running(d) => TodoOK(cfg, spans, pagemap, d)
       case Carving(cl, n, id) => IsClass(cfg, cl) && n > 0 && id in spans && spans[id].sizeclass == cl
  }

  ghost predicate ThreadsOK(cfg: Config, spans: Spans, pagemap: PageMap, threads: seq<Thread>)
    requires cfg.pageSize > 0
  {
    forall t :: 0 <= t < |threads| ==> ThreadOK(cfg, spans, pagemap, threads[t])
  }

  ghost predicate SlotsOK(cfg: Config, spans: Spans, pagemap: PageMap, central: seq<Central>)
    requires cfg.pageSize > 0
  {
    forall c, i :: 0 <= c < |central| && 0 <= i < |central[c].slots| ==> ChainOK(cfg, spans, pagemap, central[c].slots[i], c)
  }

  /** The thread is between Populate's DLL_Prepend and the fetch that follows it, or it has just seen a non-empty list. */
  ghost predicate AboutToFetch(th: Thread, c: nat) {
    th.Running? && th.todo.Fetch? && th.todo.cl == c && th.todo.acc == [] && !th.todo.failed
  }

  /** The first span of class `c` is the one its lock holder is about to fetch from. */
  ghost predicate FreshFirst(central: seq<Central>, threads: seq<Thread>, locks: map<Lock, nat>, c: nat, id: nat)
    requires c < |central|
  {
    && ClassLock(c) in locks && locks[ClassLock(c)] < |threads|
    && AboutToFetch(threads[locks[ClassLock(c)]], c)
    && |central[c].nonempty| > 0 && central[c].nonempty[0] == id
  }

  /** A listed span has an object outside its list, except for the fresh span its class's lock holder is about to use. */
  ghost predicate RefcountsOK(central: seq<Central>, spans: Spans, threads: seq<Thread>, locks: map<Lock, nat>) {
    && (forall c, id :: 0 <= c < |central| && OnLists(central[c], id) && id in spans ==>
          spans[id].refcount > 0 || FreshFirst(central, threads, locks, c, id))
    && (forall t, c :: 0 <= t < |threads| && 0 <= c < |central| && AboutToFetch(threads[t], c) ==> central[c].nonempty != [])
  }

  function CacheTotal(central: seq<Central>): int {
    if central == [] then 0 else central[0].cacheSize + CacheTotal(central[1..])
  }

  /** 1 while the thread carries a slot it took from a victim and has not yet given to its own class. */
  function Unspent(th: Thread): nat {
    match th
    case Waiting(d) => UnspentTodo(d)
    case Running(d) => UnspentTodo(d)
    case _ => 0
  }

  function UnspentTodo(d: Todo): nat {
    match d
    case AfterShrink(_, _, _, ok) => if ok then 1 else 0
    case ReleaseList(_, _, k) => if k.Resume? then 1 else 0
    case DeleteSpan(_, _, _, k) => if k.Resume? then 1 else 0
    case _ => 0
  }

  function UnspentTotal(threads: seq<Thread>): nat {
    if threads == [] then 0 else Unspent(threads[0]) + UnspentTotal(threads[1..])
  }

  /** The slots handed out by Init. */
  ghost function InitialSlots(cfg: Config): int
    requires ValidConfig(cfg)
  {
    CacheTotal(seq(|cfg.classes|, c requires 0 <= c < |cfg.classes| => InitCentral(cfg, c)))
  }

  ghost predicate BudgetOK(cfg: Config, central: seq<Central>, threads: seq<Thread>)
    requires ValidConfig(cfg)
  {
    CacheTotal(central) + UnspentTotal(threads) <= InitialSlots(cfg)
  }

  ghost predicate Inv(cfg: Config, s: State, b: Book)
    requires ValidConfig(cfg)
  {
    && LocksOK(s.threads, s.locks)
    && PlacesOK(s, b)
    && ObjectsOK(cfg, s.spans, s.pagemap, b)
    && SpansOK(cfg, s.spans, b.keeper)
    && PageMapOK(s.spans, s.pagemap)
    && ListedOK(s.central, s.spans, b.keeper)
    && HeldOK(s.threads, b.keeper)
    && CentralsOK(cfg, s.spans, s.central)
    && ThreadsOK(cfg, s.spans, s.pagemap, s.threads)
    && SlotsOK(cfg, s.spans, s.pagemap, s.central)
    && RefcountsOK(s.central, s.spans, s.threads, s.locks)
    && BudgetOK(cfg, s.central, s.threads)
  }
}
