/**
 The central free lists of tcmalloc as a machine that many threads drive at once.

 A state holds every size class's CentralFreeList, the page heap's span table and
 page map, the lock table, and what each thread is doing.  One step is one stretch of
 code between two points where another thread may be let in: taking a lock, or a
 straight run of code under a lock (or on thread-private data) that may end by giving
 the lock back.  Objects are addresses; a chain of objects linked through their first
 words is a sequence of addresses.
 */
module CentralFreeList {
  import opened Base

  type Addr = nat
  type Chain = seq<Addr>

  /** What SizeMap knows about one class: object size, pages per span, objects per transfer. */
  datatype ClassInfo = ClassInfo(bytes: nat, pages: nat, batch: nat)

  datatype Config = Config(pageSize: nat, classes: seq<ClassInfo>)

  const MAX_TRANSFER_ENTRIES := 64
  const INITIAL_CACHE_SIZE := 16

  /** Class 0 holds no objects; every other class carves at least one object from a span. */
  ghost predicate ValidConfig(cfg: Config) {
    && cfg.pageSize > 0
    && |cfg.classes| > 0
    && forall c :: 1 <= c < |cfg.classes| ==>
                     && cfg.classes[c].bytes > 0
                     && cfg.classes[c].batch > 0
                     && cfg.classes[c].bytes <= cfg.classes[c].pages * cfg.pageSize
  }

  predicate IsClass(cfg: Config, c: nat) {
    1 <= c < |cfg.classes|
  }

  /** Objects in one span of class `c`: (length << kPageShift) / object size. */
  function ObjectsPerSpan(cfg: Config, c: nat): nat
    requires ValidConfig(cfg) && IsClass(cfg, c)
  {
    cfg.classes[c].pages * cfg.pageSize / cfg.classes[c].bytes
  }

  /** The addresses Populate carves from the span that starts at page `id`. */
  ghost function Carved(cfg: Config, id: nat, c: nat): seq<Addr>
    requires ValidConfig(cfg) && IsClass(cfg, c)
  {
    seq(ObjectsPerSpan(cfg, c), i requires 0 <= i => ObjectAt(cfg.pageSize, cfg.classes[c].bytes, id, i))
  }

  /** The address of the `i`-th object of a span of `bytes`-sized objects. */
  function ObjectAt(pageSize: nat, bytes: nat, id: nat, i: nat): Addr {
    id * pageSize + i * bytes
  }

  /** max_cache_size_ as CentralFreeList::Init computes it. */
  function MaxCacheSize(cfg: Config, c: nat): nat
    requires ValidConfig(cfg) && c < |cfg.classes|
  {
    if c == 0 then MAX_TRANSFER_ENTRIES
    else
      var byBytes := 1024 * 1024 / PositiveProduct(cfg.classes[c].bytes, cfg.classes[c].batch);
      var atLeastOne := if byBytes < 1 then 1 else byBytes;
      if atLeastOne < MAX_TRANSFER_ENTRIES then atLeastOne else MAX_TRANSFER_ENTRIES
  }

  function PositiveProduct(x: nat, y: nat): (r: nat)
    requires x > 0 && y > 0
    ensures r > 0
  {
    x * y
  }

  /** A span descriptor.  Descriptors are named by the span's first page. */
  datatype Span = Span(length: nat, sizeclass: nat, objects: Chain, refcount: int)

  /** The mutable fields of one CentralFreeList; used_slots_ is |slots|. */
  datatype Central = Central(
    nonempty: seq<nat>, empty: seq<nat>, numSpans: int, counter: int,
    slots: seq<Chain>, cacheSize: int, maxCacheSize: int)

  datatype Lock = ClassLock(c: nat) | PageHeapLock

  /** Where ReleaseListToSpans returns to. */
  datatype Cont = Return | Resume(cl: nat, chain: Chain)

  /** A stretch of code together with the locals it needs. */
  datatype Todo =
    | InsertBody(cl: nat, chain: Chain)
    | TryEvict(cl: nat, chain: Chain, force: bool)
    | ShrinkBody(cl: nat, chain: Chain, victim: nat, force: bool)
    | AfterShrink(cl: nat, chain: Chain, force: bool, ok: bool)
    | ReleaseList(c: nat, rest: Chain, k: Cont)
    | DeleteSpan(c: nat, id: nat, rest: Chain, k: Cont)
    | RemoveBody(cl: nat, n: nat)
    | AllocSpan(cl: nat, n: nat)
    | AddSpan(cl: nat, n: nat, span: Option<nat>)
    | Fetch(cl: nat, n: nat, acc: Chain, failed: bool)

  datatype Thread =
    | Idle
    | Waiting(todo: Todo)
    | Running(todo: Todo)
    | Carving(cl: nat, n: nat, id: nat)

  datatype State = State(
    central: seq<Central>, locks: map<Lock, nat>,
    spans: map<nat, Span>, pagemap: map<nat, nat>,
    threads: seq<Thread>, out: set<Addr>)

  /** What the environment decides in a step. */
  datatype Choice =
    | Insert(cl: nat, chain: Chain)
    | Remove(cl: nat, n: nat)
    | Victim(v: nat, quickCheckPasses: bool)
    | Pages(start: Option<nat>)
    | NoChoice

  function LockOf(d: Todo): Lock {
    match d
    case InsertBody(cl, _) => ClassLock(cl)
    case TryEvict(cl, _, _) => ClassLock(cl)
    case ShrinkBody(_, _, v, _) => ClassLock(v)
    case AfterShrink(cl, _, _, _) => ClassLock(cl)
    case ReleaseList(c, _, _) => ClassLock(c)
    case DeleteSpan(_, _, _, _) => PageHeapLock
    case RemoveBody(cl, _) => ClassLock(cl)
    case AllocSpan(_, _) => PageHeapLock
    case AddSpan(cl, _, _) => ClassLock(cl)
    case Fetch(cl, _, _, _) => ClassLock(cl)
  }

  function ContChain(k: Cont): Chain {
    match k
    case Return => []
    case Resume(_, chain) => chain
  }

  /** The objects a stretch of code has in its hands. */
  function TodoChain(d: Todo): Chain {
    match d
    case InsertBody(_, chain) => chain
    case TryEvict(_, chain, _) => chain
    case ShrinkBody(_, chain, _, _) => chain
    case AfterShrink(_, chain, _, _) => chain
    case ReleaseList(_, rest, k) => rest + ContChain(k)
    case DeleteSpan(_, _, rest, k) => rest + ContChain(k)
    case RemoveBody(_, _) => []
    case AllocSpan(_, _) => []
    case AddSpan(_, _, _) => []
    case Fetch(_, _, acc, _) => acc
  }

  function Flight(th: Thread): Chain {
    match th
    case Idle => []
    case Waiting(d) => TodoChain(d)
    case Running(d) => TodoChain(d)
    case Carving(_, _, _) => []
  }

  /** `s` with every occurrence of `x` unlinked. */
  function Unlink(s: seq<nat>, x: nat): seq<nat> {
    if s == [] then []
    else if s[0] == x then Unlink(s[1..], x)
    else [s[0]] + Unlink(s[1..], x)
  }

  function PageOf(cfg: Config, a: Addr): nat
    requires cfg.pageSize > 0
  {
    a / cfg.pageSize
  }

  // ----- building blocks of steps

  function Goto(s: State, t: nat, th: Thread): State
    requires t < |s.threads|
  {
    s.(threads := s.threads[t := th])
  }

  /** Unlock `l` and continue as `th`. */
  function UnlockGoto(s: State, t: nat, l: Lock, th: Thread): State
    requires t < |s.threads|
  {
    s.(threads := s.threads[t := th], locks := s.locks - {l})
  }

  function SetCentral(s: State, c: nat, x: Central): State
    requires c < |s.central|
  {
    s.(central := s.central[c := x])
  }

  /** InsertRange's last lines: the chain goes into slot used_slots_++. */
  function PushSlot(s: State, t: nat, cl: nat, chain: Chain, cacheSize: int): State
    requires t < |s.threads| && cl < |s.central|
  {
    var x := s.central[cl];
    UnlockGoto(SetCentral(s, cl, x.(slots := x.slots + [chain], cacheSize := cacheSize)), t, ClassLock(cl), Idle)
  }

  predicate InsertEnabled(cfg: Config, s: State, cl: nat, chain: Chain)
    requires cfg.pageSize > 0
  {
    && IsClass(cfg, cl)
    && (forall i, j :: 0 <= i < j < |chain| ==> chain[i] != chain[j])
    && (forall a :: a in chain ==> a in s.out)
    && (forall a :: a in chain ==> ClassOfObject(cfg, s.spans, s.pagemap, a) == Some(cl))
  }

  /** The size class recorded for the page an address lies on. */
  function ClassOfObject(cfg: Config, spans: map<nat, Span>, pagemap: map<nat, nat>, a: Addr): Option<nat>
    requires cfg.pageSize > 0
  {
    var p := PageOf(cfg, a);
    if p in pagemap && pagemap[p] in spans then Some(spans[pagemap[p]].sizeclass) else None
  }

  predicate FreshPages(pagemap: map<nat, nat>, start: nat, length: nat) {
    forall p :: start <= p < start + length ==> p !in pagemap
  }

  /**
   May thread `t` take a step with this choice?  Besides the lock being free and the choice
   being sensible this asks for what the code dereferences and asserts.
   */
  predicate Enabled(cfg: Config, s: State, t: nat, ch: Choice)
    requires cfg.pageSize > 0
  {
    && t < |s.threads|
    && |s.central| == |cfg.classes|
    && match s.threads[t]
       case Idle =>
         (match ch
          case Insert(cl, chain) => InsertEnabled(cfg, s, cl, chain)
          case Remove(cl, n) => IsClass(cfg, cl) && n > 0
          case _ => false)
       case Waiting(d) => ch == NoChoice && LockOf(d) !in s.locks
       case Carving(cl, _, id) => ch == NoChoice && IsClass(cfg, cl) && id in s.spans
       case Running(d) =>
         (match d
          case InsertBody(cl, _) => ch == NoChoice && IsClass(cfg, cl)
          case TryEvict(cl, _, _) => ch.Victim? && ch.v < |cfg.classes| && IsClass(cfg, cl)
          case ShrinkBody(cl, _, v, _) =>
            ch == NoChoice && IsClass(cfg, cl) && v < |cfg.classes| && |s.central[v].slots| <= s.central[v].cacheSize
          case AfterShrink(cl, _, _, _) => ch == NoChoice && IsClass(cfg, cl)
          case ReleaseList(c, rest, _) =>
            ch == NoChoice && IsClass(cfg, c) && (rest != [] ==> ReleaseEnabled(cfg, s, c, rest[0]))
          case DeleteSpan(c, id, _, _) => ch == NoChoice && id in s.spans
          case RemoveBody(cl, _) => ch == NoChoice && IsClass(cfg, cl)
          case AllocSpan(cl, _) =>
            ch.Pages? && IsClass(cfg, cl) && (ch.start.Some? ==> FreshPages(s.pagemap, ch.start.value, cfg.classes[cl].pages))
          case AddSpan(cl, _, sp) => ch == NoChoice && IsClass(cfg, cl) && (sp.Some? ==> sp.value in s.spans)
          case Fetch(cl, n, acc, _) =>
            && ch == NoChoice && IsClass(cfg, cl) && |acc| <= n
            && (s.central[cl].nonempty != [] ==>
                  s.central[cl].nonempty[0] in s.spans && s.spans[s.central[cl].nonempty[0]].objects != []))
  }

  /** ASSERT(span != NULL) and ASSERT(span->refcount > 0), and the span is of this class. */
  predicate ReleaseEnabled(cfg: Config, s: State, c: nat, o: Addr)
    requires cfg.pageSize > 0
  {
    var p := PageOf(cfg, o);
    && p in s.pagemap && s.pagemap[p] in s.spans
    && s.spans[s.pagemap[p]].sizeclass == c
    && s.spans[s.pagemap[p]].refcount > 0
  }

  /** The state after thread `t`'s step. */
  ghost function Next(cfg: Config, s: State, t: nat, ch: Choice): State
    requires ValidConfig(cfg)
    requires Enabled(cfg, s, t, ch)
  {
    match s.threads[t]
    case Idle =>
      (match ch
       case Insert(cl, chain) =>
         Goto(s.(out := s.out - (set a | a in chain)), t, Waiting(InsertBody(cl, chain)))
       case Remove(cl, n) => Goto(s, t, Waiting(RemoveBody(cl, n))))
    case Waiting(d) => Goto(s.(locks := s.locks[LockOf(d) := t]), t, Running(d))
    case Carving(cl, n, id) =>
      Goto(s.(spans := s.spans[id := s.spans[id].(objects := Carved(cfg, id, cl), refcount := 0)]),
           t, Waiting(AddSpan(cl, n, Some(id))))
    case Running(d) =>
      (match d
       case InsertBody(cl, chain) => NextInsert(cfg, s, t, cl, chain)
       case TryEvict(cl, chain, force) => NextTryEvict(s, t, cl, chain, force, ch.v, ch.quickCheckPasses)
       case ShrinkBody(cl, chain, v, force) => NextShrink(s, t, cl, chain, v, force)
       case AfterShrink(cl, chain, force, ok) => NextAfterShrink(cfg, s, t, cl, chain, force, ok)
       case ReleaseList(c, rest, k) =>
         if rest == [] then
           UnlockGoto(s, t, ClassLock(c),
                      match k
                      case Return => Idle
                      case Resume(cl, chain) => Waiting(AfterShrink(cl, chain, true, true)))
         else NextRelease(cfg, s, t, c, rest, k)
       case DeleteSpan(c, id, rest, k) =>
         UnlockGoto(DropSpan(s, id), t, PageHeapLock, Waiting(ReleaseList(c, rest, k)))
       case RemoveBody(cl, n) => NextRemove(cfg, s, t, cl, n)
       case AllocSpan(cl, n) =>
         (match ch.start
          case None => UnlockGoto(s, t, PageHeapLock, Waiting(AddSpan(cl, n, None)))
          case Some(start) =>
            UnlockGoto(NewSpan(cfg, s, cl, start), t, PageHeapLock, Carving(cl, n, start)))
       case AddSpan(cl, n, sp) =>
         (match sp
          case None => Goto(s, t, Running(Fetch(cl, n, [], true)))
          case Some(id) =>
            var x := s.central[cl];
            Goto(SetCentral(s, cl, x.(nonempty := [id] + x.nonempty, numSpans := x.numSpans + 1,
                                      counter := x.counter + |s.spans[id].objects|)),
                 t, Running(Fetch(cl, n, [], false))))
       case Fetch(cl, n, acc, failed) =>
         if |acc| == n || s.central[cl].nonempty == [] then
           UnlockGoto(s.(out := s.out + (set a | a in acc)), t, ClassLock(cl), Idle)
         else NextFetch(s, t, cl, n, acc, failed))
  }

  /** InsertRange up to the point where MakeCacheSpace looks for a victim. */
  function NextInsert(cfg: Config, s: State, t: nat, cl: nat, chain: Chain): State
    requires ValidConfig(cfg) && t < |s.threads| && IsClass(cfg, cl) && |s.central| == |cfg.classes|
  {
    var x := s.central[cl];
    if |chain| == cfg.classes[cl].batch then
      if |x.slots| < x.cacheSize then PushSlot(s, t, cl, chain, x.cacheSize)
      else if x.cacheSize == x.maxCacheSize then Goto(s, t, Running(ReleaseList(cl, chain, Return)))
      else Goto(s, t, Running(TryEvict(cl, chain, false)))
    else Goto(s, t, Running(ReleaseList(cl, chain, Return)))
  }

  /** What MakeCacheSpace does when an EvictRandomSizeClass call has returned false. */
  function EvictFailed(s: State, t: nat, cl: nat, chain: Chain, force: bool): State
    requires t < |s.threads|
  {
    if force then Goto(s, t, Running(ReleaseList(cl, chain, Return)))
    else Goto(s, t, Running(TryEvict(cl, chain, true)))
  }

  /**
   EvictRandomSizeClass up to the LockInverter.  The quick check reads two fields of the
   victim without its lock, in three separate loads, so it may come out either way.
   */
  function NextTryEvict(s: State, t: nat, cl: nat, chain: Chain, force: bool, v: nat, quickCheckPasses: bool): State
    requires t < |s.threads|
  {
    if v == cl || !quickCheckPasses then EvictFailed(s, t, cl, chain, force)
    else UnlockGoto(s, t, ClassLock(cl), Waiting(ShrinkBody(cl, chain, v, force)))
  }

  /** ShrinkCache under the victim's lock. */
  function NextShrink(s: State, t: nat, cl: nat, chain: Chain, v: nat, force: bool): State
    requires t < |s.threads| && v < |s.central| && |s.central[v].slots| <= s.central[v].cacheSize
  {
    var x := s.central[v];
    if x.cacheSize == 0 || (|x.slots| == x.cacheSize && !force) then
      UnlockGoto(s, t, ClassLock(v), Waiting(AfterShrink(cl, chain, force, false)))
    else if |x.slots| == x.cacheSize then
      var top := |x.slots| - 1;
      Goto(SetCentral(s, v, x.(cacheSize := x.cacheSize - 1, slots := x.slots[..top])),
           t, Running(ReleaseList(v, x.slots[top], Resume(cl, chain))))
    else
      UnlockGoto(SetCentral(s, v, x.(cacheSize := x.cacheSize - 1)), t, ClassLock(v),
                 Waiting(AfterShrink(cl, chain, force, true)))
  }

  /** MakeCacheSpace, and InsertRange after it, once the class's own lock is back. */
  function NextAfterShrink(cfg: Config, s: State, t: nat, cl: nat, chain: Chain, force: bool, ok: bool): State
    requires ValidConfig(cfg) && t < |s.threads| && IsClass(cfg, cl) && |s.central| == |cfg.classes|
  {
    var x := s.central[cl];
    if !ok then EvictFailed(s, t, cl, chain, force)
    else if x.cacheSize < x.maxCacheSize then PushSlot(s, t, cl, chain, x.cacheSize + 1)
    else Goto(s, t, Running(ReleaseList(cl, chain, Return)))
  }

  /** ReleaseToSpans on the first object of `rest`. */
  function NextRelease(cfg: Config, s: State, t: nat, c: nat, rest: Chain, k: Cont): State
    requires ValidConfig(cfg) && t < |s.threads| && IsClass(cfg, c) && |s.central| == |cfg.classes|
    requires rest != [] && ReleaseEnabled(cfg, s, c, rest[0])
  {
    var o := rest[0];
    var id := s.pagemap[PageOf(cfg, o)];
    var sp := s.spans[id];
    var x := s.central[c];
    var y := if sp.objects == [] then x.(empty := Unlink(x.empty, id), nonempty := [id] + Unlink(x.nonempty, id)) else x;
    if sp.refcount == 1 then
      UnlockGoto(SetCentral(s.(spans := s.spans[id := sp.(refcount := 0)]), c,
                            y.(nonempty := Unlink(y.nonempty, id), empty := Unlink(y.empty, id),
                               numSpans := y.numSpans - 1, counter := y.counter + 1 - ObjectsPerSpan(cfg, c))),
                 t, ClassLock(c), Waiting(DeleteSpan(c, id, rest[1..], k)))
    else
      Goto(SetCentral(s.(spans := s.spans[id := sp.(refcount := sp.refcount - 1, objects := [o] + sp.objects)]), c,
                      y.(counter := y.counter + 1)),
           t, Running(ReleaseList(c, rest[1..], k)))
  }

  /** PageHeap::Delete: the span and its pages are gone. */
  function DropSpan(s: State, id: nat): State
    requires id in s.spans
  {
    s.(spans := s.spans - {id},
       pagemap := map p | p in s.pagemap && s.pagemap[p] != id :: s.pagemap[p])
  }

  /** PageHeap::New and RegisterSizeClass: every page of the span leads to it. */
  function NewSpan(cfg: Config, s: State, cl: nat, start: nat): State
    requires IsClass(cfg, cl)
  {
    var pages := cfg.classes[cl].pages;
    s.(spans := s.spans[start := Span(pages, cl, [], 0)],
       pagemap := Register(s.pagemap, start, pages))
  }

  /** The page map with `length` pages from `start` on set to the span that starts there. */
  function Register(pagemap: map<nat, nat>, start: nat, length: nat): (r: map<nat, nat>)
    ensures forall p :: p in r <==> p in pagemap || start <= p < start + length
    ensures forall p :: p in r ==> r[p] == if start <= p < start + length then start else pagemap[p]
  {
    if length == 0 then pagemap
    else Register(pagemap, start, length - 1)[start + length - 1 := start]
  }

  /** RemoveRange up to its first FetchFromOneSpans. */
  function NextRemove(cfg: Config, s: State, t: nat, cl: nat, n: nat): State
    requires t < |s.threads| && IsClass(cfg, cl) && |s.central| == |cfg.classes|
  {
    var x := s.central[cl];
    if n == cfg.classes[cl].batch && |x.slots| > 0 then
      var top := |x.slots| - 1;
      var chain := x.slots[top];
      UnlockGoto(SetCentral(s.(out := s.out + (set a | a in chain)), cl, x.(slots := x.slots[..top])),
                 t, ClassLock(cl), Idle)
    else if x.nonempty == [] then UnlockGoto(s, t, ClassLock(cl), Waiting(AllocSpan(cl, n)))
    else Goto(s, t, Running(Fetch(cl, n, [], false)))
  }

  /** One FetchFromOneSpans on a non-empty list, with the chain pushed on what was fetched so far. */
  function NextFetch(s: State, t: nat, cl: nat, n: nat, acc: Chain, failed: bool): State
    requires t < |s.threads| && cl < |s.central| && |acc| <= n
    requires s.central[cl].nonempty != [] && s.central[cl].nonempty[0] in s.spans
  {
    var x := s.central[cl];
    var id := x.nonempty[0];
    var sp := s.spans[id];
    var take := if n - |acc| < |sp.objects| then n - |acc| else |sp.objects|;
    var y := if take == |sp.objects|
             then x.(nonempty := Unlink(x.nonempty, id), empty := [id] + Unlink(x.empty, id)) else x;
    Goto(SetCentral(s.(spans := s.spans[id := sp.(objects := sp.objects[take..], refcount := sp.refcount + take)]),
                    cl, y.(counter := y.counter - take)),
         t, Running(Fetch(cl, n, sp.objects[..take] + acc, failed)))
  }

  // ----- runs

  /** CentralFreeList::Init for every class, no spans, every thread idle. */
  ghost predicate Init(cfg: Config, s: State) {
    && ValidConfig(cfg)
    && |s.central| == |cfg.classes|
    && (forall c :: 0 <= c < |s.central| ==> s.central[c] == InitCentral(cfg, c))
    && s.locks == map[] && s.spans == map[] && s.pagemap == map[] && s.out == {}
    && (forall t :: 0 <= t < |s.threads| ==> s.threads[t] == Idle)
  }

  function InitCentral(cfg: Config, c: nat): Central
    requires ValidConfig(cfg) && c < |cfg.classes|
  {
    var m := MaxCacheSize(cfg, c);
    Central([], [], 0, 0, [], if INITIAL_CACHE_SIZE < m then INITIAL_CACHE_SIZE else m, m)
  }

  ghost predicate StepTo(cfg: Config, s: State, s': State)
    requires ValidConfig(cfg)
  {
    exists t, ch :: Enabled(cfg, s, t, ch) && s' == Next(cfg, s, t, ch)
  }

  /** A finite run of the machine from an initial state. */
  ghost predicate Run(cfg: Config, run: seq<State>) {
    && |run| > 0
    && Init(cfg, run[0])
    && forall i :: 0 <= i < |run| - 1 ==> StepTo(cfg, run[i], run[i + 1])
  }
}
