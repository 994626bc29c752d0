/** What a class lock protects: while one thread holds it, no other thread's step touches the class. */
module CentralIsolation {
  import opened Base
  import opened CentralFreeList
  import opened CentralInvariant
  import opened CentralLemmas
  import opened CentralObjects
  import opened CentralRelease
  import opened CentralSpans

  /** A step of thread u from s to s' has left class c its fields and listed spans, and the other threads their locks and doings. */
  ghost predicate ClassKept(s: State, s': State, c: nat, u: nat) {
    && c < |s.central| == |s'.central| && s'.central[c] == s.central[c]
    && |s.threads| == |s'.threads| && (forall t :: 0 <= t < |s.threads| && t != u ==> s'.threads[t] == s.threads[t])
    && (forall l :: l in s.locks && s.locks[l] != u ==> l in s'.locks && s'.locks[l] == s.locks[l])
    && forall id :: OnLists(s.central[c], id) && id in s.spans ==> id in s'.spans && s'.spans[id] == s.spans[id]
  }

  /** Thread u does not hold the lock of class c. */
  ghost predicate Stranger(s: State, c: nat, u: nat) {
    c < |s.central| && u < |s.threads| && (ClassLock(c) in s.locks ==> s.locks[ClassLock(c)] != u)
  }

  ghost predicate Holds(s: State, u: nat, l: Lock) {
    l in s.locks && s.locks[l] == u
  }

  /** A span that another class or a single thread looks after is not on this class's lists. */
  lemma OtherSpan(cfg: Config, s: State, b: Book, c: nat, id: nat)
    requires ValidConfig(cfg) && Inv(cfg, s, b) && c < |s.central| && id in s.spans
    requires s.spans[id].sizeclass != c || (id in b.keeper && b.keeper[id] != Listed)
    ensures !OnLists(s.central[c], id)
  {
    hide Inv;
    if OnLists(s.central[c], id) {
      ListBasics(cfg, s, b, c, id);
    }
  }

  /** Without its lock, no thread's step touches the class, whether another thread holds the lock or nobody does. */
  lemma StrangersLeave(cfg: Config, s: State, b: Book, c: nat, u: nat, ch: Choice)
    requires ValidConfig(cfg) && Inv(cfg, s, b) && Enabled(cfg, s, u, ch) && Stranger(s, c, u)
    ensures ClassKept(s, Next(cfg, s, u, ch), c, u)
  {
    hide Inv, Carved, ObjectsPerSpan, Register, Unlink, ReleaseEnabled, PageOf, FreshPages;
    Basics(cfg, s, b, u);
    match s.threads[u] {
      case Idle =>
      case Waiting(d) =>
      case Carving(cl, n, id) => OtherSpan(cfg, s, b, c, id);
      case Running(d) =>
        assert LockOf(d) != ClassLock(c);
        RunningLeaves(cfg, s, b, c, u, ch);
    }
  }

  /** Mutual exclusion in full: the steps of all other threads leave the class, and the lock, to the lock's owner. */
  lemma LockProtects(cfg: Config, s: State, b: Book, c: nat, t: nat, u: nat, ch: Choice)
    requires ValidConfig(cfg) && Inv(cfg, s, b) && c < |s.central| && u != t
    requires ClassLock(c) in s.locks && s.locks[ClassLock(c)] == t && t < |s.threads| && Enabled(cfg, s, u, ch)
    ensures var s' := Next(cfg, s, u, ch);
            && ClassKept(s, s', c, u)
            && |s'.threads| == |s.threads| && s'.threads[t] == s.threads[t]
            && ClassLock(c) in s'.locks && s'.locks[ClassLock(c)] == t
  {
    hide Inv, Next;
    StrangersLeave(cfg, s, b, c, u, ch);
  }

  lemma RunningLeaves(cfg: Config, s: State, b: Book, c: nat, u: nat, ch: Choice)
    requires ValidConfig(cfg) && Inv(cfg, s, b) && Stranger(s, c, u)
    requires Enabled(cfg, s, u, ch)
    requires s.threads[u].Running? && LockOf(s.threads[u].todo) != ClassLock(c)
    ensures ClassKept(s, Next(cfg, s, u, ch), c, u)
  {
    hide Inv, Carved, ObjectsPerSpan, Register, Unlink, PageOf, FreshPages, NextRelease, NextFetch, ReleaseEnabled, DropSpan;
    hide NextInsert, NextShrink, NextAfterShrink, NextRemove, NextTryEvict;
    Basics(cfg, s, b, u);
    match s.threads[u].todo {
      case ReleaseList(cl, rest, k) => if rest != [] { ReleaseLeaves(cfg, s, b, c, u, cl, rest, k); }
      case DeleteSpan(cl, id, rest, k) => DeleteLeaves(cfg, s, b, c, u, cl, id, rest, k);
      case Fetch(cl, n, acc, failed) =>
        if |acc| != n && s.central[cl].nonempty != [] { FetchLeaves(cfg, s, b, c, u, cl, n, acc, failed); }
      case AllocSpan(cl, n) => if ch.start.Some? { FreshStart(cfg, s, b, c, cl, ch.start.value); }
      case AddSpan(cl, n, sp) =>
      case _ => CacheLeaves(cfg, s, b, c, u, ch);
    }
  }

  /** The stretches that touch nothing but transfer caches. */
  lemma CacheLeaves(cfg: Config, s: State, b: Book, c: nat, u: nat, ch: Choice)
    requires ValidConfig(cfg) && Inv(cfg, s, b) && Stranger(s, c, u) && Enabled(cfg, s, u, ch) && s.threads[u].Running?
    requires var d := s.threads[u].todo; d.InsertBody? || d.TryEvict? || d.ShrinkBody? || d.AfterShrink? || d.RemoveBody?
    ensures ClassKept(s, Next(cfg, s, u, ch), c, u)
  {
    hide Inv, Unlink, NextInsert, NextShrink, NextAfterShrink, NextRemove, NextTryEvict, ClassKept, ReleaseEnabled, FreshPages;
    Basics(cfg, s, b, u);
    match s.threads[u].todo {
      case InsertBody(cl, chain) => InsertLeaves(cfg, s, c, u, cl, chain);
      case TryEvict(cl, chain, force) => EvictLeaves(s, c, u, cl, chain, force, ch.v, ch.quickCheckPasses);
      case ShrinkBody(cl, chain, v, force) => ShrinkLeaves(s, c, u, cl, chain, v, force);
      case AfterShrink(cl, chain, force, ok) => AfterShrinkLeaves(cfg, s, c, u, cl, chain, force, ok);
      case RemoveBody(cl, n) => RemoveLeaves(cfg, s, c, u, cl, n);
    }
  }

  lemma InsertLeaves(cfg: Config, s: State, c: nat, u: nat, cl: nat, chain: Chain)
    requires ValidConfig(cfg) && Stranger(s, c, u) && Holds(s, u, ClassLock(cl)) && IsClass(cfg, cl) && |s.central| == |cfg.classes|
    ensures ClassKept(s, NextInsert(cfg, s, u, cl, chain), c, u)
  {
  }

  lemma EvictLeaves(s: State, c: nat, u: nat, cl: nat, chain: Chain, force: bool, v: nat, pass: bool)
    requires Stranger(s, c, u) && Holds(s, u, ClassLock(cl))
    ensures ClassKept(s, NextTryEvict(s, u, cl, chain, force, v, pass), c, u)
  {
  }

  lemma ShrinkLeaves(s: State, c: nat, u: nat, cl: nat, chain: Chain, v: nat, force: bool)
    requires Stranger(s, c, u) && Holds(s, u, ClassLock(v)) && v < |s.central| && |s.central[v].slots| <= s.central[v].cacheSize
    ensures ClassKept(s, NextShrink(s, u, cl, chain, v, force), c, u)
  {
  }

  lemma AfterShrinkLeaves(cfg: Config, s: State, c: nat, u: nat, cl: nat, chain: Chain, force: bool, ok: bool)
    requires ValidConfig(cfg) && Stranger(s, c, u) && Holds(s, u, ClassLock(cl)) && IsClass(cfg, cl) && |s.central| == |cfg.classes|
    ensures ClassKept(s, NextAfterShrink(cfg, s, u, cl, chain, force, ok), c, u)
  {
  }

  lemma RemoveLeaves(cfg: Config, s: State, c: nat, u: nat, cl: nat, n: nat)
    requires ValidConfig(cfg) && Stranger(s, c, u) && Holds(s, u, ClassLock(cl)) && IsClass(cfg, cl) && |s.central| == |cfg.classes|
    ensures ClassKept(s, NextRemove(cfg, s, u, cl, n), c, u)
  {
  }

  lemma DeleteLeaves(cfg: Config, s: State, b: Book, c: nat, u: nat, cl: nat, id: nat, rest: Chain, k: Cont)
    requires ValidConfig(cfg) && Inv(cfg, s, b) && Stranger(s, c, u)
    requires s.threads[u] == Running(DeleteSpan(cl, id, rest, k)) && id in s.spans
    ensures ClassKept(s, UnlockGoto(DropSpan(s, id), u, PageHeapLock, Waiting(ReleaseList(cl, rest, k))), c, u)
  {
    hide Inv;
    Basics(cfg, s, b, u);
    OtherSpan(cfg, s, b, c, id);
  }

  lemma ReleaseLeaves(cfg: Config, s: State, b: Book, c: nat, u: nat, cl: nat, rest: Chain, k: Cont)
    requires ValidConfig(cfg) && Inv(cfg, s, b) && Stranger(s, c, u) && Holds(s, u, ClassLock(cl))
    requires u < |s.threads| && s.threads[u] == Running(ReleaseList(cl, rest, k)) && rest != []
    ensures |s.central| == |cfg.classes| && IsClass(cfg, cl) && ReleaseEnabled(cfg, s, cl, rest[0])
    ensures ClassKept(s, NextRelease(cfg, s, u, cl, rest, k), c, u)
  {
    hide Inv, Carved, ObjectsPerSpan, Unlink, PageOf, SpanOK, CountersOK;
    ReleasedObject(cfg, s, b, u, cl, rest, k);
    OtherSpan(cfg, s, b, c, s.pagemap[PageOf(cfg, rest[0])]);
  }

  lemma FetchLeaves(cfg: Config, s: State, b: Book, c: nat, u: nat, cl: nat, n: nat, acc: Chain, failed: bool)
    requires ValidConfig(cfg) && Inv(cfg, s, b) && Stranger(s, c, u) && Holds(s, u, ClassLock(cl))
    requires u < |s.threads| && cl < |s.central| && |acc| <= n && s.central[cl].nonempty != [] && s.central[cl].nonempty[0] in s.spans
    ensures ClassKept(s, NextFetch(s, u, cl, n, acc, failed), c, u)
  {
    hide Inv, Carved, ObjectsPerSpan, Unlink, SpanOK, CountersOK;
    var id := s.central[cl].nonempty[0];
    assert OnLists(s.central[cl], id);
    ListBasics(cfg, s, b, cl, id);
    OtherSpan(cfg, s, b, c, id);
  }

  /** Pages that the page heap hands out do not start a span that is listed. */
  lemma FreshStart(cfg: Config, s: State, b: Book, c: nat, cl: nat, start: nat)
    requires ValidConfig(cfg) && Inv(cfg, s, b) && c < |s.central| && IsClass(cfg, cl)
    requires FreshPages(s.pagemap, start, cfg.classes[cl].pages)
    ensures !OnLists(s.central[c], start)
  {
    hide LocksOK, PlacesOK, ObjectsOK, SpansOK, PageMapOK, ListedOK, HeldOK, CentralsOK, ThreadsOK, SlotsOK, RefcountsOK,
         BudgetOK, FreshPages, SpanOK, CountersOK;
    StartIsFresh(cfg, s, b.keeper, cl, start);
    if OnLists(s.central[c], start) {
      ListBasics(cfg, s, b, c, start);
    }
  }
}
