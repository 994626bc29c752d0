/** Steps that move objects between a span's free list and the thread that holds its class's lock. */
module CentralObjects {
  import opened Base
  import opened CentralFreeList
  import opened CentralInvariant
  import opened CentralLemmas
  import opened CentralControl
  import opened CentralCache

  /** Another object list and reference count for the same span. */
  ghost predicate SameSpan(sp: Span, sp': Span) {
    sp'.length == sp.length && sp'.sizeclass == sp.sizeclass
  }

  ghost predicate SameMembers(x: Central, y: Central) {
    && (forall id :: OnLists(y, id) <==> OnLists(x, id))
    && y.slots == x.slots && y.cacheSize == x.cacheSize && y.maxCacheSize == x.maxCacheSize
  }

  lemma SpanChangeKeepsSpans(cfg: Config, s: State, keeper: Keepers, id: nat, sp: Span)
    requires ValidConfig(cfg) && id in s.spans && SameSpan(s.spans[id], sp)
    requires SpansOK(cfg, s.spans, keeper) && PageMapOK(s.spans, s.pagemap) && SpanOK(cfg, id, sp, keeper[id])
    ensures SpansOK(cfg, s.spans[id := sp], keeper)
    ensures PageMapOK(s.spans[id := sp], s.pagemap)
  {
    hide SpanOK;
    assert s.spans[id := sp].Keys == s.spans.Keys;
  }

  lemma SpanChangeKeepsListed(s: State, keeper: Keepers, c: nat, y: Central, id: nat, sp: Span)
    requires id in s.spans && c < |s.central| && SameSpan(s.spans[id], sp) && SameMembers(s.central[c], y)
    requires ListedOK(s.central, s.spans, keeper)
    ensures ListedOK(s.central[c := y], s.spans[id := sp], keeper)
  {
    var central' := s.central[c := y];
    assert forall e, i :: 0 <= e < |s.central| ==> (OnLists(central'[e], i) <==> OnLists(s.central[e], i));
    hide OnLists;
  }

  lemma SpanChangeKeepsObjects(cfg: Config, spans: Spans, pagemap: PageMap, b: Book, id: nat, sp: Span)
    requires ValidConfig(cfg) && id in spans && SameSpan(spans[id], sp) && ObjectsOK(cfg, spans, pagemap, b)
    ensures ObjectsOK(cfg, spans[id := sp], pagemap, b)
  {
    assert forall a :: IsLiveObject(cfg, spans[id := sp], pagemap, b.keeper, a) == IsLiveObject(cfg, spans, pagemap, b.keeper, a);
  }

  lemma SpanChangeKeepsCentrals(cfg: Config, s: State, keeper: Keepers, c: nat, y: Central, id: nat, sp: Span)
    requires ValidConfig(cfg) && id in s.spans && c < |s.central| && SameMembers(s.central[c], y)
    requires ListedOK(s.central, s.spans, keeper) && CentralsOK(cfg, s.spans, s.central) && s.spans[id].sizeclass == c
    requires CountersOK(cfg, s.spans[id := sp], c, y)
    ensures CentralsOK(cfg, s.spans[id := sp], s.central[c := y])
  {
    forall e | 0 <= e < |s.central| && e != c ensures CountersOK(cfg, s.spans[id := sp], e, s.central[e]) {
      var x := s.central[e];
      assert CountersOK(cfg, s.spans, e, x);
      assert id !in x.nonempty && id !in x.empty by {
        assert !OnLists(x, id);
      }
      FreeObjectsUpdate(s.spans, x.nonempty, id, sp);
    }
    assert CacheOK(cfg, c, s.central[c]);
  }

  lemma ClassesKept(cfg: Config, spans: Spans, pagemap: PageMap, id: nat, sp: Span)
    requires cfg.pageSize > 0 && id in spans && SameSpan(spans[id], sp)
    ensures forall a :: ClassOfObject(cfg, spans[id := sp], pagemap, a) == ClassOfObject(cfg, spans, pagemap, a)
  {
  }

  lemma SpanChangeKeepsThreads(cfg: Config, s: State, keeper: Keepers, id: nat, sp: Span)
    requires ValidConfig(cfg) && id in s.spans && SameSpan(s.spans[id], sp)
    requires ThreadsOK(cfg, s.spans, s.pagemap, s.threads) && SlotsOK(cfg, s.spans, s.pagemap, s.central) && HeldOK(s.threads, keeper)
    requires id in keeper && keeper[id].Listed?
    ensures ThreadsOK(cfg, s.spans[id := sp], s.pagemap, s.threads)
    ensures SlotsOK(cfg, s.spans[id := sp], s.pagemap, s.central)
  {
    ClassesKept(cfg, s.spans, s.pagemap, id, sp);
    forall t | 0 <= t < |s.threads| ensures ThreadOK(cfg, s.spans[id := sp], s.pagemap, s.threads[t]) {
      var th := s.threads[t];
      assert ThreadOK(cfg, s.spans, s.pagemap, th);
      assert Held(th, t).Some? ==> keeper[Held(th, t).value.0] == Held(th, t).value.1;
      ThreadFrame(cfg, s.spans, s.pagemap, s.spans[id := sp], s.pagemap, th);
    }
  }

  lemma SlotsKept(cfg: Config, spans: Spans, pagemap: PageMap, central: seq<Central>, c: nat, y: Central)
    requires cfg.pageSize > 0 && c < |central| && SlotsOK(cfg, spans, pagemap, central) && y.slots == central[c].slots
    ensures SlotsOK(cfg, spans, pagemap, central[c := y])
  {
  }

  lemma SpanChangeKeepsRefcounts(s: State, keeper: Keepers, t: nat, th: Thread, c: nat, y: Central, id: nat, sp: Span)
    requires LocksOK(s.threads, s.locks) && RefcountsOK(s.central, s.spans, s.threads, s.locks)
    requires ListedOK(s.central, s.spans, keeper)
    requires t < |s.threads| && s.threads[t].Running? && LockOf(s.threads[t].todo) == ClassLock(c)
    requires c < |s.central| && SameMembers(s.central[c], y) && id in s.spans
    requires AboutToFetch(s.threads[t], c) ==> s.central[c].nonempty[..1] == [id]
    requires sp.refcount > 0 && forall e :: 0 <= e < |s.central| ==> !AboutToFetch(th, e)
    ensures RefcountsOK(s.central[c := y], s.spans[id := sp], s.threads[t := th], s.locks)
  {
    var central', spans', threads' := s.central[c := y], s.spans[id := sp], s.threads[t := th];
    forall e, i | 0 <= e < |central'| && OnLists(central'[e], i) && i in spans' && spans'[i].refcount <= 0
      ensures FreshFirst(central', threads', s.locks, e, i)
    {
      assert OnLists(s.central[e], i) && i != id;
      assert FreshFirst(s.central, s.threads, s.locks, e, i);
      assert e != c;
    }
    forall u, e | 0 <= u < |threads'| && 0 <= e < |central'| && AboutToFetch(threads'[u], e) ensures central'[e].nonempty != [] {
      assert u != t && AboutToFetch(s.threads[u], e);
      assert e != c;
    }
  }

  /** A step that moves objects `xs` between a listed span and the thread that holds its class's lock. */
  lemma ObjectStep(cfg: Config, s: State, b: Book, s': State, t: nat, th: Thread, c: nat, y: Central, id: nat, sp: Span,
                   xs: Chain, p: Place, q: Place)
    requires ValidConfig(cfg) && Inv(cfg, s, b) && t < |s.threads| && c < |s.central| && id in s.spans
    requires s' == State(s.central[c := y], s.locks, s.spans[id := sp], s.pagemap, s.threads[t := th], s.out)
    requires s.threads[t].Running? && th.Running? && LockOf(th.todo) == LockOf(s.threads[t].todo) == ClassLock(c)
    requires AboutToFetch(s.threads[t], c) ==> s.central[c].nonempty[..1] == [id]
    requires forall e :: 0 <= e < |s.central| ==> !AboutToFetch(th, e)
    requires Held(th, t).None? && ThreadOK(cfg, s.spans, s.pagemap, th) && Unspent(th) <= Unspent(s.threads[t])
    requires SameSpan(s.spans[id], sp) && s.spans[id].sizeclass == c && sp.refcount > 0
    requires id in b.keeper && b.keeper[id].Listed? && SpanOK(cfg, id, sp, Listed)
    requires SameMembers(s.central[c], y) && CountersOK(cfg, s.spans[id := sp], c, y)
    requires Shifted(s, s', b.keeper, xs, p, q)
    ensures Inv(cfg, s', Relocate(b, xs, q))
  {
    hide LocksOK, PlacesOK, ObjectsOK, SpansOK, PageMapOK, ListedOK, HeldOK, CentralsOK, ThreadsOK, SlotsOK, RefcountsOK, BudgetOK;
    hide SpanOK, CountersOK, Shifted, MovedTo, FreshFirst;
    ShiftMoves(s, s', b, xs, p, q);
    RelocatePlaces(s, s', b, xs, q);
    StayKeepsLocks(s.threads, s.locks, t, th);
    SpanChangeKeepsObjects(cfg, s.spans, s.pagemap, b, id, sp);
    RelocateObjects(cfg, s'.spans, s.pagemap, b, xs, q);
    SpanChangeKeepsSpans(cfg, s, b.keeper, id, sp);
    SpanChangeKeepsListed(s, b.keeper, c, y, id, sp);
    SpanChangeKeepsCentrals(cfg, s, b.keeper, c, y, id, sp);
    SpanChangeKeepsRefcounts(s, b.keeper, t, th, c, y, id, sp);
    SpanChangeKeepsThreads(cfg, s, b.keeper, id, sp);
    SlotsKept(cfg, s'.spans, s.pagemap, s.central, c, y);
    ClassesKept(cfg, s.spans, s.pagemap, id, sp);
    ThreadFrame(cfg, s.spans, s.pagemap, s'.spans, s.pagemap, th);
    ThreadsUpdate(cfg, s'.spans, s.pagemap, s.threads, t, th);
    HeldUpdate(s.threads, b.keeper, t, th);
    BudgetUpdate(cfg, s.central, s.threads, c, y, t, th);
  }

  // ----- FetchFromOneSpans

  /** How many objects one FetchFromOneSpans takes. */
  function Take(n: nat, acc: Chain, sp: Span): nat
    requires |acc| <= n
  {
    if n - |acc| < |sp.objects| then n - |acc| else |sp.objects|
  }

  ghost function FetchedSpan(n: nat, acc: Chain, sp: Span): Span
    requires |acc| <= n
  {
    var take := Take(n, acc, sp);
    sp.(objects := sp.objects[take..], refcount := sp.refcount + take)
  }

  ghost function FetchedCentral(n: nat, acc: Chain, id: nat, sp: Span, x: Central): Central
    requires |acc| <= n
  {
    var take := Take(n, acc, sp);
    var y := if take == |sp.objects|
             then x.(nonempty := Unlink(x.nonempty, id), empty := [id] + Unlink(x.empty, id)) else x;
    y.(counter := y.counter - take)
  }

  lemma SuffixNoDup<T>(s: seq<T>, k: nat)
    requires NoDup(s) && k <= |s|
    ensures NoDup(s[..k]) && NoDup(s[k..])
    ensures forall a :: a in s[..k] <==> a in s && a !in s[k..]
    ensures forall a :: a in s[k..] <==> a in s && a !in s[..k]
  {
    assert s == s[..k] + s[k..];
    forall a | a in s[..k] ensures a !in s[k..] {
      var i :| 0 <= i < k && s[..k][i] == a;
      assert s[i] == a;
    }
  }

  lemma FetchedSpanOK(cfg: Config, id: nat, sp: Span, n: nat, acc: Chain)
    requires ValidConfig(cfg) && SpanOK(cfg, id, sp, Listed) && |acc| <= n
    ensures SpanOK(cfg, id, FetchedSpan(n, acc, sp), Listed)
  {
    hide Carved, ObjectsPerSpan;
    SuffixNoDup(sp.objects, Take(n, acc, sp));
  }

  lemma FetchedCentralOK(cfg: Config, spans: Spans, c: nat, x: Central, id: nat, n: nat, acc: Chain)
    requires CountersOK(cfg, spans, c, x) && id in spans && x.nonempty != [] && x.nonempty[0] == id && |acc| <= n
    ensures var y := FetchedCentral(n, acc, id, spans[id], x);
            SameMembers(x, y) && CountersOK(cfg, spans[id := FetchedSpan(n, acc, spans[id])], c, y)
  {
    var sp := FetchedSpan(n, acc, spans[id]);
    UnlinkFacts(x.nonempty, id);
    UnlinkFacts(x.empty, id);
    assert id in x.nonempty && id !in x.empty;
    FreeObjectsUpdate(spans, x.nonempty, id, sp);
    FreeObjectsUnlink(spans[id := sp], x.nonempty, id);
    NoDupCons(id, Unlink(x.empty, id));
  }

  lemma FetchedThreadOK(cfg: Config, s: State, b: Book, t: nat, cl: nat, n: nat, acc: Chain, failed: bool, id: nat)
    requires ValidConfig(cfg) && PlacesOK(s, b) && PageMapOK(s.spans, s.pagemap)
    requires t < |s.threads| && s.threads[t] == Running(Fetch(cl, n, acc, failed)) && ThreadOK(cfg, s.spans, s.pagemap, s.threads[t])
    requires id in s.spans && s.spans[id].sizeclass == cl && id in b.keeper && b.keeper[id].Listed?
    requires SpanOK(cfg, id, s.spans[id], Listed) && |acc| < n && s.spans[id].objects != []
    ensures |acc| < |s.spans[id].objects[..Take(n, acc, s.spans[id])] + acc| <= n
    ensures ThreadOK(cfg, s.spans, s.pagemap, Running(Fetch(cl, n, s.spans[id].objects[..Take(n, acc, s.spans[id])] + acc, failed)))
  {
    var got := s.spans[id].objects[..Take(n, acc, s.spans[id])];
    SuffixNoDup(s.spans[id].objects, Take(n, acc, s.spans[id]));
    forall a | a in got ensures a !in acc && ClassOfObject(cfg, s.spans, s.pagemap, a) == Some(cl) {
      assert At(s, b.keeper, a, OnSpan(id));
      assert a in acc ==> At(s, b.keeper, a, InFlight(t));
      CarvedPage(cfg, id, cl, a);
    }
    NoDupConcat(got, acc);
    assert Flight(Running(Fetch(cl, n, got + acc, failed))) == got + acc;
  }

  lemma FetchShifts(s: State, keeper: Keepers, t: nat, cl: nat, n: nat, acc: Chain, failed: bool)
    requires t < |s.threads| && s.threads[t] == Running(Fetch(cl, n, acc, failed)) && |acc| < n
    requires cl < |s.central| && s.central[cl].nonempty != [] && s.central[cl].nonempty[0] in s.spans
    requires var id := s.central[cl].nonempty[0]; id in keeper && keeper[id].Listed? && NoDup(s.spans[id].objects)
    ensures var id := s.central[cl].nonempty[0];
            Shifted(s, NextFetch(s, t, cl, n, acc, failed), keeper, s.spans[id].objects[..Take(n, acc, s.spans[id])],
                    OnSpan(id), InFlight(t))
  {
    var id := s.central[cl].nonempty[0];
    SuffixNoDup(s.spans[id].objects, Take(n, acc, s.spans[id]));
  }

  /** FetchFromOneSpans on a non-empty list. */
  lemma FetchStep(cfg: Config, s: State, b: Book, t: nat, cl: nat, n: nat, acc: Chain, failed: bool)
    requires ValidConfig(cfg) && Inv(cfg, s, b)
    requires t < |s.threads| && s.threads[t] == Running(Fetch(cl, n, acc, failed)) && |acc| < n
    requires cl < |s.central| && s.central[cl].nonempty != [] && s.central[cl].nonempty[0] in s.spans
    ensures var id := s.central[cl].nonempty[0];
            Inv(cfg, NextFetch(s, t, cl, n, acc, failed), Relocate(b, s.spans[id].objects[..Take(n, acc, s.spans[id])], InFlight(t)))
  {
    hide LocksOK, PlacesOK, ObjectsOK, SpansOK, PageMapOK, ListedOK, HeldOK, CentralsOK, ThreadsOK, SlotsOK, RefcountsOK, BudgetOK;
    hide SpanOK, CountersOK, Shifted, SameMembers, ThreadOK;
    var id := s.central[cl].nonempty[0];
    var got := s.spans[id].objects[..Take(n, acc, s.spans[id])];
    Basics(cfg, s, b, t);
    ListBasics(cfg, s, b, cl, id);
    FetchedSpanOK(cfg, id, s.spans[id], n, acc);
    FetchedCentralOK(cfg, s.spans, cl, s.central[cl], id, n, acc);
    FetchedThreadOK(cfg, s, b, t, cl, n, acc, failed, id);
    FetchShifts(s, b.keeper, t, cl, n, acc, failed);
    ObjectStep(cfg, s, b, NextFetch(s, t, cl, n, acc, failed), t, Running(Fetch(cl, n, got + acc, failed)), cl,
               FetchedCentral(n, acc, id, s.spans[id], s.central[cl]), id, FetchedSpan(n, acc, s.spans[id]),
               got, OnSpan(id), InFlight(t));
  }

  /** What the invariant says about a span on the lists of class `c`. */
  lemma ListBasics(cfg: Config, s: State, b: Book, c: nat, id: nat)
    requires ValidConfig(cfg) && Inv(cfg, s, b) && c < |s.central| && OnLists(s.central[c], id)
    ensures id in s.spans && id in b.keeper && b.keeper[id] == Listed && s.spans[id].sizeclass == c
    ensures SpanOK(cfg, id, s.spans[id], Listed) && NoDup(s.spans[id].objects) && CountersOK(cfg, s.spans, c, s.central[c])
    ensures id in s.central[c].nonempty ==> s.spans[id].objects != []
  {
  }
}
