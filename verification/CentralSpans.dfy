/** The life of a span: allocated, carved, listed, and given back. */
module CentralSpans {
  import opened Base
  import opened CentralFreeList
  import opened CentralInvariant
  import opened CentralLemmas
  import opened CentralControl
  import opened CentralCache
  import opened CentralObjects

  // ----- PageHeap::Delete

  ghost function Forget(b: Book, id: nat): Book {
    Book(b.loc, b.keeper - {id})
  }

  lemma DropPlaces(s: State, s': State, b: Book, t: nat, id: nat)
    requires PlacesOK(s, b) && id in s.spans && id in b.keeper && !Live(b.keeper[id]) && t < |s.threads|
    requires s' == State(s.central, s'.locks, s.spans - {id}, s'.pagemap, s'.threads, s.out)
    requires |s'.threads| == |s.threads| && forall u :: 0 <= u < |s.threads| ==> Flight(s'.threads[u]) == Flight(s.threads[u])
    ensures PlacesOK(s', Forget(b, id))
  {
    forall a, p ensures At(s', b.keeper - {id}, a, p) <==> At(s, b.keeper, a, p) {
    }
  }

  lemma DropObjects(cfg: Config, s: State, b: Book, id: nat)
    requires ValidConfig(cfg) && ObjectsOK(cfg, s.spans, s.pagemap, b) && id in s.spans && id in b.keeper && !Live(b.keeper[id])
    ensures ObjectsOK(cfg, DropSpan(s, id).spans, DropSpan(s, id).pagemap, Forget(b, id))
  {
    hide Carved;
    var s' := DropSpan(s, id);
    forall a ensures IsLiveObject(cfg, s'.spans, s'.pagemap, b.keeper - {id}, a) == IsLiveObject(cfg, s.spans, s.pagemap, b.keeper, a) {
    }
  }

  lemma DropSpans(cfg: Config, s: State, keeper: Keepers, id: nat)
    requires ValidConfig(cfg) && SpansOK(cfg, s.spans, keeper) && PageMapOK(s.spans, s.pagemap) && id in s.spans
    ensures SpansOK(cfg, DropSpan(s, id).spans, keeper - {id})
    ensures PageMapOK(DropSpan(s, id).spans, DropSpan(s, id).pagemap)
  {
    hide SpanOK;
    assert (keeper - {id}).Keys == (s.spans - {id}).Keys;
    DropPages(s, id);
    hide PageMapOK;
  }

  lemma DropPages(s: State, id: nat)
    requires PageMapOK(s.spans, s.pagemap) && id in s.spans
    ensures PageMapOK(DropSpan(s, id).spans, DropSpan(s, id).pagemap)
  {
    hide PageMapOK;
    var s' := DropSpan(s, id);
    forall e: nat, p: nat | e in s'.spans && e <= p < e + s'.spans[e].length ensures p in s'.pagemap && s'.pagemap[p] == e {
      PageLeads(s.spans, s.pagemap, e, p);
    }
    forall p: nat | p in s'.pagemap
      ensures s'.pagemap[p] in s'.spans && s'.pagemap[p] <= p < s'.pagemap[p] + s'.spans[s'.pagemap[p]].length
    {
      PageLedTo(s.spans, s.pagemap, p);
    }
    PageMapFrom(s'.spans, s'.pagemap);
  }

  lemma DropListed(cfg: Config, s: State, keeper: Keepers, id: nat)
    requires ValidConfig(cfg) && ListedOK(s.central, s.spans, keeper) && CentralsOK(cfg, s.spans, s.central)
    requires id in s.spans && id in keeper && !keeper[id].Listed?
    ensures ListedOK(s.central, s.spans - {id}, keeper - {id})
    ensures CentralsOK(cfg, s.spans - {id}, s.central)
  {
    forall c | 0 <= c < |s.central| ensures CountersOK(cfg, s.spans - {id}, c, s.central[c]) {
      var x := s.central[c];
      assert CountersOK(cfg, s.spans, c, x) && !OnLists(x, id);
      FreeObjectsFrame(s.spans, s.spans - {id}, x.nonempty);
    }
    hide CountersOK;
  }

  /** An object that is somewhere belongs to a live span, so dropping a dead one does not change its class. */
  lemma DropKeepsClass(cfg: Config, s: State, b: Book, id: nat, a: Addr, p: Place)
    requires ValidConfig(cfg) && PlacesOK(s, b) && ObjectsOK(cfg, s.spans, s.pagemap, b)
    requires id in s.spans && id in b.keeper && !Live(b.keeper[id]) && At(s, b.keeper, a, p)
    ensures ClassOfObject(cfg, DropSpan(s, id).spans, DropSpan(s, id).pagemap, a) == ClassOfObject(cfg, s.spans, s.pagemap, a)
  {
    hide Carved;
    assert IsLiveObject(cfg, s.spans, s.pagemap, b.keeper, a);
  }

  lemma DropThreads(cfg: Config, s: State, b: Book, t: nat, id: nat)
    requires ValidConfig(cfg) && PlacesOK(s, b) && ObjectsOK(cfg, s.spans, s.pagemap, b)
    requires ThreadsOK(cfg, s.spans, s.pagemap, s.threads) && SlotsOK(cfg, s.spans, s.pagemap, s.central) && HeldOK(s.threads, b.keeper)
    requires id in s.spans && id in b.keeper && b.keeper[id] == Dying(t)
    ensures ThreadsOK(cfg, DropSpan(s, id).spans, DropSpan(s, id).pagemap, s.threads)
    ensures SlotsOK(cfg, DropSpan(s, id).spans, DropSpan(s, id).pagemap, s.central)
  {
    hide ObjectsOK, ClassOfObject, Carved;
    var s' := DropSpan(s, id);
    forall u | 0 <= u < |s.threads| ensures ThreadOK(cfg, s'.spans, s'.pagemap, s.threads[u]) {
      forall a | a in Flight(s.threads[u])
        ensures ClassOfObject(cfg, s'.spans, s'.pagemap, a) == ClassOfObject(cfg, s.spans, s.pagemap, a)
      {
        DropKeepsClass(cfg, s, b, id, a, InFlight(u));
      }
      assert Held(s.threads[u], u).Some? ==> b.keeper[Held(s.threads[u], u).value.0] == Held(s.threads[u], u).value.1;
      ThreadFrame(cfg, s.spans, s.pagemap, s'.spans, s'.pagemap, s.threads[u]);
    }
    forall c, i | 0 <= c < |s.central| && 0 <= i < |s.central[c].slots|
      ensures ChainOK(cfg, s'.spans, s'.pagemap, s.central[c].slots[i], c)
    {
      forall a | a in s.central[c].slots[i] ensures ClassOfObject(cfg, s'.spans, s'.pagemap, a) == Some(c) {
        DropKeepsClass(cfg, s, b, id, a, InSlot(c, i));
      }
    }
  }

  lemma DropHeld(threads: seq<Thread>, keeper: Keepers, t: nat, id: nat, th: Thread)
    requires HeldOK(threads, keeper) && t < |threads| && id in keeper && keeper[id] == Dying(t) && Held(th, t).None?
    ensures HeldOK(threads[t := th], keeper - {id})
  {
  }

  lemma DropRefcounts(s: State, keeper: Keepers, t: nat, id: nat, th: Thread)
    requires RefcountsOK(s.central, s.spans, s.threads, s.locks) && LocksOK(s.threads, s.locks)
    requires t < |s.threads| && s.threads[t].Running? && LockOf(s.threads[t].todo) == PageHeapLock && NeverAboutToFetch(th)
    ensures RefcountsOK(s.central, s.spans - {id}, s.threads[t := th], s.locks - {PageHeapLock})
  {
  }

  /** PageHeap::Delete under the page heap's lock. */
  lemma DeleteStep(cfg: Config, s: State, b: Book, t: nat, c: nat, id: nat, rest: Chain, k: Cont)
    requires ValidConfig(cfg) && Inv(cfg, s, b)
    requires t < |s.threads| && s.threads[t] == Running(DeleteSpan(c, id, rest, k)) && id in s.spans
    ensures Inv(cfg, UnlockGoto(DropSpan(s, id), t, PageHeapLock, Waiting(ReleaseList(c, rest, k))), Forget(b, id))
  {
    hide LocksOK, PlacesOK, ObjectsOK, SpansOK, PageMapOK, ListedOK, HeldOK, CentralsOK, ThreadsOK, SlotsOK, RefcountsOK, BudgetOK;
    hide ClassOfObject, ThreadOK;
    var th := Waiting(ReleaseList(c, rest, k));
    var s' := UnlockGoto(DropSpan(s, id), t, PageHeapLock, th);
    Basics(cfg, s, b, t);
    UnlockKeepsLocks(s.threads, s.locks, t, th);
    DropPlaces(s, s', b, t, id);
    DropObjects(cfg, s, b, id);
    DropSpans(cfg, s, b.keeper, id);
    DropListed(cfg, s, b.keeper, id);
    DropThreads(cfg, s, b, t, id);
    DeletedThreadOK(cfg, s'.spans, s'.pagemap, s.threads, t, c, id, rest, k);
    ThreadsUpdate(cfg, s'.spans, s'.pagemap, s.threads, t, th);
    DropHeld(s.threads, b.keeper, t, id, th);
    DropRefcounts(s, b.keeper, t, id, th);
    KeepBudget(cfg, s.central, s.threads, t, th);
  }

  lemma DeletedThreadOK(cfg: Config, spans: Spans, pagemap: PageMap, threads: seq<Thread>, t: nat, c: nat, id: nat, rest: Chain, k: Cont)
    requires ValidConfig(cfg) && ThreadsOK(cfg, spans, pagemap, threads) && t < |threads|
    requires threads[t] == Running(DeleteSpan(c, id, rest, k))
    ensures ThreadOK(cfg, spans, pagemap, Waiting(ReleaseList(c, rest, k)))
  {
    assert ThreadOK(cfg, spans, pagemap, threads[t]);
    assert Flight(Waiting(ReleaseList(c, rest, k))) == Flight(threads[t]);
  }

  lemma KeepBudget(cfg: Config, central: seq<Central>, threads: seq<Thread>, t: nat, th: Thread)
    requires ValidConfig(cfg) && BudgetOK(cfg, central, threads) && t < |threads| && Unspent(th) <= Unspent(threads[t])
    ensures BudgetOK(cfg, central, threads[t := th])
  {
    UnspentTotalUpdate(threads, t, th);
  }

  // ----- PageHeap::New

  ghost function Allot(b: Book, t: nat, id: nat): Book {
    Book(b.loc, b.keeper[id := Uncarved(t)])
  }

  lemma SomePages(cfg: Config, cl: nat)
    requires ValidConfig(cfg) && IsClass(cfg, cl)
    ensures cfg.classes[cl].pages > 0
  {
  }

  lemma StartIsFresh(cfg: Config, s: State, keeper: Keepers, cl: nat, start: nat)
    requires ValidConfig(cfg) && IsClass(cfg, cl) && SpansOK(cfg, s.spans, keeper) && PageMapOK(s.spans, s.pagemap)
    requires FreshPages(s.pagemap, start, cfg.classes[cl].pages)
    ensures start !in s.spans
  {
    SomePages(cfg, cl);
    assert start !in s.pagemap;
    if start in s.spans {
      assert SpanOK(cfg, start, s.spans[start], keeper[start]);
      SomePages(cfg, s.spans[start].sizeclass);
      assert false;
    }
  }

  lemma NewPlaces(s: State, s': State, b: Book, t: nat, start: nat)
    requires PlacesOK(s, b) && start !in s.spans && t < |s.threads|
    requires s' == State(s.central, s'.locks, s'.spans, s'.pagemap, s'.threads, s.out)
    requires start in s'.spans && s'.spans == s.spans[start := s'.spans[start]]
    requires |s'.threads| == |s.threads| && forall u :: 0 <= u < |s.threads| ==> Flight(s'.threads[u]) == Flight(s.threads[u])
    ensures PlacesOK(s', Allot(b, t, start))
  {
    var b' := Allot(b, t, start);
    forall a, p ensures At(s', b'.keeper, a, p) <==> At(s, b.keeper, a, p) {
    }
  }

  lemma NewObjects(cfg: Config, s: State, b: Book, t: nat, cl: nat, start: nat)
    requires ValidConfig(cfg) && IsClass(cfg, cl) && ObjectsOK(cfg, s.spans, s.pagemap, b)
    requires start !in s.spans && FreshPages(s.pagemap, start, cfg.classes[cl].pages)
    ensures ObjectsOK(cfg, NewSpan(cfg, s, cl, start).spans, NewSpan(cfg, s, cl, start).pagemap, Allot(b, t, start))
  {
    hide Carved;
    var s' := NewSpan(cfg, s, cl, start);
    forall a ensures IsLiveObject(cfg, s'.spans, s'.pagemap, b.keeper[start := Uncarved(t)], a)
                  == IsLiveObject(cfg, s.spans, s.pagemap, b.keeper, a)
    {
    }
  }

  lemma NewSpans(cfg: Config, s: State, keeper: Keepers, t: nat, cl: nat, start: nat)
    requires ValidConfig(cfg) && IsClass(cfg, cl) && SpansOK(cfg, s.spans, keeper) && PageMapOK(s.spans, s.pagemap)
    requires start !in s.spans && FreshPages(s.pagemap, start, cfg.classes[cl].pages)
    ensures SpansOK(cfg, NewSpan(cfg, s, cl, start).spans, keeper[start := Uncarved(t)])
    ensures PageMapOK(NewSpan(cfg, s, cl, start).spans, NewSpan(cfg, s, cl, start).pagemap)
  {
    hide Carved, ObjectsPerSpan;
    var s' := NewSpan(cfg, s, cl, start);
    assert SpanOK(cfg, start, s'.spans[start], Uncarved(t));
    assert keeper[start := Uncarved(t)].Keys == s'.spans.Keys;
    NewPageMap(s.spans, s.pagemap, start, s'.spans[start]);
  }

  lemma NewPageMap(spans: Spans, pagemap: PageMap, start: nat, sp: Span)
    requires PageMapOK(spans, pagemap) && start !in spans && FreshPages(pagemap, start, sp.length)
    ensures PageMapOK(spans[start := sp], Register(pagemap, start, sp.length))
  {
    hide Register, FreshPages, PageMapOK;
    var pagemap' := Register(pagemap, start, sp.length);
    var spans' := spans[start := sp];
    forall id: nat, p: nat | id in spans' && id <= p < id + spans'[id].length ensures p in pagemap' && pagemap'[p] == id {
      NewPageLeads(spans, pagemap, start, sp, id, p);
    }
    forall p: nat | p in pagemap' ensures pagemap'[p] in spans' && pagemap'[p] <= p < pagemap'[p] + spans'[pagemap'[p]].length {
      NewPageLedTo(spans, pagemap, start, sp, p);
    }
    PageMapFrom(spans', pagemap');
  }

  lemma PageMapFrom(spans: Spans, pagemap: PageMap)
    requires forall p :: p in pagemap ==> pagemap[p] in spans && pagemap[p] <= p < pagemap[p] + spans[pagemap[p]].length
    requires forall id, p :: id in spans && id <= p < id + spans[id].length ==> p in pagemap && pagemap[p] == id
    ensures PageMapOK(spans, pagemap)
  {
  }

  lemma NewPageLeads(spans: Spans, pagemap: PageMap, start: nat, sp: Span, id: nat, p: nat)
    requires PageMapOK(spans, pagemap) && start !in spans && FreshPages(pagemap, start, sp.length)
    requires id in spans[start := sp] && id <= p < id + spans[start := sp][id].length
    ensures var pagemap' := Register(pagemap, start, sp.length); p in pagemap' && pagemap'[p] == id
  {
    hide Register, PageMapOK;
    if id != start {
      PageLeads(spans, pagemap, id, p);
    }
  }

  lemma NewPageLedTo(spans: Spans, pagemap: PageMap, start: nat, sp: Span, p: nat)
    requires PageMapOK(spans, pagemap) && start !in spans && p in Register(pagemap, start, sp.length)
    ensures var id, spans' := Register(pagemap, start, sp.length)[p], spans[start := sp];
            id in spans' && id <= p < id + spans'[id].length
  {
    hide Register, PageMapOK;
    if !(start <= p < start + sp.length) {
      PageLedTo(spans, pagemap, p);
    }
  }

  lemma PageLeads(spans: Spans, pagemap: PageMap, id: nat, p: nat)
    requires PageMapOK(spans, pagemap) && id in spans && id <= p < id + spans[id].length
    ensures p in pagemap && pagemap[p] == id
  {
  }

  lemma PageLedTo(spans: Spans, pagemap: PageMap, p: nat)
    requires PageMapOK(spans, pagemap) && p in pagemap
    ensures pagemap[p] in spans && pagemap[p] <= p < pagemap[p] + spans[pagemap[p]].length
  {
  }

  lemma NewListed(cfg: Config, s: State, keeper: Keepers, t: nat, start: nat, sp: Span)
    requires ValidConfig(cfg) && ListedOK(s.central, s.spans, keeper) && CentralsOK(cfg, s.spans, s.central) && start !in s.spans
    ensures ListedOK(s.central, s.spans[start := sp], keeper[start := Uncarved(t)])
    ensures CentralsOK(cfg, s.spans[start := sp], s.central)
  {
    forall c | 0 <= c < |s.central| ensures CountersOK(cfg, s.spans[start := sp], c, s.central[c]) {
      var x := s.central[c];
      assert CountersOK(cfg, s.spans, c, x) && !OnLists(x, start);
      FreeObjectsFrame(s.spans, s.spans[start := sp], x.nonempty);
    }
    hide CountersOK;
  }

  lemma NewThreads(cfg: Config, s: State, cl: nat, start: nat)
    requires ValidConfig(cfg) && IsClass(cfg, cl) && ThreadsOK(cfg, s.spans, s.pagemap, s.threads)
    requires SlotsOK(cfg, s.spans, s.pagemap, s.central)
    requires start !in s.spans && FreshPages(s.pagemap, start, cfg.classes[cl].pages) && PageMapOK(s.spans, s.pagemap)
    ensures ThreadsOK(cfg, NewSpan(cfg, s, cl, start).spans, NewSpan(cfg, s, cl, start).pagemap, s.threads)
    ensures SlotsOK(cfg, NewSpan(cfg, s, cl, start).spans, NewSpan(cfg, s, cl, start).pagemap, s.central)
  {
    hide ClassOfObject, Register, FreshPages, PageMapOK;
    var s' := NewSpan(cfg, s, cl, start);
    forall a: Addr | ClassOfObject(cfg, s.spans, s.pagemap, a).Some?
      ensures ClassOfObject(cfg, s'.spans, s'.pagemap, a) == ClassOfObject(cfg, s.spans, s.pagemap, a)
    {
      ClassStays(cfg, s, cl, start, a);
    }
    forall u | 0 <= u < |s.threads| ensures ThreadOK(cfg, s'.spans, s'.pagemap, s.threads[u]) {
      FlightHasClass(cfg, s.spans, s.pagemap, s.threads[u]);
      ThreadFrame(cfg, s.spans, s.pagemap, s'.spans, s'.pagemap, s.threads[u]);
    }
  }

  lemma ClassStays(cfg: Config, s: State, cl: nat, start: nat, a: Addr)
    requires ValidConfig(cfg) && IsClass(cfg, cl) && start !in s.spans && FreshPages(s.pagemap, start, cfg.classes[cl].pages)
    requires ClassOfObject(cfg, s.spans, s.pagemap, a).Some?
    ensures var s' := NewSpan(cfg, s, cl, start);
            ClassOfObject(cfg, s'.spans, s'.pagemap, a) == ClassOfObject(cfg, s.spans, s.pagemap, a)
  {
    hide Register, PageOf;
  }

  lemma FlightHasClass(cfg: Config, spans: Spans, pagemap: PageMap, th: Thread)
    requires cfg.pageSize > 0 && ThreadOK(cfg, spans, pagemap, th)
    ensures forall a :: a in Flight(th) ==> ClassOfObject(cfg, spans, pagemap, a).Some?
    ensures Held(th, 0).Some? && !Held(th, 0).value.1.Dying? ==> Held(th, 0).value.0 in spans
  {
    hide ClassOfObject;
  }

  lemma NewHeld(threads: seq<Thread>, keeper: Keepers, t: nat, id: nat, th: Thread)
    requires HeldOK(threads, keeper) && t < |threads| && id !in keeper && Held(th, t) == Some((id, Uncarved(t)))
    ensures HeldOK(threads[t := th], keeper[id := Uncarved(t)])
  {
  }

  lemma NewRefcounts(s: State, keeper: Keepers, t: nat, start: nat, sp: Span, th: Thread)
    requires RefcountsOK(s.central, s.spans, s.threads, s.locks) && LocksOK(s.threads, s.locks) && ListedOK(s.central, s.spans, keeper)
    requires t < |s.threads| && s.threads[t].Running? && LockOf(s.threads[t].todo) == PageHeapLock && NeverAboutToFetch(th)
    requires start !in s.spans
    ensures RefcountsOK(s.central, s.spans[start := sp], s.threads[t := th], s.locks - {PageHeapLock})
  {
  }

  /** PageHeap::New gives a span and its pages are registered. */
  lemma NewStep(cfg: Config, s: State, b: Book, t: nat, cl: nat, n: nat, start: nat)
    requires ValidConfig(cfg) && Inv(cfg, s, b)
    requires t < |s.threads| && s.threads[t] == Running(AllocSpan(cl, n)) && IsClass(cfg, cl)
    requires FreshPages(s.pagemap, start, cfg.classes[cl].pages)
    ensures Inv(cfg, UnlockGoto(NewSpan(cfg, s, cl, start), t, PageHeapLock, Carving(cl, n, start)), Allot(b, t, start))
  {
    hide LocksOK, PlacesOK, ObjectsOK, SpansOK, PageMapOK, ListedOK, HeldOK, CentralsOK, ThreadsOK, SlotsOK, RefcountsOK, BudgetOK;
    hide ClassOfObject, FreshPages, Register;
    var th := Carving(cl, n, start);
    var s' := UnlockGoto(NewSpan(cfg, s, cl, start), t, PageHeapLock, th);
    Basics(cfg, s, b, t);
    StartIsFresh(cfg, s, b.keeper, cl, start);
    UnlockKeepsLocks(s.threads, s.locks, t, th);
    NewPlaces(s, s', b, t, start);
    NewObjects(cfg, s, b, t, cl, start);
    NewSpans(cfg, s, b.keeper, t, cl, start);
    NewListed(cfg, s, b.keeper, t, start, s'.spans[start]);
    NewThreads(cfg, s, cl, start);
    ThreadsUpdate(cfg, s'.spans, s'.pagemap, s.threads, t, th);
    KeepersAreSpans(cfg, s.spans, b.keeper);
    NewHeld(s.threads, b.keeper, t, start, th);
    NewRefcounts(s, b.keeper, t, start, s'.spans[start], th);
    KeepBudget(cfg, s.central, s.threads, t, th);
  }

  lemma KeepersAreSpans(cfg: Config, spans: Spans, keeper: Keepers)
    requires ValidConfig(cfg) && SpansOK(cfg, spans, keeper)
    ensures keeper.Keys == spans.Keys
  {
  }

  // ----- Populate carves the span

  ghost function CarvedSpan(cfg: Config, id: nat, sp: Span, cl: nat): Span
    requires ValidConfig(cfg) && IsClass(cfg, cl)
  {
    sp.(objects := Carved(cfg, id, cl), refcount := 0)
  }

  ghost function Carve(cfg: Config, b: Book, t: nat, id: nat, cl: nat): Book
    requires ValidConfig(cfg) && IsClass(cfg, cl)
  {
    Book(b.loc + (map a | a in Carved(cfg, id, cl) :: OnSpan(id)), b.keeper[id := Private(t)])
  }

  /** Before carving, the addresses of the span's objects are nowhere. */
  lemma NotYetCarved(cfg: Config, s: State, b: Book, t: nat, id: nat, cl: nat, a: Addr)
    requires ValidConfig(cfg) && IsClass(cfg, cl) && ObjectsOK(cfg, s.spans, s.pagemap, b) && PageMapOK(s.spans, s.pagemap)
    requires id in s.spans && s.spans[id].sizeclass == cl && s.spans[id].length == cfg.classes[cl].pages
    requires id in b.keeper && b.keeper[id] == Uncarved(t) && a in Carved(cfg, id, cl)
    ensures PageOf(cfg, a) in s.pagemap && s.pagemap[PageOf(cfg, a)] == id && a !in b.loc
  {
    hide Carved, PageOf;
    CarvedPage(cfg, id, cl, a);
    assert !IsLiveObject(cfg, s.spans, s.pagemap, b.keeper, a);
  }

  lemma CarvePlaces(cfg: Config, s: State, s': State, b: Book, t: nat, id: nat, cl: nat)
    requires ValidConfig(cfg) && IsClass(cfg, cl) && PlacesOK(s, b) && t < |s.threads|
    requires id in s.spans && id in b.keeper && b.keeper[id] == Uncarved(t)
    requires forall a :: a in Carved(cfg, id, cl) ==> a !in b.loc
    requires s' == State(s.central, s.locks, s.spans[id := CarvedSpan(cfg, id, s.spans[id], cl)], s.pagemap, s'.threads, s.out)
    requires |s'.threads| == |s.threads| && forall u :: 0 <= u < |s.threads| ==> Flight(s'.threads[u]) == Flight(s.threads[u])
    ensures PlacesOK(s', Carve(cfg, b, t, id, cl))
  {
    hide Carved, PageOf;
    var b' := Carve(cfg, b, t, id, cl);
    forall a, p ensures At(s', b'.keeper, a, p) <==> At(s, b.keeper, a, p) || (a in Carved(cfg, id, cl) && p == OnSpan(id)) {
    }
    forall a | a in b'.loc ensures At(s', b'.keeper, a, b'.loc[a]) {
      if a !in Carved(cfg, id, cl) {
        assert At(s, b.keeper, a, b.loc[a]);
      }
    }
  }

  lemma CarveObjects(cfg: Config, s: State, b: Book, t: nat, id: nat, cl: nat)
    requires ValidConfig(cfg) && IsClass(cfg, cl) && ObjectsOK(cfg, s.spans, s.pagemap, b) && PageMapOK(s.spans, s.pagemap)
    requires id in s.spans && s.spans[id].sizeclass == cl && s.spans[id].length == cfg.classes[cl].pages
    requires id in b.keeper && b.keeper[id] == Uncarved(t)
    ensures ObjectsOK(cfg, s.spans[id := CarvedSpan(cfg, id, s.spans[id], cl)], s.pagemap, Carve(cfg, b, t, id, cl))
  {
    hide Carved, PageOf;
    var b' := Carve(cfg, b, t, id, cl);
    var spans' := s.spans[id := CarvedSpan(cfg, id, s.spans[id], cl)];
    forall a ensures a in b'.loc <==> IsLiveObject(cfg, spans', s.pagemap, b'.keeper, a) {
      if a in Carved(cfg, id, cl) {
        NotYetCarved(cfg, s, b, t, id, cl, a);
      } else {
        assert a in b.loc <==> IsLiveObject(cfg, s.spans, s.pagemap, b.keeper, a);
      }
    }
  }

  lemma CarveSpans(cfg: Config, s: State, keeper: Keepers, t: nat, id: nat, cl: nat)
    requires ValidConfig(cfg) && IsClass(cfg, cl) && SpansOK(cfg, s.spans, keeper) && PageMapOK(s.spans, s.pagemap)
    requires id in s.spans && s.spans[id].sizeclass == cl
    ensures SpansOK(cfg, s.spans[id := CarvedSpan(cfg, id, s.spans[id], cl)], keeper[id := Private(t)])
    ensures PageMapOK(s.spans[id := CarvedSpan(cfg, id, s.spans[id], cl)], s.pagemap)
  {
    CarvedNoDup(cfg, id, cl);
    var sp := CarvedSpan(cfg, id, s.spans[id], cl);
    assert SpanOK(cfg, id, s.spans[id], keeper[id]);
    assert SpanOK(cfg, id, sp, Private(t));
    hide SpanOK;
    assert keeper[id := Private(t)].Keys == s.spans[id := sp].Keys;
  }

  lemma CarveListed(cfg: Config, s: State, keeper: Keepers, t: nat, id: nat, sp: Span)
    requires ValidConfig(cfg) && ListedOK(s.central, s.spans, keeper) && CentralsOK(cfg, s.spans, s.central)
    requires id in s.spans && id in keeper && !keeper[id].Listed? && SameSpan(s.spans[id], sp)
    ensures ListedOK(s.central, s.spans[id := sp], keeper[id := Private(t)])
    ensures CentralsOK(cfg, s.spans[id := sp], s.central)
  {
    forall c | 0 <= c < |s.central| ensures CountersOK(cfg, s.spans[id := sp], c, s.central[c]) {
      var x := s.central[c];
      assert CountersOK(cfg, s.spans, c, x) && !OnLists(x, id);
      FreeObjectsFrame(s.spans, s.spans[id := sp], x.nonempty);
    }
    hide CountersOK;
  }

  lemma CarveThreads(cfg: Config, s: State, keeper: Keepers, t: nat, id: nat, sp: Span, th: Thread)
    requires ValidConfig(cfg) && ThreadsOK(cfg, s.spans, s.pagemap, s.threads) && SlotsOK(cfg, s.spans, s.pagemap, s.central)
    requires HeldOK(s.threads, keeper) && t < |s.threads| && id in s.spans && id in keeper && keeper[id] == Uncarved(t)
    requires SameSpan(s.spans[id], sp) && ThreadOK(cfg, s.spans[id := sp], s.pagemap, th)
    ensures ThreadsOK(cfg, s.spans[id := sp], s.pagemap, s.threads[t := th])
    ensures SlotsOK(cfg, s.spans[id := sp], s.pagemap, s.central)
  {
    ClassesKept(cfg, s.spans, s.pagemap, id, sp);
    hide ClassOfObject;
    forall u | 0 <= u < |s.threads| && u != t ensures ThreadOK(cfg, s.spans[id := sp], s.pagemap, s.threads[u]) {
      assert Held(s.threads[u], u).Some? ==> keeper[Held(s.threads[u], u).value.0] == Held(s.threads[u], u).value.1;
      ThreadFrame(cfg, s.spans, s.pagemap, s.spans[id := sp], s.pagemap, s.threads[u]);
    }
  }

  lemma CarveHeld(threads: seq<Thread>, keeper: Keepers, t: nat, id: nat, th: Thread)
    requires HeldOK(threads, keeper) && t < |threads| && id in keeper && keeper[id] == Uncarved(t)
    requires Held(th, t) == Some((id, Private(t)))
    ensures HeldOK(threads[t := th], keeper[id := Private(t)])
  {
  }

  lemma CarveRefcounts(s: State, keeper: Keepers, t: nat, id: nat, sp: Span, th: Thread)
    requires RefcountsOK(s.central, s.spans, s.threads, s.locks) && LocksOK(s.threads, s.locks) && ListedOK(s.central, s.spans, keeper)
    requires t < |s.threads| && !s.threads[t].Running? && !th.Running? && id in s.spans && id in keeper && !keeper[id].Listed?
    ensures RefcountsOK(s.central, s.spans[id := sp], s.threads[t := th], s.locks)
  {
  }

  /** Populate's loop over the span, outside every lock. */
  lemma CarveStep(cfg: Config, s: State, b: Book, t: nat, cl: nat, n: nat, id: nat)
    requires ValidConfig(cfg) && Inv(cfg, s, b)
    requires t < |s.threads| && s.threads[t] == Carving(cl, n, id) && IsClass(cfg, cl) && id in s.spans
    ensures Inv(cfg, Next(cfg, s, t, NoChoice), Carve(cfg, b, t, id, cl))
  {
    hide LocksOK, PlacesOK, ObjectsOK, SpansOK, PageMapOK, ListedOK, HeldOK, CentralsOK, ThreadsOK, SlotsOK, RefcountsOK, BudgetOK;
    hide Carved;
    var th := Waiting(AddSpan(cl, n, Some(id)));
    var sp := CarvedSpan(cfg, id, s.spans[id], cl);
    Basics(cfg, s, b, t);
    var s' := Next(cfg, s, t, NoChoice);
    SpanShape(cfg, s.spans, b.keeper, id);
    forall a | a in Carved(cfg, id, cl) ensures a !in b.loc {
      NotYetCarved(cfg, s, b, t, id, cl, a);
    }
    StayKeepsLocks(s.threads, s.locks, t, th);
    CarvePlaces(cfg, s, s', b, t, id, cl);
    CarveObjects(cfg, s, b, t, id, cl);
    CarveSpans(cfg, s, b.keeper, t, id, cl);
    CarveListed(cfg, s, b.keeper, t, id, sp);
    CarveThreads(cfg, s, b.keeper, t, id, sp, th);
    CarveHeld(s.threads, b.keeper, t, id, th);
    CarveRefcounts(s, b.keeper, t, id, sp, th);
    KeepBudget(cfg, s.central, s.threads, t, th);
  }

  lemma SpanShape(cfg: Config, spans: Spans, keeper: Keepers, id: nat)
    requires ValidConfig(cfg) && SpansOK(cfg, spans, keeper) && id in spans
    ensures id in keeper && SpanOK(cfg, id, spans[id], keeper[id])
  {
  }

  // ----- Populate lists the span

  ghost function Enlist(b: Book, id: nat): Book {
    Book(b.loc, b.keeper[id := Listed])
  }

  ghost function AddedCentral(x: Central, id: nat, sp: Span): Central {
    x.(nonempty := [id] + x.nonempty, numSpans := x.numSpans + 1, counter := x.counter + |sp.objects|)
  }

  lemma AddPlaces(s: State, s': State, b: Book, id: nat)
    requires PlacesOK(s, b) && id in s.spans && id in b.keeper && Live(b.keeper[id])
    requires s' == State(s'.central, s.locks, s.spans, s.pagemap, s'.threads, s.out)
    requires |s'.threads| == |s.threads| && forall u :: 0 <= u < |s.threads| ==> Flight(s'.threads[u]) == Flight(s.threads[u])
    requires |s'.central| == |s.central| && forall c :: 0 <= c < |s.central| ==> s'.central[c].slots == s.central[c].slots
    ensures PlacesOK(s', Enlist(b, id))
  {
    var b' := Enlist(b, id);
    forall a, p ensures At(s', b'.keeper, a, p) <==> At(s, b.keeper, a, p) {
    }
  }

  lemma AddObjects(cfg: Config, spans: Spans, pagemap: PageMap, b: Book, id: nat)
    requires ValidConfig(cfg) && ObjectsOK(cfg, spans, pagemap, b) && id in b.keeper && Live(b.keeper[id])
    ensures ObjectsOK(cfg, spans, pagemap, Enlist(b, id))
  {
    hide Carved;
    forall a ensures IsLiveObject(cfg, spans, pagemap, b.keeper[id := Listed], a) == IsLiveObject(cfg, spans, pagemap, b.keeper, a) {
    }
  }

  lemma AddSpans(cfg: Config, spans: Spans, keeper: Keepers, id: nat)
    requires ValidConfig(cfg) && SpansOK(cfg, spans, keeper) && id in spans && keeper[id].Private?
    ensures SpansOK(cfg, spans, keeper[id := Listed])
  {
    hide Carved, ObjectsPerSpan;
    assert SpanOK(cfg, id, spans[id], keeper[id]);
    assert keeper[id := Listed].Keys == spans.Keys;
  }

  lemma AddListed(s: State, keeper: Keepers, c: nat, y: Central, id: nat)
    requires ListedOK(s.central, s.spans, keeper) && c < |s.central| && id in s.spans && s.spans[id].sizeclass == c && id in keeper
    requires forall i :: OnLists(y, i) <==> OnLists(s.central[c], i) || i == id
    ensures ListedOK(s.central[c := y], s.spans, keeper[id := Listed])
  {
    var central' := s.central[c := y];
    assert forall e, i :: 0 <= e < |s.central| ==> (OnLists(central'[e], i) <==> OnLists(s.central[e], i) || (e == c && i == id));
    hide OnLists;
  }

  lemma AddedCentralOK(cfg: Config, spans: Spans, c: nat, x: Central, id: nat)
    requires CountersOK(cfg, spans, c, x) && id in spans && !OnLists(x, id) && spans[id].objects != []
    ensures var y := AddedCentral(x, id, spans[id]);
            && CountersOK(cfg, spans, c, y)
            && (forall i :: OnLists(y, i) <==> OnLists(x, i) || i == id)
            && y.slots == x.slots && y.cacheSize == x.cacheSize && y.maxCacheSize == x.maxCacheSize
  {
    NoDupCons(id, x.nonempty);
    assert ([id] + x.nonempty)[1..] == x.nonempty;
  }

  lemma AddCentrals(cfg: Config, spans: Spans, central: seq<Central>, c: nat, y: Central)
    requires ValidConfig(cfg) && CentralsOK(cfg, spans, central) && c < |central| && CountersOK(cfg, spans, c, y)
    requires y.slots == central[c].slots && y.cacheSize == central[c].cacheSize && y.maxCacheSize == central[c].maxCacheSize
    ensures CentralsOK(cfg, spans, central[c := y])
  {
    hide CountersOK;
    assert CacheOK(cfg, c, central[c]);
  }

  lemma AddRefcounts(s: State, t: nat, c: nat, n: nat, y: Central, id: nat)
    requires RefcountsOK(s.central, s.spans, s.threads, s.locks) && LocksOK(s.threads, s.locks)
    requires t < |s.threads| && s.threads[t].Running? && LockOf(s.threads[t].todo) == ClassLock(c) && NeverAboutToFetch(s.threads[t])
    requires c < |s.central| && y.nonempty == [id] + s.central[c].nonempty
    requires forall i :: OnLists(y, i) <==> OnLists(s.central[c], i) || i == id
    ensures RefcountsOK(s.central[c := y], s.spans, s.threads[t := Running(Fetch(c, n, [], false))], s.locks)
  {
    var central', threads' := s.central[c := y], s.threads[t := Running(Fetch(c, n, [], false))];
    forall e, i | 0 <= e < |central'| && OnLists(central'[e], i) && i in s.spans && s.spans[i].refcount <= 0
      ensures FreshFirst(central', threads', s.locks, e, i)
    {
      if e != c {
        assert FreshFirst(s.central, s.threads, s.locks, e, i);
      } else {
        assert i == id;
      }
    }
  }

  /** Populate's end: the fresh span goes to the front of nonempty_. */
  lemma AddStep(cfg: Config, s: State, b: Book, t: nat, cl: nat, n: nat, id: nat)
    requires ValidConfig(cfg) && Inv(cfg, s, b)
    requires t < |s.threads| && s.threads[t] == Running(AddSpan(cl, n, Some(id))) && cl < |s.central| && id in s.spans
    ensures Inv(cfg, Goto(SetCentral(s, cl, AddedCentral(s.central[cl], id, s.spans[id])), t, Running(Fetch(cl, n, [], false))),
                Enlist(b, id))
  {
    hide LocksOK, PlacesOK, ObjectsOK, SpansOK, PageMapOK, ListedOK, HeldOK, CentralsOK, ThreadsOK, SlotsOK, RefcountsOK, BudgetOK;
    hide CountersOK, OnLists, Carved, ObjectsPerSpan;
    var th := Running(Fetch(cl, n, [], false));
    var x := s.central[cl];
    var y := AddedCentral(x, id, s.spans[id]);
    var s' := Goto(SetCentral(s, cl, y), t, th);
    Basics(cfg, s, b, t);
    SpanShape(cfg, s.spans, b.keeper, id);
    AtLeastOneObject(cfg, cl);
    NotListed(cfg, s, b, cl, id);
    StayKeepsLocks(s.threads, s.locks, t, th);
    AddedCentralOK(cfg, s.spans, cl, x, id);
    AddPlaces(s, s', b, id);
    AddObjects(cfg, s.spans, s.pagemap, b, id);
    AddSpans(cfg, s.spans, b.keeper, id);
    AddListed(s, b.keeper, cl, y, id);
    AddCentrals(cfg, s.spans, s.central, cl, y);
    AddRefcounts(s, t, cl, n, y, id);
    SlotsKept(cfg, s.spans, s.pagemap, s.central, cl, y);
    ThreadsUpdate(cfg, s.spans, s.pagemap, s.threads, t, th);
    AddHeld(s.threads, b.keeper, t, id, th);
    BudgetUpdate(cfg, s.central, s.threads, cl, y, t, th);
  }

  lemma NotListed(cfg: Config, s: State, b: Book, c: nat, id: nat)
    requires ValidConfig(cfg) && c < |s.central| && ListedOK(s.central, s.spans, b.keeper) && CentralsOK(cfg, s.spans, s.central)
    requires id in b.keeper && !b.keeper[id].Listed?
    ensures !OnLists(s.central[c], id) && CountersOK(cfg, s.spans, c, s.central[c])
  {
  }

  lemma AddHeld(threads: seq<Thread>, keeper: Keepers, t: nat, id: nat, th: Thread)
    requires HeldOK(threads, keeper) && t < |threads| && id in keeper && keeper[id] == Private(t) && Held(th, t).None?
    ensures HeldOK(threads[t := th], keeper[id := Listed])
  {
  }
}
