/** ReleaseToSpans: an object goes back to its span, or a span with no object outside goes to the page heap. */
module CentralRelease {
  import opened Base
  import opened CentralFreeList
  import opened CentralInvariant
  import opened CentralLemmas
  import opened CentralControl
  import opened CentralCache
  import opened CentralObjects

  /**
   MapObjectToSpan of an object in flight leads to a listed span of the class at hand that the
   object was carved from; the object is not on its list, and the reference count is positive.
   */
  lemma ReleasedObject(cfg: Config, s: State, b: Book, t: nat, c: nat, rest: Chain, k: Cont)
    requires ValidConfig(cfg) && Inv(cfg, s, b)
    requires t < |s.threads| && s.threads[t] == Running(ReleaseList(c, rest, k)) && rest != []
    ensures |s.central| == |cfg.classes| && IsClass(cfg, c) && ReleaseEnabled(cfg, s, c, rest[0])
    ensures var id := s.pagemap[PageOf(cfg, rest[0])];
            && id in b.keeper && b.keeper[id] == Listed && OnLists(s.central[c], id)
            && rest[0] in Carved(cfg, id, c) && rest[0] !in s.spans[id].objects
            && SpanOK(cfg, id, s.spans[id], Listed) && CountersOK(cfg, s.spans, c, s.central[c])
  {
    hide RefcountsOK, BudgetOK, SlotsOK, HeldOK;
    var o := rest[0];
    assert ThreadOK(cfg, s.spans, s.pagemap, s.threads[t]);
    InFlightObject(cfg, s, b, t, c, o);
    var id := s.pagemap[PageOf(cfg, o)];
    assert SpanOK(cfg, id, s.spans[id], b.keeper[id]);
    OutsideObject(cfg, id, s.spans[id], b.keeper[id], o);
    assert b.keeper[id] == Listed;
  }

  lemma InFlightObject(cfg: Config, s: State, b: Book, t: nat, c: nat, o: Addr)
    requires ValidConfig(cfg) && PlacesOK(s, b) && ObjectsOK(cfg, s.spans, s.pagemap, b)
    requires t < |s.threads| && o in Flight(s.threads[t]) && ClassOfObject(cfg, s.spans, s.pagemap, o) == Some(c)
    ensures var p := PageOf(cfg, o);
            && p in s.pagemap && s.pagemap[p] in s.spans && s.pagemap[p] in b.keeper && Live(b.keeper[s.pagemap[p]])
            && s.spans[s.pagemap[p]].sizeclass == c && IsClass(cfg, c)
            && o in Carved(cfg, s.pagemap[p], c) && o !in s.spans[s.pagemap[p]].objects
  {
    assert At(s, b.keeper, o, InFlight(t));
    assert IsLiveObject(cfg, s.spans, s.pagemap, b.keeper, o);
    var id := s.pagemap[PageOf(cfg, o)];
    assert !At(s, b.keeper, o, OnSpan(id));
  }

  /** A live span that misses one of its objects has a positive reference count. */
  lemma OutsideObject(cfg: Config, id: nat, sp: Span, k: Keeper, o: Addr)
    requires ValidConfig(cfg) && Live(k) && SpanOK(cfg, id, sp, k)
    requires o in Carved(cfg, id, sp.sizeclass) && o !in sp.objects
    ensures sp.refcount > 0 && k == Listed
  {
    CarvedNoDup(cfg, id, sp.sizeclass);
    FewerThanAll(sp.objects, Carved(cfg, id, sp.sizeclass), o);
  }

  // ----- the object goes back on its span's list

  ghost function ReleasedSpan(sp: Span, o: Addr): Span {
    sp.(refcount := sp.refcount - 1, objects := [o] + sp.objects)
  }

  /** The list the span is on after line 113. */
  ghost function OnNonempty(x: Central, id: nat, sp: Span): Central {
    if sp.objects == [] then x.(empty := Unlink(x.empty, id), nonempty := [id] + Unlink(x.nonempty, id)) else x
  }

  ghost function ReleasedCentral(x: Central, id: nat, sp: Span): Central {
    var y := OnNonempty(x, id, sp);
    y.(counter := y.counter + 1)
  }

  lemma OnNonemptyFacts(cfg: Config, spans: Spans, c: nat, x: Central, id: nat)
    requires CountersOK(cfg, spans, c, x) && id in spans && OnLists(x, id)
    ensures var y := OnNonempty(x, id, spans[id]);
            && SameMembers(x, y) && NoDup(y.nonempty) && NoDup(y.empty)
            && id in y.nonempty && id !in y.empty
            && |y.nonempty| + |y.empty| == x.numSpans
            && FreeObjects(spans, y.nonempty) == x.counter
            && (forall i :: i in y.nonempty && i in spans && i != id ==> spans[i].objects != [])
            && (forall i :: i in y.empty && i in spans ==> spans[i].objects == [])
  {
    UnlinkFacts(x.nonempty, id);
    UnlinkFacts(x.empty, id);
    if spans[id].objects == [] {
      assert id !in x.nonempty && id in x.empty;
      FreeObjectsUnlink(spans, x.nonempty, id);
      NoDupCons(id, Unlink(x.nonempty, id));
    }
  }

  lemma ReleasedCentralOK(cfg: Config, spans: Spans, c: nat, x: Central, id: nat, o: Addr)
    requires CountersOK(cfg, spans, c, x) && id in spans && OnLists(x, id)
    ensures SameMembers(x, ReleasedCentral(x, id, spans[id]))
    ensures CountersOK(cfg, spans[id := ReleasedSpan(spans[id], o)], c, ReleasedCentral(x, id, spans[id]))
  {
    var y := OnNonempty(x, id, spans[id]);
    OnNonemptyFacts(cfg, spans, c, x, id);
    FreeObjectsUpdate(spans, y.nonempty, id, ReleasedSpan(spans[id], o));
  }

  lemma ReleasedSpanOK(cfg: Config, id: nat, sp: Span, o: Addr)
    requires ValidConfig(cfg) && SpanOK(cfg, id, sp, Listed) && o in Carved(cfg, id, sp.sizeclass) && o !in sp.objects && sp.refcount > 0
    ensures SpanOK(cfg, id, ReleasedSpan(sp, o), Listed)
  {
    hide Carved, ObjectsPerSpan;
    NoDupCons(o, sp.objects);
  }

  lemma RestThreadOK(cfg: Config, spans: Spans, pagemap: PageMap, c: nat, rest: Chain, k: Cont)
    requires cfg.pageSize > 0 && rest != [] && ThreadOK(cfg, spans, pagemap, Running(ReleaseList(c, rest, k)))
    ensures ThreadOK(cfg, spans, pagemap, Running(ReleaseList(c, rest[1..], k)))
    ensures rest[0] !in rest[1..] + ContChain(k)
    ensures forall a :: a in rest + ContChain(k) <==> a == rest[0] || a in rest[1..] + ContChain(k)
  {
    var some := rest[1..] + ContChain(k);
    assert rest + ContChain(k) == [rest[0]] + some;
    assert Flight(Running(ReleaseList(c, rest, k))) == [rest[0]] + some && Flight(Running(ReleaseList(c, rest[1..], k))) == some;
    NoDupTail(rest[0], some);
    assert forall a :: a in rest[1..] ==> a in rest;
  }

  lemma NoDupTail<T>(x: T, s: seq<T>)
    requires NoDup([x] + s)
    ensures NoDup(s) && x !in s
  {
    SuffixNoDup([x] + s, 1);
    assert ([x] + s)[1..] == s && ([x] + s)[..1] == [x];
  }

  lemma ReleaseShifts(cfg: Config, s: State, keeper: Keepers, t: nat, c: nat, rest: Chain, k: Cont)
    requires ValidConfig(cfg) && t < |s.threads| && s.threads[t] == Running(ReleaseList(c, rest, k)) && rest != []
    requires IsClass(cfg, c) && |s.central| == |cfg.classes| && ReleaseEnabled(cfg, s, c, rest[0])
    requires var id := s.pagemap[PageOf(cfg, rest[0])];
             id in keeper && keeper[id] == Listed && s.spans[id].refcount != 1
    requires rest[0] !in rest[1..] + ContChain(k)
    requires forall a :: a in rest + ContChain(k) <==> a == rest[0] || a in rest[1..] + ContChain(k)
    ensures Shifted(s, NextRelease(cfg, s, t, c, rest, k), keeper, [rest[0]], InFlight(t), OnSpan(s.pagemap[PageOf(cfg, rest[0])]))
  {
    hide Unlink;
    var o := rest[0];
    var id := s.pagemap[PageOf(cfg, o)];
    var s' := NextRelease(cfg, s, t, c, rest, k);
    assert Flight(s.threads[t]) == rest + ContChain(k) && Flight(s'.threads[t]) == rest[1..] + ContChain(k);
    assert s'.spans[id].objects == [o] + s.spans[id].objects;
    assert forall e :: 0 <= e < |s.central| ==> s'.central[e].slots == s.central[e].slots;
  }

  /** ReleaseToSpans when other objects of the span are still out. */
  lemma ReleaseStep(cfg: Config, s: State, b: Book, t: nat, c: nat, rest: Chain, k: Cont)
    requires ValidConfig(cfg) && Inv(cfg, s, b)
    requires t < |s.threads| && s.threads[t] == Running(ReleaseList(c, rest, k)) && rest != []
    requires IsClass(cfg, c) && |s.central| == |cfg.classes| && ReleaseEnabled(cfg, s, c, rest[0])
    requires s.spans[s.pagemap[PageOf(cfg, rest[0])]].refcount != 1
    ensures Inv(cfg, NextRelease(cfg, s, t, c, rest, k), Relocate(b, [rest[0]], OnSpan(s.pagemap[PageOf(cfg, rest[0])])))
  {
    hide LocksOK, PlacesOK, ObjectsOK, SpansOK, PageMapOK, ListedOK, HeldOK, CentralsOK, ThreadsOK, SlotsOK, RefcountsOK, BudgetOK;
    hide SpanOK, CountersOK, Shifted, SameMembers, ThreadOK, Carved, Unlink;
    var o := rest[0];
    var id := s.pagemap[PageOf(cfg, o)];
    var sp := s.spans[id];
    Basics(cfg, s, b, t);
    ReleasedObject(cfg, s, b, t, c, rest, k);
    RestThreadOK(cfg, s.spans, s.pagemap, c, rest, k);
    ReleasedSpanOK(cfg, id, sp, o);
    ReleasedCentralOK(cfg, s.spans, c, s.central[c], id, o);
    ReleaseShifts(cfg, s, b.keeper, t, c, rest, k);
    ObjectStep(cfg, s, b, NextRelease(cfg, s, t, c, rest, k), t, Running(ReleaseList(c, rest[1..], k)), c,
               ReleasedCentral(s.central[c], id, sp), id, ReleasedSpan(sp, o), [o], InFlight(t), OnSpan(id));
  }

  // ----- the last object comes back: the span leaves the lists

  /** The book once span `id` is on its way to the page heap in the hands of thread `t`. */
  ghost function Retire(cfg: Config, b: Book, t: nat, id: nat, c: nat): Book
    requires ValidConfig(cfg) && IsClass(cfg, c)
  {
    Book(map a | a in b.loc && a !in Carved(cfg, id, c) :: b.loc[a], b.keeper[id := Dying(t)])
  }

  ghost function RetiredCentral(cfg: Config, x: Central, id: nat, sp: Span, c: nat): Central
    requires ValidConfig(cfg) && IsClass(cfg, c)
  {
    var y := OnNonempty(x, id, sp);
    y.(nonempty := Unlink(y.nonempty, id), empty := Unlink(y.empty, id),
       numSpans := y.numSpans - 1, counter := y.counter + 1 - ObjectsPerSpan(cfg, c))
  }

  /** The state after line 137: span unlisted, lock given back. */
  ghost predicate Retired(cfg: Config, s: State, s': State, t: nat, c: nat, rest: Chain, k: Cont, id: nat)
    requires ValidConfig(cfg) && IsClass(cfg, c)
  {
    && t < |s.threads| && s.threads[t] == Running(ReleaseList(c, rest, k)) && rest != []
    && id in s.spans && c < |s.central|
    && s' == State(s.central[c := RetiredCentral(cfg, s.central[c], id, s.spans[id], c)], s.locks - {ClassLock(c)},
                   s.spans[id := s.spans[id].(refcount := 0)], s.pagemap,
                   s.threads[t := Waiting(DeleteSpan(c, id, rest[1..], k))], s.out)
  }

  /** All objects of the span but the one in hand are on its list. */
  lemma OthersAreHome(cfg: Config, id: nat, sp: Span, o: Addr)
    requires ValidConfig(cfg) && SpanOK(cfg, id, sp, Listed) && sp.refcount == 1
    requires o in Carved(cfg, id, sp.sizeclass) && o !in sp.objects
    ensures forall a :: a in Carved(cfg, id, sp.sizeclass) && a != o ==> a in sp.objects
    ensures |sp.objects| == ObjectsPerSpan(cfg, sp.sizeclass) - 1
  {
    CarvedNoDup(cfg, id, sp.sizeclass);
    AllButOne(sp.objects, Carved(cfg, id, sp.sizeclass), o);
  }

  /** At the moment the span is unlisted none of its objects is anywhere but on its own list or in hand. */
  lemma RetireForgets(cfg: Config, s: State, s': State, b: Book, t: nat, c: nat, rest: Chain, k: Cont, id: nat)
    requires ValidConfig(cfg) && IsClass(cfg, c) && Retired(cfg, s, s', t, c, rest, k, id) && PlacesOK(s, b)
    requires id in b.keeper && b.keeper[id] == Listed && rest[0] in Carved(cfg, id, c)
    requires forall a :: a in s.spans[id].objects ==> a in Carved(cfg, id, c)
    requires forall a :: a in Carved(cfg, id, c) && a != rest[0] ==> a in s.spans[id].objects
    requires rest[0] !in rest[1..] + ContChain(k)
    requires forall a :: a in rest + ContChain(k) <==> a == rest[0] || a in rest[1..] + ContChain(k)
    ensures forall a, p :: At(s', b.keeper[id := Dying(t)], a, p) <==> At(s, b.keeper, a, p) && a !in Carved(cfg, id, c)
  {
    hide Carved, Unlink;
    var keeper' := b.keeper[id := Dying(t)];
    assert At(s, b.keeper, rest[0], InFlight(t));
    assert forall e :: 0 <= e < |s.central| ==> s'.central[e].slots == s.central[e].slots;
    assert Flight(s.threads[t]) == rest + ContChain(k) && Flight(s'.threads[t]) == rest[1..] + ContChain(k);
    assert At(s, b.keeper, rest[0], InFlight(t));
    forall a, p | p != OnSpan(id) && p != InFlight(t) ensures At(s', keeper', a, p) <==> At(s, b.keeper, a, p) {
    }
    forall a, p ensures At(s', keeper', a, p) <==> At(s, b.keeper, a, p) && a !in Carved(cfg, id, c) {
      if a in Carved(cfg, id, c) && a != rest[0] {
        assert At(s, b.keeper, a, OnSpan(id));
      }
      if p == InFlight(t) {
        assert At(s', keeper', a, p) <==> At(s, b.keeper, a, p) && a != rest[0];
      }
    }
  }

  lemma RetirePlaces(cfg: Config, s: State, s': State, b: Book, t: nat, id: nat, c: nat)
    requires ValidConfig(cfg) && IsClass(cfg, c) && PlacesOK(s, b)
    requires forall a, p :: At(s', b.keeper[id := Dying(t)], a, p) <==> At(s, b.keeper, a, p) && a !in Carved(cfg, id, c)
    ensures PlacesOK(s', Retire(cfg, b, t, id, c))
  {
    hide Carved;
    var b' := Retire(cfg, b, t, id, c);
    forall a | a in b'.loc ensures At(s', b'.keeper, a, b'.loc[a]) {
      assert At(s, b.keeper, a, b.loc[a]);
    }
    forall a, p | At(s', b'.keeper, a, p) ensures a in b'.loc && b'.loc[a] == p {
      assert At(s, b.keeper, a, p) && a !in Carved(cfg, id, c);
    }
  }

  lemma RetireObjects(cfg: Config, spans: Spans, pagemap: PageMap, b: Book, t: nat, id: nat, sp: Span)
    requires ValidConfig(cfg) && ObjectsOK(cfg, spans, pagemap, b) && PageMapOK(spans, pagemap)
    requires id in spans && SameSpan(spans[id], sp) && IsClass(cfg, sp.sizeclass) && sp.length == cfg.classes[sp.sizeclass].pages
    ensures ObjectsOK(cfg, spans[id := sp], pagemap, Retire(cfg, b, t, id, sp.sizeclass))
  {
    var b' := Retire(cfg, b, t, id, sp.sizeclass);
    forall a ensures a in b'.loc <==> IsLiveObject(cfg, spans[id := sp], pagemap, b'.keeper, a) {
      hide Carved;
      if a in Carved(cfg, id, sp.sizeclass) {
        CarvedPage(cfg, id, sp.sizeclass, a);
        assert pagemap[PageOf(cfg, a)] == id;
      } else {
        assert a in b.loc <==> IsLiveObject(cfg, spans, pagemap, b.keeper, a);
      }
    }
  }

  lemma RetireSpans(cfg: Config, s: State, keeper: Keepers, t: nat, id: nat)
    requires ValidConfig(cfg) && SpansOK(cfg, s.spans, keeper) && PageMapOK(s.spans, s.pagemap) && id in s.spans
    ensures SpansOK(cfg, s.spans[id := s.spans[id].(refcount := 0)], keeper[id := Dying(t)])
    ensures PageMapOK(s.spans[id := s.spans[id].(refcount := 0)], s.pagemap)
  {
    hide Carved, ObjectsPerSpan;
    assert SpanOK(cfg, id, s.spans[id], keeper[id]);
    assert keeper[id := Dying(t)].Keys == s.spans[id := s.spans[id].(refcount := 0)].Keys;
  }

  lemma RetiredCentralOK(cfg: Config, spans: Spans, c: nat, x: Central, id: nat)
    requires ValidConfig(cfg) && IsClass(cfg, c) && CountersOK(cfg, spans, c, x) && id in spans && OnLists(x, id)
    requires |spans[id].objects| == ObjectsPerSpan(cfg, c) - 1
    ensures var y := RetiredCentral(cfg, x, id, spans[id], c);
            && CountersOK(cfg, spans[id := spans[id].(refcount := 0)], c, y)
            && (forall i :: OnLists(y, i) <==> OnLists(x, i) && i != id)
            && y.slots == x.slots && y.cacheSize == x.cacheSize && y.maxCacheSize == x.maxCacheSize
  {
    hide ObjectsPerSpan;
    var z := OnNonempty(x, id, spans[id]);
    var sp := spans[id].(refcount := 0);
    OnNonemptyFacts(cfg, spans, c, x, id);
    UnlinkFacts(z.nonempty, id);
    UnlinkFacts(z.empty, id);
    FreeObjectsUpdate(spans, z.nonempty, id, sp);
    FreeObjectsUnlink(spans[id := sp], z.nonempty, id);
  }

  lemma RetireListed(s: State, keeper: Keepers, t: nat, c: nat, y: Central, id: nat)
    requires ListedOK(s.central, s.spans, keeper) && c < |s.central| && id in s.spans && s.spans[id].sizeclass == c
    requires forall i :: OnLists(y, i) <==> OnLists(s.central[c], i) && i != id
    ensures ListedOK(s.central[c := y], s.spans[id := s.spans[id].(refcount := 0)], keeper[id := Dying(t)])
  {
    var central' := s.central[c := y];
    assert forall e, i :: 0 <= e < |s.central| ==> (OnLists(central'[e], i) ==> OnLists(s.central[e], i) && i != id);
    hide OnLists;
  }

  lemma RetireCentrals(cfg: Config, s: State, keeper: Keepers, c: nat, y: Central, id: nat, sp: Span)
    requires ValidConfig(cfg) && id in s.spans && c < |s.central|
    requires ListedOK(s.central, s.spans, keeper) && CentralsOK(cfg, s.spans, s.central) && s.spans[id].sizeclass == c
    requires CountersOK(cfg, s.spans[id := sp], c, y)
    requires y.slots == s.central[c].slots && y.cacheSize == s.central[c].cacheSize && y.maxCacheSize == s.central[c].maxCacheSize
    ensures CentralsOK(cfg, s.spans[id := sp], s.central[c := y])
  {
    OtherCentralsKept(cfg, s, keeper, c, id, sp);
    assert CacheOK(cfg, c, s.central[c]);
  }

  lemma OtherCentralsKept(cfg: Config, s: State, keeper: Keepers, c: nat, id: nat, sp: Span)
    requires ValidConfig(cfg) && id in s.spans && c < |s.central|
    requires ListedOK(s.central, s.spans, keeper) && CentralsOK(cfg, s.spans, s.central) && s.spans[id].sizeclass == c
    ensures forall e :: 0 <= e < |s.central| && e != c ==> CountersOK(cfg, s.spans[id := sp], e, s.central[e])
  {
    forall e | 0 <= e < |s.central| && e != c ensures CountersOK(cfg, s.spans[id := sp], e, s.central[e]) {
      var x := s.central[e];
      assert CountersOK(cfg, s.spans, e, x);
      assert !OnLists(x, id);
      FreeObjectsUpdate(s.spans, x.nonempty, id, sp);
    }
  }

  lemma RetireRefcounts(s: State, t: nat, th: Thread, c: nat, y: Central, id: nat)
    requires LocksOK(s.threads, s.locks) && RefcountsOK(s.central, s.spans, s.threads, s.locks)
    requires t < |s.threads| && s.threads[t].Running? && LockOf(s.threads[t].todo) == ClassLock(c) && NeverAboutToFetch(s.threads[t])
    requires c < |s.central| && id in s.spans && NeverAboutToFetch(th)
    requires forall i :: OnLists(y, i) <==> OnLists(s.central[c], i) && i != id
    requires forall e :: 0 <= e < |s.central| && e != c ==> !OnLists(s.central[e], id)
    ensures RefcountsOK(s.central[c := y], s.spans[id := s.spans[id].(refcount := 0)], s.threads[t := th], s.locks - {ClassLock(c)})
  {
    var central', spans', threads', locks' := s.central[c := y], s.spans[id := s.spans[id].(refcount := 0)], s.threads[t := th],
         s.locks - {ClassLock(c)};
    forall e, i | 0 <= e < |central'| && OnLists(central'[e], i) && i in spans' && spans'[i].refcount <= 0
      ensures FreshFirst(central', threads', locks', e, i)
    {
      assert OnLists(s.central[e], i) && i != id;
      assert FreshFirst(s.central, s.threads, s.locks, e, i);
      assert e != c;
    }
    forall u, e | 0 <= u < |threads'| && 0 <= e < |central'| && AboutToFetch(threads'[u], e) ensures central'[e].nonempty != [] {
      assert u != t && AboutToFetch(s.threads[u], e);
      assert e != c;
    }
  }

  /** ReleaseToSpans when the last object outside the span comes back. */
  lemma RetireStep(cfg: Config, s: State, b: Book, t: nat, c: nat, rest: Chain, k: Cont)
    requires ValidConfig(cfg) && Inv(cfg, s, b)
    requires t < |s.threads| && s.threads[t] == Running(ReleaseList(c, rest, k)) && rest != []
    requires IsClass(cfg, c) && |s.central| == |cfg.classes| && ReleaseEnabled(cfg, s, c, rest[0])
    requires s.spans[s.pagemap[PageOf(cfg, rest[0])]].refcount == 1
    ensures Inv(cfg, NextRelease(cfg, s, t, c, rest, k), Retire(cfg, b, t, s.pagemap[PageOf(cfg, rest[0])], c))
  {
    hide LocksOK, PlacesOK, ObjectsOK, SpansOK, PageMapOK, ListedOK, HeldOK, CentralsOK, ThreadsOK, SlotsOK, RefcountsOK, BudgetOK;
    hide CountersOK, ThreadOK, Carved, Unlink, ObjectsPerSpan, OnLists;
    var o := rest[0];
    var id := s.pagemap[PageOf(cfg, o)];
    var sp := s.spans[id];
    var y := RetiredCentral(cfg, s.central[c], id, sp, c);
    var th := Waiting(DeleteSpan(c, id, rest[1..], k));
    var s' := NextRelease(cfg, s, t, c, rest, k);
    Basics(cfg, s, b, t);
    ReleasedObject(cfg, s, b, t, c, rest, k);
    RestThreadOK(cfg, s.spans, s.pagemap, c, rest, k);
    OthersAreHome(cfg, id, sp, o);
    assert Retired(cfg, s, s', t, c, rest, k, id);
    RetireForgets(cfg, s, s', b, t, c, rest, k, id);
    RetirePlaces(cfg, s, s', b, t, id, c);
    RetireObjects(cfg, s.spans, s.pagemap, b, t, id, sp.(refcount := 0));
    RetireSpans(cfg, s, b.keeper, t, id);
    RetiredCentralOK(cfg, s.spans, c, s.central[c], id);
    RetireListed(s, b.keeper, t, c, y, id);
    RetireCentrals(cfg, s, b.keeper, c, y, id, sp.(refcount := 0));
    UnlockKeepsLocks(s.threads, s.locks, t, th);
    OnlyOneList(s, b.keeper, c, id);
    RetireRefcounts(s, t, th, c, y, id);
    SpanChangeKeepsThreads(cfg, s, b.keeper, id, sp.(refcount := 0));
    SlotsKept(cfg, s'.spans, s.pagemap, s.central, c, y);
    RetiredThreadOK(cfg, s, t, c, rest[1..], k, id);
    ThreadsUpdate(cfg, s'.spans, s.pagemap, s.threads, t, th);
    RetireHeld(s.threads, b.keeper, t, id, th);
    BudgetUpdate(cfg, s.central, s.threads, c, y, t, th);
  }

  lemma OnlyOneList(s: State, keeper: Keepers, c: nat, id: nat)
    requires ListedOK(s.central, s.spans, keeper) && c < |s.central| && id in s.spans && s.spans[id].sizeclass == c
    ensures forall e :: 0 <= e < |s.central| && e != c ==> !OnLists(s.central[e], id)
  {
  }

  lemma RetiredThreadOK(cfg: Config, s: State, t: nat, c: nat, rest: Chain, k: Cont, id: nat)
    requires ValidConfig(cfg) && id in s.spans && ThreadOK(cfg, s.spans, s.pagemap, Running(ReleaseList(c, rest, k)))
    ensures ThreadOK(cfg, s.spans[id := s.spans[id].(refcount := 0)], s.pagemap, Waiting(DeleteSpan(c, id, rest, k)))
  {
    ClassesKept(cfg, s.spans, s.pagemap, id, s.spans[id].(refcount := 0));
    ThreadFrame(cfg, s.spans, s.pagemap, s.spans[id := s.spans[id].(refcount := 0)], s.pagemap, Running(ReleaseList(c, rest, k)));
    assert Flight(Waiting(DeleteSpan(c, id, rest, k))) == Flight(Running(ReleaseList(c, rest, k)));
  }

  lemma RetireHeld(threads: seq<Thread>, keeper: Keepers, t: nat, id: nat, th: Thread)
    requires HeldOK(threads, keeper) && t < |threads| && id in keeper && keeper[id] == Listed
    requires Held(th, t) == Some((id, Dying(t)))
    ensures HeldOK(threads[t := th], keeper[id := Dying(t)])
  {
  }
}
