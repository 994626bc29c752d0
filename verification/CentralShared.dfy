/** All classes work on one memory: what one class's code writes, no other class's lists and slots lead to. */
module CentralShared {
  import opened Base
  import opened CentralFreeList
  import opened CentralInvariant
  import opened CentralLemmas
  import opened CentralMemory
  import opened CentralObjects
  import opened CentralRelease
  import opened CentralSpans
  import opened CentralIsolation
  import opened CentralCode

  /** Thread u holds the lock of class c, and the span is on the lists of the class. */
  ghost predicate OwnSpan(s: State, u: nat, c: int, id: nat) {
    0 <= c < |s.central| && Holds(s, u, ClassLock(c)) && OnLists(s.central[c], id)
  }

  /** The first words a step of thread u may write: of objects in its hands, on its class's lists, or that it is carving. */
  ghost predicate MayWrite(cfg: Config, s: State, u: nat, a: Addr)
    requires ValidConfig(cfg) && u < |s.threads|
  {
    || a in Flight(s.threads[u])
    || (exists c, id :: OwnSpan(s, u, c, id) && id in s.spans && a in s.spans[id].objects)
    || (s.threads[u].Carving? && IsClass(cfg, s.threads[u].cl) && a in Carved(cfg, s.threads[u].id, s.threads[u].cl))
  }

  /** The descriptors a step of thread u may write: of its class's spans, and of the span it is carving or adding. */
  ghost predicate MayDescribe(s: State, u: nat, id: nat)
    requires u < |s.threads|
  {
    || (exists c :: OwnSpan(s, u, c, id))
    || (Held(s.threads[u], u).Some? && Held(s.threads[u], u).value.0 == id)
  }

  /** None of these words belongs to an object on another class's lists or in its slots. */
  lemma WritesElsewhere(cfg: Config, s: State, b: Book, c: nat, u: nat, a: Addr, x: nat)
    requires ValidConfig(cfg) && Inv(cfg, s, b) && Stranger(s, c, u) && MayWrite(cfg, s, u, a)
    ensures Untouched(s, c, {a}, x)
  {
    hide Inv, Untouched, Carved, SpanOK, CountersOK;
    if a in Flight(s.threads[u]) {
      FlightObjectAlone(cfg, s, b, c, u, a, x);
    } else if e, id :| OwnSpan(s, u, e, id) && id in s.spans && a in s.spans[id].objects {
      ListBasics(cfg, s, b, e, id);
      OtherSpan(cfg, s, b, c, id);
      ListedElsewhere(cfg, s, b, c, id, a, x);
    } else {
      CarvedElsewhere(cfg, s, b, c, u, a, x);
    }
  }

  lemma ListedElsewhere(cfg: Config, s: State, b: Book, c: nat, id: nat, a: Addr, x: nat)
    requires ValidConfig(cfg) && Inv(cfg, s, b) && c < |s.central| && id in s.spans && id in b.keeper && b.keeper[id] == Listed
    requires a in s.spans[id].objects && !OnLists(s.central[c], id)
    ensures Untouched(s, c, {a}, x)
  {
    hide LocksOK, PlacesOK, ListedOK, ObjectsOK, SpansOK, PageMapOK, HeldOK, CentralsOK, ThreadsOK, SlotsOK, RefcountsOK, BudgetOK;
    PlaceAlone(s, b, c, a, OnSpan(id), id);
  }

  lemma CarvedElsewhere(cfg: Config, s: State, b: Book, c: nat, u: nat, a: Addr, x: nat)
    requires ValidConfig(cfg) && Inv(cfg, s, b) && c < |s.central| && u < |s.threads| && s.threads[u].Carving?
    requires IsClass(cfg, s.threads[u].cl) && a in Carved(cfg, s.threads[u].id, s.threads[u].cl)
    ensures Untouched(s, c, {a}, x)
  {
    hide LocksOK, PlacesOK, ListedOK, ObjectsOK, SpansOK, PageMapOK, HeldOK, CentralsOK, ThreadsOK, SlotsOK, RefcountsOK,
         BudgetOK, Carved, SpanOK;
    var id := s.threads[u].id;
    Basics(cfg, s, b, u);
    SpanShape(cfg, s.spans, b.keeper, id);
    NotYetCarved(cfg, s, b, u, id, s.threads[u].cl, a);
    NowhereYet(s, b, c, a, x);
  }

  lemma NowhereYet(s: State, b: Book, c: nat, a: Addr, x: nat)
    requires PlacesOK(s, b) && ListedOK(s.central, s.spans, b.keeper) && c < |s.central| && a !in b.loc
    ensures Untouched(s, c, {a}, x)
  {
    forall e, o | OnLists(s.central[c], e) && e != x && e in s.spans && o in s.spans[e].objects ensures o != a {
      assert At(s, b.keeper, o, OnSpan(e));
    }
    forall i, o | 0 <= i < |s.central[c].slots| && o in s.central[c].slots[i] ensures o != a {
      assert At(s, b.keeper, o, InSlot(c, i));
    }
  }

  lemma UntouchedAll(s: State, c: nat, touched: set<Addr>, x: nat)
    requires c < |s.central| && forall a :: a in touched ==> Untouched(s, c, {a}, x)
    ensures Untouched(s, c, touched, x)
  {
    forall id, a | OnLists(s.central[c], id) && id != x && id in s.spans && a in s.spans[id].objects ensures a !in touched {
      assert a in touched ==> Untouched(s, c, {a}, x);
      assert a in {a};
    }
    forall i, a | 0 <= i < |s.central[c].slots| && a in s.central[c].slots[i] ensures a !in touched {
      assert a in touched ==> Untouched(s, c, {a}, x);
      assert a in {a};
    }
  }

  /** A descriptor that thread u may write is not that of a span listed in another class. */
  lemma DescribesElsewhere(cfg: Config, s: State, b: Book, c: nat, u: nat, id: nat)
    requires ValidConfig(cfg) && Inv(cfg, s, b) && Stranger(s, c, u) && MayDescribe(s, u, id)
    ensures !OnLists(s.central[c], id)
  {
    hide Inv, SpanOK, CountersOK;
    if e :| OwnSpan(s, u, e, id) {
      ListBasics(cfg, s, b, e, id);
      OtherSpan(cfg, s, b, c, id);
    } else {
      Basics(cfg, s, b, u);
      OtherSpan(cfg, s, b, c, id);
    }
  }

  /**
   While thread u is at work in another class, in the page heap or on its own objects, memory goes
   on showing class c, whether another thread holds its lock or nobody does.
   */
  lemma OtherClassShown(cfg: Config, s: State, b: Book, c: nat, u: nat, ch: Choice, next: Words, next': Words, touched: set<Addr>,
                        descs: Descs, descs': Descs, changed: set<nat>, entries: seq<TCEntry>, used: nat)
    requires ValidConfig(cfg) && Inv(cfg, s, b) && Enabled(cfg, s, u, ch) && Stranger(s, c, u)
    requires SameBut(next, next', touched) && forall a :: a in touched ==> MayWrite(cfg, s, u, a)
    requires SameDescsBut(descs, descs', changed) && forall id :: id in changed ==> MayDescribe(s, u, id)
    requires ShowsSpans(next, descs, s.central[c], s.spans) && ShowsSlots(next, entries, used, s.central[c].slots)
    ensures var s' := Next(cfg, s, u, ch);
            && |s'.central| == |s.central| && s'.central[c] == s.central[c]
            && ShowsSpans(next', descs', s'.central[c], s'.spans) && ShowsSlots(next', entries, used, s'.central[c].slots)
  {
    hide Inv, Next, Enabled, Untouched, MayWrite, MayDescribe, SameBut, IsList, Stranger;
    StrangersLeave(cfg, s, b, c, u, ch);
    InRange(s, c, u);
    forall x: nat ensures Untouched(s, c, touched, x) {
      forall a | a in touched ensures Untouched(s, c, {a}, x) {
        WritesElsewhere(cfg, s, b, c, u, a, x);
      }
      UntouchedAll(s, c, touched, x);
    }
    forall id | OnLists(s.central[c], id) ensures id !in changed {
      if id in changed {
        DescribesElsewhere(cfg, s, b, c, u, id);
      }
    }
    MemoryKept(next, next', touched, descs, descs', changed, entries, used, s, c);
  }

  lemma InRange(s: State, c: nat, u: nat)
    requires Stranger(s, c, u)
    ensures c < |s.central| && u < |s.threads|
  {
  }

  lemma MemoryKept(next: Words, next': Words, touched: set<Addr>, descs: Descs, descs': Descs, changed: set<nat>,
                   entries: seq<TCEntry>, used: nat, s: State, c: nat)
    requires c < |s.central| && SameBut(next, next', touched) && SameDescsBut(descs, descs', changed)
    requires forall x: nat :: Untouched(s, c, touched, x)
    requires forall id :: OnLists(s.central[c], id) ==> id !in changed
    requires ShowsSpans(next, descs, s.central[c], s.spans) && ShowsSlots(next, entries, used, s.central[c].slots)
    ensures ShowsSpans(next', descs', s.central[c], s.spans) && ShowsSlots(next', entries, used, s.central[c].slots)
  {
    hide SameBut, ShowsSlots;
    assert Untouched(s, c, touched, 0);
    SlotsStillShown(next, next', touched, entries, used, s, c, 0);
    forall id: nat | OnLists(s.central[c], id)
      ensures id in s.spans && id in descs' && descs'[id].refcount == s.spans[id].refcount
      ensures IsList(next', descs'[id].objects, s.spans[id].objects)
    {
      assert Untouched(s, c, touched, id + 1);
      ListKept(next, next', touched, descs[id].objects, s.spans[id].objects);
    }
  }

  /** The same on the objects: another thread's writes to the memory it shares leave this list as it is shown. */
  twostate lemma ListStillShown(list: CentralList, s: State, b: Book, u: nat, ch: Choice, touched: set<Addr>, changed: set<nat>)
    requires old(list.Shows(s)) && unchanged(list) && unchanged(list.tcSlots)
    requires Inv(list.cfg, s, b) && Enabled(list.cfg, s, u, ch) && Stranger(s, list.cl, u)
    requires SameBut(old(list.mem.next), list.mem.next, touched) && forall a :: a in touched ==> MayWrite(list.cfg, s, u, a)
    requires SameDescsBut(old(list.mem.descs), list.mem.descs, changed) && forall id :: id in changed ==> MayDescribe(s, u, id)
    ensures list.Shows(Next(list.cfg, s, u, ch))
  {
    hide Inv, Next, Enabled, MayWrite, MayDescribe, SameBut, SameDescsBut, ShowsSpans, ShowsSlots, Stranger;
    assert list.tcSlots[..] == old(list.tcSlots[..]);
    OtherClassShown(list.cfg, s, b, list.cl, u, ch, old(list.mem.next), list.mem.next, touched, old(list.mem.descs),
                    list.mem.descs, changed, list.tcSlots[..], list.usedSlots);
  }
}
