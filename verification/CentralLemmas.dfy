/** Facts about carved addresses, span lists and sums that the step proofs share. */
module CentralLemmas {
  import opened Base
  import opened Division
  import opened CentralFreeList
  import opened CentralInvariant

  lemma ObjectInSpan(pageSize: nat, bytes: nat, id: nat, pages: nat, i: nat)
    requires pageSize > 0 && bytes > 0
    requires i < pages * pageSize / bytes
    ensures id <= ObjectAt(pageSize, bytes, id, i) / pageSize < id + pages
  {
    var a := ObjectAt(pageSize, bytes, id, i);
    var q := pages * pageSize / bytes;
    assert q * bytes <= pages * pageSize;
    MulLe(i + 1, q, bytes);
    assert i * bytes < pages * pageSize;
    assert id * pageSize <= a < (id + pages) * pageSize by {
      assert (id + pages) * pageSize == id * pageSize + pages * pageSize;
    }
    DivBounds(a, pageSize, id, id + pages);
  }

  lemma DivBounds(a: nat, d: nat, lo: nat, hi: nat)
    requires d > 0 && lo * d <= a < hi * d
    ensures lo <= a / d < hi
  {
    var q := a / d;
    assert q * d <= a < (q + 1) * d;
    if q < lo {
      MulLe(q + 1, lo, d);
    }
    if hi <= q {
      MulLe(hi, q, d);
    }
  }

  /** An object lies on a page of the span it was carved from, so MapObjectToSpan can find that span. */
  lemma CarvedPage(cfg: Config, id: nat, c: nat, a: Addr)
    requires ValidConfig(cfg) && IsClass(cfg, c) && a in Carved(cfg, id, c)
    ensures id <= PageOf(cfg, a) < id + cfg.classes[c].pages
  {
    var i :| 0 <= i < |Carved(cfg, id, c)| && a == Carved(cfg, id, c)[i];
    ObjectInSpan(cfg.pageSize, cfg.classes[c].bytes, id, cfg.classes[c].pages, i);
  }

  lemma CarvedNoDup(cfg: Config, id: nat, c: nat)
    requires ValidConfig(cfg) && IsClass(cfg, c)
    ensures NoDup(Carved(cfg, id, c))
  {
    var bytes := cfg.classes[c].bytes;
    forall i, j | 0 <= i < j < |Carved(cfg, id, c)|
      ensures Carved(cfg, id, c)[i] != Carved(cfg, id, c)[j]
    {
      MulLe(i + 1, j, bytes);
      assert (i + 1) * bytes == i * bytes + bytes;
    }
  }

  lemma AtLeastOneObject(cfg: Config, c: nat)
    requires ValidConfig(cfg) && IsClass(cfg, c)
    ensures ObjectsPerSpan(cfg, c) >= 1
  {
  }

  // ----- sequences without duplicates

  ghost function Elements<T>(s: seq<T>): set<T> {
    set x | x in s
  }

  lemma ElementsSize<T>(s: seq<T>)
    ensures |Elements(s)| <= |s|
    ensures NoDup(s) ==> |Elements(s)| == |s|
  {
    if s != [] {
      var last := |s| - 1;
      ElementsSize(s[..last]);
      assert Elements(s) == Elements(s[..last]) + {s[last]};
    } else {
      assert Elements(s) == {};
    }
  }

  /** A list that misses exactly one of the objects of `whole` holds all the others. */
  lemma AllButOne<T>(part: seq<T>, whole: seq<T>, o: T)
    requires NoDup(part) && NoDup(whole)
    requires forall x :: x in part ==> x in whole && x != o
    requires o in whole && |part| + 1 == |whole|
    ensures forall x :: x in whole && x != o ==> x in part
  {
    ElementsSize(part);
    ElementsSize(whole);
    var p, w := Elements(part), Elements(whole) - {o};
    forall x | x in p ensures x in w {
      assert x in part;
      assert x in whole;
    }
    SubsetEq(p, w);
    forall x | x in whole && x != o ensures x in part {
      assert x in w;
    }
  }

  lemma SubsetEq<T>(p: set<T>, w: set<T>)
    requires p <= w && |p| == |w|
    ensures p == w
  {
    assert w == p + (w - p);
    assert |w| == |p| + |w - p|;
  }

  /** A proper sublist leaves something out, so its length is smaller. */
  lemma FewerThanAll<T>(part: seq<T>, whole: seq<T>, o: T)
    requires NoDup(part) && NoDup(whole)
    requires forall x :: x in part ==> x in whole && x != o
    requires o in whole
    ensures |part| < |whole|
  {
    ElementsSize(part);
    ElementsSize(whole);
    forall x | x in Elements(part) ensures x in Elements(whole) - {o} {
      assert x in part;
      assert x in whole;
    }
    SubsetSize(Elements(part), Elements(whole) - {o});
  }

  lemma SubsetSize<T>(p: set<T>, w: set<T>)
    requires p <= w
    ensures |p| <= |w|
  {
    assert w == p + (w - p);
  }

  // ----- span lists

  lemma UnlinkFacts(s: seq<nat>, x: nat)
    requires NoDup(s)
    ensures forall y :: y in Unlink(s, x) <==> y in s && y != x
    ensures NoDup(Unlink(s, x))
    ensures |Unlink(s, x)| == |s| - (if x in s then 1 else 0)
  {
    if s != [] {
      var rest := s[1..];
      assert NoDup(rest);
      UnlinkFacts(rest, x);
      assert s == [s[0]] + rest;
      assert s[0] !in rest;
    }
  }

  /** Taking a span out once is enough. */
  lemma {:induction false} UnlinkAgain(ids: seq<nat>, id: nat)
    ensures Unlink(Unlink(ids, id), id) == Unlink(ids, id) == Unlink([id] + Unlink(ids, id), id)
  {
    if ids != [] {
      UnlinkAgain(ids[1..], id);
    }
  }

  lemma NoDupCons<T>(x: T, s: seq<T>)
    requires NoDup(s) && x !in s
    ensures NoDup([x] + s)
  {
  }

  lemma FreeObjectsFrame(spans: map<nat, Span>, spans': map<nat, Span>, ids: seq<nat>)
    requires forall id :: id in ids ==> (id in spans <==> id in spans') && (id in spans ==> |spans[id].objects| == |spans'[id].objects|)
    ensures FreeObjects(spans, ids) == FreeObjects(spans', ids)
  {
    if ids != [] {
      assert ids[0] in ids;
      FreeObjectsFrame(spans, spans', ids[1..]);
    }
  }

  lemma FreeObjectsUpdate(spans: map<nat, Span>, ids: seq<nat>, id: nat, sp: Span)
    requires NoDup(ids) && id in spans
    ensures FreeObjects(spans[id := sp], ids)
         == FreeObjects(spans, ids) + if id in ids then |sp.objects| - |spans[id].objects| else 0
  {
    if ids != [] {
      var rest := ids[1..];
      assert NoDup(rest);
      FreeObjectsUpdate(spans, rest, id, sp);
      if ids[0] == id {
        assert id !in rest;
      } else {
        assert id in ids <==> id in rest by {
          assert ids == [ids[0]] + rest;
        }
      }
    }
  }

  lemma FreeObjectsUnlink(spans: map<nat, Span>, ids: seq<nat>, id: nat)
    requires NoDup(ids) && id in spans
    ensures FreeObjects(spans, Unlink(ids, id))
         == FreeObjects(spans, ids) - if id in ids then |spans[id].objects| else 0
  {
    if ids != [] {
      var rest := ids[1..];
      assert NoDup(rest);
      FreeObjectsUnlink(spans, rest, id);
      assert ids == [ids[0]] + rest;
      if ids[0] == id {
        assert id !in rest;
      } else {
        var u := Unlink(rest, id);
        assert Unlink(ids, id) == [ids[0]] + u;
        assert ([ids[0]] + u)[1..] == u;
      }
    }
  }

  // ----- sums

  lemma CacheTotalUpdate(central: seq<Central>, c: nat, x: Central)
    requires c < |central|
    ensures CacheTotal(central[c := x]) == CacheTotal(central) - central[c].cacheSize + x.cacheSize
  {
    if c == 0 {
      assert central[0 := x][1..] == central[1..];
    } else {
      assert central[c := x][1..] == central[1..][c - 1 := x];
      CacheTotalUpdate(central[1..], c - 1, x);
    }
  }

  lemma UnspentTotalUpdate(threads: seq<Thread>, t: nat, th: Thread)
    requires t < |threads|
    ensures UnspentTotal(threads[t := th]) == UnspentTotal(threads) - Unspent(threads[t]) + Unspent(th)
  {
    if t == 0 {
      assert threads[0 := th][1..] == threads[1..];
    } else {
      assert threads[t := th][1..] == threads[1..][t - 1 := th];
      UnspentTotalUpdate(threads[1..], t - 1, th);
    }
  }

  lemma UnspentTotalIdle(threads: seq<Thread>)
    requires forall t :: 0 <= t < |threads| ==> threads[t] == Idle
    ensures UnspentTotal(threads) == 0
  {
  }

  // ----- what a thread's part of the invariant depends on

  lemma TodoFrame(cfg: Config, spans: Spans, pagemap: PageMap, spans': Spans, pagemap': PageMap, d: Todo)
    requires cfg.pageSize > 0 && TodoOK(cfg, spans, pagemap, d)
    requires forall a :: a in TodoChain(d) ==> ClassOfObject(cfg, spans', pagemap', a) == ClassOfObject(cfg, spans, pagemap, a)
    requires d.AddSpan? && d.span.Some? ==> d.span.value in spans' && spans'[d.span.value] == spans[d.span.value]
    ensures TodoOK(cfg, spans', pagemap', d)
  {
  }

  lemma ThreadFrame(cfg: Config, spans: Spans, pagemap: PageMap, spans': Spans, pagemap': PageMap, th: Thread)
    requires cfg.pageSize > 0 && ThreadOK(cfg, spans, pagemap, th)
    requires forall a :: a in Flight(th) ==> ClassOfObject(cfg, spans', pagemap', a) == ClassOfObject(cfg, spans, pagemap, a)
    requires Held(th, 0).Some? && !Held(th, 0).value.1.Dying? ==>
               Held(th, 0).value.0 in spans' && Held(th, 0).value.0 in spans && spans'[Held(th, 0).value.0] == spans[Held(th, 0).value.0]
    ensures ThreadOK(cfg, spans', pagemap', th)
  {
    match th
    case Waiting(d) => TodoFrame(cfg, spans, pagemap, spans', pagemap', d);
    case Running(d) => TodoFrame(cfg, spans, pagemap, spans', pagemap', d);
    case _ =>
  }

  lemma ThreadsUpdate(cfg: Config, spans: Spans, pagemap: PageMap, threads: seq<Thread>, t: nat, th: Thread)
    requires cfg.pageSize > 0 && ThreadsOK(cfg, spans, pagemap, threads) && t < |threads| && ThreadOK(cfg, spans, pagemap, th)
    ensures ThreadsOK(cfg, spans, pagemap, threads[t := th])
  {
  }

  lemma HeldUpdate(threads: seq<Thread>, keeper: Keepers, t: nat, th: Thread)
    requires HeldOK(threads, keeper) && t < |threads|
    requires Held(th, t).Some? ==> Held(th, t).value.0 in keeper && keeper[Held(th, t).value.0] == Held(th, t).value.1
    ensures HeldOK(threads[t := th], keeper)
  {
  }

  lemma BudgetUpdate(cfg: Config, central: seq<Central>, threads: seq<Thread>, c: nat, y: Central, t: nat, th: Thread)
    requires ValidConfig(cfg) && BudgetOK(cfg, central, threads) && c < |central| && t < |threads|
    requires y.cacheSize + Unspent(th) <= central[c].cacheSize + Unspent(threads[t])
    ensures BudgetOK(cfg, central[c := y], threads[t := th])
  {
    UnspentTotalUpdate(threads, t, th);
    CacheTotalUpdate(central, c, y);
  }

  /** The parts of the invariant that concern one thread and the shape of the state. */
  lemma Basics(cfg: Config, s: State, b: Book, t: nat)
    requires ValidConfig(cfg) && Inv(cfg, s, b) && t < |s.threads|
    ensures |s.central| == |cfg.classes|
    ensures ThreadOK(cfg, s.spans, s.pagemap, s.threads[t])
    ensures s.threads[t].Running? ==> LockOf(s.threads[t].todo) in s.locks && s.locks[LockOf(s.threads[t].todo)] == t
    ensures Held(s.threads[t], t).Some? ==>
              Held(s.threads[t], t).value.0 in s.spans && Held(s.threads[t], t).value.0 in b.keeper
              && b.keeper[Held(s.threads[t], t).value.0] == Held(s.threads[t], t).value.1
    ensures forall c :: 0 <= c < |s.central| && AboutToFetch(s.threads[t], c) ==> s.central[c].nonempty != []
  {
  }

  lemma CacheBasics(cfg: Config, s: State, c: nat)
    requires ValidConfig(cfg) && c < |s.central| && CentralsOK(cfg, s.spans, s.central) && SlotsOK(cfg, s.spans, s.pagemap, s.central)
    ensures |s.central| == |cfg.classes| && CacheOK(cfg, c, s.central[c])
    ensures forall i :: 0 <= i < |s.central[c].slots| ==> ChainOK(cfg, s.spans, s.pagemap, s.central[c].slots[i], c)
  {
  }
}
