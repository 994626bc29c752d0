/**
 What each stretch of code leaves behind, stated on the fields themselves, and what whole calls of
 InsertRange and RemoveRange do when no other thread comes between.
 */
module CentralOutcomes {
  import opened Base
  import opened Division
  import opened CentralFreeList
  import opened CentralLemmas

  function Objects(chain: Chain): set<Addr> {
    set a | a in chain
  }

  // ----- single stretches

  /** A call begins by waiting for its class's lock; the caller's objects are in its hands from then on. */
  lemma CallOutcome(cfg: Config, s: State, t: nat, ch: Choice)
    requires ValidConfig(cfg) && Enabled(cfg, s, t, ch) && s.threads[t] == Idle
    ensures ch.Insert? || ch.Remove?
    ensures Next(cfg, s, t, ch) ==
            if ch.Insert? then s.(threads := s.threads[t := Waiting(InsertBody(ch.cl, ch.chain))], out := s.out - Objects(ch.chain))
            else s.(threads := s.threads[t := Waiting(RemoveBody(ch.cl, ch.n))])
  {
  }

  /** A waiting thread gets the lock it waits for, which nobody had. */
  lemma AcquireOutcome(cfg: Config, s: State, t: nat, d: Todo, l: Lock)
    requires ValidConfig(cfg) && t < |s.threads| && s.threads[t] == Waiting(d) && |s.central| == |cfg.classes|
    requires l == match d
                  case InsertBody(cl, _) => ClassLock(cl)
                  case TryEvict(cl, _, _) => ClassLock(cl)
                  case ShrinkBody(_, _, victim, _) => ClassLock(victim)
                  case AfterShrink(cl, _, _, _) => ClassLock(cl)
                  case ReleaseList(c, _, _) => ClassLock(c)
                  case DeleteSpan(_, _, _, _) => PageHeapLock
                  case RemoveBody(cl, _) => ClassLock(cl)
                  case AllocSpan(_, _) => PageHeapLock
                  case AddSpan(cl, _, _) => ClassLock(cl)
                  case Fetch(cl, _, _, _) => ClassLock(cl)
    ensures Enabled(cfg, s, t, NoChoice) <==> l !in s.locks
    ensures l !in s.locks ==> Next(cfg, s, t, NoChoice) == s.(threads := s.threads[t := Running(d)], locks := s.locks[l := t])
  {
  }

  /** InsertRange: the chain goes into the next slot exactly if it is a full batch and a slot is free. */
  lemma InsertOutcome(cfg: Config, s: State, t: nat, cl: nat, chain: Chain)
    requires ValidConfig(cfg) && Enabled(cfg, s, t, NoChoice) && s.threads[t] == Running(InsertBody(cl, chain))
    ensures var s' := Next(cfg, s, t, NoChoice);
            var x := s.central[cl];
            var room := |chain| == cfg.classes[cl].batch && |x.slots| < x.cacheSize;
            && (s'.central[cl].slots == x.slots + [chain] <==> room)
            && (s'.threads[t] == Idle <==> room)
            && s' == if room then s.(central := s.central[cl := x.(slots := x.slots + [chain])], locks := s.locks - {ClassLock(cl)},
                                     threads := s.threads[t := Idle])
                     else s.(threads := s.threads[t := Running(
                       if |chain| == cfg.classes[cl].batch && x.cacheSize != x.maxCacheSize then TryEvict(cl, chain, false)
                       else ReleaseList(cl, chain, Return))])
  {
    assert |s.central[cl].slots + [chain]| == |s.central[cl].slots| + 1;
  }

  /** EvictRandomSizeClass: on to the victim's lock, or a second attempt with force, or no eviction at all. */
  lemma EvictOutcome(cfg: Config, s: State, t: nat, cl: nat, chain: Chain, force: bool, v: nat, passes: bool)
    requires ValidConfig(cfg) && Enabled(cfg, s, t, Victim(v, passes)) && s.threads[t] == Running(TryEvict(cl, chain, force))
    ensures Next(cfg, s, t, Victim(v, passes)) ==
            if v != cl && passes then
              s.(threads := s.threads[t := Waiting(ShrinkBody(cl, chain, v, force))], locks := s.locks - {ClassLock(cl)})
            else s.(threads := s.threads[t := Running(if force then ReleaseList(cl, chain, Return) else TryEvict(cl, chain, true))])
  {
  }

  /** ShrinkCache: the victim loses one unit of cache size, unless it has none or is full and not forced. */
  lemma ShrinkOutcome(cfg: Config, s: State, t: nat, cl: nat, chain: Chain, v: nat, force: bool)
    requires ValidConfig(cfg) && Enabled(cfg, s, t, NoChoice) && s.threads[t] == Running(ShrinkBody(cl, chain, v, force))
    ensures var x := s.central[v];
            var full := |x.slots| == x.cacheSize;
            var unlocked := s.(locks := s.locks - {ClassLock(v)});
            Next(cfg, s, t, NoChoice) ==
            if x.cacheSize == 0 || (full && !force) then
              unlocked.(threads := s.threads[t := Waiting(AfterShrink(cl, chain, force, false))])
            else if full then
              s.(central := s.central[v := x.(cacheSize := x.cacheSize - 1, slots := x.slots[..|x.slots| - 1])],
                 threads := s.threads[t := Running(ReleaseList(v, x.slots[|x.slots| - 1], Resume(cl, chain)))])
            else
              unlocked.(central := s.central[v := x.(cacheSize := x.cacheSize - 1)],
                        threads := s.threads[t := Waiting(AfterShrink(cl, chain, force, true))])
  {
  }

  /** Back under the class's own lock: a slot won is used if the cache may still grow; an attempt lost is repeated once, with force. */
  lemma AfterShrinkOutcome(cfg: Config, s: State, t: nat, cl: nat, chain: Chain, force: bool, ok: bool)
    requires ValidConfig(cfg) && Enabled(cfg, s, t, NoChoice) && s.threads[t] == Running(AfterShrink(cl, chain, force, ok))
    ensures var x := s.central[cl];
            Next(cfg, s, t, NoChoice) ==
            if ok && x.cacheSize < x.maxCacheSize then
              s.(central := s.central[cl := x.(slots := x.slots + [chain], cacheSize := x.cacheSize + 1)],
                 locks := s.locks - {ClassLock(cl)}, threads := s.threads[t := Idle])
            else if !ok && !force then s.(threads := s.threads[t := Running(TryEvict(cl, chain, true))])
            else s.(threads := s.threads[t := Running(ReleaseList(cl, chain, Return))])
  {
  }

  /** ReleaseToSpans on an object whose span stays: the object is the first of its span's list again. */
  lemma ReleaseOutcome(cfg: Config, s: State, t: nat, c: nat, rest: Chain, k: Cont)
    requires ValidConfig(cfg) && Enabled(cfg, s, t, NoChoice) && s.threads[t] == Running(ReleaseList(c, rest, k)) && rest != []
    requires s.spans[s.pagemap[rest[0] / cfg.pageSize]].refcount != 1
    ensures var id := s.pagemap[rest[0] / cfg.pageSize];
            var sp := s.spans[id];
            var x := s.central[c];
            Next(cfg, s, t, NoChoice) ==
              s.(spans := s.spans[id := sp.(refcount := sp.refcount - 1, objects := [rest[0]] + sp.objects)],
                 central := s.central[c := if sp.objects == []
                   then x.(counter := x.counter + 1, empty := Unlink(x.empty, id), nonempty := [id] + Unlink(x.nonempty, id))
                   else x.(counter := x.counter + 1)],
                 threads := s.threads[t := Running(ReleaseList(c, rest[1..], k))])
  {
  }

  /** ReleaseToSpans on a span's last object in use: the span leaves its class and goes to the page heap. */
  lemma RetireOutcome(cfg: Config, s: State, t: nat, c: nat, rest: Chain, k: Cont)
    requires ValidConfig(cfg) && Enabled(cfg, s, t, NoChoice) && s.threads[t] == Running(ReleaseList(c, rest, k)) && rest != []
    requires s.spans[s.pagemap[rest[0] / cfg.pageSize]].refcount == 1
    ensures var id := s.pagemap[rest[0] / cfg.pageSize];
            var x := s.central[c];
            Next(cfg, s, t, NoChoice) ==
              s.(spans := s.spans[id := s.spans[id].(refcount := 0)],
                 central := s.central[c := x.(nonempty := Unlink(x.nonempty, id), empty := Unlink(x.empty, id), numSpans := x.numSpans - 1,
                   counter := x.counter + 1 - cfg.classes[c].pages * cfg.pageSize / cfg.classes[c].bytes)],
                 locks := s.locks - {ClassLock(c)}, threads := s.threads[t := Waiting(DeleteSpan(c, id, rest[1..], k))])
  {
    var id := s.pagemap[PageOf(cfg, rest[0])];
    UnlinkAgain(s.central[c].nonempty, id);
    UnlinkAgain(s.central[c].empty, id);
  }

  /** DLL_Remove takes the span out and leaves the order of the others. */
  lemma {:induction false} UnlinkSplit(before: seq<nat>, id: nat, after: seq<nat>)
    requires id !in before && id !in after
    ensures Unlink(before + [id] + after, id) == before + after == Unlink(before + after, id)
  {
    if before != [] {
      var rest := before[1..];
      assert (before + [id] + after)[1..] == rest + [id] + after && (before + after)[1..] == rest + after;
      UnlinkSplit(rest, id, after);
      assert [before[0]] + (rest + after) == before + after;
    } else {
      assert ([id] + after)[1..] == after && before + [id] + after == [id] + after && before + after == after;
      UnlinkNothing(id, after);
    }
  }

  lemma {:induction false} UnlinkNothing(id: nat, ids: seq<nat>)
    requires id !in ids
    ensures Unlink(ids, id) == ids
  {
    if ids != [] {
      UnlinkNothing(id, ids[1..]);
      assert [ids[0]] + ids[1..] == ids;
    }
  }

  /** The chain is released: InsertRange returns, or MakeCacheSpace goes on with the slot it has won. */
  lemma ReleasedOutcome(cfg: Config, s: State, t: nat, c: nat, k: Cont)
    requires ValidConfig(cfg) && Enabled(cfg, s, t, NoChoice) && s.threads[t] == Running(ReleaseList(c, [], k))
    ensures Next(cfg, s, t, NoChoice) ==
              s.(locks := s.locks - {ClassLock(c)},
                 threads := s.threads[t := if k.Return? then Idle else Waiting(AfterShrink(k.cl, k.chain, true, true))])
  {
  }

  /** PageHeap::Delete: the descriptor goes, with every page that leads to it and no other page. */
  lemma DeleteOutcome(cfg: Config, s: State, t: nat, c: nat, id: nat, rest: Chain, k: Cont)
    requires ValidConfig(cfg) && Enabled(cfg, s, t, NoChoice) && s.threads[t] == Running(DeleteSpan(c, id, rest, k))
    ensures var s' := Next(cfg, s, t, NoChoice);
            && s' == s.(spans := s.spans - {id}, pagemap := s'.pagemap, locks := s.locks - {PageHeapLock},
                        threads := s.threads[t := Waiting(ReleaseList(c, rest, k))])
            && (forall p :: p in s'.pagemap <==> p in s.pagemap && s.pagemap[p] != id)
            && forall p :: p in s'.pagemap ==> s'.pagemap[p] == s.pagemap[p]
  {
  }

  /** RemoveRange's first look: the last batch stored, or a new span, or the first span's objects. */
  lemma RemoveOutcome(cfg: Config, s: State, t: nat, cl: nat, n: nat)
    requires ValidConfig(cfg) && Enabled(cfg, s, t, NoChoice) && s.threads[t] == Running(RemoveBody(cl, n))
    ensures var s' := Next(cfg, s, t, NoChoice);
            var x := s.central[cl];
            if n == cfg.classes[cl].batch && x.slots != [] then
              s' == s.(central := s.central[cl := x.(slots := x.slots[..|x.slots| - 1])], locks := s.locks - {ClassLock(cl)},
                       threads := s.threads[t := Idle], out := s.out + Objects(x.slots[|x.slots| - 1]))
            else if x.nonempty != [] then s' == s.(threads := s.threads[t := Running(Fetch(cl, n, [], false))])
            else s' == s.(threads := s.threads[t := Waiting(AllocSpan(cl, n))], locks := s.locks - {ClassLock(cl)})
  {
  }

  /** PageHeap::New: a descriptor without objects for the pages, all of which lead to it; or nothing at all. */
  lemma AllocOutcome(cfg: Config, s: State, t: nat, cl: nat, n: nat, start: Option<nat>)
    requires ValidConfig(cfg) && Enabled(cfg, s, t, Pages(start)) && s.threads[t] == Running(AllocSpan(cl, n))
    ensures var s' := Next(cfg, s, t, Pages(start));
            var unlocked := s.(locks := s.locks - {PageHeapLock});
            if start.None? then s' == unlocked.(threads := s.threads[t := Waiting(AddSpan(cl, n, None))])
            else
              var pages := cfg.classes[cl].pages;
              && s' == unlocked.(threads := s.threads[t := Carving(cl, n, start.value)], pagemap := s'.pagemap,
                                 spans := s.spans[start.value := Span(pages, cl, [], 0)])
              && (forall p :: p in s'.pagemap <==> p in s.pagemap || start.value <= p < start.value + pages)
              && forall p :: p in s'.pagemap ==>
                   s'.pagemap[p] == if start.value <= p < start.value + pages then start.value else s.pagemap[p]
  {
  }

  /** Populate outside all locks: the span's list holds, in address order, every object that fits in its pages. */
  lemma CarveOutcome(cfg: Config, s: State, t: nat, cl: nat, n: nat, id: nat)
    requires ValidConfig(cfg) && Enabled(cfg, s, t, NoChoice) && s.threads[t] == Carving(cl, n, id)
    ensures var s' := Next(cfg, s, t, NoChoice);
            var objs := s'.spans[id].objects;
            var bytes, room := cfg.classes[cl].bytes, cfg.classes[cl].pages * cfg.pageSize;
            && s' == s.(spans := s.spans[id := s.spans[id].(objects := objs, refcount := 0)],
                        threads := s.threads[t := Waiting(AddSpan(cl, n, Some(id)))])
            && |objs| * bytes <= room < (|objs| + 1) * bytes
            && forall i :: 0 <= i < |objs| ==> objs[i] == id * cfg.pageSize + i * bytes
  {
    var bytes, room := cfg.classes[cl].bytes, cfg.classes[cl].pages * cfg.pageSize;
    var q := room / bytes;
    assert q * bytes <= room < q * bytes + bytes == (q + 1) * bytes;
  }

  /** Populate back under the lock: the carved span is the class's first; a refused one changes nothing. */
  lemma AddOutcome(cfg: Config, s: State, t: nat, cl: nat, n: nat, sp: Option<nat>)
    requires ValidConfig(cfg) && Enabled(cfg, s, t, NoChoice) && s.threads[t] == Running(AddSpan(cl, n, sp))
    ensures var x := s.central[cl];
            Next(cfg, s, t, NoChoice) ==
            if sp.None? then s.(threads := s.threads[t := Running(Fetch(cl, n, [], true))])
            else s.(central := s.central[cl := x.(nonempty := [sp.value] + x.nonempty, numSpans := x.numSpans + 1,
                                                  counter := x.counter + |s.spans[sp.value].objects|)],
                    threads := s.threads[t := Running(Fetch(cl, n, [], false))])
  {
  }

  /** One more FetchFromOneSpans: as many of the first span's first objects as are still wanted, in front of what was fetched before. */
  lemma FetchOutcome(cfg: Config, s: State, t: nat, cl: nat, n: nat, acc: Chain, failed: bool, id: nat, take: nat)
    requires ValidConfig(cfg) && Enabled(cfg, s, t, NoChoice) && s.threads[t] == Running(Fetch(cl, n, acc, failed)) && |acc| < n
    requires s.central[cl].nonempty != [] && id == s.central[cl].nonempty[0]
    requires take <= |s.spans[id].objects| && |acc| + take <= n && (take == |s.spans[id].objects| || |acc| + take == n)
    ensures var sp := s.spans[id];
            var x := s.central[cl];
            Next(cfg, s, t, NoChoice) ==
              s.(spans := s.spans[id := sp.(objects := sp.objects[take..], refcount := sp.refcount + take)],
                 central := s.central[cl := if take == |sp.objects|
                   then x.(counter := x.counter - take, nonempty := Unlink(x.nonempty, id), empty := [id] + Unlink(x.empty, id))
                   else x.(counter := x.counter - take)],
                 threads := s.threads[t := Running(Fetch(cl, n, sp.objects[..take] + acc, failed))])
  {
  }

  /** RemoveRange returns: with the count asked for, or because the class has no more objects. */
  lemma ReturnOutcome(cfg: Config, s: State, t: nat, cl: nat, n: nat, acc: Chain, failed: bool)
    requires ValidConfig(cfg) && Enabled(cfg, s, t, NoChoice) && s.threads[t] == Running(Fetch(cl, n, acc, failed))
    requires |acc| == n || s.central[cl].nonempty == []
    ensures Next(cfg, s, t, NoChoice) ==
              s.(out := s.out + Objects(acc), locks := s.locks - {ClassLock(cl)}, threads := s.threads[t := Idle])
  {
  }

  // ----- limits

  /** Init's limit: at most 64 batches, and as many of them as fit in one megabyte, but at least one. */
  lemma CacheLimitExact(cfg: Config, c: nat)
    requires ValidConfig(cfg) && c < |cfg.classes|
    ensures var m := MaxCacheSize(cfg, c);
            var batchBytes := cfg.classes[c].bytes * cfg.classes[c].batch;
            && 1 <= m <= 64
            && (c == 0 ==> m == 64)
            && (c > 0 && m > 1 ==> m * batchBytes <= 1048576)
            && (c > 0 && m < 64 ==> (m + 1) * batchBytes > 1048576)
    ensures InitCentral(cfg, c).cacheSize == if MaxCacheSize(cfg, c) < 16 then MaxCacheSize(cfg, c) else 16
  {
    if c > 0 {
      hide ValidConfig;
      var y := PositiveProduct(cfg.classes[c].bytes, cfg.classes[c].batch);
      var q := 1048576 / y;
      assert q * y <= 1048576 < q * y + y == (q + 1) * y;
      var m := MaxCacheSize(cfg, c);
      MulLe(if m <= q then m else q, q, y);
      MulLe(q + 1, if m >= q then m + 1 else q + 1, y);
    }
  }

  // ----- whole calls without interference

  /** Thread t, with these choices and nobody between, gets from s to s'. */
  ghost predicate Alone(cfg: Config, s: State, t: nat, chs: seq<Choice>, s': State)
    requires ValidConfig(cfg)
    decreases |chs|
  {
    if chs == [] then s' == s
    else Enabled(cfg, s, t, chs[0]) && Alone(cfg, Next(cfg, s, t, chs[0]), t, chs[1..], s')
  }

  lemma OneStep(cfg: Config, s: State, t: nat, ch: Choice, chs: seq<Choice>, s': State)
    requires ValidConfig(cfg) && Enabled(cfg, s, t, ch) && Alone(cfg, Next(cfg, s, t, ch), t, chs, s')
    ensures Alone(cfg, s, t, [ch] + chs, s')
  {
    assert ([ch] + chs)[1..] == chs;
  }

  lemma {:induction false} AloneThen(cfg: Config, s: State, t: nat, chs: seq<Choice>, m: State, more: seq<Choice>, s': State)
    requires ValidConfig(cfg) && Alone(cfg, s, t, chs, m) && Alone(cfg, m, t, more, s')
    ensures Alone(cfg, s, t, chs + more, s')
    decreases |chs|
  {
    hide Next, Enabled, ValidConfig;
    if chs == [] {
      assert chs + more == more;
    } else {
      AloneThen(cfg, Next(cfg, s, t, chs[0]), t, chs[1..], m, more, s');
      assert chs + more == [chs[0]] + (chs[1..] + more);
      OneStep(cfg, s, t, chs[0], chs[1..] + more, s');
    }
  }

  /** Taking the lock and giving it back leaves the lock table as it was. */
  lemma LockAndUnlock(locks: map<Lock, nat>, l: Lock, t: nat)
    requires l !in locks
    ensures locks[l := t] - {l} == locks
  {
  }

  /** InsertRange of a full batch with a slot free: the batch is stored, and nothing else has changed. */
  lemma InsertIntoSlot(cfg: Config, s: State, t: nat, cl: nat, chain: Chain)
    requires ValidConfig(cfg) && Enabled(cfg, s, t, Insert(cl, chain)) && s.threads[t] == Idle && ClassLock(cl) !in s.locks
    requires |chain| == cfg.classes[cl].batch && |s.central[cl].slots| < s.central[cl].cacheSize
    ensures var x := s.central[cl];
            Alone(cfg, s, t, [Insert(cl, chain), NoChoice, NoChoice],
                  s.(out := s.out - Objects(chain), central := s.central[cl := x.(slots := x.slots + [chain])]))
  {
    hide Next, ValidConfig;
    CallOutcome(cfg, s, t, Insert(cl, chain));
    var s1 := Next(cfg, s, t, Insert(cl, chain));
    AcquireOutcome(cfg, s1, t, InsertBody(cl, chain), ClassLock(cl));
    var s2 := Next(cfg, s1, t, NoChoice);
    InsertOutcome(cfg, s2, t, cl, chain);
    var s3 := Next(cfg, s2, t, NoChoice);
    LockAndUnlock(s.locks, ClassLock(cl), t);
    assert s3.threads == s.threads;
    ThreeSteps(cfg, s, t, Insert(cl, chain), NoChoice, NoChoice, s1, s2, s3);
  }

  lemma ThreeSteps(cfg: Config, s: State, t: nat, ch1: Choice, ch2: Choice, ch3: Choice, s1: State, s2: State, s3: State)
    requires ValidConfig(cfg) && Enabled(cfg, s, t, ch1) && s1 == Next(cfg, s, t, ch1)
    requires Enabled(cfg, s1, t, ch2) && s2 == Next(cfg, s1, t, ch2)
    requires Enabled(cfg, s2, t, ch3) && s3 == Next(cfg, s2, t, ch3)
    ensures Alone(cfg, s, t, [ch1, ch2, ch3], s3)
  {
    hide Next, Enabled, ValidConfig;
    assert Alone(cfg, s3, t, [], s3);
    OneStep(cfg, s2, t, ch3, [], s3);
    OneStep(cfg, s1, t, ch2, [ch3], s3);
    OneStep(cfg, s, t, ch1, [ch2, ch3], s3);
    assert [ch1] + [ch2, ch3] == [ch1, ch2, ch3] && [ch2] + [ch3] == [ch2, ch3] && [ch3] + [] == [ch3];
  }

  /** RemoveRange of a full batch with a slot in use: the batch stored last, and nothing else has changed. */
  lemma RemoveFromSlot(cfg: Config, s: State, t: nat, cl: nat)
    requires ValidConfig(cfg) && IsClass(cfg, cl) && Enabled(cfg, s, t, Remove(cl, cfg.classes[cl].batch))
    requires s.threads[t] == Idle && ClassLock(cl) !in s.locks && s.central[cl].slots != []
    ensures var x := s.central[cl];
            var last := |x.slots| - 1;
            Alone(cfg, s, t, [Remove(cl, cfg.classes[cl].batch), NoChoice, NoChoice],
                  s.(out := s.out + Objects(x.slots[last]), central := s.central[cl := x.(slots := x.slots[..last])]))
  {
    hide Next, ValidConfig;
    var n := cfg.classes[cl].batch;
    CallOutcome(cfg, s, t, Remove(cl, n));
    var s1 := Next(cfg, s, t, Remove(cl, n));
    AcquireOutcome(cfg, s1, t, RemoveBody(cl, n), ClassLock(cl));
    var s2 := Next(cfg, s1, t, NoChoice);
    RemoveOutcome(cfg, s2, t, cl, n);
    var s3 := Next(cfg, s2, t, NoChoice);
    LockAndUnlock(s.locks, ClassLock(cl), t);
    assert s3.threads == s.threads;
    ThreeSteps(cfg, s, t, Remove(cl, n), NoChoice, NoChoice, s1, s2, s3);
  }

  /** A batch inserted into a free slot and asked for again is the batch that comes back; the whole state is as before. */
  lemma CacheRoundTrip(cfg: Config, s: State, t: nat, cl: nat, chain: Chain)
    requires ValidConfig(cfg) && Enabled(cfg, s, t, Insert(cl, chain)) && s.threads[t] == Idle && ClassLock(cl) !in s.locks
    requires |chain| == cfg.classes[cl].batch && |s.central[cl].slots| < s.central[cl].cacheSize
    ensures Alone(cfg, s, t, [Insert(cl, chain), NoChoice, NoChoice, Remove(cl, |chain|), NoChoice, NoChoice], s)
  {
    var x := s.central[cl];
    var y := x.(slots := x.slots + [chain]);
    var m := s.(out := s.out - Objects(chain), central := s.central[cl := y]);
    var insert, remove := [Insert(cl, chain), NoChoice, NoChoice], [Remove(cl, |chain|), NoChoice, NoChoice];
    hide Next, Alone;
    InsertIntoSlot(cfg, s, t, cl, chain);
    RemoveFromSlot(cfg, m, t, cl);
    assert y.slots[..|x.slots|] == x.slots;
    assert s.out - Objects(chain) + Objects(chain) == s.out;
    assert m.central[cl := x] == s.central;
    AloneThen(cfg, s, t, insert, m, remove, s);
    assert insert + remove == [Insert(cl, chain), NoChoice, NoChoice, Remove(cl, |chain|), NoChoice, NoChoice];
  }

  /**
   Growing the cache at another class's cost: the victim, which is not full, loses one unit of
   cache size, this class gains it, and the batch is stored in the slot.
   */
  lemma StealSlot(cfg: Config, s: State, t: nat, cl: nat, chain: Chain, v: nat, force: bool)
    requires ValidConfig(cfg) && Enabled(cfg, s, t, Victim(v, true)) && s.threads[t] == Running(TryEvict(cl, chain, force)) && v != cl
    requires ClassLock(cl) in s.locks && ClassLock(v) !in s.locks
    requires |s.central[v].slots| < s.central[v].cacheSize && s.central[cl].cacheSize < s.central[cl].maxCacheSize
    ensures var x, y := s.central[cl], s.central[v];
            Alone(cfg, s, t, [Victim(v, true), NoChoice, NoChoice, NoChoice, NoChoice],
                  s.(central := s.central[v := y.(cacheSize := y.cacheSize - 1)]
                                         [cl := x.(cacheSize := x.cacheSize + 1, slots := x.slots + [chain])],
                     locks := s.locks - {ClassLock(cl)}, threads := s.threads[t := Idle]))
  {
    var won := StealTurn(cfg, s, t, cl, chain, v, force);
    hide Next, ValidConfig, Alone;
    AcquireOutcome(cfg, won, t, AfterShrink(cl, chain, force, true), ClassLock(cl));
    var s4 := Next(cfg, won, t, NoChoice);
    AfterShrinkOutcome(cfg, s4, t, cl, chain, force, true);
    var s5 := Next(cfg, s4, t, NoChoice);
    LockAndUnlock(won.locks, ClassLock(cl), t);
    TwoSteps(cfg, won, t, NoChoice, NoChoice, s4, s5);
    assert s5.threads == s.threads[t := Idle];
    AloneThen(cfg, s, t, [Victim(v, true), NoChoice, NoChoice], won, [NoChoice, NoChoice], s5);
    assert [Victim(v, true), NoChoice, NoChoice] + [NoChoice, NoChoice] == [Victim(v, true), NoChoice, NoChoice, NoChoice, NoChoice];
  }

  lemma TwoSteps(cfg: Config, s: State, t: nat, ch1: Choice, ch2: Choice, s1: State, s2: State)
    requires ValidConfig(cfg) && Enabled(cfg, s, t, ch1) && s1 == Next(cfg, s, t, ch1)
    requires Enabled(cfg, s1, t, ch2) && s2 == Next(cfg, s1, t, ch2)
    ensures Alone(cfg, s, t, [ch1, ch2], s2)
  {
    hide Next, Enabled, ValidConfig;
    assert Alone(cfg, s2, t, [], s2);
    OneStep(cfg, s1, t, ch2, [], s2);
    OneStep(cfg, s, t, ch1, [ch2], s2);
    assert [ch1] + [ch2] == [ch1, ch2] && [ch2] + [] == [ch2];
  }

  /** The victim's part: its lock taken in exchange for the class's own, the slot taken, the lock given back. */
  lemma StealTurn(cfg: Config, s: State, t: nat, cl: nat, chain: Chain, v: nat, force: bool) returns (won: State)
    requires ValidConfig(cfg) && Enabled(cfg, s, t, Victim(v, true)) && s.threads[t] == Running(TryEvict(cl, chain, force)) && v != cl
    requires ClassLock(v) !in s.locks && |s.central[v].slots| < s.central[v].cacheSize
    ensures var y := s.central[v];
            won == s.(central := s.central[v := y.(cacheSize := y.cacheSize - 1)], locks := s.locks - {ClassLock(cl)},
                      threads := s.threads[t := Waiting(AfterShrink(cl, chain, force, true))])
    ensures Alone(cfg, s, t, [Victim(v, true), NoChoice, NoChoice], won)
  {
    hide Next, ValidConfig, Alone;
    EvictOutcome(cfg, s, t, cl, chain, force, v, true);
    var s1 := Next(cfg, s, t, Victim(v, true));
    AcquireOutcome(cfg, s1, t, ShrinkBody(cl, chain, v, force), ClassLock(v));
    var s2 := Next(cfg, s1, t, NoChoice);
    ShrinkOutcome(cfg, s2, t, cl, chain, v, force);
    won := Next(cfg, s2, t, NoChoice);
    LockAndUnlock(s1.locks, ClassLock(v), t);
    ThreeSteps(cfg, s, t, Victim(v, true), NoChoice, NoChoice, s1, s2, won);
    assert won.threads == s.threads[t := Waiting(AfterShrink(cl, chain, force, true))];
  }

  /** Two victims that give nothing, first without and then with force: the batch goes to the spans. */
  lemma NoVictim(cfg: Config, s: State, t: nat, cl: nat, chain: Chain, v: nat, w: nat)
    requires ValidConfig(cfg) && t < |s.threads| && IsClass(cfg, cl) && |s.central| == |cfg.classes| && v < |s.central| && w < |s.central|
    requires s.threads[t] == Running(TryEvict(cl, chain, false))
    ensures Alone(cfg, s, t, [Victim(v, false), Victim(w, false)], s.(threads := s.threads[t := Running(ReleaseList(cl, chain, Return))]))
  {
    hide Next, ValidConfig, Alone;
    EvictOutcome(cfg, s, t, cl, chain, false, v, false);
    var s1 := Next(cfg, s, t, Victim(v, false));
    EvictOutcome(cfg, s1, t, cl, chain, true, w, false);
    var s2 := Next(cfg, s1, t, Victim(w, false));
    TwoSteps(cfg, s, t, Victim(v, false), Victim(w, false), s1, s2);
    assert s2.threads == s.threads[t := Running(ReleaseList(cl, chain, Return))];
  }
}
