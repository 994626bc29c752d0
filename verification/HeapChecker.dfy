/** The marking phase of the heap leak checker, and the hooks that keep its bounds. */
module HeapChecker {
  import opened Base
  import opened AddressMapRep
  import opened HeapReach
  import AddressMap

  datatype AllocValue = AllocValue(bytes: nat, live: bool, ignore: bool)

  function AllocBytes(v: AllocValue): nat {
    v.bytes
  }

  type Allocs = map<Addr, AllocValue>

  ghost function LiveSet(m: Allocs): set<Addr> {
    set p | p in m && m[p].live
  }

  ghost function Sizes(m: Allocs): map<Addr, nat> {
    map p | p in m :: m[p].bytes
  }

  /** The sizes of the recorded allocations are all that marking leaves alone. */
  ghost predicate SameAllocs(m: Allocs, n: Allocs) {
    m.Keys == n.Keys && forall p :: p in m ==> n[p].bytes == m[p].bytes && n[p].ignore == m[p].ignore
  }

  // ----- the flood on sets and stacks

  ghost predicate OnStack(w: World, stack: seq<AllocObject>, q: Addr) {
    q in w.sizes && exists r :: r in stack && r.ptr == q && r.size == w.sizes[q]
  }

  /** Between two pops: every marked object is still on the stack or has been looked through. */
  ghost predicate FloodInv(w: World, base: set<Addr>, roots: seq<AllocObject>, stack: seq<AllocObject>, live: set<Addr>)
    requires w.align > 0
  {
    && base <= live <= w.sizes.Keys
    && (forall q :: q in live ==> q in w.sizes && (OnStack(w, stack, q) || ScannedInto(w, q, w.sizes[q], live)))
    && (forall r :: r in roots ==> r in stack || RootIn(w, r, live))
    && (forall t :: Upper(w, base, roots, t) ==> live <= t && RootsIn(w, stack, t))
    && RootsOK(w, stack)
  }

  /** While looking through `r`, with its first `k` words done. */
  ghost predicate ScanInv(w: World, base: set<Addr>, roots: seq<AllocObject>, r: AllocObject, k: nat, stack: seq<AllocObject>,
                          live: set<Addr>)
    requires w.align > 0
  {
    && base <= live <= w.sizes.Keys
    && (forall q :: q in live ==>
          q in w.sizes && (OnStack(w, stack, q) || ScannedInto(w, q, w.sizes[q], live) || (q == r.ptr && r.size == w.sizes[q])))
    && (forall x :: x in roots ==> x in stack || x == r || RootIn(w, x, live))
    && (forall t :: Upper(w, base, roots, t) ==> live <= t && RootsIn(w, stack, t) && RootIn(w, r, t))
    && RootsOK(w, stack)
    && (r.place.MustBeOnHeap? ==> r.ptr in live)
    && (forall i: nat, p :: i < k && HasWord(w, r.ptr, r.size, i) && Target(w, w.load(WordAddress(w, r.ptr, i)), p) ==> p in live)
  }

  lemma FloodStarts(w: World, base: set<Addr>, roots: seq<AllocObject>)
    requires w.align > 0 && Closed(w, base) && RootsOK(w, roots)
    ensures FloodInv(w, base, roots, roots, base)
  {
  }

  lemma FloodEnds(w: World, base: set<Addr>, roots: seq<AllocObject>, live: set<Addr>)
    requires w.align > 0 && FloodInv(w, base, roots, [], live)
    ensures IsReach(w, base, roots, live)
  {
    assert forall q :: q in live ==> !OnStack(w, [], q);
  }

  /** Growing `live` keeps what was looked through looked through. */
  lemma ScannedMore(w: World, ptr: Addr, size: nat, s: set<Addr>, s': set<Addr>)
    requires w.align > 0 && ScannedInto(w, ptr, size, s) && s <= s'
    ensures ScannedInto(w, ptr, size, s')
  {
  }

  lemma PopStarts(w: World, base: set<Addr>, roots: seq<AllocObject>, stack: seq<AllocObject>, r: AllocObject, live: set<Addr>)
    requires w.align > 0 && FloodInv(w, base, roots, stack + [r], live)
    ensures ScanInv(w, base, roots, r, 0, stack, if r.place.MustBeOnHeap? then live + {r.ptr} else live)
  {
    hide ScannedInto;
    var live' := if r.place.MustBeOnHeap? then live + {r.ptr} else live;
    assert forall x :: x in stack + [r] <==> x in stack || x == r;
    forall q | q in live'
      ensures q in w.sizes && (OnStack(w, stack, q) || ScannedInto(w, q, w.sizes[q], live') || (q == r.ptr && r.size == w.sizes[q]))
    {
      if q in live && ScannedInto(w, q, w.sizes[q], live) {
        ScannedMore(w, q, w.sizes[q], live, live');
      } else if q in live {
        var x :| x in stack + [r] && x.ptr == q && x.size == w.sizes[q];
        assert x in stack || x == r;
      }
    }
    forall x | x in roots && x !in stack && x != r ensures RootIn(w, x, live') {
      assert x !in stack + [r] && RootIn(w, x, live);
      ScannedMore(w, x.ptr, x.size, live, live');
    }
    forall t | Upper(w, base, roots, t) ensures live' <= t && RootsIn(w, stack, t) && RootIn(w, r, t) {
      assert RootsIn(w, stack + [r], t);
      assert r in stack + [r];
      forall x | x in stack ensures RootIn(w, x, t) {
        assert x in stack + [r];
      }
    }
  }

  /** A word that leads nowhere new. */
  lemma DullWord(w: World, base: set<Addr>, roots: seq<AllocObject>, r: AllocObject, k: nat, stack: seq<AllocObject>, live: set<Addr>)
    requires w.align > 0 && ScanInv(w, base, roots, r, k, stack, live)
    requires forall p :: Target(w, w.load(WordAddress(w, r.ptr, k)), p) ==> p in live
    ensures ScanInv(w, base, roots, r, k + 1, stack, live)
  {
  }

  lemma AtMostOneTarget(w: World, addr: Addr, p: Addr, q: Addr)
    requires ValidWorld(w) && Target(w, addr, p) && Target(w, addr, q)
    ensures p == q
  {
  }

  /** A word that leads to an object not marked yet. */
  lemma FreshWord(w: World, base: set<Addr>, roots: seq<AllocObject>, r: AllocObject, k: nat, stack: seq<AllocObject>,
                  live: set<Addr>, p: Addr)
    requires ValidWorld(w) && ScanInv(w, base, roots, r, k, stack, live)
    requires HasWord(w, r.ptr, r.size, k) && Target(w, w.load(WordAddress(w, r.ptr, k)), p)
    ensures ScanInv(w, base, roots, r, k + 1, stack + [AllocObject(p, w.sizes[p], IgnoredOnHeap)], live + {p})
  {
    assert p in w.sizes;
    hide ScannedInto, Target, HasWord, WordAddress;
    var o := AllocObject(p, w.sizes[p], IgnoredOnHeap);
    var stack', live' := stack + [o], live + {p};
    assert forall x :: x in stack' <==> x in stack || x == o;
    forall q | q in live'
      ensures q in w.sizes && (OnStack(w, stack', q) || ScannedInto(w, q, w.sizes[q], live') || (q == r.ptr && r.size == w.sizes[q]))
    {
      if q == p {
        assert o in stack' && o.ptr == q;
      } else if OnStack(w, stack, q) {
        var x :| x in stack && x.ptr == q && x.size == w.sizes[q];
        assert x in stack';
      } else if ScannedInto(w, q, w.sizes[q], live) {
        ScannedMore(w, q, w.sizes[q], live, live');
      }
    }
    forall x | x in roots && x !in stack && x != r ensures RootIn(w, x, live') {
      ScannedMore(w, x.ptr, x.size, live, live');
    }
    forall t | Upper(w, base, roots, t) ensures live' <= t && RootsIn(w, stack', t) && RootIn(w, r, t) {
      FollowsRoot(w, r, k, p, t);
    }
    forall i: nat, x | i < k + 1 && HasWord(w, r.ptr, r.size, i) && Target(w, w.load(WordAddress(w, r.ptr, i)), x) ensures x in live' {
      if i == k {
        AtMostOneTarget(w, w.load(WordAddress(w, r.ptr, k)), p, x);
      }
    }
  }

  lemma FollowsRoot(w: World, r: AllocObject, k: nat, p: Addr, t: set<Addr>)
    requires w.align > 0 && Closed(w, t) && RootIn(w, r, t) && HasWord(w, r.ptr, r.size, k)
    requires Target(w, w.load(WordAddress(w, r.ptr, k)), p)
    ensures p in t && RootIn(w, AllocObject(p, w.sizes[p], IgnoredOnHeap), t)
  {
    ScanSeesAllWords(w, r.ptr, r.size, WordAddress(w, r.ptr, k));
    assert PointsTo(w, r.ptr, r.size, p);
  }

  lemma ScanEnds(w: World, base: set<Addr>, roots: seq<AllocObject>, r: AllocObject, k: nat, stack: seq<AllocObject>, live: set<Addr>)
    requires w.align > 0 && ScanInv(w, base, roots, r, k, stack, live) && !HasWord(w, r.ptr, r.size, k)
    ensures FloodInv(w, base, roots, stack, live)
  {
    hide HasWord, WordAddress, Target;
    forall i: nat | HasWord(w, r.ptr, r.size, i) ensures i < k {
      WordsAreFirst(w, r.ptr, r.size, k, i);
    }
    forall p | PointsTo(w, r.ptr, r.size, p) ensures p in live {
      var a: Addr :| IsWord(w, r.ptr, r.size, a) && Target(w, w.load(a), p);
      ScanSeesAllWords(w, r.ptr, r.size, a);
    }
  }

  lemma WordsAreFirst(w: World, ptr: Addr, size: nat, k: nat, i: nat)
    requires w.align > 0 && HasWord(w, ptr, size, i) && !HasWord(w, ptr, size, k)
    ensures i < k
  {
    assert k <= i ==> k * w.align <= i * w.align;
  }

  // ----- the checker

  /** The allocation bounds NewHook maintains. */
  ghost predicate BoundsOK(m: Allocs, minAddress: nat, maxAddress: nat, maxSize: nat) {
    forall p :: p in m ==> minAddress <= p && p + m[p].bytes <= maxAddress && m[p].bytes <= maxSize
  }

  /** The min/max prefilter never drops a pointer that leads into an allocation. */
  lemma PrefilterIsSafe(m: Allocs, minAddress: nat, maxAddress: nat, maxSize: nat, addr: Addr, p: Addr)
    requires BoundsOK(m, minAddress, maxAddress, maxSize) && p in m && Contains(p, m[p].bytes, addr)
    ensures minAddress <= addr <= maxAddress
    ensures WithinReach(p, addr, maxSize)
  {
    SmallOffsetReached(p, addr, maxSize);
  }

  /** With max_heap_object_size as its limit the search finds whatever contains the address. */
  lemma HitsAreContained(m: Allocs, minAddress: nat, maxAddress: nat, maxSize: nat, addr: Addr, p: Addr)
    requires BoundsOK(m, minAddress, maxAddress, maxSize)
    ensures IsHit(m, AllocBytes, maxSize, addr, p) <==> p in m && Contains(p, m[p].bytes, addr)
    ensures p in m && Contains(p, m[p].bytes, addr) ==> minAddress <= addr <= maxAddress
  {
    if p in m && Contains(p, m[p].bytes, addr) {
      PrefilterIsSafe(m, minAddress, maxAddress, maxSize, addr, p);
    }
  }

  ghost function WorldOf(m: Allocs, load: Addr -> Addr, align: nat): World {
    World(load, Sizes(m), align)
  }

  /** Sum of the sizes of a set of allocations. */
  ghost function TotalBytes(sizes: map<Addr, nat>, s: set<Addr>): nat
    requires s <= sizes.Keys
  {
    if s == {} then 0 else var p := Pick(s); sizes[p] + TotalBytes(sizes, s - {p})
  }

  ghost function Pick(s: set<Addr>): (p: Addr)
    requires s != {}
    ensures p in s
  {
    var p :| p in s; p
  }

  lemma {:induction false} TotalBytesAdd(sizes: map<Addr, nat>, s: set<Addr>, p: Addr)
    requires s <= sizes.Keys && p in sizes && p !in s
    ensures TotalBytes(sizes, s + {p}) == TotalBytes(sizes, s) + sizes[p]
  {
    var q := Pick(s + {p});
    if q == p {
      assert s + {p} - {p} == s;
    } else {
      assert s + {p} - {q} == (s - {q}) + {p};
      TotalBytesAdd(sizes, s - {q}, p);
      TotalBytesTake(sizes, s, q);
    }
  }

  lemma {:induction false} TotalBytesTake(sizes: map<Addr, nat>, s: set<Addr>, q: Addr)
    requires s <= sizes.Keys && q in s
    ensures TotalBytes(sizes, s) == sizes[q] + TotalBytes(sizes, s - {q})
    decreases |s|
  {
    var p := Pick(s);
    if p != q {
      TotalBytesTake(sizes, s - {p}, q);
      TotalBytesTake(sizes, s - {q}, p);
      assert s - {p} - {q} == s - {q} - {p};
    }
  }

  lemma SameSizes(m: Allocs, n: Allocs)
    requires SameAllocs(m, n)
    ensures Sizes(m) == Sizes(n)
  {
  }

  lemma WorldIsValid(m: Allocs, load: Addr -> Addr, align: nat)
    requires Disjoint(m, AllocBytes) && align > 0
    ensures ValidWorld(WorldOf(m, load, align))
  {
  }

  lemma TargetsAreContained(m: Allocs, load: Addr -> Addr, align: nat, addr: Addr, p: Addr)
    ensures Target(WorldOf(m, load, align), addr, p) <==> p in m && Contains(p, m[p].bytes, addr)
  {
  }

  /** The two running totals count each marked object once. */
  ghost predicate CountsOK(sizes: map<Addr, nat>, base: set<Addr>, live: set<Addr>, count: int, bytes: int) {
    base <= live <= sizes.Keys && count == |live - base| && bytes == TotalBytes(sizes, live - base)
  }

  lemma CountOne(sizes: map<Addr, nat>, base: set<Addr>, live: set<Addr>, count: int, bytes: int, p: Addr)
    requires CountsOK(sizes, base, live, count, bytes) && p in sizes && p !in live
    ensures CountsOK(sizes, base, live + {p}, count + 1, bytes + sizes[p])
  {
    assert live + {p} - base == (live - base) + {p};
    TotalBytesAdd(sizes, live - base, p);
  }

  lemma CountNone(sizes: map<Addr, nat>, live: set<Addr>)
    requires live <= sizes.Keys
    ensures CountsOK(sizes, live, live, 0, 0)
  {
    assert live - live == {};
  }

  lemma TopIsRecorded(w: World, base: set<Addr>, roots: seq<AllocObject>, stack: seq<AllocObject>, r: AllocObject, live: set<Addr>)
    requires w.align > 0 && FloodInv(w, base, roots, stack + [r], live)
    ensures live <= w.sizes.Keys && (r.place.MustBeOnHeap? ==> r.ptr in w.sizes && w.sizes[r.ptr] == r.size)
  {
    assert r in stack + [r];
  }

  lemma OnlyTarget(w: World, addr: Addr, p: Addr)
    requires ValidWorld(w) && Target(w, addr, p)
    ensures p in w.sizes && forall q :: Target(w, addr, q) ==> q == p
  {
    forall q | Target(w, addr, q) ensures q == p {
      AtMostOneTarget(w, addr, q, p);
    }
  }

  lemma FirstWord(w: World, r: AllocObject)
    requires w.align > 0
    ensures WordAddress(w, r.ptr, 0) == ScanStart(r.ptr, w.align)
    ensures HasWord(w, r.ptr, r.size, 0) <==> POINTER_SIZE <= ScanSize(r.ptr, r.size, w.align)
  {
  }

  lemma NextWord(w: World, r: AllocObject, k: nat)
    requires w.align > 0 && k > 0
    ensures WordAddress(w, r.ptr, k) == WordAddress(w, r.ptr, k - 1) + w.align
    ensures var last := ScanStart(r.ptr, w.align) + ScanSize(r.ptr, r.size, w.align) - POINTER_SIZE;
            WordAddress(w, r.ptr, k) <= last <==> HasWord(w, r.ptr, r.size, k)
  {
    assert k * w.align == (k - 1) * w.align + w.align;
  }

  lemma SizeOf(m: Allocs, p: Addr)
    ensures p in Sizes(m) <==> p in m
    ensures p in m ==> Sizes(m)[p] == m[p].bytes
  {
  }

  lemma SizesKeys(m: Allocs)
    ensures Sizes(m).Keys == m.Keys
  {
  }

  lemma NotLive(m: Allocs, p: Addr)
    ensures p in LiveSet(m) <==> p in m && m[p].live
  {
  }

  lemma FloodBounds(w: World, base: set<Addr>, roots: seq<AllocObject>, stack: seq<AllocObject>, live: set<Addr>)
    requires w.align > 0 && FloodInv(w, base, roots, stack, live)
    ensures base <= live <= w.sizes.Keys
  {
  }

  lemma CountIs(sizes: map<Addr, nat>, base: set<Addr>, live: set<Addr>, count: int, bytes: int)
    requires CountsOK(sizes, base, live, count, bytes)
    ensures base <= live <= sizes.Keys && count == |live - base| <= |sizes.Keys| && bytes == TotalBytes(sizes, live - base)
  {
    assert sizes.Keys == (live - base) + (sizes.Keys - (live - base));
  }

  lemma {:induction false} TotalBytesUnion(sizes: map<Addr, nat>, s: set<Addr>, t: set<Addr>)
    requires s <= sizes.Keys && t <= sizes.Keys && s !! t
    ensures TotalBytes(sizes, s + t) == TotalBytes(sizes, s) + TotalBytes(sizes, t)
    decreases |t|
  {
    if t == {} {
      assert s + t == s;
    } else {
      var p := Pick(t);
      TotalBytesUnion(sizes, s, t - {p});
      assert s + t == (s + (t - {p})) + {p};
      TotalBytesAdd(sizes, s + (t - {p}), p);
    }
  }

  lemma CountsAdd(sizes: map<Addr, nat>, x: set<Addr>, y: set<Addr>, z: set<Addr>)
    requires x <= y <= z <= sizes.Keys
    ensures |z - x| == |y - x| + |z - y| && TotalBytes(sizes, z - x) == TotalBytes(sizes, y - x) + TotalBytes(sizes, z - y)
  {
    assert z - x == (y - x) + (z - y);
    TotalBytesUnion(sizes, y - x, z - y);
  }

  /** All roots of all groups, in the order they are drained. */
  ghost function AllRoots(groups: seq<seq<AllocObject>>): seq<AllocObject> {
    if groups == [] then [] else AllRoots(groups[..|groups| - 1]) + groups[|groups| - 1]
  }

  lemma NothingToDo(w: World, base: set<Addr>)
    requires w.align > 0 && Closed(w, base)
    ensures IsReach(w, base, [], base)
  {
  }

  lemma ReachIsClosed(w: World, base: set<Addr>, roots: seq<AllocObject>, s: set<Addr>)
    requires w.align > 0 && IsReach(w, base, roots, s)
    ensures Closed(w, s) && base <= s <= w.sizes.Keys
  {
  }

  lemma OneGroup(groups: seq<seq<AllocObject>>, i: nat)
    requires i < |groups|
    ensures AllRoots(groups[..i + 1]) == AllRoots(groups[..i]) + groups[i]
  {
    assert groups[..i + 1][..i] == groups[..i];
  }

  class HeapLeakChecker {
    const heapProfile: AddressMap.AddressMap<AllocValue>
    var liveObjects: seq<AllocObject>
    var liveObjectsTotal: int
    var liveBytesTotal: int
    var maxHeapObjectSize: nat
    var minHeapAddress: nat
    var maxHeapAddress: nat

    ghost predicate Valid()
      reads this, heapProfile
    {
      && heapProfile.Valid()
      && Disjoint(heapProfile.contents, AllocBytes)
      && BoundsOK(heapProfile.contents, minHeapAddress, maxHeapAddress, maxHeapObjectSize)
    }

    constructor ()
      ensures Valid() && heapProfile.contents == map[] && liveObjects == [] && fresh(heapProfile)
      ensures liveObjectsTotal == liveBytesTotal == 0
      ensures maxHeapObjectSize == maxHeapAddress == 0 && minHeapAddress == 0xFFFF_FFFF_FFFF_FFFF
    {
      heapProfile := new AddressMap.AddressMap(AllocValue(0, false, false));
      liveObjects := [];
      liveObjectsTotal, liveBytesTotal := 0, 0;
      maxHeapObjectSize, minHeapAddress, maxHeapAddress := 0, 0xFFFF_FFFF_FFFF_FFFF, 0;
    }

    method MarkAsIgnored(ptr: Addr)
      requires heapProfile.Valid()
      modifies heapProfile
      ensures heapProfile.Valid()
      ensures var m := old(heapProfile.contents);
              heapProfile.contents == if ptr in m then m[ptr := m[ptr].(ignore := true)] else m
    {
      hide RepOK;
      var e := heapProfile.FindMutable(ptr);
      if e.Some? {
        heapProfile.SetValue(e.value, heapProfile.store[e.value].value.(ignore := true));
      }
    }

    /** HeapProfileTable::RecordAlloc, and MarkAsIgnored for allocations made under a Disabler. */
    method RecordAlloc(ptr: Addr, size: nat, ignore: bool)
      requires heapProfile.Valid()
      modifies heapProfile
      ensures heapProfile.Valid() && heapProfile.contents == old(heapProfile.contents)[ptr := AllocValue(size, false, ignore)]
    {
      hide RepOK;
      heapProfile.Insert(ptr, AllocValue(size, false, false));
      if ignore {
        MarkAsIgnored(ptr);
      }
    }

    /** Record an allocation; the allocator never hands out memory that overlaps a recorded one. */
    method NewHook(ptr: Addr, size: nat, ignore: bool, on: bool)
      requires Valid() && ptr <= 0xFFFF_FFFF_FFFF_FFFF
      requires Disjoint(heapProfile.contents[ptr := AllocValue(size, false, ignore)], AllocBytes)
      modifies this`maxHeapObjectSize, this`minHeapAddress, this`maxHeapAddress, heapProfile
      ensures Valid()
      ensures heapProfile.contents ==
              if ptr != 0 && on then old(heapProfile.contents)[ptr := AllocValue(size, false, ignore)] else old(heapProfile.contents)
      ensures maxHeapObjectSize == if ptr != 0 && size > old(maxHeapObjectSize) then size else old(maxHeapObjectSize)
      ensures minHeapAddress == if ptr != 0 && ptr < old(minHeapAddress) then ptr else old(minHeapAddress)
      ensures maxHeapAddress == if ptr != 0 && ptr + size > old(maxHeapAddress) then ptr + size else old(maxHeapAddress)
    {
      hide RepOK, Disjoint;
      if ptr != 0 {
        if size > maxHeapObjectSize { maxHeapObjectSize := size; }
        var addr := ptr;
        if addr < minHeapAddress { minHeapAddress := addr; }
        addr := addr + size;
        if addr > maxHeapAddress { maxHeapAddress := addr; }
        if on {
          RecordAlloc(ptr, size, ignore);
        }
      }
    }

    method DeleteHook(ptr: Addr, on: bool)
      requires Valid()
      modifies heapProfile
      ensures Valid()
      ensures heapProfile.contents == if ptr != 0 && on then old(heapProfile.contents) - {ptr} else old(heapProfile.contents)
    {
      hide RepOK;
      if ptr != 0 && on {
        var r := heapProfile.FindAndRemove(ptr);
      }
    }

    /** Mark a recorded allocation that is not live yet. */
    method MarkAsLive(ptr: Addr) returns (marked: bool)
      requires Valid()
      modifies heapProfile
      ensures Valid() && SameAllocs(old(heapProfile.contents), heapProfile.contents)
      ensures marked <==> ptr in old(heapProfile.contents) && !old(heapProfile.contents)[ptr].live
      ensures LiveSet(heapProfile.contents) == old(LiveSet(heapProfile.contents)) + if marked then {ptr} else {}
      ensures ptr in heapProfile.contents ==> ptr in LiveSet(heapProfile.contents)
    {
      hide RepOK;
      var e := heapProfile.FindMutable(ptr);
      marked := false;
      if e.Some? {
        var v := heapProfile.store[e.value].value;
        if !v.live {
          heapProfile.SetValue(e.value, v.(live := true));
          marked := true;
        }
      }
    }

    /** The quick bounds check and HaveOnHeapLocked: the allocation into which the address points, if there is one. */
    method HaveOnHeap(addr: Addr) returns (r: Option<Addr>, objectSize: nat)
      requires Valid()
      ensures r.Some? ==> r.value in heapProfile.contents && Contains(r.value, heapProfile.contents[r.value].bytes, addr)
      ensures r.Some? ==> objectSize == heapProfile.contents[r.value].bytes
      ensures r.None? ==> forall p :: p in heapProfile.contents ==> !Contains(p, heapProfile.contents[p].bytes, addr)
    {
      hide RepOK, Disjoint, WithinReach, IsHit, BoundsOK, Contains;
      r, objectSize := None, 0;
      ghost var m := heapProfile.contents;
      forall p: Addr
        ensures IsHit(m, AllocBytes, maxHeapObjectSize, addr, p) <==> p in m && Contains(p, m[p].bytes, addr)
        ensures p in m && Contains(p, m[p].bytes, addr) ==> minHeapAddress <= addr <= maxHeapAddress
      {
        HitsAreContained(m, minHeapAddress, maxHeapAddress, maxHeapObjectSize, addr, p);
      }
      if minHeapAddress <= addr <= maxHeapAddress {
        r := heapProfile.FindInside(AllocBytes, maxHeapObjectSize, addr);
        if r.Some? {
          var v := heapProfile.Find(r.value);
          objectSize := v.value.bytes;
        }
      }
    }

    /** One word of an object: an unmarked heap object it points to is marked and pushed. */
    method VisitWord(ghost w: World, ghost base: set<Addr>, ghost roots: seq<AllocObject>, ghost r: AllocObject, ghost k: nat,
                     addr: Addr, count0: nat, bytes0: int)
      returns (count: nat, bytes: int)
      requires Valid() && ValidWorld(w) && w.sizes == Sizes(heapProfile.contents)
      requires HasWord(w, r.ptr, r.size, k) && addr == w.load(WordAddress(w, r.ptr, k))
      requires ScanInv(w, base, roots, r, k, liveObjects, LiveSet(heapProfile.contents))
      requires CountsOK(w.sizes, base, LiveSet(heapProfile.contents), count0, bytes0)
      modifies this`liveObjects, heapProfile
      ensures Valid() && SameAllocs(old(heapProfile.contents), heapProfile.contents) && w.sizes == Sizes(heapProfile.contents)
      ensures ScanInv(w, base, roots, r, k + 1, liveObjects, LiveSet(heapProfile.contents))
      ensures CountsOK(w.sizes, base, LiveSet(heapProfile.contents), count, bytes)
      ensures (count == count0 && liveObjects == old(liveObjects)) || count == count0 + 1
    {
      hide RepOK, Disjoint, ScanInv, BoundsOK, HasWord, WordAddress, Target, Contains, CountsOK, Sizes;
      count, bytes := count0, bytes0;
      ghost var m, live := heapProfile.contents, LiveSet(heapProfile.contents);
      var p, objectSize := HaveOnHeap(addr);
      forall q ensures Target(w, addr, q) <==> q in m && Contains(q, m[q].bytes, addr) {
        TargetsAreContained(m, w.load, w.align, addr, q);
      }
      if p.Some? {
        OnlyTarget(w, addr, p.value);
        SizeOf(m, p.value);
        var marked := MarkAsLive(p.value);
        SameSizes(m, heapProfile.contents);
        if marked {
          FreshWord(w, base, roots, r, k, liveObjects, live, p.value);
          CountOne(w.sizes, base, live, count, bytes, p.value);
          count, bytes := count + 1, bytes + objectSize;
          liveObjects := liveObjects + [AllocObject(p.value, objectSize, IgnoredOnHeap)];
        } else {
          DullWord(w, base, roots, r, k, liveObjects, live);
        }
      } else {
        DullWord(w, base, roots, r, k, liveObjects, live);
      }
    }

    /** A root on the heap is marked when it is taken off the stack. */
    method MarkRoot(r: AllocObject, ghost w: World, ghost base: set<Addr>, ghost roots: seq<AllocObject>, count0: nat, bytes0: int)
      returns (count: nat, bytes: int)
      requires Valid() && w.align > 0 && w.sizes == Sizes(heapProfile.contents)
      requires CountsOK(w.sizes, base, LiveSet(heapProfile.contents), count0, bytes0)
      requires FloodInv(w, base, roots, liveObjects + [r], LiveSet(heapProfile.contents))
      modifies heapProfile
      ensures Valid() && SameAllocs(old(heapProfile.contents), heapProfile.contents) && w.sizes == Sizes(heapProfile.contents)
      ensures ScanInv(w, base, roots, r, 0, liveObjects, LiveSet(heapProfile.contents))
      ensures CountsOK(w.sizes, base, LiveSet(heapProfile.contents), count, bytes) && count >= count0
    {
      hide RepOK, Disjoint, FloodInv, ScanInv, BoundsOK, CountsOK, Sizes, LiveSet;
      ghost var m, live := heapProfile.contents, LiveSet(heapProfile.contents);
      TopIsRecorded(w, base, roots, liveObjects, r, live);
      PopStarts(w, base, roots, liveObjects, r, live);
      count, bytes := count0, bytes0;
      if r.place.MustBeOnHeap? {
        SizesKeys(m);
        NotLive(m, r.ptr);
        var marked := MarkAsLive(r.ptr);
        if marked {
          CountOne(w.sizes, base, live, count0, bytes0, r.ptr);
          count, bytes := count0 + 1, bytes0 + r.size;
        } else {
          assert live + {r.ptr} == live;
        }
        SameSizes(m, heapProfile.contents);
      }
    }

    /** Look through the words of an object. */
    method ScanWords(r: AllocObject, ghost w: World, ghost base: set<Addr>, ghost roots: seq<AllocObject>,
                     load: Addr -> Addr, align: nat, count0: nat, bytes0: int)
      returns (count: nat, bytes: int)
      requires Valid() && align > 0 && ValidWorld(w) && w == World(load, Sizes(heapProfile.contents), align)
      requires ScanInv(w, base, roots, r, 0, liveObjects, LiveSet(heapProfile.contents))
      requires CountsOK(w.sizes, base, LiveSet(heapProfile.contents), count0, bytes0)
      modifies this`liveObjects, heapProfile
      ensures Valid() && SameAllocs(old(heapProfile.contents), heapProfile.contents)
      ensures FloodInv(w, base, roots, liveObjects, LiveSet(heapProfile.contents))
      ensures CountsOK(w.sizes, base, LiveSet(heapProfile.contents), count, bytes)
      ensures (count == count0 && liveObjects == old(liveObjects)) || count > count0
    {
      hide RepOK, Disjoint, FloodInv, ScanInv, BoundsOK, HasWord, WordAddress, CountsOK, Sizes, LiveSet, ScanStart, ScanSize, ValidWorld;
      ghost var m0 := heapProfile.contents;
      count, bytes := count0, bytes0;
      var word := ScanStart(r.ptr, align);
      var size := ScanSize(r.ptr, r.size, align);
      ghost var k: nat := 0;
      FirstWord(w, r);
      if size >= POINTER_SIZE {
        var lastWord := word + size - POINTER_SIZE;
        while word <= lastWord
          invariant word == WordAddress(w, r.ptr, k) && (word <= lastWord <==> HasWord(w, r.ptr, r.size, k))
          invariant Valid() && SameAllocs(m0, heapProfile.contents) && Sizes(heapProfile.contents) == w.sizes
          invariant ScanInv(w, base, roots, r, k, liveObjects, LiveSet(heapProfile.contents))
          invariant CountsOK(w.sizes, base, LiveSet(heapProfile.contents), count, bytes)
          invariant (count == count0 && liveObjects == old(liveObjects)) || count > count0
          decreases lastWord - word
        {
          count, bytes := VisitWord(w, base, roots, r, k, load(word), count, bytes);
          word := word + align;
          k := k + 1;
          NextWord(w, r, k);
        }
      }
      ScanEnds(w, base, roots, r, k, liveObjects, LiveSet(heapProfile.contents));
    }

    /** Take the top object off the stack and look through it. */
    method DrainOne(ghost w: World, ghost base: set<Addr>, ghost roots: seq<AllocObject>, load: Addr -> Addr, align: nat,
                    count0: nat, bytes0: int)
      returns (count: nat, bytes: int)
      requires Valid() && align > 0 && ValidWorld(w) && w == World(load, Sizes(heapProfile.contents), align) && liveObjects != []
      requires FloodInv(w, base, roots, liveObjects, LiveSet(heapProfile.contents))
      requires CountsOK(w.sizes, base, LiveSet(heapProfile.contents), count0, bytes0)
      modifies this`liveObjects, heapProfile
      ensures Valid() && SameAllocs(old(heapProfile.contents), heapProfile.contents) && Sizes(heapProfile.contents) == w.sizes
      ensures FloodInv(w, base, roots, liveObjects, LiveSet(heapProfile.contents))
      ensures CountsOK(w.sizes, base, LiveSet(heapProfile.contents), count, bytes)
      ensures count > count0 || (count == count0 && |liveObjects| < |old(liveObjects)|)
    {
      hide RepOK, Disjoint, FloodInv, ScanInv, BoundsOK, CountsOK, Sizes, LiveSet, ValidWorld;
      ghost var m := heapProfile.contents;
      var top := |liveObjects| - 1;
      var r := liveObjects[top];
      assert liveObjects == liveObjects[..top] + [r];
      liveObjects := liveObjects[..top];
      count, bytes := MarkRoot(r, w, base, roots, count0, bytes0);
      count, bytes := ScanWords(r, w, base, roots, load, align, count, bytes);
      SameSizes(m, heapProfile.contents);
    }

    /** The loop over the stack. */
    method Drain(ghost w: World, ghost base: set<Addr>, ghost roots: seq<AllocObject>, load: Addr -> Addr, align: nat)
      returns (count: nat, bytes: int)
      requires Valid() && align > 0 && ValidWorld(w) && w == World(load, Sizes(heapProfile.contents), align)
      requires FloodInv(w, base, roots, liveObjects, LiveSet(heapProfile.contents))
      requires CountsOK(w.sizes, base, LiveSet(heapProfile.contents), 0, 0)
      modifies this`liveObjects, heapProfile
      ensures Valid() && SameAllocs(old(heapProfile.contents), heapProfile.contents) && liveObjects == []
      ensures FloodInv(w, base, roots, liveObjects, LiveSet(heapProfile.contents))
      ensures CountsOK(w.sizes, base, LiveSet(heapProfile.contents), count, bytes)
    {
      hide RepOK, Disjoint, FloodInv, BoundsOK, Sizes, LiveSet, ValidWorld, ScannedInto, TotalBytes, CountsOK;
      ghost var m0 := heapProfile.contents;
      count, bytes := 0, 0;
      while liveObjects != []
        invariant Valid() && SameAllocs(m0, heapProfile.contents) && Sizes(heapProfile.contents) == w.sizes
        invariant FloodInv(w, base, roots, liveObjects, LiveSet(heapProfile.contents))
        invariant CountsOK(w.sizes, base, LiveSet(heapProfile.contents), count, bytes)
        decreases |w.sizes.Keys| - count, |liveObjects|
      {
        CountIs(w.sizes, base, LiveSet(heapProfile.contents), count, bytes);
        count, bytes := DrainOne(w, base, roots, load, align, count, bytes);
        CountIs(w.sizes, base, LiveSet(heapProfile.contents), count, bytes);
      }
    }

    /**
     Drain the stack.  Afterwards the marked objects are exactly those that were marked before
     plus those reachable from the stack's entries, and the totals have grown by their number
     and their bytes.
     */
    method IgnoreLiveObjectsLocked(load: Addr -> Addr, align: nat)
      requires Valid() && align > 0
      requires Closed(WorldOf(heapProfile.contents, load, align), LiveSet(heapProfile.contents))
      requires RootsOK(WorldOf(heapProfile.contents, load, align), liveObjects)
      modifies this`liveObjects, this`liveObjectsTotal, this`liveBytesTotal, heapProfile
      ensures Valid() && SameAllocs(old(heapProfile.contents), heapProfile.contents) && liveObjects == []
      ensures IsReach(WorldOf(old(heapProfile.contents), load, align), old(LiveSet(heapProfile.contents)), old(liveObjects),
                      LiveSet(heapProfile.contents))
      ensures LiveSet(heapProfile.contents) <= Sizes(old(heapProfile.contents)).Keys
      ensures var newly := LiveSet(heapProfile.contents) - old(LiveSet(heapProfile.contents));
              && liveObjectsTotal == old(liveObjectsTotal) + |newly|
              && liveBytesTotal == old(liveBytesTotal) + TotalBytes(Sizes(old(heapProfile.contents)), newly)
    {
      hide RepOK, Disjoint, FloodInv, BoundsOK, Sizes, LiveSet, IsReach, Closed, RootsOK, ValidWorld, ScannedInto, TotalBytes, CountsOK;
      ghost var m0, live0, roots := heapProfile.contents, LiveSet(heapProfile.contents), liveObjects;
      ghost var w := WorldOf(m0, load, align);
      WorldIsValid(m0, load, align);
      FloodStarts(w, live0, roots);
      FloodBounds(w, live0, roots, liveObjects, live0);
      CountNone(w.sizes, live0);
      var count, bytes := Drain(w, live0, roots, load, align);
      FloodEnds(w, live0, roots, LiveSet(heapProfile.contents));
      CountIs(w.sizes, live0, LiveSet(heapProfile.contents), count, bytes);
      liveObjectsTotal := liveObjectsTotal + count;
      liveBytesTotal := liveBytesTotal + bytes;
    }

    /**
     The whole marking phase: group after group of roots is put on the stack and drained.  What
     is marked in the end is what is reachable from all the roots together.
     */
    method MarkEverythingReachable(groups: seq<seq<AllocObject>>, load: Addr -> Addr, align: nat)
      requires Valid() && align > 0 && liveObjects == []
      requires Closed(WorldOf(heapProfile.contents, load, align), LiveSet(heapProfile.contents))
      requires forall i :: 0 <= i < |groups| ==> RootsOK(WorldOf(heapProfile.contents, load, align), groups[i])
      modifies this`liveObjects, this`liveObjectsTotal, this`liveBytesTotal, heapProfile
      ensures Valid() && SameAllocs(old(heapProfile.contents), heapProfile.contents)
      ensures IsReach(WorldOf(old(heapProfile.contents), load, align), old(LiveSet(heapProfile.contents)), AllRoots(groups),
                      LiveSet(heapProfile.contents))
      ensures liveObjectsTotal == old(liveObjectsTotal) + |LiveSet(heapProfile.contents) - old(LiveSet(heapProfile.contents))|
    {
      hide RepOK, Disjoint, BoundsOK, Sizes, LiveSet, IsReach, Closed, RootsOK, TotalBytes;
      ghost var m0, live0 := heapProfile.contents, LiveSet(heapProfile.contents);
      ghost var w := WorldOf(m0, load, align);
      NothingToDo(w, live0);
      assert groups[..0] == [] && live0 - live0 == {};
      var i := 0;
      while i < |groups|
        invariant 0 <= i <= |groups| && liveObjects == []
        invariant Valid() && SameAllocs(m0, heapProfile.contents) && Sizes(heapProfile.contents) == w.sizes
        invariant IsReach(w, live0, AllRoots(groups[..i]), LiveSet(heapProfile.contents))
        invariant liveObjectsTotal == old(liveObjectsTotal) + |LiveSet(heapProfile.contents) - live0|
      {
        ghost var live := LiveSet(heapProfile.contents);
        ReachIsClosed(w, live0, AllRoots(groups[..i]), live);
        liveObjects := groups[i];
        IgnoreLiveObjectsLocked(load, align);
        SameSizes(m0, heapProfile.contents);
        DrainsCompose(w, live0, AllRoots(groups[..i]), live, groups[i], LiveSet(heapProfile.contents));
        ReachIsClosed(w, live, groups[i], LiveSet(heapProfile.contents));
        CountsAdd(w.sizes, live0, live, LiveSet(heapProfile.contents));
        OneGroup(groups, i);
        i := i + 1;
      }
      assert groups[..i] == groups;
    }
  }
}
