/**
 What the leak checker's flood computes: the heap objects reachable from a set of roots
 through anything in memory that looks like a pointer into a heap object.
 */
module HeapReach {
  import opened AddressMapRep
  import opened Division

  type Addr = nat

  const POINTER_SIZE := 8

  datatype Placement = MustBeOnHeap | IgnoredOnHeap | MaybeLive | InGlobalData | ThreadData | ThreadRegisters

  datatype AllocObject = AllocObject(ptr: Addr, size: nat, place: Placement)

  /**
   Memory while all threads are stopped: the word at each address, the recorded allocations
   with their sizes, and the alignment at which pointers are looked for.
   */
  datatype World = World(load: Addr -> Addr, sizes: map<Addr, nat>, align: nat)

  // ----- which words of an object are looked at

  /** The first aligned address in an object. */
  function ScanStart(ptr: Addr, align: nat): Addr
    requires align > 0
  {
    if ptr % align == 0 then ptr else ptr + (align - ptr % align)
  }

  /** What is left of the object from there on. */
  function ScanSize(ptr: Addr, size: nat, align: nat): nat
    requires align > 0
  {
    var skip := if ptr % align == 0 then 0 else align - ptr % align;
    if size >= skip then size - skip else 0
  }

  /** Word number `i` lies inside the object. */
  predicate HasWord(w: World, ptr: Addr, size: nat, i: nat)
    requires w.align > 0
  {
    i * w.align + POINTER_SIZE <= ScanSize(ptr, size, w.align)
  }

  function WordAddress(w: World, ptr: Addr, i: nat): Addr
    requires w.align > 0
  {
    ScanStart(ptr, w.align) + i * w.align
  }

  /** `addr` is a pointer into, or to the start of, the allocation at `p`. */
  predicate Target(w: World, addr: Addr, p: Addr) {
    p in w.sizes && Contains(p, w.sizes[p], addr)
  }

  /** A pointer can lie at `a`: aligned, and wholly inside the object. */
  predicate IsWord(w: World, ptr: Addr, size: nat, a: Addr)
    requires w.align > 0
  {
    a % w.align == 0 && ptr <= a && a + POINTER_SIZE <= ptr + size
  }

  ghost predicate PointsTo(w: World, ptr: Addr, size: nat, p: Addr)
    requires w.align > 0
  {
    exists a: Addr :: IsWord(w, ptr, size, a) && Target(w, w.load(a), p)
  }

  /** The scan looks at exactly these words: its skip at the front and its end lose none and add none. */
  lemma ScanSeesAllWords(w: World, ptr: Addr, size: nat, a: Addr)
    requires w.align > 0
    ensures IsWord(w, ptr, size, a) <==> exists i: nat :: HasWord(w, ptr, size, i) && WordAddress(w, ptr, i) == a
  {
    ScanStartFacts(ptr, w.align);
    if IsWord(w, ptr, size, a) {
      var i := WordNumber(w, ptr, a);
      assert HasWord(w, ptr, size, i);
    }
    forall i: nat | HasWord(w, ptr, size, i) && WordAddress(w, ptr, i) == a ensures IsWord(w, ptr, size, a) {
      WordIsAligned(w, ptr, i);
    }
  }

  /** ScanStart is the first multiple of the alignment in the object. */
  lemma ScanStartFacts(ptr: Addr, align: nat)
    requires align > 0
    ensures ptr <= ScanStart(ptr, align) < ptr + align && ScanStart(ptr, align) % align == 0
  {
    var q, r := ptr / align, ptr % align;
    assert ptr == q * align + r;
    if r == 0 {
      MultipleMod(q, align);
    } else {
      assert ScanStart(ptr, align) == (q + 1) * align;
      MultipleMod(q + 1, align);
    }
  }

  lemma WordIsAligned(w: World, ptr: Addr, i: nat)
    requires w.align > 0
    ensures WordAddress(w, ptr, i) % w.align == 0 && WordAddress(w, ptr, i) >= ptr
  {
    var start, align := ScanStart(ptr, w.align), w.align;
    ScanStartFacts(ptr, align);
    var q := start / align;
    assert start == q * align;
    assert start + i * align == (q + i) * align;
    MultipleMod(q + i, align);
  }

  lemma WordNumber(w: World, ptr: Addr, a: Addr) returns (i: nat)
    requires w.align > 0 && a % w.align == 0 && a >= ptr
    ensures WordAddress(w, ptr, i) == a
  {
    var start, align := ScanStart(ptr, w.align), w.align;
    ScanStartFacts(ptr, align);
    hide ScanStart;
    if a < start {
      NextMultiple(a, start, align);
    }
    var q, n := start / align, a / align;
    assert start == q * align && a == n * align;
    assert (n + 1) * align == n * align + align;
    if n < q {
      MulLe(n + 1, q, align);
    }
    i := n - q;
    assert i * align == n * align - q * align;
  }

  /** Allocations do not overlap. */
  ghost predicate ValidWorld(w: World) {
    && w.align > 0
    && forall x, y :: x in w.sizes && y in w.sizes && x < y ==> x + w.sizes[x] <= y
  }

  // ----- reachability

  /** Everything the object's words point to is in `s`. */
  ghost predicate ScannedInto(w: World, ptr: Addr, size: nat, s: set<Addr>)
    requires w.align > 0
  {
    forall p :: PointsTo(w, ptr, size, p) ==> p in s
  }

  ghost predicate Closed(w: World, s: set<Addr>)
    requires w.align > 0
  {
    && s <= w.sizes.Keys
    && forall q :: q in s ==> q in w.sizes && ScannedInto(w, q, w.sizes[q], s)
  }

  /** `s` accounts for a root: what it points to and, if it is itself a heap object, the object. */
  ghost predicate RootIn(w: World, r: AllocObject, s: set<Addr>)
    requires w.align > 0
  {
    ScannedInto(w, r.ptr, r.size, s) && (r.place.MustBeOnHeap? ==> r.ptr in s)
  }

  ghost predicate RootsIn(w: World, roots: seq<AllocObject>, s: set<Addr>)
    requires w.align > 0
  {
    forall r :: r in roots ==> RootIn(w, r, s)
  }

  ghost predicate Upper(w: World, base: set<Addr>, roots: seq<AllocObject>, s: set<Addr>)
    requires w.align > 0
  {
    base <= s && Closed(w, s) && RootsIn(w, roots, s)
  }

  /** `s` is the least closed set that holds `base` and accounts for all roots. */
  ghost predicate IsReach(w: World, base: set<Addr>, roots: seq<AllocObject>, s: set<Addr>)
    requires w.align > 0
  {
    Upper(w, base, roots, s) && forall t :: Upper(w, base, roots, t) ==> s <= t
  }

  /** A chain of pointers: each object points to the next. */
  ghost predicate IsPath(w: World, path: seq<Addr>)
    requires w.align > 0
  {
    && (forall i :: 0 <= i < |path| ==> path[i] in w.sizes)
    && (forall i :: 0 <= i < |path| - 1 ==> PointsTo(w, path[i], w.sizes[path[i]], path[i + 1]))
  }

  /** The object a path may start from. */
  ghost predicate Rooted(w: World, base: set<Addr>, roots: seq<AllocObject>, p: Addr)
    requires w.align > 0
  {
    p in base || exists r :: r in roots && (PointsTo(w, r.ptr, r.size, p) || (r.place.MustBeOnHeap? && r.ptr == p))
  }

  ghost predicate Reachable(w: World, base: set<Addr>, roots: seq<AllocObject>, p: Addr)
    requires w.align > 0
  {
    exists path :: |path| > 0 && path[|path| - 1] == p && IsPath(w, path) && Rooted(w, base, roots, path[0])
  }

  lemma {:induction false} PathStaysIn(w: World, base: set<Addr>, roots: seq<AllocObject>, s: set<Addr>, path: seq<Addr>, i: nat)
    requires w.align > 0 && Upper(w, base, roots, s) && IsPath(w, path) && i < |path| && Rooted(w, base, roots, path[0])
    ensures path[i] in s
  {
    if i == 0 {
      if path[0] !in base {
        var r :| r in roots && (PointsTo(w, r.ptr, r.size, path[0]) || (r.place.MustBeOnHeap? && r.ptr == path[0]));
        assert RootIn(w, r, s);
      }
    } else {
      PathStaysIn(w, base, roots, s, path, i - 1);
      assert ScannedInto(w, path[i - 1], w.sizes[path[i - 1]], s);
    }
  }

  lemma ExtendPath(w: World, base: set<Addr>, roots: seq<AllocObject>, q: Addr, p: Addr)
    requires w.align > 0 && Reachable(w, base, roots, q) && q in w.sizes && PointsTo(w, q, w.sizes[q], p)
    ensures Reachable(w, base, roots, p)
  {
    var path :| |path| > 0 && path[|path| - 1] == q && IsPath(w, path) && Rooted(w, base, roots, path[0]);
    var longer := path + [p];
    assert p in w.sizes;
    forall i | 0 <= i < |longer| - 1 ensures PointsTo(w, longer[i], w.sizes[longer[i]], longer[i + 1]) {
      if i == |path| - 1 {
        assert longer[i] == q && longer[i + 1] == p;
      } else {
        assert longer[i] == path[i] && longer[i + 1] == path[i + 1];
      }
    }
    assert longer[|longer| - 1] == p && longer[0] == path[0];
  }

  /** Roots on the heap are recorded allocations with their recorded sizes. */
  ghost predicate RootsOK(w: World, roots: seq<AllocObject>) {
    forall r :: r in roots && r.place.MustBeOnHeap? ==> r.ptr in w.sizes && w.sizes[r.ptr] == r.size
  }

  /** The least closed set is exactly what paths of pointers lead to. */
  lemma ReachIsReachable(w: World, base: set<Addr>, roots: seq<AllocObject>, s: set<Addr>, p: Addr)
    requires w.align > 0 && base <= w.sizes.Keys && RootsOK(w, roots) && IsReach(w, base, roots, s)
    ensures p in s <==> Reachable(w, base, roots, p)
  {
    if Reachable(w, base, roots, p) {
      var path :| |path| > 0 && path[|path| - 1] == p && IsPath(w, path) && Rooted(w, base, roots, path[0]);
      PathStaysIn(w, base, roots, s, path, |path| - 1);
    }
    var t := set q | q in w.sizes.Keys && Reachable(w, base, roots, q);
    ReachableIsUpper(w, base, roots, t);
    assert s <= t;
  }

  lemma StartPath(w: World, base: set<Addr>, roots: seq<AllocObject>, p: Addr)
    requires w.align > 0 && p in w.sizes && Rooted(w, base, roots, p)
    ensures Reachable(w, base, roots, p)
  {
    var path := [p];
    assert path[|path| - 1] == p && IsPath(w, path);
  }

  lemma ReachableIsUpper(w: World, base: set<Addr>, roots: seq<AllocObject>, t: set<Addr>)
    requires w.align > 0 && base <= w.sizes.Keys && RootsOK(w, roots)
    requires t == set q | q in w.sizes.Keys && Reachable(w, base, roots, q)
    ensures Upper(w, base, roots, t)
  {
    forall q | q in base ensures q in t {
      StartPath(w, base, roots, q);
    }
    forall r | r in roots ensures RootIn(w, r, t) {
      forall p | PointsTo(w, r.ptr, r.size, p) ensures p in t {
        StartPath(w, base, roots, p);
      }
      if r.place.MustBeOnHeap? {
        StartPath(w, base, roots, r.ptr);
      }
    }
    forall q, p | q in t && PointsTo(w, q, w.sizes[q], p) ensures p in t {
      ExtendPath(w, base, roots, q, p);
    }
  }

  /** Draining one group of roots after another is the same as draining all of them at once. */
  lemma DrainsCompose(w: World, base: set<Addr>, first: seq<AllocObject>, mid: set<Addr>, second: seq<AllocObject>, s: set<Addr>)
    requires w.align > 0 && IsReach(w, base, first, mid) && IsReach(w, mid, second, s)
    ensures IsReach(w, base, first + second, s)
  {
    forall r | r in first + second ensures RootIn(w, r, s) {
      if r in first {
        assert RootIn(w, r, mid);
      }
    }
    forall t | Upper(w, base, first + second, t) ensures s <= t {
      assert forall r :: r in first ==> r in first + second;
      assert forall r :: r in second ==> r in first + second;
      assert Upper(w, base, first, t);
      assert Upper(w, mid, second, t);
    }
  }

  /** The order of the roots does not matter. */
  lemma ReachUnique(w: World, base: set<Addr>, roots: seq<AllocObject>, roots': seq<AllocObject>, s: set<Addr>, s': set<Addr>)
    requires w.align > 0 && IsReach(w, base, roots, s) && IsReach(w, base, roots', s')
    requires forall r :: r in roots <==> r in roots'
    ensures s == s'
  {
    assert Upper(w, base, roots', s) && Upper(w, base, roots, s');
  }
}
