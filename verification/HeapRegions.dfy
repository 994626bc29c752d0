/**
 Filtering a library's data regions: every selected memory region is cut out of the
 library's intervals, one region at a time.
 */
module HeapRegions {
  import opened Base
  import opened HeapReach

  /** [start, end), whether a thread stack lies in it, and the code address that mapped it. */
  datatype Region = Region(start: Addr, end: Addr, isStack: bool, caller: Addr)

  /** Special callers: (start, end) ranges keyed by their end. */
  type CallerRanges = map<Addr, Addr>

  /** The range that upper_bound(caller) leads to, if any, starts before the caller. */
  predicate InSpecialRange(ranges: CallerRanges, caller: Addr) {
    exists e :: e in ranges && e > caller && (forall f :: f in ranges && f > caller ==> e <= f) && ranges[e] < caller
  }

  /** Is the region to be subtracted? */
  predicate Subtracts(region: Region, ranges: Option<CallerRanges>) {
    !(!region.isStack && ranges.Some? && region.caller != 0 && InSpecialRange(ranges.value, region.caller))
  }

  /** The special ranges do not overlap; each is keyed by its end. */
  ghost predicate Disjoint(ranges: CallerRanges) {
    && (forall e :: e in ranges ==> ranges[e] < e)
    && (forall e, f :: e in ranges && f in ranges && e < f ==> e <= ranges[f])
  }

  /** A region is spared exactly if it has no stack, its caller is known, and that caller lies inside one of the special ranges. */
  lemma SubtractsExact(region: Region, ranges: Option<CallerRanges>)
    requires ranges.Some? ==> Disjoint(ranges.value)
    ensures !Subtracts(region, ranges) <==>
            !region.isStack && region.caller != 0 && ranges.Some? &&
            exists e :: e in ranges.value && ranges.value[e] < region.caller < e
  {
    if ranges.Some? {
      forall e | e in ranges.value && ranges.value[e] < region.caller < e ensures InSpecialRange(ranges.value, region.caller) {
        forall f | f in ranges.value && f > region.caller ensures e <= f {
        }
      }
    }
  }

  /** With overlapping ranges it is the range with the first end above the caller that counts. */
  lemma SubtractsByFirst(region: Region, ranges: CallerRanges, e: Addr)
    requires e in ranges && e > region.caller && forall f :: f in ranges && f > region.caller ==> e <= f
    ensures Subtracts(region, Some(ranges)) <==> region.isStack || region.caller == 0 || region.caller <= ranges[e]
  {
  }

  ghost predicate In(o: AllocObject, a: Addr) {
    o.ptr <= a < o.ptr + o.size
  }

  ghost predicate Covers(objects: seq<AllocObject>, a: Addr) {
    exists i :: 0 <= i < |objects| && In(objects[i], a)
  }

  /** No address is in two of the intervals. */
  ghost predicate Separate(objects: seq<AllocObject>) {
    forall i, j, a: Addr :: 0 <= i < j < |objects| ==> !(In(objects[i], a) && In(objects[j], a))
  }

  /** The five cases: what is left of an interval when a region is cut out. */
  function Cut(o: AllocObject, region: Region): seq<AllocObject> {
    var start, end := o.ptr, o.ptr + o.size;
    if region.start <= start && end <= region.end then []
    else if start < region.start && region.end < end then
      CutOut(o, region)
    else if region.end > start && region.start <= start then
      [AllocObject(region.end, end - region.end, InGlobalData)]
    else if region.start > start && region.start < end then
      [AllocObject(o.ptr, region.start - start, InGlobalData)]
    else [AllocObject(o.ptr, o.size, InGlobalData)]
  }

  function CutOut(o: AllocObject, region: Region): seq<AllocObject>
    requires o.ptr < region.start && region.end < o.ptr + o.size
  {
    [AllocObject(o.ptr, region.start - o.ptr, InGlobalData),
     AllocObject(region.end, o.ptr + o.size - region.end, InGlobalData)]
  }

  lemma CutCovers(o: AllocObject, region: Region, a: Addr)
    requires region.start <= region.end
    ensures Covers(Cut(o, region), a) <==> o.ptr <= a < o.ptr + o.size && !(region.start <= a < region.end)
    ensures Separate(Cut(o, region))
    ensures o.size > 0 ==> forall i :: 0 <= i < |Cut(o, region)| ==> Cut(o, region)[i].size > 0
  {
    var cut := Cut(o, region);
    if |cut| == 2 {
      assert Covers(cut, a) <==> In(cut[0], a) || In(cut[1], a);
    } else if |cut| == 1 {
      assert Covers(cut, a) <==> In(cut[0], a);
    }
  }

  lemma CoversConcat(x: seq<AllocObject>, y: seq<AllocObject>, a: Addr)
    ensures Covers(x + y, a) <==> Covers(x, a) || Covers(y, a)
  {
    if Covers(x, a) {
      var i :| 0 <= i < |x| && In(x[i], a);
      assert In((x + y)[i], a);
    }
    if Covers(y, a) {
      var i :| 0 <= i < |y| && In(y[i], a);
      assert In((x + y)[|x| + i], a);
    }
  }

  lemma SeparateConcat(x: seq<AllocObject>, y: seq<AllocObject>)
    requires Separate(x) && Separate(y) && forall a: Addr :: !(Covers(x, a) && Covers(y, a))
    ensures Separate(x + y)
  {
    var z := x + y;
    forall i, j, a: Addr | 0 <= i < j < |z| ensures !(In(z[i], a) && In(z[j], a)) {
      if i < |x| <= j {
        assert In(x[i], a) ==> Covers(x, a);
        assert In(y[j - |x|], a) ==> Covers(y, a);
      }
    }
  }

  /** `kept` is `objects` minus the region. */
  ghost predicate Minus(objects: seq<AllocObject>, region: Region, kept: seq<AllocObject>) {
    forall a: Addr :: Covers(kept, a) <==> Covers(objects, a) && !(region.start <= a < region.end)
  }

  /** One pass of the filter: the region is cut out of every interval. */
  method SubtractRegion(objects: seq<AllocObject>, region: Region) returns (kept: seq<AllocObject>)
    requires region.start <= region.end
    ensures Minus(objects, region, kept)
    ensures Separate(objects) ==> Separate(kept)
  {
    kept := [];
    assert objects[..0] == [];
    var i := 0;
    while i < |objects|
      invariant 0 <= i <= |objects|
      invariant Minus(objects[..i], region, kept)
      invariant Separate(objects) ==> Separate(kept)
    {
      var o := objects[i];
      var cut := Cut(o, region);
      OneMore(objects, i, region, kept);
      kept := kept + cut;
      i := i + 1;
    }
    assert objects[..i] == objects;
  }

  lemma OneMore(objects: seq<AllocObject>, i: nat, region: Region, kept: seq<AllocObject>)
    requires i < |objects| && region.start <= region.end && Minus(objects[..i], region, kept)
    ensures Minus(objects[..i + 1], region, kept + Cut(objects[i], region))
    ensures Separate(objects) && Separate(kept) ==> Separate(kept + Cut(objects[i], region))
  {
    var o := objects[i];
    var cut := Cut(o, region);
    assert objects[..i + 1] == objects[..i] + [o];
    forall a: Addr ensures Covers(kept + cut, a) <==> Covers(objects[..i + 1], a) && !(region.start <= a < region.end) {
      CoversConcat(kept, cut, a);
      CoversConcat(objects[..i], [o], a);
      CutCovers(o, region, a);
      assert Covers([o], a) <==> In([o][0], a);
    }
    if Separate(objects) && Separate(kept) {
      CutCovers(o, region, 0);
      forall a: Addr ensures !(Covers(kept, a) && Covers(cut, a)) {
        CutCovers(o, region, a);
        if Covers(kept, a) {
          var j :| 0 <= j < |objects[..i]| && In(objects[..i][j], a);
          assert !(In(objects[j], a) && In(objects[i], a));
        }
      }
      SeparateConcat(kept, cut);
    }
  }

  /** `a` lies in one of the first `n` regions that are to be subtracted. */
  ghost predicate Removed(regions: seq<Region>, ranges: Option<CallerRanges>, n: nat, a: Addr) {
    exists i :: 0 <= i < n && i < |regions| && Subtracts(regions[i], ranges) && regions[i].start <= a < regions[i].end
  }

  /**
   The loop over all memory regions: what is left covers exactly the addresses of the library's
   intervals that lie in no subtracted region, and disjoint intervals stay disjoint.
   */
  method SubtractRegions(objects: seq<AllocObject>, regions: seq<Region>, ranges: Option<CallerRanges>) returns (kept: seq<AllocObject>)
    requires forall i :: 0 <= i < |regions| ==> regions[i].start < regions[i].end
    ensures forall a: Addr :: Covers(kept, a) <==> Covers(objects, a) && !Removed(regions, ranges, |regions|, a)
    ensures Separate(objects) ==> Separate(kept)
  {
    kept := objects;
    var i := 0;
    while i < |regions|
      invariant 0 <= i <= |regions|
      invariant forall a: Addr :: Covers(kept, a) <==> Covers(objects, a) && !Removed(regions, ranges, i, a)
      invariant Separate(objects) ==> Separate(kept)
    {
      if Subtracts(regions[i], ranges) {
        kept := SubtractRegion(kept, regions[i]);
      }
      forall a: Addr ensures Removed(regions, ranges, i + 1, a)
                  <==> Removed(regions, ranges, i, a) || (Subtracts(regions[i], ranges) && regions[i].start <= a < regions[i].end)
      {
      }
      i := i + 1;
    }
  }
}
