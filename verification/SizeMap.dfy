/** tcmalloc's SizeMap, for every page size and every transfer setting for which Init returns. */
module SizeMap {
  import opened Base
  import opened Division
  import opened SizeSpans
  import opened SizeTables
  import opened SizeNatural

  datatype Crash = BadAlignment | TooMany | OutsideTable

  datatype Outcome = Ok | Fatal(crash: Crash)

  /** The integer logarithm, for numbers of 32 bits. */
  method LgFloor(n0: nat) returns (log: nat)
    requires 0 < n0 < 0x1_0000_0000
    ensures Pow2(log) <= n0 < Pow2(log + 1)
  {
    Literals();
    var n := n0;
    log := 0;
    assert Pow2(16) == 65536;
    Pow2Add(16, 16);
    for i := 5 downto 0
      invariant 0 < n < Pow2(Pow2(i))
      invariant n * Pow2(log) <= n0 < (n + 1) * Pow2(log)
    {
      var shift := Pow2(i);
      var x := n / Pow2(shift);
      Pow2Add(shift, shift);
      if x != 0 {
        ShiftOut(n0, n, x, log, shift);
        n, log := x, log + shift;
      }
      hide Pow2;
    }
  }

  lemma ShiftOut(n0: nat, n: nat, x: nat, log: nat, shift: nat)
    requires x == n / Pow2(shift) && n * Pow2(log) <= n0 < (n + 1) * Pow2(log) && n < Pow2(shift) * Pow2(shift)
    ensures x * Pow2(log + shift) <= n0 < (x + 1) * Pow2(log + shift)
    ensures x < Pow2(shift)
  {
    hide Pow2;
    Pow2Add(log, shift);
    Shifted(n0, n, x, Pow2(log), Pow2(shift));
  }

  lemma Shifted(n0: nat, n: nat, x: nat, q: nat, p: nat)
    requires p > 0 && q > 0 && x == n / p && n * q <= n0 < (n + 1) * q && n < p * p
    ensures x * (q * p) <= n0 < (x + 1) * (q * p)
    ensures x < p
  {
    QuotientBounds(n, x, p);
    ShiftedLow(n0, n, x, q, p);
    ShiftedHigh(n0, n, x, q, p);
  }

  lemma QuotientBounds(n: nat, x: nat, p: nat)
    requires p > 0 && x == n / p && n < p * p
    ensures x * p <= n < (x + 1) * p && x < p
  {
    assert (x + 1) * p == x * p + p;
    if x >= p {
      MulLe(p, x, p);
    }
  }

  lemma ShiftedLow(n0: nat, n: nat, x: nat, q: nat, p: nat)
    requires x * p <= n && n * q <= n0
    ensures x * (q * p) <= n0
  {
    MulLe(x * p, n, q);
    Reorder(x, p, q);
  }

  lemma ShiftedHigh(n0: nat, n: nat, x: nat, q: nat, p: nat)
    requires n < (x + 1) * p && n0 < (n + 1) * q
    ensures n0 < (x + 1) * (q * p)
  {
    MulLe(n + 1, (x + 1) * p, q);
    Reorder(x + 1, p, q);
  }

  lemma Reorder(x: nat, p: nat, q: nat)
    ensures x * p * q == x * (q * p)
  {
  }

  /** The alignment for a size; the check for 16 bytes fails on pages smaller than that. */
  method AlignmentForSize(size: nat, shift: nat) returns (r: Option<nat>)
    ensures r.Some? <==> (size < MIN_ALIGN || shift >= 4)
    ensures r.Some? ==> r.value == Alignment(size, shift) && IsAlignmentFor(r.value, size, Pow2(shift))
    ensures r.Some? ==> exists k :: r.value == Pow2(k)
  {
    hide IsAlignmentFor;
    AlignmentExact(size, shift);
    Literals();
    var page := Pow2(shift);
    var alignment := ALIGNMENT;
    ghost var wanted := 3;
    if size > MAX_SIZE {
      alignment, wanted := page, shift;
    } else if size >= 128 {
      var log := LgFloor(size);
      Log2Unique(size, log);
      assert Log2(128) == 7;
      Log2Monotone(128, size);
      Pow2Divides(3, log);
      alignment, wanted := Pow2(log) / 8, log - 3;
    } else if size >= MIN_ALIGN {
      alignment, wanted := MIN_ALIGN, 4;
    }
    Smaller(wanted, shift);
    if alignment > page {
      alignment := page;
    }
    assert alignment == Alignment(size, shift);
    assert size >= MIN_ALIGN ==> (alignment >= 16 <==> shift >= 4) by {
      Smaller(4, shift);
      if size > MAX_SIZE { Smaller(4, shift); } else { Smaller(4, AlignLog(size, shift)); }
    }
    if size >= MIN_ALIGN && alignment < MIN_ALIGN {
      return None;
    }
    return Some(alignment);
  }

  lemma Smaller(i: nat, j: nat)
    ensures i <= j <==> Pow2(i) <= Pow2(j)
    ensures i == j <==> Pow2(i) == Pow2(j)
  {
    if i < j {
      Pow2Less(i, j);
    } else if j < i {
      Pow2Less(j, i);
    }
  }

  /** The bytes of the span for a size: the least whole number of pages that fits. */
  method SpanBytes(size: nat, blocks: nat, page: nat) returns (psize: nat)
    requires size > 0 && page > 0
    ensures psize == FirstFit(1, size, blocks, page) * page
  {
    psize := 0;
    ghost var k := 0;
    var more := true;
    while more
      invariant psize == k * page
      invariant forall j :: 1 <= j < k ==> !Fits(j, size, blocks, page)
      invariant if more then k == 0 || !Fits(k, size, blocks, page) else k >= 1 && Fits(k, size, blocks, page)
      decreases (8 + blocks) * size + 1 - k, more
    {
      ghost var k0 := k;
      hide FirstFit;
      BeforeStep(k, size, blocks, page);
      psize, k := NextPage(psize, k, page);
      while psize % size > psize / 8
        invariant psize == k * page && k > k0
        invariant forall j :: 1 <= j < k ==> !Fits(j, size, blocks, page)
        decreases (8 + blocks) * size - k
      {
        NotYet(k, size, blocks, page);
        psize, k := NextPage(psize, k, page);
      }
      more := psize / size < blocks;
    }
    FirstFitIs(k, size, blocks, page);
  }

  method NextPage(psize: nat, ghost k: nat, page: nat) returns (psize': nat, ghost k': nat)
    requires psize == k * page
    ensures k' == k + 1 && psize' == k' * page && psize' == psize + page
  {
    psize', k' := psize + page, k + 1;
  }

  lemma BeforeStep(k: nat, size: nat, blocks: nat, page: nat)
    requires size > 0 && page > 0 && (k == 0 || !Fits(k, size, blocks, page))
    ensures k < (8 + blocks) * size
  {
    if k > 0 {
      NotYet(k, size, blocks, page);
    } else {
      MulLe(1, size, 8 + blocks);
    }
  }

  /** The state of the loop over the sizes when `size` comes next. */
  ghost predicate Building(sizes: seq<nat>, pages: seq<nat>, size: nat, shift: nat, transfer: int)
    requires transfer >= -3
  {
    && TablesGood(sizes, pages, shift, transfer)
    && (size <= MAX_SIZE ==> Candidate(size, shift))
    && if |sizes| == 1 then size == ALIGNMENT else
       var prev := sizes[|sizes| - 1];
       && Candidate(prev, shift) && size == prev + Alignment(prev, shift)
       && (size > MAX_SIZE ==> prev == MAX_SIZE)
       && |sizes| + ClassesAfter(prev, shift, transfer) == FinalCount(shift, transfer)
  }

  lemma BuildingStart(shift: nat, transfer: int)
    requires transfer >= -3 && shift >= 4
    ensures Building([0], [0], ALIGNMENT, shift, transfer)
  {
    Literals();
    PowerIsCandidate(3, shift);
  }

  /** The tables after one more size. */
  function AddSize(sizes: seq<nat>, pages: seq<nat>, size: nat, myPages: nat, shift: nat): (seq<nat>, seq<nat>)
    requires size > 0 && |sizes| == |pages| >= 1 && (|sizes| > 1 ==> sizes[|sizes| - 1] > 0)
  {
    var last := |sizes| - 1;
    if last >= 1 && myPages == pages[last] && Objects(size, myPages, shift) == Objects(sizes[last], pages[last], shift)
    then (sizes[last := size], pages)
    else (sizes + [size], pages + [myPages])
  }

  lemma BuildingStep(sizes: seq<nat>, pages: seq<nat>, size: nat, shift: nat, transfer: int)
    requires transfer >= -3 && shift >= 4 && Building(sizes, pages, size, shift, transfer) && size <= MAX_SIZE && size > 0
    requires |sizes| == |pages| >= 1 && (|sizes| > 1 ==> sizes[|sizes| - 1] > 0)
    ensures var (sizes', pages') := AddSize(sizes, pages, size, Span(size, shift, transfer), shift);
            && |sizes'| > 1 && sizes'[|sizes'| - 1] == size
            && Building(sizes', pages', size + Alignment(size, shift), shift, transfer)
  {
    hide ClassesAfter, Candidate, Alignment, Span, Objects, TablesGood;
    var (sizes', pages') := AddSize(sizes, pages, size, Span(size, shift, transfer), shift);
    var last := |sizes| - 1;
    TableStep(sizes, pages, size, shift, transfer);
    if last >= 1 {
      ClassesStep(sizes[last], shift, transfer);
    }
    NextUp(size, shift);
  }

  lemma TableStep(sizes: seq<nat>, pages: seq<nat>, size: nat, shift: nat, transfer: int)
    requires transfer >= -3 && shift >= 4 && Building(sizes, pages, size, shift, transfer) && size <= MAX_SIZE && size > 0
    requires |sizes| == |pages| >= 1 && (|sizes| > 1 ==> sizes[|sizes| - 1] > 0)
    ensures var (sizes', pages') := AddSize(sizes, pages, size, Span(size, shift, transfer), shift);
            && TablesGood(sizes', pages', shift, transfer)
            && |sizes'| == |pages'| == if |sizes| > 1 && Same(sizes[|sizes| - 1], size, shift, transfer) then |sizes| else |sizes| + 1
  {
    hide ClassesAfter, Candidate, Alignment, Span, Objects, Uniform;
    var last := |sizes| - 1;
    if last >= 1 {
      assert ClassGood(sizes, pages, last, shift, transfer);
    }
    if last >= 1 && Same(sizes[last], size, shift, transfer) {
      ClassExtended(sizes, pages, shift, transfer, size);
    } else {
      ClassAdded(sizes, pages, shift, transfer, size);
    }
  }

  lemma NextUp(size: nat, shift: nat)
    requires shift >= 4 && size <= MAX_SIZE && Candidate(size, shift)
    ensures var next := size + Alignment(size, shift);
            if size == MAX_SIZE then next > MAX_SIZE else Candidate(next, shift) && next <= MAX_SIZE
  {
    hide Alignment;
    if size < MAX_SIZE {
      StepIsCandidate(size, shift);
    }
  }

  /** Pages of fewer than 16 bytes: the loop gets no further than size 16. */
  lemma TinyPages(size: nat, shift: nat)
    requires shift < 4 && ALIGNMENT <= size < MIN_ALIGN && size % Pow2(shift) == 0
    ensures var next := size + Alignment(size, shift); size % Alignment(size, shift) == 0 && next <= MIN_ALIGN && next % Pow2(shift) == 0
  {
    Literals();
    assert Pow2(0) == 1 && Pow2(1) == 2 && Pow2(2) == 4;
    assert shift == 0 || shift == 1 || shift == 2 || shift == 3;
    assert AlignLog(size, shift) == shift;
  }

  class SizeMap {
    const shift: nat                 // kPageShift
    var classToSize: seq<nat>
    var classToPages: seq<nat>
    var numObjectsToMove: seq<int>
    const classArray: array<nat>

    constructor (shift: nat)
      ensures this.shift == shift && fresh(classArray) && classArray.Length == ARRAY_SIZE
    {
      this.shift := shift;
      classArray := new nat[ARRAY_SIZE](_ => 0);
      classToSize, classToPages, numObjectsToMove := [0], [0], [0];
    }

    /** The loop over the sizes. */
    method BuildClasses(transfer: int) returns (built: bool, sane: bool)
      requires transfer >= -3
      modifies this`classToSize, this`classToPages
      ensures built <==> shift >= 4
      ensures built ==> sane && TablesGood(classToSize, classToPages, shift, transfer)
      ensures built ==> |classToSize| == FinalCount(shift, transfer) && |classToSize| > 1 && classToSize[|classToSize| - 1] == MAX_SIZE
    {
      hide Alignment, Candidate, TablesGood, ClassesAfter, Objects, FinalCount, Building, AddSize;
      classToSize, classToPages, sane := [0], [0], true;
      var size: nat := ALIGNMENT;
      var page := Pow2(shift);
      StartFacts(shift, transfer);
      while size <= MAX_SIZE
        invariant sane && size >= ALIGNMENT
        invariant |classToSize| == |classToPages| >= 1 && (|classToSize| > 1 ==> classToSize[|classToSize| - 1] > 0)
        invariant shift >= 4 ==> Building(classToSize, classToPages, size, shift, transfer)
        invariant shift < 4 ==> size <= MIN_ALIGN && size % page == 0
        decreases MAX_SIZE + 1 - size
      {
        var a := AlignmentForSize(size, shift);
        if a.None? {
          return false, sane;
        }
        var alignment := a.value;
        StepFacts(classToSize, classToPages, size, shift, transfer);
        sane := sane && size % alignment == 0;
        var psize := SpanBytes(size, BlocksToMove(size, transfer), page);
        AddClass(size, psize, page, transfer);
        size := size + alignment;
      }
      EndFacts(classToSize, classToPages, size, shift, transfer);
      built := true;
    }

    /** The size joins the last class or begins a new one. */
    method AddClass(size: nat, psize: nat, page: nat, ghost transfer: int)
      requires size > 0 && page == Pow2(shift) && transfer >= -3 && psize == Span(size, shift, transfer) * page
      requires |classToSize| == |classToPages| >= 1 && (|classToSize| > 1 ==> classToSize[|classToSize| - 1] > 0)
      modifies this`classToSize, this`classToPages
      ensures (classToSize, classToPages) == AddSize(old(classToSize), old(classToPages), size, Span(size, shift, transfer), shift)
      ensures |classToSize| == |classToPages| > 1 && classToSize[|classToSize| - 1] == size
    {
      hide Span, Pow2;
      UniqueQuotient(psize, page, Span(size, shift, transfer), 0);
      var myPages := psize / page;
      var last := |classToSize| - 1;
      if last >= 1 && myPages == classToPages[last] {
        var myObjects := myPages * page / size;
        var prevObjects := classToPages[last] * page / classToSize[last];
        if myObjects == prevObjects {
          classToSize := classToSize[last := size];
          return;
        }
      }
      classToPages := classToPages + [myPages];
      classToSize := classToSize + [size];
    }

    /** Everything a caller relies on after a successful Init. */
    ghost predicate Built(transfer: int)
      requires transfer >= -3
      reads this, classArray
    {
      && classArray.Length == ARRAY_SIZE
      && TablesGood(classToSize, classToPages, shift, transfer)
      && 1 < |classToSize| <= CLASS_LIMIT && classToSize[|classToSize| - 1] == MAX_SIZE
      && Filled(classArray[..], classToSize, MAX_SIZE)
    }

    /** The loops that fill class_array_. */
    method FillClassArray(ghost transfer: int)
      requires transfer >= -3 && shift >= 7 && classArray.Length == ARRAY_SIZE
      requires TablesGood(classToSize, classToPages, shift, transfer) && |classToSize| > 1 && classToSize[|classToSize| - 1] == MAX_SIZE
      modifies classArray
      ensures Filled(classArray[..], classToSize, MAX_SIZE)
    {
      hide TablesGood, Filled, ClassIndex, LeastClass, OnGrid;
      var nextSize: nat := 0;
      NothingFilled(classArray[..], classToSize);
      for c := 1 to |classToSize|
        invariant nextSize % 8 == 0 && nextSize == (if c == 1 then 0 else classToSize[c - 1] + ALIGNMENT)
        invariant Filled(classArray[..], classToSize, nextSize - 8)
      {
        var maxSizeInClass := classToSize[c];
        ClassFacts(classToSize, classToPages, shift, transfer, c);
        FillClass(c, nextSize, maxSizeInClass, transfer);
        nextSize := maxSizeInClass + ALIGNMENT;
      }
    }

    /** The entries of one class. */
    method FillClass(c: nat, nextSize: nat, maxSizeInClass: nat, ghost transfer: int)
      requires transfer >= -3 && shift >= 7 && classArray.Length == ARRAY_SIZE && TablesGood(classToSize, classToPages, shift, transfer)
      requires 1 <= c < |classToSize| && classToSize[c] == maxSizeInClass <= MAX_SIZE && maxSizeInClass % 8 == 0 && nextSize % 8 == 0
      requires nextSize <= maxSizeInClass + 8 && (c == 1 || classToSize[c - 1] < nextSize)
      requires Filled(classArray[..], classToSize, nextSize - 8)
      modifies classArray
      ensures Filled(classArray[..], classToSize, maxSizeInClass)
    {
      hide TablesGood, Filled, ClassIndex;
      var s := nextSize;
      while s <= maxSizeInClass
        invariant s % 8 == 0 && nextSize <= s <= maxSizeInClass + 8
        invariant Filled(classArray[..], classToSize, s - 8)
      {
        ghost var was := classArray[..];
        EntryWritten(was, classToSize, classToPages, shift, transfer, s, c);
        classArray[ClassIndex(s)] := c;
        assert classArray[..] == was[ClassIndex(s) := c];
        s := s + ALIGNMENT;
      }
    }

    /** The class of a size: the least one that covers it. */
    method SizeClass(size: nat, ghost transfer: int) returns (c: nat)
      requires transfer >= -3 && Built(transfer) && size <= MAX_SIZE
      ensures LeastClass(classToSize, size, c)
    {
      IndexMonotone(size, size);
      c := classArray[ClassIndex(size)];
    }

    /** GetSizeClass: a class exactly for the sizes up to kMaxSize. */
    method GetSizeClass(size: nat, ghost transfer: int) returns (r: Option<nat>)
      requires transfer >= -3 && Built(transfer)
      ensures r.Some? <==> size <= MAX_SIZE
      ensures r.Some? ==> LeastClass(classToSize, size, r.value)
    {
      if size > MAX_SIZE {
        return None;
      }
      var c := SizeClass(size, transfer);
      return Some(c);
    }

    /** The loop that double-checks the sizes: whatever the tables, it passes exactly if every size it visits has a sensible class. */
    method DoubleCheck() returns (sane: bool)
      requires classArray.Length == ARRAY_SIZE
      ensures sane <==> forall size: nat :: Visited(size) ==> ClassSensible(classArray[..], classToSize, size)
    {
      hide ClassIndex, OnVisits;
      var size := 0;
      FirstVisit();
      while size <= MAX_SIZE
        invariant OnVisits(size)
        invariant forall s: nat :: Visited(s) && s < size ==> ClassSensible(classArray[..], classToSize, s)
        decreases MAX_SIZE + 128 - size
      {
        IndexMonotone(size, size);
        assert Visited(size);
        var sc := classArray[ClassIndex(size)];
        if sc <= 0 || sc >= |classToSize| {
          return false;
        }
        if sc > 1 && size <= classToSize[sc - 1] {
          return false;
        }
        var s := classToSize[sc];
        if size > s || s == 0 {
          return false;
        }
        NextVisit(size);
        size := size + if size <= MAX_SMALL then 8 else 128;
      }
      sane := true;
    }

    /** The loops that check natural alignment, on any tables whose entries are classes: all powers of two from 16 to the page. */
    method NaturalCheck() returns (inside: bool, sane: bool)
      requires classArray.Length == ARRAY_SIZE && EntriesAreClasses(classArray[..], classToSize) && shift >= 4
      ensures inside && sane <==> forall j :: 4 <= j <= shift ==> NaturalAt(classArray[..], classToSize, j, shift)
      ensures !sane ==> exists j :: 4 <= j <= shift && Crooked(classArray[..], classToSize, j, shift)
      ensures !inside ==> exists j :: 4 <= j <= shift && Beyond(j, shift)
    {
      hide NaturalAt, Crooked, Beyond, EntriesAreClasses, Pow2;
      var page := Pow2(shift);
      var align := MIN_ALIGN;
      ghost var j := 4;
      Literals();
      while align <= page
        invariant j >= 4 && align == Pow2(j)
        invariant forall i :: 4 <= i < j ==> NaturalAt(classArray[..], classToSize, i, shift)
        decreases shift + 1 - j
      {
        Smaller(j, shift);
        inside, sane := NaturalFor(align, page, j);
        if !inside || !sane {
          return;
        }
        assert Pow2(j + 1) == 2 * Pow2(j) by { Doubled(j); }
        align, j := align * 2, j + 1;
      }
      Smaller(j, shift);
      inside, sane := true, true;
    }

    /** One alignment: all its multiples below the page size, up to the first that is not in the table or is not aligned. */
    method NaturalFor(align: nat, page: nat, ghost j: nat) returns (inside: bool, sane: bool)
      requires classArray.Length == ARRAY_SIZE && EntriesAreClasses(classArray[..], classToSize)
      requires align == Pow2(j) && page == Pow2(shift)
      ensures inside && sane <==> NaturalAt(classArray[..], classToSize, j, shift)
      ensures !sane ==> Crooked(classArray[..], classToSize, j, shift)
      ensures !inside ==> Beyond(j, shift)
    {
      hide Pow2, ClassIndex;
      MultipleMod(1, align);
      var size := align;
      while size < page
        invariant 0 < size && size % align == 0
        invariant forall s: nat :: MultipleBelow(s, align, page) && s < size ==> AlignedClass(classArray[..], classToSize, align, s)
        decreases page - size
      {
        assert MultipleBelow(size, align, page);
        if size > MAX_SIZE {
          return false, true;
        }
        IndexMonotone(size, size);
        var c := classArray[ClassIndex(size)];
        assert classArray[..][ClassIndex(size)] < |classToSize|;
        if classToSize[c] % align != 0 {
          return true, false;
        }
        AddMod(size, align);
        forall s: nat | MultipleBelow(s, align, page) && s < size + align
          ensures AlignedClass(classArray[..], classToSize, align, s)
        {
          if s > size {
            NextMultiple(size, s, align);
          }
        }
        size := size + align;
      }
      inside, sane := true, true;
    }

    /** num_objects_to_move_ for every class. */
    method FillMoves(transfer: int)
      requires |classToSize| >= 1
      modifies this`numObjectsToMove
      ensures |numObjectsToMove| == |classToSize|
      ensures forall c :: 1 <= c < |classToSize| ==> numObjectsToMove[c] == NumMoveSize(classToSize[c], transfer)
    {
      numObjectsToMove := seq(|classToSize|, _ => 0);
      for c := 1 to |classToSize|
        invariant |numObjectsToMove| == |classToSize|
        invariant forall d :: 1 <= d < c ==> numObjectsToMove[d] == NumMoveSize(classToSize[d], transfer)
      {
        numObjectsToMove := numObjectsToMove[c := NumMoveSize(classToSize[c], transfer)];
      }
    }

    /** SizeMap::Init for every page size: it succeeds exactly for pages of 4K to 256K. */
    method Init(transfer: int) returns (r: Outcome, sane: bool)
      requires transfer >= -3 && classArray.Length == ARRAY_SIZE
      modifies this, classArray
      ensures sane
      ensures r == if shift < 4 then Fatal(BadAlignment)
                   else if shift < 12 then Fatal(TooMany)
                   else if shift > 18 then Fatal(OutsideTable)
                   else Ok
      ensures r.Ok? ==> Built(transfer)
      ensures r.Ok? ==> |numObjectsToMove| == |classToSize|
      ensures r.Ok? ==> forall c :: 1 <= c < |classToSize| && c < |numObjectsToMove| ==>
                          classToSize[c] > 0 && MoveCount(numObjectsToMove[c], classToSize[c], transfer)
    {
      hide TablesGood, Filled, NumMoveSize, MoveCount, FinalCount, NaturalAt, Crooked, Beyond, EntriesAreClasses;
      var built, inside;
      built, sane := BuildClasses(transfer);
      if !built {
        return Fatal(BadAlignment), true;
      }
      ClassLimit(shift, transfer);
      if |classToSize| > CLASS_LIMIT {
        return Fatal(TooMany), sane;
      }
      FillClassArray(transfer);
      BuiltIsSensible(classArray[..], classToSize, classToPages, shift, transfer);
      var checked := DoubleCheck();
      sane := sane && checked;
      NaturalResult(classArray[..], classToSize, classToPages, shift, transfer);
      inside, checked := NaturalCheck();
      NaturalVerdict(classArray[..], classToSize, shift, inside, checked);
      sane := sane && checked;
      if !inside {
        return Fatal(OutsideTable), sane;
      }
      FillMoves(transfer);
      forall c | 1 <= c < |classToSize| ensures classToSize[c] > 0 && MoveCount(numObjectsToMove[c], classToSize[c], transfer) {
        ClassFacts(classToSize, classToPages, shift, transfer, c);
        MoveCountExact(classToSize[c], transfer);
      }
      r := Ok;
    }
  }

  // ----- the final checks

  /** The sizes that the double check goes through: steps of 8 up to 1032, then steps of 128 from there. */
  ghost predicate OnVisits(size: nat) {
    if size <= 1032 then size % 8 == 0 else (size - 1032) % 128 == 0
  }

  ghost predicate Visited(size: nat) {
    OnVisits(size) && size <= MAX_SIZE
  }

  lemma FirstVisit()
    ensures OnVisits(0)
  {
  }

  /** The loop's step leaves no visit out. */
  lemma NextVisit(size: nat)
    requires OnVisits(size)
    ensures var next := size + if size <= MAX_SMALL then 8 else 128;
            OnVisits(next) && forall s: nat :: OnVisits(s) && s < next ==> s <= size
  {
  }

  /** The size's entry is a class that covers it, and the class before does not. */
  ghost predicate ClassSensible(entries: seq<nat>, sizes: seq<nat>, size: nat) {
    && ClassIndex(size) < |entries|
    && var sc := entries[ClassIndex(size)];
    && 0 < sc < |sizes| && 0 < sizes[sc] && size <= sizes[sc] && (sc == 1 || sizes[sc - 1] < size)
  }

  /** With the tables that Init has built, the double check passes. */
  lemma BuiltIsSensible(entries: seq<nat>, sizes: seq<nat>, pages: seq<nat>, shift: nat, transfer: int)
    requires transfer >= -3 && TablesGood(sizes, pages, shift, transfer) && |entries| == ARRAY_SIZE && Filled(entries, sizes, MAX_SIZE)
    ensures forall size: nat :: Visited(size) ==> ClassSensible(entries, sizes, size)
  {
    hide TablesGood, ClassIndex;
    forall size: nat | Visited(size) ensures ClassSensible(entries, sizes, size) {
      assert LeastClass(sizes, size, entries[ClassIndex(size)]);
      ClassFacts(sizes, pages, shift, transfer, entries[ClassIndex(size)]);
    }
  }

  ghost predicate EntriesAreClasses(entries: seq<nat>, sizes: seq<nat>) {
    forall i :: 0 <= i < |entries| ==> entries[i] < |sizes|
  }

  ghost predicate MultipleBelow(size: nat, align: nat, page: nat) {
    align > 0 && 0 < size < page && size % align == 0
  }

  ghost predicate AlignedClass(entries: seq<nat>, sizes: seq<nat>, align: nat, size: nat)
    requires align > 0
  {
    && size <= MAX_SIZE && ClassIndex(size) < |entries|
    && entries[ClassIndex(size)] < |sizes| && sizes[entries[ClassIndex(size)]] % align == 0
  }

  /** Every multiple of 2^j below the page size has a class whose size is a multiple of 2^j. */
  ghost predicate NaturalAt(entries: seq<nat>, sizes: seq<nat>, j: nat, shift: nat) {
    forall size: nat :: MultipleBelow(size, Pow2(j), Pow2(shift)) ==> AlignedClass(entries, sizes, Pow2(j), size)
  }

  /** Some such multiple has a class whose size is not. */
  ghost predicate Crooked(entries: seq<nat>, sizes: seq<nat>, j: nat, shift: nat) {
    exists size: nat :: MultipleBelow(size, Pow2(j), Pow2(shift)) && size <= MAX_SIZE && !AlignedClass(entries, sizes, Pow2(j), size)
  }

  /** Some such multiple is larger than the largest class. */
  ghost predicate Beyond(j: nat, shift: nat) {
    exists size: nat :: MultipleBelow(size, Pow2(j), Pow2(shift)) && size > MAX_SIZE
  }

  lemma Doubled(j: nat)
    ensures Pow2(j + 1) == 2 * Pow2(j)
  {
  }

  /** With the tables that Init has built, no class is crooked, and the class array suffices exactly for pages up to 256 KB. */
  lemma NaturalResult(entries: seq<nat>, sizes: seq<nat>, pages: seq<nat>, shift: nat, transfer: int)
    requires 12 <= shift && transfer >= -3 && TablesGood(sizes, pages, shift, transfer) && |sizes| > 1 && sizes[|sizes| - 1] == MAX_SIZE
    requires |entries| == ARRAY_SIZE && Filled(entries, sizes, MAX_SIZE)
    ensures EntriesAreClasses(entries, sizes)
    ensures forall j :: 4 <= j <= shift ==> !Crooked(entries, sizes, j, shift)
    ensures shift <= 18 ==> forall j :: 4 <= j <= shift ==> NaturalAt(entries, sizes, j, shift) && !Beyond(j, shift)
    ensures shift >= 19 ==> !NaturalAt(entries, sizes, 4, shift)
  {
    hide TablesGood, ClassIndex, Filled, LeastClass, AlignedClass, MultipleBelow;
    EveryEntryUsed(entries, sizes);
    forall j, size: nat | 4 <= j <= shift && MultipleBelow(size, Pow2(j), Pow2(shift)) && size <= MAX_SIZE
      ensures AlignedClass(entries, sizes, Pow2(j), size)
    {
      AlignedHere(entries, sizes, pages, shift, transfer, j, size);
    }
    PageBound(shift);
    if shift >= 19 {
      BeyondTable(entries, sizes, shift);
    } else {
      forall size: nat, j | 4 <= j <= shift && MultipleBelow(size, Pow2(j), Pow2(shift)) ensures size <= MAX_SIZE {
        BelowPage(size, Pow2(j), Pow2(shift));
      }
    }
  }

  lemma NaturalVerdict(entries: seq<nat>, sizes: seq<nat>, shift: nat, inside: bool, sane: bool)
    requires 12 <= shift
    requires inside && sane <==> forall j :: 4 <= j <= shift ==> NaturalAt(entries, sizes, j, shift)
    requires !sane ==> exists j :: 4 <= j <= shift && Crooked(entries, sizes, j, shift)
    requires !inside ==> exists j :: 4 <= j <= shift && Beyond(j, shift)
    requires forall j :: 4 <= j <= shift ==> !Crooked(entries, sizes, j, shift)
    requires shift <= 18 ==> forall j :: 4 <= j <= shift ==> NaturalAt(entries, sizes, j, shift) && !Beyond(j, shift)
    requires shift >= 19 ==> !NaturalAt(entries, sizes, 4, shift)
    ensures sane && (inside <==> shift <= 18)
  {
    hide NaturalAt, Crooked, Beyond;
    if shift >= 19 {
      assert !NaturalAt(entries, sizes, 4, shift);
    }
  }

  lemma BelowPage(size: nat, align: nat, page: nat)
    requires MultipleBelow(size, align, page)
    ensures size < page
  {
  }

  lemma AlignedHere(entries: seq<nat>, sizes: seq<nat>, pages: seq<nat>, shift: nat, transfer: int, j: nat, size: nat)
    requires 12 <= shift && transfer >= -3 && TablesGood(sizes, pages, shift, transfer) && |sizes| > 1 && sizes[|sizes| - 1] == MAX_SIZE
    requires |entries| == ARRAY_SIZE && Filled(entries, sizes, MAX_SIZE)
    requires 4 <= j <= shift && MultipleBelow(size, Pow2(j), Pow2(shift)) && size <= MAX_SIZE
    ensures AlignedClass(entries, sizes, Pow2(j), size)
  {
    hide TablesGood, ClassIndex, Pow2;
    var c := entries[ClassIndex(size)];
    assert LeastClass(sizes, size, c);
    NaturalAlignment(sizes, pages, shift, transfer, size, j, c);
  }

  /** Every entry of the class array belongs to some size. */
  lemma EveryEntryUsed(entries: seq<nat>, sizes: seq<nat>)
    requires |entries| == ARRAY_SIZE && Filled(entries, sizes, MAX_SIZE)
    ensures EntriesAreClasses(entries, sizes)
  {
    hide LeastClass;
    forall i | 0 <= i < |entries| ensures entries[i] < |sizes| {
      var size := if i <= 128 then 8 * i else 128 * (i - 120);
      assert size <= MAX_SIZE && ClassIndex(size) == i;
      LeastIsClass(sizes, size, entries[i]);
    }
  }

  lemma BeyondTable(entries: seq<nat>, sizes: seq<nat>, shift: nat)
    requires shift >= 19
    ensures !NaturalAt(entries, sizes, 4, shift)
  {
    PageBound(shift);
    Literals();
    hide Pow2;
    assert MultipleBelow(MAX_SIZE + 16, Pow2(4), Pow2(shift));
    assert !AlignedClass(entries, sizes, Pow2(4), MAX_SIZE + 16);
  }

  lemma NothingFilled(entries: seq<nat>, sizes: seq<nat>)
    requires |entries| == ARRAY_SIZE
    ensures Filled(entries, sizes, -8)
  {
  }

  lemma ClassFacts(sizes: seq<nat>, pages: seq<nat>, shift: nat, transfer: int, c: nat)
    requires transfer >= -3 && TablesGood(sizes, pages, shift, transfer) && 1 <= c < |sizes|
    ensures 0 < sizes[c] <= MAX_SIZE && sizes[c - 1] < sizes[c] && (shift >= 7 ==> sizes[c] % 8 == 0)
  {
    assert ClassGood(sizes, pages, c, shift, transfer);
    if shift >= 7 {
      CandidatesOnGrid(sizes[c], shift);
    }
  }

  lemma PageBound(shift: nat)
    ensures shift <= 18 <==> Pow2(shift) <= MAX_SIZE
    ensures shift >= 19 ==> Pow2(shift) >= 2 * MAX_SIZE
  {
    Literals();
    Smaller(shift, 18);
    if shift >= 19 {
      Pow2Divides(19, shift);
    }
  }

  lemma LeastIsClass(sizes: seq<nat>, size: nat, c: nat)
    requires LeastClass(sizes, size, c)
    ensures 1 <= c < |sizes|
  {
  }

  lemma StartFacts(shift: nat, transfer: int)
    requires transfer >= -3
    ensures shift >= 4 ==> Building([0], [0], ALIGNMENT, shift, transfer)
    ensures shift < 4 ==> ALIGNMENT % Pow2(shift) == 0
  {
    if shift >= 4 {
      BuildingStart(shift, transfer);
    } else {
      Literals();
      Pow2Divides(shift, 3);
    }
  }

  lemma StepFacts(sizes: seq<nat>, pages: seq<nat>, size: nat, shift: nat, transfer: int)
    requires transfer >= -3 && ALIGNMENT <= size <= MAX_SIZE && (size < MIN_ALIGN || shift >= 4)
    requires |sizes| == |pages| >= 1 && (|sizes| > 1 ==> sizes[|sizes| - 1] > 0)
    requires shift >= 4 ==> Building(sizes, pages, size, shift, transfer)
    requires shift < 4 ==> size % Pow2(shift) == 0
    ensures size % Alignment(size, shift) == 0 && BlocksToMove(size, transfer) >= 0
    ensures Span(size, shift, transfer) == FirstFit(1, size, BlocksToMove(size, transfer), Pow2(shift))
    ensures var next := size + Alignment(size, shift);
            if shift < 4 then next <= MIN_ALIGN && next % Pow2(shift) == 0 else
            var (sizes', pages') := AddSize(sizes, pages, size, Span(size, shift, transfer), shift);
            Building(sizes', pages', next, shift, transfer)
  {
    hide FirstFit, Alignment, TablesGood, ClassesAfter, Pow2, BlocksToMove, AddSize;
    BlocksFacts(size, transfer);
    if shift < 4 {
      TinyPages(size, shift);
    } else {
      BuildingStep(sizes, pages, size, shift, transfer);
    }
  }

  lemma EndFacts(sizes: seq<nat>, pages: seq<nat>, size: nat, shift: nat, transfer: int)
    requires transfer >= -3 && size > MAX_SIZE && shift >= 4 && Building(sizes, pages, size, shift, transfer)
    ensures TablesGood(sizes, pages, shift, transfer)
    ensures |sizes| == FinalCount(shift, transfer) && |sizes| > 1 && sizes[|sizes| - 1] == MAX_SIZE
  {
    Literals();
    NoneAfterLast(shift, transfer);
  }
}
