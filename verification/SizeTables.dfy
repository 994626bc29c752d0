/** What SizeMap::Init builds: the class tables and the array that takes a size to its class. */
module SizeTables {
  import opened Division
  import opened SizeSpans

  const MAX_SMALL := 1024                                            // kMaxSmallSize
  const ARRAY_SIZE: nat := (MAX_SIZE + 127 + 120 * 128) / 128 + 1    // kClassArraySize

  /** Entry of class_array_ for a size; the two logical arrays are flattened into one. */
  function ClassIndex(s: nat): nat {
    if s <= MAX_SMALL then (s + 7) / 8 else (s + 127 + 120 * 128) / 128
  }

  /** Sizes between the end of the previous class and the end of class c all get the same span and object count. */
  ghost predicate Uniform(low: nat, high: nat, shift: nat, transfer: int)
    requires transfer >= -3 && high > 0
  {
    forall s: nat :: Candidate(s, shift) && low < s <= high ==> Same(s, high, shift, transfer)
  }

  ghost predicate ClassGood(sizes: seq<nat>, pages: seq<nat>, c: nat, shift: nat, transfer: int)
    requires transfer >= -3 && 1 <= c < |sizes| == |pages|
  {
    && Candidate(sizes[c], shift)
    && sizes[c - 1] < sizes[c]
    && pages[c] == Span(sizes[c], shift, transfer)
    && Uniform(sizes[c - 1], sizes[c], shift, transfer)
  }

  /** The classes that follow one another do not share span and object count. */
  ghost predicate Apart(sizes: seq<nat>, c: nat, shift: nat, transfer: int)
    requires transfer >= -3 && 1 <= c < |sizes|
  {
    sizes[c] > 0 && !Same(sizes[c], sizes[c] + Alignment(sizes[c], shift), shift, transfer)
  }

  /** class_to_size_ and class_to_pages_; entry 0 is unused. */
  ghost predicate TablesGood(sizes: seq<nat>, pages: seq<nat>, shift: nat, transfer: int)
    requires transfer >= -3
  {
    && |sizes| == |pages| >= 1 && sizes[0] == 0
    && (forall c :: 1 <= c < |sizes| ==> ClassGood(sizes, pages, c, shift, transfer))
    && (forall c :: 1 <= c < |sizes| - 1 ==> Apart(sizes, c, shift, transfer))
  }

  lemma {:induction false} Increasing(sizes: seq<nat>, pages: seq<nat>, shift: nat, transfer: int, c: nat, d: nat)
    requires transfer >= -3 && TablesGood(sizes, pages, shift, transfer) && c < d < |sizes|
    ensures sizes[c] < sizes[d]
    decreases d
  {
    hide Uniform;
    assert ClassGood(sizes, pages, d, shift, transfer);
    if c + 1 < d {
      Increasing(sizes, pages, shift, transfer, c, d - 1);
    }
  }

  /**
   Every class has at least one object in its span, enough for a transfer, and wastes at most an
   eighth of it; and so had every size merged into the class, with the same span and object count.
   */
  lemma ClassWaste(sizes: seq<nat>, pages: seq<nat>, shift: nat, transfer: int, c: nat, s: nat)
    requires transfer >= -3 && TablesGood(sizes, pages, shift, transfer) && 1 <= c < |sizes|
    requires Candidate(s, shift) && sizes[c - 1] < s <= sizes[c]
    ensures var bytes := pages[c] * Pow2(shift);
            && bytes / sizes[c] == bytes / s >= 1 && bytes / s >= BlocksToMove(s, transfer)
            && 8 * (bytes % sizes[c]) <= bytes && 8 * (bytes % s) <= bytes
            && pages[c] == Span(s, shift, transfer) && 7 * sizes[c] <= 8 * s
  {
    hide Span, BlocksToMove, Candidate, Pow2;
    assert ClassGood(sizes, pages, c, shift, transfer);
    SpanGood(sizes[c], shift, transfer);
    SpanGood(s, shift, transfer);
    SameIsClose(s, sizes[c], shift, transfer);
  }

  /** The smallest class whose size covers `size`. */
  ghost predicate LeastClass(sizes: seq<nat>, size: nat, c: nat) {
    && 1 <= c < |sizes| && size <= sizes[c]
    && forall d :: 1 <= d < c ==> sizes[d] < size
  }

  lemma LeastFromPrevious(sizes: seq<nat>, pages: seq<nat>, shift: nat, transfer: int, size: nat, c: nat)
    requires transfer >= -3 && TablesGood(sizes, pages, shift, transfer)
    requires 1 <= c < |sizes| && size <= sizes[c] && (c == 1 || sizes[c - 1] < size)
    ensures LeastClass(sizes, size, c)
  {
    forall d | 1 <= d < c ensures sizes[d] < size {
      if d < c - 1 {
        Increasing(sizes, pages, shift, transfer, d, c - 1);
      }
    }
  }

  /** Candidates come in steps of Alignment: none lies strictly between one and the next. */
  lemma NoneBetween(size: nat, s: nat, shift: nat)
    requires shift >= 4 && Candidate(size, shift) && Candidate(s, shift) && size < s
    ensures size + Alignment(size, shift) <= s
  {
    Literals();
    if size >= 128 {
      Log2Bounds(size);
      var k := Log2(size);
      LargeStep(size, shift);
      hide Log2, Pow2;
      if s < Pow2(k + 1) {
        SameOctave(size, k, shift);
        SameOctave(s, k, shift);
        hide Alignment;
        NextMultiple(size, s, Alignment(size, shift));
      }
    }
  }

  /** A new class. */
  lemma ClassAdded(sizes: seq<nat>, pages: seq<nat>, shift: nat, transfer: int, size: nat)
    requires transfer >= -3 && shift >= 4 && TablesGood(sizes, pages, shift, transfer) && Candidate(size, shift)
    requires if |sizes| == 1 then size == 8 else
             var prev := sizes[|sizes| - 1]; prev > 0 && size == prev + Alignment(prev, shift) && !Same(prev, size, shift, transfer)
    ensures TablesGood(sizes + [size], pages + [Span(size, shift, transfer)], shift, transfer)
  {
    hide Same, Candidate, Alignment, Span;
    var n := |sizes|;
    var sizes', pages' := sizes + [size], pages + [Span(size, shift, transfer)];
    OnlyOne(sizes[n - 1], size, shift, transfer) by {
      if n > 1 { assert ClassGood(sizes, pages, n - 1, shift, transfer); }
    }
    assert ClassGood(sizes', pages', n, shift, transfer);
    forall c | 1 <= c < n ensures ClassGood(sizes', pages', c, shift, transfer) {
      assert ClassGood(sizes, pages, c, shift, transfer);
    }
    forall c | 1 <= c < n ensures Apart(sizes', c, shift, transfer) {
      assert c < n - 1 ==> Apart(sizes, c, shift, transfer);
    }
  }

  lemma OnlyOne(prev: nat, size: nat, shift: nat, transfer: int)
    requires transfer >= -3 && shift >= 4 && Candidate(size, shift)
    requires (prev == 0 && size == 8) || (Candidate(prev, shift) && size == prev + Alignment(prev, shift))
    ensures prev < size && Uniform(prev, size, shift, transfer)
  {
    hide Same, Alignment;
    forall s: nat | Candidate(s, shift) && prev < s <= size ensures Same(s, size, shift, transfer) {
      if prev > 0 {
        NoneBetween(prev, s, shift);
      }
      SameSelf(size, shift, transfer);
    }
  }

  lemma SameSelf(s: nat, shift: nat, transfer: int)
    requires transfer >= -3 && s > 0
    ensures Same(s, s, shift, transfer)
  {
  }

  lemma SameTrans(p: nat, q: nat, s: nat, shift: nat, transfer: int)
    requires transfer >= -3 && p > 0 && q > 0 && s > 0 && Same(p, q, shift, transfer) && Same(q, s, shift, transfer)
    ensures Same(p, s, shift, transfer)
  {
    hide Span, Objects;
  }

  /** The last class extended to one more size. */
  lemma ClassExtended(sizes: seq<nat>, pages: seq<nat>, shift: nat, transfer: int, size: nat)
    requires transfer >= -3 && shift >= 4 && TablesGood(sizes, pages, shift, transfer) && Candidate(size, shift) && |sizes| > 1
    requires var prev := sizes[|sizes| - 1]; prev > 0 && size == prev + Alignment(prev, shift) && Same(prev, size, shift, transfer)
    ensures TablesGood(sizes[|sizes| - 1 := size], pages, shift, transfer)
  {
    hide Candidate, Alignment, Span, Objects;
    var n := |sizes| - 1;
    var sizes' := sizes[n := size];
    assert ClassGood(sizes, pages, n, shift, transfer);
    Extended(sizes[n - 1], sizes[n], size, shift, transfer);
    hide Same;
    assert ClassGood(sizes', pages, n, shift, transfer);
    forall c | 1 <= c < n ensures ClassGood(sizes', pages, c, shift, transfer) {
      assert ClassGood(sizes, pages, c, shift, transfer);
    }
    forall c | 1 <= c < n ensures Apart(sizes', c, shift, transfer) {
      assert Apart(sizes, c, shift, transfer);
    }
  }

  lemma Extended(low: nat, prev: nat, size: nat, shift: nat, transfer: int)
    requires transfer >= -3 && shift >= 4 && low < prev && Candidate(prev, shift) && Candidate(size, shift)
    requires size == prev + Alignment(prev, shift) && Same(prev, size, shift, transfer)
    requires Uniform(low, prev, shift, transfer)
    ensures Uniform(low, size, shift, transfer)
  {
    hide Same, Alignment;
    OnlyOne(prev, size, shift, transfer);
    forall s: nat | Candidate(s, shift) && low < s <= prev ensures Same(s, size, shift, transfer) {
      SameTrans(s, prev, size, shift, transfer);
    }
  }

  // ----- the class array

  /** Class sizes lie on the grid of the class array. */
  predicate OnGrid(s: nat) {
    s % 8 == 0 && (s > MAX_SMALL ==> s % 128 == 0)
  }

  lemma CandidatesOnGrid(s: nat, shift: nat)
    requires Candidate(s, shift) && shift >= 7
    ensures OnGrid(s)
  {
    hide Log2, Pow2, AlignLog;
    var al := AlignLog(s, shift);
    AlignLogAtLeast(s, shift);
    Literals();
    OnPowerGrid(s, 3, al);
    if s > MAX_SMALL {
      OnPowerGrid(s, 7, al);
    }
  }

  lemma OnPowerGrid(s: nat, i: nat, al: nat)
    requires i <= al && s % Pow2(al) == 0
    ensures s % Pow2(i) == 0
  {
    hide Pow2;
    Pow2Divides(i, al);
    DividesTrans(s, Pow2(al), Pow2(i));
  }

  lemma AlignLogAtLeast(s: nat, shift: nat)
    requires s <= MAX_SIZE && shift >= 7
    ensures AlignLog(s, shift) >= if s > MAX_SMALL then 7 else 3
  {
    if s > MAX_SMALL {
      assert Log2(1024) == 10;
      Log2Monotone(1024, s);
    } else if s >= 128 {
      assert Log2(128) == 7;
      Log2Monotone(128, s);
    }
  }

  /** Entries stand for steps of 8 bytes up to 1024 and of 128 bytes beyond, without a gap between the two parts. */
  lemma IndexExact(s: nat)
    ensures var i := ClassIndex(s);
            if s <= 1024 then 8 * i - 8 < s <= 8 * i else 128 * (i - 120) - 128 < s <= 128 * (i - 120)
    ensures ClassIndex(0) == 0 && ClassIndex(1024) + 1 == ClassIndex(1025)
  {
  }

  lemma IndexMonotone(s: nat, t: nat)
    requires s <= t <= MAX_SIZE
    ensures ClassIndex(s) <= ClassIndex(t) < ARRAY_SIZE
    ensures OnGrid(s) && s < t ==> ClassIndex(s) < ClassIndex(t)
  {
  }

  lemma SameEntry(size: nat, s: nat)
    requires s % 8 == 0 && s - 8 < size <= s
    ensures ClassIndex(size) == ClassIndex(s)
  {
  }

  /** All sizes up to `upto` find their class. */
  ghost predicate Filled(entries: seq<nat>, sizes: seq<nat>, upto: int)
    requires |entries| == ARRAY_SIZE
  {
    forall size: nat :: size <= upto && size <= MAX_SIZE ==>
          ClassIndex(size) < ARRAY_SIZE && LeastClass(sizes, size, entries[ClassIndex(size)])
  }

  /** class_array_[ClassIndex(s)] = c serves all sizes with that entry. */
  lemma EntryWritten(entries: seq<nat>, sizes: seq<nat>, pages: seq<nat>, shift: nat, transfer: int, s: nat, c: nat)
    requires |entries| == ARRAY_SIZE && transfer >= -3 && TablesGood(sizes, pages, shift, transfer) && shift >= 7
    requires 1 <= c < |sizes| && s <= sizes[c] <= MAX_SIZE && (c == 1 || sizes[c - 1] < s) && s % 8 == 0
    requires Filled(entries, sizes, s - 8)
    ensures ClassIndex(s) < ARRAY_SIZE && Filled(entries[ClassIndex(s) := c], sizes, s)
  {
    IndexMonotone(s, s);
    var entries' := entries[ClassIndex(s) := c];
    hide LeastClass, ClassIndex;
    forall size: nat | size <= s ensures ClassIndex(size) < ARRAY_SIZE && LeastClass(sizes, size, entries'[ClassIndex(size)]) {
      IndexMonotone(size, s);
      if ClassIndex(size) == ClassIndex(s) {
        if c > 1 {
          BeyondPrevious(sizes, pages, shift, transfer, size, s, c);
        }
        LeastFromPrevious(sizes, pages, shift, transfer, size, c);
      } else if size > s - 8 {
        SameEntry(size, s);
      }
    }
  }

  lemma BeyondPrevious(sizes: seq<nat>, pages: seq<nat>, shift: nat, transfer: int, size: nat, s: nat, c: nat)
    requires transfer >= -3 && TablesGood(sizes, pages, shift, transfer) && shift >= 7
    requires 2 <= c < |sizes| && sizes[c - 1] < s <= MAX_SIZE && ClassIndex(size) == ClassIndex(s)
    ensures sizes[c - 1] < size
  {
    hide ClassIndex;
    assert ClassGood(sizes, pages, c - 1, shift, transfer);
    CandidatesOnGrid(sizes[c - 1], shift);
    IndexMonotone(sizes[c - 1], s);
    if size <= sizes[c - 1] {
      IndexMonotone(size, sizes[c - 1]);
    }
  }
}
