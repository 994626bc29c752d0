/**
 The arithmetic behind tcmalloc's size classes: the step from one candidate size to the next,
 the span chosen for a size, and the number of classes this gives for every page size.
 */
module SizeSpans {
  import opened Division

  const MAX_SIZE := 262144       // kMaxSize
  const ALIGNMENT := 8           // kAlignment
  const MIN_ALIGN := 16          // kMinAlign
  const CLASS_LIMIT := 128       // kClassSizesMax

  function Log2(n: nat): nat
    requires n > 0
  {
    if n == 1 then 0 else 1 + Log2(n / 2)
  }

  lemma {:induction false} Log2Bounds(n: nat)
    requires n > 0
    ensures Pow2(Log2(n)) <= n < Pow2(Log2(n) + 1)
  {
    if n > 1 {
      Log2Bounds(n / 2);
    }
  }

  lemma {:induction false} Log2Unique(n: nat, k: nat)
    requires n > 0 && Pow2(k) <= n < Pow2(k + 1)
    ensures Log2(n) == k
  {
    if k > 0 {
      Log2Unique(n / 2, k - 1);
    }
  }

  lemma {:induction false} Log2Monotone(m: nat, n: nat)
    requires 0 < m <= n
    ensures Log2(m) <= Log2(n)
  {
    if m > 1 {
      Log2Monotone(m / 2, n / 2);
    }
  }

  /** The logarithm of AlignmentForSize, for pages of 2^shift bytes. */
  function AlignLog(size: nat, shift: nat): nat {
    var wanted :=
      if size > MAX_SIZE then shift
      else if size >= 128 then Log2Monotone(128, size); assert Log2(128) == 7; Log2(size) - 3
      else if size >= MIN_ALIGN then 4
      else 3;
    if wanted > shift then shift else wanted
  }

  function Alignment(size: nat, shift: nat): (a: nat)
    ensures a > 0
  {
    Pow2(AlignLog(size, shift))
  }

  /** For sizes in [128, kMaxSize], the largest power of two up to an eighth of the size; otherwise the page, 16 or 8; never over a page. */
  ghost predicate IsAlignmentFor(a: nat, size: nat, page: nat) {
    if size > 262144 then a == page
    else if size >= 128 then a <= page && 8 * a <= size && (a == page || size < 16 * a)
    else if size >= 16 then a == (if page < 16 then page else 16)
    else a == (if page < 8 then page else 8)
  }

  lemma AlignmentExact(size: nat, shift: nat)
    ensures IsAlignmentFor(Alignment(size, shift), size, Pow2(shift))
  {
    Literals();
    hide Pow2, Log2, IsAlignmentFor;
    if 128 <= size <= MAX_SIZE {
      EighthAlignment(size, shift);
    } else {
      LogCapped(3, shift);
      LogCapped(4, shift);
      SmallAlignment(size, shift);
    }
  }

  lemma LogCapped(k: nat, shift: nat)
    ensures Pow2(if k > shift then shift else k) == if Pow2(shift) < Pow2(k) then Pow2(shift) else Pow2(k)
  {
    if shift < k { Pow2Less(shift, k); } else { Pow2Divides(k, shift); }
  }

  lemma SmallAlignment(size: nat, shift: nat)
    requires size < 128 || size > MAX_SIZE
    requires Pow2(if 3 > shift then shift else 3) == (if Pow2(shift) < 8 then Pow2(shift) else 8)
    requires Pow2(if 4 > shift then shift else 4) == (if Pow2(shift) < 16 then Pow2(shift) else 16)
    ensures IsAlignmentFor(Alignment(size, shift), size, Pow2(shift))
  {
    hide Pow2, Log2;
  }

  lemma EighthAlignment(size: nat, shift: nat)
    requires 128 <= size <= MAX_SIZE
    ensures IsAlignmentFor(Alignment(size, shift), size, Pow2(shift))
  {
    hide Pow2, Log2;
    var k := OctaveOf(size);
    LogCapped(k - 3, shift);
  }

  lemma OctaveOf(size: nat) returns (k: nat)
    requires size >= 128
    ensures k == Log2(size) >= 7 && 8 * Pow2(k - 3) <= size < 16 * Pow2(k - 3)
  {
    k := Log2(size);
    assert Log2(128) == 7;
    Log2Monotone(128, size);
    Log2Bounds(size);
    hide Log2;
    assert Pow2(k) == 2 * Pow2(k - 1) == 4 * Pow2(k - 2) == 8 * Pow2(k - 3);
  }

  /** One of the sizes the outer loop goes through. */
  ghost predicate Candidate(size: nat, shift: nat) {
    ALIGNMENT <= size <= MAX_SIZE && size % Alignment(size, shift) == 0
  }

  lemma Literals()
    ensures Pow2(3) == 8 && Pow2(4) == 16 && Pow2(5) == 32 && Pow2(7) == 128 && Pow2(11) == 2048 && Pow2(12) == 4096
    ensures Pow2(14) == 16384 && Pow2(15) == 32768 && Pow2(18) == MAX_SIZE
  {
    assert Pow2(5) == 32 && Pow2(6) == 64 && Pow2(8) == 256 && Pow2(9) == 512 && Pow2(10) == 1024;
    assert Pow2(13) == 8192;
    assert Pow2(16) == 65536;
    assert Pow2(17) == 131072;
  }

  /** From 128 on, a size is followed by another one of its octave or by the next power of two. */
  lemma LargeStep(size: nat, shift: nat)
    requires 128 <= size < MAX_SIZE && Candidate(size, shift)
    ensures 7 <= Log2(size) <= 17
    ensures var k, next := Log2(size), size + Alignment(size, shift);
            && next <= Pow2(k + 1) <= MAX_SIZE
            && (next < Pow2(k + 1) ==> Log2(next) == k && Alignment(next, shift) == Alignment(size, shift))
            && Candidate(next, shift)
  {
    Literals();
    var k, a := Log2(size), Alignment(size, shift);
    Log2Bounds(size);
    Log2Monotone(128, size);
    assert Log2(128) == 7;
    if k >= 18 {
      Pow2Divides(18, k);
    }
    Pow2Divides(AlignLog(size, shift), k + 1);
    Pow2Divides(k + 1, 18);
    hide Pow2, Log2;
    NextMultiple(size, Pow2(k + 1), a);
    var next := size + a;
    if next < Pow2(k + 1) {
      Log2Unique(next, k);
    } else {
      PowerIsCandidate(k + 1, shift);
    }
  }

  lemma PowerIsCandidate(k: nat, shift: nat)
    requires 3 <= k <= 18
    ensures Candidate(Pow2(k), shift)
  {
    Literals();
    Pow2Divides(k, 18);
    Pow2Divides(3, k);
    if k >= 7 {
      Pow2Divides(7, k);
      Log2Unique(Pow2(k), k);
    } else if k >= 4 {
      Pow2Divides(4, k);
      Pow2Divides(k + 1, 7);
    }
    hide Pow2, Log2;
    assert AlignLog(Pow2(k), shift) <= k;
    Pow2Divides(AlignLog(Pow2(k), shift), k);
  }

  /** Every candidate below the largest size is followed by a candidate. */
  lemma StepIsCandidate(size: nat, shift: nat)
    requires size < MAX_SIZE && Candidate(size, shift) && shift >= 4
    ensures Candidate(size + Alignment(size, shift), shift)
  {
    Literals();
    if size >= 128 {
      LargeStep(size, shift);
    } else if size >= 16 {
      if size + 16 == 128 {
        PowerIsCandidate(7, shift);
      }
    } else {
      assert size == 8;
    }
  }

  // ----- how many objects to move at a time

  function NumMoveSize(size: nat, transfer: int): int {
    if size == 0 then 0
    else
      var num := 65536 / size;
      var atLeast2 := if num < 2 then 2 else num;
      if atLeast2 > transfer then transfer else atLeast2
  }

  /** C's division, which rounds toward zero. */
  function Quarter(n: int): int {
    if n >= 0 then n / 4 else -(-n / 4)
  }

  function BlocksToMove(size: nat, transfer: int): int {
    Quarter(NumMoveSize(size, transfer))
  }

  /** As many objects as fit in 64 KB, but at least 2, and at most the transfer setting, which goes before. */
  ghost predicate MoveCount(n: int, size: nat, transfer: int) {
    if transfer < 2 then n == transfer
    else 2 <= n <= transfer && (n == 2 || n * size <= 65536) && (n == transfer || (n + 1) * size > 65536)
  }

  /** What NumMoveSize gives, and the blocks that a span must hold: a quarter of it, rounded toward zero. */
  lemma MoveCountExact(size: nat, transfer: int)
    requires size > 0
    ensures MoveCount(NumMoveSize(size, transfer), size, transfer) && NumMoveSize(0, transfer) == 0
    ensures var n, b := NumMoveSize(size, transfer), BlocksToMove(size, transfer);
            if n >= 0 then 4 * b <= n < 4 * b + 4 else 4 * b - 4 < n <= 4 * b
  {
    var num := 65536 / size;
    assert num * size <= 65536 < num * size + size;
    var n := NumMoveSize(size, transfer);
    assert (n + 1) * size == n * size + size;
    if n < num {
      if n >= 0 { MulLe(n, num, size); }
    } else {
      MulLe(num, if n >= 0 then n else num, size);
    }
  }

  /** No other count meets this description. */
  lemma MoveCountUnique(m: int, n: int, size: nat, transfer: int)
    requires size > 0 && MoveCount(m, size, transfer) && MoveCount(n, size, transfer)
    ensures m == n
  {
    if m < n && transfer >= 2 {
      MulLe(m + 1, n, size);
    }
    if n < m && transfer >= 2 {
      MulLe(n + 1, m, size);
    }
  }

  lemma BlocksFacts(size: nat, transfer: int)
    requires size > 0
    ensures transfer >= -3 ==> BlocksToMove(size, transfer) >= 0
    ensures size > 16384 && transfer >= -3 ==> BlocksToMove(size, transfer) == 0
    ensures size >= 16384 ==> BlocksToMove(size, transfer) <= 1
  {
    if size > 16384 {
      Quotient(size, 16385, 3);
    } else if size == 16384 {
      assert 65536 / size == 4;
    }
  }

  lemma Quotient(size: nat, least: nat, q: nat)
    requires size >= least > 0 && (q + 1) * least > 65536
    ensures 65536 / size <= q
  {
    var d := 65536 / size;
    assert d * size <= 65536;
    MulLe(least, size, q + 1);
    if d > q {
      MulLe(q + 1, d, size);
    }
  }

  /**
   A transfer count of -4 or less never lets Init return: the negative block count is compared
   as a 64-bit unsigned number, and no span size reaches it.
   */
  lemma NeverEnough(size: nat, transfer: int, psize: nat)
    requires ALIGNMENT <= size <= MAX_SIZE && -0x8000_0000 <= transfer <= -4 && psize < 0x1_0000_0000_0000_0000
    ensures psize / size < BlocksToMove(size, transfer) % 0x1_0000_0000_0000_0000
  {
    assert psize / size <= psize / 8 by {
      var d := psize / size;
      assert d * size <= psize;
      assert d * 8 <= d * size;
    }
    assert BlocksToMove(size, transfer) == Quarter(transfer);
    assert -0x8000_0000 <= Quarter(transfer) <= -1;
  }

  // ----- the span for a size

  /** k pages make a good span: leftover at most 1/8, and enough objects. */
  predicate Fits(k: nat, size: nat, blocks: nat, page: nat)
    requires size > 0
  {
    k * page % size <= k * page / 8 && k * page / size >= blocks
  }

  lemma AtLeast(p: nat, size: nat, n: nat)
    requires size > 0 && p >= n * size
    ensures p / size >= n
  {
    var d := p / size;
    assert p == d * size + p % size && (d + 1) * size == d * size + size;
    assert d < n ==> (d + 1) * size <= n * size;
  }

  lemma NotYet(k: nat, size: nat, blocks: nat, page: nat)
    requires size > 0 && page > 0 && !Fits(k, size, blocks, page)
    ensures k < (8 + blocks) * size
  {
    var p := k * page;
    assert p >= k;
    assert (8 + blocks) * size == 8 * size + blocks * size;
    if k >= (8 + blocks) * size {
      assert blocks * size >= 0;
      AtLeast(p, size, blocks);
    }
  }

  /** The first number of pages from k on that fits. */
  function FirstFit(k: nat, size: nat, blocks: nat, page: nat): (r: nat)
    requires size > 0 && page > 0
    ensures k <= r && Fits(r, size, blocks, page)
    ensures forall j :: k <= j < r ==> !Fits(j, size, blocks, page)
    decreases (8 + blocks) * size - k
  {
    if Fits(k, size, blocks, page) then k
    else NotYet(k, size, blocks, page); FirstFit(k + 1, size, blocks, page)
  }

  lemma FirstFitIs(r: nat, size: nat, blocks: nat, page: nat)
    requires size > 0 && page > 0 && r >= 1 && Fits(r, size, blocks, page)
    requires forall j :: 1 <= j < r ==> !Fits(j, size, blocks, page)
    ensures FirstFit(1, size, blocks, page) == r
  {
    hide Fits, FirstFit;
    var f := FirstFit(1, size, blocks, page);
    assert f < r || f == r || r < f;
  }

  /** The pages of the span for a size. */
  function Span(size: nat, shift: nat, transfer: int): (k: nat)
    requires size > 0 && transfer >= -3
    ensures k >= 1
  {
    BlocksFacts(size, transfer);
    FirstFit(1, size, BlocksToMove(size, transfer), Pow2(shift))
  }

  function Objects(size: nat, pages: nat, shift: nat): nat
    requires size > 0
  {
    pages * Pow2(shift) / size
  }

  lemma SpanFits(size: nat, shift: nat, transfer: int)
    requires size > 0 && transfer >= -3
    ensures BlocksToMove(size, transfer) >= 0
    ensures Fits(Span(size, shift, transfer), size, BlocksToMove(size, transfer), Pow2(shift))
  {
    BlocksFacts(size, transfer);
  }

  lemma LittleLeft(p: nat, size: nat)
    requires p >= 1 && size > 0 && p % size <= p / 8
    ensures p >= size && p / size >= 1 && 8 * (p % size) <= p
  {
    if p < size {
      BelowDivisor(p, size);
    }
    AtLeast(p, size, 1);
  }

  /** A span holds at least one object and wastes at most an eighth of itself at the end. */
  lemma SpanGood(size: nat, shift: nat, transfer: int)
    requires size > 0 && transfer >= -3
    ensures var p := Span(size, shift, transfer) * Pow2(shift);
            p >= size && 8 * (p % size) <= p && p / size >= 1 && p / size >= BlocksToMove(size, transfer)
  {
    hide Span, BlocksToMove, Pow2;
    SpanFits(size, shift, transfer);
    var p := Span(size, shift, transfer) * Pow2(shift);
    MulLe(1, Span(size, shift, transfer), Pow2(shift));
    LittleLeft(p, size);
  }

  /** Two sizes that the same span serves with the same number of objects. */
  predicate Same(p: nat, s: nat, shift: nat, transfer: int)
    requires p > 0 && s > 0 && transfer >= -3
  {
    && Span(p, shift, transfer) == Span(s, shift, transfer)
    && Objects(p, Span(p, shift, transfer), shift) == Objects(s, Span(s, shift, transfer), shift)
  }

  /** Merging never joins sizes further apart than 7 to 8. */
  lemma SameIsClose(p: nat, s: nat, shift: nat, transfer: int)
    requires 0 < p <= s && transfer >= -3 && Same(p, s, shift, transfer)
    ensures 7 * s <= 8 * p
  {
    hide Span, Pow2;
    SpanGood(p, shift, transfer);
    CloseSizes(Span(p, shift, transfer) * Pow2(shift), p, s);
  }

  lemma CloseSizes(bytes: nat, p: nat, s: nat)
    requires 0 < p <= s && bytes / p == bytes / s >= 1 && 8 * (bytes % p) <= bytes
    ensures 7 * s <= 8 * p
  {
    var n := bytes / p;
    var np, ns := n * p, n * s;
    assert bytes == np + bytes % p && ns <= bytes;
    assert 7 * ns <= 8 * np;
    assert (8 * p + 1) * n == 8 * np + n && 7 * s * n == 7 * ns;
    if 7 * s >= 8 * p + 1 {
      MulLe(8 * p + 1, 7 * s, n);
    }
  }

  /** A large size that is a whole number of pages gets exactly these. */
  lemma WholePages(size: nat, shift: nat, transfer: int)
    requires size >= 16384 && transfer >= -3 && size % Pow2(shift) == 0
    ensures Span(size, shift, transfer) == size / Pow2(shift)
  {
    hide BlocksToMove, Pow2, FirstFit, Fits;
    BlocksFacts(size, transfer);
    var page := Pow2(shift);
    var r, blocks := size / page, BlocksToMove(size, transfer);
    assert r * page == size;
    ExactFit(r, size, blocks, page);
    forall j | 1 <= j < r ensures !Fits(j, size, blocks, page) {
      TooShort(j, r, size, blocks, page);
    }
    FirstFitIs(r, size, blocks, page);
  }

  lemma ExactFit(r: nat, size: nat, blocks: nat, page: nat)
    requires size > 0 && r * page == size && blocks <= 1
    ensures r >= 1 && Fits(r, size, blocks, page)
  {
    UniqueQuotient(size, size, 1, 0);
  }

  lemma TooShort(j: nat, r: nat, size: nat, blocks: nat, page: nat)
    requires page > 0 && r * page == size && 1 <= j < r
    ensures size > 0 && !Fits(j, size, blocks, page)
  {
    MulLe(j + 1, r, page);
    MulLe(1, j, page);
    assert (j + 1) * page == j * page + page;
    BelowDivisor(j * page, size);
  }

  /** Above 16384, a size is given the fewest pages that hold it, if these leave little over. */
  lemma RoundedPages(size: nat, r: nat, shift: nat, transfer: int)
    requires size > 16384 && transfer >= -3 && r >= 1
    requires (r - 1) * Pow2(shift) < size <= r * Pow2(shift) < 2 * size && 8 * (r * Pow2(shift) - size) <= r * Pow2(shift)
    ensures Span(size, shift, transfer) == r && Objects(size, r, shift) == 1
  {
    BlocksFacts(size, transfer);
    var page := Pow2(shift);
    hide BlocksToMove, Pow2, FirstFit;
    UniqueQuotient(r * page, size, 1, r * page - size);
    forall j | 1 <= j < r ensures !Fits(j, size, 0, page) {
      MulLe(j, r - 1, page);
      MulLe(1, j, page);
      BelowDivisor(j * page, size);
    }
    FirstFitIs(r, size, 0, page);
  }

  // ----- the number of classes

  /** The classes that are added after the one that ends at `size`. */
  ghost function ClassesAfter(size: nat, shift: nat, transfer: int): nat
    requires size > 0 && transfer >= -3
    decreases MAX_SIZE + 1 - size
  {
    var next := size + Alignment(size, shift);
    if next > MAX_SIZE || size > MAX_SIZE then 0
    else (if Same(size, next, shift, transfer) then 0 else 1) + ClassesAfter(next, shift, transfer)
  }

  /** The value of sc when the loop over the sizes is done. */
  ghost function FinalCount(shift: nat, transfer: int): nat
    requires transfer >= -3
  {
    2 + ClassesAfter(ALIGNMENT, shift, transfer)
  }

  lemma ClassesStep(size: nat, shift: nat, transfer: int)
    requires size > 0 && transfer >= -3 && size + Alignment(size, shift) <= MAX_SIZE
    ensures var next := size + Alignment(size, shift);
            ClassesAfter(size, shift, transfer)
              == (if Same(size, next, shift, transfer) then 0 else 1) + ClassesAfter(next, shift, transfer)
  {
    hide Same, Alignment;
  }

  /** n steps before the end of an octave. */
  lemma {:induction false} Within(size: nat, n: nat, k: nat, shift: nat, transfer: int)
    requires 7 <= k <= 17 && Pow2(k) <= size <= Pow2(k + 1) && Candidate(size, shift) && transfer >= -3
    requires size + n * Alignment(Pow2(k), shift) == Pow2(k + 1)
    ensures ClassesAfter(Pow2(k + 1), shift, transfer) <= ClassesAfter(size, shift, transfer)
    ensures ClassesAfter(size, shift, transfer) <= n + ClassesAfter(Pow2(k + 1), shift, transfer)
    decreases n
  {
    hide Same, Alignment, Candidate, Pow2, Log2, ClassesAfter;
    var a := Alignment(Pow2(k), shift);
    if n > 0 {
      MulLe(1, n, a);
      SameOctave(size, k, shift);
      LargeStep(size, shift);
      ClassesStep(size, shift, transfer);
      assert (n - 1) * a == n * a - a;
      Within(size + a, n - 1, k, shift, transfer);
    }
  }

  lemma SameOctave(size: nat, k: nat, shift: nat)
    requires 7 <= k <= 17 && Pow2(k) <= size < Pow2(k + 1)
    ensures size >= 128 && size < MAX_SIZE && Log2(size) == k
    ensures Alignment(size, shift) == Alignment(Pow2(k), shift) == Pow2(if k - 3 > shift then shift else k - 3)
  {
    Literals();
    Pow2Divides(7, k);
    Pow2Divides(k + 1, 18);
    Log2Unique(size, k);
    Log2Unique(Pow2(k), k);
  }

  lemma Octave(k: nat, shift: nat, transfer: int)
    requires 7 <= k <= 17 && transfer >= -3
    ensures ClassesAfter(Pow2(k + 1), shift, transfer) <= ClassesAfter(Pow2(k), shift, transfer)
         <= Pow2(if k - 3 > shift then k - shift else 3) + ClassesAfter(Pow2(k + 1), shift, transfer)
  {
    var al := if k - 3 > shift then shift else k - 3;
    PowerIsCandidate(k, shift);
    SameOctave(Pow2(k), k, shift);
    Pow2Divides(al, k);
    Pow2Add(k - al, al);
    Within(Pow2(k), Pow2(k - al), k, shift, transfer);
  }

  lemma NoneAfterLast(shift: nat, transfer: int)
    requires transfer >= -3
    ensures ClassesAfter(Pow2(18), shift, transfer) == 0
  {
    Literals();
  }

  /** The eight sizes below 128: 8, 16, 32, ..., 112. */
  lemma SmallSizes(shift: nat, transfer: int)
    requires shift >= 4 && transfer >= -3
    ensures 7 + ClassesAfter(128, shift, transfer) <= ClassesAfter(8, shift, transfer) <= 8 + ClassesAfter(128, shift, transfer)
  {
    SmallStep(8, 16, shift, transfer);
    SmallStep(16, 32, shift, transfer);
    SmallStep(32, 48, shift, transfer);
    SmallStep(48, 64, shift, transfer);
    SmallStep(64, 80, shift, transfer);
    SmallStep(80, 96, shift, transfer);
    SmallStep(96, 112, shift, transfer);
    SmallStep(112, 128, shift, transfer);
  }

  lemma SmallStep(size: nat, next: nat, shift: nat, transfer: int)
    requires shift >= 4 && transfer >= -3
    requires (size, next) == (8, 16) || (16 <= size < 128 && next == size + 16)
    ensures ClassesAfter(next, shift, transfer) <= ClassesAfter(size, shift, transfer) <= 1 + ClassesAfter(next, shift, transfer)
    ensures 7 * next > 8 * size ==> ClassesAfter(size, shift, transfer) == 1 + ClassesAfter(next, shift, transfer)
  {
    Literals();
    assert Alignment(size, shift) == next - size;
    hide Same;
    if Same(size, next, shift, transfer) {
      SameIsClose(size, next, shift, transfer);
    }
  }

  /** Pages of 2^13 bytes or more: at most eight sizes in every octave but the last. */
  lemma FewClasses(shift: nat, transfer: int)
    requires shift >= 13 && transfer >= -3
    ensures FinalCount(shift, transfer) <= 106
  {
    hide ClassesAfter, Pow2;
    NoneAfterLast(shift, transfer);
    Literals();
    Octave(17, shift, transfer); Octave(16, shift, transfer); Octave(15, shift, transfer);
    Octave(14, shift, transfer); Octave(13, shift, transfer); Octave(12, shift, transfer);
    Octave(11, shift, transfer); Octave(10, shift, transfer); Octave(9, shift, transfer);
    Octave(8, shift, transfer); Octave(7, shift, transfer);
    SmallSizes(shift, transfer);
  }

  /** Pages of 2^12 bytes: without the sizes that merge between 16384 and 32768 there would be too many. */
  lemma MergesSave(transfer: int)
    requires transfer >= -3
    ensures FinalCount(12, transfer) <= CLASS_LIMIT
  {
    hide ClassesAfter, Pow2;
    NoneAfterLast(12, transfer);
    Literals();
    Octave(17, 12, transfer); Octave(16, 12, transfer); Octave(15, 12, transfer);
    MergingOctave(transfer);
    Octave(13, 12, transfer); Octave(12, 12, transfer); Octave(11, 12, transfer); Octave(10, 12, transfer);
    Octave(9, 12, transfer); Octave(8, 12, transfer); Octave(7, 12, transfer);
    SmallSizes(12, transfer);
  }

  lemma MergingOctave(transfer: int)
    requires transfer >= -3
    ensures ClassesAfter(16384, 12, transfer) <= 6 + ClassesAfter(32768, 12, transfer)
  {
    hide ClassesAfter, Same;
    MiddleStep(16384, transfer);
    MiddleStep(18432, transfer);
    MiddleStep(20480, transfer);
    MiddleStep(22528, transfer);
    MiddleStep(24576, transfer);
    MiddleStep(26624, transfer);
    MiddleStep(28672, transfer);
    MiddleStep(30720, transfer);
    TheyMerge(18432, 20480, 5, transfer);
    TheyMerge(22528, 24576, 6, transfer);
  }

  lemma TheyMerge(p: nat, s: nat, r: nat, transfer: int)
    requires transfer >= -3 && 16384 < p < s == r * 4096 && p > (r - 1) * 4096 && 8 * (s - p) <= s
    ensures Same(p, s, 12, transfer)
  {
    Literals();
    hide Pow2;
    RoundedPages(p, r, 12, transfer);
    RoundedPages(s, r, 12, transfer);
    hide Span, Objects;
  }

  lemma MiddleStep(size: nat, transfer: int)
    requires 16384 <= size < 32768 && transfer >= -3
    ensures ClassesAfter(size, 12, transfer)
         == (if Same(size, size + 2048, 12, transfer) then 0 else 1) + ClassesAfter(size + 2048, 12, transfer)
  {
    Literals();
    hide Pow2, Same, ClassesAfter;
    SameOctave(size, 14, 12);
    ClassesStep(size, 12, transfer);
  }

  /** Small pages: above 16384 every page more is a class of its own. */
  lemma {:induction false} EveryPage(size: nat, n: nat, shift: nat, transfer: int)
    requires 4 <= shift <= 11 && transfer >= -3 && size >= 16384 && size % Pow2(shift) == 0
    requires size + n * Pow2(shift) == MAX_SIZE
    ensures ClassesAfter(size, shift, transfer) == n
    decreases n
  {
    hide Pow2, Alignment, Span, ClassesAfter, Objects;
    var page := Pow2(shift);
    LargeAlignment(size, shift);
    if n == 0 {
      NoneAfterLast(shift, transfer);
      Literals();
    } else {
      NextMultiple(size, size + page, page) by { AddMod(size, page); }
      WholePages(size, shift, transfer);
      WholePages(size + page, shift, transfer);
      OneMorePage(size, page);
      MulLe(1, n, page);
      assert (n - 1) * page == n * page - page;
      ClassesStep(size, shift, transfer);
      EveryPage(size + page, n - 1, shift, transfer);
    }
  }

  lemma OneMorePage(size: nat, page: nat)
    requires page > 0 && size % page == 0
    ensures (size + page) / page == size / page + 1
  {
    var q := size / page;
    assert size == q * page && (q + 1) * page == q * page + page;
    UniqueQuotient(size + page, page, q + 1, 0);
  }

  lemma LargeAlignment(size: nat, shift: nat)
    requires shift <= 11 && size >= 16384
    ensures Alignment(size, shift) == Pow2(shift)
  {
    Literals();
    Log2Unique(16384, 14);
    Log2Monotone(16384, size);
  }

  lemma TooManyClasses(shift: nat, transfer: int)
    requires 4 <= shift <= 11 && transfer >= -3
    ensures FinalCount(shift, transfer) > CLASS_LIMIT
  {
    hide ClassesAfter, Pow2;
    Literals();
    SmallSizes(shift, transfer);
    Octave(7, shift, transfer); Octave(8, shift, transfer); Octave(9, shift, transfer); Octave(10, shift, transfer);
    Octave(11, shift, transfer); Octave(12, shift, transfer); Octave(13, shift, transfer);
    Pow2Divides(shift, 14);
    Pow2Divides(shift, 11);
    var page := Pow2(shift);
    NextMultiples(page);
    EveryPage(16384, 245760 / page, shift, transfer);
  }

  lemma NextMultiples(page: nat)
    requires 0 < page <= 2048 && 2048 % page == 0
    ensures 245760 / page * page == 245760 && 245760 / page >= 120
  {
    DividesTrans(245760, 2048, page);
    AtLeast(245760, page, 120);
  }

  /** The class tables hold what Init builds exactly if a page has 4096 bytes or more. */
  lemma ClassLimit(shift: nat, transfer: int)
    requires shift >= 4 && transfer >= -3
    ensures FinalCount(shift, transfer) <= CLASS_LIMIT <==> shift >= 12
  {
    if shift >= 13 {
      FewClasses(shift, transfer);
    } else if shift == 12 {
      MergesSave(transfer);
    } else {
      TooManyClasses(shift, transfer);
    }
  }
}
