/**
 Natural alignment: a request for a multiple of a power of two, below the page size, is served
 from a class whose size is a multiple of that power of two, although sizes were merged.
 */
module SizeNatural {
  import opened Division
  import opened SizeSpans
  import opened SizeTables

  lemma Scale(h: nat, x: nat, y: nat)
    requires h > 0 && y > 0
    ensures h * y > 0 && h * x / (h * y) == x / y && h * x % (h * y) == h * (x % y)
  {
    var q, r := x / y, x % y;
    assert x == q * y + r;
    MulLe(1, y, h);
    assert h * x == q * (h * y) + h * r by { Spread(h, q, y, r); }
    MulLe(r + 1, y, h);
    assert (r + 1) * h == h * r + h;
    UniqueQuotient(h * x, h * y, q, h * r);
  }

  lemma Spread(h: nat, q: nat, y: nat, r: nat)
    ensures h * (q * y + r) == q * (h * y) + h * r
  {
  }

  /** A span of 16M units that serves 2a and 2a + 1 units alike, with little left over. */
  lemma Units(M: nat, a: nat)
    requires M >= 1 && 4 <= a <= 7 && 16 * M / (2 * a) == 16 * M / (2 * a + 1) && 16 * M % (2 * a) <= 2 * M
    ensures (a == 6 && M == 5) || (a == 7 && M <= 13)
  {
    var q, n := 16 * M, 16 * M / (2 * a);
    var r := q % (2 * a);
    assert q == 2 * a * n + r;
    assert (2 * a + 1) * n <= q;
    UnitCases(M, a, n, r);
  }

  lemma UnitCases(M: nat, a: nat, n: nat, r: nat)
    requires M >= 1 && 4 <= a <= 7 && r < 2 * a && r <= 2 * M && 16 * M == 2 * a * n + r && (2 * a + 1) * n <= 16 * M
    ensures (a == 6 && M == 5) || (a == 7 && M <= 13)
  {
    assert a == 4 ==> 16 * M == 8 * n + r && 9 * n <= 16 * M;
    assert a == 5 ==> 16 * M == 10 * n + r && 11 * n <= 16 * M;
    assert a == 6 ==> 16 * M == 12 * n + r && 13 * n <= 16 * M;
    assert a == 7 ==> 16 * M == 14 * n + r && 15 * n <= 16 * M;
  }

  /** What being served alike means for the two sizes 2a * h and (2a + 1) * h on pages of 16 * P * h bytes. */
  lemma Alike(h: nat, a: nat, P: nat, shift: nat, transfer: int)
    requires h > 0 && 4 <= a <= 7 && P > 0 && Pow2(shift) == h * (16 * P) && transfer >= -3
    requires Same(h * (2 * a), h * (2 * a + 1), shift, transfer)
    ensures var M := Span(h * (2 * a), shift, transfer) * P; (a == 6 && M == 5) || (a == 7 && M <= 13)
  {
    hide Span, Pow2;
    MulLe(1, 2 * a, h);
    MulLe(1, 2 * a + 1, h);
    var m := Span(h * (2 * a), shift, transfer);
    var M := m * P;
    SpanGood(h * (2 * a), shift, transfer);
    assert m * (h * (16 * P)) == h * (16 * M) by { Commute(m, h, P); }
    Scale(h, 16 * M, 2 * a);
    Scale(h, 16 * M, 2 * a + 1);
    MulLe(1, m, P);
    LeftOver(h, 16 * M % (2 * a), M);
    Units(M, a);
  }

  lemma Commute(m: nat, h: nat, P: nat)
    ensures m * (h * (16 * P)) == h * (16 * (m * P))
  {
    assert m * (h * (16 * P)) == 16 * (m * h * P);
    assert h * (16 * (m * P)) == 16 * (h * m * P);
  }

  lemma LeftOver(h: nat, r: nat, M: nat)
    requires h > 0 && 8 * (h * r) <= h * (16 * M)
    ensures r <= 2 * M
  {
    assert 8 * ((2 * M + 1) * h) == h * (16 * M) + 8 * h;
    if r > 2 * M {
      MulLe(2 * M + 1, r, h);
    }
  }

  /** Sizes 12h and 13h: 5 pages would serve both alike, but 4 pages were enough for the first. */
  lemma TwelveUnits(h: nat, shift: nat, transfer: int)
    requires h >= 256 && Pow2(shift) == 16 * h && transfer >= -3
    ensures Span(h * 12, shift, transfer) <= 4
  {
    hide Pow2, FirstFit, BlocksToMove;
    var size := h * 12;
    FewBlocks(size, transfer);
    BlocksFacts(size, transfer);
    var blocks := BlocksToMove(size, transfer);
    Scale(h, 64, 12);
    assert 4 * (16 * h) == h * 64;
    assert Fits(4, size, blocks, 16 * h);
    assert FirstFit(1, size, blocks, 16 * h) <= 4;
  }

  lemma FewBlocks(size: nat, transfer: int)
    requires size >= 3072
    ensures BlocksToMove(size, transfer) <= 5
  {
    Quotient(size, 3072, 21);
  }

  /** Sizes 15h and 16h of this kind are always merged. */
  lemma FifteenUnits(h: nat, P: nat, m: nat, shift: nat, transfer: int)
    requires h > 0 && P > 0 && Pow2(shift) == h * (16 * P) && transfer >= -3
    requires m == Span(h * 15, shift, transfer) && m * P <= 13
    requires BlocksToMove(h * 15, transfer) <= 13 ==> BlocksToMove(h * 16, transfer) == BlocksToMove(h * 15, transfer)
    ensures Same(h * 15, h * 16, shift, transfer)
  {
    hide Pow2, FirstFit, BlocksToMove, Fits;
    var page := Pow2(shift);
    SpanFits(h * 15, shift, transfer);
    var blocks := BlocksToMove(h * 15, transfer);
    BlocksFacts(h * 16, transfer);
    PagesAlike(h, P, m, blocks, page);
    assert Fits(m, h * 16, blocks, page);
    forall k | 1 <= k < m ensures !Fits(k, h * 16, blocks, page) {
      MulLe(k, m, P);
      PagesAlike(h, P, k, blocks, page);
    }
    FirstFitIs(m, h * 16, blocks, page);
  }

  lemma PagesAlike(h: nat, P: nat, k: nat, blocks: nat, page: nat)
    requires h > 0 && P > 0 && page == h * (16 * P) && k * P <= 13
    ensures Fits(k, h * 15, blocks, page) <==> k * P >= blocks
    ensures Fits(k, h * 16, blocks, page) <==> k * P >= blocks
    ensures k * page / (h * 15) == k * page / (h * 16) == k * P
  {
    var M := k * P;
    assert k * page == h * (16 * M) by { Commute(k, h, P); }
    Scale(h, 16 * M, 15);
    Scale(h, 16 * M, 16);
    assert 16 * M / 15 == M && 16 * M % 15 == M;
    assert h * M <= h * (16 * M) / 8 by {
      assert h * (16 * M) == 16 * (h * M);
    }
  }

  /** The number of blocks to move does not drop between 15h and 16h, unless it is large. */
  lemma BlocksNear(i: nat, transfer: int)
    requires 4 <= i <= 14 && BlocksToMove(Pow2(i) * 15, transfer) <= 13
    ensures BlocksToMove(Pow2(i) * 16, transfer) == BlocksToMove(Pow2(i) * 15, transfer)
  {
    var h := Pow2(i);
    Literals();
    hide BlocksToMove;
    Powers();
    hide Pow2;
    Near(h, transfer);
  }

  lemma Powers()
    ensures Pow2(4) == 16 && Pow2(5) == 32 && Pow2(6) == 64 && Pow2(7) == 128 && Pow2(8) == 256 && Pow2(9) == 512
    ensures Pow2(10) == 1024 && Pow2(11) == 2048 && Pow2(12) == 4096 && Pow2(13) == 8192 && Pow2(14) == 16384
  {
  }

  lemma Near(h: nat, transfer: int)
    requires h in [16, 32, 64, 128, 256, 512, 1024, 2048, 4096, 8192, 16384] && BlocksToMove(h * 15, transfer) <= 13
    ensures BlocksToMove(h * 16, transfer) == BlocksToMove(h * 15, transfer)
  {
  }

  /** The class of a naturally aligned request. */
  lemma NaturalAlignment(sizes: seq<nat>, pages: seq<nat>, shift: nat, transfer: int, size: nat, j: nat, c: nat)
    requires 12 <= shift && transfer >= -3 && TablesGood(sizes, pages, shift, transfer) && sizes[|sizes| - 1] == MAX_SIZE
    requires 4 <= j <= shift && size % Pow2(j) == 0 && 0 < size < Pow2(shift) && size <= MAX_SIZE && LeastClass(sizes, size, c)
    ensures sizes[c] % Pow2(j) == 0
  {
    hide Alignment, Candidate, Pow2, Same, Uniform, AlignLog;
    var e := sizes[c];
    assert ClassGood(sizes, pages, c, shift, transfer);
    CandidateLog(e, shift);
    Multiple(size, j);
    if j <= AlignLog(e, shift) {
      Pow2Divides(j, AlignLog(e, shift));
      DividesTrans(e, Pow2(AlignLog(e, shift)), Pow2(j));
    } else if size < e {
      assert Same(size, e, shift, transfer) by {
        OwnCandidate(size, e, j, shift);
        assert c > 1 ==> sizes[c - 1] < size;
        UseUniform(sizes[c - 1], e, size, shift, transfer);
      }
      assert c < |sizes| - 1 ==> Apart(sizes, c, shift, transfer);
      NotNatural(size, e, j, shift, transfer);
    }
  }

  lemma Multiple(size: nat, j: nat)
    requires size % Pow2(j) == 0 && size > 0 && j >= 4
    ensures size >= 16 && size % 16 == 0
  {
    Literals();
    Pow2Divides(4, j);
    DividesTrans(size, Pow2(j), 16);
  }

  lemma UseUniform(low: nat, high: nat, s: nat, shift: nat, transfer: int)
    requires transfer >= -3 && high > 0 && Uniform(low, high, shift, transfer) && Candidate(s, shift) && low < s <= high
    ensures Same(s, high, shift, transfer)
  {
    hide Same, Candidate;
  }

  lemma CandidateLog(e: nat, shift: nat)
    requires Candidate(e, shift)
    ensures 0 < e <= MAX_SIZE && e % Pow2(AlignLog(e, shift)) == 0
  {
  }

  lemma OwnCandidate(size: nat, e: nat, j: nat, shift: nat)
    requires 16 <= size < e <= MAX_SIZE && size % Pow2(j) == 0 && AlignLog(e, shift) < j <= shift
    ensures Candidate(size, shift)
  {
    LogGrows(size, e, shift);
    hide AlignLog, Pow2;
    Pow2Divides(AlignLog(size, shift), j);
    DividesTrans(size, Pow2(j), Pow2(AlignLog(size, shift)));
  }

  lemma LogGrows(size: nat, e: nat, shift: nat)
    requires 16 <= size < e <= MAX_SIZE
    ensures AlignLog(size, shift) <= AlignLog(e, shift)
  {
    assert Log2(128) == 7;
    if e >= 128 {
      Log2Monotone(128, e);
      if size >= 128 {
        Log2Monotone(size, e);
      }
    }
  }

  /** Only above 128 can a class end on a coarser grid than its alignment. */
  lemma LargeEnough(size: nat, e: nat, j: nat, shift: nat)
    requires Candidate(e, shift) && 16 <= size < e && size % 16 == 0 && 7 * e <= 8 * size
    requires AlignLog(e, shift) < j <= shift && size % Pow2(j) == 0
    ensures e >= 128 && 7 <= Log2(e) && AlignLog(e, shift) == Log2(e) - 3 && Alignment(e, shift) == Pow2(Log2(e) - 3)
  {
    if e < 128 {
      hide AlignLog, Log2, Pow2;
      SmallEnds(size, e, j, shift);
      SmallGap(size, e);
    }
    assert Log2(128) == 7;
    Log2Monotone(128, e);
  }

  lemma SmallEnds(size: nat, e: nat, j: nat, shift: nat)
    requires Candidate(e, shift) && 16 <= e < 128 && AlignLog(e, shift) < j <= shift && size % Pow2(j) == 0
    ensures size % 32 == 0 && e % 16 == 0
  {
    Literals();
    assert shift >= 4 && AlignLog(e, shift) == 4;
    Pow2Divides(5, j);
    DividesTrans(size, Pow2(j), 32);
  }

  lemma SmallGap(size: nat, e: nat)
    requires 16 <= size < e < 128 && size % 32 == 0 && e % 16 == 0
    ensures 7 * e > 8 * size
  {
  }

  lemma Cancel(h: nat, x: nat, y: nat)
    requires h > 0 && h * x <= h * y
    ensures x <= y
  {
    if x > y {
      MulLe(y + 1, x, h);
    }
  }

  /** Both sizes measured in the alignment h of the larger one. */
  lemma InUnits(size: nat, e: nat, h: nat) returns (a: nat)
    requires h > 0 && e % h == 0 && 8 * h <= e < 16 * h && size % (2 * h) == 0 && size < e && 7 * e <= 8 * size
    ensures 4 <= a <= 7 && size == h * (2 * a) && e == h * (2 * a + 1)
  {
    var b := e / h;
    a := size / (2 * h);
    assert e == h * b && size == a * (2 * h);
    Regroup(a, h);
    UnitBounds(h, a, b);
  }

  lemma UnitBounds(h: nat, a: nat, b: nat)
    requires h > 0 && h * 8 <= h * b < h * 16 && h * (2 * a) < h * b && 7 * (h * b) <= 8 * (h * (2 * a))
    ensures 4 <= a <= 7 && b == 2 * a + 1
  {
    Cancel(h, 8, b);
    Below(h, b, 16);
    Below(h, 2 * a, b);
    Ratio(h, a, b);
  }

  lemma Below(h: nat, x: nat, y: nat)
    requires h > 0 && h * x < h * y
    ensures x < y
  {
    if x >= y {
      MulLe(y, x, h);
    }
  }

  lemma HalfGrid(size: nat, j: nat, k: nat)
    requires k >= 7 && j >= k - 2 && size % Pow2(j) == 0
    ensures size % (2 * Pow2(k - 3)) == 0
  {
    Three(k);
    hide Pow2;
    Pow2Divides(k - 2, j);
    DividesTrans(size, Pow2(j), Pow2(k - 2));
  }

  lemma Regroup(a: nat, h: nat)
    ensures a * (2 * h) == h * (2 * a)
  {
  }

  lemma Three(k: nat)
    requires k >= 7
    ensures Pow2(k) == 8 * Pow2(k - 3) && Pow2(k - 2) == 2 * Pow2(k - 3) && Pow2(k + 1) == 16 * Pow2(k - 3)
  {
    assert Pow2(k - 2) == 2 * Pow2(k - 3);
    assert Pow2(k - 1) == 2 * Pow2(k - 2);
    assert Pow2(k) == 2 * Pow2(k - 1);
    assert Pow2(k + 1) == 2 * Pow2(k);
  }

  lemma Ratio(h: nat, a: nat, b: nat)
    requires h > 0 && 7 * (h * b) <= 8 * (h * (2 * a))
    ensures 7 * b <= 16 * a
  {
    assert 7 * (h * b) == h * (7 * b) && 8 * (h * (2 * a)) == h * (16 * a);
    Cancel(h, 7 * b, 16 * a);
  }

  lemma PageInUnits(size: nat, k: nat, shift: nat)
    requires k >= 7 && Pow2(k) <= size < Pow2(shift)
    ensures shift >= k + 1 && Pow2(shift) == Pow2(k - 3) * (16 * Pow2(shift - k - 1))
  {
    if shift <= k {
      Pow2Divides(shift, k);
    }
    Pow2Add(k + 1, shift - k - 1);
    Three(k);
    hide Pow2;
    var h, P := Pow2(k - 3), Pow2(shift - k - 1);
    assert (16 * h) * P == h * (16 * P);
  }

  /** Five pages in units are five pages of one unit each. */
  lemma OddPages(m: nat, i: nat)
    requires m * Pow2(i) == 5
    ensures i == 0 && m == 5
  {
    assert i > 0 ==> m * Pow2(i) == 2 * (m * Pow2(i - 1));
  }

  lemma BigUnit(k: nat, shift: nat)
    requires k >= 7 && shift == k + 1 >= 12
    ensures Pow2(k - 3) >= 256 && Pow2(shift) == 16 * Pow2(k - 3)
  {
    Three(k);
    Powers();
    Pow2Divides(8, k - 3);
  }

  lemma NotTheLast(e: nat, k: nat)
    requires k >= 7 && Pow2(k) < e <= MAX_SIZE
    ensures k <= 17
  {
    Literals();
    if k >= 18 {
      Pow2Divides(18, k);
    }
  }

  /** The only way in which the class could end off the grid is one that the next merge removes. */
  lemma NotNatural(size: nat, e: nat, j: nat, shift: nat, transfer: int)
    requires 12 <= shift && transfer >= -3 && Candidate(e, shift) && 16 <= size < e <= MAX_SIZE && size % 16 == 0
    requires AlignLog(e, shift) < j <= shift && size % Pow2(j) == 0 && size < Pow2(shift) && Same(size, e, shift, transfer)
    ensures e < MAX_SIZE && Same(e, e + Alignment(e, shift), shift, transfer)
  {
    hide Alignment, Candidate, Pow2, Same, AlignLog, Log2, Span, BlocksToMove;
    SameIsClose(size, e, shift, transfer);
    LargeEnough(size, e, j, shift);
    var k := Log2(e);
    Log2Bounds(e);
    CandidateLog(e, shift);
    var h := Pow2(k - 3);
    Three(k);
    HalfGrid(size, j, k);
    var a := InUnits(size, e, h);
    MulLe(8, 2 * a, h);
    NotTheLast(e, k);
    PageInUnits(size, k, shift);
    var P := Pow2(shift - k - 1);
    Alike(h, a, P, shift, transfer);
    if a == 6 {
      OddPages(Span(size, shift, transfer), shift - k - 1);
      BigUnit(k, shift);
      TwelveUnits(h, shift, transfer);
      assert false;
    }
    Fifteen(size, e, h, k, P, shift, transfer);
  }

  lemma Fifteen(size: nat, e: nat, h: nat, k: nat, P: nat, shift: nat, transfer: int)
    requires 7 <= k <= 17 && h == Pow2(k - 3) && P > 0 && Pow2(shift) == h * (16 * P) && transfer >= -3
    requires size == h * 14 && e == h * 15 && Same(size, e, shift, transfer) && Span(size, shift, transfer) * P <= 13
    requires Alignment(e, shift) == h
    ensures e < MAX_SIZE && Same(e, e + Alignment(e, shift), shift, transfer)
  {
    var m := Span(size, shift, transfer);
    hide Pow2, Span, BlocksToMove, Alignment, Objects;
    assert m == Span(e, shift, transfer);
    hide Same;
    if BlocksToMove(h * 15, transfer) <= 13 {
      BlocksNear(k - 3, transfer);
    }
    Powers();
    FifteenUnits(h, P, m, shift, transfer);
  }
}
