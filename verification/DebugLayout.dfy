/**
 Address arithmetic of the debug allocator on a 64-bit machine: blocks handed out by
 memalign behind a fake header, and blocks set against a guard page.  `int` is 32 bits
 wide, and what does not fit into it is followed through.
 */
module DebugLayout {
  import opened Division

  const WORD := 0x1_0000_0000_0000_0000   // size_t is taken modulo this
  const INT_LIMIT := 0x8000_0000
  const DATA_OFFSET := 32                 // offset of size2_ in MallocBlock
  const MIN_ALIGN := 16
  const MAGIC_UNINITIALIZED := 0xABAB_ABAB_ABAB_ABAB
  const MAGIC_DELETED := 0xCDCD_CDCD_CDCD_CDCD

  datatype Outcome<+T> = Ok(value: T) | Fatal

  /** Round "value" up to the next "alignment" boundary. */
  function RoundUp(value: nat, alignment: nat): (r: nat)
    requires alignment > 0
    ensures value <= r < value + alignment && r % alignment == 0
  {
    RoundDownFacts(value + alignment - 1, alignment);
    value + alignment - 1 - (value + alignment - 1) % alignment
  }

  /** A size_t assigned to an int. */
  function ToInt(x: nat): (r: int)
    ensures -0x8000_0000 <= r < 0x8000_0000 && (x - r) % 0x1_0000_0000 == 0
  {
    var low := x % 0x1_0000_0000;
    if low < INT_LIMIT then low else low - 0x1_0000_0000
  }

  /** An int assigned to a size_t. */
  function ToSize(x: int): (r: nat)
    requires -INT_LIMIT <= x < INT_LIMIT
    ensures r < 0x1_0000_0000_0000_0000 && (r - x) % 0x1_0000_0000_0000_0000 == 0
  {
    if x < 0 then x + WORD else x
  }

  // ----- blocks and fake headers

  /** The words of memory, by address. */
  type Memory = nat -> nat

  // fields of a MallocBlock
  function Size1(block: nat): nat { block }
  function Offset(block: nat): nat { block + 8 }
  function AllocType(block: nat): nat { block + 24 }

  /** Memory after Initialize: header fields set, data filled with the magic byte. */
  ghost predicate IsAllocated(mem: Memory, block: nat, size: nat, allocType: nat) {
    && mem(Size1(block)) == size
    && mem(Offset(block)) == 0
    && mem(AllocType(block)) == allocType
    && forall a :: block + DATA_OFFSET <= a && a + 8 <= block + DATA_OFFSET + size && (a - block) % 8 == 0 ==> mem(a) == MAGIC_UNINITIALIZED
  }

  /** MallocBlock::FromRawPointer with its four checks. */
  function FromRawPointer(mem: Memory, p: nat): Outcome<nat>
    requires p >= DATA_OFFSET
  {
    var mb := p - DATA_OFFSET;
    if mem(AllocType(mb)) == MAGIC_DELETED then Fatal
    else if mem(Offset(mb)) == 0 then Ok(mb)
    else
      var main := Minus(mb, mem(Offset(mb)));
      if mem(Offset(main)) != 0 then Fatal
      else if main >= p then Fatal
      else if (main + DATA_OFFSET + mem(Size1(main))) % WORD < p then Fatal
      else Ok(main)
  }

  /** Pointer subtraction on 64 bits. */
  function Minus(x: nat, y: nat): nat {
    (x - y) % WORD
  }

  /** The common case: an ordinary block is found behind its header, unless it has been deleted already. */
  lemma PlainBlock(mem: Memory, block: nat, size: nat, allocType: nat)
    requires IsAllocated(mem, block, size, allocType)
    ensures FromRawPointer(mem, block + DATA_OFFSET) == if allocType == 0xCDCD_CDCD_CDCD_CDCD then Fatal else Ok(block)
  {
  }

  /**
   A header that records a distance: the block that far back is the real one if it records none
   itself, lies before the pointer, and ends no earlier than the pointer; and deletion is noticed first.
   */
  lemma FakeHeaderChecks(mem: Memory, p: nat)
    requires 32 <= p < WORD && 0 < mem(p - 24) < WORD
    ensures var distance := mem(p - 24);
            var main := if distance <= p - 32 then p - 32 - distance else p - 32 - distance + WORD;
            FromRawPointer(mem, p) ==
              if mem(p - 8) == 0xCDCD_CDCD_CDCD_CDCD || mem(main + 8) != 0 || main >= p || (main + 32 + mem(main)) % WORD < p
              then Fatal else Ok(main)
  {
  }

  /** What memalign asks the allocator for. */
  function MemalignSize(alignment: nat, size: nat): nat
    requires alignment > 0
  {
    size + DATA_OFFSET + alignment - 1
  }

  /** Where memalign puts the client's memory in the block at `block`. */
  function AlignedPointer(block: nat, alignment: nat): nat
    requires alignment > 0
  {
    RoundUp(block + DATA_OFFSET + DATA_OFFSET, alignment)
  }

  /** The distance recorded in the fake header, before it goes through set_offset's int. */
  function FakeOffset(block: nat, alignment: nat): nat
    requires alignment > 0
  {
    AlignedPointer(block, alignment) - (block + DATA_OFFSET)
  }

  /** Memory after the fake header's offset has been written. */
  function WithFakeHeader(mem: Memory, block: nat, alignment: nat): Memory
    requires alignment > 0
  {
    var at := Offset(AlignedPointer(block, alignment) - DATA_OFFSET);
    var stored := ToSize(ToInt(FakeOffset(block, alignment)));
    (a: nat) => if a == at then stored else mem(a)
  }

  /** True of every power of two that a size_t can hold. */
  predicate IsAlignment(alignment: nat) {
    0 < alignment <= 0x8000_0000_0000_0000 && (alignment % MIN_ALIGN == 0 || MIN_ALIGN % alignment == 0)
  }

  /** A block from the underlying allocator, large enough, 16-byte aligned and within the address space. */
  ghost predicate MemalignBlock(mem: Memory, block: nat, alignment: nat, size: nat, allocType: nat) {
    && IsAlignment(alignment)
    && block % MIN_ALIGN == 0
    && allocType != MAGIC_DELETED
    && IsAllocated(mem, block, MemalignSize(alignment, size), allocType)
    && block + DATA_OFFSET + MemalignSize(alignment, size) < WORD
  }

  /** The client gets `size` aligned bytes behind a fake header, all inside the block. */
  lemma AlignedRegion(block: nat, alignment: nat, size: nat)
    requires alignment > 0
    ensures var p := AlignedPointer(block, alignment);
            && p % alignment == 0
            && block + DATA_OFFSET <= p - DATA_OFFSET
            && p + size <= block + DATA_OFFSET + MemalignSize(alignment, size)
            && DATA_OFFSET <= FakeOffset(block, alignment) < DATA_OFFSET + alignment
  {
  }

  /** The fake header lies on words filled by Initialize. */
  lemma FakeHeaderOnWords(mem: Memory, block: nat, alignment: nat, size: nat, allocType: nat)
    requires MemalignBlock(mem, block, alignment, size, allocType)
    ensures var mb := AlignedPointer(block, alignment) - DATA_OFFSET;
            mem(AllocType(mb)) == MAGIC_UNINITIALIZED
  {
    hide AlignedPointer, FakeOffset, RoundUp;
    var p := AlignedPointer(block, alignment);
    AlignedRegion(block, alignment, size);
    PointerOnWords(block, alignment);
    WordsApart(p, block);
    FilledWord(mem, block, MemalignSize(alignment, size), allocType, p - 8);
  }

  lemma WordsApart(p: nat, block: nat)
    requires p % 8 == 0 && block % MIN_ALIGN == 0 && p >= block + 8
    ensures (p - 8 - block) % 8 == 0
  {
  }

  lemma FilledWord(mem: Memory, block: nat, size: nat, allocType: nat, a: nat)
    requires IsAllocated(mem, block, size, allocType) && (a - block) % 8 == 0
    requires block + DATA_OFFSET <= a && a + 8 <= block + DATA_OFFSET + size
    ensures mem(a) == MAGIC_UNINITIALIZED
  {
  }

  lemma PointerOnWords(block: nat, alignment: nat)
    requires IsAlignment(alignment) && block % MIN_ALIGN == 0
    ensures AlignedPointer(block, alignment) % 8 == 0
  {
    hide RoundUp, AlignedPointer;
    if alignment % MIN_ALIGN == 0 {
      WidePointer(block, alignment);
    } else {
      NarrowPointer(block, alignment);
    }
  }

  lemma WidePointer(block: nat, alignment: nat)
    requires alignment > 0 && alignment % MIN_ALIGN == 0
    ensures AlignedPointer(block, alignment) % 8 == 0
  {
    hide RoundUp;
    WideMultiple(AlignedPointer(block, alignment), alignment);
    Sixteenth(AlignedPointer(block, alignment));
  }

  lemma Sixteenth(p: nat)
    requires p % MIN_ALIGN == 0
    ensures p % 8 == 0
  {
  }

  lemma NarrowPointer(block: nat, alignment: nat)
    requires alignment > 0 && MIN_ALIGN % alignment == 0 && block % MIN_ALIGN == 0
    ensures AlignedPointer(block, alignment) % 8 == 0
  {
    hide RoundUp;
    Eighth(block);
    NarrowMultiple(block + DATA_OFFSET + DATA_OFFSET, alignment);
  }

  lemma Eighth(block: nat)
    requires block % MIN_ALIGN == 0
    ensures (block + DATA_OFFSET + DATA_OFFSET) % MIN_ALIGN == 0 && (block + DATA_OFFSET + DATA_OFFSET) % 8 == 0
  {
  }

  lemma WideMultiple(p: nat, alignment: nat)
    requires alignment > 0 && p % alignment == 0 && alignment % MIN_ALIGN == 0
    ensures p % MIN_ALIGN == 0
  {
    DividesTrans(p, alignment, MIN_ALIGN);
  }

  lemma NarrowMultiple(v: nat, alignment: nat)
    requires alignment > 0 && v % MIN_ALIGN == 0 && MIN_ALIGN % alignment == 0
    ensures RoundUp(v, alignment) == v
  {
    hide RoundUp;
    var i, j := v / MIN_ALIGN, MIN_ALIGN / alignment;
    assert v == (i * j) * alignment;
    MultipleMod(i * j, alignment);
    AlreadyAligned(v, alignment);
  }

  lemma AlreadyAligned(v: nat, a: nat)
    requires a > 0 && v % a == 0
    ensures RoundUp(v, a) == v
  {
    var r := RoundUp(v, a);
    if r != v {
      UniqueMultiple(v, r, a);
    }
  }

  /**
   FromRawPointer of a memaligned pointer passes all its checks and finds the real header exactly
   if the distance between the two headers fits the int it is stored through.
   */
  lemma MemalignRoundTrip(mem: Memory, block: nat, alignment: nat, size: nat, allocType: nat)
    requires MemalignBlock(mem, block, alignment, size, allocType)
    ensures AlignedPointer(block, alignment) >= DATA_OFFSET
    ensures FromRawPointer(WithFakeHeader(mem, block, alignment), AlignedPointer(block, alignment)) == Ok(block)
            <==> FakeOffset(block, alignment) < INT_LIMIT
  {
    hide RoundUp, FromRawPointer, ToSize, ToInt;
    var p := AlignedPointer(block, alignment);
    var off := FakeOffset(block, alignment);
    var mem' := WithFakeHeader(mem, block, alignment);
    AlignedRegion(block, alignment, size);
    FakeHeaderOnWords(mem, block, alignment, size, allocType);
    OffsetBound(block, alignment);
    Decode(mem', p, block, off);
  }

  lemma OffsetBound(block: nat, alignment: nat)
    requires IsAlignment(alignment)
    ensures FakeOffset(block, alignment) < WORD - INT_LIMIT
  {
  }

  /** What FromRawPointer makes of a fake header that stores the distance `off` through an int. */
  lemma Decode(mem: Memory, p: nat, block: nat, off: nat)
    requires p == block + DATA_OFFSET + off && DATA_OFFSET <= off < WORD - INT_LIMIT && p < WORD
    requires mem(AllocType(block + off)) == MAGIC_UNINITIALIZED && mem(Offset(block + off)) == ToSize(ToInt(off))
    requires mem(Offset(block)) == 0 && off <= mem(Size1(block)) && block + DATA_OFFSET + mem(Size1(block)) < WORD
    ensures FromRawPointer(mem, p) == Ok(block) <==> off < INT_LIMIT
  {
    var stored := ToSize(ToInt(off));
    StoredOffset(off);
    hide ToSize, ToInt;
    if stored == off {
      assert Minus(block + off, stored) == block;
    } else {
      OtherBlock(block + off, off, stored);
    }
  }

  lemma StoredOffset(off: nat)
    requires 0 < off < WORD
    ensures ToSize(ToInt(off)) < WORD
    ensures ToSize(ToInt(off)) == off <==> off < INT_LIMIT || off >= WORD - INT_LIMIT
  {
  }

  lemma OtherBlock(mb: nat, off: nat, stored: nat)
    requires off <= mb < WORD && stored < WORD && stored != off
    ensures Minus(mb, stored) != mb - off
  {
  }

  /** Every alignment up to 2^30 is safe, wherever the block is. */
  lemma CommonAlignmentsWork(mem: Memory, block: nat, alignment: nat, size: nat, allocType: nat)
    requires MemalignBlock(mem, block, alignment, size, allocType) && alignment <= 0x4000_0000
    ensures AlignedPointer(block, alignment) >= DATA_OFFSET
    ensures FromRawPointer(WithFakeHeader(mem, block, alignment), AlignedPointer(block, alignment)) == Ok(block)
  {
    AlignedRegion(block, alignment, size);
    MemalignRoundTrip(mem, block, alignment, size, allocType);
  }

  /** tc_delete_sized_aligned recomputes the size the block was allocated with. */
  lemma SizedDeleteMatches(mem: Memory, block: nat, alignment: nat, size: nat, allocType: nat)
    requires MemalignBlock(mem, block, alignment, size, allocType) && FakeOffset(block, alignment) < INT_LIMIT
    ensures var mem' := WithFakeHeader(mem, block, alignment);
            var given := size + (DATA_OFFSET + alignment - 1);
            AlignedPointer(block, alignment) >= DATA_OFFSET &&
            match FromRawPointer(mem', AlignedPointer(block, alignment))
            case Ok(b) => mem'(Size1(b)) == given
            case Fatal => false
  {
    MemalignRoundTrip(mem, block, alignment, size, allocType);
    AlignedRegion(block, alignment, size);
  }

  /** Beyond that the recorded distance can be lost: alignment 2^31, block at 2^31 - 48. */
  lemma HugeAlignmentFails(mem: Memory, size: nat, allocType: nat)
    requires MemalignBlock(mem, 0x7FFF_FFD0, 0x8000_0000, size, allocType)
    ensures AlignedPointer(0x7FFF_FFD0, 0x8000_0000) >= DATA_OFFSET
    ensures FromRawPointer(WithFakeHeader(mem, 0x7FFF_FFD0, 0x8000_0000), AlignedPointer(0x7FFF_FFD0, 0x8000_0000)) != Ok(0x7FFF_FFD0)
  {
    MemalignRoundTrip(mem, 0x7FFF_FFD0, 0x8000_0000, size, allocType);
    assert AlignedPointer(0x7FFF_FFD0, 0x8000_0000) == 0x1_0000_0000;
  }

  /** Wherever the allocator puts the block and whatever the request, the block is found again. */
  ghost predicate AlwaysFound(alignment: nat)
    requires alignment > 0
  {
    forall mem: Memory, block: nat, size: nat, allocType: nat :: MemalignBlock(mem, block, alignment, size, allocType) ==>
      Found(mem, block, alignment)
  }

  ghost predicate Found(mem: Memory, block: nat, alignment: nat)
    requires alignment > 0
  {
    && AlignedPointer(block, alignment) >= DATA_OFFSET
    && FromRawPointer(WithFakeHeader(mem, block, alignment), AlignedPointer(block, alignment)) == Ok(block)
  }

  /** What a caller can check: exactly the alignments up to 2^30 are safe. */
  lemma AlignmentLimit(k: nat)
    requires k <= 63
    ensures AlwaysFound(Pow2(k)) <==> Pow2(k) <= 0x4000_0000
  {
    hide FromRawPointer, AlignedPointer, WithFakeHeader, MemalignBlock, Pow2;
    Limits(k);
    if k <= 30 {
      forall mem: Memory, block: nat, size: nat, allocType: nat | MemalignBlock(mem, block, Pow2(k), size, allocType)
        ensures Found(mem, block, Pow2(k))
      {
        CommonAlignmentsWork(mem, block, Pow2(k), size, allocType);
      }
    } else {
      var block := FarBlock(k);
      var mem := EmptyBlock(block, Pow2(k));
      MemalignRoundTrip(mem, block, Pow2(k), 0, 0);
      assert !Found(mem, block, Pow2(k));
    }
  }

  lemma Limits(k: nat)
    requires k <= 63
    ensures k <= 30 <==> Pow2(k) <= 0x4000_0000
    ensures k == 31 ==> Pow2(k) == 0x8000_0000
    ensures k >= 32 ==> Pow2(k) >= 0x1_0000_0000
    ensures IsAlignment(Pow2(k))
  {
    LargePowers();
    hide Pow2;
    if k <= 30 { Pow2Divides(k, 30); } else { Pow2Divides(31, k); }
    if k >= 32 { Pow2Divides(32, k); }
    if k >= 4 { Pow2Divides(4, k); } else { Pow2Divides(k, 4); }
    Pow2Divides(k, 63);
  }

  lemma LargePowers()
    ensures Pow2(4) == 16 && Pow2(30) == 0x4000_0000 && Pow2(31) == 0x8000_0000 && Pow2(32) == 0x1_0000_0000
    ensures Pow2(63) == 0x8000_0000_0000_0000
  {
    assert Pow2(8) == 256;
    Pow2Add(8, 8);
    Pow2Add(16, 16);
    Pow2Add(32, 30);
    Pow2Add(16, 14);
    Pow2Add(8, 6);
    assert Pow2(6) == 64;
    assert Pow2(63) == 2 * Pow2(62);
    assert Pow2(31) == 2 * Pow2(30);
  }

  /** A block whose aligned address lies too far behind it. */
  lemma FarBlock(k: nat) returns (block: nat)
    requires 31 <= k <= 63
    ensures block % MIN_ALIGN == 0 && FakeOffset(block, Pow2(k)) >= INT_LIMIT && block + DATA_OFFSET + MemalignSize(Pow2(k), 0) < WORD
  {
    Limits(k);
    hide Pow2;
    block := if k == 31 then 0x7FFF_FFD0 else MIN_ALIGN;
    if k == 31 {
      FirstMultiple(block + 64, 0x1_0000_0000, 2, Pow2(k));
    } else {
      FirstMultiple(block + 64, Pow2(k), 1, Pow2(k));
    }
    hide RoundUp;
  }

  lemma FirstMultiple(v: nat, r: nat, n: nat, a: nat)
    requires a > 0 && r == n * a && v <= r < v + a
    ensures RoundUp(v, a) == r
  {
    MultipleMod(n, a);
    var x := RoundUp(v, a);
    hide RoundUp;
    if x <= r {
      UniqueMultiple(x, r, a);
    } else {
      UniqueMultiple(r, x, a);
    }
  }

  /** A freshly initialized block for a request of 0 bytes. */
  lemma EmptyBlock(block: nat, alignment: nat) returns (mem: Memory)
    requires IsAlignment(alignment) && block % MIN_ALIGN == 0 && block + DATA_OFFSET + MemalignSize(alignment, 0) < WORD
    ensures MemalignBlock(mem, block, alignment, 0, 0)
  {
    mem := (a: nat) =>
      if a == Size1(block) then MemalignSize(alignment, 0)
      else if a == Offset(block) || a == AllocType(block) then 0
      else MAGIC_UNINITIALIZED;
  }

  // ----- blocks against a guard page

  /** real_mmapped_size */
  function MmappedSize(size: nat): nat {
    RoundUp(size + DATA_OFFSET, MIN_ALIGN)
  }

  /** Pages for the data plus the guard page. */
  function PagesFor(sz: nat, pageSize: nat): nat
    requires pageSize > 0
  {
    (sz + pageSize - 1) / pageSize + 1
  }

  /** The value of an int expression, if it does not overflow. */
  function Int(x: int): (r: Outcome<int>)
    ensures r == Ok(x) <==> -0x8000_0000 <= x <= 0x7FFF_FFFF
    ensures r == Ok(x) || r == Fatal
  {
    if -INT_LIMIT <= x < INT_LIMIT then Ok(x) else Fatal
  }

  datatype Mapping = Mapping(base: int, length: int)

  /** Allocate with a page fence: mmap gives `p`; the block's address and the mapping's length.  Fatal stands for an int overflow. */
  function FenceAllocate(p: nat, size: nat, pageSize: nat): Outcome<(int, Mapping)>
    requires pageSize > 0
  {
    var sz := MmappedSize(size);
    var numPages := ToInt(PagesFor(sz, pageSize));
    match Int(numPages * pageSize)
    case Fatal => Fatal
    case Ok(length) =>
      match Int((numPages - 1) * pageSize)
      case Fatal => Fatal
      case Ok(before) => Ok((p + before - sz, Mapping(p, length)))
  }

  /** The mapping that Deallocate gives back for the block at `b`. */
  function FenceDeallocate(b: int, size: nat, pageSize: nat): Outcome<Mapping>
    requires pageSize > 0
  {
    var sz := ToInt(MmappedSize(size));
    match Int(sz + pageSize - 1)
    case Fatal => Fatal
    case Ok(x) =>
      var numPages := TruncDiv(x, pageSize) + 1;
      match Int(numPages * pageSize)
      case Fatal => Fatal
      case Ok(length) =>
        match Int((numPages - 1) * pageSize)
        case Fatal => Fatal
        case Ok(before) => Ok(Mapping(b - before + sz, length))
  }

  /** C's int division. */
  function TruncDiv(x: int, y: nat): (r: int)
    requires y > 0
    ensures if x >= 0 then r * y <= x < r * y + y else r * y - y < x <= r * y
  {
    if x >= 0 then x / y else -((-x) / y)
  }

  /** The block ends at the guard page, starts inside the mapping, and Deallocate finds the mapping again. */
  predicate FenceWorks(p: nat, size: nat, pageSize: nat)
    requires pageSize > 0
  {
    match FenceAllocate(p, size, pageSize)
    case Fatal => false
    case Ok((b, m)) =>
      && p <= b && b + MmappedSize(size) + pageSize == p + m.length
      && FenceDeallocate(b, size, pageSize) == Ok(m)
  }

  lemma PagesCover(sz: nat, pageSize: nat)
    requires pageSize > 0
    ensures sz <= (PagesFor(sz, pageSize) - 1) * pageSize < sz + pageSize
  {
    var x := sz + pageSize - 1;
    assert x == x / pageSize * pageSize + x % pageSize;
  }

  /** A page-fence block is laid out and given back correctly exactly if the whole mapping is smaller than 2^31 bytes. */
  lemma FenceRoundTrip(p: nat, size: nat, pageSize: nat)
    requires pageSize > 0
    ensures FenceWorks(p, size, pageSize) <==> PagesFor(MmappedSize(size), pageSize) * pageSize < INT_LIMIT
  {
    hide MmappedSize, PagesFor, FenceWorks;
    var sz := MmappedSize(size);
    var n := PagesFor(sz, pageSize);
    PagesCover(sz, pageSize);
    assert n * pageSize == (n - 1) * pageSize + pageSize;
    if n * pageSize < INT_LIMIT {
      assert n <= n * pageSize;
      FenceSmall(p, size, pageSize, n);
    } else {
      FenceLarge(p, size, pageSize, n);
    }
  }

  /** Too many bytes: the length overflows, or the page count is cut off and the block would start before its mapping. */
  lemma FenceLarge(p: nat, size: nat, pageSize: nat, n: nat)
    requires pageSize > 0 && n == PagesFor(MmappedSize(size), pageSize) && n * pageSize >= INT_LIMIT
    requires (n - 1) * pageSize < MmappedSize(size) + pageSize
    ensures !FenceWorks(p, size, pageSize)
  {
    hide MmappedSize, PagesFor, FenceDeallocate, ToInt;
    var k := ToInt(n);
    if n < INT_LIMIT {
      SmallInt(n);
    } else {
      CutOff(n);
      MulLe(k - 1, n - 2, pageSize);
      assert (n - 2) * pageSize == (n - 1) * pageSize - pageSize;
    }
  }

  lemma SmallInt(n: nat)
    requires n < INT_LIMIT
    ensures ToInt(n) == n
  {
  }

  lemma CutOff(n: nat)
    requires n >= INT_LIMIT
    ensures ToInt(n) < n
  {
  }

  lemma FenceSmall(p: nat, size: nat, pageSize: nat, n: nat)
    requires pageSize > 0 && n == PagesFor(MmappedSize(size), pageSize) && n * pageSize < INT_LIMIT && n <= n * pageSize
    requires MmappedSize(size) <= (n - 1) * pageSize < MmappedSize(size) + pageSize
    ensures FenceWorks(p, size, pageSize)
  {
    hide MmappedSize, ToInt, TruncDiv, PagesFor;
    FenceNumbers(MmappedSize(size), pageSize, n);
  }

  /** Nothing that the two functions compute leaves the range of int. */
  lemma FenceNumbers(sz: nat, pageSize: nat, n: nat)
    requires pageSize > 0 && n == PagesFor(sz, pageSize) && n * pageSize < INT_LIMIT && n <= n * pageSize
    requires sz <= (n - 1) * pageSize < sz + pageSize
    ensures ToInt(n) == n && ToInt(sz) == sz && TruncDiv(sz + pageSize - 1, pageSize) + 1 == n
    ensures (n - 1) * pageSize + pageSize == n * pageSize && sz + pageSize - 1 < INT_LIMIT
  {
    hide ToInt, TruncDiv;
    assert n * pageSize == (n - 1) * pageSize + pageSize;
    SmallInt(n);
    SmallInt(sz);
    Positive(sz + pageSize - 1, pageSize);
  }

  lemma Positive(x: nat, y: nat)
    requires y > 0
    ensures TruncDiv(x, y) == x / y
  {
  }

  /**
   The same in plain numbers: `sz` is the request with its header up to the next multiple of 16, `n` the
   least number of pages that hold it.  Below 2^31 bytes the block ends where the guard page begins, and
   Deallocate gives back what was mapped; from there on the layout is wrong.
   */
  lemma FenceExact(p: nat, size: nat, pageSize: nat, sz: nat, n: nat)
    requires pageSize > 0 && sz % 16 == 0 && size + 32 <= sz < size + 48
    requires (n - 1) * pageSize < sz <= n * pageSize
    ensures FenceWorks(p, size, pageSize) <==> (n + 1) * pageSize < 0x8000_0000
    ensures (n + 1) * pageSize < 0x8000_0000 ==>
              && FenceAllocate(p, size, pageSize) == Ok((p + n * pageSize - sz, Mapping(p, (n + 1) * pageSize)))
              && FenceDeallocate(p + n * pageSize - sz, size, pageSize) == Ok(Mapping(p, (n + 1) * pageSize))
  {
    hide FenceWorks, FenceAllocate, FenceDeallocate, PagesFor, RoundUp;
    RoundedExactly(size, sz);
    PagesExactly(sz, pageSize, n);
    FenceRoundTrip(p, size, pageSize);
    if (n + 1) * pageSize < 0x8000_0000 {
      FenceLayout(p, size, pageSize, sz, n + 1);
    }
  }

  lemma RoundedExactly(size: nat, sz: nat)
    requires sz % 16 == 0 && size + 32 <= sz < size + 48
    ensures MmappedSize(size) == sz
  {
    hide RoundUp;
    var r := RoundUp(size + DATA_OFFSET, MIN_ALIGN);
    assert sz - r < 16 && r - sz < 16;
  }

  lemma PagesExactly(sz: nat, pageSize: nat, n: nat)
    requires pageSize > 0 && (n - 1) * pageSize < sz <= n * pageSize
    ensures PagesFor(sz, pageSize) == n + 1
  {
    assert n * pageSize == (n - 1) * pageSize + pageSize;
    UniqueQuotient(sz + pageSize - 1, pageSize, n, sz + pageSize - 1 - n * pageSize);
  }

  lemma FenceLayout(p: nat, size: nat, pageSize: nat, sz: nat, pages: nat)
    requires pageSize > 0 && sz == MmappedSize(size) && pages == PagesFor(sz, pageSize) && FenceWorks(p, size, pageSize)
    requires 0 < pages && pages * pageSize < INT_LIMIT
    ensures FenceAllocate(p, size, pageSize) == Ok((p + (pages - 1) * pageSize - sz, Mapping(p, pages * pageSize)))
    ensures FenceDeallocate(p + (pages - 1) * pageSize - sz, size, pageSize) == Ok(Mapping(p, pages * pageSize))
  {
    hide MmappedSize, PagesFor, FenceDeallocate, ToInt;
    assert pages * pageSize == (pages - 1) * pageSize + pageSize;
    assert pages <= pages * pageSize;
    SmallInt(pages);
  }

  /** A request of 2 GB behind a page fence of 4 KB pages does not survive. */
  lemma HugeFenceFails(p: nat)
    ensures !FenceWorks(p, 0x8000_0000, 4096)
  {
    FenceRoundTrip(p, 0x8000_0000, 4096);
  }
}
