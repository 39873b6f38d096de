/** `won::memory::LinearAllocator`: a bump allocator over one block of raw
    memory. `data` is the block's start address, handed in as a number by
    whoever called `operator new`; addresses are naturals. */
module LinearAllocator {
  import opened Common
  import MathUtils

  datatype LinearAllocator = LinearAllocator(data: nat, totalSize: nat, offset: nat)

  /** The one invariant the class keeps: the bump offset never passes the
      end of the block. */
  predicate Ok(a: LinearAllocator) {
    a.offset <= a.totalSize
  }

  /** The constructor: an empty block of `totalSize` bytes at `data`. */
  function New(data: nat, totalSize: nat): (a: LinearAllocator)
    ensures Ok(a) && a.offset == 0 && a.data == data && a.totalSize == totalSize
  {
    LinearAllocator(data, totalSize, 0)
  }

  /** The bytes to skip so that `addr` becomes a multiple of `alignment`;
      none for a zero alignment or an already aligned address. */
  function Padding(addr: nat, alignment: nat): (p: nat)
    ensures alignment == 0 ==> p == 0
    ensures alignment != 0 ==> p < alignment && (addr + p) % alignment == 0
    ensures alignment != 0 && addr % alignment == 0 ==> p == 0
  {
    if alignment != 0 && addr % alignment != 0 then
      PaddingAligns(addr, alignment);
      alignment - addr % alignment
    else 0
  }

  lemma PaddingAligns(addr: nat, alignment: nat)
    requires alignment != 0 && addr % alignment != 0
    ensures (addr + (alignment - addr % alignment)) % alignment == 0
  {
    var q := addr / alignment;
    assert addr == q * alignment + addr % alignment;
    assert addr + (alignment - addr % alignment) == (q + 1) * alignment + 0;
    MathUtils.DivModUnique((q + 1) * alignment, alignment, q + 1, 0);
  }

  /** The padding is the least one: no shorter skip reaches an aligned
      address. */
  lemma PaddingLeast(addr: nat, alignment: nat, p: nat)
    requires alignment != 0 && p < Padding(addr, alignment)
    ensures (addr + p) % alignment != 0
  {
    var q := addr / alignment;
    var m := addr % alignment;
    assert addr == q * alignment + m;
    assert addr + p == q * alignment + (m + p);
    assert 0 < m + p < alignment;
    MathUtils.DivModUnique(addr + p, alignment, q, m + p);
  }

  /** `Allocate`: pad the current address up to the alignment, fail without
      change if padding plus size would pass the end, otherwise return the
      padded address and move the offset past the new range. */
  function Allocate(a: LinearAllocator, size: nat, alignment: nat): (r: (Option<nat>, LinearAllocator))
    requires Ok(a)
    ensures Ok(r.1) && r.1.data == a.data && r.1.totalSize == a.totalSize
    ensures var p := Padding(a.data + a.offset, alignment);
      && (r.0 == None <==> a.offset + p + size > a.totalSize)
      && (r.0 == None ==> r.1 == a)
      && (r.0 != None ==> r.0.value == a.data + a.offset + p && r.1.offset == a.offset + p + size)
    ensures r.0 != None && alignment != 0 ==> r.0.value % alignment == 0
    // the range handed out lies inside the block, after everything before it
    ensures r.0 != None ==>
      a.data + a.offset <= r.0.value && r.0.value + size == a.data + r.1.offset <= a.data + a.totalSize
  {
    var padding := Padding(a.data + a.offset, alignment);
    if a.offset + padding + size > a.totalSize then (None, a)
    else
      var offset := a.offset + padding;
      (Some(a.data + offset), a.(offset := offset + size))
  }

  /** Two successful allocations in a row hand out disjoint ranges, the
      second after the first. */
  lemma SuccessiveDisjoint(a: LinearAllocator, size1: nat, align1: nat, size2: nat, align2: nat)
    requires Ok(a)
    requires Allocate(a, size1, align1).0 != None
    requires Allocate(Allocate(a, size1, align1).1, size2, align2).0 != None
    ensures var (p1, a1) := Allocate(a, size1, align1);
      var p2 := Allocate(a1, size2, align2).0;
      p1.value + size1 <= p2.value
  {
  }

  /** `Deallocate`: individual ranges cannot be given back. */
  function Deallocate(a: LinearAllocator, ptr: nat, size: nat, alignment: nat): (r: LinearAllocator)
    ensures r == a
  {
    a
  }

  /** `Reset`: everything is handed back at once. */
  function Reset(a: LinearAllocator): (r: LinearAllocator)
    ensures Ok(r) && r.offset == 0 && r.data == a.data && r.totalSize == a.totalSize
  {
    a.(offset := 0)
  }

  /** After a reset the allocator behaves exactly as a fresh one over the
      same block. */
  lemma ResetIsFresh(a: LinearAllocator, size: nat, alignment: nat)
    requires Ok(a)
    ensures Allocate(Reset(a), size, alignment) == Allocate(New(a.data, a.totalSize), size, alignment)
  {
  }

  // ---------------------------------------------------------------------
  // The C++ arithmetic: every sum is a `uintptr_t` or `Size`, so it wraps
  // at 2^64.

  /** Reduction to a 64-bit unsigned value. */
  function Wrap(x: nat): (r: nat)
    ensures r < U64
    ensures x < U64 ==> r == x
    ensures U64 <= x < 2 * U64 ==> r == x - U64
  {
    WrapFacts(x);
    x % U64
  }

  lemma WrapFacts(x: nat)
    ensures x < U64 ==> x % U64 == x
    ensures U64 <= x < 2 * U64 ==> x % U64 == x - U64
  {
    if x < U64 {
      MathUtils.DivModUnique(x, U64, 0, x);
    } else if x < 2 * U64 {
      MathUtils.DivModUnique(x, U64, 1, x - U64);
    }
  }

  /** `Allocate` with the 64-bit wrap of the source written out. */
  function AllocateAsWritten(a: LinearAllocator, size: nat, alignment: nat): (r: (Option<nat>, LinearAllocator))
    ensures r.0 == None ==> r.1 == a
  {
    var addr := Wrap(a.data + a.offset);
    var padding := Padding(addr, alignment);
    if Wrap(a.offset + padding + size) > a.totalSize then (None, a)
    else
      var offset := Wrap(a.offset + padding);
      (Some(Wrap(a.data + offset)), a.(offset := Wrap(offset + size)))
  }

  /** While no sum reaches 2^64 the wrapping code is the model above. */
  lemma AsWrittenAgrees(a: LinearAllocator, size: nat, alignment: nat)
    requires Ok(a) && a.data + a.totalSize < U64 && size < U64 && alignment < U64
    requires a.offset + alignment + size < U64
    ensures AllocateAsWritten(a, size, alignment) == Allocate(a, size, alignment)
  {
    var p := Padding(a.data + a.offset, alignment);
    assert Wrap(a.offset + p + size) == a.offset + p + size;
  }

  /** A size near 2^64 wraps the bounds check: the request is granted, the
      range runs far past the block, and the offset moves backwards. */
  lemma AsWrittenOversizeWraps()
    ensures var a := LinearAllocator(0x1000, 64, 16);
      && Allocate(a, U64 - 8, 0).0 == None
      && AllocateAsWritten(a, U64 - 8, 0) == (Some(0x1010), LinearAllocator(0x1000, 64, 8))
  {
    assert Padding(0x1010, 0) == 0;
    assert Wrap(16 + (U64 - 8)) == 8;
  }
}
