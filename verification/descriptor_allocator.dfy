/** The index bookkeeping of `DescriptorAllocatorDX12`: four master heaps
    that hand out descriptor indices from a bump counter backed by a LIFO
    free list, two shader-visible frame heaps filled by a per-frame linear
    counter, routing of subresource views to heaps, and handle address
    arithmetic.

    The device and its native heaps are opaque: creating a heap either
    yields a `NativeHeap` (its start addresses and descriptor size) or
    fails, and creating a view either succeeds or fails; both outcomes are
    parameters. Addresses are naturals. */
module DescriptorAllocator {
  import opened Common
  import MathUtils

  /** Capacities of the master and frame heaps. */
  const RtvMasterCount: nat := 4096
  const DsvMasterCount: nat := 2048
  const CbvSrvUavMasterCount: nat := 1000000
  const SamplerMasterCount: nat := 2048
  const CbvSrvUavFrameCount: nat := 8192
  const SamplerFrameCount: nat := 1024

  /** `D3D12_DESCRIPTOR_HEAP_TYPE`; `NumTypes` stands for every other value. */
  datatype HeapType = Rtv | Dsv | CbvSrvUav | Sampler | NumTypes

  /** The kinds of view `CreateSubresourceDescriptor` is asked for;
      `OtherView` stands for every kind it does not handle. */
  datatype SubresourceType = RenderTarget | DepthStencil | ConstantBuffer | ShaderResource | UnorderedAccess | OtherView

  /** What the device reports for a heap it created: the descriptor
      increment and the CPU and GPU addresses of the first descriptor. */
  datatype NativeHeap = NativeHeap(descriptorSize: nat, cpuStart: nat, gpuStart: nat)

  /** `DescriptorHeap`; `native` is `None` while the `ComPtr` is null. */
  datatype Heap = Heap(
    heapType: HeapType,
    native: Option<NativeHeap>,
    capacity: nat,
    allocatedCount: nat,
    freeList: seq<nat>)

  /** The bump counter stays within the capacity and every freed index was
      handed out by it. */
  predicate HeapOk(h: Heap) {
    && h.allocatedCount <= h.capacity
    && (forall k :: 0 <= k < |h.freeList| ==> h.freeList[k] < h.allocatedCount)
  }

  /** A default-constructed `DescriptorHeap`. */
  function EmptyHeap(): (h: Heap)
    ensures HeapOk(h) && h.native == None
  {
    Heap(NumTypes, None, 0, 0, [])
  }

  /** The indices the heap can still hand out, with multiplicity: the free
      list and the never-used tail `[allocated_count, capacity)`. */
  function Available(h: Heap): multiset<nat> {
    multiset(h.freeList) + multiset(Range(h.allocatedCount, h.capacity))
  }

  // ---------------------------------------------------------------------
  // One heap

  /** `CreateDescriptorHeap`: fails without change when the device is
      missing, the capacity is zero or the device refuses; otherwise the
      heap starts empty with the given capacity. */
  function CreateDescriptorHeap(device: bool, h: Heap, capacity: nat, created: Option<NativeHeap>): (r: (bool, Heap))
    ensures r.0 <==> device && capacity > 0 && created.Some?
    ensures !r.0 ==> r.1 == h
    ensures r.0 ==> (HeapOk(r.1) && r.1.native == created && r.1.heapType == h.heapType
      && r.1.capacity == capacity && Available(r.1) == multiset(Range(0, capacity)))
    // a fresh heap has handed out nothing and freed nothing
    ensures r.0 ==> r.1.allocatedCount == 0 && r.1.freeList == []
  {
    if !device || capacity == 0 then (false, h)
    else if created == None then (false, h)
    else (true, h.(native := created, capacity := capacity, allocatedCount := 0, freeList := []))
  }

  /** `AllocateFromHeap`: the most recently freed index first, otherwise
      the next never-used one; fails without change when the heap is
      missing or exhausted. */
  function AllocateFromHeap(h: Heap): (r: (Option<nat>, Heap))
    requires HeapOk(h)
    ensures HeapOk(r.1)
    ensures r.0 == None <==> h.native == None || (|h.freeList| == 0 && h.allocatedCount >= h.capacity)
    ensures r.0 == None ==> r.1 == h
    // LIFO reuse before bumping
    ensures r.0 != None && |h.freeList| > 0 ==> r.0.value == h.freeList[|h.freeList| - 1]
    ensures r.0 != None && |h.freeList| == 0 ==> r.0.value == h.allocatedCount
    ensures r.0 != None ==> r.0.value < h.capacity
    ensures r.1.native == h.native && r.1.capacity == h.capacity && r.1.heapType == h.heapType
  {
    if h.native == None then (None, h)
    else if |h.freeList| > 0 then
      (Some(h.freeList[|h.freeList| - 1]), h.(freeList := h.freeList[..|h.freeList| - 1]))
    else if h.allocatedCount >= h.capacity then (None, h)
    else (Some(h.allocatedCount), h.(allocatedCount := h.allocatedCount + 1))
  }

  /** `FreeToHeap`: indices the bump counter never reached are ignored;
      anything else is pushed, without checking for a double free. */
  function FreeToHeap(h: Heap, i: nat): (r: Heap)
    requires HeapOk(h)
    ensures HeapOk(r)
    ensures i >= h.allocatedCount ==> r == h
    ensures i < h.allocatedCount ==> Available(r) == Available(h) + multiset{i}
    ensures r.native == h.native && r.capacity == h.capacity && r.allocatedCount == h.allocatedCount
  {
    if i >= h.allocatedCount then h
    else h.(freeList := h.freeList + [i])
  }

  /** An allocation takes exactly the index it returns out of the
      available pool ... */
  lemma AllocateTakesAvailable(h: Heap)
    requires HeapOk(h) && AllocateFromHeap(h).0 != None
    ensures var (i, h') := AllocateFromHeap(h);
      i.value in Available(h) && Available(h') + multiset{i.value} == Available(h)
  {
    if |h.freeList| > 0 {
      PopTakesAvailable(h);
    } else {
      BumpTakesAvailable(h);
    }
  }

  lemma PopTakesAvailable(h: Heap)
    requires HeapOk(h) && h.native != None && |h.freeList| > 0
    ensures var (i, h') := AllocateFromHeap(h);
      i.value in Available(h) && Available(h') + multiset{i.value} == Available(h)
  {
    var h' := AllocateFromHeap(h).1;
    var n := |h.freeList|;
    var tail := Range(h.allocatedCount, h.capacity);
    var rest, last := h.freeList[..n - 1], h.freeList[n - 1];
    assert h.freeList == rest + [last];
    assert h' == h.(freeList := rest);
    assert Available(h') == multiset(rest) + multiset(tail);
    assert Available(h) == multiset(rest + [last]) + multiset(tail);
    PopAvailable(rest, last, multiset(tail));
  }

  lemma BumpTakesAvailable(h: Heap)
    requires HeapOk(h) && h.native != None && |h.freeList| == 0 && h.allocatedCount < h.capacity
    ensures var (i, h') := AllocateFromHeap(h);
      i.value in Available(h) && Available(h') + multiset{i.value} == Available(h)
  {
    var h' := AllocateFromHeap(h).1;
    var c := h.allocatedCount;
    assert h' == h.(allocatedCount := c + 1);
    assert Available(h') == multiset(h.freeList) + multiset(Range(c + 1, h.capacity));
    assert Available(h) == multiset(h.freeList) + multiset(Range(c, h.capacity));
    BumpAvailable(multiset(h.freeList), c, h.capacity);
  }

  /** ... and fails only when the pool is empty or the heap is missing. */
  lemma AllocateFailsWhenEmpty(h: Heap)
    requires HeapOk(h)
    ensures AllocateFromHeap(h).0 == None <==> h.native == None || |Available(h)| == 0
  {
    assert |Available(h)| == |h.freeList| + |Range(h.allocatedCount, h.capacity)|;
  }

  /** Popping the last free index takes it out of the pool ... */
  lemma PopAvailable(rest: seq<nat>, last: nat, tail: multiset<nat>)
    ensures last in multiset(rest + [last]) + tail
    ensures (multiset(rest) + tail) + multiset{last} == multiset(rest + [last]) + tail
  {
    assert multiset(rest + [last]) == multiset(rest) + multiset{last};
  }

  /** ... and so does bumping the counter past a never-used index. */
  lemma BumpAvailable(free: multiset<nat>, c: nat, capacity: nat)
    requires c < capacity
    ensures c in free + multiset(Range(c, capacity))
    ensures (free + multiset(Range(c + 1, capacity))) + multiset{c} == free + multiset(Range(c, capacity))
  {
    RangeFirst(c, capacity);
  }

  lemma RangeFirst(lo: nat, hi: nat)
    requires lo < hi
    ensures multiset(Range(lo, hi)) == multiset{lo} + multiset(Range(lo + 1, hi))
  {
    assert Range(lo, hi) == [lo] + Range(lo + 1, hi);
  }

  /** Freeing an index and allocating again hands the same index back and
      restores the heap. */
  lemma FreeThenAllocate(h: Heap, i: nat)
    requires HeapOk(h) && h.native != None && i < h.allocatedCount
    ensures AllocateFromHeap(FreeToHeap(h, i)) == (Some(i), h)
  {
    var f := h.freeList + [i];
    assert f[..|f| - 1] == h.freeList;
  }

  /** A double free goes undetected: the index is then handed out twice. */
  lemma DoubleFreeHandsOutTwice(h: Heap, i: nat)
    requires HeapOk(h) && h.native != None && i < h.allocatedCount
    ensures var (first, h1) := AllocateFromHeap(FreeToHeap(FreeToHeap(h, i), i));
      first == Some(i) && AllocateFromHeap(h1).0 == Some(i)
  {
    var h2 := FreeToHeap(FreeToHeap(h, i), i);
    assert h2.freeList == h.freeList + [i] + [i];
    var (first, h1) := AllocateFromHeap(h2);
    assert h1.freeList == h.freeList + [i];
  }

  /** `GetCpuHandle` / `GetGpuHandle`: the heap start plus `index`
      descriptor increments; a missing heap gives the null handle. */
  function CpuHandle(h: Heap, i: nat): nat {
    if h.native == None then 0 else h.native.value.cpuStart + h.native.value.descriptorSize * i
  }

  function GpuHandle(h: Heap, i: nat): nat {
    if h.native == None then 0 else h.native.value.gpuStart + h.native.value.descriptorSize * i
  }

  /** Handles are laid out in index order, one descriptor increment apart,
      so distinct indices never share a handle. */
  lemma HandlesOrdered(h: Heap, i: nat, j: nat)
    requires h.native != None && h.native.value.descriptorSize > 0 && i < j
    ensures CpuHandle(h, i) + h.native.value.descriptorSize <= CpuHandle(h, j)
    ensures GpuHandle(h, i) + h.native.value.descriptorSize <= GpuHandle(h, j)
  {
    var d := h.native.value.descriptorSize;
    MathUtils.MulLe(i + 1, j, d);
    assert d * (i + 1) == d * i + d;
  }

  /** `AlignConstantBufferSize`: `(size + 255) & ~255` in `UINT`. Clearing
      the low eight bits rounds down to a multiple of 256 (`MaskRoundsDown`),
      so this is the 32-bit `align` to 256. */
  function AlignConstantBufferSize(size: nat): (r: nat)
    requires size < U32
    ensures r % 256 == 0 && r < U32
    // the least multiple of 256 not below size ...
    ensures size + 255 < U32 ==> size <= r < size + 256
    // ... unless the sum wraps
    ensures size + 255 >= U32 ==> r == 0
  {
    MathUtils.Align(size, 256, U32)
  }

  /** `AlignConstantBufferSize` on the `UINT` bits themselves: the wrapping
      add and the mask as written. It keeps the promise stated above for
      the integer model: a multiple of 256 that lies within 255 above the
      size, or zero once the add wraps. */
  function AlignConstantBufferSizeBits(size: bv32): (r: bv32)
    ensures r % 256 == 0
    ensures size <= 0xFFFF_FF00 ==> size <= r && r - size < 256
    ensures size > 0xFFFF_FF00 ==> r == 0
  {
    (size + 255) & !255
  }

  /** Clearing the low eight bits of a 32-bit value is rounding it down to a
      multiple of 256. */
  lemma MaskRoundsDown(x: bv32)
    ensures x & !255 == (x / 256) * 256
  {
  }

  // ---------------------------------------------------------------------
  // The allocator

  /** Slots of `heaps`: the four master heaps, then the two frame heaps. */
  const RtvSlot: nat := 0
  const DsvSlot: nat := 1
  const CbvSrvUavSlot: nat := 2
  const SamplerSlot: nat := 3
  const FrameCbvSrvUavSlot: nat := 4
  const FrameSamplerSlot: nat := 5
  const SlotCount: nat := 6

  /** The type and capacity each slot's heap is created with. */
  function SlotType(k: nat): HeapType
    requires k < SlotCount
  {
    if k == RtvSlot then Rtv
    else if k == DsvSlot then Dsv
    else if k == CbvSrvUavSlot || k == FrameCbvSrvUavSlot then CbvSrvUav
    else Sampler
  }

  function SlotCapacity(k: nat): nat
    requires k < SlotCount
  {
    if k == RtvSlot then RtvMasterCount
    else if k == DsvSlot then DsvMasterCount
    else if k == CbvSrvUavSlot then CbvSrvUavMasterCount
    else if k == SamplerSlot then SamplerMasterCount
    else if k == FrameCbvSrvUavSlot then CbvSrvUavFrameCount
    else SamplerFrameCount
  }

  datatype Allocator = Allocator(
    device: bool,
    heaps: seq<Heap>,
    frameCbvSrvUavCount: nat,
    frameSamplerCount: nat)

  predicate Ok(a: Allocator) {
    && |a.heaps| == SlotCount
    && (forall k :: 0 <= k < SlotCount ==> HeapOk(a.heaps[k]))
  }

  /** `IsValid`: the device and all six heaps exist. */
  predicate IsValid(a: Allocator)
    requires Ok(a)
  {
    a.device && forall k :: 0 <= k < SlotCount ==> a.heaps[k].native != None
  }

  /** The first slot from `k` on whose creation fails, or `SlotCount`. */
  function FirstFailure(natives: seq<Option<NativeHeap>>, k: nat): (m: nat)
    requires |natives| == SlotCount && k <= SlotCount
    ensures k <= m <= SlotCount
    ensures forall j :: k <= j < m ==> natives[j] != None
    ensures m < SlotCount ==> natives[m] == None
    decreases SlotCount - k
  {
    if k == SlotCount || natives[k] == None then k else FirstFailure(natives, k + 1)
  }

  /** The heap of slot `k` once the device has created it. The constructor
      assigns each heap its type before creating it; as the type of a heap
      that was never created is not read, it is set here. */
  function Created(k: nat, native: NativeHeap): (r: Heap)
    requires k < SlotCount
    ensures HeapOk(r) && r.native == Some(native) && r.heapType == SlotType(k)
    ensures r.capacity == SlotCapacity(k) && r.allocatedCount == 0 && r.freeList == []
  {
    Heap(SlotType(k), Some(native), SlotCapacity(k), 0, [])
  }

  /** Create the heaps of slots `k` .. 5 in order, stopping at the first
      failure: exactly the slots before `FirstFailure` get a heap. */
  function CreateHeapsFrom(heaps: seq<Heap>, natives: seq<Option<NativeHeap>>, k: nat): (r: seq<Heap>)
    requires |heaps| == SlotCount && |natives| == SlotCount && k <= SlotCount
    requires forall j :: 0 <= j < SlotCount ==> HeapOk(heaps[j])
    ensures |r| == SlotCount && forall j :: 0 <= j < SlotCount ==> HeapOk(r[j])
    ensures forall j :: 0 <= j < SlotCount ==>
      r[j] == if k <= j < FirstFailure(natives, k) then Created(j, natives[j].value) else heaps[j]
    decreases SlotCount - k
  {
    if k == SlotCount then heaps
    else
      var (ok, h) := CreateDescriptorHeap(true, heaps[k].(heapType := SlotType(k)), SlotCapacity(k), natives[k]);
      if !ok then
        assert FirstFailure(natives, k) == k;
        heaps
      else
        assert h == Created(k, natives[k].value);
        assert FirstFailure(natives, k) == FirstFailure(natives, k + 1);
        CreateHeapsFrom(heaps[k := h], natives, k + 1)
  }

  /** Six default-constructed heaps. */
  function Blank(): (r: seq<Heap>)
    ensures |r| == SlotCount && forall k :: 0 <= k < SlotCount ==> r[k] == EmptyHeap()
  {
    var e := EmptyHeap();
    [e, e, e, e, e, e]
  }

  /** The constructor: without a device nothing is set up; otherwise the
      six heaps are created in order until one fails. `natives[k]` is what
      the device returns for slot `k`. */
  function New(device: bool, natives: seq<Option<NativeHeap>>): (a: Allocator)
    requires |natives| == SlotCount
    ensures Ok(a) && a.device == device
    ensures a.frameCbvSrvUavCount == 0 && a.frameSamplerCount == 0
    ensures forall k :: 0 <= k < SlotCount ==>
      a.heaps[k] == if device && k < FirstFailure(natives, 0) then Created(k, natives[k].value) else EmptyHeap()
  {
    if !device then Allocator(device, Blank(), 0, 0)
    else Allocator(device, CreateHeapsFrom(Blank(), natives, 0), 0, 0)
  }

  /** A fresh allocator is valid exactly when the device exists and created
      all six heaps ... */
  lemma NewIsValid(device: bool, natives: seq<Option<NativeHeap>>)
    requires |natives| == SlotCount
    ensures IsValid(New(device, natives)) <==> device && forall k :: 0 <= k < SlotCount ==> natives[k] != None
  {
    var m := FirstFailure(natives, 0);
    if !device {
      NewWithoutDevice(natives);
    } else if m < SlotCount {
      NewStopsAtFailure(natives);
    } else {
      NewCreatesAll(natives);
    }
  }

  lemma NewWithoutDevice(natives: seq<Option<NativeHeap>>)
    requires |natives| == SlotCount
    ensures !IsValid(New(false, natives))
  {
    assert New(false, natives).heaps[0].native == None;
  }

  lemma NewStopsAtFailure(natives: seq<Option<NativeHeap>>)
    requires |natives| == SlotCount && FirstFailure(natives, 0) < SlotCount
    ensures !IsValid(New(true, natives))
    ensures natives[FirstFailure(natives, 0)] == None
  {
    var m := FirstFailure(natives, 0);
    assert New(true, natives).heaps[m] == EmptyHeap();
  }

  lemma NewCreatesAll(natives: seq<Option<NativeHeap>>)
    requires |natives| == SlotCount && FirstFailure(natives, 0) == SlotCount
    ensures IsValid(New(true, natives))
    ensures forall k :: 0 <= k < SlotCount ==> natives[k] != None
  {
    var a := New(true, natives);
    forall k | 0 <= k < SlotCount
      ensures a.heaps[k].native != None
    {
      assert a.heaps[k] == Created(k, natives[k].value);
    }
  }

  /** ... and each heap it did create is typed for its slot, with every
      index of its capacity available. */
  lemma NewHeapsFresh(device: bool, natives: seq<Option<NativeHeap>>, k: nat)
    requires |natives| == SlotCount && k < SlotCount
    requires New(device, natives).heaps[k].native != None
    ensures New(device, natives).heaps[k].heapType == SlotType(k)
    ensures Available(New(device, natives).heaps[k]) == multiset(Range(0, SlotCapacity(k)))
  {
    var h := New(device, natives).heaps[k];
    assert Available(h) == multiset(Range(0, h.capacity));
  }

  /** `GetDescriptorHeap`: the master heap of a type, if it has one. */
  function MasterSlot(t: HeapType): (r: Option<nat>)
    ensures r != None ==> r.value < 4 && SlotType(r.value) == t
    ensures r == None <==> t == NumTypes
  {
    match t
    case Rtv => Some(RtvSlot)
    case Dsv => Some(DsvSlot)
    case CbvSrvUav => Some(CbvSrvUavSlot)
    case Sampler => Some(SamplerSlot)
    case NumTypes => None
  }

  /** The master heap type a view is created in, if any. */
  function Route(s: SubresourceType): (r: Option<HeapType>)
    ensures r != None ==> r.value != NumTypes
    ensures r == Some(Rtv) <==> s == RenderTarget
    ensures r == Some(Dsv) <==> s == DepthStencil
    ensures r == Some(CbvSrvUav) <==> s in {ConstantBuffer, ShaderResource, UnorderedAccess}
    ensures r == None <==> s == OtherView
  {
    match s
    case RenderTarget => Some(Rtv)
    case DepthStencil => Some(Dsv)
    case ConstantBuffer => Some(CbvSrvUav)
    case ShaderResource => Some(CbvSrvUav)
    case UnorderedAccess => Some(CbvSrvUav)
    case OtherView => None
  }

  function WithHeap(a: Allocator, k: nat, h: Heap): (r: Allocator)
    requires Ok(a) && k < SlotCount && HeapOk(h)
    ensures Ok(r) && r.heaps[k] == h
    ensures forall j :: 0 <= j < SlotCount && j != k ==> r.heaps[j] == a.heaps[j]
    ensures r.device == a.device && r.frameCbvSrvUavCount == a.frameCbvSrvUavCount && r.frameSamplerCount == a.frameSamplerCount
  {
    a.(heaps := a.heaps[k := h])
  }

  /** `BeginFrame`: both frame heaps start over from index 0. */
  function BeginFrame(a: Allocator): (r: Allocator)
    requires Ok(a)
    ensures Ok(r) && r.heaps == a.heaps && r.device == a.device
    ensures r.frameCbvSrvUavCount == 0 && r.frameSamplerCount == 0
  {
    a.(frameCbvSrvUavCount := 0, frameSamplerCount := 0)
  }

  /** `CreateSubresourceDescriptor`: route the view to its master heap,
      take an index, and give it back if the device fails to create the
      view. `resourcePresent` is whether the resource has a native object;
      `viewCreated` is the device's answer. On success the result is the
      heap's type and the index. */
  function CreateSubresourceDescriptor(a: Allocator, resourcePresent: bool, s: SubresourceType, viewCreated: bool): (r: (Option<(HeapType, nat)>, Allocator))
    requires Ok(a)
    ensures Ok(r.1)
    ensures !resourcePresent || s == OtherView ==> r == (None, a)
    ensures r.0 != None ==>
      var k := MasterSlot(Route(s).value).value;
      && r.0.value.0 == a.heaps[k].heapType
      && r.0.value.1 < a.heaps[k].capacity
      && r.0.value.1 in Available(a.heaps[k])
      && Available(r.1.heaps[k]) + multiset{r.0.value.1} == Available(a.heaps[k])
      && (forall j :: 0 <= j < SlotCount && j != k ==> r.1.heaps[j] == a.heaps[j])
    // on failure no index is lost: every heap can hand out what it could before
    ensures r.0 == None ==> forall j :: 0 <= j < SlotCount ==> Available(r.1.heaps[j]) == Available(a.heaps[j])
  {
    if !resourcePresent then (None, a)
    else match Route(s)
      case None => (None, a)
      case Some(t) =>
        var k := MasterSlot(t).value;
        var h := a.heaps[k];
        var (i, h') := AllocateFromHeap(h);
        if i == None then (None, a)
        else if !viewCreated then
          AllocateTakesAvailable(h);
          var h'' := FreeToHeap(h', i.value);
          assert i.value < h'.allocatedCount by { FreedBelowCount(h); }
          (None, WithHeap(a, k, h''))
        else
          AllocateTakesAvailable(h);
          (Some((h.heapType, i.value)), WithHeap(a, k, h'))
  }

  /** An index just handed out lies below the bump counter afterwards. */
  lemma FreedBelowCount(h: Heap)
    requires HeapOk(h) && AllocateFromHeap(h).0 != None
    ensures AllocateFromHeap(h).0.value < AllocateFromHeap(h).1.allocatedCount
  {
  }

  /** `GetCpuDescriptorHandle`: indices the bump counter never reached are
      rejected, as are non-master types and missing heaps. */
  function GetCpuDescriptorHandle(a: Allocator, t: HeapType, i: nat): (r: Option<nat>)
    requires Ok(a)
    ensures r != None <==> t != NumTypes && a.heaps[MasterSlot(t).value].native != None
                           && i < a.heaps[MasterSlot(t).value].allocatedCount
    ensures r != None ==> r.value == CpuHandle(a.heaps[MasterSlot(t).value], i)
  {
    match MasterSlot(t)
    case None => None
    case Some(k) =>
      var h := a.heaps[k];
      if h.native == None || i >= h.allocatedCount then None
      else Some(CpuHandle(h, i))
  }

  /** `ReleaseDescriptor`: the same guards, then `FreeToHeap`. */
  function ReleaseDescriptor(a: Allocator, t: HeapType, i: nat): (r: Allocator)
    requires Ok(a)
    ensures Ok(r)
    ensures GetCpuDescriptorHandle(a, t, i) == None ==> r == a
    ensures GetCpuDescriptorHandle(a, t, i) != None ==>
      var k := MasterSlot(t).value;
      && Available(r.heaps[k]) == Available(a.heaps[k]) + multiset{i}
      && (forall j :: 0 <= j < SlotCount && j != k ==> r.heaps[j] == a.heaps[j])
  {
    match MasterSlot(t)
    case None => a
    case Some(k) =>
      var h := a.heaps[k];
      if h.native == None || i >= h.allocatedCount then a
      else WithHeap(a, k, FreeToHeap(h, i))
  }

  /** A released descriptor is the next one created in its heap. */
  lemma ReleaseThenCreate(a: Allocator, s: SubresourceType, i: nat)
    requires Ok(a) && s != OtherView
    requires GetCpuDescriptorHandle(a, Route(s).value, i) != None
    ensures var t := Route(s).value;
      CreateSubresourceDescriptor(ReleaseDescriptor(a, t, i), true, s, true)
        == (Some((a.heaps[MasterSlot(t).value].heapType, i)), a)
  {
    var t := Route(s).value;
    var k := MasterSlot(t).value;
    var h := a.heaps[k];
    var a' := ReleaseDescriptor(a, t, i);
    ReleaseFrees(a, t, i);
    FreeThenAllocate(h, i);
    CreateTakesNext(a', s);
    WithHeapRestores(a, k, FreeToHeap(h, i));
  }

  /** A release that passes the guards pushes the index on its heap. */
  lemma ReleaseFrees(a: Allocator, t: HeapType, i: nat)
    requires Ok(a) && GetCpuDescriptorHandle(a, t, i) != None
    ensures var k := MasterSlot(t).value;
      ReleaseDescriptor(a, t, i) == WithHeap(a, k, FreeToHeap(a.heaps[k], i))
  {
  }

  /** Putting a slot's old heap back restores the allocator. */
  lemma WithHeapRestores(a: Allocator, k: nat, h: Heap)
    requires Ok(a) && k < SlotCount && HeapOk(h)
    ensures WithHeap(WithHeap(a, k, h), k, a.heaps[k]) == a
  {
    assert a.heaps[k := h][k := a.heaps[k]] == a.heaps;
  }

  /** With the resource present and the view created, creation returns
      the heap's next index and keeps the heap it leaves behind. */
  lemma CreateTakesNext(a: Allocator, s: SubresourceType)
    requires Ok(a) && s != OtherView
    requires AllocateFromHeap(a.heaps[MasterSlot(Route(s).value).value]).0 != None
    ensures var k := MasterSlot(Route(s).value).value;
      var (i, h') := AllocateFromHeap(a.heaps[k]);
      CreateSubresourceDescriptor(a, true, s, true) == (Some((a.heaps[k].heapType, i.value)), WithHeap(a, k, h'))
  {
  }

  /** The frame heap slot and counter a type copies into. */
  function FrameSlot(t: HeapType): (r: Option<nat>)
    ensures r != None ==> 4 <= r.value < SlotCount && SlotType(r.value) == t
    ensures r == None <==> t !in {CbvSrvUav, Sampler}
  {
    match t
    case CbvSrvUav => Some(FrameCbvSrvUavSlot)
    case Sampler => Some(FrameSamplerSlot)
    case _ => None
  }

  function FrameCount(a: Allocator, t: HeapType): nat
    requires FrameSlot(t) != None
  {
    if t == CbvSrvUav then a.frameCbvSrvUavCount else a.frameSamplerCount
  }

  function WithFrameCount(a: Allocator, t: HeapType, n: nat): (r: Allocator)
    requires FrameSlot(t) != None
    ensures FrameCount(r, t) == n && r.heaps == a.heaps && r.device == a.device
    ensures forall u :: FrameSlot(u) != None && u != t ==> FrameCount(r, u) == FrameCount(a, u)
  {
    if t == CbvSrvUav then a.(frameCbvSrvUavCount := n) else a.(frameSamplerCount := n)
  }

  /** `CopyToFrameHeap`: the bindless index is the frame counter, which
      then advances; only the two shader-visible types are accepted, and a
      full frame heap fails without change. The result pairs the index with
      its GPU handle. The descriptor copy itself is the device's. */
  function CopyToFrameHeap(a: Allocator, t: HeapType): (r: (Option<(nat, nat)>, Allocator))
    requires Ok(a)
    ensures Ok(r.1) && r.1.heaps == a.heaps
    ensures r.0 == None <==> FrameSlot(t) == None || FrameCount(a, t) >= a.heaps[FrameSlot(t).value].capacity
    ensures r.0 == None ==> r.1 == a
    ensures r.0 != None ==>
      var k := FrameSlot(t).value;
      && r.0.value.0 == FrameCount(a, t) < a.heaps[k].capacity
      && r.0.value.1 == GpuHandle(a.heaps[k], r.0.value.0)
      && r.1 == WithFrameCount(a, t, FrameCount(a, t) + 1)
  {
    match FrameSlot(t)
    case None => (None, a)
    case Some(k) =>
      var n := FrameCount(a, t);
      if n >= a.heaps[k].capacity then (None, a)
      else (Some((n, GpuHandle(a.heaps[k], n))), WithFrameCount(a, t, n + 1))
  }

  /** The bindless indices of `count` successive copies of type `t`, failed
      copies left out. */
  function CopyRun(a: Allocator, t: HeapType, count: nat): (r: (seq<nat>, Allocator))
    requires Ok(a)
    ensures Ok(r.1)
    decreases count
  {
    if count == 0 then ([], a)
    else
      var (first, a1) := CopyToFrameHeap(a, t);
      var (rest, a2) := CopyRun(a1, t, count - 1);
      (if first == None then rest else [first.value.0] + rest, a2)
  }

  /** Within a frame the copies of one type get the bindless indices 0, 1,
      2, ... in order, until the frame heap is full. */
  lemma {:induction false} CopyRunIndices(a: Allocator, t: HeapType, count: nat)
    requires Ok(a) && FrameSlot(t) != None
    requires FrameCount(a, t) + count <= a.heaps[FrameSlot(t).value].capacity
    ensures CopyRun(a, t, count).0 == Range(FrameCount(a, t), FrameCount(a, t) + count)
    ensures FrameCount(CopyRun(a, t, count).1, t) == FrameCount(a, t) + count
    decreases count
  {
    if count > 0 {
      var n := FrameCount(a, t);
      var (first, a1) := CopyToFrameHeap(a, t);
      assert first != None && first.value.0 == n;
      assert FrameCount(a1, t) == n + 1 && a1.heaps == a.heaps;
      CopyRunIndices(a1, t, count - 1);
      var rest := CopyRun(a1, t, count - 1).0;
      assert CopyRun(a, t, count).0 == [n] + rest;
      assert Range(n, n + count) == [n] + Range(n + 1, n + count);
    }
  }

  /** The first copies after `BeginFrame` start from index 0. */
  lemma FrameStartsAtZero(a: Allocator, t: HeapType, count: nat)
    requires Ok(a) && FrameSlot(t) != None
    requires count <= a.heaps[FrameSlot(t).value].capacity
    ensures CopyRun(BeginFrame(a), t, count).0 == Range(0, count)
  {
    CopyRunIndices(BeginFrame(a), t, count);
  }
}
