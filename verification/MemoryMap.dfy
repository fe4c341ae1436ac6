/** The memory map handed over by UEFI and the allocator set up from it
    (kernel/memory_map.hpp, kernel/memory_manager.cpp). */
module MemoryMaps {
  import opened Wrappers
  import opened Frames
  import opened MemoryManager

  const UEFI_PAGE_SIZE := 4096
  const HEAP_FRAMES := 64 * 512
  /** 128 GiB. */
  const MAX_PHYSICAL_MEMORY := FRAME_COUNT * BYTES_PER_FRAME

  datatype Descriptor = Descriptor(kind: nat, physicalStart: nat, numberOfPages: nat) {
    function PhysicalEnd(): nat {
      physicalStart + numberOfPages * UEFI_PAGE_SIZE
    }

    /** Boot services code and data and conventional memory. */
    predicate IsAvailable() {
      kind == 3 || kind == 4 || kind == 7
    }

    /** The frame lies in the descriptor's memory. */
    predicate Has(frame: nat) {
      physicalStart <= frame * BYTES_PER_FRAME < PhysicalEnd()
    }
  }

  /** Sorted, disjoint, page-aligned and within the memory that the bitmap
      covers. */
  ghost predicate Orderly(descriptors: seq<Descriptor>) {
    && (forall i :: 0 <= i < |descriptors| ==>
          descriptors[i].physicalStart % UEFI_PAGE_SIZE == 0 && descriptors[i].PhysicalEnd() <= MAX_PHYSICAL_MEMORY)
    && forall i, j :: 0 <= i < j < |descriptors| ==> descriptors[i].PhysicalEnd() <= descriptors[j].physicalStart
  }

  /** The frame lies in boot services code or data or conventional memory. */
  ghost predicate Available(descriptors: seq<Descriptor>, frame: nat) {
    exists i :: 0 <= i < |descriptors| && descriptors[i].kind in {3, 4, 7} && descriptors[i].Has(frame)
  }

  function End(descriptors: seq<Descriptor>): nat {
    if descriptors == [] then 0 else descriptors[|descriptors| - 1].PhysicalEnd()
  }

  /** Where the last available descriptor ends. */
  function AvailableEnd(descriptors: seq<Descriptor>): nat {
    if descriptors == [] then 0
    else if descriptors[|descriptors| - 1].IsAvailable() then descriptors[|descriptors| - 1].PhysicalEnd()
    else AvailableEnd(descriptors[..|descriptors| - 1])
  }

  lemma {:induction false} AvailableEndBounds(descriptors: seq<Descriptor>, i: nat)
    requires Orderly(descriptors) && i <= |descriptors|
    ensures AvailableEnd(descriptors[..i]) % UEFI_PAGE_SIZE == 0
    ensures i < |descriptors| ==> AvailableEnd(descriptors[..i]) <= descriptors[i].physicalStart
    ensures AvailableEnd(descriptors[..i]) <= MAX_PHYSICAL_MEMORY
  {
    if i > 0 {
      AvailableEndBounds(descriptors, i - 1);
      assert descriptors[..i][..i - 1] == descriptors[..i - 1];
    }
  }

  lemma AvailableMore(descriptors: seq<Descriptor>, i: nat, frame: nat)
    requires i < |descriptors|
    ensures Available(descriptors[..i + 1], frame) <==>
      Available(descriptors[..i], frame) || (descriptors[i].IsAvailable() && descriptors[i].Has(frame))
  {
    var m := descriptors[..i + 1];
    if Available(descriptors[..i], frame) {
      var k :| 0 <= k < i && descriptors[..i][k].IsAvailable() && descriptors[..i][k].Has(frame);
      assert m[k] == descriptors[k];
    }
    if descriptors[i].IsAvailable() && descriptors[i].Has(frame) {
      assert m[i] == descriptors[i];
    }
    if Available(m, frame) {
      var k :| 0 <= k <= i && m[k].IsAvailable() && m[k].Has(frame);
      if k < i { assert descriptors[..i][k] == descriptors[k]; }
    }
  }

  /** Available memory ends where AvailableEnd says. */
  lemma {:induction false} AvailableBelow(descriptors: seq<Descriptor>, i: nat, frame: nat)
    requires Orderly(descriptors) && i <= |descriptors| && Available(descriptors[..i], frame)
    ensures frame * BYTES_PER_FRAME < AvailableEnd(descriptors[..i])
  {
    if i > 0 {
      AvailableMore(descriptors, i - 1, frame);
      assert descriptors[..i][..i - 1] == descriptors[..i - 1];
      if Available(descriptors[..i - 1], frame) {
        AvailableBelow(descriptors, i - 1, frame);
        AvailableEndBounds(descriptors, i - 1);
      }
    }
  }

  /** After the first i descriptors all frames up to their end are marked except
      the available ones. */
  ghost predicate MarkedSoFar(bits: seq<bool>, descriptors: seq<Descriptor>, i: nat)
    requires |bits| == FRAME_COUNT && i <= |descriptors|
  {
    forall f :: 0 <= f < FRAME_COUNT ==>
      (bits[f] <==> f * BYTES_PER_FRAME < End(descriptors[..i]) && !Available(descriptors[..i], f))
  }

  /** One descriptor: the gap before it, and itself if it is reserved. */
  function MarkedFor(bits: seq<bool>, availableEnd: nat, d: Descriptor): (r: seq<bool>)
    requires |bits| == FRAME_COUNT && d.PhysicalEnd() <= MAX_PHYSICAL_MEMORY
    ensures |r| == FRAME_COUNT
  {
    var gap := if availableEnd < d.physicalStart then
        Marked(bits, availableEnd / BYTES_PER_FRAME, (d.physicalStart - availableEnd) / BYTES_PER_FRAME, true)
      else bits;
    if d.IsAvailable() then gap
    else Marked(gap, d.physicalStart / BYTES_PER_FRAME, d.numberOfPages * UEFI_PAGE_SIZE / BYTES_PER_FRAME, true)
  }

  lemma MarkedForAt(bits: seq<bool>, availableEnd: nat, d: Descriptor, f: nat)
    requires |bits| == FRAME_COUNT && d.PhysicalEnd() <= MAX_PHYSICAL_MEMORY && f < FRAME_COUNT
    requires d.physicalStart % UEFI_PAGE_SIZE == 0 && availableEnd % UEFI_PAGE_SIZE == 0
    ensures MarkedFor(bits, availableEnd, d)[f] <==>
      bits[f] || availableEnd <= f * BYTES_PER_FRAME < d.physicalStart || (!d.IsAvailable() && d.Has(f))
  {
  }

  lemma MarkNextAt(bits: seq<bool>, descriptors: seq<Descriptor>, i: nat, f: nat)
    requires Orderly(descriptors) && i < |descriptors| && |bits| == FRAME_COUNT && f < FRAME_COUNT
    requires bits[f] <==> f * BYTES_PER_FRAME < End(descriptors[..i]) && !Available(descriptors[..i], f)
    ensures MarkedFor(bits, AvailableEnd(descriptors[..i]), descriptors[i])[f] <==>
      f * BYTES_PER_FRAME < End(descriptors[..i + 1]) && !Available(descriptors[..i + 1], f)
  {
    var end, d := AvailableEnd(descriptors[..i]), descriptors[i];
    AvailableEndBounds(descriptors, i);
    MarkedForAt(bits, end, d, f);
    AvailableMore(descriptors, i, f);
    if Available(descriptors[..i], f) {
      AvailableBelow(descriptors, i, f);
    }
    assert End(descriptors[..i]) <= d.physicalStart;
    hide MarkedFor, Available;
    EndCovers(descriptors, i);
  }

  /** The end of the available memory is not beyond the end of all. */
  lemma {:induction false} EndCovers(descriptors: seq<Descriptor>, i: nat)
    requires Orderly(descriptors) && i <= |descriptors|
    ensures AvailableEnd(descriptors[..i]) <= End(descriptors[..i])
  {
    if i > 0 {
      assert descriptors[..i][..i - 1] == descriptors[..i - 1];
      EndCovers(descriptors, i - 1);
    }
  }

  lemma MarkNext(bits: seq<bool>, descriptors: seq<Descriptor>, i: nat)
    requires Orderly(descriptors) && i < |descriptors| && |bits| == FRAME_COUNT && MarkedSoFar(bits, descriptors, i)
    ensures MarkedSoFar(MarkedFor(bits, AvailableEnd(descriptors[..i]), descriptors[i]), descriptors, i + 1)
  {
    hide MarkedFor, Available, AvailableEnd, End;
    forall f | 0 <= f < FRAME_COUNT
      ensures MarkedFor(bits, AvailableEnd(descriptors[..i]), descriptors[i])[f] <==>
        f * BYTES_PER_FRAME < End(descriptors[..i + 1]) && !Available(descriptors[..i + 1], f)
    {
      MarkNextAt(bits, descriptors, i, f);
    }
  }

  /** What `InitializeMemoryManager` makes of a map: the range ends with available
      memory, and in it exactly the available frames are free. */
  ghost predicate Managed(bits: seq<bool>, begin: nat, end: nat, descriptors: seq<Descriptor>)
    requires |bits| == FRAME_COUNT
  {
    && begin == 1 && end * BYTES_PER_FRAME == AvailableEnd(descriptors) && end <= FRAME_COUNT
    && (forall f :: 0 <= f < end ==> (!bits[f] <==> Available(descriptors, f)))
    && forall f: nat :: Available(descriptors, f) ==> f < end
  }

  /** The frames that the heap takes from the managed ones. */
  ghost predicate HeapTaken(before: seq<bool>, after: seq<bool>, begin: nat, end: nat, heap: Option<nat>)
    requires |before| == FRAME_COUNT && end <= FRAME_COUNT
  {
    match heap
    case None => NoFit(before, begin, end, HEAP_FRAMES) && after == before
    case Some(start) =>
      FirstFit(before, begin, end, HEAP_FRAMES, start) && start + HEAP_FRAMES <= FRAME_COUNT
      && after == Marked(before, start, HEAP_FRAMES, true)
  }

  /** One turn of the loop over the map. */
  method MarkOne(memory: BitmapMemoryManager, availableEnd: nat, desc: Descriptor) returns (newEnd: nat)
    requires memory.Valid() && desc.PhysicalEnd() <= MAX_PHYSICAL_MEMORY && availableEnd <= MAX_PHYSICAL_MEMORY
    modifies memory.allocMap
    ensures memory.Bits() == MarkedFor(old(memory.Bits()), availableEnd, desc)
    ensures newEnd == if desc.IsAvailable() then desc.PhysicalEnd() else availableEnd
  {
    newEnd := availableEnd;
    if availableEnd < desc.physicalStart {
      memory.MarkAllocated(availableEnd / BYTES_PER_FRAME, (desc.physicalStart - availableEnd) / BYTES_PER_FRAME);
    }
    var physicalEnd := desc.physicalStart + desc.numberOfPages * UEFI_PAGE_SIZE;
    if desc.IsAvailable() {
      newEnd := physicalEnd;
    } else {
      memory.MarkAllocated(desc.physicalStart / BYTES_PER_FRAME, desc.numberOfPages * UEFI_PAGE_SIZE / BYTES_PER_FRAME);
    }
  }

  method MarkDescriptors(memory: BitmapMemoryManager, descriptors: seq<Descriptor>) returns (availableEnd: nat)
    requires memory.Valid() && Orderly(descriptors) && memory.Bits() == seq(FRAME_COUNT, _ => false)
    modifies memory.allocMap
    ensures MarkedSoFar(memory.Bits(), descriptors, |descriptors|) && availableEnd == AvailableEnd(descriptors)
  {
    availableEnd := 0;
    assert descriptors[..0] == [];
    for i := 0 to |descriptors|
      invariant MarkedSoFar(memory.Bits(), descriptors, i) && availableEnd == AvailableEnd(descriptors[..i])
    {
      AvailableEndBounds(descriptors, i);
      MarkNext(memory.Bits(), descriptors, i);
      assert descriptors[..i + 1][..i] == descriptors[..i];
      hide MarkedSoFar, MarkedFor;
      availableEnd := MarkOne(memory, availableEnd, descriptors[i]);
    }
    assert descriptors[..|descriptors|] == descriptors;
  }

  /** `InitializeMemoryManager`: where no heap fits the source exits. */
  method Initialize(descriptors: seq<Descriptor>)
    returns (memory: BitmapMemoryManager, heap: Option<nat>, ghost managed: seq<bool>)
    requires Orderly(descriptors)
    ensures fresh(memory) && fresh(memory.allocMap) && memory.Valid() && |managed| == FRAME_COUNT
    ensures Managed(managed, memory.rangeBegin, memory.rangeEnd, descriptors)
    ensures HeapTaken(managed, memory.Bits(), memory.rangeBegin, memory.rangeEnd, heap)
  {
    memory := new BitmapMemoryManager();
    var availableEnd := MarkDescriptors(memory, descriptors);
    managed := memory.Bits();
    ManagedAtEnd(managed, descriptors);
    hide MarkedSoFar, Orderly, Available, AvailableEnd;
    memory.SetMemoryRange(1, availableEnd / BYTES_PER_FRAME);
    heap := memory.Allocate(HEAP_FRAMES);
  }

  lemma ManagedAtEnd(bits: seq<bool>, descriptors: seq<Descriptor>)
    requires Orderly(descriptors) && |bits| == FRAME_COUNT && MarkedSoFar(bits, descriptors, |descriptors|)
    ensures Managed(bits, 1, AvailableEnd(descriptors) / BYTES_PER_FRAME, descriptors)
    ensures AvailableEnd(descriptors) <= MAX_PHYSICAL_MEMORY
  {
    assert descriptors[..|descriptors|] == descriptors;
    AvailableEndBounds(descriptors, |descriptors|);
    EndCovers(descriptors, |descriptors|);
    forall f: nat | Available(descriptors, f)
      ensures f < AvailableEnd(descriptors) / BYTES_PER_FRAME
    {
      AvailableBelow(descriptors, |descriptors|, f);
    }
  }
}
