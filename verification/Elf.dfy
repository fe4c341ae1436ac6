/** Loading the kernel's segments (UhyokoLoaderPkg/Main.c). */
module Elf {

  type byte = b: int | 0 <= b < 0x100

  const PT_LOAD := 1
  const MAX_UINT64 := 0xffff_ffff_ffff_ffff
  const PAGE := 0x1000

  datatype Segment = Segment(kind: nat, offset: nat, vaddr: nat, filesz: nat, memsz: nat) {
    predicate Loads() {
      kind == PT_LOAD
    }

    predicate Covers(a: nat) {
      Loads() && vaddr <= a < vaddr + memsz
    }

    /** What the segment puts at an address that it covers. */
    function Content(image: seq<byte>, a: nat): byte
      requires Covers(a) && offset + filesz <= |image|
    {
      if a < vaddr + filesz then image[offset + (a - vaddr)] else 0
    }
  }

  /** Well formed: the file holds the segment's bytes, memory the whole segment,
      and no sum leaves the 64-bit range. */
  predicate Fits(s: Segment, imageSize: nat, memorySize: nat) {
    s.Loads() ==>
      && s.offset + s.filesz <= imageSize && s.filesz <= s.memsz
      && s.vaddr + s.memsz <= memorySize <= MAX_UINT64
  }

  predicate AllFit(segments: seq<Segment>, imageSize: nat, memorySize: nat) {
    forall i :: 0 <= i < |segments| ==> Fits(segments[i], imageSize, memorySize)
  }

  ghost predicate Covered(segments: seq<Segment>, a: nat) {
    exists i :: 0 <= i < |segments| && segments[i].Covers(a)
  }

  /** The least range that holds all segments to be loaded. */
  ghost predicate IsRange(segments: seq<Segment>, first: nat, last: nat) {
    && (forall i :: 0 <= i < |segments| && segments[i].Loads() ==>
          first <= segments[i].vaddr && segments[i].vaddr + segments[i].memsz <= last)
    && (first == MAX_UINT64 || exists i :: 0 <= i < |segments| && segments[i].Loads() && first == segments[i].vaddr)
    && (last == 0 || exists i ::
          0 <= i < |segments| && segments[i].Loads() && last == segments[i].vaddr + segments[i].memsz)
  }

  /** Without a segment to load, the count of pages wraps around to one. */
  method CalcLoadAddressRange(segments: seq<Segment>) returns (first: nat, last: nat)
    requires forall i :: 0 <= i < |segments| && segments[i].Loads() ==>
      segments[i].vaddr + segments[i].memsz <= MAX_UINT64
    ensures IsRange(segments, first, last)
    ensures first <= MAX_UINT64 && last <= MAX_UINT64
    ensures (forall i :: 0 <= i < |segments| ==> !segments[i].Loads()) ==>
      first == MAX_UINT64 && last == 0 && NumPages(first, last) == 1
  {
    first, last := MAX_UINT64, 0;
    for i := 0 to |segments|
      invariant IsRange(segments[..i], first, last) && first <= MAX_UINT64 && last <= MAX_UINT64
    {
      var s := segments[i];
      RangeMore(segments, i, first, last);
      if s.Loads() {
        first := if s.vaddr < first then s.vaddr else first;
        last := if s.vaddr + s.memsz > last then s.vaddr + s.memsz else last;
      }
    }
    assert segments[..|segments|] == segments;
  }

  lemma RangeMore(segments: seq<Segment>, i: nat, first: nat, last: nat)
    requires i < |segments| && IsRange(segments[..i], first, last) && first <= MAX_UINT64
    requires segments[i].Loads() ==> segments[i].vaddr + segments[i].memsz <= MAX_UINT64
    ensures
      var s := segments[i];
      if s.Loads() then
        IsRange(segments[..i + 1], if s.vaddr < first then s.vaddr else first,
                if s.vaddr + s.memsz > last then s.vaddr + s.memsz else last)
      else IsRange(segments[..i + 1], first, last)
  {
    var m, n := segments[..i], segments[..i + 1];
    assert n[i] == segments[i];
    assert forall k :: 0 <= k < i ==> n[k] == m[k];
  }

  /** The number of pages to allocate, in 64-bit arithmetic. */
  function NumPages(first: nat, last: nat): nat {
    (last - first + 0xfff) % (MAX_UINT64 + 1) / PAGE
  }

  /** The pages from `first` on hold every address that is written exactly when
      the range can be rounded up to pages in 64 bits; then one page fewer would
      not reach the last segment's end. */
  lemma PagesHold(segments: seq<Segment>, first: nat, last: nat, a: nat)
    requires IsRange(segments, first, last) && first <= MAX_UINT64 && last <= MAX_UINT64 && Covered(segments, a)
    ensures first <= a < last
    ensures last <= first + NumPages(first, last) * PAGE <==> last - first <= MAX_UINT64 - 0xfff
    ensures last - first <= MAX_UINT64 - 0xfff ==> first + NumPages(first, last) * PAGE < last + PAGE
  {
    if last - first > MAX_UINT64 - 0xfff {
      assert NumPages(first, last) == 0;
    }
  }

  /** Two segments at both ends of the address space, for which no page is asked. */
  function Apart(): seq<Segment> {
    [Segment(PT_LOAD, 0, 0, 0, 1), Segment(PT_LOAD, 0, MAX_UINT64 - 1, 0, 1)]
  }

  lemma ApartHoldsNothing()
    ensures IsRange(Apart(), 0, MAX_UINT64) && Covered(Apart(), 0) && NumPages(0, MAX_UINT64) == 0
  {
    var s := Apart();
    assert s[0].Loads() && s[1].Loads() && s[0].Covers(0);
    assert s[0].vaddr == 0 && s[1].vaddr + s[1].memsz == MAX_UINT64;
  }

  /** What is at an address after loading: the last segment that covers it wins. */
  function Loaded(before: byte, image: seq<byte>, segments: seq<Segment>, a: nat, memorySize: nat): byte
    requires AllFit(segments, |image|, memorySize)
  {
    if segments == [] then before
    else
      var last := |segments| - 1;
      if segments[last].Covers(a) then segments[last].Content(image, a)
      else Loaded(before, image, segments[..last], a, memorySize)
  }

  method CopyMem(memory: array<byte>, at: nat, bytes: seq<byte>)
    requires at + |bytes| <= memory.Length
    modifies memory
    ensures forall a :: 0 <= a < memory.Length ==>
      memory[a] == if at <= a < at + |bytes| then bytes[a - at] else old(memory[a])
  {
    for i := 0 to |bytes|
      invariant forall a :: 0 <= a < memory.Length ==>
        memory[a] == if at <= a < at + i then bytes[a - at] else old(memory[a])
    {
      memory[at + i] := bytes[i];
    }
  }

  method SetMem(memory: array<byte>, at: nat, size: nat, value: byte)
    requires at + size <= memory.Length
    modifies memory
    ensures forall a :: 0 <= a < memory.Length ==> memory[a] == if at <= a < at + size then value else old(memory[a])
  {
    for i := 0 to size
      invariant forall a :: 0 <= a < memory.Length ==> memory[a] == if at <= a < at + i then value else old(memory[a])
    {
      memory[at + i] := value;
    }
  }

  /** The file image is kept apart from the memory that is written. */
  method CopyLoadSegments(memory: array<byte>, image: seq<byte>, segments: seq<Segment>)
    requires AllFit(segments, |image|, memory.Length)
    modifies memory
    ensures forall a :: 0 <= a < memory.Length ==>
      memory[a] == Loaded(old(memory[a]), image, segments, a, memory.Length)
  {
    ghost var before := memory[..];
    for i := 0 to |segments|
      invariant forall a :: 0 <= a < memory.Length ==>
        memory[a] == Loaded(before[a], image, segments[..i], a, memory.Length)
    {
      var s := segments[i];
      ghost var more := segments[..i + 1];
      assert more[..i] == segments[..i] && more[i] == s;
      if s.Loads() {
        assert Fits(s, |image|, memory.Length);
        CopyMem(memory, s.vaddr, image[s.offset..s.offset + s.filesz]);
        SetMem(memory, s.vaddr + s.filesz, s.memsz - s.filesz, 0);
      }
    }
    assert segments[..|segments|] == segments;
  }

  /** Where no later segment overlaps, memory holds the segment: its bytes from
      the file, then zeros. */
  lemma {:induction false} SegmentLoaded(
    before: byte, image: seq<byte>, segments: seq<Segment>, i: nat, a: nat, memorySize: nat)
    requires AllFit(segments, |image|, memorySize) && i < |segments| && segments[i].Covers(a)
    requires forall j :: i < j < |segments| ==> !segments[j].Covers(a)
    ensures Loaded(before, image, segments, a, memorySize) == segments[i].Content(image, a)
  {
    if i < |segments| - 1 {
      SegmentLoaded(before, image, segments[..|segments| - 1], i, a, memorySize);
    }
  }

  /** Memory changes only where a segment lies. */
  lemma {:induction false} NothingElse(before: byte, image: seq<byte>, segments: seq<Segment>, a: nat, memorySize: nat)
    requires AllFit(segments, |image|, memorySize) && !Covered(segments, a)
    ensures Loaded(before, image, segments, a, memorySize) == before
  {
    if segments != [] {
      var rest := segments[..|segments| - 1];
      assert forall i :: 0 <= i < |rest| ==> rest[i] == segments[i];
      NothingElse(before, image, rest, a, memorySize);
    }
  }

  ghost predicate Disjoint(segments: seq<Segment>) {
    forall i, j, a: nat :: 0 <= i < j < |segments| && segments[i].Covers(a) ==> !segments[j].Covers(a)
  }

  /** With disjoint segments every one is loaded intact and inside the pages that
      were counted, and nothing else is written. */
  lemma LoadExact(
    before: byte, image: seq<byte>, segments: seq<Segment>, first: nat, last: nat, a: nat, memorySize: nat)
    requires AllFit(segments, |image|, memorySize) && Disjoint(segments) && a < memorySize
    requires IsRange(segments, first, last) && first <= MAX_UINT64 && last <= MAX_UINT64
    requires last - first <= MAX_UINT64 - 0xfff
    ensures forall i :: 0 <= i < |segments| && segments[i].kind == 1 ==>
      var s := segments[i];
      && (s.vaddr <= a < s.vaddr + s.filesz ==>
            Loaded(before, image, segments, a, memorySize) == image[s.offset + (a - s.vaddr)])
      && (s.vaddr + s.filesz <= a < s.vaddr + s.memsz ==> Loaded(before, image, segments, a, memorySize) == 0)
    ensures !(first <= a < first + NumPages(first, last) * PAGE) ==>
      Loaded(before, image, segments, a, memorySize) == before
  {
    forall i | 0 <= i < |segments| && segments[i].Covers(a)
      ensures Loaded(before, image, segments, a, memorySize) == segments[i].Content(image, a)
    {
      SegmentLoaded(before, image, segments, i, a, memorySize);
    }
    assert forall i :: 0 <= i < |segments| ==> Fits(segments[i], |image|, memorySize);
    if Covered(segments, a) {
      PagesHold(segments, first, last, a);
    } else {
      NothingElse(before, image, segments, a, memorySize);
    }
  }
}
