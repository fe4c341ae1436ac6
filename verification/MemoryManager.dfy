/** The bitmap allocator of physical frames and its initialization from the UEFI
    memory map (kernel/memory_manager.cpp, kernel/memory_map.hpp). */
module MemoryManager {
  import opened Wrappers
  import opened Frames

  function Mask(bit: bv6): bv64 {
    (1 as bv64) << bit
  }

  predicate HasBit(line: bv64, bit: bv6) {
    line & Mask(bit) != 0
  }

  function WithBit(line: bv64, bit: bv6, value: bool): bv64 {
    if value then line | Mask(bit) else line & !Mask(bit)
  }

  lemma WithBitSame(line: bv64, bit: bv6, value: bool)
    ensures HasBit(WithBit(line, bit, value), bit) == value
  {
  }

  lemma WithBitOther(line: bv64, bit: bv6, value: bool, other: bv6)
    requires bit != other
    ensures HasBit(WithBit(line, bit, value), other) == HasBit(line, other)
  {
    SetOther(line, bit, other);
    ClearOther(line, bit, other);
    hide Mask;
  }

  lemma SetOther(line: bv64, bit: bv6, other: bv6)
    requires bit != other
    ensures (line | Mask(bit)) & Mask(other) == line & Mask(other)
  {
  }

  lemma ClearOther(line: bv64, bit: bv6, other: bv6)
    requires bit != other
    ensures (line & !Mask(bit)) & Mask(other) == line & Mask(other)
  {
  }

  function Line(frame: nat): nat {
    frame / BITS_PER_LINE
  }

  function Bit(frame: nat): bv6 {
    (frame % BITS_PER_LINE) as bv6
  }

  lemma BitBack(frame: nat)
    ensures Bit(frame) as int == frame % BITS_PER_LINE
  {
    BackFromBits(frame % BITS_PER_LINE);
  }

  lemma BackFromBits(n: nat)
    requires n < BITS_PER_LINE
    ensures (n as bv6) as int == n
  {
  }

  lemma SameFrame(f: nat, g: nat)
    requires Line(f) == Line(g) && Bit(f) == Bit(g)
    ensures f == g
  {
    BitBack(f);
    BitBack(g);
    hide Bit;
  }

  class BitmapMemoryManager {
    const allocMap: array<bv64>
    var rangeBegin: nat
    var rangeEnd: nat

    ghost predicate Valid()
      reads this
    {
      allocMap.Length * BITS_PER_LINE == FRAME_COUNT && rangeBegin <= FRAME_COUNT && rangeEnd <= FRAME_COUNT
    }

    constructor ()
      ensures Valid() && fresh(allocMap) && rangeBegin == 0 && rangeEnd == FRAME_COUNT
      ensures Bits() == seq(FRAME_COUNT, _ => false)
    {
      allocMap := new bv64[FRAME_COUNT / BITS_PER_LINE](_ => 0);
      rangeBegin, rangeEnd := 0, FRAME_COUNT;
    }

    function GetBit(frame: nat): bool
      reads this, allocMap
      requires Valid() && frame < FRAME_COUNT
    {
      HasBit(allocMap[Line(frame)], Bit(frame))
    }

    /** The bitmap as a sequence of used bits. */
    ghost function Bits(): (r: seq<bool>)
      reads this, allocMap
      requires Valid()
      ensures |r| == FRAME_COUNT && forall f :: 0 <= f < FRAME_COUNT ==> r[f] == GetBit(f)
    {
      seq(FRAME_COUNT, f requires 0 <= f < FRAME_COUNT && Valid() reads this, allocMap => GetBit(f))
    }

    method SetBit(frame: nat, used: bool)
      requires Valid() && frame < FRAME_COUNT
      modifies allocMap
      ensures Bits() == old(Bits())[frame := used]
    {
      ghost var was := allocMap[Line(frame)];
      allocMap[Line(frame)] := WithBit(allocMap[Line(frame)], Bit(frame), used);
      WithBitSame(was, Bit(frame), used);
      hide Bit, HasBit, WithBit;
      forall f | 0 <= f < FRAME_COUNT && f != frame
        ensures GetBit(f) == old(GetBit(f))
      {
        if Line(f) == Line(frame) {
          if Bit(f) == Bit(frame) {
            SameFrame(f, frame);
          } else {
            WithBitOther(was, Bit(frame), used, Bit(f));
          }
        }
      }
    }

    method SetBits(start: nat, n: nat, used: bool)
      requires Valid() && start + n <= FRAME_COUNT
      modifies allocMap
      ensures Bits() == Marked(old(Bits()), start, n, used)
    {
      ghost var was := Bits();
      for i := 0 to n
        invariant Bits() == Marked(was, start, i, used)
      {
        SetBit(start + i, used);
      }
    }

    method MarkAllocated(start: nat, n: nat)
      requires Valid() && start + n <= FRAME_COUNT
      modifies allocMap
      ensures Bits() == Marked(old(Bits()), start, n, true)
    {
      SetBits(start, n, true);
    }

    method Free(start: nat, n: nat)
      requires Valid() && start + n <= FRAME_COUNT
      modifies allocMap
      ensures Bits() == Marked(old(Bits()), start, n, false)
    {
      SetBits(start, n, false);
    }

    method SetMemoryRange(begin: nat, end: nat)
      requires Valid() && begin <= FRAME_COUNT && end <= FRAME_COUNT
      modifies `rangeBegin, `rangeEnd
      ensures Valid() && rangeBegin == begin && rangeEnd == end && Bits() == old(Bits())
    {
      rangeBegin, rangeEnd := begin, end;
    }

    /** First fit, although the search skips behind the first used frame of each
        candidate; no memory is reported iff there is no run of free frames. */
    method Allocate(n: nat) returns (frame: Option<nat>)
      requires Valid()
      modifies allocMap
      ensures frame == None <==> old(NoFit(Bits(), rangeBegin, rangeEnd, n))
      ensures frame == None ==> Bits() == old(Bits())
      ensures frame.Some? ==>
        && FirstFit(old(Bits()), rangeBegin, rangeEnd, n, frame.value)
        && frame.value + n <= FRAME_COUNT && Bits() == Marked(old(Bits()), frame.value, n, true)
    {
      ghost var bits := Bits();
      var start := rangeBegin;
      while true
        invariant rangeBegin <= start && Bits() == bits
        invariant start <= rangeEnd || start == rangeBegin
        invariant forall s :: rangeBegin <= s < start ==> !FreeRun(bits, s, n, rangeEnd)
        decreases rangeEnd - start
      {
        var i := 0;
        while i < n
          invariant 0 <= i <= n && (i == 0 || start + i <= rangeEnd)
          invariant forall f :: start <= f < start + i ==> !bits[f]
        {
          if start + i >= rangeEnd {
            NothingBeyond(bits, n, start, start + i);
            return None;
          }
          if GetBit(start + i) {
            break;
          }
          i := i + 1;
        }
        if i == n {
          assert FreeRun(bits, start, n, rangeEnd);
          MarkAllocated(start, n);
          return Some(start);
        }
        UsedRulesOut(bits, rangeEnd, n, start, start + i);
        start := start + i + 1;
      }
    }

    lemma NothingBeyond(bits: seq<bool>, n: nat, start: nat, used: nat)
      requires |bits| == FRAME_COUNT && rangeEnd <= FRAME_COUNT && rangeEnd <= used && start <= used < start + n
      requires forall s :: rangeBegin <= s < start ==> !FreeRun(bits, s, n, rangeEnd)
      ensures NoFit(bits, rangeBegin, rangeEnd, n)
    {
    }
  }
}
