/** Physical frames as a sequence of used bits: the specification of the bitmap
    allocator (kernel/memory_manager.cpp) and what its runs keep. */
module Frames {
  import opened Sequences

  const BYTES_PER_FRAME := 4096
  /** 128 GiB of frames. */
  const FRAME_COUNT := 0x200_0000
  const BITS_PER_LINE := 64

  /** n frames from `start` on set to `used`. */
  function Marked(bits: seq<bool>, start: nat, n: nat, used: bool): (r: seq<bool>)
    requires start + n <= |bits|
    ensures |r| == |bits|
    ensures forall f :: 0 <= f < |bits| ==> r[f] == if start <= f < start + n then used else bits[f]
  {
    seq(|bits|, f requires 0 <= f < |bits| => if start <= f < start + n then used else bits[f])
  }

  /** n frames from `start` on are free and end before `end`. */
  predicate FreeRun(bits: seq<bool>, start: nat, n: nat, end: nat)
    requires end <= |bits|
  {
    (n == 0 || start + n <= end) && forall f :: start <= f < start + n ==> !bits[f]
  }

  /** `start` is the lowest start of a free run from `begin` on. */
  ghost predicate FirstFit(bits: seq<bool>, begin: nat, end: nat, n: nat, start: nat)
    requires end <= |bits|
  {
    && begin <= start && FreeRun(bits, start, n, end)
    && forall s :: begin <= s < start ==> !FreeRun(bits, s, n, end)
  }

  ghost predicate NoFit(bits: seq<bool>, begin: nat, end: nat, n: nat)
    requires end <= |bits|
  {
    forall s :: begin <= s ==> !FreeRun(bits, s, n, end)
  }

  /** A used frame rules out every start before it from which the run would
      reach it. */
  lemma UsedRulesOut(bits: seq<bool>, end: nat, n: nat, start: nat, used: nat)
    requires end <= |bits| && start <= used < start + n && (used >= end || bits[used])
    ensures forall s :: start <= s <= used ==> !FreeRun(bits, s, n, end)
  {
    forall s | start <= s <= used
      ensures !FreeRun(bits, s, n, end)
    {
      assert used < end ==> bits[used];
    }
  }

  function Count(bits: seq<bool>): nat {
    if bits == [] then 0 else Count(bits[..|bits| - 1]) + if bits[|bits| - 1] then 1 else 0
  }

  lemma {:induction false} CountSet(bits: seq<bool>, f: nat, used: bool)
    requires f < |bits|
    ensures Count(bits[f := used]) + (if bits[f] then 1 else 0) == Count(bits) + (if used then 1 else 0)
  {
    var last := |bits| - 1;
    if f < last {
      assert bits[f := used][..last] == bits[..last][f := used];
      CountSet(bits[..last], f, used);
    } else {
      assert bits[f := used][..last] == bits[..last];
    }
  }

  lemma {:induction false} CountMarked(bits: seq<bool>, start: nat, n: nat, used: bool)
    requires start + n <= |bits| && forall f :: start <= f < start + n ==> bits[f] == !used
    ensures Count(Marked(bits, start, n, used)) == if used then Count(bits) + n else Count(bits) - n
  {
    if n == 0 {
      assert Marked(bits, start, n, used) == bits;
    } else {
      CountMarked(bits, start, n - 1, used);
      var m := Marked(bits, start, n - 1, used);
      CountSet(m, start + n - 1, used);
      assert Marked(bits, start, n, used) == m[start + n - 1 := used];
    }
  }

  // Runs of Allocate and matching Free

  datatype Block = Block(start: nat, frames: nat) {
    predicate Has(f: nat) {
      start <= f < start + frames
    }
  }

  /** `live` are the blocks allocated and not yet freed. */
  datatype State = State(bits: seq<bool>, live: seq<Block>)

  datatype Op = Allocate(n: nat) | Free(index: nat)

  /** What one operation may do; a failed allocation changes nothing. */
  ghost predicate Step(s: State, op: Op, r: State, begin: nat, end: nat)
    requires begin <= end <= |s.bits|
  {
    match op
    case Allocate(n) =>
      if NoFit(s.bits, begin, end, n) then r == s
      else
        exists start: nat :: FirstFit(s.bits, begin, end, n, start)
          && start + n <= |s.bits| && r == State(Marked(s.bits, start, n, true), s.live + [Block(start, n)])
    case Free(i) =>
      && i < |s.live| && s.live[i].start + s.live[i].frames <= |s.bits|
      && r == State(Marked(s.bits, s.live[i].start, s.live[i].frames, false), s.live[..i] + s.live[i + 1..])
  }

  function Total(live: seq<Block>): nat {
    if live == [] then 0 else Total(live[..|live| - 1]) + live[|live| - 1].frames
  }

  ghost predicate Disjoint(live: seq<Block>) {
    forall i, j, f: nat :: 0 <= i < j < |live| && live[i].Has(f) ==> !live[j].Has(f)
  }

  /** Live blocks are disjoint and lie in frames that were free at first; a frame
      is used iff it was at first or a live block has it. */
  ghost predicate Inv(first: seq<bool>, s: State) {
    && |s.bits| == |first| && Disjoint(s.live)
    && (forall i :: 0 <= i < |s.live| ==> Lies(first, s.live[i]))
    && (forall f :: 0 <= f < |first| ==> (s.bits[f] <==> first[f] || Owned(s.live, f)))
    && Count(s.bits) == Count(first) + Total(s.live)
  }

  ghost predicate Lies(first: seq<bool>, b: Block) {
    b.start + b.frames <= |first| && forall f: nat :: b.Has(f) ==> !first[f]
  }

  ghost predicate Owned(live: seq<Block>, f: nat) {
    exists i :: 0 <= i < |live| && live[i].Has(f)
  }

  lemma InvAtFirst(first: seq<bool>)
    ensures Inv(first, State(first, []))
  {
  }

  lemma MoreOwned(live: seq<Block>, b: Block, f: nat)
    ensures Owned(live + [b], f) <==> Owned(live, f) || b.Has(f)
  {
    var more := live + [b];
    if Owned(live, f) {
      var i :| 0 <= i < |live| && live[i].Has(f);
      assert more[i].Has(f);
    }
    if b.Has(f) {
      assert more[|live|].Has(f);
    }
  }

  lemma MoreDisjoint(first: seq<bool>, s: State, b: Block)
    requires Inv(first, s) && b.start + b.frames <= |first| && forall f: nat :: b.Has(f) ==> !s.bits[f]
    ensures Disjoint(s.live + [b]) && Lies(first, b)
  {
    forall i, f: nat | 0 <= i < |s.live| && s.live[i].Has(f)
      ensures !b.Has(f)
    {
      assert Lies(first, s.live[i]) && Owned(s.live, f);
    }
  }

  lemma AllocateKeeps(first: seq<bool>, s: State, n: nat, start: nat)
    requires Inv(first, s) && FreeRun(s.bits, start, n, |first|) && start + n <= |first|
    ensures Inv(first, State(Marked(s.bits, start, n, true), s.live + [Block(start, n)]))
  {
    var b := Block(start, n);
    var r, more := Marked(s.bits, start, n, true), s.live + [b];
    CountMarked(s.bits, start, n, true);
    assert more[..|s.live|] == s.live && Total(more) == Total(s.live) + n;
    MoreDisjoint(first, s, b);
    hide Disjoint, Lies, Owned, Total, Count;
    forall f | 0 <= f < |first|
      ensures r[f] <==> first[f] || Owned(more, f)
    {
      MoreOwned(s.live, b, f);
    }
  }

  lemma {:induction false} TotalRemoved(live: seq<Block>, i: nat)
    requires i < |live|
    ensures Total(live) == Total(Without(live, i)) + live[i].frames
  {
    var last := |live| - 1;
    if i == last {
      assert Without(live, i) == live[..last];
    } else {
      TotalRemoved(live[..last], i);
      assert Without(live, i)[..last - 1] == Without(live[..last], i);
    }
  }

  lemma FreeOwned(live: seq<Block>, i: nat, f: nat)
    requires i < |live| && Disjoint(live)
    ensures Owned(Without(live, i), f) <==> Owned(live, f) && !live[i].Has(f)
  {
    var r := Without(live, i);
    if Owned(r, f) {
      var j :| 0 <= j < |r| && r[j].Has(f);
      assert live[if j < i then j else j + 1].Has(f);
    }
    if Owned(live, f) && !live[i].Has(f) {
      var j :| 0 <= j < |live| && live[j].Has(f);
      assert r[if j < i then j else j - 1] == live[j];
    }
  }

  lemma FreeDisjoint(live: seq<Block>, i: nat)
    requires i < |live| && Disjoint(live)
    ensures Disjoint(Without(live, i))
  {
    var r := Without(live, i);
    assert forall j :: 0 <= j < |r| ==> r[j] == live[if j < i then j else j + 1];
  }

  lemma FreeKeeps(first: seq<bool>, s: State, i: nat)
    requires Inv(first, s) && i < |s.live|
    ensures Lies(first, s.live[i])
    ensures Inv(first, State(Marked(s.bits, s.live[i].start, s.live[i].frames, false), Without(s.live, i)))
  {
    var b := s.live[i];
    assert Lies(first, b);
    forall f | b.start <= f < b.start + b.frames
      ensures s.bits[f]
    {
      assert b.Has(f) && Owned(s.live, f);
    }
    CountMarked(s.bits, b.start, b.frames, false);
    TotalRemoved(s.live, i);
    FreeDisjoint(s.live, i);
    var r := Marked(s.bits, b.start, b.frames, false);
    forall f | 0 <= f < |first|
      ensures r[f] <==> first[f] || Owned(Without(s.live, i), f)
    {
      FreeOwned(s.live, i, f);
    }
    assert forall j :: 0 <= j < |s.live| - 1 ==> Without(s.live, i)[j] == s.live[if j < i then j else j + 1];
  }

  lemma StepKeeps(first: seq<bool>, s: State, op: Op, r: State, begin: nat, end: nat)
    requires Inv(first, s) && begin <= end <= |s.bits| && Step(s, op, r, begin, end)
    ensures Inv(first, r)
  {
    match op
    case Allocate(n) =>
      if !NoFit(s.bits, begin, end, n) {
        var start: nat :| FirstFit(s.bits, begin, end, n, start)
          && start + n <= |s.bits| && r == State(Marked(s.bits, start, n, true), s.live + [Block(start, n)]);
        hide Inv;
        AllocateKeeps(first, s, n, start);
      }
    case Free(i) =>
      FreeKeeps(first, s, i);
      hide Inv;
  }

  /** A run is given by its states; the manager's range stays what it is. */
  ghost predicate IsRun(states: seq<State>, ops: seq<Op>, begin: nat, end: nat) {
    && |states| == |ops| + 1
    && (ops == [] ||
        var n := |ops| - 1;
        IsRun(states[..|ops|], ops[..n], begin, end) && begin <= end <= |states[n].bits|
        && Step(states[n], ops[n], states[n + 1], begin, end))
  }

  /** In any run of allocations and matching frees, live blocks are pairwise
      disjoint and consist of frames that were free at first, and the number of
      used frames is that at first plus the live ones: none is lost or doubled.
      When every block was freed, the frames are what they were at first. */
  lemma {:induction false} RunDisjoint(first: seq<bool>, states: seq<State>, ops: seq<Op>, begin: nat, end: nat)
    requires IsRun(states, ops, begin, end) && states[0] == State(first, [])
    ensures Inv(first, states[|ops|])
    ensures states[|ops|].live == [] ==> states[|ops|].bits == first
    decreases |ops|
  {
    if ops == [] {
      InvAtFirst(first);
    } else {
      var n := |ops| - 1;
      hide Step;
      RunDisjoint(first, states[..|ops|], ops[..n], begin, end);
      StepKeeps(first, states[n], ops[n], states[n + 1], begin, end);
    }
  }
}
