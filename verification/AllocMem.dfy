/** The allocator of the USB driver (kernel/usb/memory.cpp, kernel/usb/memory.hpp). */
module UsbMemory {
  import opened Wrappers

  /** `x & ~m` on numbers of any width. */
  function AndNot(x: nat, m: nat): (r: nat)
    ensures x - m <= r <= x
  {
    if x == 0 then 0 else 2 * AndNot(x / 2, m / 2) + (if m % 2 == 0 then x % 2 else 0)
  }

  /** The mask form of rounding up. */
  function Ceil(value: nat, alignment: nat): (r: nat)
    requires alignment > 0
    ensures value <= r < value + alignment
  {
    AndNot(value + alignment - 1, alignment - 1)
  }

  function Pow2(k: nat): (p: nat)
    ensures p > 0
  {
    if k == 0 then 1 else 2 * Pow2(k - 1)
  }

  ghost predicate IsPow2(a: nat) {
    exists k: nat :: a == Pow2(k)
  }

  /** The q-th multiple of a. */
  function Times(q: nat, a: nat): nat {
    if q == 0 then 0 else Times(q - 1, a) + a
  }

  ghost predicate Divides(a: nat, x: nat) {
    exists q: nat :: x == Times(q, a)
  }

  /** `r` is the least multiple of `a` that is not below `v`. */
  ghost predicate LeastMultiple(r: nat, v: nat, a: nat) {
    Divides(a, r) && v <= r && forall m: nat :: Divides(a, m) && v <= m ==> r <= m
  }

  lemma {:induction false} TimesGrow(q: nat, p: nat, a: nat)
    requires p < q
    ensures Times(p, a) + a <= Times(q, a)
  {
    if p < q - 1 {
      TimesGrow(q - 1, p, a);
    }
  }

  lemma {:induction false} TimesDouble(q: nat, a: nat)
    ensures Times(q, 2 * a) == 2 * Times(q, a)
  {
    if q > 0 {
      TimesDouble(q - 1, a);
    }
  }

  function Shift(x: nat, k: nat): nat {
    if k == 0 then x else Shift(x / 2, k - 1)
  }

  lemma {:induction false} AndNothing(x: nat)
    ensures AndNot(x, 0) == x
  {
    if x > 0 {
      AndNothing(x / 2);
    }
  }

  lemma {:induction false} TimesOne(q: nat)
    ensures Times(q, 1) == q
  {
    if q > 0 {
      TimesOne(q - 1);
    }
  }

  /** Clearing the low k bits leaves a multiple of the k-th power of two. */
  lemma {:induction false} ClearLow(x: nat, k: nat)
    ensures AndNot(x, Pow2(k) - 1) == Times(Shift(x, k), Pow2(k))
  {
    if k == 0 {
      AndNothing(x);
      TimesOne(x);
    } else {
      ClearLow(x / 2, k - 1);
      TimesDouble(Shift(x, k), Pow2(k - 1));
      ClearStep(x, Pow2(k - 1));
    }
  }

  lemma ClearStep(x: nat, p: nat)
    requires p > 0
    ensures AndNot(x, 2 * p - 1) == 2 * AndNot(x / 2, p - 1)
  {
    assert (2 * p - 1) / 2 == p - 1 && (2 * p - 1) % 2 == 1;
  }

  lemma MultiplesApart(a: nat, r: nat, m: nat)
    requires Divides(a, r) && Divides(a, m) && m < r
    ensures m + a <= r
  {
    var q: nat :| r == Times(q, a);
    var p: nat :| m == Times(p, a);
    if p < q {
      TimesGrow(q, p, a);
    } else if q < p {
      TimesGrow(p, q, a);
    }
  }

  lemma CeilOfPow2(v: nat, a: nat)
    requires IsPow2(a)
    ensures a > 0 && LeastMultiple(Ceil(v, a), v, a)
  {
    var k: nat :| a == Pow2(k);
    ClearLow(v + a - 1, k);
    var r := Ceil(v, a);
    assert Divides(a, r);
    forall m: nat | Divides(a, m) && v <= m
      ensures r <= m
    {
      if m < r {
        MultiplesApart(a, r, m);
      }
    }
  }

  /** No cleared bit remains. */
  lemma {:induction false} AndNotSelf(x: nat, m: nat)
    requires AndNot(x, m) == m
    ensures m == 0
  {
    if x > 0 && m > 0 {
      AndNotSelf(x / 2, m / 2);
    }
  }

  /** Rounding never ends at the alignment itself unless that is a power of two. */
  lemma {:induction false} NeverItself(x: nat, m: nat)
    requires AndNot(x, m) == m + 1
    ensures IsPow2(m + 1)
  {
    hide Pow2;
    if m == 0 {
      Pow2Zero();
    } else if m % 2 == 1 {
      assert (m + 1) / 2 == m / 2 + 1;
      NeverItself(x / 2, m / 2);
      DoublePow2(m / 2 + 1);
      assert 2 * (m / 2 + 1) == m + 1;
    } else {
      AndNotSelf(x / 2, m / 2);
    }
  }

  lemma Pow2Zero()
    ensures IsPow2(1)
  {
    assert 1 == Pow2(0);
  }

  lemma DoublePow2(b: nat)
    requires IsPow2(b)
    ensures IsPow2(2 * b)
  {
    var k: nat :| b == Pow2(k);
    assert 2 * b == Pow2(k + 1);
  }

  /** The mask form rounds up to the next multiple for every value exactly when
      the alignment is a power of two. */
  lemma CeilExact(a: nat)
    requires a > 0
    ensures IsPow2(a) <==> forall v: nat :: LeastMultiple(Ceil(v, a), v, a)
  {
    if IsPow2(a) {
      forall v: nat
        ensures LeastMultiple(Ceil(v, a), v, a)
      {
        CeilOfPow2(v, a);
      }
    }
    if forall v: nat :: LeastMultiple(Ceil(v, a), v, a) {
      assert LeastMultiple(Ceil(a, a), a, a);
      assert a == Times(1, a);
      assert Divides(a, a);
      NeverItself(2 * a - 1, a - 1);
    }
  }

  // Allocation

  const POOL_SIZE := 4096 * 32
  const ADDRESS_LIMIT := 0x1_0000_0000_0000_0000

  /** No multiple of `boundary` lies inside the block. */
  ghost predicate CrossesNone(start: nat, size: nat, boundary: nat) {
    forall m: nat :: Divides(boundary, m) ==> m <= start || start + size <= m
  }

  lemma {:induction false} TimesOfTimes(q: nat, p: nat, a: nat)
    ensures Divides(a, Times(q, Times(p, a)))
  {
    if q == 0 {
      assert Times(0, a) == 0;
    } else {
      TimesOfTimes(q - 1, p, a);
      var n: nat :| Times(q - 1, Times(p, a)) == Times(n, a);
      TimesSum(n, p, a);
    }
  }

  lemma {:induction false} TimesSum(n: nat, p: nat, a: nat)
    ensures Times(n + p, a) == Times(n, a) + Times(p, a)
  {
    if p > 0 {
      TimesSum(n, p - 1, a);
    }
  }

  lemma {:induction false} Pow2Divides(i: nat, j: nat)
    requires i <= j
    ensures Divides(Pow2(i), Pow2(j))
  {
    if i == j {
      assert Times(1, Pow2(i)) == Times(0, Pow2(i)) + Pow2(i);
    } else {
      Pow2Divides(i, j - 1);
      var p: nat :| Pow2(j - 1) == Times(p, Pow2(i));
      TimesSum(p, p, Pow2(i));
    }
  }

  lemma DividesDown(i: nat, j: nat, x: nat)
    requires i <= j && Divides(Pow2(j), x)
    ensures Divides(Pow2(i), x)
  {
    Pow2Divides(i, j);
    var p: nat :| Pow2(j) == Times(p, Pow2(i));
    var q: nat :| x == Times(q, Pow2(j));
    TimesOfTimes(q, p, Pow2(i));
  }

  /** The start of the next block. */
  function Start(ptr: nat, size: nat, alignment: nat, boundary: nat): (p: nat)
    ensures ptr <= p
  {
    var a := if alignment > 0 then Ceil(ptr, alignment) else ptr;
    if boundary > 0 && Ceil(a, boundary) < a + size then Ceil(a, boundary) else a
  }

  lemma StartFits(ptr: nat, size: nat, alignment: nat, boundary: nat)
    requires boundary > 0 && IsPow2(boundary) && size <= boundary
    ensures CrossesNone(Start(ptr, size, alignment, boundary), size, boundary)
  {
    var a := if alignment > 0 then Ceil(ptr, alignment) else ptr;
    var next := Ceil(a, boundary);
    CeilOfPow2(a, boundary);
    forall m: nat | Divides(boundary, m)
      ensures m <= Start(ptr, size, alignment, boundary) || Start(ptr, size, alignment, boundary) + size <= m
    {
      if next < a + size && next < m {
        MultiplesApart(boundary, m, next);
      }
    }
  }

  lemma StartAligned(ptr: nat, size: nat, alignment: nat, boundary: nat)
    requires IsPow2(alignment) && (boundary == 0 || IsPow2(boundary))
    ensures Divides(alignment, Start(ptr, size, alignment, boundary))
  {
    CeilOfPow2(ptr, alignment);
    var a := Ceil(ptr, alignment);
    if boundary > 0 {
      CeilOfPow2(a, boundary);
      var next := Ceil(a, boundary);
      var i: nat :| alignment == Pow2(i);
      var j: nat :| boundary == Pow2(j);
      hide Ceil, Pow2, Divides;
      if i <= j {
        DividesDown(i, j, next);
      } else {
        DividesDown(j, i, a);
      }
    }
  }

  /** 0 asks for no alignment, or for no boundary. */
  datatype Request = Request(size: nat, alignment: nat, boundary: nat)

  /** The block that is returned when the pointer is at `ptr`, if any. */
  function Returned(pool: nat, ptr: nat, r: Request): Option<nat> {
    var start := Start(ptr, r.size, r.alignment, r.boundary);
    if pool + POOL_SIZE < start + r.size then None else Some(start)
  }

  class MemoryPool {
    /** The address of the pool's array. */
    const pool: nat
    var allocPtr: nat

    /** Nothing ends behind the pool, though the next start may lie there. */
    constructor (pool: nat)
      ensures this.pool == pool && allocPtr == pool
    {
      this.pool, allocPtr := pool, pool;
    }

    /** A block, or none if it would not end in the pool; a failure may still
        move the start. The sums do not leave the 64-bit range. */
    method AllocMem(size: nat, alignment: nat, boundary: nat) returns (p: Option<nat>)
      requires allocPtr + size + alignment + boundary < ADDRESS_LIMIT
      modifies `allocPtr
      ensures
        var start := Start(old(allocPtr), size, alignment, boundary);
        if pool + POOL_SIZE < start + size then p == None && allocPtr == start
        else p == Some(start) && allocPtr == start + size
      ensures p == Returned(pool, old(allocPtr), Request(size, alignment, boundary))
    {
      if alignment > 0 {
        allocPtr := Ceil(allocPtr, alignment);
      }
      if boundary > 0 {
        var nextBoundary := Ceil(allocPtr, boundary);
        if nextBoundary < allocPtr + size {
          allocPtr := nextBoundary;
        }
      }
      if pool + POOL_SIZE < allocPtr + size {
        return None;
      }
      p := Some(allocPtr);
      allocPtr := allocPtr + size;
    }
  }

  // Runs

  datatype Block = Block(start: nat, request: Request) {
    function End(): nat {
      start + request.size
    }
  }

  /** The pointer and the blocks after a run of requests, whatever their
      alignments and boundaries. */
  datatype Pool = Pool(ptr: nat, blocks: seq<Block>)

  function Allocated(pool: nat, s: Pool, r: Request): Pool {
    var start := Start(s.ptr, r.size, r.alignment, r.boundary);
    if Returned(pool, s.ptr, r) == None then s.(ptr := start)
    else Pool(start + r.size, s.blocks + [Block(start, r)])
  }

  function RunRequests(pool: nat, rs: seq<Request>): Pool {
    if rs == [] then Pool(pool, []) else Allocated(pool, RunRequests(pool, rs[..|rs| - 1]), rs[|rs| - 1])
  }

  /** Blocks follow each other in the pool, so no two overlap. */
  lemma {:induction false} BlocksDisjoint(pool: nat, rs: seq<Request>)
    ensures
      var s := RunRequests(pool, rs);
      && pool <= s.ptr
      && (forall i :: 0 <= i < |s.blocks| ==>
            pool <= s.blocks[i].start && s.blocks[i].End() <= pool + POOL_SIZE && s.blocks[i].End() <= s.ptr)
      && forall i, j :: 0 <= i < j < |s.blocks| ==> s.blocks[i].End() <= s.blocks[j].start
  {
    if rs != [] {
      BlocksDisjoint(pool, rs[..|rs| - 1]);
    }
  }

  // The promise of the header

  /** What the header promises of every block. */
  ghost predicate Promised(p: nat, size: nat, alignment: nat, boundary: nat) {
    && (alignment > 0 ==> Divides(alignment, p))
    && (boundary > 0 && size <= boundary ==> CrossesNone(p, size, boundary))
  }

  /** After the run the block that is returned for `r`, if any, is as promised. */
  ghost predicate PromisedAfter(pool: nat, rs: seq<Request>, r: Request) {
    match Returned(pool, RunRequests(pool, rs).ptr, r)
    case None => true
    case Some(p) => Promised(p, r.size, r.alignment, r.boundary)
  }

  ghost predicate Regular(a: nat) {
    a == 0 || IsPow2(a)
  }

  lemma StartPromised(ptr: nat, r: Request)
    requires Regular(r.alignment) && Regular(r.boundary)
    ensures Promised(Start(ptr, r.size, r.alignment, r.boundary), r.size, r.alignment, r.boundary)
  {
    if r.alignment > 0 {
      StartAligned(ptr, r.size, r.alignment, r.boundary);
    }
    if r.boundary > 0 && r.size <= r.boundary {
      StartFits(ptr, r.size, r.alignment, r.boundary);
    }
  }

  /** No start from the pointer on that would be as promised lies before the one
      chosen; a block larger than its boundary starts at one. */
  lemma StartLeast(ptr: nat, r: Request, p: nat)
    requires Regular(r.alignment) && Regular(r.boundary)
    ensures r.boundary > 0 && r.size > r.boundary ==>
      Divides(r.boundary, Start(ptr, r.size, r.alignment, r.boundary))
    ensures ptr <= p && Promised(p, r.size, r.alignment, r.boundary) && (r.boundary > 0 ==> r.size <= r.boundary) ==>
      Start(ptr, r.size, r.alignment, r.boundary) <= p
  {
    hide Ceil;
    var a := if r.alignment > 0 then Ceil(ptr, r.alignment) else ptr;
    if r.alignment > 0 {
      CeilOfPow2(ptr, r.alignment);
    }
    if r.boundary > 0 {
      CeilOfPow2(a, r.boundary);
      CeilNear(a, r.boundary);
    }
  }

  lemma CeilNear(v: nat, a: nat)
    requires a > 0
    ensures v <= Ceil(v, a) < v + a
  {
  }

  /** With powers of two or 0 a block is refused exactly when none that would be as
      promised fits between the pointer and the end of the pool. */
  lemma RefusedExact(pool: nat, ptr: nat, r: Request)
    requires Regular(r.alignment) && Regular(r.boundary) && (r.boundary > 0 ==> r.size <= r.boundary)
    ensures Returned(pool, ptr, r) == None <==>
      forall p: nat :: ptr <= p && Promised(p, r.size, r.alignment, r.boundary) ==> pool + POOL_SIZE < p + r.size
  {
    StartPromised(ptr, r);
    forall p: nat | ptr <= p && Promised(p, r.size, r.alignment, r.boundary)
      ensures Start(ptr, r.size, r.alignment, r.boundary) <= p
    {
      StartLeast(ptr, r, p);
    }
    hide Start, Promised;
  }

  /** As promised, if alignment and boundary are powers of two or 0. */
  ghost predicate Kept(b: Block) {
    Regular(b.request.alignment) && Regular(b.request.boundary) ==>
      Promised(b.start, b.request.size, b.request.alignment, b.request.boundary)
  }

  /** In every run the blocks whose alignment and boundary are powers of two or 0
      are as promised, whatever the other requests ask for. */
  lemma {:induction false} RunPromised(pool: nat, rs: seq<Request>)
    ensures forall i :: 0 <= i < |RunRequests(pool, rs).blocks| ==> Kept(RunRequests(pool, rs).blocks[i])
  {
    hide Kept, Start;
    if rs != [] {
      var before, r := rs[..|rs| - 1], rs[|rs| - 1];
      RunPromised(pool, before);
      var was, now := RunRequests(pool, before), RunRequests(pool, rs);
      StartKept(was.ptr, r);
      forall i | 0 <= i < |now.blocks|
        ensures Kept(now.blocks[i])
      {
        if i < |was.blocks| {
          assert now.blocks[i] == was.blocks[i];
        } else {
          assert now.blocks[i] == Block(Start(was.ptr, r.size, r.alignment, r.boundary), r);
        }
      }
    }
  }

  lemma StartKept(ptr: nat, r: Request)
    ensures Kept(Block(Start(ptr, r.size, r.alignment, r.boundary), r))
  {
    if Regular(r.alignment) && Regular(r.boundary) {
      StartPromised(ptr, r);
    }
  }

  /** One request without alignment and boundary moves the pointer anywhere in
      the pool. */
  lemma Anywhere(pool: nat, s: nat)
    requires s <= POOL_SIZE
    ensures RunRequests(pool, [Request(s, 0, 0)]).ptr == pool + s
  {
    var rs := [Request(s, 0, 0)];
    assert rs[..0] == [];
    assert RunRequests(pool, rs[..0]).ptr == pool;
  }

  lemma {:induction false} MaskAbove(q: nat, n: nat, m: nat)
    requires m < Pow2(n)
    ensures AndNot(Times(q, Pow2(n)) + m, m) == Times(q, Pow2(n))
  {
    hide Times;
    if n == 0 {
      AndNothing(Times(q, Pow2(0)));
    } else {
      var t := Times(q, Pow2(n - 1));
      TimesDouble(q, Pow2(n - 1));
      assert (2 * t + m) / 2 == t + m / 2 && (2 * t + m) % 2 == m % 2;
      MaskAbove(q, n - 1, m / 2);
    }
  }

  /** Multiples of a larger power of two stay where they are. */
  lemma CeilOfMultiple(q: nat, n: nat, a: nat)
    requires 0 < a <= Pow2(n)
    ensures Ceil(Times(q, Pow2(n)), a) == Times(q, Pow2(n))
  {
    MaskAbove(q, n, a - 1);
  }

  lemma {:induction false} NextPow2(a: nat) returns (n: nat)
    requires a > 0
    ensures a <= Pow2(n) < 2 * a
  {
    assert Pow2(0) == 1;
    hide Pow2;
    if a == 1 {
      n := 0;
    } else {
      n := NextPow2((a + 1) / 2);
      n := n + 1;
      Pow2Step(n);
    }
  }

  lemma Pow2Step(n: nat)
    requires n > 0
    ensures Pow2(n) == 2 * Pow2(n - 1)
  {
  }

  lemma TimesHalf(q: nat, b: nat)
    ensures q % 2 == 0 ==> Times(q, b) == 2 * Times(q / 2, b)
    ensures q % 2 == 1 && Times(q, b) % 2 == 0 ==> b % 2 == 0 && Times(q, b) == 2 * Times(q, b / 2)
  {
    hide Times;
    if q % 2 == 0 {
      assert q / 2 + q / 2 == q;
      TimesSum(q / 2, q / 2, b);
    } else {
      OddTimes(q, b);
      if b % 2 == 0 {
        assert b == 2 * (b / 2);
        TimesDouble(q, b / 2);
      }
    }
  }

  /** Only powers of two divide a power of two. */
  lemma {:induction false} DivisorOfPow2(n: nat, q: nat, b: nat)
    requires Pow2(n) == Times(q, b)
    ensures IsPow2(b)
    decreases n
  {
    if n == 0 {
      DivisorOfOne(q, b);
    } else {
      hide Times, Pow2, IsPow2;
      Pow2Step(n);
      TimesHalf(q, b);
      if q % 2 == 0 {
        DivisorOfPow2(n - 1, q / 2, b);
      } else {
        DivisorOfPow2(n - 1, q, b / 2);
        DoublePow2(b / 2);
        assert 2 * (b / 2) == b;
      }
    }
  }

  lemma DivisorOfOne(q: nat, b: nat)
    requires Times(q, b) == 1
    ensures IsPow2(b)
  {
    if q > 0 {
      TimesAtLeast(q, b);
    }
    if b == 0 {
      TimesZero(q);
    }
    Pow2Zero();
  }

  lemma {:induction false} TimesZero(q: nat)
    ensures Times(q, 0) == 0
  {
    if q > 0 {
      TimesZero(q - 1);
    }
  }

  lemma TimesAtLeast(q: nat, b: nat)
    requires q > 0
    ensures Times(q, b) >= b
  {
  }

  lemma {:induction false} OddTimes(q: nat, b: nat)
    requires q % 2 == 1
    ensures Times(q, b) % 2 == b % 2
  {
    if q > 1 {
      OddTimes(q - 2, b);
      assert Times(q, b) == Times(q - 2, b) + b + b;
    }
  }

  lemma {:induction false} NextMultiple(p: nat, b: nat) returns (q: nat)
    requires b > 0
    ensures p <= Times(q, b) < p + b
  {
    if p == 0 {
      q := 0;
    } else {
      q := NextMultiple(p - 1, b);
      if Times(q, b) < p {
        q := q + 1;
      }
    }
  }

  /** Of two multiples that lie next to each other one is no multiple of `a`. */
  lemma OneMisses(p: nat, n: nat, a: nat) returns (q: nat)
    requires !IsPow2(a)
    ensures p <= Times(q, Pow2(n)) < p + 2 * Pow2(n) && !Divides(a, Times(q, Pow2(n)))
  {
    hide Pow2, IsPow2;
    q := NextMultiple(p, Pow2(n));
    var x := Times(q, Pow2(n));
    assert Times(q + 1, Pow2(n)) == x + Pow2(n);
    if Divides(a, x) {
      if Divides(a, x + Pow2(n)) {
        var i: nat :| x + Pow2(n) == Times(i, a);
        var j: nat :| x == Times(j, a);
        NotBoth(n, i, j, a);
      }
      q := q + 1;
    }
  }

  lemma NotBoth(n: nat, i: nat, j: nat, a: nat)
    requires Times(i, a) == Times(j, a) + Pow2(n)
    ensures IsPow2(a)
  {
    hide Times, Pow2, IsPow2;
    if i <= j {
      TimesSum(i, j - i, a);
      assert false;
    } else {
      TimesSum(j, i - j, a);
      assert j + (i - j) == i;
      DivisorOfPow2(n, i - j, a);
    }
  }

  /** A block as large as the boundary starts at a multiple of it. */
  lemma WholeBoundary(p: nat, b: nat)
    requires b > 0 && CrossesNone(p, b, b)
    ensures Divides(b, p)
  {
    var q := NextMultiple(p, b);
    assert Divides(b, Times(q, b));
  }

  /** Wherever the pool lies, an alignment that is no power of two and less than
      a quarter of the pool gets an unaligned block of one byte. */
  lemma AlignmentBreaks(pool: nat, a: nat, boundary: nat) returns (s: nat)
    requires 0 < a && !IsPow2(a) && 4 * a < POOL_SIZE
    ensures s < POOL_SIZE && !PromisedAfter(pool, [Request(s, 0, 0)], Request(1, a, boundary))
  {
    hide Ceil, Pow2, Times, IsPow2, Divides, CrossesNone;
    var n := NextPow2(a);
    var q := OneMisses(pool, n, a);
    var x := Times(q, Pow2(n));
    s := x - pool;
    Anywhere(pool, s);
    CeilOfMultiple(q, n, a);
    assert Start(x, 1, a, boundary) == x;
  }

  /** And a boundary that is no power of two and less than a fifth of the pool
      is crossed by a block of its size. */
  lemma BoundaryBreaks(pool: nat, alignment: nat, b: nat) returns (s: nat)
    requires 0 < b && !IsPow2(b) && 5 * b < POOL_SIZE && Regular(alignment) && 4 * alignment < POOL_SIZE
    ensures s < POOL_SIZE && !PromisedAfter(pool, [Request(s, 0, 0)], Request(b, alignment, b))
  {
    hide Ceil, Pow2, Times, IsPow2, Divides, CrossesNone;
    var n := NextPow2(b);
    if Pow2(n) < alignment {
      n := ExponentOf(alignment);
    }
    var q := OneMisses(pool, n, b);
    var x := Times(q, Pow2(n));
    s := x - pool;
    Anywhere(pool, s);
    CeilOfMultiple(q, n, b);
    if alignment > 0 {
      CeilOfMultiple(q, n, alignment);
    }
    assert Start(x, b, alignment, b) == x;
    if CrossesNone(x, b, b) {
      WholeBoundary(x, b);
    }
  }

  lemma ExponentOf(a: nat) returns (n: nat)
    requires IsPow2(a)
    ensures a == Pow2(n)
  {
    n :| a == Pow2(n);
  }

  /** Wherever the pool lies, the promise is kept for all blocks of all runs
      exactly when alignment and boundary are powers of two or 0. */
  lemma PromiseExact(pool: nat, alignment: nat, boundary: nat)
    requires 4 * alignment < POOL_SIZE && 5 * boundary < POOL_SIZE
    ensures Regular(alignment) && Regular(boundary) <==>
      forall rs: seq<Request>, size: nat :: PromisedAfter(pool, rs, Request(size, alignment, boundary))
  {
    if Regular(alignment) && Regular(boundary) {
      hide Regular, Start, Promised;
      forall rs: seq<Request>, size: nat
        ensures PromisedAfter(pool, rs, Request(size, alignment, boundary))
      {
        StartPromised(RunRequests(pool, rs).ptr, Request(size, alignment, boundary));
      }
    } else if !Regular(alignment) {
      hide PromisedAfter;
      var s := AlignmentBreaks(pool, alignment, boundary);
    } else {
      hide PromisedAfter;
      var s := BoundaryBreaks(pool, alignment, boundary);
    }
  }

  const UINT_LIMIT := 0x1_0000_0000

  /** An address the pool may have: `alignas(64)`. */
  predicate IsPool(pool: nat) {
    pool % 64 == 0 && pool + POOL_SIZE <= ADDRESS_LIMIT
  }

  /** An alignment of any size is kept in all pools exactly when it is a power of
      two. */
  lemma AlignmentExact(a: nat)
    requires 0 < a < UINT_LIMIT
    ensures IsPow2(a) <==>
      forall pool: nat, rs: seq<Request>, size: nat :: IsPool(pool) ==> PromisedAfter(pool, rs, Request(size, a, 0))
  {
    if IsPow2(a) {
      hide IsPow2, Start, Promised;
      forall pool: nat, rs: seq<Request>, size: nat
        ensures PromisedAfter(pool, rs, Request(size, a, 0))
      {
        StartPromised(RunRequests(pool, rs).ptr, Request(size, a, 0));
      }
    } else {
      hide PromisedAfter;
      var pool, s := SomePoolMisaligns(a);
    }
  }

  /** A pool with the next power of two near its start gives it as an unaligned
      block. */
  lemma SomePoolMisaligns(a: nat) returns (pool: nat, s: nat)
    requires 0 < a < UINT_LIMIT && !IsPow2(a)
    ensures IsPool(pool) && !PromisedAfter(pool, [Request(s, 0, 0)], Request(1, a, 0))
  {
    hide Ceil, Pow2, Times, IsPow2, Divides;
    var n := NextPow2(a);
    var x := Pow2(n);
    pool, s := x - x % 64, x % 64;
    Anywhere(pool, s);
    assert Times(1, x) == x by {
      TimesOnce(x);
    }
    CeilOfMultiple(1, n, a);
    if Divides(a, x) {
      DividesPow2(n, a);
    }
  }

  lemma DividesPow2(n: nat, a: nat)
    requires Divides(a, Pow2(n))
    ensures IsPow2(a)
  {
    var q: nat :| Pow2(n) == Times(q, a);
    DivisorOfPow2(n, q, a);
  }

  lemma TimesOnce(x: nat)
    ensures Times(1, x) == x
  {
    assert Times(0, x) == 0;
  }

  /** A boundary of any size is kept in all pools exactly when it is a power of
      two. */
  lemma BoundaryExact(b: nat)
    requires 0 < b < UINT_LIMIT
    ensures IsPow2(b) <==>
      forall pool: nat, rs: seq<Request>, size: nat :: IsPool(pool) ==> PromisedAfter(pool, rs, Request(size, 0, b))
  {
    if IsPow2(b) {
      hide IsPow2, Start, Promised;
      forall pool: nat, rs: seq<Request>, size: nat
        ensures PromisedAfter(pool, rs, Request(size, 0, b))
      {
        StartPromised(RunRequests(pool, rs).ptr, Request(size, 0, b));
      }
    } else {
      hide PromisedAfter;
      var pool, s := SomePoolCrosses(b);
    }
  }

  /** A pool with the boundary itself near its start gives a block of two bytes
      that crosses it. */
  lemma SomePoolCrosses(b: nat) returns (pool: nat, s: nat)
    requires 0 < b < UINT_LIMIT && !IsPow2(b)
    ensures IsPool(pool) && !PromisedAfter(pool, [Request(s, 0, 0)], Request(2, 0, b))
  {
    hide Pow2, Times, IsPow2, Ceil, CrossesNone;
    Pow2Zero();
    DoublePow2(1);
    assert b != 1 && b != 2;
    var x := b - 1;
    pool, s := x - x % 64, x % 64;
    Anywhere(pool, s);
    CeilMisses(x, b);
    assert Start(x, 2, 0, b) == x;
    Crossed(x, b);
  }

  lemma CeilMisses(x: nat, b: nat)
    requires 0 < b && !IsPow2(b)
    ensures Ceil(x, b) != b
  {
    if Ceil(x, b) == b {
      NeverItself(x + b - 1, b - 1);
    }
  }

  lemma Crossed(x: nat, b: nat)
    requires x + 1 == b
    ensures !CrossesNone(x, 2, b)
  {
    TimesOnce(b);
    assert Divides(b, b);
  }
}
