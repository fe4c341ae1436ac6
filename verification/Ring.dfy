/** Command and transfer rings (kernel/usb/xhci/ring.cpp): the producer. */
module Rings {

  /** A 32-bit word, as a number: a mask clears or selects binary digits. */
  type word = w: int | 0 <= w < 0x1_0000_0000

  /** Bit 0 of the control word. */
  function CycleOf(w: word): bool {
    w % 2 == 1
  }

  /** Bit 1 of the control word of a link TRB. */
  function ToggleOf(w: word): bool {
    w / 2 % 2 == 1
  }

  /** Bits 10 to 15 of the control word. */
  function TypeOf(w: word): word {
    w / 0x400 % 0x40
  }

  /** `w & 0xfffffffe`. */
  function Unstamp(w: word): word {
    w - w % 2
  }

  /** The word `CopyToLast` stores last. */
  function Stamp(w: word, cycle: bool): word {
    Unstamp(w) + (if cycle then 1 else 0)
  }

  lemma Halves(w: word)
    ensures Unstamp(w) / 2 == w / 2 && Unstamp(w) % 2 == 0
    ensures w / 0x400 == w / 2 / 0x200
  {
  }

  lemma StampHalves(w: word, cycle: bool)
    ensures Stamp(w, cycle) / 2 == w / 2 && Stamp(w, cycle) % 2 == if cycle then 1 else 0
  {
    Halves(w);
    hide Unstamp;
  }

  /** What the cycle bit is, and that it is not part of anything else. */
  lemma StampFacts(w: word, cycle: bool)
    ensures CycleOf(Stamp(w, cycle)) == cycle
    ensures Unstamp(Stamp(w, cycle)) == Unstamp(w)
    ensures Stamp(Unstamp(w), cycle) == Stamp(w, cycle)
    ensures TypeOf(Stamp(w, cycle)) == TypeOf(w) && TypeOf(Unstamp(w)) == TypeOf(w)
    ensures ToggleOf(Stamp(w, cycle)) == ToggleOf(w)
  {
    Halves(w);
    Halves(Unstamp(w));
    Halves(Stamp(w, cycle));
    StampHalves(w, cycle);
    hide Stamp, Unstamp;
    UnstampIs(w, Stamp(w, cycle));
    UnstampTwice(w, cycle);
  }

  lemma UnstampIs(w: word, v: word)
    requires w / 2 == v / 2
    ensures Unstamp(w) == Unstamp(v)
  {
  }

  lemma UnstampTwice(w: word, cycle: bool)
    ensures Stamp(Unstamp(w), cycle) == Stamp(w, cycle)
  {
    Halves(w);
    UnstampIs(Unstamp(w), w);
    hide Unstamp;
  }

  datatype Trb = Trb(w0: word, w1: word, w2: word, w3: word) {
    function Cycle(): bool {
      CycleOf(w3)
    }

    function Type(): word {
      TypeOf(w3)
    }

    /** The TRB without its cycle bit. */
    function Clean(): Trb {
      this.(w3 := Unstamp(w3))
    }

    /** The TRB as `CopyToLast` leaves it in memory. */
    function Stamped(cycle: bool): Trb {
      this.(w3 := Stamp(w3, cycle))
    }

    function Word(i: nat): word
      requires i < 4
    {
      if i == 0 then w0 else if i == 1 then w1 else if i == 2 then w2 else w3
    }

    function SetWord(i: nat, w: word): Trb
      requires i < 4
    {
      if i == 0 then this.(w0 := w)
      else if i == 1 then this.(w1 := w)
      else if i == 2 then this.(w2 := w)
      else this.(w3 := w)
    }
  }

  const ZERO_TRB := Trb(0, 0, 0, 0)

  const LINK_TYPE: word := 6

  /** Type 6 with the toggle bit. */
  const LINK_CONTROL: word := 0x1802

  /** Where the ring lies in memory, 16-byte aligned. */
  datatype Address = Address(low: word, high: word)

  /** The link TRB of `Push`, with the toggle bit. */
  function LinkTrb(base: Address): Trb {
    Trb(PointerWord(base.low), base.high, 0, LINK_CONTROL)
  }

  /** The low half of a segment pointer has its four low bits clear. */
  function PointerWord(w: word): word {
    w - w % 0x10
  }

  lemma PointerWordTwice(w: word)
    ensures PointerWord(PointerWord(w)) == PointerWord(w)
  {
  }

  /** The segment pointer of a link TRB leads to the start of the ring. */
  predicate PointsTo(t: Trb, base: Address) {
    PointerWord(t.w0) == PointerWord(base.low) && t.w1 == base.high
  }

  lemma LinkControl()
    ensures TypeOf(LINK_CONTROL) == LINK_TYPE && ToggleOf(LINK_CONTROL) && Unstamp(LINK_CONTROL) == LINK_CONTROL
  {
  }

  lemma LinkBits(base: Address)
    ensures PointsTo(LinkTrb(base), base)
    ensures LinkTrb(base).Type() == 6 == LINK_TYPE && ToggleOf(LinkTrb(base).w3)
    ensures LinkTrb(base).w3 == LINK_CONTROL && LinkTrb(base).w2 == 0
  {
    LinkControl();
    PointerWordTwice(base.low);
    hide PointerWord;
  }

  /** `t` with its first `n` words replaced by those of `d`. */
  function Partial(t: Trb, d: Trb, n: nat): Trb
    requires n <= 4
  {
    Trb(
      if n > 0 then d.w0 else t.w0, if n > 1 then d.w1 else t.w1,
      if n > 2 then d.w2 else t.w2, if n > 3 then d.w3 else t.w3)
  }

  /** One 32-bit store. */
  datatype WordWrite = WordWrite(slot: nat, word: nat, value: word)

  /** The stores of `CopyToLast`, the cycle bit last. */
  function CopyWrites(slot: nat, t: Trb, cycle: bool): (r: seq<WordWrite>)
    ensures |r| == 4
  {
    [WordWrite(slot, 0, t.w0), WordWrite(slot, 1, t.w1), WordWrite(slot, 2, t.w2),
     WordWrite(slot, 3, t.Stamped(cycle).w3)]
  }

  /** The stores of `Push`: the TRB, and the link TRB behind the last slot. */
  function PushWrites(size: nat, base: Address, slot: nat, t: Trb, cycle: bool): (r: seq<WordWrite>)
    requires slot + 1 < size
    ensures |r| == if slot + 2 == size then 8 else 4
  {
    CopyWrites(slot, t, cycle) + (if slot + 2 == size then CopyWrites(size - 1, LinkTrb(base), cycle) else [])
  }

  predicate InRange(writes: seq<WordWrite>, size: nat) {
    forall i :: 0 <= i < |writes| ==> writes[i].slot < size && writes[i].word < 4
  }

  function Store(mem: seq<Trb>, w: WordWrite): seq<Trb>
    requires w.slot < |mem| && w.word < 4
  {
    mem[w.slot := mem[w.slot].SetWord(w.word, w.value)]
  }

  function StoreAll(mem: seq<Trb>, writes: seq<WordWrite>): (r: seq<Trb>)
    requires InRange(writes, |mem|)
    ensures |r| == |mem|
  {
    if writes == [] then mem else Store(StoreAll(mem, writes[..|writes| - 1]), writes[|writes| - 1])
  }

  function NextSlot(size: nat, slot: nat): nat {
    if slot + 2 == size then 0 else slot + 1
  }

  function NextCycle(size: nat, slot: nat, cycle: bool): bool {
    if slot + 2 == size then !cycle else cycle
  }

  class Ring {
    const base: Address
    const buf: array<Trb>
    const bufSize: nat
    var cycleBit: bool
    var writeIndex: nat
    /** Every store into `buf` since the ring was set up, in order. */
    ghost var stores: seq<WordWrite>

    ghost predicate Valid()
      reads this
    {
      2 <= bufSize == buf.Length && writeIndex + 1 < bufSize
    }

    constructor (bufSize: nat, base: Address)
      requires 2 <= bufSize
      ensures Valid() && fresh(buf) && this.bufSize == bufSize && this.base == base
      ensures buf[..] == seq(bufSize, _ => ZERO_TRB) && cycleBit && writeIndex == 0 && stores == []
    {
      this.base, this.bufSize := base, bufSize;
      cycleBit := true;
      writeIndex := 0;
      stores := [];
      buf := new Trb[bufSize](_ => ZERO_TRB);
    }

    method StoreWord(word: nat, w: word)
      requires writeIndex < buf.Length && word < 4
      modifies buf, `stores
      ensures stores == old(stores) + [WordWrite(writeIndex, word, w)]
      ensures buf[..] == Store(old(buf[..]), WordWrite(writeIndex, word, w))
    {
      buf[writeIndex] := buf[writeIndex].SetWord(word, w);
      stores := stores + [WordWrite(writeIndex, word, w)];
    }

    method CopyToLast(data: Trb)
      requires writeIndex < buf.Length
      modifies buf, `stores
      ensures stores == old(stores) + CopyWrites(writeIndex, data, cycleBit)
      ensures buf[..] == old(buf[..])[writeIndex := data.Stamped(cycleBit)]
    {
      hide Stamp;
      for i := 0 to 3
        invariant stores == old(stores) + CopyWrites(writeIndex, data, cycleBit)[..i]
        invariant buf[..] == old(buf[..])[writeIndex := Partial(old(buf[writeIndex]), data, i)]
      {
        StoreWord(i, data.Word(i));
      }
      StoreWord(3, data.Stamped(cycleBit).w3);
    }

    /** Appends a TRB, in exactly the stores of `PushWrites`. */
    method Push(data: Trb) returns (slot: nat)
      requires Valid()
      modifies buf, this
      ensures Valid() && slot == old(writeIndex)
      ensures stores == old(stores) + PushWrites(bufSize, base, slot, data, old(cycleBit))
      ensures writeIndex == NextSlot(bufSize, slot) && cycleBit == NextCycle(bufSize, slot, old(cycleBit))
      ensures buf[..] == Pushed(old(buf[..]), base, slot, data, old(cycleBit))
    {
      hide Stamp, LinkTrb;
      slot := writeIndex;
      CopyToLast(data);
      ghost var m := buf[..];
      hide CopyWrites;
      writeIndex := writeIndex + 1;
      if writeIndex == bufSize - 1 {
        CopyToLast(LinkTrb(base));
        assert buf[..] == m[slot + 1 := LinkTrb(base).Stamped(cycleBit)];
        writeIndex := 0;
        cycleBit := !cycleBit;
      }
    }
  }

  /** Memory after a whole `Push`. */
  function Pushed(mem: seq<Trb>, base: Address, slot: nat, t: Trb, cycle: bool): (r: seq<Trb>)
    requires slot + 1 < |mem|
    ensures |r| == |mem|
  {
    var m := mem[slot := t.Stamped(cycle)];
    if slot + 2 == |mem| then m[slot + 1 := LinkTrb(base).Stamped(cycle)] else m
  }

  lemma {:induction false} StoreAllConcat(mem: seq<Trb>, a: seq<WordWrite>, b: seq<WordWrite>)
    requires InRange(a, |mem|) && InRange(b, |mem|)
    ensures InRange(a + b, |mem|) && StoreAll(mem, a + b) == StoreAll(StoreAll(mem, a), b)
  {
    if b == [] {
      assert a + b == a;
    } else {
      assert (a + b)[..|a + b| - 1] == a + b[..|b| - 1];
      StoreAllConcat(mem, a, b[..|b| - 1]);
    }
  }

  lemma {:induction false} CopyStoresUpTo(mem: seq<Trb>, slot: nat, t: Trb, cycle: bool, n: nat)
    requires slot < |mem| && n <= 4
    ensures InRange(CopyWrites(slot, t, cycle)[..n], |mem|)
    ensures StoreAll(mem, CopyWrites(slot, t, cycle)[..n]) == mem[slot := Partial(mem[slot], t.Stamped(cycle), n)]
  {
    hide Stamp, InRange;
    var w := CopyWrites(slot, t, cycle)[..n];
    WritesInRange(slot, t, cycle, n, |mem|);
    if n > 0 {
      CopyStoresUpTo(mem, slot, t, cycle, n - 1);
      assert w[..n - 1] == CopyWrites(slot, t, cycle)[..n - 1];
    }
  }

  lemma WritesInRange(slot: nat, t: Trb, cycle: bool, n: nat, size: nat)
    requires slot < size && n <= 4
    ensures InRange(CopyWrites(slot, t, cycle)[..n], size)
  {
    hide Stamp;
  }

  lemma CopyStores(mem: seq<Trb>, slot: nat, t: Trb, cycle: bool)
    requires slot < |mem|
    ensures InRange(CopyWrites(slot, t, cycle), |mem|)
    ensures StoreAll(mem, CopyWrites(slot, t, cycle)) == mem[slot := t.Stamped(cycle)]
  {
    hide Stamp, CopyWrites, StoreAll, InRange;
    CopyStoresUpTo(mem, slot, t, cycle, 4);
    assert CopyWrites(slot, t, cycle)[..4] == CopyWrites(slot, t, cycle);
  }

  /** The stores of a push, one by one, make the memory that it leaves. */
  lemma PushStores(mem: seq<Trb>, base: Address, slot: nat, t: Trb, cycle: bool)
    requires slot + 1 < |mem|
    ensures InRange(PushWrites(|mem|, base, slot, t, cycle), |mem|)
    ensures StoreAll(mem, PushWrites(|mem|, base, slot, t, cycle)) == Pushed(mem, base, slot, t, cycle)
  {
    hide Stamp, LinkTrb, CopyWrites, Store;
    CopyStores(mem, slot, t, cycle);
    var link := if slot + 2 == |mem| then CopyWrites(|mem| - 1, LinkTrb(base), cycle) else [];
    if slot + 2 == |mem| {
      CopyStores(mem[slot := t.Stamped(cycle)], |mem| - 1, LinkTrb(base), cycle);
    }
    StoreAllConcat(mem, CopyWrites(slot, t, cycle), link);
  }
}
