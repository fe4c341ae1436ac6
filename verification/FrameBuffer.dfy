/** Pixel buffers with a stride (kernel/frame_buffer.cpp). */
module FrameBuffers {
  import opened Graphics

  datatype PixelFormat = RGBResv8BitPerColor | BGRResv8BitPerColor | Unsupported

  datatype Error = Success | UnknownPixelFormat

  type Pixels = seq<PixelColor>

  /** The product `stride * y`, by repeated addition. */
  function RowStart(stride: int, y: int): int
    decreases if y < 0 then -y else y
  {
    if y == 0 then 0
    else if y < 0 then RowStart(stride, y + 1) - stride
    else RowStart(stride, y - 1) + stride
  }

  lemma {:induction false} RowStartIsProduct(stride: int, y: int)
    ensures RowStart(stride, y) == stride * y
    decreases if y < 0 then -y else y
  {
    if y < 0 {
      RowStartIsProduct(stride, y + 1);
    } else if y > 0 {
      RowStartIsProduct(stride, y - 1);
    }
  }

  lemma RowStep(stride: int, y: int)
    ensures RowStart(stride, y + 1) == RowStart(stride, y) + stride
  {
  }

  /** The one address form of the file: `FrameAddrAt`, counted in pixels. */
  function Offset(stride: int, p: Vector2D): int {
    RowStart(stride, p.y) + p.x
  }

  /** `area` lies inside a buffer of `length` pixels, in rows of `stride`. */
  predicate Inside(area: Rectangle, length: int, stride: int) {
    && area.Regular() && 0 <= area.pos.x && area.pos.x + area.size.x <= stride
    && 0 <= area.pos.y && RowStart(stride, area.pos.y + area.size.y) <= length
  }

  predicate FitsIn(area: Rectangle, width: int, height: int) {
    0 <= area.pos.x && area.End().x <= width && 0 <= area.pos.y && area.End().y <= height
  }

  /** A non-empty range of rows of an intersection lies in either rectangle. */
  lemma IntersectWithin(a: Rectangle, b: Rectangle)
    requires a.Regular() && b.Copyable()
    ensures
      var r := Intersect(a, b);
      r.size.y > 0 ==>
        && a.pos.x <= r.pos.x && r.End().x <= a.End().x && a.pos.y <= r.pos.y && r.End().y <= a.End().y
        && b.pos.x <= r.pos.x && r.End().x <= b.End().x && b.pos.y <= r.pos.y && r.End().y <= b.End().y
  {
  }

  /** The three-way clipping of `Copy`: exactly the wanted pixels that both
      buffers have. */
  function Clip(size: Vector2D, shift: Vector2D, srcSize: Vector2D, wanted: Rectangle): (area: Rectangle)
    requires 0 <= size.x && 0 <= size.y && 0 <= srcSize.x && 0 <= srcSize.y && wanted.Copyable()
    ensures forall p: Vector2D {:trigger area.Contains(p)} :: area.Contains(p) <==>
      && Rectangle(Vector2D(0, 0), size).Contains(p)
      && Rectangle(Vector2D(0, 0), srcSize).Contains(p.Minus(shift))
      && wanted.Contains(p)
  {
    Intersect(Intersect(Rectangle(Vector2D(0, 0), size), Rectangle(shift, srcSize)), wanted)
  }

  /** What is copied is a rectangle inside both, with no row of negative length. */
  lemma ClipFits(size: Vector2D, shift: Vector2D, srcSize: Vector2D, wanted: Rectangle)
    requires 0 <= size.x && 0 <= size.y && 0 <= srcSize.x && 0 <= srcSize.y && wanted.Copyable()
    ensures
      var area := Clip(size, shift, srcSize, wanted);
      && area.Copyable() && (wanted.Regular() ==> area.Regular())
      && (area.size.y > 0 ==>
            FitsIn(area, size.x, size.y) && FitsIn(Rectangle(area.pos.Minus(shift), area.size), srcSize.x, srcSize.y))
  {
    var outlines := Intersect(Rectangle(Vector2D(0, 0), size), Rectangle(shift, srcSize));
    IntersectWithin(Rectangle(Vector2D(0, 0), size), Rectangle(shift, srcSize));
    IntersectWithin(outlines, wanted);
    hide Intersect;
  }

  /** The pixel cells of such a buffer, row padding included. */
  predicate IsCell(p: Vector2D, length: int, stride: int) {
    0 <= p.x < stride && 0 <= p.y && RowStart(stride, p.y + 1) <= length
  }

  /** A row of `stride` pixels ends before a later row begins. */
  lemma {:induction false} RowsApart(stride: int, y: int, later: int)
    requires 0 <= stride && y < later
    ensures RowStart(stride, y) + stride <= RowStart(stride, later)
    decreases later - y
  {
    if y < later - 1 {
      RowsApart(stride, y, later - 1);
    }
    RowStep(stride, later - 1);
  }

  lemma CellInBounds(p: Vector2D, length: int, stride: int)
    requires IsCell(p, length, stride)
    ensures 0 <= Offset(stride, p) < length
  {
    RowStep(stride, p.y);
    if 0 < p.y {
      RowsApart(stride, 0, p.y);
    }
  }

  /** Row `k` of `area` is a stretch of the buffer. */
  lemma StretchInBounds(area: Rectangle, length: int, stride: int, k: int)
    requires Inside(area, length, stride) && 0 <= k < area.size.y
    ensures 0 <= Offset(stride, Vector2D(area.pos.x, area.pos.y + k))
    ensures Offset(stride, Vector2D(area.pos.x, area.pos.y + k)) + area.size.x <= length
  {
    var y := area.pos.y + k;
    RowsApart(stride, y, area.pos.y + area.size.y);
    if 0 < y {
      RowsApart(stride, 0, y);
    }
  }

  /** An address lies in a stretch of row `y` iff its cell does. */
  lemma OffsetInRow(stride: int, p: Vector2D, y: int, x: int, n: int)
    requires 0 <= p.x < stride && 0 <= x && 0 <= n && x + n <= stride
    ensures Offset(stride, Vector2D(x, y)) <= Offset(stride, p) < Offset(stride, Vector2D(x, y)) + n <==>
      p.y == y && x <= p.x < x + n
  {
    if p.y < y {
      RowsApart(stride, p.y, y);
    } else if y < p.y {
      RowsApart(stride, y, p.y);
    }
  }

  /** Stretches of different rows, or apart in one row, do not overlap. */
  lemma StretchesApart(stride: int, a: Vector2D, b: Vector2D, n: nat)
    requires 0 <= a.x && a.x + n <= stride && 0 <= b.x && b.x + n <= stride
    requires a.y != b.y || a.x + n <= b.x || b.x + n <= a.x
    ensures Offset(stride, a) + n <= Offset(stride, b) || Offset(stride, b) + n <= Offset(stride, a)
  {
    if a.y < b.y {
      RowsApart(stride, a.y, b.y);
    } else if b.y < a.y {
      RowsApart(stride, b.y, a.y);
    }
  }

  /** Rows inside an area are rows of cells. */
  lemma AreaCell(area: Rectangle, length: int, stride: int, p: Vector2D)
    requires Inside(area, length, stride) && area.Contains(p)
    ensures IsCell(p, length, stride)
  {
    if p.y + 1 < area.pos.y + area.size.y {
      RowsApart(stride, p.y + 1, area.pos.y + area.size.y);
    }
  }

  /** `memcpy` on contents. */
  function Blit(t: Pixels, d: int, u: Pixels, s: int, n: int): Pixels
    requires 0 <= n && 0 <= d && d + n <= |t| && 0 <= s && s + n <= |u|
  {
    t[..d] + u[s..s + n] + t[d + n..]
  }

  lemma BlitAt(t: Pixels, d: int, u: Pixels, s: int, n: int, i: int)
    requires 0 <= n && 0 <= d && d + n <= |t| && 0 <= s && s + n <= |u| && 0 <= i < |t|
    ensures Blit(t, d, u, s, n)[i] == if d <= i < d + n then u[s + (i - d)] else t[i]
  {
  }

  /** The contents after the first `rows` rows of `Copy` are written. */
  function CopyRows(
    t: Pixels, stride: int, area: Rectangle, u: Pixels, ustride: int, from: Vector2D, rows: nat): (r: Pixels)
    requires Inside(area, |t|, stride) && Inside(Rectangle(from, area.size), |u|, ustride) && rows <= area.size.y
    ensures |r| == |t|
  {
    if rows == 0 then t else
      var k := rows - 1;
      StretchInBounds(area, |t|, stride, k);
      StretchInBounds(Rectangle(from, area.size), |u|, ustride, k);
      Blit(CopyRows(t, stride, area, u, ustride, from, k),
           Offset(stride, Vector2D(area.pos.x, area.pos.y + k)), u, Offset(ustride, Vector2D(from.x, from.y + k)),
           area.size.x)
  }

  /** Cell by cell, `CopyRows` is a shift of the source inside the written
      rows and leaves every other cell alone. */
  lemma {:induction false} CopyRowsCell(
    t: Pixels, stride: int, area: Rectangle, u: Pixels, ustride: int, from: Vector2D, rows: nat, p: Vector2D)
    requires Inside(area, |t|, stride) && Inside(Rectangle(from, area.size), |u|, ustride) && rows <= area.size.y
    requires IsCell(p, |t|, stride)
    ensures 0 <= Offset(stride, p) < |t|
    ensures area.Contains(p) ==> 0 <= Offset(ustride, from.Plus(p.Minus(area.pos))) < |u|
    ensures CopyRows(t, stride, area, u, ustride, from, rows)[Offset(stride, p)] ==
      if area.Contains(p) && p.y < area.pos.y + rows then u[Offset(ustride, from.Plus(p.Minus(area.pos)))]
      else t[Offset(stride, p)]
  {
    hide RowStart, Blit;
    CellInBounds(p, |t|, stride);
    if area.Contains(p) {
      StretchInBounds(Rectangle(from, area.size), |u|, ustride, p.y - area.pos.y);
    }
    if rows > 0 {
      var k := rows - 1;
      var r := CopyRows(t, stride, area, u, ustride, from, k);
      var d, s := Offset(stride, Vector2D(area.pos.x, area.pos.y + k)), Offset(ustride, Vector2D(from.x, from.y + k));
      CopyRowsCell(t, stride, area, u, ustride, from, k, p);
      StretchInBounds(area, |t|, stride, k);
      StretchInBounds(Rectangle(from, area.size), |u|, ustride, k);
      BlitAt(r, d, u, s, area.size.x, Offset(stride, p));
      OffsetInRow(stride, p, area.pos.y + k, area.pos.x, area.size.x);
    }
  }

  /** The row the `y`-th iteration of `Move` handles: the loop walks down when
      the rectangle moves up, and up otherwise. */
  function MoveRow(up: bool, height: int, y: int): int {
    if up then y else height - 1 - y
  }

  /** The contents after `rows` iterations of `Move`, each one reading what the
      earlier ones left behind. */
  function MoveRows(t: Pixels, stride: int, to: Vector2D, src: Rectangle, up: bool, rows: nat): (r: Pixels)
    requires Inside(src, |t|, stride) && Inside(Rectangle(to, src.size), |t|, stride) && rows <= src.size.y
    ensures |r| == |t|
  {
    if rows == 0 then t else
      var k := MoveRow(up, src.size.y, rows - 1);
      StretchInBounds(src, |t|, stride, k);
      StretchInBounds(Rectangle(to, src.size), |t|, stride, k);
      var r := MoveRows(t, stride, to, src, up, rows - 1);
      Blit(
        r, Offset(stride, Vector2D(to.x, to.y + k)), r, Offset(stride, Vector2D(src.pos.x, src.pos.y + k)), src.size.x)
  }

  predicate MoveDone(to: Vector2D, src: Rectangle, up: bool, rows: nat, p: Vector2D) {
    && Rectangle(to, src.size).Contains(p)
    && if up then p.y < to.y + rows else p.y >= to.y + src.size.y - rows
  }

  /** Walking away from the overlap, no row is read after it was overwritten:
      the result is the simultaneous copy of the old contents. */
  lemma {:induction false} MoveRowsCell(
    t: Pixels, stride: int, to: Vector2D, src: Rectangle, up: bool, rows: nat, p: Vector2D)
    requires Inside(src, |t|, stride) && Inside(Rectangle(to, src.size), |t|, stride) && rows <= src.size.y
    requires if up then to.y < src.pos.y else src.pos.y <= to.y
    requires src.pos.y == to.y ==> to.x + src.size.x <= src.pos.x || src.pos.x + src.size.x <= to.x
    requires IsCell(p, |t|, stride)
    ensures 0 <= Offset(stride, p) < |t|
    ensures Rectangle(to, src.size).Contains(p) ==> 0 <= Offset(stride, src.pos.Plus(p.Minus(to))) < |t|
    ensures MoveRows(t, stride, to, src, up, rows)[Offset(stride, p)] ==
      if MoveDone(to, src, up, rows, p) then t[Offset(stride, src.pos.Plus(p.Minus(to)))] else t[Offset(stride, p)]
    decreases rows
  {
    hide RowStart, Blit;
    CellInBounds(p, |t|, stride);
    if Rectangle(to, src.size).Contains(p) {
      StretchInBounds(src, |t|, stride, p.y - to.y);
    }
    if rows > 0 {
      var k := MoveRow(up, src.size.y, rows - 1);
      var r := MoveRows(t, stride, to, src, up, rows - 1);
      var d, from := Offset(stride, Vector2D(to.x, to.y + k)), Offset(stride, Vector2D(src.pos.x, src.pos.y + k));
      StretchInBounds(src, |t|, stride, k);
      StretchInBounds(Rectangle(to, src.size), |t|, stride, k);
      assert MoveRows(t, stride, to, src, up, rows) == Blit(r, d, r, from, src.size.x);
      BlitAt(r, d, r, from, src.size.x, Offset(stride, p));
      OffsetInRow(stride, p, to.y + k, to.x, src.size.x);
      if p.y == to.y + k && to.x <= p.x < to.x + src.size.x {
        var q := src.pos.Plus(p.Minus(to));
        AreaCell(src, |t|, stride, q);
        MoveRowsCell(t, stride, to, src, up, rows - 1, q);
        assert !MoveDone(to, src, up, rows - 1, q);
        assert Offset(stride, q) == from + (Offset(stride, p) - d);
      } else {
        MoveRowsCell(t, stride, to, src, up, rows - 1, p);
      }
    }
  }

  /** `memcpy`: undefined on overlapping stretches, so they are excluded. */
  method Memcpy(dst: array<PixelColor>, d: int, src: array<PixelColor>, s: int, n: int)
    requires 0 <= n && 0 <= d && d + n <= dst.Length && 0 <= s && s + n <= src.Length
    requires dst != src || d + n <= s || s + n <= d
    modifies dst
    ensures dst[..] == Blit(old(dst[..]), d, old(src[..]), s, n)
  {
    for i := 0 to n
      invariant forall k :: 0 <= k < dst.Length ==>
        dst[k] == if d <= k < d + i then old(src[s + (k - d)]) else old(dst[k])
      invariant dst != src ==> forall k :: 0 <= k < src.Length ==> src[k] == old(src[k])
    {
      dst[d + i] := src[s + i];
    }
  }

  class FrameBuffer {
    const format: PixelFormat
    const width: nat
    const height: nat
    const stride: nat
    const data: array<PixelColor>

    ghost predicate Valid() {
      width <= stride && data.Length == RowStart(stride, height)
    }

    ghost function Outline(): Rectangle {
      Rectangle(Vector2D(0, 0), Vector2D(width, height))
    }

    ghost predicate Cell(p: Vector2D) {
      0 <= p.x < stride && 0 <= p.y < height
    }

    lemma CellIsCell(p: Vector2D)
      requires Valid() && Cell(p)
      ensures IsCell(p, data.Length, stride)
      ensures 0 <= Offset(stride, p) < data.Length
    {
      if p.y + 1 < height {
        RowsApart(stride, p.y + 1, height);
      }
      CellInBounds(p, data.Length, stride);
    }

    lemma AreaInside(area: Rectangle)
      requires Valid() && area.Regular() && FitsIn(area, width, height)
      ensures Inside(area, data.Length, stride)
    {
      if area.End().y < height {
        RowsApart(stride, area.End().y, height);
      }
    }

    ghost function At(p: Vector2D): PixelColor
      requires Valid() && Cell(p)
      reads data
    {
      CellIsCell(p);
      data[Offset(stride, p)]
    }

    /** Memory handed over by the firmware, possibly with padded rows. */
    constructor Device(format: PixelFormat, width: nat, height: nat, stride: nat, data: array<PixelColor>)
      requires width <= stride && data.Length == stride * height
      ensures Valid() && this.format == format && this.width == width && this.height == height
      ensures this.stride == stride && this.data == data
    {
      RowStartIsProduct(stride, height);
      this.format, this.width, this.height, this.stride, this.data := format, width, height, stride, data;
    }

    /** A buffer of its own: rows without padding. */
    constructor Owned(format: PixelFormat, width: nat, height: nat)
      ensures Valid() && fresh(data) && this.format == format
      ensures this.width == width && this.height == height && stride == width
    {
      this.format, this.width, this.height, this.stride := format, width, height, width;
      RowStartIsProduct(width, height);
      this.data := new PixelColor[width * height](_ => PixelColor(0, 0, 0));
    }

    /** Writes one pixel; that it lies in the buffer is up to the caller. */
    method WritePixel(p: Vector2D, c: PixelColor)
      requires Valid() && Outline().Contains(p)
      modifies data
      ensures data[..] == old(data[..])[Index(p) := c]
      ensures forall q: Vector2D {:trigger At(q)} :: Cell(q) ==> At(q) == if q == p then c else old(At(q))
    {
      hide RowStart;
      CellIsCell(p);
      data[Offset(stride, p)] := c;
      forall q: Vector2D | Cell(q)
        ensures At(q) == if q == p then c else old(At(q))
      {
        CellIsCell(q);
        OffsetInRow(stride, q, p.y, p.x, 1);
      }
    }

    ghost function Index(p: Vector2D): (i: nat)
      requires Valid() && Cell(p)
      ensures i < data.Length
    {
      CellIsCell(p);
      Offset(stride, p)
    }

    /** Cell `p` is one that `Copy` writes, said without `operator&`. */
    ghost predicate Copies(dstPos: Vector2D, src: FrameBuffer, srcArea: Rectangle, p: Vector2D) {
      && Outline().Contains(p)
      && src.Outline().Contains(p.Minus(dstPos.Minus(srcArea.pos)))
      && Rectangle(dstPos, srcArea.size).Contains(p)
    }

    /** Writes the clipped rectangle from the shifted source pixels and nothing
        else, row padding included. */
    method Copy(dstPos: Vector2D, src: FrameBuffer, srcArea: Rectangle) returns (err: Error)
      requires Valid() && src.Valid() && data != src.data && srcArea.Copyable()
      modifies data
      ensures err == if format == src.format && format != Unsupported then Success else UnknownPixelFormat
      ensures err == Success ==> forall p: Vector2D {:trigger At(p)} :: Cell(p) ==>
        At(p) == if Copies(dstPos, src, srcArea, p) then old(src.At(p.Minus(dstPos.Minus(srcArea.pos)))) else old(At(p))
      ensures err != Success ==> data[..] == old(data[..])
    {
      if format != src.format {
        return UnknownPixelFormat;
      }
      if format == Unsupported {
        return UnknownPixelFormat;
      }
      hide At;
      CopyClipped(dstPos, src, srcArea);
      return Success;
    }

    method CopyClipped(dstPos: Vector2D, src: FrameBuffer, srcArea: Rectangle)
      requires Valid() && src.Valid() && data != src.data && srcArea.Copyable()
      modifies data
      ensures forall p: Vector2D {:trigger At(p)} :: Cell(p) ==>
        At(p) == if Copies(dstPos, src, srcArea, p) then old(src.At(p.Minus(dstPos.Minus(srcArea.pos)))) else old(At(p))
    {
      var shift := dstPos.Minus(srcArea.pos);
      var area := Clip(Vector2D(width, height), shift, Vector2D(src.width, src.height),
        Rectangle(dstPos, srcArea.size));
      ClipFits(Vector2D(width, height), shift, Vector2D(src.width, src.height), Rectangle(dstPos, srcArea.size));
      hide Clip, At;
      CopyCells(area, shift, src);
    }

    method CopyCells(area: Rectangle, shift: Vector2D, src: FrameBuffer)
      requires Valid() && src.Valid() && data != src.data && area.Copyable()
      requires area.size.y > 0 ==> FitsIn(area, width, height)
      requires area.size.y > 0 ==> FitsIn(Rectangle(area.pos.Minus(shift), area.size), src.width, src.height)
      modifies data
      ensures forall p: Vector2D :: area.Contains(p) ==> src.Cell(p.Minus(shift))
      ensures forall p: Vector2D {:trigger At(p)} :: Cell(p) ==>
        At(p) == if area.Contains(p) then old(src.At(p.Minus(shift))) else old(At(p))
    {
      hide RowStart, CopyRows;
      ghost var t, u := data[..], src.data[..];
      if area.size.y > 0 {
        CopyLoop(area, shift, src);
        forall p: Vector2D | Cell(p)
          ensures At(p) == if area.Contains(p) then old(src.At(p.Minus(shift))) else old(At(p))
        {
          CellIsCell(p);
          CopyRowsCell(t, stride, area, u, src.stride, area.pos.Minus(shift), area.size.y, p);
        }
      }
    }

    /** The row loop of `Copy`, with its two moving addresses. */
    method CopyLoop(area: Rectangle, shift: Vector2D, src: FrameBuffer)
      requires Valid() && src.Valid() && data != src.data && area.Regular()
      requires FitsIn(area, width, height)
      requires FitsIn(Rectangle(area.pos.Minus(shift), area.size), src.width, src.height)
      modifies data
      ensures Inside(area, data.Length, stride)
      ensures Inside(Rectangle(area.pos.Minus(shift), area.size), src.data.Length, src.stride)
      ensures data[..] ==
        CopyRows(old(data[..]), stride, area, old(src.data[..]), src.stride, area.pos.Minus(shift), area.size.y)
    {
      hide RowStart, Blit;
      var from := area.pos.Minus(shift);
      AreaInside(area);
      src.AreaInside(Rectangle(from, area.size));
      var dstBuf := Offset(stride, area.pos);
      var srcBuf := Offset(src.stride, from);
      for y := 0 to area.size.y
        invariant dstBuf == Offset(stride, Vector2D(area.pos.x, area.pos.y + y))
        invariant srcBuf == Offset(src.stride, Vector2D(from.x, from.y + y))
        invariant data[..] == CopyRows(old(data[..]), stride, area, old(src.data[..]), src.stride, from, y)
        invariant src.data[..] == old(src.data[..])
      {
        StretchInBounds(area, data.Length, stride, y);
        StretchInBounds(Rectangle(from, area.size), src.data.Length, src.stride, y);
        Memcpy(data, dstBuf, src.data, srcBuf, area.size.x);
        RowStep(stride, area.pos.y + y);
        RowStep(src.stride, from.y + y);
        dstBuf := dstBuf + stride;
        srcBuf := srcBuf + src.stride;
      }
    }

    /** `Move` copies a rectangle inside one buffer, whichever way the two
        rectangles overlap, except within one and the same row. */
    method Move(dstPos: Vector2D, src: Rectangle)
      requires Valid() && src.Regular()
      requires FitsIn(src, width, height) && FitsIn(Rectangle(dstPos, src.size), width, height)
      requires dstPos.y == src.pos.y ==> dstPos.x + src.size.x <= src.pos.x || src.pos.x + src.size.x <= dstPos.x
      modifies data
      ensures forall p: Vector2D {:trigger At(p)} :: Cell(p) ==>
        At(p) == old(At(if Rectangle(dstPos, src.size).Contains(p) then src.pos.Plus(p.Minus(dstPos)) else p))
    {
      AreaInside(src);
      AreaInside(Rectangle(dstPos, src.size));
      ghost var t := data[..];
      ghost var up := dstPos.y < src.pos.y;
      if dstPos.y < src.pos.y {
        MoveUp(dstPos, src);
      } else {
        MoveDown(dstPos, src);
      }
      forall p: Vector2D | Cell(p)
        ensures At(p) == old(At(if Rectangle(dstPos, src.size).Contains(p) then src.pos.Plus(p.Minus(dstPos)) else p))
      {
        CellIsCell(p);
        MoveRowsCell(t, stride, dstPos, src, up, src.size.y, p);
      }
    }

    method MoveUp(dstPos: Vector2D, src: Rectangle)
      requires Valid() && Inside(src, data.Length, stride) && Inside(Rectangle(dstPos, src.size), data.Length, stride)
      requires dstPos.y < src.pos.y
      modifies data
      ensures data[..] == MoveRows(old(data[..]), stride, dstPos, src, true, src.size.y)
    {
      hide RowStart, Blit;
      var dstBuf := Offset(stride, dstPos);
      var srcBuf := Offset(stride, src.pos);
      for y := 0 to src.size.y
        invariant dstBuf == Offset(stride, Vector2D(dstPos.x, dstPos.y + y))
        invariant srcBuf == Offset(stride, Vector2D(src.pos.x, src.pos.y + y))
        invariant data[..] == MoveRows(old(data[..]), stride, dstPos, src, true, y)
      {
        StretchInBounds(src, data.Length, stride, y);
        StretchInBounds(Rectangle(dstPos, src.size), data.Length, stride, y);
        StretchesApart(stride, Vector2D(dstPos.x, dstPos.y + y), Vector2D(src.pos.x, src.pos.y + y), src.size.x);
        ghost var r := data[..];
        Memcpy(data, dstBuf, data, srcBuf, src.size.x);
        assert data[..] == Blit(r, dstBuf, r, srcBuf, src.size.x);
        RowStep(stride, dstPos.y + y);
        RowStep(stride, src.pos.y + y);
        dstBuf := dstBuf + stride;
        srcBuf := srcBuf + stride;
      }
    }

    method MoveDown(dstPos: Vector2D, src: Rectangle)
      requires Valid() && Inside(src, data.Length, stride) && Inside(Rectangle(dstPos, src.size), data.Length, stride)
      requires src.pos.y <= dstPos.y
      requires dstPos.y == src.pos.y ==> dstPos.x + src.size.x <= src.pos.x || src.pos.x + src.size.x <= dstPos.x
      modifies data
      ensures data[..] == MoveRows(old(data[..]), stride, dstPos, src, false, src.size.y)
    {
      hide RowStart, Blit;
      var dstBuf := Offset(stride, dstPos.Plus(Vector2D(0, src.size.y - 1)));
      var srcBuf := Offset(stride, src.pos.Plus(Vector2D(0, src.size.y - 1)));
      for y := 0 to src.size.y
        invariant dstBuf == Offset(stride, Vector2D(dstPos.x, dstPos.y + MoveRow(false, src.size.y, y)))
        invariant srcBuf == Offset(stride, Vector2D(src.pos.x, src.pos.y + MoveRow(false, src.size.y, y)))
        invariant data[..] == MoveRows(old(data[..]), stride, dstPos, src, false, y)
      {
        ghost var k := MoveRow(false, src.size.y, y);
        StretchInBounds(src, data.Length, stride, k);
        StretchInBounds(Rectangle(dstPos, src.size), data.Length, stride, k);
        StretchesApart(stride, Vector2D(dstPos.x, dstPos.y + k), Vector2D(src.pos.x, src.pos.y + k), src.size.x);
        ghost var r := data[..];
        Memcpy(data, dstBuf, data, srcBuf, src.size.x);
        assert data[..] == Blit(r, dstBuf, r, srcBuf, src.size.x);
        RowStep(stride, dstPos.y + k - 1);
        RowStep(stride, src.pos.y + k - 1);
        dstBuf := dstBuf - stride;
        srcBuf := srcBuf - stride;
      }
    }
  }
}
