/** Windows and how they are drawn (kernel/window.cpp). */
module Windows {
  import opened Wrappers
  import opened Graphics
  import opened FrameBuffers
  import opened Composition

  datatype PixelWrite = PixelWrite(pos: Vector2D, color: PixelColor)

  /** The pixel table after writes. */
  function RowsAfter(rows: seq<Pixels>, writes: seq<PixelWrite>): seq<Pixels> {
    if writes == [] then rows
    else
      var r, w := RowsAfter(rows, writes[..|writes| - 1]), writes[|writes| - 1];
      if 0 <= w.pos.y < |r| && 0 <= w.pos.x < |r[w.pos.y]| then r[w.pos.y := r[w.pos.y][w.pos.x := w.color]] else r
  }

  /** The shadow buffer after writes, in rows of `stride` pixels. */
  function ShadowAfter(pixels: Pixels, stride: nat, writes: seq<PixelWrite>): Pixels {
    if writes == [] then pixels
    else
      var r, w := ShadowAfter(pixels, stride, writes[..|writes| - 1]), writes[|writes| - 1];
      var i := Offset(stride, w.pos);
      if 0 <= i < |r| then r[i := w.color] else r
  }

  /** The colour of `p` went from `was` to that of the last write to it, if there
      is one. */
  ghost predicate LastWrite(writes: seq<PixelWrite>, p: Vector2D, was: PixelColor, now: PixelColor) {
    || (now == was && forall i :: 0 <= i < |writes| ==> writes[i].pos != p)
    || exists i :: 0 <= i < |writes| && IsLast(writes, p, i) && writes[i].color == now
  }

  ghost predicate IsLast(writes: seq<PixelWrite>, p: Vector2D, i: nat)
    requires i < |writes|
  {
    writes[i].pos == p && forall j :: i < j < |writes| ==> writes[j].pos != p
  }

  /** There is one colour only that a pixel can have after writes. */
  lemma LastWriteUnique(writes: seq<PixelWrite>, p: Vector2D, was: PixelColor, a: PixelColor, b: PixelColor)
    requires LastWrite(writes, p, was, a) && LastWrite(writes, p, was, b)
    ensures a == b
  {
    if i :| 0 <= i < |writes| && IsLast(writes, p, i) && writes[i].color == a {
      if j :| 0 <= j < |writes| && IsLast(writes, p, j) && writes[j].color == b {
        assert i == j;
      }
    }
  }

  lemma OneMoreWrite(writes: seq<PixelWrite>, p: Vector2D, was: PixelColor, mid: PixelColor, now: PixelColor)
    requires writes != [] && LastWrite(writes[..|writes| - 1], p, was, mid)
    requires now == if writes[|writes| - 1].pos == p then writes[|writes| - 1].color else mid
    ensures LastWrite(writes, p, was, now)
  {
    hide IsLast;
    var n := |writes| - 1;
    if writes[n].pos == p {
      LastIsLast(writes, p);
    } else if exists i :: 0 <= i < n && IsLast(writes[..n], p, i) && writes[..n][i].color == mid {
      var i :| 0 <= i < n && IsLast(writes[..n], p, i) && writes[..n][i].color == mid;
      StillLast(writes, p, i);
    } else {
      assert forall i :: 0 <= i < n ==> writes[i] == writes[..n][i];
    }
  }

  lemma LastIsLast(writes: seq<PixelWrite>, p: Vector2D)
    requires writes != [] && writes[|writes| - 1].pos == p
    ensures IsLast(writes, p, |writes| - 1)
  {
  }

  lemma StillLast(writes: seq<PixelWrite>, p: Vector2D, i: nat)
    requires i < |writes| - 1 && IsLast(writes[..|writes| - 1], p, i) && writes[|writes| - 1].pos != p
    ensures IsLast(writes, p, i)
  {
  }

  predicate Within(p: Vector2D, width: nat, height: nat) {
    0 <= p.x < width && 0 <= p.y < height
  }

  ghost predicate IsTable(rows: seq<Pixels>, width: nat, height: nat) {
    |rows| == height && forall y :: 0 <= y < |rows| ==> |rows[y]| == width
  }

  /** The pixel table after writes, pixel by pixel. */
  lemma {:induction false} RowsWritten(rows: seq<Pixels>, writes: seq<PixelWrite>, width: nat, height: nat, p: Vector2D)
    requires IsTable(rows, width, height) && Within(p, width, height)
    ensures IsTable(RowsAfter(rows, writes), width, height)
    ensures LastWrite(writes, p, rows[p.y][p.x], RowsAfter(rows, writes)[p.y][p.x])
  {
    if writes != [] {
      var before := writes[..|writes| - 1];
      RowsWritten(rows, before, width, height, p);
      OneMoreWrite(writes, p, rows[p.y][p.x], RowsAfter(rows, before)[p.y][p.x], RowsAfter(rows, writes)[p.y][p.x]);
    }
  }

  /** The shadow buffer after writes, pixel by pixel. */
  lemma {:induction false} ShadowWritten(pixels: Pixels, writes: seq<PixelWrite>, stride: nat, p: Vector2D)
    requires 0 <= p.x < stride && 0 <= Offset(stride, p) < |pixels|
    requires forall w :: w in writes ==> 0 <= w.pos.x < stride
    ensures |ShadowAfter(pixels, stride, writes)| == |pixels|
    ensures LastWrite(writes, p, pixels[Offset(stride, p)], ShadowAfter(pixels, stride, writes)[Offset(stride, p)])
  {
    if writes != [] {
      var before, w := writes[..|writes| - 1], writes[|writes| - 1];
      ShadowWritten(pixels, before, stride, p);
      if w.pos != p {
        StretchesApart(stride, w.pos, p, 1);
      }
      OneMoreWrite(
        writes, p, pixels[Offset(stride, p)], ShadowAfter(pixels, stride, before)[Offset(stride, p)],
        ShadowAfter(pixels, stride, writes)[Offset(stride, p)]);
    }
  }

  /** Writes to other pixels leave `p` alone. */
  lemma UnwrittenStays(pixels: Pixels, stride: nat, writes: seq<PixelWrite>, p: Vector2D)
    requires 0 <= p.x < stride && 0 <= Offset(stride, p) < |pixels|
    requires forall w :: w in writes ==> 0 <= w.pos.x < stride && w.pos != p
    ensures |ShadowAfter(pixels, stride, writes)| == |pixels|
    ensures ShadowAfter(pixels, stride, writes)[Offset(stride, p)] == pixels[Offset(stride, p)]
  {
    hide RowStart, ShadowAfter;
    ShadowWritten(pixels, writes, stride, p);
  }

  lemma {:induction false} ShadowLength(pixels: Pixels, stride: nat, writes: seq<PixelWrite>)
    ensures |ShadowAfter(pixels, stride, writes)| == |pixels|
  {
    if writes != [] {
      ShadowLength(pixels, stride, writes[..|writes| - 1]);
    }
  }

  /** What a window shows: its pixel table, and its shadow buffer in rows of the
      same width. */
  datatype Content = Content(rows: seq<Pixels>, pixels: Pixels) {
    ghost predicate Fits(width: nat, height: nat) {
      IsTable(rows, width, height) && |pixels| == RowStart(width, height)
    }

    function After(writes: seq<PixelWrite>, width: nat): Content {
      Content(RowsAfter(rows, writes), ShadowAfter(pixels, width, writes))
    }
  }

  /** Each pixel has the colour of the last write to it, or its old one. */
  ghost predicate Written(was: Content, now: Content, writes: seq<PixelWrite>, width: nat, height: nat)
    requires was.Fits(width, height) && now.Fits(width, height)
  {
    forall p: Vector2D :: Within(p, width, height) ==> WrittenAt(was, now, writes, width, height, p)
  }

  ghost predicate WrittenAt(
    was: Content, now: Content, writes: seq<PixelWrite>, width: nat, height: nat, p: Vector2D)
    requires was.Fits(width, height) && now.Fits(width, height) && Within(p, width, height)
  {
    WindowPixel(p, width, height);
    && LastWrite(writes, p, was.rows[p.y][p.x], now.rows[p.y][p.x])
    && LastWrite(writes, p, was.pixels[Offset(width, p)], now.pixels[Offset(width, p)])
  }

  lemma WindowPixel(p: Vector2D, width: nat, height: nat)
    requires Within(p, width, height)
    ensures 0 <= Offset(width, p) < RowStart(width, height)
  {
    AreaCell(Rectangle(Vector2D(0, 0), Vector2D(width, height)), RowStart(width, height), width, p);
    CellInBounds(p, RowStart(width, height), width);
  }

  lemma ContentWritten(was: Content, writes: seq<PixelWrite>, width: nat, height: nat)
    requires was.Fits(width, height) && forall w :: w in writes ==> Within(w.pos, width, height)
    ensures was.After(writes, width).Fits(width, height)
    ensures Written(was, was.After(writes, width), writes, width, height)
  {
    hide RowStart, RowsAfter, ShadowAfter, LastWrite;
    ShadowLength(was.pixels, width, writes);
    TableAfter(was.rows, writes, width, height);
    forall p: Vector2D | Within(p, width, height)
      ensures WrittenAt(was, was.After(writes, width), writes, width, height, p)
    {
      WindowPixel(p, width, height);
      RowsWritten(was.rows, writes, width, height, p);
      ShadowWritten(was.pixels, writes, width, p);
    }
  }

  lemma {:induction false} TableAfter(rows: seq<Pixels>, writes: seq<PixelWrite>, width: nat, height: nat)
    requires IsTable(rows, width, height)
    ensures IsTable(RowsAfter(rows, writes), width, height)
  {
    if writes != [] {
      TableAfter(rows, writes[..|writes| - 1], width, height);
    }
  }

  class Window {
    const width: nat
    const height: nat
    var rows: seq<Pixels>
    var transparentColor: Option<PixelColor>
    const shadow: FrameBuffer

    ghost predicate Valid()
      reads `rows
    {
      && shadow.Valid() && shadow.width == width && shadow.height == height && shadow.stride == width
      && |rows| == height && forall y :: 0 <= y < |rows| ==> |rows[y]| == width
    }

    function Size(): Vector2D {
      Vector2D(width, height)
    }

    ghost function Shown(): Content
      reads `rows, shadow.data
    {
      Content(rows, shadow.data[..])
    }

    ghost function Ink(): Ink
      reads this, shadow.data
    {
      match transparentColor
      case None => Opaque(shadow.data[..])
      case Some(key) => Keyed(rows, key)
    }

    constructor (width: nat, height: nat, shadowFormat: PixelFormat)
      ensures Valid() && fresh(shadow.data) && this.width == width && this.height == height
      ensures transparentColor == None && shadow.format == shadowFormat
    {
      this.width, this.height := width, height;
      rows := seq(height, _ => seq(width, _ => PixelColor(0, 0, 0)));
      transparentColor := None;
      shadow := new FrameBuffer.Owned(shadowFormat, width, height);
    }

    method SetTransparentColor(c: Option<PixelColor>)
      modifies this
      ensures transparentColor == c && rows == old(rows)
    {
      transparentColor := c;
    }

    /** Writes one pixel of both copies. */
    method Write(pos: Vector2D, c: PixelColor)
      requires Valid() && 0 <= pos.x < width && 0 <= pos.y < height
      modifies this`rows, shadow.data
      ensures Valid()
      ensures rows == old(rows)[pos.y := old(rows)[pos.y][pos.x := c]]
      ensures shadow.data[..] == old(shadow.data[..])[shadow.Index(pos) := c]
    {
      rows := rows[pos.y := rows[pos.y][pos.x := c]];
      shadow.WritePixel(pos, c);
    }

    /** A drawing routine of the window, given by the pixels it writes. */
    method WriteAll(writes: seq<PixelWrite>)
      requires Valid() && forall w :: w in writes ==> 0 <= w.pos.x < width && 0 <= w.pos.y < height
      modifies this`rows, shadow.data
      ensures Valid() && Shown() == old(Shown()).After(writes, width)
      ensures old(Shown()).Fits(width, height) && Shown().Fits(width, height)
      ensures Written(old(Shown()), Shown(), writes, width, height)
    {
      ghost var was := Shown();
      assert was.Fits(width, height);
      ContentWritten(was, writes, width, height);
      hide RowStart, Written, Content.Fits;
      for i := 0 to |writes|
        invariant Valid() && rows == RowsAfter(old(rows), writes[..i])
        invariant shadow.data[..] == ShadowAfter(old(shadow.data[..]), width, writes[..i])
      {
        assert writes[..i + 1][..i] == writes[..i];
        Write(writes[i].pos, writes[i].color);
      }
      assert writes[..|writes|] == writes;
    }

    /** Draws the window at `pos`: each pixel of `dst` gets what `DrawIn` says,
        padding and pixels outside the buffer nothing. */
    method DrawTo(dst: FrameBuffer, pos: Vector2D, area: Rectangle)
      requires Valid() && dst.Valid() && dst.data != shadow.data && area.Copyable()
      modifies dst.data
      ensures Face(pos, Size(), Ink()).Valid()
      ensures transparentColor.None? && (dst.format != shadow.format || dst.format == Unsupported) ==>
        dst.data[..] == old(dst.data[..])
      ensures transparentColor.Some? || (dst.format == shadow.format && dst.format != Unsupported) ==>
        forall p: Vector2D {:trigger dst.At(p)} :: dst.Cell(p) ==>
          dst.At(p) ==
            if dst.Outline().Contains(p) then Face(pos, Size(), Ink()).DrawIn(area, p, old(dst.At(p)))
            else old(dst.At(p))
    {
      if transparentColor.None? {
        DrawOpaque(dst, pos, area);
      } else {
        DrawKeyed(dst, pos, transparentColor.value);
      }
    }

    method DrawOpaque(dst: FrameBuffer, pos: Vector2D, area: Rectangle)
      requires Valid() && dst.Valid() && dst.data != shadow.data && area.Copyable() && transparentColor.None?
      modifies dst.data
      ensures Face(pos, Size(), Ink()).Valid()
      ensures dst.format != shadow.format || dst.format == Unsupported ==> dst.data[..] == old(dst.data[..])
      ensures dst.format == shadow.format && dst.format != Unsupported ==>
        forall p: Vector2D {:trigger dst.At(p)} :: dst.Cell(p) ==>
          dst.At(p) ==
            if dst.Outline().Contains(p) then Face(pos, Size(), Ink()).DrawIn(area, p, old(dst.At(p)))
            else old(dst.At(p))
    {
      var windowArea := Rectangle(pos, Size());
      var intersection := Intersect(area, windowArea);
      var err := dst.Copy(intersection.pos, shadow, Rectangle(intersection.pos.Minus(pos), intersection.size));
      if err == Success {
        assert intersection.pos.Minus(intersection.pos.Minus(pos)) == pos;
        forall p: Vector2D | dst.Cell(p)
          ensures dst.At(p) ==
            if dst.Outline().Contains(p) then Face(pos, Size(), Ink()).DrawIn(area, p, old(dst.At(p)))
            else old(dst.At(p))
        {
          assert dst.Copies(intersection.pos, shadow, Rectangle(intersection.pos.Minus(pos), intersection.size), p)
            <==> dst.Outline().Contains(p) && area.Contains(p) && windowArea.Contains(p);
          if windowArea.Contains(p) {
            shadow.CellIsCell(p.Minus(pos));
            assert Face(pos, Size(), Ink()).Paint(p) == Some(shadow.At(p.Minus(pos)));
          }
        }
      }
    }

    /** The pixel `p` after the rows above `row` and the start of it up to
        `column` are drawn. */
    ghost function Partly(
      face: Face, screen: Rectangle, row: int, column: int, p: Vector2D, below: PixelColor): PixelColor
      requires face.Valid()
    {
      if screen.Contains(p) && (p.y < face.pos.y + row || (p.y == face.pos.y + row && p.x < face.pos.x + column)) then
        face.DrawIn(screen, p, below)
      else
        below
    }

    method DrawKeyed(dst: FrameBuffer, pos: Vector2D, tc: PixelColor)
      requires Valid() && dst.Valid() && dst.data != shadow.data && transparentColor == Some(tc)
      modifies dst.data
      ensures Face(pos, Size(), Ink()).Valid()
      ensures forall p: Vector2D {:trigger dst.At(p)} :: dst.Cell(p) ==>
        dst.At(p) == Partly(Face(pos, Size(), Ink()), dst.Outline(), height, 0, p, old(dst.At(p)))
    {
      ghost var face := Face(pos, Size(), Ink());
      ghost var screen := dst.Outline();
      var y := Max(0, 0 - pos.y);
      while y < Min(height, dst.height - pos.y)
        invariant Max(0, 0 - pos.y) <= y
        invariant forall p: Vector2D {:trigger dst.At(p)} :: dst.Cell(p) ==>
          dst.At(p) == Partly(face, screen, y, 0, p, old(dst.At(p)))
      {
        DrawKeyedRow(dst, pos, tc, y);
        y := y + 1;
      }
    }

    method DrawKeyedRow(dst: FrameBuffer, pos: Vector2D, tc: PixelColor, y: int)
      requires Valid() && dst.Valid() && dst.data != shadow.data && transparentColor == Some(tc)
      requires 0 <= y < height && 0 <= pos.y + y < dst.height
      modifies dst.data
      ensures forall p: Vector2D {:trigger dst.At(p)} :: dst.Cell(p) ==>
        dst.At(p) ==
          if dst.Outline().Contains(p) && p.y == pos.y + y
          then Face(pos, Size(), Keyed(rows, tc)).DrawIn(dst.Outline(), p, old(dst.At(p))) else old(dst.At(p))
    {
      ghost var face := Face(pos, Size(), Keyed(rows, tc));
      var x := Max(0, 0 - pos.x);
      while x < Min(width, dst.width - pos.x)
        invariant Max(0, 0 - pos.x) <= x
        invariant forall p: Vector2D {:trigger dst.At(p)} :: dst.Cell(p) ==>
          dst.At(p) ==
            if dst.Outline().Contains(p) && p.y == pos.y + y && p.x < pos.x + x
            then face.DrawIn(dst.Outline(), p, old(dst.At(p))) else old(dst.At(p))
      {
        var c := rows[y][x];
        if c != tc {
          dst.WritePixel(pos.Plus(Vector2D(x, y)), c);
        }
        x := x + 1;
      }
    }
  }
}
