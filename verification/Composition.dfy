/** What the screen should show: every layer painted bottom to top. The
    incremental drawing of layer.cpp is compared with this. */
module Composition {
  import opened Wrappers
  import opened Graphics
  import opened FrameBuffers
  import opened Sequences
  import opened StackOrder

  /** The drawn side of a window: the shadow buffer of an opaque one, the pixel
      table and the transparent colour of a keyed one. */
  datatype Ink = Blank | Opaque(pixels: Pixels) | Keyed(rows: seq<Pixels>, key: PixelColor)

  /** A layer as the compositor sees it. */
  datatype Face = Face(pos: Vector2D, size: Vector2D, ink: Ink) {
    function Area(): Rectangle {
      Rectangle(pos, size)
    }

    predicate Valid() {
      && Area().Regular()
      && match ink
         case Blank => true
         case Opaque(pixels) => |pixels| == RowStart(size.x, size.y)
         case Keyed(rows, _) => |rows| == size.y && forall y :: 0 <= y < |rows| ==> |rows[y]| == size.x
    }

    /** The colour this layer puts on screen pixel `p`, if any. */
    function Paint(p: Vector2D): Option<PixelColor>
      requires Valid()
    {
      if !Area().Contains(p) then None else
        var q := p.Minus(pos);
        match ink
        case Blank => None
        case Opaque(pixels) =>
          AreaCell(Rectangle(Vector2D(0, 0), size), |pixels|, size.x, q);
          CellInBounds(q, |pixels|, size.x);
          Some(pixels[Offset(size.x, q)])
        case Keyed(rows, key) => if rows[q.y][q.x] == key then None else Some(rows[q.y][q.x])
    }

    /** `Layer::DrawTo` on one pixel: only opaque windows respect the area. */
    function DrawIn(area: Rectangle, p: Vector2D, below: PixelColor): PixelColor
      requires Valid()
    {
      match Paint(p)
      case None => below
      case Some(c) => if ink.Keyed? || area.Contains(p) then c else below
    }
  }

  predicate AllValid(faces: seq<Face>) {
    forall i :: 0 <= i < |faces| ==> faces[i].Valid()
  }

  /** The colour of `p` with all layers shown: that of the highest layer that
      paints it. */
  function Composite(faces: seq<Face>, p: Vector2D, below: PixelColor): PixelColor
    requires AllValid(faces)
  {
    if faces == [] then below else
      match faces[|faces| - 1].Paint(p)
      case Some(c) => c
      case None => Composite(faces[..|faces| - 1], p, below)
  }

  /** The highest layer that paints the pixel decides. */
  lemma {:induction false} CompositeHighest(faces: seq<Face>, p: Vector2D, below: PixelColor, k: nat)
    requires AllValid(faces) && k <= |faces| && forall i :: k <= i < |faces| ==> faces[i].Paint(p) == None
    ensures k == 0 ==> Composite(faces, p, below) == below
    ensures k > 0 && faces[k - 1].Paint(p).Some? ==> Composite(faces, p, below) == faces[k - 1].Paint(p).value
  {
    hide Face.Paint;
    if k < |faces| {
      CompositeHighest(faces[..|faces| - 1], p, below, k);
    }
  }

  /** What the window of a face shows at a pixel of it: that of the shadow buffer, or
      that of the pixel table unless it is the key. */
  lemma PaintIs(face: Face, p: Vector2D)
    requires face.Valid()
    ensures face.Area().Contains(p) && face.ink.Opaque? ==>
      && 0 <= face.size.x * (p.y - face.pos.y) + (p.x - face.pos.x) < |face.ink.pixels|
      && face.Paint(p) == Some(face.ink.pixels[face.size.x * (p.y - face.pos.y) + (p.x - face.pos.x)])
    ensures face.Area().Contains(p) && face.ink.Keyed? ==>
      var c := face.ink.rows[p.y - face.pos.y][p.x - face.pos.x];
      face.Paint(p) == if c == face.ink.key then None else Some(c)
    ensures !face.Area().Contains(p) || face.ink.Blank? ==> face.Paint(p) == None
  {
    if face.Area().Contains(p) && face.ink.Opaque? {
      var q := p.Minus(face.pos);
      AreaCell(Rectangle(Vector2D(0, 0), face.size), |face.ink.pixels|, face.size.x, q);
      CellInBounds(q, |face.ink.pixels|, face.size.x);
      RowStartIsProduct(face.size.x, q.y);
    }
  }

  /** The drawing loops on one pixel: every layer in turn, limited to `area`. */
  function DrawAll(faces: seq<Face>, area: Rectangle, p: Vector2D, below: PixelColor): PixelColor
    requires AllValid(faces)
  {
    if faces == [] then below else
      faces[|faces| - 1].DrawIn(area, p, DrawAll(faces[..|faces| - 1], area, p, below))
  }

  /** The colour of the highest transparent layer that paints `p`. */
  function KeyedOnTop(faces: seq<Face>, p: Vector2D): Option<PixelColor>
    requires AllValid(faces)
  {
    if faces == [] then None
    else
      var top := faces[|faces| - 1];
      if top.ink.Keyed? && top.Paint(p).Some? then top.Paint(p) else KeyedOnTop(faces[..|faces| - 1], p)
  }

  /** No opaque layer lies over a transparent one at `p`. */
  predicate UncoveredAt(faces: seq<Face>, p: Vector2D) {
    forall i, j :: 0 <= i < j < |faces| && faces[i].ink.Keyed? && faces[j].ink.Opaque? ==>
      !(faces[i].Area().Contains(p) && faces[j].Area().Contains(p))
  }

  /** On the screen no opaque layer overlaps a transparent one below it. */
  ghost predicate Uncovered(faces: seq<Face>, screen: Rectangle) {
    forall p: Vector2D :: screen.Contains(p) ==> UncoveredAt(faces, p)
  }

  /** The bottom layer is opaque and covers `screen`. */
  ghost predicate Covered(faces: seq<Face>, screen: Rectangle) {
    && faces != [] && faces[0].ink.Opaque?
    && forall p: Vector2D :: screen.Contains(p) ==> faces[0].Area().Contains(p)
  }

  lemma {:induction false} BelowCovered(faces: seq<Face>, p: Vector2D, a: PixelColor, b: PixelColor)
    requires AllValid(faces) && faces != [] && faces[0].ink.Opaque? && faces[0].Area().Contains(p)
    ensures Composite(faces, p, a) == Composite(faces, p, b)
  {
    if |faces| > 1 {
      BelowCovered(faces[..|faces| - 1], p, a, b);
    }
  }

  /** Painting splits at any height. */
  lemma {:induction false} CompositeSplit(lower: seq<Face>, upper: seq<Face>, p: Vector2D, below: PixelColor)
    requires AllValid(lower) && AllValid(upper)
    ensures AllValid(lower + upper)
    ensures Composite(lower + upper, p, below) == Composite(upper, p, Composite(lower, p, below))
  {
    var faces := lower + upper;
    if upper == [] {
      assert faces == lower;
    } else {
      assert faces[..|faces| - 1] == lower + upper[..|upper| - 1];
      CompositeSplit(lower, upper[..|upper| - 1], p, below);
    }
  }

  /** Composition over one layer: its own colour hides what was below. */
  lemma CompositeAbove(face: Face, upper: seq<Face>, p: Vector2D, below: PixelColor)
    requires face.Valid() && AllValid(upper)
    ensures AllValid([face] + upper)
    ensures Composite([face] + upper, p, below) ==
      Composite(upper, p, match face.Paint(p) case Some(c) => c case None => below)
  {
    CompositeSplit([face], upper, p, below);
    assert [face][..0] == [];
    assert Composite([face][..0], p, below) == below;
  }

  /** Inside the area the drawing loop composes. */
  lemma {:induction false} DrawInside(faces: seq<Face>, area: Rectangle, p: Vector2D, below: PixelColor)
    requires AllValid(faces) && area.Contains(p)
    ensures DrawAll(faces, area, p, below) == Composite(faces, p, below)
  {
    if faces != [] {
      DrawInside(faces[..|faces| - 1], area, p, below);
    }
  }

  /** Outside the area the highest transparent layer has its way. */
  lemma {:induction false} DrawOutside(faces: seq<Face>, area: Rectangle, p: Vector2D, below: PixelColor)
    requires AllValid(faces) && !area.Contains(p)
    ensures DrawAll(faces, area, p, below) == match KeyedOnTop(faces, p) case Some(c) => c case None => below
  {
    if faces != [] {
      DrawOutside(faces[..|faces| - 1], area, p, below);
    }
  }

  lemma {:induction false} KeyedThere(faces: seq<Face>, p: Vector2D) returns (i: nat)
    requires AllValid(faces) && KeyedOnTop(faces, p).Some?
    ensures i < |faces| && faces[i].ink.Keyed? && faces[i].Area().Contains(p)
  {
    i := |faces| - 1;
    if !(faces[i].ink.Keyed? && faces[i].Paint(p).Some?) {
      i := KeyedThere(faces[..i], p);
    }
  }

  /** A transparent layer that no opaque one covers is seen. */
  lemma {:induction false} KeyedIsSeen(faces: seq<Face>, p: Vector2D, below: PixelColor)
    requires AllValid(faces) && UncoveredAt(faces, p) && KeyedOnTop(faces, p).Some?
    ensures KeyedOnTop(faces, p) == Some(Composite(faces, p, below))
  {
    var top := |faces| - 1;
    if faces[top].Paint(p) == None {
      KeyedIsSeen(faces[..top], p, below);
    } else if faces[top].ink.Opaque? {
      var i := KeyedThere(faces[..top], p);
    }
  }

  lemma {:induction false} KeyedOfUpper(faces: seq<Face>, k: nat, p: Vector2D)
    requires AllValid(faces) && k <= |faces|
    ensures KeyedOnTop(faces[k..], p).Some? ==> KeyedOnTop(faces, p) == KeyedOnTop(faces[k..], p)
  {
    if k < |faces| {
      assert faces[k..][..|faces| - k - 1] == faces[..|faces| - 1][k..];
      KeyedOfUpper(faces[..|faces| - 1], k, p);
    }
  }

  /** Painting twice changes nothing. */
  lemma {:induction false} CompositeTwice(upper: seq<Face>, p: Vector2D, below: PixelColor)
    requires AllValid(upper)
    ensures Composite(upper, p, Composite(upper, p, below)) == Composite(upper, p, below)
  {
    if upper != [] {
      var rest := upper[..|upper| - 1];
      if upper[|upper| - 1].Paint(p) == None {
        CompositeTwice(rest, p, below);
      }
    }
  }

  /** Redrawing from height `k` on keeps a right pixel right exactly inside the
      area, or where no transparent layer draws, or where the one that does is
      seen. */
  lemma RedrawExact(faces: seq<Face>, k: nat, area: Rectangle, p: Vector2D, below: PixelColor)
    requires AllValid(faces) && k <= |faces|
    ensures DrawAll(faces[k..], area, p, Composite(faces, p, below)) == Composite(faces, p, below) <==>
      || area.Contains(p) || KeyedOnTop(faces[k..], p).None?
      || KeyedOnTop(faces[k..], p) == Some(Composite(faces, p, below))
  {
    var upper := faces[k..];
    var c := Composite(faces, p, below);
    assert faces == faces[..k] + upper;
    CompositeSplit(faces[..k], upper, p, below);
    if area.Contains(p) {
      DrawInside(upper, area, p, c);
      CompositeTwice(upper, p, Composite(faces[..k], p, below));
    } else {
      DrawOutside(upper, area, p, c);
    }
  }

  /** In particular where no opaque layer lies over a transparent one. */
  lemma Redraw(faces: seq<Face>, k: nat, area: Rectangle, p: Vector2D, below: PixelColor)
    requires AllValid(faces) && UncoveredAt(faces, p) && k <= |faces|
    ensures DrawAll(faces[k..], area, p, Composite(faces, p, below)) == Composite(faces, p, below)
  {
    RedrawExact(faces, k, area, p, below);
    KeyedOfUpper(faces, k, p);
    if KeyedOnTop(faces[k..], p).Some? {
      KeyedIsSeen(faces, p, below);
    }
  }

  /** Redrawing from a layer on makes the pixels right that it paints, whatever
      the buffer held before. */
  lemma RedrawOver(faces: seq<Face>, k: nat, area: Rectangle, p: Vector2D, was: PixelColor, below: PixelColor)
    requires AllValid(faces) && k < |faces| && area.Contains(p)
    requires faces[k].Paint(p).Some?
    ensures DrawAll(faces[k..], area, p, was) == Composite(faces, p, below)
  {
    var face, upper := faces[k], faces[k + 1..];
    assert faces[k..] == [face] + upper;
    assert faces == faces[..k] + faces[k..];
    DrawInside(faces[k..], area, p, was);
    CompositeSplit(faces[..k], faces[k..], p, below);
    CompositeAbove(face, upper, p, was);
    CompositeAbove(face, upper, p, Composite(faces[..k], p, below));
  }

  /** A layer that does not paint `p` can be left out. */
  lemma CompositeWithout(faces: seq<Face>, k: nat, p: Vector2D, below: PixelColor)
    requires AllValid(faces) && k < |faces| && faces[k].Paint(p) == None
    ensures Composite(faces, p, below) == Composite(Without(faces, k), p, below)
  {
    var lower, face, upper := faces[..k], faces[k], faces[k + 1..];
    assert faces == lower + ([face] + upper);
    CompositeSplit(lower, [face] + upper, p, below);
    CompositeAbove(face, upper, p, Composite(lower, p, below));
    CompositeSplit(lower, upper, p, below);
  }

  /** Changing what one layer paints elsewhere does not change `p`. */
  lemma CompositeSame(faces: seq<Face>, k: nat, face: Face, p: Vector2D, below: PixelColor)
    requires AllValid(faces) && k < |faces| && face.Valid() && face.Paint(p) == faces[k].Paint(p)
    ensures Composite(faces[k := face], p, below) == Composite(faces, p, below)
  {
    var lower, upper := faces[..k], faces[k + 1..];
    assert faces == lower + ([faces[k]] + upper);
    assert faces[k := face] == lower + ([face] + upper);
    CompositeSplit(lower, [faces[k]] + upper, p, below);
    CompositeSplit(lower, [face] + upper, p, below);
    CompositeAbove(face, upper, p, Composite(lower, p, below));
    CompositeAbove(faces[k], upper, p, Composite(lower, p, below));
  }

  /** One pixel through `Move`: the old area is drawn with the layer at its new
      place, then the layer's own area. */
  lemma MovedPixel(faces: seq<Face>, k: nat, pos: Vector2D, p: Vector2D, below: PixelColor)
    requires AllValid(faces) && k < |faces|
    requires
      var moved := faces[k := faces[k].(pos := pos)];
      moved[0].ink.Opaque? && moved[0].Area().Contains(p) && UncoveredAt(moved, p)
    ensures AllValid(faces[k := faces[k].(pos := pos)])
    ensures
      var moved := faces[k := faces[k].(pos := pos)];
      var first := DrawAll(moved, faces[k].Area(), p, Composite(faces, p, below));
      && DrawAll(moved[k..], moved[k].Area(), p, first) == Composite(moved, p, below)
      && (faces[k].Area().Contains(p) ==> first == Composite(moved, p, below))
      && (!faces[k].Area().Contains(p) && !moved[k].Area().Contains(p) ==>
            Composite(faces, p, below) == Composite(moved, p, below))
  {
    var moved := faces[k := faces[k].(pos := pos)];
    var oldArea, was := faces[k].Area(), Composite(faces, p, below);
    var first := DrawAll(moved, oldArea, p, was);
    if oldArea.Contains(p) {
      DrawInside(moved, oldArea, p, was);
      BelowCovered(moved, p, was, below);
      Redraw(moved, k, moved[k].Area(), p, below);
    } else if moved[k].Paint(p).Some? {
      RedrawOver(moved, k, moved[k].Area(), p, first, below);
    } else {
      CompositeSame(faces, k, moved[k], p, below);
      assert moved[0..] == moved;
      Redraw(moved, 0, oldArea, p, below);
      Redraw(moved, k, moved[k].Area(), p, below);
    }
  }

  /** One pixel through `Draw(id, area)` after layer `k` became `face`: it is
      right exactly where the layer paints inside the area, where a transparent
      layer from there on draws, or where the composition did not change. */
  lemma ChangedExact(faces: seq<Face>, k: nat, face: Face, area: Rectangle, p: Vector2D, below: PixelColor)
    requires AllValid(faces) && k < |faces| && face.Valid() && UncoveredAt(faces[k := face], p)
    ensures AllValid(faces[k := face])
    ensures
      var changed := faces[k := face];
      DrawAll(changed[k..], area, p, Composite(faces, p, below)) == Composite(changed, p, below) <==>
        || (area.Contains(p) && face.Paint(p).Some?)
        || KeyedOnTop(changed[k..], p).Some?
        || Composite(faces, p, below) == Composite(changed, p, below)
  {
    var changed, was := faces[k := face], Composite(faces, p, below);
    KeyedOfUpper(changed, k, p);
    if KeyedOnTop(changed[k..], p).Some? {
      KeyedIsSeen(changed, p, below);
    }
    if !area.Contains(p) {
      DrawOutside(changed[k..], area, p, was);
    } else if face.Paint(p).Some? {
      RedrawOver(changed, k, area, p, was, below);
    } else {
      ErasedPixel(faces, k, face, area, p, below);
    }
  }

  /** The same on both buffers: the screen takes over the area. A pixel of either
      is right exactly where the layer paints inside the area or where the
      composition did not change. */
  lemma DrawnPixel(faces: seq<Face>, k: nat, face: Face, area: Rectangle, p: Vector2D, below: PixelColor)
    requires AllValid(faces) && k < |faces| && face.Valid() && UncoveredAt(faces[k := face], p)
    ensures AllValid(faces[k := face])
    ensures
      var changed := faces[k := face];
      var was, now := Composite(faces, p, below), Composite(changed, p, below);
      var back := DrawAll(changed[k..], area, p, was);
      var shown := if area.Contains(p) then back else was;
      back == now && shown == now <==> (area.Contains(p) && face.Paint(p).Some?) || was == now
  {
    ChangedExact(faces, k, face, area, p, below);
    if area.Contains(p) && face.Paint(p) == None {
      ErasedPixel(faces, k, face, area, p, below);
    }
  }

  /** A stack seen from one of its layers. */
  lemma CompositeAt(faces: seq<Face>, k: nat, p: Vector2D, below: PixelColor)
    requires AllValid(faces) && k < |faces|
    ensures faces[k..] == [faces[k]] + faces[k + 1..]
    ensures
      var base := Composite(faces[..k], p, below);
      Composite(faces, p, below) ==
        Composite(faces[k + 1..], p, match faces[k].Paint(p) case Some(c) => c case None => base)
  {
    var lower, upper := faces[..k], faces[k + 1..];
    assert faces == lower + ([faces[k]] + upper);
    CompositeSplit(lower, [faces[k]] + upper, p, below);
    CompositeAbove(faces[k], upper, p, Composite(lower, p, below));
  }

  /** Where the layer paints nothing, the pixel is drawn by those above it, or
      stays what it was. */
  lemma ErasedPixel(faces: seq<Face>, k: nat, face: Face, area: Rectangle, p: Vector2D, below: PixelColor)
    requires AllValid(faces) && k < |faces| && face.Valid() && area.Contains(p) && face.Paint(p) == None
    ensures AllValid(faces[k := face])
    ensures
      var changed := faces[k := face];
      DrawAll(changed[k..], area, p, Composite(faces, p, below)) == Composite(faces, p, below)
    ensures KeyedOnTop(faces[k := face][k..], p).Some? ==>
      Composite(faces, p, below) == Composite(faces[k := face], p, below)
  {
    hide Composite, DrawAll, KeyedOnTop, Face.Paint;
    var changed, upper, was := faces[k := face], faces[k + 1..], Composite(faces, p, below);
    var base := Composite(faces[..k], p, below);
    var painted := match faces[k].Paint(p) case Some(c) => c case None => base;
    assert changed[..k] == faces[..k] && changed[k + 1..] == upper;
    CompositeAt(faces, k, p, below);
    CompositeAt(changed, k, p, below);
    CompositeAbove(face, upper, p, was);
    DrawInside(changed[k..], area, p, was);
    CompositeTwice(upper, p, painted);
    if KeyedOnTop(changed[k..], p).Some? {
      KeyedPaints(face, upper, p, base, painted);
    }
  }

  /** What a transparent layer draws does not depend on what was below. */
  lemma {:induction false} KeyedPaints(face: Face, upper: seq<Face>, p: Vector2D, a: PixelColor, b: PixelColor)
    requires face.Valid() && AllValid(upper) && face.Paint(p) == None
    requires AllValid([face] + upper) && KeyedOnTop([face] + upper, p).Some?
    ensures Composite(upper, p, a) == Composite(upper, p, b)
  {
    var faces := [face] + upper;
    if upper == [] {
      assert false;
    } else {
      assert faces[..|faces| - 1] == [face] + upper[..|upper| - 1];
      if upper[|upper| - 1].Paint(p) == None {
        KeyedPaints(face, upper[..|upper| - 1], p, a, b);
      }
    }
  }

  /** One pixel when a layer takes another height, painting there what it paints,
      and is redrawn. */
  lemma RestackedPixel(before: seq<Face>, after: seq<Face>, k: nat, p: Vector2D, below: PixelColor)
    requires AllValid(before) && AllValid(after) && UncoveredAt(after, p)
    requires k < |after| && after[k].ink.Opaque?
    requires !after[k].Area().Contains(p) ==> Composite(before, p, below) == Composite(Without(after, k), p, below)
    ensures DrawAll(after[k..], after[k].Area(), p, Composite(before, p, below)) == Composite(after, p, below)
    ensures !after[k].Area().Contains(p) ==> Composite(before, p, below) == Composite(after, p, below)
  {
    if after[k].Area().Contains(p) {
      RedrawOver(after, k, after[k].Area(), p, Composite(before, p, below), below);
    } else {
      CompositeWithout(after, k, p, below);
      Redraw(after, k, after[k].Area(), p, below);
    }
  }

  // Which arrangements of layers incremental drawing can show

  const BLACK := PixelColor(0, 0, 0)
  const WHITE := PixelColor(255, 255, 255)

  /** The same places, sizes and kinds of windows, with any contents. */
  ghost predicate SameArrangement(a: seq<Face>, b: seq<Face>) {
    |a| == |b| && forall i :: 0 <= i < |a| ==>
      a[i].pos == b[i].pos && a[i].size == b[i].size
      && a[i].ink.Opaque? == b[i].ink.Opaque? && a[i].ink.Keyed? == b[i].ink.Keyed?
  }

  /** Drawing all layers in an area leaves the composed pixel as it is. */
  ghost predicate KeepsPixel(faces: seq<Face>, area: Rectangle, p: Vector2D)
    requires AllValid(faces)
  {
    DrawAll(faces, area, p, Composite(faces, p, BLACK)) == Composite(faces, p, BLACK)
  }

  /** Opaque layers all black; transparent ones see-through, but the i-th one
      all white. */
  function Dressed(faces: seq<Face>, i: nat): (r: seq<Face>)
    ensures |r| == |faces|
  {
    seq(|faces|, n requires 0 <= n < |faces| => Dress(faces[n], n == i))
  }

  function Dress(face: Face, white: bool): Face {
    match face.ink
    case Blank => face
    case Opaque(pixels) => face.(ink := Opaque(seq(|pixels|, _ => BLACK)))
    case Keyed(rows, _) =>
      var color := if white then WHITE else BLACK;
      face.(ink := Keyed(seq(|rows|, y requires 0 <= y < |rows| => seq(|rows[y]|, _ => color)), BLACK))
  }

  lemma DressFacts(face: Face, white: bool, p: Vector2D)
    requires face.Valid()
    ensures
      var d := Dress(face, white);
      && d.Valid() && d.pos == face.pos && d.size == face.size
      && d.ink.Opaque? == face.ink.Opaque? && d.ink.Keyed? == face.ink.Keyed?
      && d.Paint(p) ==
           (if !face.Area().Contains(p) || face.ink.Blank? then None
            else if face.ink.Opaque? then Some(BLACK)
            else if white then Some(WHITE) else None)
  {
    if face.Area().Contains(p) && face.ink.Opaque? {
      var q := p.Minus(face.pos);
      AreaCell(Rectangle(Vector2D(0, 0), face.size), |face.ink.pixels|, face.size.x, q);
      CellInBounds(q, |face.ink.pixels|, face.size.x);
    }
  }

  lemma {:induction false} DressedDraws(faces: seq<Face>, i: nat, j: nat, n: nat, p: Vector2D)
    requires AllValid(faces) && i < j < |faces| && faces[i].ink.Keyed? && faces[j].ink.Opaque?
    requires faces[i].Area().Contains(p) && faces[j].Area().Contains(p)
    requires AllValid(Dressed(faces, i)) && n <= |faces|
    ensures n > i ==> KeyedOnTop(Dressed(faces, i)[..n], p) == Some(WHITE)
    ensures n > j ==> Composite(Dressed(faces, i)[..n], p, BLACK) == BLACK
  {
    hide Dressed, Dress;
    var d := Dressed(faces, i);
    if n > 0 {
      assert d[..n][..n - 1] == d[..n - 1] && d[..n][n - 1] == d[n - 1];
      DressedDraws(faces, i, j, n - 1, p);
      DressedAt(faces, i, n - 1);
      DressFacts(faces[n - 1], n - 1 == i, p);
    }
  }

  lemma DressedAt(faces: seq<Face>, i: nat, n: nat)
    requires n < |faces|
    ensures Dressed(faces, i)[n] == Dress(faces[n], n == i)
  {
  }

  /** Incremental drawing can show an arrangement of layers, whatever their
      contents, exactly when on the screen no opaque layer overlaps a transparent
      one below it. */
  lemma UncoveredExact(faces: seq<Face>, screen: Rectangle)
    requires AllValid(faces)
    ensures Uncovered(faces, screen) <==>
      forall other, area, p: Vector2D ::
        AllValid(other) && SameArrangement(faces, other) && screen.Contains(p) ==> KeepsPixel(other, area, p)
  {
    if Uncovered(faces, screen) {
      forall other, area, p: Vector2D | AllValid(other) && SameArrangement(faces, other) && screen.Contains(p)
        ensures KeepsPixel(other, area, p)
      {
        assert UncoveredAt(faces, p);
        assert UncoveredAt(other, p);
        assert other[0..] == other;
        Redraw(other, 0, area, p, BLACK);
      }
    } else {
      var p: Vector2D :| screen.Contains(p) && !UncoveredAt(faces, p);
      var i, j :| 0 <= i < j < |faces| && faces[i].ink.Keyed? && faces[j].ink.Opaque?
        && faces[i].Area().Contains(p) && faces[j].Area().Contains(p);
      CoveredBreaks(faces, i, j, p);
    }
  }

  lemma CoveredBreaks(faces: seq<Face>, i: nat, j: nat, p: Vector2D)
    requires AllValid(faces) && i < j < |faces| && faces[i].ink.Keyed? && faces[j].ink.Opaque?
    requires faces[i].Area().Contains(p) && faces[j].Area().Contains(p)
    ensures AllValid(Dressed(faces, i)) && SameArrangement(faces, Dressed(faces, i))
    ensures !KeepsPixel(Dressed(faces, i), Rectangle(p, Vector2D(0, 0)), p)
  {
    var d, area := Dressed(faces, i), Rectangle(p, Vector2D(0, 0));
    forall n | 0 <= n < |faces|
      ensures d[n].Valid() && d[n].pos == faces[n].pos && d[n].size == faces[n].size
      ensures d[n].ink.Opaque? == faces[n].ink.Opaque? && d[n].ink.Keyed? == faces[n].ink.Keyed?
    {
      DressFacts(faces[n], n == i, p);
    }
    DressedDraws(faces, i, j, |faces|, p);
    assert d[..|faces|] == d;
    DrawOutside(d, area, p, Composite(d, p, BLACK));
  }

  /** A stack that breaks: a background, a transparent layer, an opaque one over
      it and a transparent one on top that does not paint there. */
  function Breaking(): seq<Face> {
    var one := Vector2D(1, 1);
    var origin := Vector2D(0, 0);
    [Face(origin, one, Opaque([BLACK])), Face(origin, one, Keyed([[WHITE]], BLACK)),
     Face(origin, one, Opaque([BLACK])), Face(origin, one, Keyed([[WHITE]], WHITE))]
  }

  lemma BreakingBreaks()
    ensures AllValid(Breaking()) && !KeepsPixel(Breaking(), Rectangle(Vector2D(0, 0), Vector2D(0, 0)), Vector2D(0, 0))
  {
    var f, p := Breaking(), Vector2D(0, 0);
    var area := Rectangle(Vector2D(0, 0), Vector2D(0, 0));
    RowStartIsProduct(1, 1);
    RowStartIsProduct(1, 0);
    assert AllValid(f);
    assert f[3].Paint(p) == None && f[2].Paint(p) == Some(BLACK) && f[1].Paint(p) == Some(WHITE);
    assert f[..3][..2] == f[..2] && f[..3][2] == f[2] && f[..2][1] == f[1];
    assert Composite(f, p, BLACK) == Composite(f[..3], p, BLACK) == BLACK;
    assert KeyedOnTop(f, p) == KeyedOnTop(f[..3], p) == KeyedOnTop(f[..2], p) == Some(WHITE);
    DrawOutside(f, area, p, BLACK);
  }

  /** A transparent window over a background, and the window with its one pixel
      erased. */
  function Shown(): seq<Face> {
    var one, origin := Vector2D(1, 1), Vector2D(0, 0);
    [Face(origin, one, Opaque([BLACK])), Face(origin, one, Keyed([[WHITE]], BLACK))]
  }

  function Erased(): Face {
    Face(Vector2D(0, 0), Vector2D(1, 1), Keyed([[BLACK]], BLACK))
  }

  lemma ShownPaints()
    ensures AllValid(Shown()) && Erased().Valid()
    ensures
      var p := Vector2D(0, 0);
      && Shown()[0].Paint(p) == Some(BLACK) && Shown()[1].Paint(p) == Some(WHITE) && Erased().Paint(p) == None
  {
    var f, e, p := Shown(), Erased(), Vector2D(0, 0);
    RowStartIsProduct(1, 1);
    RowStartIsProduct(1, 0);
    assert AllValid(f) && e.Valid();
    assert f[0].Paint(p) == Some(BLACK) && f[1].Paint(p) == Some(WHITE) && e.Paint(p) == None;
  }

  lemma CompositeTwo(a: Face, b: Face, p: Vector2D, below: PixelColor)
    requires a.Valid() && b.Valid() && a.Paint(p).Some?
    ensures AllValid([a, b]) && AllValid([b]) && [a, b][1..] == [b]
    ensures Composite([a, b], p, below) == match b.Paint(p) case Some(c) => c case None => a.Paint(p).value
  {
    hide Face.Paint, Face.Valid;
    assert [a, b] == [a] + [b] && [b][..0] == [];
    CompositeAbove(a, [b], p, below);
  }

  /** Whatever area is drawn, the erased pixel stays on the screen. */
  lemma ErasedStays(area: Rectangle)
    ensures AllValid(Shown()) && Erased().Valid()
    ensures
      var p, erased := Vector2D(0, 0), Shown()[1 := Erased()];
      && UncoveredAt(erased, p)
      && DrawAll(erased[1..], area, p, Composite(Shown(), p, BLACK)) == WHITE && Composite(erased, p, BLACK) == BLACK
  {
    ShownPaints();
    hide Face.Paint, Face.Valid;
    var f, e, p := Shown(), Erased(), Vector2D(0, 0);
    assert f == [f[0], f[1]] && f[1 := e] == [f[0], e] && [e][..0] == [];
    CompositeTwo(f[0], f[1], p, BLACK);
    CompositeTwo(f[0], e, p, BLACK);
    hide Composite;
  }
}
