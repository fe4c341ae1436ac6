/** The layer stack and its incremental drawing (kernel/layer.cpp). */
module Layers {
  import opened Wrappers
  import opened Graphics
  import opened FrameBuffers
  import opened Composition
  import opened Sequences
  import opened StackOrder
  import opened Windows

  class Layer {
    const id: nat
    var pos: Vector2D
    var window: Window?
    var draggable: bool

    constructor (id: nat)
      ensures this.id == id && pos == Vector2D(0, 0) && window == null && !draggable
    {
      this.id := id;
      pos := Vector2D(0, 0);
      window := null;
      draggable := false;
    }

    ghost predicate Valid()
      reads `window, (if window == null then {} else {window})`rows
    {
      window != null ==> window.Valid()
    }

    ghost function View(): Face
      reads this, window, if window == null then {} else {window.shadow.data}
    {
      if window == null then Face(pos, Vector2D(0, 0), Blank) else Face(pos, window.Size(), window.Ink())
    }

    /** The drawn-to buffer is of the window's format and not its own. */
    ghost predicate DrawsOn(dst: FrameBuffer)
      reads `window
    {
      window != null ==>
        dst.data != window.shadow.data && dst.format == window.shadow.format && dst.format != Unsupported
    }

    method DrawTo(dst: FrameBuffer, area: Rectangle)
      requires Valid() && dst.Valid() && DrawsOn(dst) && area.Copyable()
      modifies dst.data
      ensures View().Valid()
      ensures forall p: Vector2D {:trigger dst.At(p)} :: dst.Cell(p) ==>
        dst.At(p) == if dst.Outline().Contains(p) then View().DrawIn(area, p, old(dst.At(p))) else old(dst.At(p))
    {
      if window != null {
        window.DrawTo(dst, pos, area);
      }
    }
  }

  /** The faces of a stack, bottom first, and what keeps it drawable. */
  ghost predicate Shows(stack: seq<Layer>, faces: seq<Face>, back: FrameBuffer, screen: FrameBuffer)
    reads stack, set l: Layer | l in stack :: l.window,
      set l: Layer | l in stack && l.window != null :: l.window.shadow.data
  {
    && |faces| == |stack|
    && forall i :: 0 <= i < |stack| ==>
      stack[i].Valid() && stack[i].DrawsOn(back) && stack[i].DrawsOn(screen)
      && faces[i].Valid() && stack[i].View() == faces[i]
  }

  function Insert<T>(s: seq<T>, k: nat, e: T): seq<T>
    requires k <= |s|
  {
    s[..k] + [e] + s[k..]
  }

  lemma ShowsWithout(stack: seq<Layer>, faces: seq<Face>, back: FrameBuffer, screen: FrameBuffer, h: nat)
    requires Shows(stack, faces, back, screen) && h < |stack|
    ensures Shows(Without(stack, h), Without(faces, h), back, screen)
  {
    forall i | 0 <= i < |stack| - 1
      ensures Without(stack, h)[i] == stack[if i < h then i else i + 1]
      ensures Without(faces, h)[i] == faces[if i < h then i else i + 1]
    {
    }
  }

  lemma ShowsInsert(stack: seq<Layer>, faces: seq<Face>, back: FrameBuffer, screen: FrameBuffer, k: nat, layer: Layer)
    requires Shows(stack, faces, back, screen) && k <= |stack|
    requires layer.Valid() && layer.DrawsOn(back) && layer.DrawsOn(screen) && layer.View().Valid()
    ensures Shows(Insert(stack, k, layer), Insert(faces, k, layer.View()), back, screen)
  {
    forall i | 0 <= i < |stack| + 1
      ensures Insert(stack, k, layer)[i] == if i == k then layer else stack[if i < k then i else i - 1]
      ensures Insert(faces, k, layer.View())[i] == if i == k then layer.View() else faces[if i < k then i else i - 1]
    {
    }
  }

  ghost predicate SameOutside(area: Rectangle, a: seq<Face>, b: seq<Face>)
    requires AllValid(a) && AllValid(b)
  {
    forall p: Vector2D :: !area.Contains(p) ==> Composite(a, p, BLACK) == Composite(b, p, BLACK)
  }

  lemma SameWithout(faces: seq<Face>, h: nat)
    requires AllValid(faces) && h < |faces|
    ensures SameOutside(faces[h].Area(), faces, Without(faces, h))
  {
    forall p: Vector2D | !faces[h].Area().Contains(p)
      ensures Composite(faces, p, BLACK) == Composite(Without(faces, h), p, BLACK)
    {
      CompositeWithout(faces, h, p, BLACK);
    }
  }

  lemma WithoutUncovered(faces: seq<Face>, h: nat, screen: Rectangle)
    requires Uncovered(faces, screen) && h < |faces|
    ensures Uncovered(Without(faces, h), screen)
  {
    var r := Without(faces, h);
    assert forall i :: 0 <= i < |r| ==> r[i] == faces[if i < h then i else i + 1];
    forall p: Vector2D | screen.Contains(p)
      ensures UncoveredAt(r, p)
    {
      assert UncoveredAt(faces, p);
    }
  }

  /** No transparent layer below height m overlaps the area on the screen. */
  ghost predicate Clear(faces: seq<Face>, m: nat, area: Rectangle, screen: Rectangle) {
    forall i, p: Vector2D :: 0 <= i < m && i < |faces| && faces[i].ink.Keyed? && screen.Contains(p) ==>
      !(faces[i].Area().Contains(p) && area.Contains(p))
  }

  lemma ClearWithout(faces: seq<Face>, h: nat, m: nat, area: Rectangle, screen: Rectangle)
    requires 1 <= m && Clear(faces, if h < m then m else m - 1, area, screen)
    ensures Clear(if h < |faces| then Without(faces, h) else faces, m - 1, area, screen)
  {
    if h < |faces| {
      var r := Without(faces, h);
      assert forall i :: 0 <= i < |r| ==> r[i] == faces[if i < h then i else i + 1];
    }
  }

  lemma SameItself(faces: seq<Face>, area: Rectangle)
    requires AllValid(faces)
    ensures SameOutside(area, faces, faces)
  {
  }

  lemma InsertedFace(faces: seq<Face>, k: nat, face: Face)
    requires k <= |faces|
    ensures Insert(faces, k, face)[k] == face && Without(Insert(faces, k, face), k) == faces
    ensures forall i :: 0 <= i <= |faces| && i != k ==> Insert(faces, k, face)[i] == faces[if i < k then i else i - 1]
  {
  }

  lemma InsertedUncovered(faces: seq<Face>, k: nat, face: Face, screen: Rectangle)
    requires Uncovered(faces, screen) && k <= |faces| && face.ink.Opaque? && Clear(faces, k, face.Area(), screen)
    ensures Uncovered(Insert(faces, k, face), screen)
  {
    InsertedFace(faces, k, face);
    var r := Insert(faces, k, face);
    hide Insert;
    forall p: Vector2D | screen.Contains(p)
      ensures UncoveredAt(r, p)
    {
      assert UncoveredAt(faces, p);
    }
  }

  class LayerManager {
    const screen: FrameBuffer
    const backBuffer: FrameBuffer
    var layers: seq<Layer>
    var layerStack: seq<Layer>
    var latestId: nat

    ghost predicate Buffers() {
      && screen.Valid() && backBuffer.Valid() && screen.data != backBuffer.data
      && screen.width == backBuffer.width && screen.height == backBuffer.height
      && screen.format == backBuffer.format && screen.format != Unsupported
    }

    constructor (screen: FrameBuffer)
      requires screen.Valid() && screen.format != Unsupported
      ensures Buffers() && this.screen == screen && fresh(backBuffer.data)
      ensures layers == [] && layerStack == [] && latestId == 0
    {
      this.screen := screen;
      backBuffer := new FrameBuffer.Owned(screen.format, screen.width, screen.height);
      layers, layerStack, latestId := [], [], 0;
    }

    ghost function Outline(): Rectangle {
      screen.Outline()
    }

    /** Both buffers hold the full composition. */
    ghost predicate Composed(faces: seq<Face>)
      requires Buffers() && AllValid(faces)
      reads screen.data, backBuffer.data
    {
      forall p: Vector2D :: Outline().Contains(p) ==> ComposedAt(faces, p)
    }

    ghost predicate ComposedAt(faces: seq<Face>, p: Vector2D)
      requires Buffers() && AllValid(faces) && Outline().Contains(p)
      reads screen.data, backBuffer.data
    {
      && backBuffer.At(p) == Composite(faces, p, BLACK)
      && screen.At(p) == Composite(faces, p, BLACK)
    }

    /** One turn of the drawing loops. */
    method DrawOne(i: nat, area: Rectangle, ghost faces: seq<Face>)
      requires Buffers() && area.Copyable()
      requires Shows(layerStack, faces, backBuffer, screen) && i < |layerStack|
      modifies backBuffer.data
      ensures Shows(layerStack, faces, backBuffer, screen)
      ensures forall p: Vector2D {:trigger backBuffer.At(p)} :: Outline().Contains(p) ==>
        backBuffer.At(p) == faces[i].DrawIn(area, p, old(backBuffer.At(p)))
    {
      layerStack[i].DrawTo(backBuffer, area);
    }

    method CopyToScreen(area: Rectangle)
      requires Buffers() && area.Copyable()
      modifies screen.data
      ensures forall p: Vector2D {:trigger screen.At(p)} :: Outline().Contains(p) ==>
        screen.At(p) == if area.Contains(p) then backBuffer.At(p) else old(screen.At(p))
    {
      var err := screen.Copy(area.pos, backBuffer, area);
      assert area.pos.Minus(area.pos) == Vector2D(0, 0);
      forall p: Vector2D | Outline().Contains(p)
        ensures screen.At(p) == if area.Contains(p) then backBuffer.At(p) else old(screen.At(p))
      {
        assert p.Minus(Vector2D(0, 0)) == p;
        assert screen.Copies(area.pos, backBuffer, area, p) <==> area.Contains(p);
      }
    }

    /** Draws every layer inside `area`, then shows that area. */
    method DrawArea(area: Rectangle, ghost faces: seq<Face>)
      requires Buffers() && area.Copyable()
      requires Shows(layerStack, faces, backBuffer, screen)
      modifies backBuffer.data, screen.data
      ensures Shows(layerStack, faces, backBuffer, screen)
      ensures forall p: Vector2D {:trigger backBuffer.At(p)} :: Outline().Contains(p) ==>
        backBuffer.At(p) == DrawAll(faces, area, p, old(backBuffer.At(p)))
      ensures forall p: Vector2D {:trigger screen.At(p)} :: Outline().Contains(p) ==>
        screen.At(p) == if area.Contains(p) then backBuffer.At(p) else old(screen.At(p))
    {
      for i := 0 to |layerStack|
        modifies backBuffer.data
        invariant Shows(layerStack, faces, backBuffer, screen)
        invariant forall p: Vector2D {:trigger backBuffer.At(p)} :: Outline().Contains(p) ==>
          backBuffer.At(p) == DrawAll(faces[..i], area, p, old(backBuffer.At(p)))
      {
        DrawOne(i, area, faces);
        assert faces[..i + 1][..i] == faces[..i];
      }
      assert faces[..|layerStack|] == faces;
      CopyToScreen(area);
    }

    /** Layer `id` is shown at height `k`. */
    ghost predicate At(id: nat, k: nat)
      reads `layerStack
    {
      k < |layerStack| && layerStack[k].id == id
    }

    /** Layers are numbered from 1 in creation order, and the stack holds some
        of them, each once. */
    ghost predicate Valid()
      reads `layers, `layerStack, `latestId
    {
      && Buffers()
      && latestId == |layers|
      && (forall i :: 0 <= i < |layers| ==> layers[i].id == i + 1)
      && (forall layer :: layer in layerStack ==> layer in layers)
      && NoDuplicates(layerStack)
    }

    lemma UniqueIds(i: nat, j: nat)
      requires Valid() && i < |layerStack| && j < |layerStack| && layerStack[i].id == layerStack[j].id
      ensures i == j
    {
      assert layerStack[i] in layers;
      var a :| 0 <= a < |layers| && layers[a] == layerStack[i];
      assert layerStack[j] in layers;
      var b :| 0 <= b < |layers| && layers[b] == layerStack[j];
    }

    method NewLayer() returns (layer: Layer)
      requires Valid()
      modifies this`layers, this`latestId
      ensures Valid() && fresh(layer) && layers == old(layers) + [layer] && layer.id == old(latestId) + 1
    {
      latestId := latestId + 1;
      layer := new Layer(latestId);
      layers := layers + [layer];
    }

    method FindLayer(id: nat) returns (layer: Layer?)
      requires Valid()
      ensures layer == null <==> !(1 <= id <= |layers|)
      ensures layer != null ==> layer == layers[id - 1] && layer.id == id
    {
      for i := 0 to |layers|
        invariant !(1 <= id <= i)
      {
        if layers[i].id == id {
          return layers[i];
        }
      }
      return null;
    }

    lemma FoundAt(id: nat, k: nat)
      requires Valid() && At(id, k)
      ensures 1 <= id <= |layers| && layers[id - 1] == layerStack[k]
    {
      assert layerStack[k] in layers;
      var a :| 0 <= a < |layers| && layers[a] == layerStack[k];
    }

    /** The area `Draw(id, area)` redraws; two negative sides ask for all of the
        window. */
    function Damage(pos: Vector2D, size: Vector2D, area: Rectangle): (r: Rectangle)
      ensures Rectangle(pos, size).Regular() && area.Copyable() ==> r.Copyable()
    {
      if area.size.x >= 0 || area.size.y >= 0 then
        Intersect(Rectangle(pos, size), Rectangle(area.pos.Plus(pos), area.size))
      else
        Rectangle(pos, size)
    }

    /** Of the window the pixels in the area, which is given relative to it, or all
        of them for two negative sides. */
    lemma DamageIs(pos: Vector2D, size: Vector2D, area: Rectangle, p: Vector2D)
      ensures Damage(pos, size, area).Contains(p) <==>
        && Rectangle(pos, size).Contains(p)
        && ((area.size.x < 0 && area.size.y < 0) || area.Contains(p.Minus(pos)))
    {
    }

    /** Layer `id` is shown at height `k` with a window, or is not shown and `k`
        is the height of the stack. */
    ghost predicate Place(id: nat, k: nat)
      reads `layerStack, (set l: Layer | l in layerStack)`window
    {
      if k < |layerStack| then At(id, k) && layerStack[k].window != null
      else k == |layerStack| && forall i :: 0 <= i < |layerStack| ==> layerStack[i].id != id
    }

    /** `Draw(id, area)`: layer `id` and those above it, inside its window. If it
        is not shown nothing is drawn, and some area is shown again. */
    method DrawLayer(id: nat, area: Rectangle, ghost faces: seq<Face>, ghost k: nat) returns (ghost shown: Rectangle)
      requires Valid() && Shows(layerStack, faces, backBuffer, screen)
      requires Place(id, k) && area.Copyable()
      modifies backBuffer.data, screen.data
      ensures Shows(layerStack, faces, backBuffer, screen)
      ensures k < |faces| ==> shown == Damage(faces[k].pos, faces[k].size, area)
      ensures forall p: Vector2D {:trigger backBuffer.At(p)} :: Outline().Contains(p) ==>
        backBuffer.At(p) == DrawAll(faces[k..], shown, p, old(backBuffer.At(p)))
      ensures forall p: Vector2D {:trigger screen.At(p)} :: Outline().Contains(p) ==>
        screen.At(p) == if shown.Contains(p) then backBuffer.At(p) else old(screen.At(p))
    {
      var windowArea := DrawLoop(id, area, faces, k);
      CopyToScreen(windowArea);
      shown := windowArea;
    }

    /** The area that is shown is not set before the layer is found. */
    method DrawLoop(id: nat, area: Rectangle, ghost faces: seq<Face>, ghost k: nat) returns (windowArea: Rectangle)
      requires Valid() && Shows(layerStack, faces, backBuffer, screen)
      requires Place(id, k) && area.Copyable()
      modifies backBuffer.data
      ensures Shows(layerStack, faces, backBuffer, screen) && windowArea.Copyable()
      ensures k < |faces| ==> windowArea == Damage(faces[k].pos, faces[k].size, area)
      ensures DrawnUpTo(faces[k..], windowArea, old(backBuffer.data[..]))
    {
      hide DrawnUpTo, Intersect, RowStart, DrawAll;
      var draw := false;
      windowArea :| windowArea.Copyable();
      ghost var damage := if k < |faces| then Damage(faces[k].pos, faces[k].size, area) else windowArea;
      DrawnNothing(damage);
      assert faces[k..k] == [];
      assert AllValid(faces) && damage.Copyable();
      assert k < |faces| ==> layerStack[k].pos == faces[k].pos && layerStack[k].window.Size() == faces[k].size;
      hide Damage, Shows, Valid;
      for i := 0 to |layerStack|
        invariant Shows(layerStack, faces, backBuffer, screen) && windowArea.Copyable()
        invariant draw <==> k < i
        invariant draw || k == |layerStack| ==> windowArea == damage
        invariant DrawnUpTo(faces[k..if k < i then i else k], damage, old(backBuffer.data[..]))
      {
        if layerStack[i].id == id {
          assert k < |layerStack|;
          UniqueIds(i, k);
          windowArea := Damage(layerStack[i].pos, layerStack[i].window.Size(), area);
          draw := true;
        }
        if draw {
          DrawNext(i, k, windowArea, faces, old(backBuffer.data[..]));
        }
      }
      assert faces[k..|layerStack|] == faces[k..];
    }

    lemma DrawnNothing(area: Rectangle)
      requires Buffers()
      ensures DrawnUpTo([], area, backBuffer.data[..])
    {
    }

    ghost predicate DrawnUpTo(faces: seq<Face>, area: Rectangle, was: Pixels)
      requires Buffers() && AllValid(faces) && |was| == backBuffer.data.Length
      reads backBuffer.data
    {
      forall p: Vector2D {:trigger backBuffer.At(p)} :: Outline().Contains(p) ==>
        backBuffer.At(p) == DrawAll(faces, area, p, was[backBuffer.Index(p)])
    }

    method DrawNext(i: nat, ghost k: nat, area: Rectangle, ghost faces: seq<Face>, ghost was: Pixels)
      requires Buffers() && area.Copyable() && |was| == backBuffer.data.Length
      requires Shows(layerStack, faces, backBuffer, screen) && k <= i < |layerStack|
      requires DrawnUpTo(faces[k..i], area, was)
      modifies backBuffer.data
      ensures Shows(layerStack, faces, backBuffer, screen)
      ensures DrawnUpTo(faces[k..i + 1], area, was)
    {
      hide DrawAll, RowStart, Shows;
      DrawOne(i, area, faces);
      forall p: Vector2D | Outline().Contains(p)
        ensures backBuffer.At(p) == DrawAll(faces[k..i + 1], area, p, was[backBuffer.Index(p)])
      {
        assert old(backBuffer.At(p)) == DrawAll(faces[k..i], area, p, was[backBuffer.Index(p)]);
        DrawAllNext(faces, k, i, area, p, was[backBuffer.Index(p)]);
      }
    }

    lemma DrawAllNext(faces: seq<Face>, k: nat, i: nat, area: Rectangle, p: Vector2D, below: PixelColor)
      requires AllValid(faces) && k <= i < |faces|
      ensures DrawAll(faces[k..i + 1], area, p, below) == faces[i].DrawIn(area, p, DrawAll(faces[k..i], area, p, below))
    {
      assert faces[k..i + 1][..i - k] == faces[k..i];
    }

    /** The conditions under which incremental drawing composes: the bottom
        layer is opaque and covers the screen, and no opaque layer overlaps a
        transparent one below it. */
    ghost predicate Composable(faces: seq<Face>) {
      Uncovered(faces, Outline()) && Covered(faces, Outline())
    }

    /** The first drawing, of the whole screen, composes whatever was there. */
    method DrawScreen(ghost faces: seq<Face>)
      requires Valid() && Shows(layerStack, faces, backBuffer, screen) && Covered(faces, Outline())
      modifies backBuffer.data, screen.data
      ensures Shows(layerStack, faces, backBuffer, screen) && Composed(faces)
    {
      var area := Rectangle(Vector2D(0, 0), Vector2D(screen.width, screen.height));
      DrawArea(area, faces);
      forall p: Vector2D, was: PixelColor | Outline().Contains(p)
        ensures DrawAll(faces, area, p, was) == Composite(faces, p, BLACK)
      {
        DrawInside(faces, area, p, was);
        BelowCovered(faces, p, was, BLACK);
      }
    }

    /** The layers after one of them, if it is shown, changed its face. */
    ghost function Changed(faces: seq<Face>, k: nat, face: Face): seq<Face> {
      if k < |faces| then faces[k := face] else faces
    }

    /** The layer paints inside the area, or the change is not seen. */
    ghost predicate Seen(before: seq<Face>, k: nat, face: Face, area: Rectangle, p: Vector2D)
      requires AllValid(before) && face.Valid()
    {
      || (k < |before| && Damage(face.pos, face.size, area).Contains(p) && face.Paint(p).Some?)
      || Composite(before, p, BLACK) == Composite(Changed(before, k, face), p, BLACK)
    }

    /** `Draw(id, area)` after layer `id` changed in any way: both buffers,
        composed before the change, are composed again exactly when each pixel is
        one that the layer now paints inside the area or one that the change did
        not alter. */
    method Draw(id: nat, area: Rectangle, ghost before: seq<Face>, ghost k: nat, ghost face: Face)
      requires Valid() && Place(id, k) && area.Copyable()
      requires AllValid(before) && |before| == |layerStack| && Composed(before) && face.Valid()
      requires Shows(layerStack, Changed(before, k, face), backBuffer, screen)
      requires Uncovered(Changed(before, k, face), Outline())
      modifies backBuffer.data, screen.data
      ensures Shows(layerStack, Changed(before, k, face), backBuffer, screen)
      ensures Composed(Changed(before, k, face)) <==>
        forall p: Vector2D :: Outline().Contains(p) ==> Seen(before, k, face, area, p)
    {
      hide Shows, Damage, Uncovered, Covered, RowStart;
      ghost var shown := DrawLayer(id, area, Changed(before, k, face), k);
      DrawnExactly(before, k, face, area, shown, old(backBuffer.data[..]), old(screen.data[..]));
    }

    lemma DrawnExactly(
      before: seq<Face>, k: nat, face: Face, area: Rectangle, shown: Rectangle, back: Pixels, front: Pixels)
      requires Buffers() && AllValid(before) && face.Valid() && Uncovered(Changed(before, k, face), Outline())
      requires |back| == backBuffer.data.Length && |front| == screen.data.Length && k <= |before|
      requires AllValid(Changed(before, k, face))
      requires k < |before| ==> shown == Damage(face.pos, face.size, area)
      requires forall p: Vector2D {:trigger backBuffer.Index(p)} :: Outline().Contains(p) ==>
        back[backBuffer.Index(p)] == front[screen.Index(p)] == Composite(before, p, BLACK)
      requires forall p: Vector2D {:trigger backBuffer.At(p)} :: Outline().Contains(p) ==>
        backBuffer.At(p) == DrawAll(Changed(before, k, face)[k..], shown, p, back[backBuffer.Index(p)])
      requires forall p: Vector2D {:trigger screen.At(p)} :: Outline().Contains(p) ==>
        screen.At(p) == if shown.Contains(p) then backBuffer.At(p) else front[screen.Index(p)]
      ensures Composed(Changed(before, k, face)) <==>
        forall p: Vector2D :: Outline().Contains(p) ==> Seen(before, k, face, area, p)
    {
      forall p: Vector2D | Outline().Contains(p)
        ensures ComposedAt(Changed(before, k, face), p) <==> Seen(before, k, face, area, p)
      {
        assert back[backBuffer.Index(p)] == Composite(before, p, BLACK);
        if k < |before| {
          assert UncoveredAt(before[k := face], p);
          hide Damage, Composite, DrawAll, Uncovered, RowStart;
          DrawnPixel(before, k, face, shown, p, BLACK);
        }
      }
      hide Composite, DrawAll, Uncovered, RowStart;
    }

    /** `Move` and `MoveRelative` from composed buffers end in composed ones, also
        when the layer is not shown. */
    method Move(id: nat, newPos: Vector2D, ghost faces: seq<Face>, ghost k: nat)
      requires Valid() && 1 <= id <= |layers| && layers[id - 1].window != null && Place(id, k)
      requires Shows(layerStack, faces, backBuffer, screen) && Composed(faces)
      requires layers[id - 1].window.Valid() && Movable(faces, k, newPos)
      modifies {layers[id - 1]}`pos, backBuffer.data, screen.data
      ensures Valid() && layers[id - 1].pos == newPos
      ensures Shows(layerStack, Moved(faces, k, newPos), backBuffer, screen) && Composed(Moved(faces, k, newPos))
    {
      hide Composite, NoDuplicates, RowStart, ComposedAt, Uncovered, Covered;
      var layer := FindLayer(id);
      var windowSize := layer.window.Size();
      var oldPos := layer.pos;
      PlaceIs(id, k);
      layer.pos := newPos;
      ShowsMoved(faces, k, newPos);
      hide Shows;
      RedrawMoved(id, Rectangle(oldPos, windowSize), newPos, faces, k);
    }

    method MoveRelative(id: nat, posDiff: Vector2D, ghost faces: seq<Face>, ghost k: nat)
      requires Valid() && 1 <= id <= |layers| && layers[id - 1].window != null && Place(id, k)
      requires Shows(layerStack, faces, backBuffer, screen) && Composed(faces)
      requires layers[id - 1].window.Valid() && Movable(faces, k, layers[id - 1].pos.Plus(posDiff))
      modifies {layers[id - 1]}`pos, backBuffer.data, screen.data
      ensures Valid() && layers[id - 1].pos == old(layers[id - 1].pos).Plus(posDiff)
      ensures
        var moved := Moved(faces, k, old(layers[id - 1].pos).Plus(posDiff));
        Shows(layerStack, moved, backBuffer, screen) && Composed(moved)
    {
      hide Composite, NoDuplicates, RowStart, ComposedAt, Uncovered, Covered;
      var layer := FindLayer(id);
      var windowSize := layer.window.Size();
      var oldPos := layer.pos;
      PlaceIs(id, k);
      ghost var newPos := oldPos.Plus(posDiff);
      layer.pos := layer.pos.Plus(posDiff);
      ShowsMoved(faces, k, newPos);
      hide Shows;
      RedrawMoved(id, Rectangle(oldPos, windowSize), newPos, faces, k);
    }

    /** The layers after one of them, if it is shown, moved. */
    ghost function Moved(faces: seq<Face>, k: nat, pos: Vector2D): seq<Face> {
      if k < |faces| then faces[k := faces[k].(pos := pos)] else faces
    }

    /** At its new place the layer leaves the layers composable. */
    ghost predicate Movable(faces: seq<Face>, k: nat, pos: Vector2D) {
      Uncovered(Moved(faces, k, pos), Outline()) && (k < |faces| ==> Covered(Moved(faces, k, pos), Outline()))
    }

    lemma PlaceIs(id: nat, k: nat)
      requires Valid() && Place(id, k) && 1 <= id <= |layers|
      ensures k < |layerStack| ==> layerStack[k] == layers[id - 1]
      ensures forall i :: 0 <= i < |layerStack| && i != k ==> layerStack[i] != layers[id - 1]
    {
      if k < |layerStack| {
        FoundAt(id, k);
      }
    }

    lemma ShowsMoved(faces: seq<Face>, k: nat, newPos: Vector2D)
      requires |faces| == |layerStack| && forall i :: 0 <= i < |layerStack| ==>
        layerStack[i].Valid() && layerStack[i].DrawsOn(backBuffer) && layerStack[i].DrawsOn(screen)
        && faces[i].Valid() && layerStack[i].View() == if i == k then faces[i].(pos := newPos) else faces[i]
      ensures Shows(layerStack, Moved(faces, k, newPos), backBuffer, screen) && AllValid(Moved(faces, k, newPos))
    {
    }

    /** The two redraws both moves end with. */
    method RedrawMoved(id: nat, oldArea: Rectangle, ghost newPos: Vector2D, ghost faces: seq<Face>, ghost k: nat)
      requires Valid() && Place(id, k) && |faces| == |layerStack| && oldArea.Regular()
      requires AllValid(faces) && Composed(faces) && Movable(faces, k, newPos)
      requires Shows(layerStack, Moved(faces, k, newPos), backBuffer, screen)
      requires k < |faces| ==> oldArea == faces[k].Area()
      modifies backBuffer.data, screen.data
      ensures Shows(layerStack, Moved(faces, k, newPos), backBuffer, screen)
      ensures Composed(Moved(faces, k, newPos))
    {
      hide Shows;
      ghost var moved := Moved(faces, k, newPos);
      DrawArea(oldArea, moved);
      ghost var shown := DrawLayer(id, Rectangle(Vector2D(0, 0), Vector2D(-1, -1)), moved, k);
      forall p: Vector2D | Outline().Contains(p)
        ensures ComposedAt(moved, p)
      {
        assert UncoveredAt(moved, p);
        if k < |faces| {
          MovedPixel(faces, k, newPos, p, BLACK);
        } else {
          assert moved[0..] == moved;
          Redraw(moved, 0, oldArea, p, BLACK);
        }
      }
    }

    /** `std::find` on the stack: the size of the stack when absent. */
    method FindInStack(layer: Layer) returns (i: nat)
      ensures i <= |layerStack|
      ensures i < |layerStack| ==> layerStack[i] == layer
      ensures layer !in layerStack[..i]
    {
      i := 0;
      while i < |layerStack| && layerStack[i] != layer
        invariant i <= |layerStack| && layer !in layerStack[..i]
      {
        i := i + 1;
      }
    }

    method GetHeight(id: nat) returns (height: int)
      ensures -1 <= height < |layerStack|
      ensures height >= 0 ==> layerStack[height].id == id
      ensures forall h :: 0 <= h < (if height < 0 then |layerStack| else height) ==> layerStack[h].id != id
    {
      for h := 0 to |layerStack|
        invariant forall j :: 0 <= j < h ==> layerStack[j].id != id
      {
        if layerStack[h].id == id {
          return h;
        }
      }
      return -1;
    }

    method Hide(id: nat)
      requires Valid() && 1 <= id <= |layers|
      modifies this`layerStack
      ensures Valid() && layerStack == Others(old(layerStack), {layers[id - 1]})
    {
      var found := FindLayer(id);
      var layer: Layer := found;
      var pos := FindInStack(layer);
      StepKeeps(layerStack, StackOp.UpDown(layer, -1));
      if pos != |layerStack| {
        OthersIsWithout(layerStack, pos);
        layerStack := layerStack[..pos] + layerStack[pos + 1..];
      } else {
        assert layerStack[..pos] == layerStack;
        OthersOfNone(layerStack, {layer});
      }
    }

    /** The layer ends among the others, which keep their order, at the asked
        height or on top; a negative height hides it. */
    method UpDown(id: nat, height: int)
      requires Valid() && 1 <= id <= |layers|
      modifies this`layerStack
      ensures Valid() && layerStack == Step(old(layerStack), StackOp.UpDown(layers[id - 1], height))
    {
      if height < 0 {
        Hide(id);
        return;
      }
      var found := FindLayer(id);
      var layer: Layer := found;
      StepKeeps(layerStack, StackOp.UpDown(layer, height));
      var newHeight := height;
      if newHeight > |layerStack| {
        newHeight := |layerStack|;
      }
      var oldPos := FindInStack(layer);
      var newPos := newHeight;
      if oldPos == |layerStack| {
        assert layerStack[..oldPos] == layerStack;
        OthersOfNone(layerStack, {layer});
        layerStack := layerStack[..newPos] + [layer] + layerStack[newPos..];
        return;
      }
      OthersIsWithout(layerStack, oldPos);
      if newPos == |layerStack| {
        newPos := newPos - 1;
      }
      layerStack := layerStack[..oldPos] + layerStack[oldPos + 1..];
      layerStack := layerStack[..newPos] + [layer] + layerStack[newPos..];
    }

    /** The windows of all layers are well-formed. */
    ghost predicate Sound()
      reads `layers, (set l: Layer | l in layers)`window
      reads (set l: Layer | l in layers && l.window != null :: l.window)`rows
    {
      forall i :: 0 <= i < |layers| ==> layers[i].Valid()
    }

    /** No other shown layer has the window of `layer` or its buffer. */
    ghost predicate OwnWindow(layer: Layer)
      reads `layerStack, {layer}`window, (set l: Layer | l in layerStack)`window
    {
      layer.window != null && forall other :: other in layerStack && other != layer && other.window != null ==>
        other.window != layer.window && other.window.shadow.data != layer.window.shadow.data
    }

    /** Can be shown as an opaque layer. */
    ghost predicate Presentable(layer: Layer)
      reads `layerStack, {layer}`window, (set l: Layer | l in layerStack)`window, layer.window
    {
      && OwnWindow(layer) && layer.Valid() && layer.window.transparentColor == None
      && layer.DrawsOn(backBuffer) && layer.DrawsOn(screen)
    }

    method WriteTo(layer: Layer, writes: seq<PixelWrite>)
      requires Sound() && layer.window != null && layer.Valid()
      requires forall w :: w in writes ==> Inner(layer.window, w.pos)
      modifies layer.window`rows, layer.window.shadow.data
      ensures Sound() && layer.Valid()
      ensures layer.window.Shown() == old(layer.window.Shown()).After(writes, layer.window.width)
    {
      hide RowsAfter, ShadowAfter, RowStart;
      layer.window.WriteAll(writes);
      forall i | 0 <= i < |layers|
        ensures layers[i].Valid()
      {
        assert old(layers[i].Valid());
      }
    }

    /** All that is written is drawn. */
    ghost predicate Reaches(area: Rectangle, writes: seq<PixelWrite>) {
      || (area.size.x < 0 && area.size.y < 0)
      || (area.Copyable() && forall w :: w in writes ==> area.Contains(w.pos))
    }

    /** A layer's window is written to and `Draw(id, area)` called, be the layer
        shown or not: composed buffers stay composed. */
    method Repaint(id: nat, writes: seq<PixelWrite>, area: Rectangle, ghost before: seq<Face>, ghost k: nat)
      returns (ghost face: Face)
      requires Valid() && Sound() && 1 <= id <= |layers| && Place(id, k) && Presentable(layers[id - 1])
      requires forall w :: w in writes ==> Inner(layers[id - 1].window, w.pos)
      requires area.Copyable() && Reaches(area, writes)
      requires Shows(layerStack, before, backBuffer, screen) && Composed(before) && Uncovered(before, Outline())
      modifies layers[id - 1].window`rows, layers[id - 1].window.shadow.data, backBuffer.data, screen.data
      ensures Shows(layerStack, Changed(before, k, face), backBuffer, screen) && Composed(Changed(before, k, face))
      ensures Uncovered(Changed(before, k, face), Outline())
      ensures Covered(before, Outline()) ==> Covered(Changed(before, k, face), Outline())
      ensures Sound() && (k < |before| ==> Repainted(before[k], face, writes))
      ensures
        var w := layers[id - 1].window;
        w.Shown() == old(w.Shown()).After(writes, w.width)
    {
      hide Composite, RowsAfter, ShadowAfter, RowStart, Uncovered, Covered, Damage, Reaches;
      PlaceIs(id, k);
      var layer := FindLayer(id);
      ghost var was := layer.View();
      WriteTo(layer, writes);
      face := layer.View();
      assert k < |before| ==> before[k] == was && Repainted(was, face, writes);
      SameFace(before, k, face, Outline());
      ShowsChanged(layer, before, k);
      hide Shows, Presentable, Layer.Valid, NoDuplicates, ComposedAt;
      Draw(id, area, before, k, face);
      forall p: Vector2D | Outline().Contains(p)
        ensures Seen(before, k, face, area, p)
      {
        RepaintSeen(before, k, face, writes, area, p);
      }
    }

    /** The face of an opaque layer after writes to its window. */
    ghost predicate Repainted(before: Face, after: Face, writes: seq<PixelWrite>) {
      && before.Area() == after.Area() && before.ink.Opaque? && after.ink.Opaque? && after.size.x >= 0
      && after.ink.pixels == ShadowAfter(before.ink.pixels, after.size.x, writes)
      && forall w :: w in writes ==> 0 <= w.pos.x < after.size.x && 0 <= w.pos.y < after.size.y
    }

    /** Only `layer` shows another face. */
    lemma ShowsChanged(layer: Layer, before: seq<Face>, k: nat)
      requires |before| == |layerStack| && (k < |layerStack| ==> layerStack[k] == layer) && layer.View().Valid()
      requires forall i :: 0 <= i < |layerStack| ==>
        layerStack[i].Valid() && layerStack[i].DrawsOn(backBuffer) && layerStack[i].DrawsOn(screen)
        && before[i].Valid() && (i != k ==> layerStack[i].View() == before[i])
      ensures Shows(layerStack, Changed(before, k, layer.View()), backBuffer, screen)
    {
    }

    /** A layer may change its contents if it stays opaque and where it is. */
    lemma SameFace(before: seq<Face>, k: nat, face: Face, outline: Rectangle)
      requires k < |before| ==> before[k].ink.Opaque? && face.ink.Opaque? && face.Area() == before[k].Area()
      ensures Uncovered(before, outline) ==> Uncovered(Changed(before, k, face), outline)
      ensures Covered(before, outline) ==> Covered(Changed(before, k, face), outline)
    {
      if Uncovered(before, outline) {
        forall p: Vector2D | outline.Contains(p)
          ensures UncoveredAt(Changed(before, k, face), p)
        {
          assert UncoveredAt(before, p);
        }
      }
    }

    /** Where it was not written to, nothing changes; where it was, it paints. */
    lemma RepaintSeen(before: seq<Face>, k: nat, face: Face, writes: seq<PixelWrite>, area: Rectangle, p: Vector2D)
      requires AllValid(before) && face.Valid() && Reaches(area, writes)
      requires k < |before| ==> Repainted(before[k], face, writes)
      ensures Seen(before, k, face, area, p)
    {
      hide RowStart, ShadowAfter, Composite;
      if k < |before| {
        if !face.Area().Contains(p) {
          CompositeSame(before, k, face, p, BLACK);
        } else if !Damage(face.pos, face.size, area).Contains(p) {
          var q := p.Minus(face.pos);
          assert !area.Contains(q) by {
            assert q.Plus(face.pos) == p;
          }
          AreaCell(Rectangle(Vector2D(0, 0), face.size), |face.ink.pixels|, face.size.x, q);
          CellInBounds(q, |face.ink.pixels|, face.size.x);
          ShadowLength(before[k].ink.pixels, face.size.x, writes);
          UnwrittenStays(before[k].ink.pixels, face.size.x, writes, q);
          CompositeSame(before, k, face, p, BLACK);
        }
      }
    }

    /** The stack and the faces without `layer`, and that inserting it under the
        layer at height m is what `UpDown` does. */
    lemma Rest(layer: Layer, before: seq<Face>, m: nat) returns (stack: seq<Layer>, faces: seq<Face>)
      requires Valid() && 1 <= m < |layerStack| && layer != layerStack[m] && layer.window != null
      requires Shows(layerStack, before, backBuffer, screen) && Uncovered(before, Outline())
      requires Clear(before, Under(layerStack, layer, m), Rectangle(layer.pos, layer.window.Size()), Outline())
      ensures layer !in stack && m <= |stack| && forall other :: other in stack ==> other in layerStack
      ensures Step(layerStack, StackOp.UpDown(layer, m - 1)) == Insert(stack, m - 1, layer)
      ensures Shows(stack, faces, backBuffer, screen) && Uncovered(faces, Outline())
      ensures Clear(faces, m - 1, Rectangle(layer.pos, layer.window.Size()), Outline())
      ensures SameOutside(Rectangle(layer.pos, layer.window.Size()), before, faces)
      ensures layerStack[0] != layer ==> faces[0] == before[0]
    {
      hide Step, Uncovered, SameOutside, Clear;
      var h: nat;
      stack, h := RaisedUnder(layerStack, layer, m);
      if h < |layerStack| {
        assert before[h].Area() == Rectangle(layer.pos, layer.window.Size());
        faces := Without(before, h);
        ShowsWithout(layerStack, before, backBuffer, screen, h);
        hide Shows, Valid;
        WithoutUncovered(before, h, Outline());
        SameWithout(before, h);
        ClearWithout(before, h, m, Rectangle(layer.pos, layer.window.Size()), Outline());
      } else {
        faces := before;
        hide Shows, Valid;
        ClearWithout(before, h, m, Rectangle(layer.pos, layer.window.Size()), Outline());
        SameItself(before, Rectangle(layer.pos, layer.window.Size()));
      }
    }

    /** The faces once the layer was inserted among the others. */
    lemma RaisedFaces(before: seq<Face>, rest: seq<Face>, k: nat, face: Face, wasBottom: bool)
      returns (after: seq<Face>)
      requires Uncovered(rest, Outline()) && k < |rest| && face.ink.Opaque? && Clear(rest, k, face.Area(), Outline())
      requires before != [] && if wasBottom then before[0].Area() == face.Area() else rest[0] == before[0]
      ensures after == Insert(rest, k, face) && |after| == |rest| + 1 && after[k] == face && Without(after, k) == rest
      ensures Uncovered(after, Outline())
      ensures Covered(before, Outline()) && (wasBottom <==> k == 0) ==> Covered(after, Outline())
    {
      after := Insert(rest, k, face);
      InsertedFace(rest, k, face);
      InsertedUncovered(rest, k, face, Outline());
    }

    /** The window of a layer is repainted; the others show what they did. */
    method RepaintOnly(
      layer: Layer, writes: seq<PixelWrite>, ghost stack: seq<Layer>, ghost faces: seq<Face>, ghost k: nat)
      returns (ghost face: Face)
      requires Valid() && Sound() && layer !in stack && (forall other :: other in stack ==> other in layerStack)
      requires Presentable(layer) && (forall w :: w in writes ==> Inner(layer.window, w.pos))
      requires Shows(stack, faces, backBuffer, screen) && k <= |stack|
      modifies layer.window`rows, layer.window.shadow.data
      ensures Sound() && face == layer.View() && face.Valid() && face.ink.Opaque?
      ensures layer.window.Shown() == old(layer.window.Shown()).After(writes, layer.window.width)
      ensures face.Area() == Rectangle(layer.pos, layer.window.Size())
      ensures Shows(Insert(stack, k, layer), Insert(faces, k, face), backBuffer, screen)
    {
      hide Insert, RowsAfter, ShadowAfter, RowStart, NoDuplicates;
      WriteTo(layer, writes);
      face := layer.View();
      ShowsInsert(stack, faces, backBuffer, screen, k, layer);
    }

    /** The second half of `Activate`: the window is repainted, the layer goes
        right under the height of the mouse layer and is drawn. */
    method Raise(id: nat, writes: seq<PixelWrite>, mouse: nat, ghost m: nat, ghost before: seq<Face>)
      returns (ghost after: seq<Face>)
      requires Valid() && Sound() && 1 <= id <= |layers| && 1 <= m && At(mouse, m) && id != mouse
        && Presentable(layers[id - 1])
      requires forall w :: w in writes ==> Inner(layers[id - 1].window, w.pos)
      requires Shows(layerStack, before, backBuffer, screen) && Composed(before) && Uncovered(before, Outline())
      requires
        var layer := layers[id - 1];
        Clear(before, Under(layerStack, layer, m), Rectangle(layer.pos, layer.window.Size()), Outline())
      modifies this`layerStack, layers[id - 1].window`rows, layers[id - 1].window.shadow.data
      modifies backBuffer.data, screen.data
      ensures Valid() && Sound() && layerStack == Step(old(layerStack), StackOp.UpDown(layers[id - 1], m - 1))
      ensures Shows(layerStack, after, backBuffer, screen) && Composed(after) && Uncovered(after, Outline())
      ensures layerStack[0] == old(layerStack[0]) && Covered(before, Outline()) ==> Covered(after, Outline())
      ensures
        var w := layers[id - 1].window;
        w.Shown() == old(w.Shown()).After(writes, w.width)
    {
      hide Step, Others, Composite, NoDuplicates, Insert, SameOutside, Uncovered, Covered, Clear, Shows, RowStart,
        Without;
      var found := FindLayer(id);
      var layer: Layer := found;
      ghost var rest, shown: seq<Layer>;
      after, rest, shown := Regroup(layer, writes, m, before);
      Restack(id, mouse, m, shown);
      DrawRaised(id, before, rest, after, m - 1);
    }

    /** The repainting, and how the faces will be once the layer is raised. */
    method Regroup(layer: Layer, writes: seq<PixelWrite>, ghost m: nat, ghost before: seq<Face>)
      returns (ghost after: seq<Face>, ghost rest: seq<Face>, ghost shown: seq<Layer>)
      requires Valid() && Sound() && layer in layers && 1 <= m < |layerStack| && layer != layerStack[m]
        && Presentable(layer)
      requires forall w :: w in writes ==> Inner(layer.window, w.pos)
      requires Shows(layerStack, before, backBuffer, screen) && Composed(before) && Uncovered(before, Outline())
      requires Clear(before, Under(layerStack, layer, m), Rectangle(layer.pos, layer.window.Size()), Outline())
      modifies layer.window`rows, layer.window.shadow.data
      ensures shown == Step(layerStack, StackOp.UpDown(layer, m - 1)) && m < |shown| && shown[m - 1] == layer
      ensures Shows(shown, after, backBuffer, screen) && Uncovered(after, Outline())
      ensures |after| == |shown| && after[m - 1].ink.Opaque? && AllValid(rest) && Without(after, m - 1) == rest
      ensures SameOutside(after[m - 1].Area(), before, rest)
      ensures shown[0] == layerStack[0] && Covered(before, Outline()) ==> Covered(after, Outline())
      ensures AllValid(before) && Composed(before) && Sound()
      ensures layer.window.Shown() == old(layer.window.Shown()).After(writes, layer.window.width)
    {
      hide Step, NoDuplicates, SameOutside, Uncovered, Covered, Clear, Composite;
      ghost var wasBottom := layer == layerStack[0];
      assert wasBottom ==> before[0].Area() == Rectangle(layer.pos, layer.window.Size());
      ghost var stack, faces := Rest(layer, before, m);
      rest := faces;
      hide Shows;
      ghost var face := RepaintOnly(layer, writes, stack, rest, m - 1);
      after := RaisedFaces(before, rest, m - 1, face, wasBottom);
      shown := Insert(stack, m - 1, layer);
      BottomStays(layerStack, layer, m);
    }

    /** The `UpDown` call of `Activate`. */
    method Restack(id: nat, mouse: nat, ghost m: nat, ghost shown: seq<Layer>)
      requires Valid() && 1 <= id <= |layers| && 1 <= m && At(mouse, m)
      requires shown == Step(layerStack, StackOp.UpDown(layers[id - 1], m - 1))
      modifies this`layerStack
      ensures Valid() && layerStack == shown
    {
      hide Step;
      var height := GetHeight(mouse);
      UniqueIds(height, m);
      UpDown(id, height - 1);
    }

    /** Draws a layer that has just been put at height `k`. */
    method DrawRaised(id: nat, ghost before: seq<Face>, ghost rest: seq<Face>, ghost after: seq<Face>, ghost k: nat)
      requires Valid() && At(id, k) && layerStack[k].window != null
      requires Shows(layerStack, after, backBuffer, screen) && Uncovered(after, Outline()) && after[k].ink.Opaque?
      requires AllValid(before) && AllValid(rest) && Composed(before) && Without(after, k) == rest
      requires SameOutside(after[k].Area(), before, rest)
      modifies backBuffer.data, screen.data
      ensures Shows(layerStack, after, backBuffer, screen) && Composed(after)
    {
      ghost var shown := DrawLayer(id, Rectangle(Vector2D(0, 0), Vector2D(-1, -1)), after, k);
      hide Shows;
      forall p: Vector2D | Outline().Contains(p)
        ensures ComposedAt(after, p)
      {
        assert UncoveredAt(after, p);
        RestackedPixel(before, after, k, p, BLACK);
      }
    }

    ghost predicate Inner(window: Window, p: Vector2D) {
      0 <= p.x < window.width && 0 <= p.y < window.height
    }
  }

  class ActiveLayer {
    const manager: LayerManager
    var activeLayer: nat
    var mouseLayer: nat

    constructor (manager: LayerManager)
      ensures this.manager == manager && activeLayer == 0 && mouseLayer == 0
    {
      this.manager := manager;
      activeLayer, mouseLayer := 0, 0;
    }

    method SetMouseLayer(mouseLayer: nat)
      modifies this
      ensures this.mouseLayer == mouseLayer && activeLayer == old(activeLayer)
    {
      this.mouseLayer := mouseLayer;
    }

    /** Layer `id` exists, can be shown, and `writes` stays in its window. */
    ghost predicate Drawable(id: nat, writes: seq<PixelWrite>)
      reads manager`layers, manager`layerStack, manager.layers, manager.layerStack,
        set l: Layer | l in manager.layers :: l.window
    {
      && 1 <= id <= |manager.layers|
      && manager.Presentable(manager.layers[id - 1])
      && forall w :: w in writes ==> manager.Inner(manager.layers[id - 1].window, w.pos)
    }

    /** No transparent layer will be covered by layer `id` put under height m. */
    ghost predicate ClearBelow(id: nat, faces: seq<Face>, m: nat)
      requires manager.Valid() && 1 <= id <= |manager.layers| && manager.layers[id - 1].window != null
      requires 1 <= m < |manager.layerStack|
      reads manager, manager.layers, manager.layerStack
    {
      var layer := manager.layers[id - 1];
      Clear(faces, Under(manager.layerStack, layer, m), Rectangle(layer.pos, layer.window.Size()), manager.Outline())
    }

    ghost function WindowOf(id: nat): set<Window>
      reads manager`layers, (set l: Layer | l in manager.layers)`window
    {
      if 1 <= id <= |manager.layers| && manager.layers[id - 1].window != null then
        {manager.layers[id - 1].window}
      else
        {}
    }

    ghost function ShadowOf(id: nat): set<array<PixelColor>>
      reads manager`layers, (set l: Layer | l in manager.layers)`window
    {
      if 1 <= id <= |manager.layers| && manager.layers[id - 1].window != null then
        {manager.layers[id - 1].window.shadow.data}
      else
        {}
    }

    ghost predicate HasWindow(id: nat)
      reads manager`layers, (set l: Layer | l in manager.layers)`window
    {
      1 <= id <= |manager.layers| && manager.layers[id - 1].window != null
    }

    /** What the window of a layer shows, if it has one. */
    ghost function Shown(id: nat): Content
      reads manager`layers, (set l: Layer | l in manager.layers)`window, WindowOf(id)`rows, ShadowOf(id)
    {
      if HasWindow(id) then manager.layers[id - 1].window.Shown() else Content([], [])
    }

    ghost function SizeOf(id: nat): (nat, nat)
      reads manager`layers, (set l: Layer | l in manager.layers)`window
    {
      if HasWindow(id) then (manager.layers[id - 1].window.width, manager.layers[id - 1].window.height) else (0, 0)
    }

    /** The two layers do not share a window or its buffer. */
    ghost predicate Apart(a: nat, b: nat)
      reads manager`layers, (set l: Layer | l in manager.layers)`window
    {
      HasWindow(a) && HasWindow(b) ==>
        && manager.layers[a - 1].window != manager.layers[b - 1].window
        && manager.layers[a - 1].window.shadow.data != manager.layers[b - 1].window.shadow.data
    }

    /** The pixels of the layer's window, in both copies, have the colour of the
        last write to them, or their old one. */
    ghost predicate Repainted(id: nat, was: Content, writes: seq<PixelWrite>)
      reads manager`layers, (set l: Layer | l in manager.layers)`window, WindowOf(id)`rows, ShadowOf(id)
    {
      var (width, height) := SizeOf(id);
      && OffScreen(id) && was.Fits(width, height) && Shown(id).Fits(width, height)
      && Written(was, Shown(id), writes, width, height)
    }

    lemma ActuallyRepainted(id: nat, was: Content, writes: seq<PixelWrite>)
      requires WritesFit(id, writes) && was.Fits(SizeOf(id).0, SizeOf(id).1)
      requires Shown(id) == was.After(writes, SizeOf(id).0) && OffScreen(id)
      ensures Repainted(id, was, writes)
    {
      ContentWritten(was, writes, SizeOf(id).0, SizeOf(id).1);
    }

    ghost predicate WritesFit(id: nat, writes: seq<PixelWrite>)
      reads manager`layers, (set l: Layer | l in manager.layers)`window
    {
      forall w :: w in writes ==> Within(w.pos, SizeOf(id).0, SizeOf(id).1)
    }

    /** The window's buffer is none that is drawn to. */
    ghost predicate OffScreen(id: nat)
      reads manager`layers, (set l: Layer | l in manager.layers)`window
    {
      HasWindow(id) ==>
        && manager.layers[id - 1].window.shadow.data != manager.backBuffer.data
        && manager.layers[id - 1].window.shadow.data != manager.screen.data
    }

    lemma DrawableFacts(id: nat, writes: seq<PixelWrite>)
      requires Drawable(id, writes)
      ensures Shown(id).Fits(SizeOf(id).0, SizeOf(id).1) && WritesFit(id, writes) && OffScreen(id)
    {
    }

    /** The old active window is repainted inactive, the new one active, raised
        right under the mouse layer at height m and drawn: from composed buffers to
        composed buffers. The bottom layer covers the screen as before if it is
        still the bottom one. */
    method Activate(
      layerId: nat, inactive: seq<PixelWrite>, active: seq<PixelWrite>, ghost before: seq<Face>, ghost k: nat,
      ghost m: nat)
      returns (ghost after: seq<Face>)
      requires manager.Valid() && manager.Sound() && 1 <= m && manager.At(mouseLayer, m)
      requires 0 < activeLayer != layerId ==> Drawable(activeLayer, inactive) && manager.Place(activeLayer, k)
      requires 0 < layerId != activeLayer ==> Drawable(layerId, active) && layerId != mouseLayer
      requires Shows(manager.layerStack, before, manager.backBuffer, manager.screen)
      requires manager.Composed(before) && Uncovered(before, manager.Outline())
      requires 0 < layerId != activeLayer ==> ClearBelow(layerId, before, m)
      modifies `activeLayer, manager`layerStack, WindowOf(activeLayer)`rows, WindowOf(layerId)`rows
      modifies ShadowOf(activeLayer), ShadowOf(layerId)
      modifies manager.backBuffer.data, manager.screen.data
      ensures manager.Valid() && manager.Sound() && activeLayer == layerId
      ensures manager.layerStack ==
        if layerId == old(activeLayer) || layerId == 0 then old(manager.layerStack)
        else Step(old(manager.layerStack), StackOp.UpDown(manager.layers[layerId - 1], m - 1))
      ensures Shows(manager.layerStack, after, manager.backBuffer, manager.screen)
      ensures manager.Composed(after) && Uncovered(after, manager.Outline())
      ensures manager.layerStack[0] == old(manager.layerStack[0]) && manager.Composable(before) ==>
        manager.Composable(after)
      ensures old(activeLayer) == layerId ==> Shown(layerId) == old(Shown(layerId))
      ensures 0 < old(activeLayer) != layerId && old(Apart(activeLayer, layerId)) ==>
        Repainted(old(activeLayer), old(Shown(activeLayer)), inactive)
      ensures 0 < layerId != old(activeLayer) && old(Apart(activeLayer, layerId)) ==>
        Repainted(layerId, old(Shown(layerId)), active)
    {
      hide Shows, Uncovered, Covered, Clear, Step, NoDuplicates, Under, Composite, RowStart, LayerManager.Sound;
      hide LayerManager.Valid, Shown, Repainted, Apart;
      after := before;
      if activeLayer == layerId {
        return;
      }
      ghost var was, shown := activeLayer, Shown(activeLayer);
      after := Deactivate(inactive, before, k, m, layerId, active);
      after := RaiseNext(layerId, active, m, after, was, shown, inactive);
    }

    /** The second half of `Activate`. */
    method RaiseNext(
      layerId: nat, active: seq<PixelWrite>, ghost m: nat, ghost before: seq<Face>, ghost other: nat,
      ghost shown: Content, ghost inactive: seq<PixelWrite>)
      returns (ghost after: seq<Face>)
      requires manager.Valid() && manager.Sound() && 1 <= m && manager.At(mouseLayer, m)
      requires layerId > 0 ==> Drawable(layerId, active) && layerId != mouseLayer && ClearBelow(layerId, before, m)
      requires Shows(manager.layerStack, before, manager.backBuffer, manager.screen)
      requires manager.Composed(before) && Uncovered(before, manager.Outline())
      modifies `activeLayer, manager`layerStack, WindowOf(layerId)`rows, ShadowOf(layerId)
      modifies manager.backBuffer.data, manager.screen.data
      ensures manager.Valid() && manager.Sound() && activeLayer == layerId
      ensures manager.layerStack ==
        if layerId == 0 then old(manager.layerStack)
        else Step(old(manager.layerStack), StackOp.UpDown(manager.layers[layerId - 1], m - 1))
      ensures Shows(manager.layerStack, after, manager.backBuffer, manager.screen)
      ensures manager.Composed(after) && Uncovered(after, manager.Outline())
      ensures manager.layerStack[0] == old(manager.layerStack[0]) && manager.Composable(before) ==>
        manager.Composable(after)
      ensures layerId > 0 ==> Repainted(layerId, old(Shown(layerId)), active)
      ensures old(Repainted(other, shown, inactive)) && old(Apart(other, layerId)) ==> Repainted(other, shown, inactive)
    {
      hide Shows, Uncovered, Covered, Clear, Step, NoDuplicates, Under, Composite, RowStart, LayerManager.Sound;
      hide Written, Content.After;
      after := before;
      activeLayer := layerId;
      if activeLayer > 0 {
        ghost var was := Shown(activeLayer);
        DrawableFacts(activeLayer, active);
        after := manager.Raise(activeLayer, active, mouseLayer, m, before);
        ActuallyRepainted(activeLayer, was, active);
      }
    }

    /** The first half of `Activate`; a next layer stays drawable. */
    method Deactivate(
      inactive: seq<PixelWrite>, ghost before: seq<Face>, ghost k: nat, ghost m: nat, ghost next: nat,
      ghost writes: seq<PixelWrite>)
      returns (ghost after: seq<Face>)
      requires manager.Valid() && manager.Sound() && (next > 0 ==> Drawable(next, writes))
        && 1 <= m < |manager.layerStack|
      requires activeLayer > 0 ==> Drawable(activeLayer, inactive) && manager.Place(activeLayer, k)
      requires Shows(manager.layerStack, before, manager.backBuffer, manager.screen)
      requires manager.Composed(before) && Uncovered(before, manager.Outline())
      requires next > 0 ==> ClearBelow(next, before, m)
      modifies WindowOf(activeLayer)`rows, ShadowOf(activeLayer), manager.backBuffer.data, manager.screen.data
      ensures manager.Valid() && manager.Sound() && (next > 0 ==> Drawable(next, writes))
      ensures Shows(manager.layerStack, after, manager.backBuffer, manager.screen)
      ensures manager.Composed(after) && Uncovered(after, manager.Outline())
      ensures Covered(before, manager.Outline()) ==> Covered(after, manager.Outline())
      ensures next > 0 ==> ClearBelow(next, after, m)
      ensures activeLayer > 0 ==> Repainted(activeLayer, old(Shown(activeLayer)), inactive)
      ensures Apart(activeLayer, next) == old(Apart(activeLayer, next))
      ensures next > 0 && old(Apart(activeLayer, next)) ==> Shown(next) == old(Shown(next))
    {
      hide Shows, Uncovered, Covered, Clear, NoDuplicates, RowStart, Composite, Under, Written, Content.After;
      after := before;
      if activeLayer == 0 {
        return;
      }
      ghost var was := Shown(activeLayer);
      DrawableFacts(activeLayer, inactive);
      ghost var face := manager.Repaint(activeLayer, inactive, Rectangle(Vector2D(0, 0), Vector2D(-1, -1)), before, k);
      ActuallyRepainted(activeLayer, was, inactive);
      after := manager.Changed(before, k, face);
      if next > 0 {
        var below := Under(manager.layerStack, manager.layers[next - 1], m);
        StillClear(before, k, face, below,
          Rectangle(manager.layers[next - 1].pos, manager.layers[next - 1].window.Size()));
      }
    }

    lemma StillClear(before: seq<Face>, k: nat, face: Face, m: nat, area: Rectangle)
      requires Clear(before, m, area, manager.Outline()) && (k < |before| ==> face.ink.Opaque?)
      ensures Clear(manager.Changed(before, k, face), m, area, manager.Outline())
    {
    }
  }
}
