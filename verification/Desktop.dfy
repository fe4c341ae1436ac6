/** Runs of the compositor: windows are written to and drawn, moved and
    activated, in any order (kernel/layer.cpp). */
module Desktops {
  import opened Graphics
  import opened FrameBuffers
  import opened Composition
  import opened Sequences
  import opened StackOrder
  import opened Windows
  import opened Layers

  datatype Command =
    | Draw(id: nat, writes: seq<PixelWrite>, area: Rectangle)
    | Move(id: nat, pos: Vector2D)
    | MoveRelative(id: nat, diff: Vector2D)
    | Activate(id: nat, inactive: seq<PixelWrite>, active: seq<PixelWrite>)

  /** The first height at which `id` is shown, or the size of the stack. */
  function Height(stack: seq<nat>, id: nat): (k: nat)
    ensures k <= |stack| && (k < |stack| ==> stack[k] == id)
    ensures forall i :: 0 <= i < k ==> stack[i] != id
  {
    if stack == [] || stack[0] == id then 0 else 1 + Height(stack[1..], id)
  }

  /** Where the windows lie and how they are stacked: slot `id - 1` is layer
      `id` without the contents of its window. */
  datatype Desk = Desk(slots: seq<Face>, stack: seq<nat>, active: nat, mouse: nat) {
    predicate Has(id: nat) {
      1 <= id <= |slots|
    }

    ghost predicate Valid() {
      NoDuplicates(stack) && forall i :: 0 <= i < |stack| ==> Has(stack[i])
    }

    function Stacked(): (r: seq<Face>)
      requires Valid()
      ensures |r| == |stack|
    {
      seq(|stack|, i requires 0 <= i < |stack| => (assert Has(stack[i]); slots[stack[i] - 1]))
    }

    ghost predicate Composable(screen: Rectangle)
      requires Valid()
    {
      Uncovered(Stacked(), screen) && Covered(Stacked(), screen)
    }

    function MoveTo(id: nat, pos: Vector2D): (r: Desk)
      requires Valid() && Has(id)
      ensures r.Valid()
    {
      assert forall i :: Has(i) <==> this.(slots := slots[id - 1 := slots[id - 1].(pos := pos)]).Has(i);
      this.(slots := slots[id - 1 := slots[id - 1].(pos := pos)])
    }

    /** `id` names an opaque window and the writes stay in it. */
    predicate Writable(id: nat, writes: seq<PixelWrite>) {
      && Has(id) && slots[id - 1].ink.Opaque?
      && forall w :: w in writes ==> Rectangle(Vector2D(0, 0), slots[id - 1].size).Contains(w.pos)
    }

    /** What a caller sees to: the layers exist and have windows, only pixels of
        opaque windows are written, and what is written is drawn. */
    ghost predicate Proper(c: Command) {
      match c
      case Draw(id, writes, area) =>
        && Writable(id, writes) && area.Copyable()
        && ((area.size.x < 0 && area.size.y < 0) || forall w :: w in writes ==> area.Contains(w.pos))
      case Move(id, _) => Has(id) && !slots[id - 1].ink.Blank?
      case MoveRelative(id, _) => Has(id) && !slots[id - 1].ink.Blank?
      case Activate(id, inactive, writes) =>
        && 1 <= Height(stack, mouse) < |stack| && id != mouse
        && (active > 0 ==> Writable(active, inactive))
        && (id > 0 ==> Writable(id, writes))
    }

    function Raise(id: nat): (r: Desk)
      requires Valid() && Has(id)
      ensures r.Valid()
    {
      StepKeeps(stack, StackOp.UpDown(id, Height(stack, mouse) - 1));
      var raised := Step(stack, StackOp.UpDown(id, Height(stack, mouse) - 1));
      assert forall x :: x in raised ==> Has(x) by {
        assert forall x :: x in stack ==> Has(x);
      }
      assert forall i :: 0 <= i < |raised| ==> raised[i] in raised;
      this.(active := id, stack := raised)
    }

    function After(c: Command): (r: Desk)
      requires Valid() && Proper(c)
      ensures r.Valid()
    {
      match c
      case Draw(_, _, _) => this
      case Move(id, pos) => MoveTo(id, pos)
      case MoveRelative(id, diff) => MoveTo(id, slots[id - 1].pos.Plus(diff))
      case Activate(id, _, _) => if id == active then this else if id == 0 then this.(active := 0) else Raise(id)
    }
  }

  /** A run a caller may make: every command is proper and every arrangement on
      the way is composable. */
  ghost predicate Allowed(d: Desk, commands: seq<Command>, screen: Rectangle)
    requires d.Valid()
    decreases |commands|
  {
    commands != [] ==>
      && d.Proper(commands[0]) && d.After(commands[0]).Composable(screen)
      && Allowed(d.After(commands[0]), commands[1..], screen)
  }

  function AfterAll(d: Desk, commands: seq<Command>, screen: Rectangle): Desk
    requires d.Valid() && Allowed(d, commands, screen)
    decreases |commands|
  {
    if commands == [] then d else AfterAll(d.After(commands[0]), commands[1..], screen)
  }

  ghost function BareOf(layer: Layer): Face
    reads {layer}`pos, {layer}`window, (if layer.window == null then {} else {layer.window})`transparentColor
  {
    if layer.window == null then Face(layer.pos, Vector2D(0, 0), Blank)
    else
      Face(layer.pos, layer.window.Size(),
           match layer.window.transparentColor case None => Opaque([]) case Some(_) => Keyed([], BLACK))
  }

  /** Every layer can be drawn, and no two share a window. */
  ghost predicate Ready(m: LayerManager)
    reads m`layers, (set l: Layer | l in m.layers)`window
  {
    && (forall i :: 0 <= i < |m.layers| ==> m.layers[i].DrawsOn(m.backBuffer) && m.layers[i].DrawsOn(m.screen))
    && forall i, j :: 0 <= i < j < |m.layers| && m.layers[i].window != null && m.layers[j].window != null ==>
         m.layers[i].window != m.layers[j].window && m.layers[i].window.shadow.data != m.layers[j].window.shadow.data
  }

  /** The layers lie where the slots say. */
  ghost predicate Lie(m: LayerManager, slots: seq<Face>)
    reads m`layers, (set l: Layer | l in m.layers)`window, (set l: Layer | l in m.layers)`pos
    reads (set l: Layer | l in m.layers && l.window != null :: l.window)`transparentColor
  {
    |slots| == |m.layers| && forall i :: 0 <= i < |m.layers| ==> BareOf(m.layers[i]) == slots[i]
  }

  function Ids(s: seq<Layer>): (r: seq<nat>)
    ensures |r| == |s|
  {
    seq(|s|, i requires 0 <= i < |s| => s[i].id)
  }

  ghost predicate Matches(m: LayerManager, d: Desk)
    reads m`layers, m`layerStack, m`latestId, (set l: Layer | l in m.layers)`window, (set l: Layer | l in m.layers)`pos
    reads (set l: Layer | l in m.layers && l.window != null :: l.window)`transparentColor
  {
    m.Valid() && d.Valid() && Ready(m) && Lie(m, d.slots) && Ids(m.layerStack) == d.stack
  }

  lemma SameComposable(a: seq<Face>, b: seq<Face>, screen: Rectangle)
    requires SameArrangement(a, b)
    ensures Uncovered(a, screen) ==> Uncovered(b, screen)
    ensures Covered(a, screen) ==> Covered(b, screen)
  {
    if Uncovered(a, screen) {
      forall p: Vector2D | screen.Contains(p)
        ensures UncoveredAt(b, p)
      {
        assert UncoveredAt(a, p);
      }
    }
  }

  lemma StackedBare(m: LayerManager, d: Desk, faces: seq<Face>)
    requires Matches(m, d)
    requires Shows(m.layerStack, faces, m.backBuffer, m.screen)
    ensures SameArrangement(faces, d.Stacked())
  {
    forall i | 0 <= i < |faces|
      ensures d.Stacked()[i] == BareOf(m.layerStack[i])
    {
      m.FoundAt(d.stack[i], i);
    }
  }

  lemma PlaceOf(m: LayerManager, d: Desk, id: nat)
    requires Matches(m, d) && d.Has(id) && !d.slots[id - 1].ink.Blank?
    ensures m.Place(id, Height(d.stack, id)) && m.layers[id - 1].window != null
  {
    var k := Height(d.stack, id);
    assert forall i :: 0 <= i < |d.stack| ==> m.layerStack[i].id == Ids(m.layerStack)[i];
    if k < |d.stack| {
      m.FoundAt(id, k);
    }
  }

  lemma PresentableOf(m: LayerManager, d: Desk, id: nat, writes: seq<PixelWrite>)
    requires Matches(m, d) && m.Sound() && d.Writable(id, writes)
    ensures m.Presentable(m.layers[id - 1]) && forall w :: w in writes ==> m.Inner(m.layers[id - 1].window, w.pos)
  {
    assert BareOf(m.layers[id - 1]) == d.slots[id - 1];
    forall other | other in m.layerStack && other != m.layers[id - 1]
      ensures other in m.layers
      ensures other.window != null ==>
        other.window != m.layers[id - 1].window && other.window.shadow.data != m.layers[id - 1].window.shadow.data
    {
      var j :| 0 <= j < |m.layers| && m.layers[j] == other;
    }
  }

  /** The run is under way: both buffers are composed, and the layers lie as the
      desk says. */
  ghost predicate Playing(a: ActiveLayer, d: Desk, faces: seq<Face>)
    reads a, a.manager, a.manager.layers, a.manager.layerStack, a.manager.backBuffer.data, a.manager.screen.data
    reads set l: Layer | l in a.manager.layers :: l.window, set l: Layer | l in a.manager.layerStack :: l.window
    reads set l: Layer | l in a.manager.layerStack && l.window != null :: l.window.shadow.data
  {
    var m := a.manager;
    && a.activeLayer == d.active && a.mouseLayer == d.mouse
    && Matches(m, d) && m.Sound()
    && Shows(m.layerStack, faces, m.backBuffer, m.screen)
    && m.Composed(faces) && d.Composable(m.Outline())
  }

  /** The first drawing, of the whole screen, starts a run. */
  method Begin(a: ActiveLayer, ghost d: Desk, ghost faces: seq<Face>)
    requires a.activeLayer == d.active && a.mouseLayer == d.mouse && Matches(a.manager, d) && a.manager.Sound()
    requires Shows(a.manager.layerStack, faces, a.manager.backBuffer, a.manager.screen)
    requires d.Composable(a.manager.Outline())
    modifies a.manager.backBuffer.data, a.manager.screen.data
    ensures Playing(a, d, faces)
  {
    hide Uncovered, Covered, Composite, RowStart;
    StackedBare(a.manager, d, faces);
    SameComposable(d.Stacked(), faces, a.manager.Outline());
    a.manager.DrawScreen(faces);
  }

  /** What the steps need to know about a layer they are about to draw. */
  lemma PlayingFacts(a: ActiveLayer, d: Desk, faces: seq<Face>, id: nat)
    requires Playing(a, d, faces) && d.Has(id) && !d.slots[id - 1].ink.Blank?
    ensures a.manager.Place(id, Height(d.stack, id)) && a.manager.layers[id - 1].window != null
    ensures a.manager.Valid() && a.manager.layers[id - 1].window.Valid() && SameArrangement(faces, d.Stacked())
    ensures Uncovered(faces, a.manager.Outline()) && Covered(faces, a.manager.Outline())
  {
    PlaceOf(a.manager, d, id);
    StackedBare(a.manager, d, faces);
    SameComposable(d.Stacked(), faces, a.manager.Outline());
  }

  method PlayDraw(
    a: ActiveLayer, ghost d: Desk, id: nat, writes: seq<PixelWrite>, area: Rectangle, ghost faces: seq<Face>)
    returns (ghost after: seq<Face>)
    requires Playing(a, d, faces) && d.Proper(Draw(id, writes, area))
    modifies a.WindowOf(id)`rows, a.ShadowOf(id), a.manager.backBuffer.data, a.manager.screen.data
    ensures Playing(a, d, after) && a.Repainted(id, old(a.Shown(id)), writes)
  {
    hide Shows, Uncovered, Covered, Step, Height, Composite, RowStart, NoDuplicates;
    PlayingFacts(a, d, faces, id);
    PresentableOf(a.manager, d, id, writes);
    ghost var was := a.Shown(id);
    a.DrawableFacts(id, writes);
    hide Written, Content.After;
    ghost var face := a.manager.Repaint(id, writes, area, faces, Height(d.stack, id));
    a.ActuallyRepainted(id, was, writes);
    after := a.manager.Changed(faces, Height(d.stack, id), face);
  }

  lemma MovedBare(m: LayerManager, d: Desk, id: nat, pos: Vector2D, faces: seq<Face>)
    requires d.Valid() && d.Has(id) && SameArrangement(faces, d.Stacked())
    ensures SameArrangement(m.Moved(faces, Height(d.stack, id), pos), d.MoveTo(id, pos).Stacked())
  {
    forall i | 0 <= i < |d.stack|
      ensures d.MoveTo(id, pos).Stacked()[i] ==
        if i == Height(d.stack, id) then d.Stacked()[i].(pos := pos) else d.Stacked()[i]
    {
      assert d.stack[i] == id <==> i == Height(d.stack, id);
      assert d.Has(d.stack[i]);
    }
  }

  /** A layer that may move on the desk may move on the screen. */
  lemma MovableFacts(a: ActiveLayer, d: Desk, faces: seq<Face>, id: nat, pos: Vector2D)
    requires Playing(a, d, faces) && d.Has(id) && !d.slots[id - 1].ink.Blank?
    requires d.MoveTo(id, pos).Composable(a.manager.Outline())
    ensures a.manager.Movable(faces, Height(d.stack, id), pos)
    ensures forall i :: 0 <= i < |a.manager.layers| && i != id - 1 ==> a.manager.layers[i] != a.manager.layers[id - 1]
  {
    PlayingFacts(a, d, faces, id);
    MovedBare(a.manager, d, id, pos, faces);
    SameComposable(d.MoveTo(id, pos).Stacked(), a.manager.Moved(faces, Height(d.stack, id), pos), a.manager.Outline());
  }

  method PlayMove(a: ActiveLayer, ghost d: Desk, id: nat, pos: Vector2D, ghost faces: seq<Face>)
    returns (ghost after: seq<Face>)
    requires Playing(a, d, faces) && d.Proper(Move(id, pos)) && d.MoveTo(id, pos).Composable(a.manager.Outline())
    modifies {a.manager.layers[id - 1]}`pos, a.manager.backBuffer.data, a.manager.screen.data
    ensures Playing(a, d.MoveTo(id, pos), after)
  {
    hide LayerManager.Valid, LayerManager.Sound, LayerManager.Composed, LayerManager.Place, LayerManager.Movable;
    hide LayerManager.Moved, Desk.Composable, Ids, Ready, Shows, Uncovered, Covered, Step, Height, Composite, RowStart;
    hide NoDuplicates;
    PlayingFacts(a, d, faces, id);
    MovableFacts(a, d, faces, id, pos);
    a.manager.Move(id, pos, faces, Height(d.stack, id));
    after := a.manager.Moved(faces, Height(d.stack, id), pos);
    forall i | 0 <= i < |a.manager.layers|
      ensures BareOf(a.manager.layers[i]) == d.MoveTo(id, pos).slots[i]
    {
      assert old(BareOf(a.manager.layers[i])) == d.slots[i];
    }
    assert Lie(a.manager, d.MoveTo(id, pos).slots);
    hide Lie;
  }

  method PlayMoveRelative(a: ActiveLayer, ghost d: Desk, id: nat, diff: Vector2D, ghost faces: seq<Face>)
    returns (ghost after: seq<Face>)
    requires Playing(a, d, faces) && d.Proper(MoveRelative(id, diff))
    requires d.MoveTo(id, d.slots[id - 1].pos.Plus(diff)).Composable(a.manager.Outline())
    modifies {a.manager.layers[id - 1]}`pos, a.manager.backBuffer.data, a.manager.screen.data
    ensures Playing(a, d.MoveTo(id, d.slots[id - 1].pos.Plus(diff)), after)
  {
    hide LayerManager.Valid, LayerManager.Sound, LayerManager.Composed, LayerManager.Place, LayerManager.Movable;
    hide LayerManager.Moved, Desk.Composable, Ids, Ready, Shows, Uncovered, Covered, Step, Height, Composite, RowStart;
    hide NoDuplicates;
    ghost var pos := d.slots[id - 1].pos.Plus(diff);
    PlayingFacts(a, d, faces, id);
    MovableFacts(a, d, faces, id, pos);
    a.manager.MoveRelative(id, diff, faces, Height(d.stack, id));
    after := a.manager.Moved(faces, Height(d.stack, id), pos);
    forall i | 0 <= i < |a.manager.layers|
      ensures BareOf(a.manager.layers[i]) == d.MoveTo(id, pos).slots[i]
    {
      assert old(BareOf(a.manager.layers[i])) == d.slots[i];
    }
    assert Lie(a.manager, d.MoveTo(id, pos).slots);
    hide Lie;
  }

  lemma {:induction false} OthersIds(s: seq<Layer>, e: Layer)
    requires forall x :: x in s && x.id == e.id ==> x == e
    ensures Ids(Others(s, {e})) == Others(Ids(s), {e.id})
  {
    if s != [] {
      OthersIds(s[1..], e);
      assert Ids(s)[1..] == Ids(s[1..]);
      assert Ids([s[0]] + Others(s[1..], {e})) == [s[0].id] + Ids(Others(s[1..], {e}));
    }
  }

  lemma StepIds(s: seq<Layer>, e: Layer, height: nat)
    requires forall x :: x in s && x.id == e.id ==> x == e
    ensures Ids(Step(s, StackOp.UpDown(e, height))) == Step(Ids(s), StackOp.UpDown(e.id, height))
  {
    OthersIds(s, e);
    var o := Others(s, {e});
    var k := if height < |o| then height else |o|;
    assert Ids(o[..k] + [e] + o[k..]) == Ids(o)[..k] + [e.id] + Ids(o)[k..];
  }

  /** A layer under height m keeps a place below the raised one. */
  lemma StaysBelow(d: Desk, id: nat, m: nat, i: nat) returns (j: nat)
    requires d.Valid() && 1 <= m < |d.stack| && d.stack[m] != id && Height(d.stack, d.mouse) == m && d.Has(id)
    requires i < Under(d.stack, id, m) && d.stack[i] != id
    ensures j < m - 1 && m <= |d.Raise(id).stack| && d.Raise(id).stack[j] == d.stack[i]
      && d.Raise(id).stack[m - 1] == id
  {
    hide Step, Height, Under;
    var o, h := RaisedUnder(d.stack, id, m);
    assert d.Raise(id).stack == o[..m - 1] + [id] + o[m - 1..];
    UnderIs(d.stack, id, m, h);
    j := if h < i then i - 1 else i;
    assert h < |d.stack| ==> o[j] == Without(d.stack, h)[j] == d.stack[i];
  }

  lemma UnderIs(stack: seq<nat>, id: nat, m: nat, h: nat)
    requires NoDuplicates(stack) && 1 <= m <= |stack| && h <= |stack|
    requires if h < |stack| then stack[h] == id else id !in stack
    ensures Under(stack, id, m) == if h < m then m else m - 1
  {
  }

  /** If raising a layer leaves the desk composable, it covers no transparent
      one. */
  lemma ClearOfNext(d: Desk, id: nat, m: nat, screen: Rectangle)
    requires d.Valid() && 1 <= m < |d.stack| && d.stack[m] != id && Height(d.stack, d.mouse) == m
    requires d.Has(id) && d.slots[id - 1].ink.Opaque? && Uncovered(d.Raise(id).Stacked(), screen)
    ensures Clear(d.Stacked(), Under(d.stack, id, m), d.slots[id - 1].Area(), screen)
  {
    hide Step, Height, Under, NoDuplicates;
    var next := d.Raise(id).Stacked();
    forall i, p: Vector2D | 0 <= i < Under(d.stack, id, m) && i < |d.stack| && d.Stacked()[i].ink.Keyed?
      && screen.Contains(p)
      ensures !(d.Stacked()[i].Area().Contains(p) && d.slots[id - 1].Area().Contains(p))
    {
      var j := StaysBelow(d, id, m, i);
      assert next[j] == d.Stacked()[i] && next[m - 1] == d.slots[id - 1];
      assert UncoveredAt(next, p);
    }
  }

  /** Activation on the desk is possible on the screen. */
  lemma ActivateFacts(
    a: ActiveLayer, d: Desk, faces: seq<Face>, id: nat, inactive: seq<PixelWrite>, writes: seq<PixelWrite>)
    requires Playing(a, d, faces) && d.Proper(Activate(id, inactive, writes))
    requires d.After(Activate(id, inactive, writes)).Composable(a.manager.Outline())
    ensures 1 <= Height(d.stack, d.mouse) && a.manager.At(d.mouse, Height(d.stack, d.mouse)) && id != d.mouse
    ensures Uncovered(faces, a.manager.Outline())
    ensures d.active > 0 ==> a.Drawable(d.active, inactive) && a.manager.Place(d.active, Height(d.stack, d.active))
    ensures id > 0 ==> a.Drawable(id, writes)
    ensures 0 < id != d.active ==> a.ClearBelow(id, faces, Height(d.stack, d.mouse))
    ensures id != d.active ==> a.Apart(d.active, id)
  {
    hide Shows, Uncovered, Covered, Step, Height, Clear, Composite, NoDuplicates;
    ReadyApart(a, d.active, id);
    hide Ready;
    StackedBare(a.manager, d, faces);
    SameComposable(d.Stacked(), faces, a.manager.Outline());
    if d.active > 0 {
      PlaceOf(a.manager, d, d.active);
      PresentableOf(a.manager, d, d.active, inactive);
    }
    if id > 0 {
      PresentableOf(a.manager, d, id, writes);
    }
    if 0 < id != d.active {
      ClearOfNext(d, id, Height(d.stack, d.mouse), a.manager.Outline());
      ClearBelowFacts(a, d, faces, id, Height(d.stack, d.mouse));
    }
  }

  lemma ClearBelowFacts(a: ActiveLayer, d: Desk, faces: seq<Face>, id: nat, m: nat)
    requires Matches(a.manager, d) && d.Has(id) && d.slots[id - 1].ink.Opaque? && 1 <= m < |d.stack|
    requires SameArrangement(faces, d.Stacked())
    requires Clear(d.Stacked(), Under(d.stack, id, m), d.slots[id - 1].Area(), a.manager.Outline())
    ensures a.ClearBelow(id, faces, m)
  {
    UnderIds(a.manager, id, m);
    assert BareOf(a.manager.layers[id - 1]) == d.slots[id - 1];
  }

  lemma UnderIds(m: LayerManager, id: nat, k: nat)
    requires m.Valid() && 1 <= id <= |m.layers| && 1 <= k <= |m.layerStack|
    ensures Under(m.layerStack, m.layers[id - 1], k) == Under(Ids(m.layerStack), id, k)
  {
    forall i | 0 <= i < k
      ensures m.layerStack[i] == m.layers[id - 1] <==> Ids(m.layerStack)[i] == id
    {
      m.FoundAt(m.layerStack[i].id, i);
    }
  }

  method PlayActivate(
    a: ActiveLayer, ghost d: Desk, id: nat, inactive: seq<PixelWrite>, writes: seq<PixelWrite>, ghost faces: seq<Face>)
    returns (ghost after: seq<Face>)
    requires Playing(a, d, faces) && d.Proper(Activate(id, inactive, writes))
    requires d.After(Activate(id, inactive, writes)).Composable(a.manager.Outline())
    modifies a`activeLayer, a.manager`layerStack, a.WindowOf(a.activeLayer)`rows, a.WindowOf(id)`rows
    modifies a.ShadowOf(a.activeLayer), a.ShadowOf(id), a.manager.backBuffer.data, a.manager.screen.data
    ensures Playing(a, d.After(Activate(id, inactive, writes)), after)
    ensures d.active == id ==> a.Shown(id) == old(a.Shown(id))
    ensures 0 < d.active != id ==> a.Repainted(d.active, old(a.Shown(d.active)), inactive)
    ensures 0 < id != d.active ==> a.Repainted(id, old(a.Shown(id)), writes)
  {
    hide Shows, Uncovered, Covered, Step, Height, Composite, RowStart, NoDuplicates, Ready, Lie, LayerManager.Sound,
      Ids;
    hide ActiveLayer.Repainted, ActiveLayer.Shown, ActiveLayer.Apart;
    hide ActiveLayer.Drawable, ActiveLayer.ClearBelow, LayerManager.Valid, LayerManager.Composed, LayerManager.Place;
    hide Desk.After, Desk.Proper, Desk.Valid, Desk.Composable;
    ActivateFacts(a, d, faces, id, inactive, writes);
    AfterActivate(a.manager, d, id, inactive, writes);
    after := a.Activate(id, inactive, writes, faces, Height(d.stack, a.activeLayer), Height(d.stack, a.mouseLayer));
  }

  lemma ReadyApart(a: ActiveLayer, i: nat, j: nat)
    requires Ready(a.manager)
    ensures i != j ==> a.Apart(i, j)
  {
  }

  /** What activation does to the desk, and to the stack. */
  lemma AfterActivate(m: LayerManager, d: Desk, id: nat, inactive: seq<PixelWrite>, writes: seq<PixelWrite>)
    requires Matches(m, d) && d.Proper(Activate(id, inactive, writes))
    ensures |m.layers| == |d.slots|
    ensures
      var n := d.After(Activate(id, inactive, writes));
      && n.Valid() && n.slots == d.slots && n.mouse == d.mouse && n.active == id
      && n.stack == Ids(
           if id == d.active || id == 0 then m.layerStack
           else Step(m.layerStack, StackOp.UpDown(m.layers[id - 1], Height(d.stack, d.mouse) - 1)))
  {
    hide Desk.Raise, Step, Height, Ids;
    StackIds(m, d, id);
  }

  lemma StackIds(m: LayerManager, d: Desk, id: nat)
    requires Matches(m, d) && 1 <= Height(d.stack, d.mouse)
    ensures d.Has(id) ==>
      && Ids(Step(m.layerStack, StackOp.UpDown(m.layers[id - 1], Height(d.stack, d.mouse) - 1))) == d.Raise(id).stack
      && d.Raise(id) == d.(active := id, stack := d.Raise(id).stack)
  {
    hide Step, Height;
    if d.Has(id) {
      forall x | x in m.layerStack && x.id == id
        ensures x == m.layers[id - 1]
      {
        var i :| 0 <= i < |m.layerStack| && m.layerStack[i] == x;
        m.FoundAt(id, i);
      }
      StepIds(m.layerStack, m.layers[id - 1], Height(d.stack, d.mouse) - 1);
    }
  }

  ghost function WindowsOf(m: LayerManager): set<Window>
    reads m`layers, (set l: Layer | l in m.layers)`window
  {
    set l: Layer | l in m.layers && l.window != null :: l.window
  }

  ghost function ShadowsOf(m: LayerManager): set<array<PixelColor>>
    reads m`layers, (set l: Layer | l in m.layers)`window
  {
    set l: Layer | l in m.layers && l.window != null :: l.window.shadow.data
  }

  // What the windows show

  /** What a command writes to the window of a layer. */
  function WritesTo(d: Desk, c: Command, id: nat): seq<PixelWrite> {
    match c
    case Draw(drawn, writes, _) => if id == drawn then writes else []
    case Activate(next, inactive, writes) =>
      if next == d.active then [] else if id == d.active then inactive else if id == next then writes else []
    case _ => []
  }

  /** What a run writes to the window of a layer. */
  function AllWritesTo(d: Desk, commands: seq<Command>, screen: Rectangle, id: nat): seq<PixelWrite>
    requires d.Valid() && Allowed(d, commands, screen)
    decreases |commands|
  {
    if commands == [] then []
    else WritesTo(d, commands[0], id) + AllWritesTo(d.After(commands[0]), commands[1..], screen, id)
  }

  ghost function ContentOf(layer: Layer): Content
    reads {layer}`window, (if layer.window == null then {} else {layer.window})`rows
    reads if layer.window == null then {} else {layer.window.shadow.data}
  {
    if layer.window == null then Content([], []) else layer.window.Shown()
  }

  ghost function ContentsOf(layers: seq<Layer>): (r: seq<Content>)
    reads (set l: Layer | l in layers)`window, (set l: Layer | l in layers && l.window != null :: l.window)`rows
    reads set l: Layer | l in layers && l.window != null :: l.window.shadow.data
    ensures |r| == |layers| && forall i :: 0 <= i < |layers| ==> r[i] == ContentOf(layers[i])
  {
    if layers == [] then [] else ContentsOf(layers[..|layers| - 1]) + [ContentOf(layers[|layers| - 1])]
  }

  /** Each pixel of a window, in both copies, has the colour of the last write to
      it, or its old one. */
  ghost predicate ContentWrites(slot: Face, was: Content, now: Content, writes: seq<PixelWrite>) {
    && slot.size.x >= 0 && slot.size.y >= 0
    && was.Fits(slot.size.x, slot.size.y) && now.Fits(slot.size.x, slot.size.y)
    && Written(was, now, writes, slot.size.x, slot.size.y)
  }

  ghost predicate AllWritten(slots: seq<Face>, was: seq<Content>, now: seq<Content>, writes: seq<seq<PixelWrite>>) {
    && |slots| == |was| == |now| == |writes|
    && forall i :: 0 <= i < |slots| ==> ContentWrites(slots[i], was[i], now[i], writes[i])
  }

  lemma LastInSecond(a: seq<PixelWrite>, b: seq<PixelWrite>, p: Vector2D, j: nat)
    requires j < |b| && IsLast(b, p, j)
    ensures IsLast(a + b, p, |a| + j)
  {
  }

  lemma LastInFirst(a: seq<PixelWrite>, b: seq<PixelWrite>, p: Vector2D, i: nat)
    requires i < |a| && IsLast(a, p, i) && forall j :: 0 <= j < |b| ==> b[j].pos != p
    ensures IsLast(a + b, p, i)
  {
  }

  lemma LastWriteThen(a: seq<PixelWrite>, b: seq<PixelWrite>, p: Vector2D, x: PixelColor, y: PixelColor, z: PixelColor)
    requires LastWrite(a, p, x, y) && LastWrite(b, p, y, z)
    ensures LastWrite(a + b, p, x, z)
  {
    hide IsLast;
    if j :| 0 <= j < |b| && IsLast(b, p, j) && b[j].color == z {
      LastInSecond(a, b, p, j);
      assert (a + b)[|a| + j] == b[j];
    } else if i :| 0 <= i < |a| && IsLast(a, p, i) && a[i].color == y {
      LastInFirst(a, b, p, i);
      assert (a + b)[i] == a[i];
    }
  }

  lemma WritesThen(slot: Face, x: Content, y: Content, z: Content, a: seq<PixelWrite>, b: seq<PixelWrite>)
    requires ContentWrites(slot, x, y, a) && ContentWrites(slot, y, z, b)
    ensures ContentWrites(slot, x, z, a + b)
  {
    hide Content.Fits, LastWrite;
    forall p: Vector2D | Within(p, slot.size.x, slot.size.y)
      ensures WrittenAt(x, z, a + b, slot.size.x, slot.size.y, p)
    {
      WritesThenAt(x, y, z, a, b, slot.size.x, slot.size.y, p);
    }
  }

  lemma WritesThenAt(
    x: Content, y: Content, z: Content, a: seq<PixelWrite>, b: seq<PixelWrite>, width: nat, height: nat, p: Vector2D)
    requires x.Fits(width, height) && y.Fits(width, height) && z.Fits(width, height) && Within(p, width, height)
    requires WrittenAt(x, y, a, width, height, p) && WrittenAt(y, z, b, width, height, p)
    ensures WrittenAt(x, z, a + b, width, height, p)
  {
    hide LastWrite, RowStart;
    WindowPixel(p, width, height);
    var i := Offset(width, p);
    LastWriteThen(a, b, p, x.rows[p.y][p.x], y.rows[p.y][p.x], z.rows[p.y][p.x]);
    LastWriteThen(a, b, p, x.pixels[i], y.pixels[i], z.pixels[i]);
  }

  lemma SlotFits(m: LayerManager, d: Desk, i: nat)
    requires Matches(m, d) && m.Sound() && i < |m.layers|
    ensures i < |d.slots| && d.slots[i].size.x >= 0 && d.slots[i].size.y >= 0
    ensures ContentOf(m.layers[i]).Fits(d.slots[i].size.x, d.slots[i].size.y)
  {
    assert BareOf(m.layers[i]) == d.slots[i];
  }

  lemma NothingWritten(slot: Face, c: Content)
    requires slot.size.x >= 0 && slot.size.y >= 0 && c.Fits(slot.size.x, slot.size.y)
    ensures ContentWrites(slot, c, c, [])
  {
    hide Content.Fits, RowStart;
    forall p: Vector2D | Within(p, slot.size.x, slot.size.y)
      ensures WrittenAt(c, c, [], slot.size.x, slot.size.y, p)
    {
      WindowPixel(p, slot.size.x, slot.size.y);
    }
  }

  lemma RepaintedContent(a: ActiveLayer, d: Desk, id: nat, was: Content, writes: seq<PixelWrite>)
    requires Matches(a.manager, d) && d.Has(id) && !d.slots[id - 1].ink.Blank? && a.Repainted(id, was, writes)
    ensures ContentWrites(d.slots[id - 1], was, ContentOf(a.manager.layers[id - 1]), writes)
  {
    hide Written, Content.Fits;
    assert BareOf(a.manager.layers[id - 1]) == d.slots[id - 1];
  }

  method MoveStep(a: ActiveLayer, ghost d: Desk, c: Command, ghost faces: seq<Face>) returns (ghost after: seq<Face>)
    requires Playing(a, d, faces) && (c.Move? || c.MoveRelative?)
    requires d.Proper(c) && d.After(c).Composable(a.manager.Outline())
    modifies (set l: Layer | l in a.manager.layers)`pos, a.manager.backBuffer.data, a.manager.screen.data
    ensures Playing(a, d.After(c), after)
    ensures AllWritten(d.slots, old(ContentsOf(a.manager.layers)), ContentsOf(a.manager.layers), StepWrites(d, c))
  {
    hide Shows, Uncovered, Covered, Step, Height, Composite, RowStart, NoDuplicates, Lie, Ids, Content.Fits;
    hide LayerManager.Sound, LayerManager.Valid, LayerManager.Composed, ContentWrites;
    NothingYet(a.manager, d);
    match c {
      case Move(id, pos) => after := PlayMove(a, d, id, pos, faces);
      case MoveRelative(id, diff) => after := PlayMoveRelative(a, d, id, diff, faces);
    }
    forall i | 0 <= i < |d.slots|
      ensures ContentOf(a.manager.layers[i]) == old(ContentOf(a.manager.layers[i]))
    {
    }
  }

  method DrawStep(
    a: ActiveLayer, ghost d: Desk, id: nat, writes: seq<PixelWrite>, area: Rectangle, ghost faces: seq<Face>)
    returns (ghost after: seq<Face>)
    requires Playing(a, d, faces) && d.Proper(Draw(id, writes, area))
    modifies a.WindowOf(id)`rows, a.ShadowOf(id), a.manager.backBuffer.data, a.manager.screen.data
    ensures Playing(a, d, after)
    ensures
      AllWritten(
        d.slots, old(ContentsOf(a.manager.layers)), ContentsOf(a.manager.layers), StepWrites(d, Draw(id, writes, area)))
  {
    hide Shows, Uncovered, Covered, Step, Height, Composite, RowStart, NoDuplicates, Lie, Ids, Content.Fits;
    hide LayerManager.Sound, LayerManager.Valid, LayerManager.Composed, ContentWrites, ActiveLayer.Repainted;
    hide AllWritten, StepWrites;
    NothingYet(a.manager, d);
    ghost var was := ContentsOf(a.manager.layers);
    ContentIsShown(a, d, id);
    after := PlayDraw(a, d, id, writes, area, faces);
    RepaintedContent(a, d, id, old(a.Shown(id)), writes);
    forall i | 0 <= i < |d.slots| && i != id - 1
      ensures ContentOf(a.manager.layers[i]) == was[i]
    {
      assert old(ContentOf(a.manager.layers[i])) == was[i];
    }
    DrawWrites(d, id, writes, area, was, ContentsOf(a.manager.layers));
  }

  lemma DrawWrites(
    d: Desk, id: nat, writes: seq<PixelWrite>, area: Rectangle, was: seq<Content>, now: seq<Content>)
    requires |was| == |now| == |d.slots| && d.Has(id)
    requires forall i :: 0 <= i < |d.slots| ==> ContentWrites(d.slots[i], was[i], was[i], [])
    requires forall i :: 0 <= i < |d.slots| && i != id - 1 ==> now[i] == was[i]
    requires ContentWrites(d.slots[id - 1], was[id - 1], now[id - 1], writes)
    ensures AllWritten(d.slots, was, now, StepWrites(d, Draw(id, writes, area)))
  {
    hide ContentWrites;
  }

  lemma ContentIsShown(a: ActiveLayer, d: Desk, id: nat)
    requires Matches(a.manager, d)
    ensures d.Has(id) ==> |a.manager.layers| == |d.slots| && a.Shown(id) == ContentOf(a.manager.layers[id - 1])
  {
  }

  /** A layer that is neither the old nor the new active one keeps its window. */
  method ActivateAside(
    a: ActiveLayer, ghost d: Desk, id: nat, inactive: seq<PixelWrite>, writes: seq<PixelWrite>, ghost faces: seq<Face>)
    returns (ghost after: seq<Face>)
    requires Playing(a, d, faces) && d.Proper(Activate(id, inactive, writes))
    requires d.After(Activate(id, inactive, writes)).Composable(a.manager.Outline())
    modifies a`activeLayer, a.manager`layerStack, a.WindowOf(a.activeLayer)`rows, a.WindowOf(id)`rows
    modifies a.ShadowOf(a.activeLayer), a.ShadowOf(id), a.manager.backBuffer.data, a.manager.screen.data
    ensures Playing(a, d.After(Activate(id, inactive, writes)), after)
    ensures d.active == id ==> a.Shown(id) == old(a.Shown(id))
    ensures 0 < d.active != id ==> a.Repainted(d.active, old(a.Shown(d.active)), inactive)
    ensures 0 < id != d.active ==> a.Repainted(id, old(a.Shown(id)), writes)
    ensures forall i :: 0 <= i < |a.manager.layers| && i != id - 1 && i != d.active - 1 ==>
      ContentOf(a.manager.layers[i]) == old(ContentOf(a.manager.layers[i]))
  {
    hide Shows, Uncovered, Covered, Step, Height, Composite, RowStart, NoDuplicates, Lie, Ids, Desk.After, Desk.Proper;
    hide LayerManager.Sound, LayerManager.Valid, LayerManager.Composed, ActiveLayer.Repainted, ActiveLayer.Shown;
    hide Desk.Composable, Desk.Valid;
    after := PlayActivate(a, d, id, inactive, writes, faces);
    hide Playing, Matches;
  }

  method ActivateStep(
    a: ActiveLayer, ghost d: Desk, id: nat, inactive: seq<PixelWrite>, writes: seq<PixelWrite>, ghost faces: seq<Face>)
    returns (ghost after: seq<Face>)
    requires Playing(a, d, faces) && d.Proper(Activate(id, inactive, writes))
    requires d.After(Activate(id, inactive, writes)).Composable(a.manager.Outline())
    modifies a`activeLayer, a.manager`layerStack, a.WindowOf(a.activeLayer)`rows, a.WindowOf(id)`rows
    modifies a.ShadowOf(a.activeLayer), a.ShadowOf(id), a.manager.backBuffer.data, a.manager.screen.data
    ensures Playing(a, d.After(Activate(id, inactive, writes)), after)
    ensures
      AllWritten(
        d.slots, old(ContentsOf(a.manager.layers)), ContentsOf(a.manager.layers),
        StepWrites(d, Activate(id, inactive, writes)))
  {
    hide Shows, Uncovered, Covered, Step, Height, Composite, RowStart, NoDuplicates, Lie, Ids, Content.Fits, Ready;
    hide LayerManager.Sound, LayerManager.Valid, LayerManager.Composed, ContentWrites, ActiveLayer.Repainted;
    hide AllWritten, StepWrites, Desk.After, Desk.Proper, Desk.Composable, ContentOf, ActiveLayer.Shown;
    NothingYet(a.manager, d);
    ghost var was, next := ContentsOf(a.manager.layers), d.After(Activate(id, inactive, writes));
    ContentIsShown(a, d, id);
    ContentIsShown(a, d, d.active);
    NextSlots(d, id, inactive, writes);
    after := ActivateAside(a, d, id, inactive, writes, faces);
    ActivatedContents(a, d, next, id, inactive, writes, was);
  }

  lemma ActivatedContents(
    a: ActiveLayer, d: Desk, next: Desk, id: nat, inactive: seq<PixelWrite>, writes: seq<PixelWrite>, was: seq<Content>)
    requires Matches(a.manager, next) && next.slots == d.slots && |was| == |d.slots| == |a.manager.layers|
    requires d.active > 0 ==> d.Has(d.active) && !d.slots[d.active - 1].ink.Blank?
    requires id > 0 ==> d.Has(id) && !d.slots[id - 1].ink.Blank?
    requires forall i :: 0 <= i < |d.slots| ==> ContentWrites(d.slots[i], was[i], was[i], [])
    requires forall i :: 0 <= i < |d.slots| && i != id - 1 && i != d.active - 1 ==>
      ContentOf(a.manager.layers[i]) == was[i]
    requires 0 < id == d.active ==> a.Shown(id) == was[id - 1]
    requires 0 < d.active != id ==> a.Repainted(d.active, was[d.active - 1], inactive)
    requires 0 < id != d.active ==> a.Repainted(id, was[id - 1], writes)
    ensures
      AllWritten(d.slots, was, ContentsOf(a.manager.layers), StepWrites(d, Activate(id, inactive, writes)))
  {
    hide Lie, Content.Fits, ContentWrites, ActiveLayer.Repainted, AllWritten, StepWrites, ContentOf, ActiveLayer.Shown;
    ContentIsShown(a, next, id);
    if 0 < d.active != id {
      RepaintedContent(a, next, d.active, was[d.active - 1], inactive);
    }
    if 0 < id != d.active {
      RepaintedContent(a, next, id, was[id - 1], writes);
    }
    ActivateWrites(d, id, inactive, writes, was, ContentsOf(a.manager.layers));
  }

  lemma NothingYet(m: LayerManager, d: Desk)
    requires Matches(m, d) && m.Sound()
    ensures |d.slots| == |m.layers|
    ensures forall i :: 0 <= i < |d.slots| ==>
      ContentWrites(d.slots[i], ContentOf(m.layers[i]), ContentOf(m.layers[i]), [])
  {
    hide Lie, ContentWrites, Content.Fits;
    SlotCount(m, d);
    forall i | 0 <= i < |d.slots|
      ensures ContentWrites(d.slots[i], ContentOf(m.layers[i]), ContentOf(m.layers[i]), [])
    {
      SlotFits(m, d, i);
      NothingWritten(d.slots[i], ContentOf(m.layers[i]));
    }
  }

  lemma NextSlots(d: Desk, id: nat, inactive: seq<PixelWrite>, writes: seq<PixelWrite>)
    requires d.Valid() && d.Proper(Activate(id, inactive, writes))
    ensures d.After(Activate(id, inactive, writes)).slots == d.slots
    ensures d.active > 0 ==> d.Has(d.active) && !d.slots[d.active - 1].ink.Blank?
    ensures id > 0 ==> d.Has(id) && !d.slots[id - 1].ink.Blank?
  {
    hide Step, Height;
  }

  lemma ActivateWrites(
    d: Desk, id: nat, inactive: seq<PixelWrite>, writes: seq<PixelWrite>, was: seq<Content>, now: seq<Content>)
    requires |was| == |now| == |d.slots| && id <= |d.slots| && d.active <= |d.slots|
    requires forall i :: 0 <= i < |d.slots| ==> ContentWrites(d.slots[i], was[i], was[i], [])
    requires forall i :: 0 <= i < |d.slots| && i != id - 1 && i != d.active - 1 ==> now[i] == was[i]
    requires 0 < id == d.active ==> now[id - 1] == was[id - 1]
    requires 0 < d.active != id ==>
      ContentWrites(d.slots[d.active - 1], was[d.active - 1], now[d.active - 1], inactive)
    requires 0 < id != d.active ==> ContentWrites(d.slots[id - 1], was[id - 1], now[id - 1], writes)
    ensures AllWritten(d.slots, was, now, StepWrites(d, Activate(id, inactive, writes)))
  {
    hide ContentWrites;
  }

  function StepWrites(d: Desk, c: Command): (r: seq<seq<PixelWrite>>)
    ensures |r| == |d.slots| && forall i :: 0 <= i < |r| ==> r[i] == WritesTo(d, c, i + 1)
  {
    seq(|d.slots|, i requires 0 <= i < |d.slots| => WritesTo(d, c, i + 1))
  }

  method PlayOne(a: ActiveLayer, c: Command, ghost d: Desk, ghost faces: seq<Face>) returns (ghost after: seq<Face>)
    requires Playing(a, d, faces) && d.Proper(c) && d.After(c).Composable(a.manager.Outline())
    modifies a`activeLayer, a.manager`layerStack, (set l: Layer | l in a.manager.layers)`pos
    modifies WindowsOf(a.manager)`rows, ShadowsOf(a.manager), a.manager.backBuffer.data, a.manager.screen.data
    ensures Playing(a, d.After(c), after)
    ensures AllWritten(d.slots, old(ContentsOf(a.manager.layers)), ContentsOf(a.manager.layers), StepWrites(d, c))
  {
    hide Shows, Uncovered, Covered, Step, Height, Composite, RowStart, NoDuplicates, Ready, Lie, LayerManager.Sound,
      Ids, AllWritten, StepWrites;
    assert |d.slots| == |a.manager.layers| by {
      SlotCount(a.manager, d);
    }
    match c
    case Draw(id, writes, area) => after := DrawStep(a, d, id, writes, area, faces);
    case Activate(id, inactive, writes) => after := ActivateStep(a, d, id, inactive, writes, faces);
    case _ => after := MoveStep(a, d, c, faces);
  }

  lemma DeskOfPlaying(a: ActiveLayer, d: Desk, faces: seq<Face>)
    requires Playing(a, d, faces)
    ensures d.Valid() && |d.slots| == |a.manager.layers|
    ensures AllWritten(
      d.slots, ContentsOf(a.manager.layers), ContentsOf(a.manager.layers), seq(|d.slots|, _ => []))
  {
    hide Lie, LayerManager.Sound, ContentWrites, Content.Fits;
    NothingYet(a.manager, d);
  }

  lemma SlotCount(m: LayerManager, d: Desk)
    requires Matches(m, d)
    ensures |d.slots| == |m.layers|
  {
  }

  /** Each layer's writes, one after the other. */
  function Joined(a: seq<seq<PixelWrite>>, b: seq<seq<PixelWrite>>): (r: seq<seq<PixelWrite>>)
    requires |a| == |b|
    ensures |r| == |a| && forall i :: 0 <= i < |r| ==> r[i] == a[i] + b[i]
  {
    seq(|a|, i requires 0 <= i < |a| => a[i] + b[i])
  }

  /** The sizes of windows stay what they are. */
  ghost predicate SameSizes(a: seq<Face>, b: seq<Face>) {
    |a| == |b| && forall i :: 0 <= i < |a| ==> a[i].size == b[i].size
  }

  lemma AfterSizes(d: Desk, c: Command)
    requires d.Valid() && d.Proper(c)
    ensures SameSizes(d.slots, d.After(c).slots)
  {
    hide Step, Height;
  }

  lemma AllWrittenThen(
    slots: seq<Face>, now: seq<Face>, x: seq<Content>, y: seq<Content>, z: seq<Content>, a: seq<seq<PixelWrite>>,
    b: seq<seq<PixelWrite>>)
    requires SameSizes(slots, now) && AllWritten(slots, x, y, a) && AllWritten(now, y, z, b)
    ensures |a| == |b| && AllWritten(slots, x, z, Joined(a, b))
  {
    hide ContentWrites, Joined;
    forall i | 0 <= i < |slots|
      ensures ContentWrites(slots[i], x[i], z[i], a[i] + b[i])
    {
      SameSize(slots[i], now[i], y[i], z[i], b[i]);
      WritesThen(slots[i], x[i], y[i], z[i], a[i], b[i]);
    }
  }

  lemma SameSize(s: Face, t: Face, x: Content, y: Content, writes: seq<PixelWrite>)
    requires s.size == t.size && ContentWrites(t, x, y, writes)
    ensures ContentWrites(s, x, y, writes)
  {
  }

  /** What the whole run writes, layer by layer. */
  function RunWrites(d: Desk, commands: seq<Command>, screen: Rectangle): (r: seq<seq<PixelWrite>>)
    requires d.Valid() && Allowed(d, commands, screen)
    ensures |r| == |d.slots| && forall i :: 0 <= i < |r| ==> r[i] == AllWritesTo(d, commands, screen, i + 1)
  {
    seq(|d.slots|, i requires 0 <= i < |d.slots| => AllWritesTo(d, commands, screen, i + 1))
  }

  /** The writes so far and those of the rest of the run are those of the run. */
  ghost predicate SoFar(
    done: seq<seq<PixelWrite>>, d: Desk, rest: seq<Command>, screen: Rectangle, all: seq<seq<PixelWrite>>)
    requires d.Valid() && Allowed(d, rest, screen)
  {
    && |done| == |all| == |d.slots|
    && forall i :: 0 <= i < |done| ==> done[i] + AllWritesTo(d, rest, screen, i + 1) == all[i]
  }

  lemma SoFarThen(
    done: seq<seq<PixelWrite>>, d: Desk, rest: seq<Command>, screen: Rectangle, all: seq<seq<PixelWrite>>)
    requires d.Valid() && Allowed(d, rest, screen) && rest != [] && SoFar(done, d, rest, screen, all)
    ensures SoFar(Joined(done, StepWrites(d, rest[0])), d.After(rest[0]), rest[1..], screen, all)
  {
    AfterSizes(d, rest[0]);
    hide Desk.After, Desk.Proper, Desk.Composable, WritesTo;
    var n := d.After(rest[0]);
    forall i | 0 <= i < |done|
      ensures done[i] + WritesTo(d, rest[0], i + 1) + AllWritesTo(n, rest[1..], screen, i + 1) == all[i]
    {
      assert AllWritesTo(d, rest, screen, i + 1) ==
        WritesTo(d, rest[0], i + 1) + AllWritesTo(n, rest[1..], screen, i + 1);
    }
  }

  lemma SoFarBegins(d: Desk, commands: seq<Command>, screen: Rectangle)
    requires d.Valid() && Allowed(d, commands, screen)
    ensures SoFar(seq(|d.slots|, _ => []), d, commands, screen, RunWrites(d, commands, screen))
  {
    hide Allowed, Desk.Valid;
    var none: seq<seq<PixelWrite>> := seq(|d.slots|, _ => []);
    forall i | 0 <= i < |none|
      ensures none[i] + AllWritesTo(d, commands, screen, i + 1) == AllWritesTo(d, commands, screen, i + 1)
    {
    }
  }

  lemma SoFarEnds(done: seq<seq<PixelWrite>>, d: Desk, screen: Rectangle, all: seq<seq<PixelWrite>>)
    requires d.Valid() && SoFar(done, d, [], screen, all)
    ensures done == all
  {
    forall i | 0 <= i < |done|
      ensures done[i] == all[i]
    {
      assert done[i] + [] == done[i];
    }
  }

  /** Any allowed run of drawing, moving and activating: both buffers show the
      composition of the layers, which lie where the run put them, and each pixel
      of their windows has the colour that the run wrote there last. */
  method Play(a: ActiveLayer, commands: seq<Command>, ghost d: Desk, ghost faces: seq<Face>)
    returns (ghost after: seq<Face>)
    requires Playing(a, d, faces) && Allowed(d, commands, a.manager.Outline())
    modifies a`activeLayer, a.manager`layerStack, (set l: Layer | l in a.manager.layers)`pos
    modifies WindowsOf(a.manager)`rows, ShadowsOf(a.manager), a.manager.backBuffer.data, a.manager.screen.data
    ensures Playing(a, AfterAll(d, commands, a.manager.Outline()), after)
    ensures
      AllWritten(
        d.slots, old(ContentsOf(a.manager.layers)), ContentsOf(a.manager.layers),
        RunWrites(d, commands, a.manager.Outline()))
  {
    hide Playing, Matches, Desk.Valid, Desk.Composable, Desk.Proper, Desk.After, NoDuplicates, AllWritten, RunWrites;
    hide SoFar, SameSizes, ContentsOf, Joined, StepWrites;
    DeskOfPlaying(a, d, faces);
    ghost var outline, all := a.manager.Outline(), RunWrites(d, commands, a.manager.Outline());
    ghost var done := seq(|d.slots|, _ => []);
    SoFarBegins(d, commands, outline);
    SizesItself(d.slots);
    after := faces;
    ghost var now := d;
    assert commands[0..] == commands;
    for i := 0 to |commands|
      invariant Playing(a, now, after) && now.Valid() && Allowed(now, commands[i..], outline)
      invariant AfterAll(now, commands[i..], outline) == AfterAll(d, commands, outline)
      invariant SameSizes(d.slots, now.slots) && SoFar(done, now, commands[i..], outline, all)
      invariant AllWritten(d.slots, old(ContentsOf(a.manager.layers)), ContentsOf(a.manager.layers), done)
    {
      assert commands[i..][1..] == commands[i + 1..];
      after, done, now := PlayNext(a, commands[i..], now, after, d.slots, old(ContentsOf(a.manager.layers)), done, all);
    }
    assert commands[|commands|..] == [];
    SoFarEnds(done, now, outline, all);
  }

  lemma SizesItself(slots: seq<Face>)
    ensures SameSizes(slots, slots)
  {
  }

  /** One turn of `Play`. */
  method PlayNext(
    a: ActiveLayer, rest: seq<Command>, ghost now: Desk, ghost faces: seq<Face>, ghost slots: seq<Face>,
    ghost was: seq<Content>, ghost done: seq<seq<PixelWrite>>, ghost all: seq<seq<PixelWrite>>)
    returns (ghost after: seq<Face>, ghost more: seq<seq<PixelWrite>>, ghost next: Desk)
    requires now.Valid() && rest != [] && Allowed(now, rest, a.manager.Outline()) && Playing(a, now, faces)
    requires SameSizes(slots, now.slots) && SoFar(done, now, rest, a.manager.Outline(), all)
    requires AllWritten(slots, was, ContentsOf(a.manager.layers), done)
    modifies a`activeLayer, a.manager`layerStack, (set l: Layer | l in a.manager.layers)`pos
    modifies WindowsOf(a.manager)`rows, ShadowsOf(a.manager), a.manager.backBuffer.data, a.manager.screen.data
    ensures next == now.After(rest[0]) && next.Valid() && Playing(a, next, after)
    ensures SameSizes(slots, next.slots) && SoFar(more, next, rest[1..], a.manager.Outline(), all)
    ensures AllWritten(slots, was, ContentsOf(a.manager.layers), more)
  {
    hide Playing, Matches, Desk.Composable, Desk.Proper, Desk.After, NoDuplicates, AllWritten, SoFar, ContentsOf;
    hide Joined, StepWrites;
    AfterSizes(now, rest[0]);
    SoFarThen(done, now, rest, a.manager.Outline(), all);
    ghost var mid := ContentsOf(a.manager.layers);
    after := PlayOne(a, rest[0], now, faces);
    AllWrittenThen(slots, now.slots, was, mid, ContentsOf(a.manager.layers), done, StepWrites(now, rest[0]));
    more, next := Joined(done, StepWrites(now, rest[0])), now.After(rest[0]);
  }
}
