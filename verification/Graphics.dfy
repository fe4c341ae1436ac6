/** Vectors, rectangles and colours (kernel/graphics.hpp). */
module Graphics {

  datatype PixelColor = PixelColor(r: bv8, g: bv8, b: bv8)

  datatype Vector2D = Vector2D(x: int, y: int) {
    function Plus(v: Vector2D): Vector2D {
      Vector2D(x + v.x, y + v.y)
    }

    function Minus(v: Vector2D): Vector2D {
      Vector2D(x - v.x, y - v.y)
    }
  }

  function Max(a: int, b: int): int {
    if a < b then b else a
  }

  function Min(a: int, b: int): int {
    if b < a then b else a
  }

  function ElementMax(a: Vector2D, b: Vector2D): Vector2D {
    Vector2D(Max(a.x, b.x), Max(a.y, b.y))
  }

  function ElementMin(a: Vector2D, b: Vector2D): Vector2D {
    Vector2D(Min(a.x, b.x), Min(a.y, b.y))
  }

  datatype Rectangle = Rectangle(pos: Vector2D, size: Vector2D) {
    function End(): Vector2D {
      pos.Plus(size)
    }

    /** The pixels of the rectangle: none of them when a side is not positive. */
    predicate Contains(p: Vector2D) {
      && pos.x <= p.x < pos.x + size.x
      && pos.y <= p.y < pos.y + size.y
    }

    predicate Regular() {
      0 <= size.x && 0 <= size.y
    }

    /** No row of the rectangle has a negative length. */
    predicate Copyable() {
      0 <= size.x || size.y <= 0
    }
  }

  /** `operator&`. Its pixels are exactly the common pixels, whatever the sign
      of the sides. Two regular rectangles have a regular intersection, and a
      regular one leaves no row of negative length. */
  function Intersect(a: Rectangle, b: Rectangle): (r: Rectangle)
    ensures forall p: Vector2D {:trigger r.Contains(p)} :: r.Contains(p) <==> a.Contains(p) && b.Contains(p)
    ensures a.Regular() && b.Regular() ==> r.Regular()
    ensures (a.Copyable() && b.Regular()) || (a.Regular() && b.Copyable()) ==> r.Copyable()
  {
    if a.End().x < b.pos.x || a.End().y < b.pos.y || b.End().x < a.pos.x || b.End().y < a.pos.y then
      Rectangle(Vector2D(0, 0), Vector2D(0, 0))
    else
      var pos := ElementMax(a.pos, b.pos);
      Rectangle(pos, ElementMin(a.End(), b.End()).Minus(pos))
  }
}
