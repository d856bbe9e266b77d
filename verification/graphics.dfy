/** Points and rectangles of the screen. */
module Graphics {

  datatype Vector2D = Vector2D(x: int, y: int)

  datatype Rectangle = Rectangle(pos: Vector2D, size: Vector2D)

  function Plus(a: Vector2D, b: Vector2D): Vector2D {
    Vector2D(a.x + b.x, a.y + b.y)
  }

  function Minus(a: Vector2D, b: Vector2D): Vector2D {
    Vector2D(a.x - b.x, a.y - b.y)
  }

  function Max(a: int, b: int): int {
    if a < b then b else a
  }

  function Min(a: int, b: int): int {
    if b < a then b else a
  }

  function ElementMax(a: Vector2D, b: Vector2D): Vector2D {
    Vector2D(Max(a.x, b.x), Max(a.y, b.y))
  }

  function ElementMin(a: Vector2D, b: Vector2D): Vector2D {
    Vector2D(Min(a.x, b.x), Min(a.y, b.y))
  }

  predicate Contains(r: Rectangle, p: Vector2D) {
    r.pos.x <= p.x < r.pos.x + r.size.x && r.pos.y <= p.y < r.pos.y + r.size.y
  }

  predicate Proper(r: Rectangle) {
    0 <= r.size.x && 0 <= r.size.y
  }

  /** The common part of two rectangles; one without points at the origin if they are apart. */
  function Intersect(a: Rectangle, b: Rectangle): Rectangle {
    var aEnd, bEnd := Plus(a.pos, a.size), Plus(b.pos, b.size);
    if aEnd.x < b.pos.x || aEnd.y < b.pos.y || bEnd.x < a.pos.x || bEnd.y < a.pos.y then
      Rectangle(Vector2D(0, 0), Vector2D(0, 0))
    else
      var pos := ElementMax(a.pos, b.pos);
      Rectangle(pos, Minus(ElementMin(aEnd, bEnd), pos))
  }

  /** Exactly the points of both, and no negative sizes. */
  lemma IntersectContains(a: Rectangle, b: Rectangle, p: Vector2D)
    requires Proper(a) && Proper(b)
    ensures Contains(Intersect(a, b), p) <==> Contains(a, p) && Contains(b, p)
    ensures Proper(Intersect(a, b))
  {
  }
}
