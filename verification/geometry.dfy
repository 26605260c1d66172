/** Integer rectangles and points as pygame keeps them, and real-valued
    vectors as `pygame.Vector2` keeps them. */
module Geometry {

  datatype Point = Point(x: int, y: int)

  datatype Vec = Vec(x: real, y: real) {
    function Plus(o: Vec): Vec { Vec(x + o.x, y + o.y) }
    function Minus(o: Vec): Vec { Vec(x - o.x, y - o.y) }
    function Times(k: real): Vec { Vec(x * k, y * k) }
    function Negated(): Vec { Vec(-x, -y) }
    function SqLength(): real { x * x + y * y }
  }

  const Zero: Vec := Vec(0.0, 0.0)

  function ToVec(p: Point): Vec
  {
    Vec(p.x as real, p.y as real)
  }

  /** C division by two, truncating toward zero, as pygame computes centres. */
  function HalfOf(n: int): int
  {
    if n >= 0 then n / 2 else -((-n) / 2)
  }

  /** Squared Euclidean distance; comparing it with a squared bound is the
      same test as comparing the distance with the bound. */
  function SqDist(a: Point, b: Point): int
  {
    (a.x - b.x) * (a.x - b.x) + (a.y - b.y) * (a.y - b.y)
  }

  datatype Rect = Rect(x: int, y: int, w: int, h: int) {
    function Left(): int { x }
    function Right(): int { x + w }
    function Top(): int { y }
    function Bottom(): int { y + h }
    function Center(): Point { Point(x + HalfOf(w), y + HalfOf(h)) }

    /** `Rect.collidepoint`: the right and bottom edges are excluded. */
    predicate CollidePoint(p: Point)
    {
      x <= p.x < x + w && y <= p.y < y + h
    }

    /** `Rect.colliderect`: empty rectangles collide with nothing. */
    predicate CollideRect(o: Rect)
    {
      && w > 0 && h > 0 && o.w > 0 && o.h > 0
      && x < o.x + o.w && o.x < x + w
      && y < o.y + o.h && o.y < y + h
    }

    /** `Rect.contains`: `o` lies entirely inside this rectangle. */
    predicate Contains(o: Rect)
    {
      && x <= o.x && y <= o.y
      && x + w >= o.x + o.w && y + h >= o.y + o.h
      && x + w > o.x && y + h > o.y
    }
  }
}
