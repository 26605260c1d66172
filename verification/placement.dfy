/** `get_random_spawn_pos` and the `random.randint` draws it makes. The
    random source is replaced by explicit draws supplied by the caller. */
module Placement {
  import opened Geometry

  /** `random.randint(lo, hi)`: a value in the closed range `[lo, hi]`,
      selected by `draw`. Python raises `ValueError` when `lo > hi`. */
  function RandInt(lo: int, hi: int, draw: nat): (r: int)
    requires lo <= hi
    ensures lo <= r <= hi
  {
    lo + draw % (hi - lo + 1)
  }

  /** Every value of the range is reachable by some draw. */
  lemma RandIntCoversRange(lo: int, hi: int, v: int)
    requires lo <= v <= hi
    ensures RandInt(lo, hi, (v - lo) as nat) == v
  {
    assert (v - lo) % (hi - lo + 1) == v - lo;
  }

  /** The five choices of `random.choice` in `get_random_spawn_pos`. */
  datatype Side = Inside | Top | Bottom | Left | Right

  const DefaultMargin: int := 200

  /** The draws a side needs: a horizontal one unless the side is `Left`
      or `Right`, a vertical one unless it is `Top` or `Bottom`. */
  predicate SideFits(arena: Rect, side: Side)
  {
    (side in {Inside, Top, Bottom} ==> arena.Left() <= arena.Right())
    && (side in {Inside, Left, Right} ==> arena.Top() <= arena.Bottom())
  }

  /** `get_random_spawn_pos`: `Inside` draws a point of the closed arena;
      an edge side pins one coordinate `margin` beyond that edge and draws
      the other along the edge. */
  function SpawnPos(arena: Rect, side: Side, dx: nat, dy: nat, margin: int): (p: Point)
    requires SideFits(arena, side)
    ensures side in {Inside, Top, Bottom} ==> arena.Left() <= p.x <= arena.Right()
    ensures side in {Inside, Left, Right} ==> arena.Top() <= p.y <= arena.Bottom()
    ensures side == Top ==> p.y == arena.Top() - margin
    ensures side == Bottom ==> p.y == arena.Bottom() + margin
    ensures side == Left ==> p.x == arena.Left() - margin
    ensures side == Right ==> p.x == arena.Right() + margin
  {
    match side
    case Inside => Point(RandInt(arena.Left(), arena.Right(), dx), RandInt(arena.Top(), arena.Bottom(), dy))
    case Top => Point(RandInt(arena.Left(), arena.Right(), dx), arena.Top() - margin)
    case Bottom => Point(RandInt(arena.Left(), arena.Right(), dx), arena.Bottom() + margin)
    case Left => Point(arena.Left() - margin, RandInt(arena.Top(), arena.Bottom(), dy))
    case Right => Point(arena.Right() + margin, RandInt(arena.Top(), arena.Bottom(), dy))
  }

  /** Every point of the closed arena is a possible `Inside` spawn. */
  lemma InsideCoversArena(arena: Rect, p: Point, margin: int)
    requires arena.Left() <= p.x <= arena.Right() && arena.Top() <= p.y <= arena.Bottom()
    ensures SpawnPos(arena, Inside, (p.x - arena.Left()) as nat, (p.y - arena.Top()) as nat, margin) == p
  {
    RandIntCoversRange(arena.Left(), arena.Right(), p.x);
    RandIntCoversRange(arena.Top(), arena.Bottom(), p.y);
  }

  /** With a margin larger than the body, a square body of side `size`
      spawned at an edge lies wholly outside the arena: it neither fits
      inside nor overlaps it, so an enemy placed there starts hidden. */
  lemma EdgeSpawnOutside(arena: Rect, side: Side, dx: nat, dy: nat, margin: int, size: int)
    requires SideFits(arena, side) && side != Inside
    requires 0 < size < margin && arena.w > 0 && arena.h > 0
    ensures var p := SpawnPos(arena, side, dx, dy, margin);
            && !arena.Contains(Rect(p.x, p.y, size, size))
            && !arena.CollideRect(Rect(p.x, p.y, size, size))
  {
  }
}
