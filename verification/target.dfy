/** `Package`: the defended target. `armor` is kept but nothing reads it. */
module Target {
  import opened Geometry

  datatype Package = Package(maxHp: int, hp: real, armor: int, rect: Rect)

  function NewPackage(rect: Rect): (p: Package)
    ensures p.hp == p.maxHp as real == 100.0 && p.armor == 0 && p.rect == rect
  {
    Package(100, 100.0, 0, rect)
  }
}
