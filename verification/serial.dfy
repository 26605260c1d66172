/** The save format: how `Serializable.to_dict` turns each attribute value
    into JSON-ready data, how `Serializable.from_dict` guesses the type of
    each value back from the shape of a list, the entity-specific
    `to_dict`/`from_dict` of `Bullet` and `Enemy`, and the checks
    `load_save_data` makes on a decoded save. */
module Serial {
  import opened Numeric
  import opened Geometry
  import opened Results
  import opened Enemies

  datatype Color = Color(r: int, g: int, b: int, a: int)

  /** The attribute values the entities hold, and what JSON gives back.
      `PObject` is an object with its own `to_dict`, given by its fields. */
  datatype PyValue =
    | PInt(i: int)
    | PFloat(f: real)
    | PBool(b: bool)
    | PStr(s: string)
    | PNone
    | PList(items: seq<PyValue>)
    | PTuple(items: seq<PyValue>)
    | PSet(items: seq<PyValue>)
    | PRect(rect: Rect)
    | PVector(v: Vec)
    | PColor(color: Color)
    | PCallable
    | PDict(entries: map<string, PyValue>)
    | PObject(fields: seq<Field>)

  datatype Field = Field(name: string, value: PyValue)

  type Record = map<string, PyValue>

  /** Private attributes and methods are not saved. */
  predicate Skipped(f: Field)
  {
    (|f.name| > 0 && f.name[0] == '_') || f.value.PCallable?
  }

  predicate AllVectors(xs: seq<PyValue>)
  {
    forall i :: 0 <= i < |xs| ==> xs[i].PVector?
  }

  function VecPair(v: Vec): PyValue
  {
    PList([PFloat(v.x), PFloat(v.y)])
  }

  /** The value classification of `to_dict`, tried in the source's order:
      rectangle, vector, colour, set, a list or tuple of vectors (empty ones
      included), a list whose first element has its own `to_dict`, and
      anything else as it is. Calling `to_dict` on a later element that has
      none fails. */
  function EncodeValue(v: PyValue): (r: Result<PyValue>)
    ensures v.PRect? ==> r == Ok(PList([PInt(v.rect.x), PInt(v.rect.y), PInt(v.rect.w), PInt(v.rect.h)]))
    ensures v.PVector? ==> r == Ok(VecPair(v.v))
    ensures v.PSet? ==> r == Ok(PList(v.items))
    ensures r.Ok? && r.value.PTuple? ==> v.PTuple? && r.value == v
    ensures r.Ok? ==> !r.value.PRect? && !r.value.PVector? && !r.value.PColor? && !r.value.PSet?
    decreases v, 1
  {
    match v
    case PRect(rc) => Ok(PList([PInt(rc.x), PInt(rc.y), PInt(rc.w), PInt(rc.h)]))
    case PVector(u) => Ok(VecPair(u))
    case PColor(c) => Ok(PList([PInt(c.r), PInt(c.g), PInt(c.b), PInt(c.a)]))
    case PSet(xs) => Ok(PList(xs))
    case PTuple(xs) =>
      if AllVectors(xs) then Ok(PList(seq(|xs|, i requires 0 <= i < |xs| => VecPair(xs[i].v)))) else Ok(v)
    case PList(xs) =>
      if AllVectors(xs) then Ok(PList(seq(|xs|, i requires 0 <= i < |xs| => VecPair(xs[i].v))))
      else if xs[0].PObject? then EncodeObjects(xs)
      else Ok(v)
    case _ => Ok(v)
  }

  /** `[v.to_dict() for v in value]`. */
  function EncodeObjects(xs: seq<PyValue>): (r: Result<PyValue>)
    ensures r.Ok? ==> r.value.PList? && |r.value.items| == |xs|
    decreases xs, 0
  {
    if |xs| == 0 then Ok(PList([]))
    else
      var last := xs[|xs| - 1];
      match EncodeObjects(xs[..|xs| - 1])
      case Err(m) => Err(m)
      case Ok(front) =>
        if !last.PObject? then Err("element has no to_dict")
        else
          match ToDict(last.fields)
          case Err(m) => Err(m)
          case Ok(d) => Ok(PList(front.items + [PDict(d)]))
  }

  /** `Serializable.to_dict`: every saved attribute under its own name. */
  function ToDict(fs: seq<Field>): (r: Result<Record>)
    ensures r.Ok? ==> forall k :: k in r.value ==> exists i :: 0 <= i < |fs| && fs[i].name == k && !Skipped(fs[i])
    decreases fs, 0
  {
    if |fs| == 0 then Ok(map[])
    else
      var f := fs[|fs| - 1];
      match ToDict(fs[..|fs| - 1])
      case Err(m) => Err(m)
      case Ok(front) =>
        if Skipped(f) then Ok(front)
        else
          match EncodeValue(f.value)
          case Err(m) => Err(m)
          case Ok(x) => Ok(front[f.name := x])
  }

  predicate IsNumber(v: PyValue)
  {
    v.PInt? || v.PFloat? || v.PBool?
  }

  /** `isinstance(v, int)`: a bool is an int in Python. */
  predicate IsWholeNumber(v: PyValue)
  {
    v.PInt? || v.PBool?
  }

  function NumberOf(v: PyValue): real
    requires IsNumber(v)
  {
    match v
    case PInt(i) => i as real
    case PFloat(f) => f
    case PBool(b) => if b then 1.0 else 0.0
  }

  function WholeOf(v: PyValue): int
    requires IsWholeNumber(v)
  {
    match v
    case PInt(i) => i
    case PBool(b) => if b then 1 else 0
  }

  predicate AllNumbers(xs: seq<PyValue>)
  {
    forall i :: 0 <= i < |xs| ==> IsNumber(xs[i])
  }

  predicate AllWhole(xs: seq<PyValue>)
  {
    forall i :: 0 <= i < |xs| ==> IsWholeNumber(xs[i])
  }

  predicate InByteRange(xs: seq<PyValue>)
    requires AllWhole(xs)
  {
    forall i :: 0 <= i < |xs| ==> 0 <= WholeOf(xs[i]) <= 255
  }

  /** `pygame.Vector2(*v)` for one element of a list of vectors: no numbers
      give the zero vector, one number both coordinates, two numbers the
      two coordinates; anything else is refused. */
  function VectorOf(v: PyValue): (r: Result<Vec>)
    ensures r.Ok? <==> v.PList? && |v.items| <= 2 && AllNumbers(v.items)
  {
    if v.PList? && |v.items| <= 2 && AllNumbers(v.items) then
      if |v.items| == 0 then Ok(Zero)
      else if |v.items| == 1 then Ok(Vec(NumberOf(v.items[0]), NumberOf(v.items[0])))
      else Ok(Vec(NumberOf(v.items[0]), NumberOf(v.items[1])))
    else Err("not a vector")
  }

  function VectorsOf(xs: seq<PyValue>): (r: Result<seq<PyValue>>)
    ensures r.Ok? ==> |r.value| == |xs| && AllVectors(r.value)
    ensures r.Ok? <==> forall i :: 0 <= i < |xs| ==> VectorOf(xs[i]).Ok?
  {
    if |xs| == 0 then Ok([])
    else
      match VectorsOf(xs[..|xs| - 1])
      case Err(m) => Err(m)
      case Ok(front) =>
        match VectorOf(xs[|xs| - 1])
        case Err(m) => Err(m)
        case Ok(u) =>
          assert forall i :: 0 <= i < |xs| - 1 ==> xs[..|xs| - 1][i] == xs[i];
          Ok(front + [PVector(u)])
  }

  /** The shape guess of `from_dict` for one value: four numbers are a
      rectangle, two a vector, three or four whole numbers a colour (which
      must be bytes), a list whose first element is a list is a list of
      vectors, and anything else is kept. Four whole numbers are taken by
      the rectangle test first, so only three-element colours survive. */
  function DecodeValue(v: PyValue): (r: Result<PyValue>)
    ensures !v.PList? ==> r == Ok(v)
    ensures v.PList? && |v.items| == 4 && AllNumbers(v.items) ==> r.Ok? && r.value.PRect?
    ensures v.PList? && |v.items| == 2 && AllNumbers(v.items)
            ==> r == Ok(PVector(Vec(NumberOf(v.items[0]), NumberOf(v.items[1]))))
    ensures r.Ok? && r.value.PRect? && v.PList? ==> |v.items| == 4 && AllNumbers(v.items)
    ensures r.Ok? && r.value.PVector? && v.PList? ==> |v.items| == 2 && AllNumbers(v.items)
    ensures r.Ok? && r.value.PColor? && v.PList? ==> |v.items| == 3 && AllWhole(v.items)
    ensures r.Ok? && v.PList? ==> !r.value.PSet? && !r.value.PTuple?
    ensures r.Err? ==> v.PList? && |v.items| > 0
  {
    if !v.PList? then Ok(v)
    else
      var xs := v.items;
      if |xs| == 4 && AllNumbers(xs) then
        Ok(PRect(Rect(Trunc(NumberOf(xs[0])), Trunc(NumberOf(xs[1])), Trunc(NumberOf(xs[2])), Trunc(NumberOf(xs[3])))))
      else if |xs| == 2 && AllNumbers(xs) then
        Ok(PVector(Vec(NumberOf(xs[0]), NumberOf(xs[1]))))
      else if (|xs| == 3 || |xs| == 4) && AllWhole(xs) then
        // Only three elements reach here: four whole numbers are a rectangle.
        if InByteRange(xs) then Ok(PColor(Color(WholeOf(xs[0]), WholeOf(xs[1]), WholeOf(xs[2]), 255)))
        else Err("colour component out of range")
      else if |xs| > 0 && xs[0].PList? then
        match VectorsOf(xs)
        case Err(m) => Err(m)
        case Ok(vs) => Ok(PList(vs))
      else Ok(v)
  }

  /** A rectangle survives the save: it is written as four whole numbers
      and read back as the same rectangle. */
  lemma RectRoundTrip(rc: Rect)
    ensures DecodeValue(EncodeValue(PRect(rc)).value) == Ok(PRect(rc))
  {
    var xs := EncodeValue(PRect(rc)).value.items;
    assert AllNumbers(xs);
    TruncOfWhole(rc.x); TruncOfWhole(rc.y); TruncOfWhole(rc.w); TruncOfWhole(rc.h);
  }

  /** A vector survives the save. */
  lemma VectorRoundTrip(u: Vec)
    ensures DecodeValue(EncodeValue(PVector(u)).value) == Ok(PVector(u))
  {
    assert AllNumbers(VecPair(u).items);
  }

  /** A list of at least one vector survives the save. */
  lemma VectorListRoundTrip(xs: seq<PyValue>)
    requires 0 < |xs| && AllVectors(xs)
    ensures DecodeValue(EncodeValue(PList(xs)).value) == Ok(PList(xs))
  {
    var ys := EncodeValue(PList(xs)).value.items;
    assert |ys| == |xs| && ys[0].PList?;
    assert forall i :: 0 <= i < |ys| ==> ys[i] == VecPair(xs[i].v);
    forall i | 0 <= i < |ys| ensures VectorOf(ys[i]) == Ok(xs[i].v) {
      assert AllNumbers(ys[i].items);
    }
    if |xs| == 1 {
      assert !AllNumbers(ys);
    } else if |xs| == 2 || |xs| == 4 {
      assert !IsNumber(ys[0]);
    } else if |xs| == 3 {
      assert !IsWholeNumber(ys[0]);
    }
    VectorsRebuilt(ys, xs);
  }

  lemma {:induction false} VectorsRebuilt(ys: seq<PyValue>, xs: seq<PyValue>)
    requires |ys| == |xs| && AllVectors(xs)
    requires forall i :: 0 <= i < |ys| ==> VectorOf(ys[i]) == Ok(xs[i].v)
    ensures VectorsOf(ys) == Ok(xs)
  {
    if |ys| > 0 {
      var n := |ys| - 1;
      assert forall i :: 0 <= i < n ==> ys[..n][i] == ys[i] && xs[..n][i] == xs[i];
      VectorsRebuilt(ys[..n], xs[..n]);
      assert xs == xs[..n] + [PVector(xs[n].v)];
    }
  }

  /** A colour with an alpha channel does not survive the save: its four
      whole numbers are read back as a rectangle. */
  lemma ColorReadsBackAsRect(c: Color)
    ensures DecodeValue(EncodeValue(PColor(c)).value) == Ok(PRect(Rect(c.r, c.g, c.b, c.a)))
  {
    var xs := EncodeValue(PColor(c)).value.items;
    assert AllNumbers(xs);
    TruncOfWhole(c.r); TruncOfWhole(c.g); TruncOfWhole(c.b); TruncOfWhole(c.a);
  }

  /** Three whole numbers in byte range are read as an opaque colour, and
      out of range they are refused. */
  lemma ThreeBytesAreAColor(r: int, g: int, b: int)
    ensures var d := DecodeValue(PList([PInt(r), PInt(g), PInt(b)]));
            (0 <= r <= 255 && 0 <= g <= 255 && 0 <= b <= 255 ==> d == Ok(PColor(Color(r, g, b, 255))))
            && (!(0 <= r <= 255 && 0 <= g <= 255 && 0 <= b <= 255) ==> d.Err?)
  {
    var xs := [PInt(r), PInt(g), PInt(b)];
    assert AllWhole(xs);
    assert !AllNumbers(xs) || |xs| != 4;
  }

  /** `from_dict`'s pass over a record: every value is decoded, and one
      refused value refuses the whole record. */
  function DecodeRecord(d: Record): (r: Result<Record>)
    ensures r.Ok? <==> forall k :: k in d ==> DecodeValue(d[k]).Ok?
    ensures r.Ok? ==> r.value.Keys == d.Keys && forall k :: k in d ==> r.value[k] == DecodeValue(d[k]).value
  {
    if forall k :: k in d ==> DecodeValue(d[k]).Ok? then Ok(map k | k in d :: DecodeValue(d[k]).value)
    else Err("unreadable value")
  }

  // ---- Bullet ----

  /** A bullet's attributes, in the order its constructor sets them. */
  function BulletFields(b: Bullet): seq<Field>
  {
    [Field("pos", PVector(b.pos)), Field("dmg", PFloat(b.dmg)), Field("speed", PInt(b.speed)),
     Field("radius", PInt(b.radius)), Field("vel", PVector(b.vel))]
  }

  /** The record a bullet saves to. */
  function BulletRecord(b: Bullet): Record
  {
    map["pos" := VecPair(b.pos), "dmg" := PFloat(b.dmg), "speed" := PInt(b.speed),
        "radius" := PInt(b.radius), "vel" := VecPair(b.vel)]
  }

  /** `Bullet.to_dict` is the generic one and gives `BulletRecord`. */
  lemma BulletToDict(b: Bullet)
    ensures ToDict(BulletFields(b)) == Ok(BulletRecord(b))
  {
    var fs := BulletFields(b);
    assert ToDict(fs[..0]) == Ok(map[]);
    assert fs[..1][..0] == fs[..0];
    assert ToDict(fs[..1]) == Ok(map["pos" := VecPair(b.pos)]);
    assert fs[..2][..1] == fs[..1];
    assert ToDict(fs[..2]) == Ok(map["pos" := VecPair(b.pos), "dmg" := PFloat(b.dmg)]);
    assert fs[..3][..2] == fs[..2];
    assert ToDict(fs[..3]) == Ok(map["pos" := VecPair(b.pos), "dmg" := PFloat(b.dmg), "speed" := PInt(b.speed)]);
    assert fs[..4][..3] == fs[..3];
    assert ToDict(fs[..4]) == Ok(map["pos" := VecPair(b.pos), "dmg" := PFloat(b.dmg), "speed" := PInt(b.speed),
                                     "radius" := PInt(b.radius)]);
    assert fs[..5] == fs;
  }

  /** Reading a bullet's attributes back from a decoded record. */
  function BulletOf(d: Record): Result<Bullet>
  {
    if && "pos" in d && d["pos"].PVector? && "vel" in d && d["vel"].PVector?
       && "dmg" in d && IsNumber(d["dmg"])
       && "speed" in d && IsWholeNumber(d["speed"]) && "radius" in d && IsWholeNumber(d["radius"])
    then Ok(Bullet(d["pos"].v, d["vel"].v, NumberOf(d["dmg"]), WholeOf(d["speed"]), WholeOf(d["radius"])))
    else Err("not a bullet")
  }

  /** `Bullet.from_dict`, the generic one: decode every value, then read
      the attributes. */
  function BulletFromDict(d: Record): (r: Result<Bullet>)
    ensures r.Ok? ==> "pos" in d && "vel" in d && "dmg" in d && IsNumber(d["dmg"])
    ensures r.Ok? ==> r.value.dmg == NumberOf(d["dmg"])
  {
    match DecodeRecord(d)
    case Err(m) => Err(m)
    case Ok(dd) => BulletOf(dd)
  }

  /** A bullet survives the save whole: position, velocity, damage, speed
      and radius. */
  lemma BulletRoundTrip(b: Bullet)
    ensures BulletFromDict(BulletRecord(b)) == Ok(b)
  {
    var d := BulletRecord(b);
    VectorRoundTrip(b.pos);
    VectorRoundTrip(b.vel);
    assert forall k :: k in d ==> DecodeValue(d[k]).Ok?;
    var dd := DecodeRecord(d).value;
    assert dd["pos"] == PVector(b.pos) && dd["vel"] == PVector(b.vel);
    assert dd["dmg"] == PFloat(b.dmg) && dd["speed"] == PInt(b.speed) && dd["radius"] == PInt(b.radius);
  }

  // ---- Enemy ----

  /** The generic `Serializable.to_dict` of an enemy's attributes up to
      its rectangle: stats, health, motion and timer. */
  function EnemyBodyRecord(e: Enemy): Record
  {
    map[
      "max_hp" := PInt(e.stats.maxHp),
      "hp" := PFloat(e.hp),
      "dmg" := PFloat(e.stats.dmg),
      "attk_spd" := PFloat(e.stats.attkSpd),
      "crit_rate" := PFloat(e.stats.critRate),
      "crit_dmg" := PFloat(e.stats.critDmg),
      "spd" := PFloat(e.stats.spd),
      "vel" := VecPair(e.vel),
      "acc" := VecPair(e.acc),
      "max_spd" := PFloat(e.stats.maxSpd),
      "attack_timer" := PFloat(e.attackTimer),
      "rect" := PList([PInt(e.rect.x), PInt(e.rect.y), PInt(e.rect.w), PInt(e.rect.h)])]
  }

  /** The generic `Serializable.to_dict` of all of an enemy's attributes:
      the colour is the `RED` tuple, kept as a tuple, and the bullets are
      written through their own `to_dict`. */
  function GenericEnemyRecord(e: Enemy): Record
  {
    EnemyBodyRecord(e)
      ["color" := PTuple([PInt(255), PInt(0), PInt(0)])]
      ["destroyed" := PBool(e.destroyed)]
      ["behaviour_type" := PStr(e.behaviour)]
      ["bullets" := BulletRecords(e.bullets)]
      ["visible" := PBool(e.visible)]
  }

  /** The record `Enemy.to_dict` returns: the generic one, with `bullets`
      set to the bullets' records and `enemy_type` added. */
  function EnemyRecord(e: Enemy): Record
  {
    GenericEnemyRecord(e)["bullets" := BulletRecords(e.bullets)]["enemy_type" := PStr(e.behaviour)]
  }

  function BulletRecords(bs: seq<Bullet>): (v: PyValue)
    ensures v.PList? && |v.items| == |bs|
    ensures forall i :: 0 <= i < |bs| ==> v.items[i] == PDict(BulletRecord(bs[i]))
  {
    PList(seq(|bs|, i requires 0 <= i < |bs| => PDict(BulletRecord(bs[i]))))
  }

  /** `[Bullet.from_dict(b) for b in data["bullets"]]`. */
  function BulletsFromDicts(xs: seq<PyValue>): (r: Result<seq<Bullet>>)
    ensures r.Ok? ==> |r.value| == |xs|
  {
    if |xs| == 0 then Ok([])
    else
      var last := xs[|xs| - 1];
      match BulletsFromDicts(xs[..|xs| - 1])
      case Err(m) => Err(m)
      case Ok(front) =>
        if !last.PDict? then Err("not a record")
        else
          match BulletFromDict(last.entries)
          case Err(m) => Err(m)
          case Ok(b) => Ok(front + [b])
  }

  lemma BulletsFromDictsSnoc(xs: seq<PyValue>, front: seq<Bullet>, x: PyValue, b: Bullet)
    requires BulletsFromDicts(xs) == Ok(front)
    requires x.PDict? && BulletFromDict(x.entries) == Ok(b)
    ensures BulletsFromDicts(xs + [x]) == Ok(front + [b])
  {
    assert (xs + [x])[..|xs|] == xs;
  }

  /** A list of records each of which reads back as a bullet reads back
      as the list of those bullets, in order. */
  lemma {:induction false} BulletsFromDictsReadsEach(xs: seq<PyValue>, bs: seq<Bullet>)
    requires |xs| == |bs|
    requires forall i :: 0 <= i < |xs| ==> xs[i].PDict? && BulletFromDict(xs[i].entries) == Ok(bs[i])
    ensures BulletsFromDicts(xs) == Ok(bs)
  {
    if |xs| > 0 {
      var n := |xs| - 1;
      BulletsFromDictsReadsEach(xs[..n], bs[..n]);
      BulletsFromDictsSnoc(xs[..n], bs[..n], xs[n], bs[n]);
      assert xs == xs[..n] + [xs[n]];
      assert bs == bs[..n] + [bs[n]];
    }
  }

  /** A list of bullets survives the save whole and in order. */
  lemma BulletsRoundTrip(bs: seq<Bullet>)
    ensures BulletsFromDicts(BulletRecords(bs).items) == Ok(bs)
  {
    var xs := BulletRecords(bs).items;
    forall i | 0 <= i < |xs|
      ensures xs[i].PDict? && BulletFromDict(xs[i].entries) == Ok(bs[i])
    {
      BulletRoundTrip(bs[i]);
    }
    BulletsFromDictsReadsEach(xs, bs);
  }

  /** The bullet list as an attribute: objects with their own `to_dict`. */
  function BulletObjects(bs: seq<Bullet>): PyValue
  {
    PList(seq(|bs|, i requires 0 <= i < |bs| => PObject(BulletFields(bs[i]))))
  }

  /** One more attribute that is saved and encodes extends the record. */
  lemma ToDictSnoc(fs: seq<Field>, f: Field)
    requires ToDict(fs).Ok? && !Skipped(f) && EncodeValue(f.value).Ok?
    ensures ToDict(fs + [f]) == Ok(ToDict(fs).value[f.name := EncodeValue(f.value).value])
  {
    assert (fs + [f])[..|fs|] == fs;
  }

  /** One more object in `[v.to_dict() for v in value]` adds its record. */
  lemma EncodeObjectsSnoc(xs: seq<PyValue>, front: seq<PyValue>, d: Record)
    requires |xs| > 0 && EncodeObjects(xs[..|xs| - 1]) == Ok(PList(front))
    requires xs[|xs| - 1].PObject? && ToDict(xs[|xs| - 1].fields) == Ok(d)
    ensures EncodeObjects(xs) == Ok(PList(front + [PDict(d)]))
  {
  }

  /** The records of a bullet list are those of all but the last bullet,
      then the last one's. */
  lemma BulletRecordsSnoc(bs: seq<Bullet>)
    requires |bs| > 0
    ensures BulletRecords(bs)
         == PList(BulletRecords(bs[..|bs| - 1]).items + [PDict(BulletRecord(bs[|bs| - 1]))])
  {
    var n := |bs| - 1;
    var all := BulletRecords(bs[..n]).items + [PDict(BulletRecord(bs[n]))];
    forall i | 0 <= i < |bs|
      ensures BulletRecords(bs).items[i] == all[i]
    {
      if i < n {
        assert bs[..n][i] == bs[i];
      }
    }
  }

  /** The step of `EncodeBulletObjects`: the last bullet's record joins
      those of the bullets before it. */
  lemma BulletObjectsSnoc(xs: seq<PyValue>, bs: seq<Bullet>)
    requires |xs| == |bs| > 0
    requires EncodeObjects(xs[..|xs| - 1]) == Ok(PList(BulletRecords(bs[..|bs| - 1]).items))
    requires xs[|xs| - 1].PObject? && ToDict(xs[|xs| - 1].fields) == Ok(BulletRecord(bs[|bs| - 1]))
    ensures EncodeObjects(xs) == Ok(BulletRecords(bs))
  {
    BulletRecordsSnoc(bs);
    EncodeObjectsSnoc(xs, BulletRecords(bs[..|bs| - 1]).items, BulletRecord(bs[|bs| - 1]));
  }

  /** `[v.to_dict() for v in value]` over bullets gives their records. */
  lemma {:induction false} EncodeBulletObjects(xs: seq<PyValue>, bs: seq<Bullet>)
    requires |xs| == |bs|
    requires forall i :: 0 <= i < |xs| ==> xs[i] == PObject(BulletFields(bs[i]))
    ensures EncodeObjects(xs) == Ok(BulletRecords(bs))
  {
    if |bs| > 0 {
      var n := |bs| - 1;
      var front := BulletRecords(bs[..n]).items;
      assert EncodeObjects(xs[..n]) == Ok(PList(front)) by {
        EncodeBulletObjects(xs[..n], bs[..n]);
      }
      assert ToDict(xs[n].fields) == Ok(BulletRecord(bs[n])) by {
        BulletToDict(bs[n]);
      }
      BulletObjectsSnoc(xs, bs);
    } else {
      assert BulletRecords(bs) == PList([]);
    }
  }

  /** The generic encoding of the bullet list is already the list of the
      bullets' records, empty or not. */
  lemma EncodeBullets(bs: seq<Bullet>)
    ensures EncodeValue(BulletObjects(bs)) == Ok(BulletRecords(bs))
  {
    if |bs| == 0 {
      assert BulletRecords(bs) == PList([]);
      assert BulletObjects(bs) == PList([]);
      assert |EncodeValue(PList([])).value.items| == 0;
    } else {
      assert BulletObjects(bs).items[0].PObject?;
      EncodeBulletObjects(BulletObjects(bs).items, bs);
    }
  }

  /** The attributes `Enemy.__init__` sets up to the rectangle, in the
      order `__dict__` holds them. */
  function EnemyBodyFields(e: Enemy): seq<Field>
  {
    [Field("max_hp", PInt(e.stats.maxHp))]
    + [Field("hp", PFloat(e.hp))]
    + [Field("dmg", PFloat(e.stats.dmg))]
    + [Field("attk_spd", PFloat(e.stats.attkSpd))]
    + [Field("crit_rate", PFloat(e.stats.critRate))]
    + [Field("crit_dmg", PFloat(e.stats.critDmg))]
    + [Field("spd", PFloat(e.stats.spd))]
    + [Field("vel", PVector(e.vel))]
    + [Field("acc", PVector(e.acc))]
    + [Field("max_spd", PFloat(e.stats.maxSpd))]
    + [Field("attack_timer", PFloat(e.attackTimer))]
    + [Field("rect", PRect(e.rect))]
  }

  /** All the attributes `Enemy.__init__` sets, in order. */
  function EnemyFields(e: Enemy): seq<Field>
  {
    EnemyBodyFields(e)
    + [Field("color", PTuple([PInt(255), PInt(0), PInt(0)]))]
    + [Field("destroyed", PBool(e.destroyed))]
    + [Field("behaviour_type", PStr(e.behaviour))]
    + [Field("bullets", BulletObjects(e.bullets))]
    + [Field("visible", PBool(e.visible))]
  }

  /** The generic `to_dict` over the enemy's hp, damage and crit. */
  lemma ToDictStats(e: Enemy, fs: seq<Field>, m: Record)
    requires ToDict(fs) == Ok(m)
    ensures ToDict(fs
        + [Field("hp", PFloat(e.hp))]
        + [Field("dmg", PFloat(e.stats.dmg))]
        + [Field("attk_spd", PFloat(e.stats.attkSpd))]
        + [Field("crit_rate", PFloat(e.stats.critRate))]
        + [Field("crit_dmg", PFloat(e.stats.critDmg))]
        + [Field("spd", PFloat(e.stats.spd))])
         == Ok(m["hp" := PFloat(e.hp)]
             ["dmg" := PFloat(e.stats.dmg)]
             ["attk_spd" := PFloat(e.stats.attkSpd)]
             ["crit_rate" := PFloat(e.stats.critRate)]
             ["crit_dmg" := PFloat(e.stats.critDmg)]
             ["spd" := PFloat(e.stats.spd)])
  {
    var fs0, m0 := fs, m;
    ToDictSnoc(fs0, Field("hp", PFloat(e.hp)));
    fs0, m0 := fs0 + [Field("hp", PFloat(e.hp))], m0["hp" := PFloat(e.hp)];
    ToDictSnoc(fs0, Field("dmg", PFloat(e.stats.dmg)));
    fs0, m0 := fs0 + [Field("dmg", PFloat(e.stats.dmg))], m0["dmg" := PFloat(e.stats.dmg)];
    ToDictSnoc(fs0, Field("attk_spd", PFloat(e.stats.attkSpd)));
    fs0, m0 := fs0 + [Field("attk_spd", PFloat(e.stats.attkSpd))], m0["attk_spd" := PFloat(e.stats.attkSpd)];
    ToDictSnoc(fs0, Field("crit_rate", PFloat(e.stats.critRate)));
    fs0, m0 := fs0 + [Field("crit_rate", PFloat(e.stats.critRate))], m0["crit_rate" := PFloat(e.stats.critRate)];
    ToDictSnoc(fs0, Field("crit_dmg", PFloat(e.stats.critDmg)));
    fs0, m0 := fs0 + [Field("crit_dmg", PFloat(e.stats.critDmg))], m0["crit_dmg" := PFloat(e.stats.critDmg)];
    ToDictSnoc(fs0, Field("spd", PFloat(e.stats.spd)));
  }

  /** The generic `to_dict` over the enemy's motion, timer and rectangle. */
  lemma ToDictMotion(e: Enemy, fs: seq<Field>, m: Record)
    requires ToDict(fs) == Ok(m)
    ensures ToDict(fs
        + [Field("vel", PVector(e.vel))]
        + [Field("acc", PVector(e.acc))]
        + [Field("max_spd", PFloat(e.stats.maxSpd))]
        + [Field("attack_timer", PFloat(e.attackTimer))]
        + [Field("rect", PRect(e.rect))])
         == Ok(m["vel" := VecPair(e.vel)]
             ["acc" := VecPair(e.acc)]
             ["max_spd" := PFloat(e.stats.maxSpd)]
             ["attack_timer" := PFloat(e.attackTimer)]
             ["rect" := PList([PInt(e.rect.x), PInt(e.rect.y), PInt(e.rect.w), PInt(e.rect.h)])])
  {
    var fs0, m0 := fs, m;
    ToDictSnoc(fs0, Field("vel", PVector(e.vel)));
    fs0, m0 := fs0 + [Field("vel", PVector(e.vel))], m0["vel" := VecPair(e.vel)];
    ToDictSnoc(fs0, Field("acc", PVector(e.acc)));
    fs0, m0 := fs0 + [Field("acc", PVector(e.acc))], m0["acc" := VecPair(e.acc)];
    ToDictSnoc(fs0, Field("max_spd", PFloat(e.stats.maxSpd)));
    fs0, m0 := fs0 + [Field("max_spd", PFloat(e.stats.maxSpd))], m0["max_spd" := PFloat(e.stats.maxSpd)];
    ToDictSnoc(fs0, Field("attack_timer", PFloat(e.attackTimer)));
    fs0, m0 := fs0 + [Field("attack_timer", PFloat(e.attackTimer))], m0["attack_timer" := PFloat(e.attackTimer)];
    ToDictSnoc(fs0, Field("rect", PRect(e.rect)));
  }

  /** The generic `to_dict` over the enemy's colour, destroyed flag and kind. */
  lemma ToDictState(e: Enemy, fs: seq<Field>, m: Record)
    requires ToDict(fs) == Ok(m)
    ensures ToDict(fs
        + [Field("color", PTuple([PInt(255), PInt(0), PInt(0)]))]
        + [Field("destroyed", PBool(e.destroyed))]
        + [Field("behaviour_type", PStr(e.behaviour))])
         == Ok(m["color" := PTuple([PInt(255), PInt(0), PInt(0)])]
             ["destroyed" := PBool(e.destroyed)]
             ["behaviour_type" := PStr(e.behaviour)])
  {
    assert !AllVectors([PInt(255), PInt(0), PInt(0)]) by {
      assert [PInt(255), PInt(0), PInt(0)][0].PInt?;
    }
    ToDictSnoc(fs, Field("color", PTuple([PInt(255), PInt(0), PInt(0)])));
    var fs0 := fs + [Field("color", PTuple([PInt(255), PInt(0), PInt(0)]))];
    ToDictSnoc(fs0, Field("destroyed", PBool(e.destroyed)));
    ToDictSnoc(fs0 + [Field("destroyed", PBool(e.destroyed))], Field("behaviour_type", PStr(e.behaviour)));
  }

  /** The generic `to_dict` over the enemy's bullets and visibility flag. */
  lemma ToDictBullets(e: Enemy, fs: seq<Field>, m: Record)
    requires ToDict(fs) == Ok(m)
    ensures ToDict(fs + [Field("bullets", BulletObjects(e.bullets))] + [Field("visible", PBool(e.visible))])
         == Ok(m["bullets" := BulletRecords(e.bullets)]["visible" := PBool(e.visible)])
  {
    EncodeBullets(e.bullets);
    ToDictSnoc(fs, Field("bullets", BulletObjects(e.bullets)));
    ToDictSnoc(fs + [Field("bullets", BulletObjects(e.bullets))], Field("visible", PBool(e.visible)));
  }

  /** The generic `to_dict` over the attributes up to the rectangle. */
  lemma BodyToDict(e: Enemy)
    ensures ToDict(EnemyBodyFields(e)) == Ok(EnemyBodyRecord(e))
  {
    var fs0: seq<Field>, m0: Record := [Field("max_hp", PInt(e.stats.maxHp))], map["max_hp" := PInt(e.stats.maxHp)];
    assert ToDict(fs0) == Ok(m0) by {
      assert ToDict([]) == Ok(map[]);
      ToDictSnoc([], Field("max_hp", PInt(e.stats.maxHp)));
      assert [] + fs0 == fs0;
    }
    ToDictStats(e, fs0, m0);
    ToDictMotion(e, fs0
        + [Field("hp", PFloat(e.hp))]
        + [Field("dmg", PFloat(e.stats.dmg))]
        + [Field("attk_spd", PFloat(e.stats.attkSpd))]
        + [Field("crit_rate", PFloat(e.stats.critRate))]
        + [Field("crit_dmg", PFloat(e.stats.critDmg))]
        + [Field("spd", PFloat(e.stats.spd))],
      m0
        ["hp" := PFloat(e.hp)]
        ["dmg" := PFloat(e.stats.dmg)]
        ["attk_spd" := PFloat(e.stats.attkSpd)]
        ["crit_rate" := PFloat(e.stats.critRate)]
        ["crit_dmg" := PFloat(e.stats.critDmg)]
        ["spd" := PFloat(e.stats.spd)]);
  }

  /** The generic `to_dict` of every attribute of an enemy. */
  lemma EnemyToDict(e: Enemy)
    ensures ToDict(EnemyFields(e)) == Ok(GenericEnemyRecord(e))
  {
    BodyToDict(e);
    ToDictState(e, EnemyBodyFields(e), EnemyBodyRecord(e));
    ToDictBullets(e, EnemyBodyFields(e)
        + [Field("color", PTuple([PInt(255), PInt(0), PInt(0)]))]
        + [Field("destroyed", PBool(e.destroyed))]
        + [Field("behaviour_type", PStr(e.behaviour))],
      EnemyBodyRecord(e)
        ["color" := PTuple([PInt(255), PInt(0), PInt(0)])]
        ["destroyed" := PBool(e.destroyed)]
        ["behaviour_type" := PStr(e.behaviour)]);
  }
  /** The generic record already holds the bullets' records, so the
      override of `bullets` in `Enemy.to_dict` changes nothing and the
      saved record is the generic one plus `enemy_type`. */
  lemma EnemyRecordIsGeneric(e: Enemy)
    ensures EnemyRecord(e) == GenericEnemyRecord(e)["enemy_type" := PStr(e.behaviour)]
  {
    var g := GenericEnemyRecord(e);
    assert g["bullets"] == BulletRecords(e.bullets);
    assert g["bullets" := BulletRecords(e.bullets)] == g;
  }





  /** `Enemy.from_dict` as the source writes it: a brand-new enemy at the
      saved top-left corner, of the saved kind, given the saved bullets.
      Health, stats, motion, timer and flags are not read. */
  function EnemyFromDict(d: Record): (r: Result<Enemy>)
    ensures r.Ok? ==> "rect" in d && "enemy_type" in d && "bullets" in d
    ensures r.Ok? ==> r.value.hp == 100.0 && r.value.stats == BaseStats && !r.value.destroyed && !r.value.visible
  {
    if && "rect" in d && d["rect"].PList? && |d["rect"].items| >= 2
       && IsNumber(d["rect"].items[0]) && IsNumber(d["rect"].items[1])
       && "enemy_type" in d && d["enemy_type"].PStr?
       && "bullets" in d && d["bullets"].PList?
    then
      var x := Trunc(NumberOf(d["rect"].items[0]));
      var y := Trunc(NumberOf(d["rect"].items[1]));
      match BulletsFromDicts(d["bullets"].items)
      case Err(m) => Err(m)
      case Ok(bs) => Ok(NewEnemy(x, y, d["enemy_type"].s).(bullets := bs))
    else Err("not an enemy record")
  }

  /** What the source's round trip keeps: position, kind and bullets, on an
      otherwise fresh enemy. */
  lemma EnemyRoundTripAsWritten(e: Enemy)
    ensures EnemyFromDict(EnemyRecord(e)) == Ok(NewEnemy(e.rect.x, e.rect.y, e.behaviour).(bullets := e.bullets))
  {
    var d := EnemyRecord(e);
    assert d["rect"].items[0] == PInt(e.rect.x) && d["rect"].items[1] == PInt(e.rect.y);
    assert d["enemy_type"] == PStr(e.behaviour);
    assert d["bullets"] == BulletRecords(e.bullets);
    TruncOfWhole(e.rect.x);
    TruncOfWhole(e.rect.y);
    BulletsRoundTrip(e.bullets);
  }

  /** Counterexample: a wounded enemy comes back from a save at full base
      health, so its health is not kept. */
  lemma EnemyRoundTripLosesHealth(e: Enemy)
    requires e.hp == 40.0
    ensures EnemyFromDict(EnemyRecord(e)).Ok?
    ensures EnemyFromDict(EnemyRecord(e)).value.hp == 100.0 != e.hp
  {
    EnemyRoundTripAsWritten(e);
  }

  /** The scaled stats of a saved enemy. */
  function StatsOf(d: Record): Option<Stats>
  {
    if && "max_hp" in d && IsWholeNumber(d["max_hp"])
       && "dmg" in d && IsNumber(d["dmg"])
       && "attk_spd" in d && IsNumber(d["attk_spd"])
       && "crit_rate" in d && IsNumber(d["crit_rate"])
       && "crit_dmg" in d && IsNumber(d["crit_dmg"])
       && "spd" in d && IsNumber(d["spd"])
       && "max_spd" in d && IsNumber(d["max_spd"])
    then Some(Stats(WholeOf(d["max_hp"]), NumberOf(d["dmg"]), NumberOf(d["attk_spd"]),
                    NumberOf(d["crit_rate"]), NumberOf(d["crit_dmg"]), NumberOf(d["spd"]), NumberOf(d["max_spd"])))
    else None
  }

  /** Position, velocity and acceleration of a saved enemy, decoded. */
  function MotionOf(d: Record): Option<(Rect, Vec, Vec)>
  {
    if && "rect" in d && DecodeValue(d["rect"]).Ok? && DecodeValue(d["rect"]).value.PRect?
       && "vel" in d && DecodeValue(d["vel"]).Ok? && DecodeValue(d["vel"]).value.PVector?
       && "acc" in d && DecodeValue(d["acc"]).Ok? && DecodeValue(d["acc"]).value.PVector?
    then Some((DecodeValue(d["rect"]).value.rect, DecodeValue(d["vel"]).value.v, DecodeValue(d["acc"]).value.v))
    else None
  }

  /** Health, attack timer, flags and kind of a saved enemy. */
  function StateOf(d: Record): Option<(real, real, bool, bool, string)>
  {
    if && "hp" in d && IsNumber(d["hp"])
       && "attack_timer" in d && IsNumber(d["attack_timer"])
       && "destroyed" in d && d["destroyed"].PBool?
       && "visible" in d && d["visible"].PBool?
       && "enemy_type" in d && d["enemy_type"].PStr?
    then Some((NumberOf(d["hp"]), NumberOf(d["attack_timer"]), d["destroyed"].b, d["visible"].b, d["enemy_type"].s))
    else None
  }

  /** `Enemy.from_dict` reading every saved attribute back. */
  function EnemyFromRecord(d: Record): (r: Result<Enemy>)
    ensures r.Ok? ==> "hp" in d && IsNumber(d["hp"]) && r.value.hp == NumberOf(d["hp"])
    ensures r.Ok? ==> "enemy_type" in d && d["enemy_type"] == PStr(r.value.behaviour)
  {
    match (StatsOf(d), MotionOf(d), StateOf(d))
    case (Some(stats), Some(m), Some(st)) =>
      if "bullets" in d && d["bullets"].PList? then
        match BulletsFromDicts(d["bullets"].items)
        case Err(msg) => Err(msg)
        case Ok(bs) => Ok(Enemy(stats, st.0, m.1, m.2, st.1, m.0, st.2, st.4, bs, st.3))
      else Err("not an enemy record")
    case _ => Err("not an enemy record")
  }

  lemma StatsRoundTrip(e: Enemy)
    ensures StatsOf(EnemyRecord(e)) == Some(e.stats)
  {
    EnemyRecordAttack(e);
    EnemyRecordSpeed(e);
  }

  /** Looking up the stats in an enemy's record, a few at a time. */
  lemma EnemyRecordAttack(e: Enemy)
    ensures var d := EnemyRecord(e);
            && d["max_hp"] == PInt(e.stats.maxHp) && d["dmg"] == PFloat(e.stats.dmg)
            && d["attk_spd"] == PFloat(e.stats.attkSpd) && d["crit_rate"] == PFloat(e.stats.critRate)
  {
  }

  lemma EnemyRecordSpeed(e: Enemy)
    ensures var d := EnemyRecord(e);
            && d["crit_dmg"] == PFloat(e.stats.critDmg) && d["spd"] == PFloat(e.stats.spd)
            && d["max_spd"] == PFloat(e.stats.maxSpd)
  {
  }

  lemma MotionRoundTrip(e: Enemy)
    ensures MotionOf(EnemyRecord(e)) == Some((e.rect, e.vel, e.acc))
  {
    var d := EnemyRecord(e);
    assert d["vel"] == EncodeValue(PVector(e.vel)).value && d["acc"] == EncodeValue(PVector(e.acc)).value;
    assert d["rect"] == EncodeValue(PRect(e.rect)).value;
    RectRoundTrip(e.rect);
    VectorRoundTrip(e.vel);
    VectorRoundTrip(e.acc);
  }

  lemma StateRoundTrip(e: Enemy)
    ensures StateOf(EnemyRecord(e)) == Some((e.hp, e.attackTimer, e.destroyed, e.visible, e.behaviour))
  {
    var d := EnemyRecord(e);
    assert d["hp"] == PFloat(e.hp) && d["attack_timer"] == PFloat(e.attackTimer);
    assert d["destroyed"] == PBool(e.destroyed) && d["visible"] == PBool(e.visible);
    assert d["enemy_type"] == PStr(e.behaviour);
  }

  /** The corrected round trip: an enemy survives the save whole. */
  lemma EnemyRoundTrip(e: Enemy)
    ensures EnemyFromRecord(EnemyRecord(e)) == Ok(e)
  {
    StatsRoundTrip(e);
    MotionRoundTrip(e);
    StateRoundTrip(e);
    assert EnemyRecord(e)["bullets"] == BulletRecords(e.bullets);
    BulletsRoundTrip(e.bullets);
  }

  // ---- Save file ----

  /** `load_save_data` after decryption and parsing: no file, or a file
      that does not decode, gives `None`; a save without `player` is
      refused; otherwise `bullets` defaults to an empty list and every
      other key is kept as it is. */
  function LoadSaveData(decoded: Option<PyValue>): (r: Option<Record>)
    ensures r.Some? <==> decoded.Some? && decoded.value.PDict? && "player" in decoded.value.entries
    ensures r.Some? ==> var d := decoded.value.entries;
              && r.value.Keys == d.Keys + {"bullets"}
              && (forall k :: k in d ==> r.value[k] == d[k])
              && ("bullets" !in d ==> r.value["bullets"] == PList([]))
  {
    match decoded
    case None => None
    case Some(v) =>
      if !v.PDict? || "player" !in v.entries then None
      else if "bullets" in v.entries then Some(v.entries)
      else Some(v.entries["bullets" := PList([])])
  }

  /** Loading is idempotent: a loaded save loads to itself. */
  lemma LoadSaveDataIdempotent(decoded: Option<PyValue>)
    requires LoadSaveData(decoded).Some?
    ensures LoadSaveData(Some(PDict(LoadSaveData(decoded).value))) == LoadSaveData(decoded)
  {
  }

  /** The record `save_game_data` writes. */
  function SaveRecord(player: Record, spawners: Record, items: Record): Record
  {
    map["player" := PDict(player), "spawners" := PDict(spawners), "items" := PDict(items)]
  }

  /** Whatever `save_game_data` writes is accepted by `load_save_data`,
      with an empty `bullets` added and the three parts intact. */
  lemma SavedGameLoads(player: Record, spawners: Record, items: Record)
    ensures var r := LoadSaveData(Some(PDict(SaveRecord(player, spawners, items))));
            && r.Some?
            && r.value["player"] == PDict(player) && r.value["spawners"] == PDict(spawners)
            && r.value["items"] == PDict(items) && r.value["bullets"] == PList([])
  {
    var d := SaveRecord(player, spawners, items);
    assert "bullets" !in d;
  }
}
