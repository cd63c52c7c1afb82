/** The clock plugin's state engine: the registry of named clocks, the clear
    and redraw of one clock face in the world, and the repeating task that
    redraws every registered clock. */
module Clocks {
  import opened Geometry
  import opened Host

  /** A registered clock: its name, the world it stands in, its anchor block,
      the two hand materials, the face radius and its facing in quarter turns
      about the vertical axis. */
  datatype ClockData = ClockData(
    name: string,
    world: string,
    x: int, y: int, z: int,
    hourHandMaterial: Material,
    minuteHandMaterial: Material,
    radius: int,
    angle: int)

  /** The `position` getter. */
  function Position(c: ClockData): Vec
  {
    Vec(c.x, c.y, c.z)
  }

  /** The anchor's voxel, whose chunk decides whether the clock is drawn. */
  function Anchor(c: ClockData): Block
  {
    var p := Position(c);
    Block(c.world, p.x, p.y, p.z)
  }

  predicate AnchorLoaded(loaded: set<Chunk>, c: ClockData)
  {
    ChunkOf(Anchor(c)) in loaded
  }

  // ---------------------------------------------------------------------------
  // Placement in the world
  // ---------------------------------------------------------------------------

  /** Rotation by a number of quarter turns about the vertical axis, then the
      move to the anchor, then rounding down to a block: given the facing, a
      point of the face's frame and the anchor, the block coordinates. The
      host computes it in floating point, and since the rounding comes after
      the move, its result may depend on the anchor; the model takes it as
      given. */
  type Placement = (int, Vec, Vec) -> Vec

  /** At any facing and anchor, distinct points of the face's frame land on
      distinct blocks. */
  ghost predicate Injective(rotate: Placement)
  {
    forall a, u, v, o :: rotate(a, u, o) == rotate(a, v, o) ==> u == v
  }

  /** The placement the host approximates: an exact quarter turn, then the
      move to the anchor. */
  function ExactTurn(): Placement
  {
    (a: int, v: Vec, o: Vec) => var q := QuarterTurn(v, a); Vec(q.x + o.x, q.y + o.y, q.z + o.z)
  }

  lemma ExactTurnInjective()
    ensures Injective(ExactTurn())
  {
    forall a, u, v, o | ExactTurn()(a, u, o) == ExactTurn()(a, v, o)
      ensures u == v
    {
      QuarterTurnInjective(u, v, a);
    }
  }

  /** A point of the face moved `depth` blocks along the face's normal. */
  function Lift(v: Vec, depth: int): Vec
  {
    Vec(v.x, v.y, v.z + depth)
  }

  /** The block a point of the face at the given depth lands on: rotated by
      the clock's facing, then moved to the clock's position. */
  function Place(rotate: Placement, c: ClockData, v: Vec, depth: int): Block
  {
    var p := rotate(c.angle, Lift(v, depth), Position(c));
    Block(c.world, p.x, p.y, p.z)
  }

  function PointsOf(s: seq<Vec>): set<Vec>
  {
    set v | v in s
  }

  function PlaceAll(rotate: Placement, c: ClockData, s: set<Vec>, depth: int): set<Block>
  {
    set v | v in s :: Place(rotate, c, v, depth)
  }

  lemma PlaceAllAppend(rotate: Placement, c: ClockData, points: seq<Vec>, i: nat, depth: int)
    requires i < |points|
    ensures PlaceAll(rotate, c, PointsOf(points[..i + 1]), depth) ==
      PlaceAll(rotate, c, PointsOf(points[..i]), depth) + {Place(rotate, c, points[i], depth)}
  {
    assert points[..i + 1] == points[..i] + [points[i]];
    assert PointsOf(points[..i + 1]) == PointsOf(points[..i]) + {points[i]};
  }

  /** Points on the face plane at different depths never share a block. */
  lemma DepthsApart(rotate: Placement, c: ClockData, u: Vec, v: Vec)
    requires Injective(rotate) && u.z == 0 && v.z == 0
    ensures Place(rotate, c, u, 0) != Place(rotate, c, v, -1)
  {
    if Place(rotate, c, u, 0) == Place(rotate, c, v, -1) {
      assert false;
    }
  }

  // ---------------------------------------------------------------------------
  // Sizes
  // ---------------------------------------------------------------------------

  /** `(radius * 0.8).roundToInt()`: the nearest integer to 0.8 r, a tie
      rounded up. */
  function Inset(r: int): (i: int)
    ensures 8 * r - 5 < 10 * i <= 8 * r + 5
  {
    (8 * r + 5) / 10
  }

  /** `(radius * 0.75).roundToInt()`: the nearest integer to 0.75 r, a tie
      rounded up. */
  function HourLength(r: int): (h: int)
    ensures 3 * r - 2 < 4 * h <= 3 * r + 2
  {
    (3 * r + 2) / 4
  }

  /** The short hand never reaches past the inner disk, which never reaches
      past the face; both are negative exactly when the radius is. */
  lemma HandLengths(r: int)
    ensures r >= 0 ==> 0 <= HourLength(r) <= Inset(r) <= r
    ensures r < 0 ==> HourLength(r) < 0 && Inset(r) < 0
  {
  }

  /** The rounded hand tips `floor(cos(a) * len)`, `floor(sin(a) * len)`,
      computed by the host from the world's time. */
  datatype HandTips = HandTips(minuteX: int, minuteY: int, hourX: int, hourY: int)

  /** What the real tips satisfy for a face of radius r >= 0: each coordinate
      is within the hand length, and the tip is less than len + 1.5 from the
      centre (its distance is at most len + sqrt 2). */
  predicate TipsFit(c: ClockData, t: HandTips)
  {
    InDisk(t.minuteX, t.minuteY, c.radius) && InDisk(t.hourX, t.hourY, HourLength(c.radius))
  }

  // ---------------------------------------------------------------------------
  // What one clock covers
  // ---------------------------------------------------------------------------

  /** The voxels clearClock sets to AIR: the radius-r disk at depth 0 and the
      disk of radius round(0.8 r) one block behind it. */
  function ClearTargets(rotate: Placement, c: ClockData): set<Block>
  {
    PlaceAll(rotate, c, Disk(0, 0, 0, c.radius), 0) + PlaceAll(rotate, c, Disk(0, 0, 0, Inset(c.radius)), -1)
  }

  /** The long hand: a line of length r at depth 0. */
  function MinuteHand(rotate: Placement, c: ClockData, t: HandTips): set<Block>
  {
    PlaceAll(rotate, c, PointsOf(Line(0, 0, 0, t.minuteX, t.minuteY)), 0)
  }

  /** The short hand: a line of length round(0.75 r) one block behind. */
  function HourHand(rotate: Placement, c: ClockData, t: HandTips): set<Block>
  {
    PlaceAll(rotate, c, PointsOf(Line(0, 0, 0, t.hourX, t.hourY)), -1)
  }

  function Footprint(rotate: Placement, c: ClockData, t: HandTips): set<Block>
  {
    ClearTargets(rotate, c) + MinuteHand(rotate, c, t) + HourHand(rotate, c, t)
  }

  // ---------------------------------------------------------------------------
  // Effects on the world
  // ---------------------------------------------------------------------------

  /** clearClock on a world: nothing if the anchor's chunk is not loaded,
      otherwise every target becomes AIR. */
  function ClearEffect(w: World, loaded: set<Chunk>, rotate: Placement, c: ClockData): World
  {
    if !AnchorLoaded(loaded, c) then w else w - ClearTargets(rotate, c)
  }

  /** updateClock on a world: nothing if the anchor's chunk is not loaded,
      otherwise a clear followed by the long hand in the hour-hand material
      and then the short hand in the minute-hand material, as the source
      assigns them. */
  function UpdateEffect(w: World, loaded: set<Chunk>, rotate: Placement, c: ClockData, t: HandTips): World
  {
    if !AnchorLoaded(loaded, c) then w
    else
      var cleared := ClearEffect(w, loaded, rotate, c);
      PaintedAll(PaintedAll(cleared, MinuteHand(rotate, c, t), c.hourHandMaterial),
                 HourHand(rotate, c, t), c.minuteHandMaterial)
  }

  /** One run of the repeating task over the clocks in registry order. */
  function TickEffect(w: World, loaded: set<Chunk>, rotate: Placement, cs: seq<ClockData>,
                      tips: ClockData -> HandTips): World
  {
    if cs == [] then w
    else
      var last := cs[|cs| - 1];
      UpdateEffect(TickEffect(w, loaded, rotate, cs[..|cs| - 1], tips), loaded, rotate, last, tips(last))
  }

  /** After a clear every target of a loaded clock reads AIR and every other
      voxel keeps its material. */
  lemma ClearReads(w: World, loaded: set<Chunk>, rotate: Placement, c: ClockData, b: Block)
    requires AirFree(w)
    ensures AirFree(ClearEffect(w, loaded, rotate, c))
    ensures TypeAt(ClearEffect(w, loaded, rotate, c), b) ==
      if AnchorLoaded(loaded, c) && b in ClearTargets(rotate, c) then AIR else TypeAt(w, b)
  {
  }

  /** Clearing twice is clearing once. */
  lemma ClearIdempotent(w: World, loaded: set<Chunk>, rotate: Placement, c: ClockData)
    ensures ClearEffect(ClearEffect(w, loaded, rotate, c), loaded, rotate, c) == ClearEffect(w, loaded, rotate, c)
  {
  }

  /** Both hands of a face with r >= 0 lie in the voxels the clear covers. */
  lemma {:induction false} HandsInsideTargets(rotate: Placement, c: ClockData, t: HandTips)
    requires c.radius >= 0 && TipsFit(c, t)
    ensures MinuteHand(rotate, c, t) <= ClearTargets(rotate, c)
    ensures HourHand(rotate, c, t) <= ClearTargets(rotate, c)
  {
    HandLengths(c.radius);
    HandInsideDisk(t.minuteX, t.minuteY, 0, c.radius, c.radius);
    HandInsideDisk(t.hourX, t.hourY, 0, HourLength(c.radius), Inset(c.radius));
  }

  /** No stale voxels: clearing after a redraw leaves exactly what clearing
      without the redraw leaves, so the hands of the previous tick never
      survive the next clear. */
  lemma {:induction false} ClearAfterUpdate(w: World, loaded: set<Chunk>, rotate: Placement, c: ClockData, t: HandTips)
    requires c.radius >= 0 && TipsFit(c, t)
    ensures ClearEffect(UpdateEffect(w, loaded, rotate, c, t), loaded, rotate, c) == ClearEffect(w, loaded, rotate, c)
  {
    if AnchorLoaded(loaded, c) {
      HandsInsideTargets(rotate, c, t);
      var targets := ClearTargets(rotate, c);
      var u := UpdateEffect(w, loaded, rotate, c, t);
      assert forall b :: b in u && b !in targets ==> b in w && u[b] == w[b];
      assert (u - targets).Keys == (w - targets).Keys;
    }
  }

  /** Redrawing at the same time of day changes nothing. */
  lemma {:induction false} UpdateIdempotent(w: World, loaded: set<Chunk>, rotate: Placement, c: ClockData, t: HandTips)
    requires c.radius >= 0 && TipsFit(c, t)
    ensures UpdateEffect(UpdateEffect(w, loaded, rotate, c, t), loaded, rotate, c, t) == UpdateEffect(w, loaded, rotate, c, t)
  {
    ClearAfterUpdate(w, loaded, rotate, c, t);
  }

  /** After a redraw of a loaded clock the long hand holds the hour-hand
      material, the short hand the minute-hand material, the rest of the
      cleared voxels AIR, and every voxel outside the clock's footprint is
      as before. */
  lemma {:induction false} UpdateReads(w: World, loaded: set<Chunk>, rotate: Placement, c: ClockData, t: HandTips, b: Block)
    requires Injective(rotate) && AirFree(w) && AnchorLoaded(loaded, c)
    ensures AirFree(UpdateEffect(w, loaded, rotate, c, t))
    ensures TypeAt(UpdateEffect(w, loaded, rotate, c, t), b) ==
      if b in MinuteHand(rotate, c, t) then c.hourHandMaterial
      else if b in HourHand(rotate, c, t) then c.minuteHandMaterial
      else if b in ClearTargets(rotate, c) then AIR
      else TypeAt(w, b)
  {
    var minute := MinuteHand(rotate, c, t);
    var hour := HourHand(rotate, c, t);
    var cleared := ClearEffect(w, loaded, rotate, c);
    var painted := PaintedAll(cleared, minute, c.hourHandMaterial);
    ClearReads(w, loaded, rotate, c, b);
    PaintedAllReads(cleared, minute, c.hourHandMaterial, b);
    PaintedAllReads(painted, hour, c.minuteHandMaterial, b);
    if b in minute && b in hour {
      var u :| u in Line(0, 0, 0, t.minuteX, t.minuteY) && b == Place(rotate, c, u, 0);
      var v :| v in Line(0, 0, 0, t.hourX, t.hourY) && b == Place(rotate, c, v, -1);
      LineInBox(0, 0, 0, t.minuteX, t.minuteY);
      LineInBox(0, 0, 0, t.hourX, t.hourY);
      DepthsApart(rotate, c, u, v);
      assert false;
    }
  }

  /** A clock with a negative radius clears nothing, yet its redraw still
      paints the centre of the long hand, and no later clear removes it. */
  lemma {:induction false} NegativeRadiusStrandsHands(w: World, loaded: set<Chunk>, rotate: Placement, c: ClockData, t: HandTips)
    requires c.radius < 0 && Injective(rotate) && AirFree(w) && AnchorLoaded(loaded, c)
    ensures ClearTargets(rotate, c) == {}
    ensures ClearEffect(UpdateEffect(w, loaded, rotate, c, t), loaded, rotate, c) == UpdateEffect(w, loaded, rotate, c, t)
    ensures TypeAt(UpdateEffect(w, loaded, rotate, c, t), Place(rotate, c, Vec(0, 0, 0), 0)) == c.hourHandMaterial
  {
    HandLengths(c.radius);
    DiskEmptyIffNegative(0, 0, 0, c.radius);
    DiskEmptyIffNegative(0, 0, 0, Inset(c.radius));
    LineEnds(0, 0, 0, t.minuteX, t.minuteY);
    var centre := Place(rotate, c, Vec(0, 0, 0), 0);
    assert centre in MinuteHand(rotate, c, t);
    UpdateReads(w, loaded, rotate, c, t, centre);
  }

  /** The repeating task touches only the footprints of the clocks whose
      anchor chunk is loaded. */
  lemma {:induction false} TickFrame(w: World, loaded: set<Chunk>, rotate: Placement, cs: seq<ClockData>,
                                     tips: ClockData -> HandTips, b: Block)
    requires forall c :: c in cs && AnchorLoaded(loaded, c) ==> b !in Footprint(rotate, c, tips(c))
    ensures TypeAt(TickEffect(w, loaded, rotate, cs, tips), b) == TypeAt(w, b)
    decreases |cs|
  {
    if cs != [] {
      var last := cs[|cs| - 1];
      var before := TickEffect(w, loaded, rotate, cs[..|cs| - 1], tips);
      TickFrame(w, loaded, rotate, cs[..|cs| - 1], tips, b);
      if AnchorLoaded(loaded, last) {
        assert b !in Footprint(rotate, last, tips(last));
        var cleared := ClearEffect(before, loaded, rotate, last);
        var painted := PaintedAll(cleared, MinuteHand(rotate, last, tips(last)), last.hourHandMaterial);
        assert TypeAt(cleared, b) == TypeAt(before, b);
        assert TypeAt(painted, b) == TypeAt(cleared, b);
      }
    }
  }

  // ---------------------------------------------------------------------------
  // Registry order
  // ---------------------------------------------------------------------------

  /** No name occurs twice. */
  predicate Distinct(s: seq<string>)
  {
    forall i, j :: 0 <= i < j < |s| ==> s[i] != s[j]
  }

  /** The key order of the registry's hash map with one key removed. */
  function Without(s: seq<string>, n: string): (r: seq<string>)
    ensures forall m :: m in r <==> m in s && m != n
    ensures n !in s ==> r == s
    ensures Distinct(s) ==> Distinct(r)
  {
    if s == [] then []
    else if s[0] == n then Without(s[1..], n)
    else
      assert Distinct(s) ==> s[0] !in s[1..];
      [s[0]] + Without(s[1..], n)
  }

  /** Re-inserting a removed key puts it last and keeps the keys distinct. */
  lemma MoveToEnd(s: seq<string>, n: string)
    requires Distinct(s)
    ensures Distinct(Without(s, n) + [n])
    ensures forall m :: m in Without(s, n) + [n] <==> m in s || m == n
  {
  }

  /** The clocks in registry order. */
  function InOrder(clocks: map<string, ClockData>, order: seq<string>): seq<ClockData>
    requires forall n :: n in order ==> n in clocks
  {
    seq(|order|, i requires 0 <= i < |order| => clocks[order[i]])
  }

  /** A sequence without repetitions has as many elements as its set. */
  lemma {:induction false} DistinctCount(s: seq<string>)
    requires Distinct(s)
    ensures |set n | n in s| == |s|
  {
    if s != [] {
      var rest := s[1..];
      assert Distinct(rest);
      DistinctCount(rest);
      assert (set n | n in s) == (set n | n in rest) + {s[0]};
      assert s[0] !in rest;
    }
  }

  /** Iterating the registry visits every registered clock exactly once: as
      many visits as clocks, each clock at the position of its name in the
      key order, and no name at two positions. */
  lemma InOrderVisitsEach(clocks: map<string, ClockData>, order: seq<string>)
    requires Distinct(order) && forall n :: n in order <==> n in clocks
    ensures |InOrder(clocks, order)| == |clocks|
    ensures forall n :: n in clocks ==>
      exists i :: 0 <= i < |order| && order[i] == n && InOrder(clocks, order)[i] == clocks[n]
    ensures forall i, j :: 0 <= i < |order| && 0 <= j < |order| && order[i] == order[j] ==> i == j
  {
    DistinctCount(order);
    assert (set n | n in order) == clocks.Keys;
    forall n | n in clocks
      ensures exists i :: 0 <= i < |order| && order[i] == n && InOrder(clocks, order)[i] == clocks[n]
    {
      var i :| 0 <= i < |order| && order[i] == n;
      assert InOrder(clocks, order)[i] == clocks[n];
    }
  }

  // ---------------------------------------------------------------------------
  // The plugin object
  // ---------------------------------------------------------------------------

  class Clockface {
    /** The registry, keyed by clock name. */
    var clocks: map<string, ClockData>
    /** The registry's key order: a LinkedHashMap iterates in insertion order. */
    var order: seq<string>
    /** What clocks.json last received. */
    ghost var saved: map<string, ClockData>
    const server: Server
    const rotate: Placement

    ghost predicate Valid()
      reads this, server
    {
      Distinct(order) && (forall n :: n in order <==> n in clocks) && server.Valid() &&
      forall n :: n in clocks ==> clocks[n].world in server.worlds
    }

    constructor (server: Server, rotate: Placement)
      requires server.Valid()
      ensures Valid()
      ensures clocks == map[] && order == [] && saved == map[]
      ensures this.server == server && this.rotate == rotate
    {
      clocks := map[];
      order := [];
      saved := map[];
      this.server := server;
      this.rotate := rotate;
    }

    /** Sets every target voxel that is not AIR to AIR, one point at a time in
        any order. */
    method ClearPoints(c: ClockData, points: set<Vec>, depth: int)
      requires server.Valid()
      modifies server`blocks, server`writes
      ensures server.Valid()
      ensures server.blocks == old(server.blocks) - PlaceAll(rotate, c, points, depth)
      ensures old(server.writes) <= server.writes
      ensures forall b :: b in server.writes[|old(server.writes)|..] <==>
        b in old(server.blocks) && b in PlaceAll(rotate, c, points, depth)
    {
      var rest := points;
      while rest != {}
        invariant rest <= points && server.Valid()
        invariant server.blocks == old(server.blocks) - PlaceAll(rotate, c, points - rest, depth)
        invariant old(server.writes) <= server.writes
        invariant forall b :: b in server.writes[|old(server.writes)|..] <==>
          b in old(server.blocks) && b in PlaceAll(rotate, c, points - rest, depth)
        decreases |rest|
      {
        var v :| v in rest;
        var b := Place(rotate, c, v, depth);
        ghost var done := PlaceAll(rotate, c, points - rest, depth);
        assert PlaceAll(rotate, c, points - (rest - {v}), depth) == done + {b};
        ghost var before := server.writes;
        if server.TypeOf(b) != AIR {
          server.SetType(b, AIR);
          assert server.writes[|old(server.writes)|..] == before[|old(server.writes)|..] + [b];
        } else {
          assert b !in old(server.blocks) || b in done;
        }
        rest := rest - {v};
      }
    }

    /** clearClock: nothing when the anchor's chunk is not loaded; otherwise
        the targets become AIR, and only the targets that were not AIR are
        written. */
    method ClearClock(c: ClockData)
      requires server.Valid() && c.world in server.worlds
      modifies server`blocks, server`writes
      ensures server.Valid()
      ensures server.blocks == ClearEffect(old(server.blocks), server.loaded, rotate, c)
      ensures old(server.writes) <= server.writes
      ensures forall b :: b in server.writes[|old(server.writes)|..] <==>
        AnchorLoaded(server.loaded, c) && b in old(server.blocks) && b in ClearTargets(rotate, c)
    {
      if !server.IsLoaded(Anchor(c)) {
        return;
      }
      var face := FillCirclePoints(0, 0, 0, c.radius);
      ClearPoints(c, face, 0);
      var inner := FillCirclePoints(0, 0, 0, Inset(c.radius));
      ClearPoints(c, inner, -1);
    }

    /** Sets every voxel of a hand to the material. */
    method PaintPoints(c: ClockData, points: seq<Vec>, depth: int, m: Material)
      requires server.Valid()
      modifies server`blocks, server`writes
      ensures server.Valid()
      ensures server.blocks == PaintedAll(old(server.blocks), PlaceAll(rotate, c, PointsOf(points), depth), m)
      ensures old(server.writes) <= server.writes
      ensures forall b :: b in server.writes[|old(server.writes)|..] <==> b in PlaceAll(rotate, c, PointsOf(points), depth)
    {
      var i := 0;
      while i < |points|
        invariant 0 <= i <= |points| && server.Valid()
        invariant server.blocks == PaintedAll(old(server.blocks), PlaceAll(rotate, c, PointsOf(points[..i]), depth), m)
        invariant old(server.writes) <= server.writes
        invariant forall b :: b in server.writes[|old(server.writes)|..] <==> b in PlaceAll(rotate, c, PointsOf(points[..i]), depth)
      {
        var b := Place(rotate, c, points[i], depth);
        ghost var done := PlaceAll(rotate, c, PointsOf(points[..i]), depth);
        PlaceAllAppend(rotate, c, points, i, depth);
        PaintedAllGrow(old(server.blocks), done, b, m);
        ghost var before := server.writes;
        server.SetType(b, m);
        assert server.writes[|old(server.writes)|..] == before[|old(server.writes)|..] + [b];
        i := i + 1;
      }
      assert points[..i] == points;
    }

    /** updateClock: nothing when the anchor's chunk is not loaded; otherwise
        a clear, then the long hand, then the short hand. */
    method UpdateClock(c: ClockData, t: HandTips)
      requires server.Valid() && c.world in server.worlds
      modifies server`blocks, server`writes
      ensures server.Valid()
      ensures server.blocks == UpdateEffect(old(server.blocks), server.loaded, rotate, c, t)
      ensures old(server.writes) <= server.writes
      ensures forall b :: b in server.writes[|old(server.writes)|..] <==>
        AnchorLoaded(server.loaded, c) &&
        ((b in old(server.blocks) && b in ClearTargets(rotate, c)) || b in MinuteHand(rotate, c, t) || b in HourHand(rotate, c, t))
    {
      if !server.IsLoaded(Anchor(c)) {
        return;
      }
      ClearClock(c);
      var minute := LinePoints(0, 0, 0, t.minuteX, t.minuteY);
      PaintPoints(c, minute, 0, c.hourHandMaterial);
      var hour := LinePoints(0, 0, 0, t.hourX, t.hourY);
      PaintPoints(c, hour, -1, c.minuteHandMaterial);
    }

    /** removeClock: an absent name changes nothing; a present one leaves the
        registry, is saved, and has its face cleared if its chunk is loaded. */
    method RemoveClock(name: string)
      requires Valid()
      modifies this, server`blocks, server`writes
      ensures Valid()
      ensures clocks == old(clocks) - {name} && order == Without(old(order), name)
      ensures saved == if name in old(clocks) then clocks else old(saved)
      ensures server.blocks ==
        if name in old(clocks) then ClearEffect(old(server.blocks), server.loaded, rotate, old(clocks)[name])
        else old(server.blocks)
      ensures old(server.writes) <= server.writes
      ensures forall b :: b in server.writes[|old(server.writes)|..] <==>
        name in old(clocks) && AnchorLoaded(server.loaded, old(clocks)[name]) &&
        b in old(server.blocks) && b in ClearTargets(rotate, old(clocks)[name])
    {
      if name !in clocks {
        return;
      }
      var removed := clocks[name];
      clocks := clocks - {name};
      order := Without(order, name);
      ClearClock(removed);
      saved := clocks;
    }

    /** createClock: an existing clock of that name is removed and cleared
        first; the new clock is stored under its name, last in order, and
        saved. */
    method CreateClock(c: ClockData)
      requires Valid() && c.world in server.worlds
      modifies this, server`blocks, server`writes
      ensures Valid()
      ensures clocks == old(clocks)[c.name := c] && order == Without(old(order), c.name) + [c.name]
      ensures saved == clocks
      ensures server.blocks ==
        if c.name in old(clocks) then ClearEffect(old(server.blocks), server.loaded, rotate, old(clocks)[c.name])
        else old(server.blocks)
      ensures old(server.writes) <= server.writes
      ensures forall b :: b in server.writes[|old(server.writes)|..] <==>
        c.name in old(clocks) && AnchorLoaded(server.loaded, old(clocks)[c.name]) &&
        b in old(server.blocks) && b in ClearTargets(rotate, old(clocks)[c.name])
    {
      if c.name in clocks {
        RemoveClock(c.name);
        assert old(clocks)[c.name := c] == clocks[c.name := c];
      }
      Put(c);
      saved := clocks;
    }

    /** `clocks[name] = clock` for a name not in the map: a LinkedHashMap
        appends the new key to its order. */
    method Put(c: ClockData)
      requires Valid() && c.name !in clocks && c.world in server.worlds
      modifies this`clocks, this`order
      ensures Valid()
      ensures clocks == old(clocks)[c.name := c] && order == old(order) + [c.name]
    {
      clocks := clocks[c.name := c];
      order := order + [c.name];
    }

    /** The body of the repeating task: nothing for an empty registry,
        otherwise every clock redrawn in registry order. */
    method Tick(tips: ClockData -> HandTips)
      requires Valid()
      modifies server`blocks, server`writes
      ensures Valid()
      ensures server.blocks == TickEffect(old(server.blocks), server.loaded, rotate, InOrder(clocks, order), tips)
      ensures old(server.writes) <= server.writes
      ensures clocks == map[] ==> server.writes == old(server.writes)
    {
      if clocks == map[] {
        return;
      }
      var cs := InOrder(clocks, order);
      ghost var w := server.blocks;
      var i := 0;
      while i < |cs|
        invariant 0 <= i <= |cs| && server.Valid()
        invariant server.blocks == TickEffect(w, server.loaded, rotate, cs[..i], tips)
        invariant old(server.writes) <= server.writes
      {
        var c := cs[i];
        assert cs[..i + 1][..i] == cs[..i] && cs[..i + 1][i] == c;
        assert c.world in server.worlds by {
          assert c == clocks[order[i]];
        }
        UpdateClock(c, tips(c));
        i := i + 1;
      }
      assert cs[..i] == cs;
    }
  }
}
