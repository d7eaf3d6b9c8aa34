/** The vertical layout of shelves and stacks (`drawShelfLevels`, `drawStack` and the
    ring flattening of `drawShelf` in src/core/map.ts), over real numbers.

    Heights are stacked upwards from `groundHeight`. Every level of a shelf has a
    bottom slab and a top slab, each `surfaceHeight` thick, and two poles as tall as
    the level. A stack stands on the bottom slab of its level. */
module ShelfLayout {
  import opened Wrappers
  import opened Seqs
  import opened GeoJson
  import opened Model

  /** `heightArr` as a value: an array height is used as it is, a number is
      repeated once per level. */
  function Expanded(height: HeightSpec, levels: int): seq<real> {
    match height
    case PerLevel(hs) => hs
    case Uniform(h) => seq(if levels < 0 then 0 else levels, _ => h)
  }

  /** The loop that fills `heightArr` (map.ts:268-275). */
  method HeightArray(height: HeightSpec, levels: int) returns (heightArr: seq<real>)
    ensures heightArr == Expanded(height, levels)
    ensures height.PerLevel? ==> heightArr == height.hs
    ensures height.Uniform? ==> |heightArr| == (if levels < 0 then 0 else levels)
    ensures height.Uniform? ==> forall i :: 0 <= i < |heightArr| ==> heightArr[i] == height.h
  {
    match height
    case PerLevel(hs) =>
      heightArr := hs;
    case Uniform(h) =>
      heightArr := [];
      var index := 0;
      while index < levels
        invariant 0 <= index && (index <= levels || index == 0)
        invariant |heightArr| == index
        invariant forall i :: 0 <= i < index ==> heightArr[i] == h
      {
        heightArr := heightArr + [h];
        index := index + 1;
      }
  }

  /** The sum of the first `n` heights. */
  function PrefixSum(hs: seq<real>, n: nat): real
    requires n <= |hs|
  {
    if n == 0 then 0.0 else PrefixSum(hs, n - 1) + hs[n - 1]
  }

  /** Sums over two sequences that agree on their first `n` entries are equal. */
  lemma {:induction false} PrefixSumAgree(a: seq<real>, b: seq<real>, n: nat)
    requires n <= |a| && n <= |b|
    requires forall i :: 0 <= i < n ==> a[i] == b[i]
    ensures PrefixSum(a, n) == PrefixSum(b, n)
  {
    if n > 0 {
      PrefixSumAgree(a, b, n - 1);
    }
  }

  /** With a single number as height, `n` levels are `n` times that number tall. */
  lemma {:induction false} UniformPrefixSum(h: real, levels: int, n: nat)
    requires n <= |Expanded(Uniform(h), levels)|
    ensures PrefixSum(Expanded(Uniform(h), levels), n) == (n as real) * h
  {
    if n > 0 {
      UniformPrefixSum(h, levels, n - 1);
      assert (n as real) * h == ((n - 1) as real) * h + h;
    }
  }

  /** What one iteration of the level loop of `drawShelfLevels` places: the bottom
      slab's y, the top slab's y, the y recorded in the level group
      (`coordinate.y`), its `level` number, and the height and centre of its poles. */
  datatype LevelPlan = LevelPlan(
    level: int,
    bottomSlabY: real,
    topSlabY: real,
    groupY: real,
    poleHeight: real,
    poleCentreY: real)

  /** Level `i` (0-based) in closed form. */
  function LevelAt(heights: seq<real>, i: nat, groundHeight: real, surfaceHeight: real): LevelPlan
    requires i < |heights|
  {
    var bottom := groundHeight + PrefixSum(heights, i);
    LevelPlan(i + 1, bottom, bottom + heights[i] - surfaceHeight, bottom + heights[i], heights[i], bottom + heights[i] / 2.0)
  }

  /** The level loop of `drawShelfLevels` (map.ts:276-301, 324, 346, 378-382),
      accumulating `currentHeight`. The source needs one height per level: with
      fewer, `heightArr[index]` is undefined. */
  method PlanLevels(heights: seq<real>, levels: int, groundHeight: real, surfaceHeight: real)
    returns (plans: seq<LevelPlan>)
    requires levels <= |heights|
    ensures |plans| == (if levels < 0 then 0 else levels)
    ensures forall i :: 0 <= i < |plans| ==> plans[i] == LevelAt(heights, i, groundHeight, surfaceHeight)
    ensures forall i :: 0 <= i < |plans| ==>
      plans[i].level == i + 1 &&
      plans[i].bottomSlabY == groundHeight + PrefixSum(heights, i) &&
      plans[i].groupY == groundHeight + PrefixSum(heights, i + 1) &&
      plans[i].topSlabY == groundHeight + PrefixSum(heights, i + 1) - surfaceHeight &&
      plans[i].poleHeight == heights[i]
    // the poles span the level from the bottom of its bottom slab to the top of its top slab
    ensures forall i :: 0 <= i < |plans| ==>
      plans[i].poleCentreY - plans[i].poleHeight / 2.0 == plans[i].bottomSlabY &&
      plans[i].poleCentreY + plans[i].poleHeight / 2.0 == plans[i].topSlabY + surfaceHeight
    // the top face of a level is the bottom face of the next one
    ensures forall i :: 0 <= i < |plans| - 1 ==> plans[i].topSlabY + surfaceHeight == plans[i + 1].bottomSlabY
  {
    plans := [];
    var currentHeight := groundHeight;
    var index := 0;
    while index < levels
      invariant 0 <= index && (index <= levels || index == 0)
      invariant |plans| == index
      invariant currentHeight == groundHeight + PrefixSum(heights, index)
      invariant forall i :: 0 <= i < index ==> plans[i] == LevelAt(heights, i, groundHeight, surfaceHeight)
    {
      var bottom := currentHeight;
      currentHeight := currentHeight + heights[index];
      var top := currentHeight - surfaceHeight;
      var poleY := heights[index] / 2.0 + currentHeight - heights[index];
      assert LevelPlan(index + 1, bottom, top, currentHeight, heights[index], poleY)
          == LevelAt(heights, index, groundHeight, surfaceHeight);
      plans := plans + [LevelPlan(index + 1, bottom, top, currentHeight, heights[index], poleY)];
      index := index + 1;
    }
    PlansInClosedForm(plans, heights, groundHeight, surfaceHeight);
  }

  /** Levels built one after the other by `LevelAt` satisfy the closed forms. */
  lemma PlansInClosedForm(plans: seq<LevelPlan>, heights: seq<real>, groundHeight: real, surfaceHeight: real)
    requires |plans| <= |heights|
    requires forall i :: 0 <= i < |plans| ==> plans[i] == LevelAt(heights, i, groundHeight, surfaceHeight)
    ensures forall i :: 0 <= i < |plans| ==>
      plans[i].level == i + 1 &&
      plans[i].bottomSlabY == groundHeight + PrefixSum(heights, i) &&
      plans[i].groupY == groundHeight + PrefixSum(heights, i + 1) &&
      plans[i].topSlabY == groundHeight + PrefixSum(heights, i + 1) - surfaceHeight &&
      plans[i].poleHeight == heights[i]
    ensures forall i :: 0 <= i < |plans| ==>
      plans[i].poleCentreY - plans[i].poleHeight / 2.0 == plans[i].bottomSlabY &&
      plans[i].poleCentreY + plans[i].poleHeight / 2.0 == plans[i].topSlabY + surfaceHeight
    ensures forall i :: 0 <= i < |plans| - 1 ==> plans[i].topSlabY + surfaceHeight == plans[i + 1].bottomSlabY
  {
    forall i | 0 <= i < |plans|
      ensures plans[i].level == i + 1 &&
        plans[i].bottomSlabY == groundHeight + PrefixSum(heights, i) &&
        plans[i].groupY == groundHeight + PrefixSum(heights, i + 1) &&
        plans[i].topSlabY == groundHeight + PrefixSum(heights, i + 1) - surfaceHeight &&
        plans[i].poleHeight == heights[i]
      ensures plans[i].poleCentreY - plans[i].poleHeight / 2.0 == plans[i].bottomSlabY &&
        plans[i].poleCentreY + plans[i].poleHeight / 2.0 == plans[i].topSlabY + surfaceHeight
    {
      LevelAtFacts(heights, i, groundHeight, surfaceHeight);
    }
    forall i | 0 <= i < |plans| - 1
      ensures plans[i].topSlabY + surfaceHeight == plans[i + 1].bottomSlabY
    {
      LevelAtFacts(heights, i, groundHeight, surfaceHeight);
    }
  }

  lemma LevelAtFacts(heights: seq<real>, i: nat, groundHeight: real, surfaceHeight: real)
    requires i < |heights|
    ensures LevelAt(heights, i, groundHeight, surfaceHeight).groupY == groundHeight + PrefixSum(heights, i + 1)
    ensures LevelAt(heights, i, groundHeight, surfaceHeight).topSlabY == groundHeight + PrefixSum(heights, i + 1) - surfaceHeight
    ensures LevelAt(heights, i, groundHeight, surfaceHeight).poleCentreY - heights[i] / 2.0 == groundHeight + PrefixSum(heights, i)
    ensures LevelAt(heights, i, groundHeight, surfaceHeight).poleCentreY + heights[i] / 2.0 == groundHeight + PrefixSum(heights, i + 1)
  {
  }

  /** `poleWidth` and `poleDepth` of `drawShelfLevels`; `None` where the source
      leaves the variable undefined. */
  datatype Footprint = Footprint(width: Option<real>, depth: Option<real>)

  /** The pole footprint (map.ts:318-323): for a vertical shelf the pole is
      `width || pole.width` wide along x and `pole.depth` deep along z; a
      horizontal shelf swaps the two; any other direction leaves both undefined. */
  function PoleFootprint(direction: string, shelfWidth: real, pole: Pole): (r: Footprint)
    ensures (r.width.Some? || r.depth.Some?) ==> direction == "vertical" || direction == "horizontal"
    ensures direction == "vertical" ==> r.depth == pole.depth
    ensures direction == "horizontal" ==> r.width == pole.depth
    ensures direction == "vertical" || direction == "horizontal" ==>
      (if direction == "vertical" then r.width else r.depth) == Some(if shelfWidth != 0.0 then shelfWidth else pole.width)
  {
    var side := if shelfWidth != 0.0 then shelfWidth else pole.width;
    if direction == "vertical" then Footprint(Some(side), pole.depth)
    else if direction == "horizontal" then Footprint(pole.depth, Some(side))
    else Footprint(None, None)
  }

  /** Turning a shelf from vertical to horizontal swaps its poles' footprint. */
  lemma FootprintSwapsWithDirection(shelfWidth: real, pole: Pole)
    ensures PoleFootprint("horizontal", shelfWidth, pole).width == PoleFootprint("vertical", shelfWidth, pole).depth
    ensures PoleFootprint("horizontal", shelfWidth, pole).depth == PoleFootprint("vertical", shelfWidth, pole).width
  {
  }

  /** A point of the floor plane: `x` and `z` in scene coordinates. The outline's
      point (x, y) lies at (x, -y) once the shelf is rotated onto the floor. */
  datatype FloorPoint = FloorPoint(x: real, z: real)

  /** The rectangle a pole covers on the floor, in the outline's own coordinates. */
  datatype Rect = Rect(minX: real, maxX: real, minY: real, maxY: real)

  function Covered(centre: FloorPoint, width: real, depth: real): Rect {
    Rect(centre.x - width / 2.0, centre.x + width / 2.0, -centre.z - depth / 2.0, -centre.z + depth / 2.0)
  }

  predicate Within(r: Rect, outer: Rect) {
    outer.minX <= r.minX && r.maxX <= outer.maxX && outer.minY <= r.minY && r.maxY <= outer.maxY
  }

  /** Where the front pole (at the outline's first point `p0`) and the back pole (at
      its third point `p2`) stand (map.ts:345-373). With `useInheritStyle` the poles
      are drawn inside the corners; otherwise a vertical shelf puts them outside
      along y and a horizontal one outside along x, so they do not take up the
      shelf's own width. */
  function PoleCentres(p0: Position, p2: Position, w: real, d: real, inherit: bool, direction: string)
    : (r: (FloorPoint, FloorPoint))
    ensures inherit || (direction != "vertical" && direction != "horizontal") ==>
      Covered(r.0, w, d) == Rect(p0.x, p0.x + w, p0.y, p0.y + d) &&
      Covered(r.1, w, d) == Rect(p2.x - w, p2.x, p2.y - d, p2.y)
    ensures !inherit && direction == "vertical" ==>
      Covered(r.0, w, d) == Rect(p0.x, p0.x + w, p0.y - d, p0.y) &&
      Covered(r.1, w, d) == Rect(p2.x - w, p2.x, p2.y, p2.y + d)
    ensures !inherit && direction == "horizontal" ==>
      Covered(r.0, w, d) == Rect(p0.x - w, p0.x, p0.y, p0.y + d) &&
      Covered(r.1, w, d) == Rect(p2.x, p2.x + w, p2.y - d, p2.y)
  {
    if inherit then
      (FloorPoint(p0.x + w / 2.0, -(p0.y + d / 2.0)),
       FloorPoint(p2.x + w / 2.0 - w, -(p2.y - d / 2.0)))
    else if direction == "vertical" then
      (FloorPoint(p0.x + w / 2.0, -(p0.y + d / 2.0 - d)),
       FloorPoint(p2.x + w / 2.0 - w, -(p2.y - d / 2.0 + d)))
    else if direction == "horizontal" then
      (FloorPoint(p0.x + w / 2.0 - w, -(p0.y + d / 2.0)),
       FloorPoint(p2.x + w / 2.0, -(p2.y - d / 2.0)))
    else
      (FloorPoint(p0.x + w / 2.0, -(p0.y + d / 2.0)),
       FloorPoint(p2.x + w / 2.0 - w, -(p2.y - d / 2.0)))
  }

  /** With `useInheritStyle`, the poles of a shelf whose first point is its lower-left
      corner and whose third point is its upper-right corner stay inside the outline. */
  lemma PolesInsideWhenInherited(p0: Position, p2: Position, w: real, d: real, direction: string)
    requires 0.0 <= w && 0.0 <= d && p0.x + w <= p2.x && p0.y + d <= p2.y
    ensures Within(Covered(PoleCentres(p0, p2, w, d, true, direction).0, w, d), Rect(p0.x, p2.x, p0.y, p2.y))
    ensures Within(Covered(PoleCentres(p0, p2, w, d, true, direction).1, w, d), Rect(p0.x, p2.x, p0.y, p2.y))
  {
  }

  /** The clean-up of the outline's points (map.ts:310-316): the last point is dropped
      when its x equals the first point's x and its y equals the SECOND point's y.
      With fewer than two points the comparison itself fails (`None`). */
  function CleanOutline(points: seq<Position>): (r: Option<seq<Position>>)
    ensures r.None? <==> |points| < 2
    ensures r.Some? ==> r.value == points || r.value == points[..|points| - 1]
    ensures r.Some? ==> (|r.value| < |points| <==>
      points[0].x == points[|points| - 1].x && points[1].y == points[|points| - 1].y)
  {
    if |points| < 2 then None
    else if points[0].x == points[|points| - 1].x && points[1].y == points[|points| - 1].y then
      Some(points[..|points| - 1])
    else Some(points)
  }

  /** A closed square ring that starts with a vertical edge keeps its closing point,
      because the test looks at the second point's y rather than the first's. */
  lemma ClosedRingKeepsClosingPoint()
    ensures CleanOutline([Position(0.0, 0.0), Position(0.0, 10.0), Position(10.0, 10.0), Position(10.0, 0.0), Position(0.0, 0.0)])
      == Some([Position(0.0, 0.0), Position(0.0, 10.0), Position(10.0, 10.0), Position(10.0, 0.0), Position(0.0, 0.0)])
  {
  }

  /** The first and third points of the cleaned outline, where the two poles stand;
      `None` when the source reads a point that does not exist. The clean-up only
      ever drops the last point, so the anchors are the outline's own first and
      third points whenever they exist. */
  function PoleAnchors(points: seq<Position>): (r: Option<(Position, Position)>)
    ensures r.Some? ==> |points| >= 3 && r.value == (points[0], points[2])
    ensures |points| >= 4 ==> r.Some?
    ensures |points| < 3 ==> r.None?
  {
    var cleaned := CleanOutline(points);
    if cleaned.Some? && |cleaned.value| >= 3 then Some((cleaned.value[0], cleaned.value[2])) else None
  }

  /** An open outline of three points whose last point shares x with the first and y
      with the second loses that point, and with it the back pole's anchor. */
  lemma ThreePointOutlineLosesAnchor()
    ensures PoleAnchors([Position(0.0, 0.0), Position(10.0, 10.0), Position(0.0, 10.0)]).None?
  {
    var points := [Position(0.0, 0.0), Position(10.0, 10.0), Position(0.0, 10.0)];
    assert points[..2] == [Position(0.0, 0.0), Position(10.0, 10.0)];
    assert CleanOutline(points) == Some(points[..2]);
  }

  /** The ring flattening of `drawShelf` and `drawStack` (map.ts:246-250, 421-425):
      every ring of the polygon, holes included, is appended point by point. */
  method FlattenRings(rings: seq<seq<Position>>) returns (vectors: seq<Position>)
    ensures vectors == Flatten(rings)
    ensures |vectors| == TotalLength(rings)
    ensures forall p :: p in vectors <==> exists i :: 0 <= i < |rings| && p in rings[i]
  {
    vectors := [];
    var r := 0;
    while r < |rings|
      invariant 0 <= r <= |rings|
      invariant vectors == Flatten(rings[..r])
    {
      var k := 0;
      while k < |rings[r]|
        invariant 0 <= k <= |rings[r]|
        invariant vectors == Flatten(rings[..r]) + rings[r][..k]
      {
        vectors := vectors + [rings[r][k]];
        k := k + 1;
      }
      assert rings[r][..k] == rings[r];
      FlattenAppend(rings[..r], [rings[r]]);
      assert rings[..r + 1] == rings[..r] + [rings[r]];
      r := r + 1;
    }
    assert rings[..r] == rings;
    FlattenLength(rings);
    forall p ensures p in vectors <==> exists i :: 0 <= i < |rings| && p in rings[i] {
      FlattenMember(rings, p);
    }
  }

  /** JavaScript's conversion of a shelf height to a number when it is used in
      arithmetic: a number is itself; an array goes through its string form, so
      `[]` is 0, `[x]` is x and a longer array is NaN (`None`). */
  function HeightAsNumber(h: HeightSpec): Option<real> {
    match h
    case Uniform(x) => Some(x)
    case PerLevel(hs) => if |hs| == 0 then Some(0.0) else if |hs| == 1 then Some(hs[0]) else None
  }

  /** JavaScript truthiness of an optional height: arrays are always truthy. */
  predicate TruthyHeight(h: Option<HeightSpec>) {
    h.Some? && (h.value.PerLevel? || h.value.h != 0.0)
  }

  /** The height of the level numbered `shelfLevel` (1-based) as the stack code reads
      it: `height[shelfLevel - 1]`, undefined for a number or an index out of range. */
  function LevelHeight(shelfHeight: HeightSpec, shelfLevel: int): Option<real> {
    if shelfHeight.PerLevel? && 1 <= shelfLevel <= |shelfHeight.hs| then Some(shelfHeight.hs[shelfLevel - 1])
    else None
  }

  /** A stack's height (map.ts:414): the first truthy one of the feature's height,
      the shelf's height at the stack's level, the shelf's height and the merged
      `stack.height` (the feature's height, or 15), less two slab thicknesses;
      `None` is NaN. */
  function StackHeight(featureHeight: Option<HeightSpec>, shelfHeight: HeightSpec, shelfLevel: int, surfaceHeight: real)
    : Option<real>
  {
    var chosen :=
      if TruthyHeight(featureHeight) then HeightAsNumber(featureHeight.value)
      else if Truthy(LevelHeight(shelfHeight, shelfLevel)) then LevelHeight(shelfHeight, shelfLevel)
      else if TruthyHeight(Some(shelfHeight)) then HeightAsNumber(shelfHeight)
      else if featureHeight.Some? then HeightAsNumber(featureHeight.value)
      else Some(DefaultStackHeight);
    if chosen.Some? then Some(chosen.value - 2.0 * surfaceHeight) else None
  }

  /** The number of levels below level `shelfLevel`. */
  function Below(shelfLevel: int): nat {
    if shelfLevel < 1 then 0 else shelfLevel - 1
  }

  /** The y at which a stack on level `shelfLevel` stands, as a closed form: the
      ground, one slab, and the heights of the levels below; NaN (`None`) when the
      per-level heights run out. */
  function StackBase(shelfHeight: HeightSpec, shelfLevel: int, groundHeight: real, surfaceHeight: real): Option<real> {
    var heights := Expanded(shelfHeight, Below(shelfLevel));
    if Below(shelfLevel) <= |heights| then Some(groundHeight + surfaceHeight + PrefixSum(heights, Below(shelfLevel)))
    else None
  }

  /** The loop of `drawStack` that adds up the heights of the levels below the stack
      (map.ts:433-446). */
  method StackBaseY(shelfHeight: HeightSpec, shelfLevel: int, groundHeight: real, surfaceHeight: real)
    returns (y: Option<real>)
    ensures y == StackBase(shelfHeight, shelfLevel, groundHeight, surfaceHeight)
    ensures y.None? <==> shelfHeight.PerLevel? && shelfLevel - 1 > |shelfHeight.hs|
    ensures shelfHeight.Uniform? ==> y == Some(groundHeight + surfaceHeight + (Below(shelfLevel) as real) * shelfHeight.h)
  {
    var currentHeight: Option<real> := Some(0.0);
    currentHeight := Some(currentHeight.value + surfaceHeight);
    var index := 1;
    ghost var heights := Expanded(shelfHeight, Below(shelfLevel));
    while index < shelfLevel
      invariant 1 <= index && (index <= shelfLevel || index == 1)
      invariant index - 1 <= |heights| ==> currentHeight == Some(surfaceHeight + PrefixSum(heights, index - 1))
      invariant index - 1 > |heights| ==> currentHeight.None?
      decreases shelfLevel - index
    {
      match shelfHeight {
        case PerLevel(hs) =>
          // `hs[index - 1]` is undefined past the end, and adding it gives NaN
          currentHeight := if index - 1 < |hs| && currentHeight.Some? then Some(currentHeight.value + hs[index - 1]) else None;
        case Uniform(h) =>
          currentHeight := if currentHeight.Some? then Some(currentHeight.value + h) else None;
      }
      index := index + 1;
    }
    y := if currentHeight.Some? then Some(groundHeight + currentHeight.value) else None;
    assert index - 1 == Below(shelfLevel);
    if shelfHeight.Uniform? {
      assert shelfHeight == Uniform(shelfHeight.h);
      assert |heights| == Below(shelfLevel);
      assert y == Some(groundHeight + (surfaceHeight + PrefixSum(heights, Below(shelfLevel))));
      UniformPrefixSum(shelfHeight.h, Below(shelfLevel), Below(shelfLevel));
      assert PrefixSum(heights, Below(shelfLevel)) == (Below(shelfLevel) as real) * shelfHeight.h;
      assert y == Some(groundHeight + surfaceHeight + (Below(shelfLevel) as real) * shelfHeight.h);
    }
  }

  /** A stack on level L (1-based) of a shelf drawn with `levels` levels stands on the
      top face of that level's bottom slab: the slab's y plus its thickness. */
  lemma {:induction false} StackSitsOnItsLevel(shelfHeight: HeightSpec, levels: int, shelfLevel: int,
                                               groundHeight: real, surfaceHeight: real)
    requires 1 <= shelfLevel <= levels <= |Expanded(shelfHeight, levels)|
    ensures StackBase(shelfHeight, shelfLevel, groundHeight, surfaceHeight)
      == Some(groundHeight + PrefixSum(Expanded(shelfHeight, levels), shelfLevel - 1) + surfaceHeight)
  {
    PrefixSumAgree(Expanded(shelfHeight, shelfLevel - 1), Expanded(shelfHeight, levels), shelfLevel - 1);
  }

  /** When neither the feature nor anything before it gives a height, a stack whose
      height comes from its level's height fills the level exactly: its top is the
      bottom face of the level's top slab. */
  lemma {:induction false} StackFillsItsLevel(featureHeight: Option<HeightSpec>, shelfHeight: HeightSpec, levels: int,
                                              shelfLevel: int, groundHeight: real, surfaceHeight: real)
    requires 1 <= shelfLevel <= levels <= |Expanded(shelfHeight, levels)|
    requires !TruthyHeight(featureHeight)
    requires shelfHeight.PerLevel? ==> shelfHeight.hs[shelfLevel - 1] != 0.0
    requires shelfHeight.Uniform? ==> shelfHeight.h != 0.0
    ensures StackBase(shelfHeight, shelfLevel, groundHeight, surfaceHeight).Some?
    ensures StackHeight(featureHeight, shelfHeight, shelfLevel, surfaceHeight).Some?
    ensures StackBase(shelfHeight, shelfLevel, groundHeight, surfaceHeight).value
          + StackHeight(featureHeight, shelfHeight, shelfLevel, surfaceHeight).value
         == groundHeight + PrefixSum(Expanded(shelfHeight, levels), shelfLevel) - surfaceHeight
  {
    StackSitsOnItsLevel(shelfHeight, levels, shelfLevel, groundHeight, surfaceHeight);
    var heights := Expanded(shelfHeight, levels);
    assert PrefixSum(heights, shelfLevel) == PrefixSum(heights, shelfLevel - 1) + heights[shelfLevel - 1];
  }
}
