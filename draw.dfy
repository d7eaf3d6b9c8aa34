/** The objects `drawShelfLevels` and `drawStack` (src/core/map.ts) add to the scene,
    as values: a shelf group holding one group per level, each with two slabs and two
    poles, and a stack mesh. Only the y of every object is kept of its position. */
module Drawing {
  import opened Wrappers
  import opened Seqs
  import opened GeoJson
  import opened Model
  import opened Scene
  import opened ShelfLayout

  /** The material `new MeshLambertMaterial(style)` gives a mesh: the style's colour,
      or white, and its opacity, or 1. */
  function Painted(s: Style): Material {
    Material(s.color.GetOr(White), Some(s.opacity.GetOr(1.0)))
  }

  /** The ids of a level, in the order its objects are created: the group, the bottom
      slab, the top slab, the front pole and the back pole. */
  const IdsPerLevel: nat := 5

  /** The level group made in one iteration of the level loop (map.ts:277-382), whose
      first id is `id`. Its user data is replaced by `{ type, coordinate, level }`,
      so it records no material, and its type is `Type.SHELF_LEVEL`, which is
      undefined. */
  function LevelGroup(id: nat, plan: LevelPlan): Object3D {
    Object3D(id, Group(None), NoData.(level := Some(plan.level), coordY := Some(plan.groupY)), Some(0.0),
      [Object3D(id + 1, Mesh(Painted(LevelStyle), LevelStyle), NoData, Some(plan.bottomSlabY), []),
       Object3D(id + 2, Mesh(Painted(LevelStyle), LevelStyle), NoData, Some(plan.topSlabY), []),
       Object3D(id + 3, Mesh(Painted(PoleStyle), PoleStyle), NoData, Some(plan.poleCentreY), []),
       Object3D(id + 4, Mesh(Painted(PoleStyle), PoleStyle), NoData, Some(plan.poleCentreY), [])])
  }

  /** The user data of a shelf group: the shelf's members (`...shelf`) next to the
      recorded theme style. */
  function ShelfData(shelf: Shelf): UserData {
    NoData.(kind := Some(SHELF), key := shelf.key, height := Some(shelf.height))
  }

  /** The level groups made from `plans`, the first one's ids starting at `id + 1`. */
  function LevelGroups(id: nat, plans: seq<LevelPlan>): (r: seq<Object3D>)
    ensures |r| == |plans|
  {
    seq(|plans|, i requires 0 <= i < |plans| => LevelGroup(id + 1 + IdsPerLevel * i, plans[i]))
  }

  /** One more level plan gives one more level group, five ids further on. */
  lemma LevelGroupsStep(id: nat, plans: seq<LevelPlan>, k: nat)
    requires k < |plans|
    ensures LevelGroups(id, plans[..k + 1]) == LevelGroups(id, plans[..k]) + [LevelGroup(id + 1 + IdsPerLevel * k, plans[k])]
  {
    var a := LevelGroups(id, plans[..k + 1]);
    var b := LevelGroups(id, plans[..k]) + [LevelGroup(id + 1 + IdsPerLevel * k, plans[k])];
    assert |a| == |b|;
    forall i | 0 <= i < |a| ensures a[i] == b[i] {
      if i < k {
        assert plans[..k + 1][i] == plans[..k][i];
      }
    }
  }

  /** The level plans of a shelf in closed form, level by level. */
  function ShelfPlans(shelf: Shelf, config: Config): (r: seq<LevelPlan>)
    requires shelf.levels <= |Expanded(shelf.height, shelf.levels)|
    ensures |r| == (if shelf.levels < 0 then 0 else shelf.levels)
  {
    var heights := Expanded(shelf.height, shelf.levels);
    var n := if shelf.levels < 0 then 0 else shelf.levels;
    seq(n, i requires 0 <= i < n => LevelAt(heights, i, config.groundHeight, config.surfaceHeight))
  }

  /** The shelf group `drawShelfLevels` adds for `shelf` when its first id is `id`:
      one level group per level, five ids apart. */
  function ShelfGroup(id: nat, shelf: Shelf, config: Config): Object3D
    requires shelf.levels <= |Expanded(shelf.height, shelf.levels)|
  {
    Object3D(id, Group(Some(ShelfStyle)), ShelfData(shelf), Some(0.0), LevelGroups(id, ShelfPlans(shelf, config)))
  }

  /** `shape.getPoints()` allows the level loop to finish: the outline survives the
      clean-up and still has a third point for the back pole. */
  predicate Drawable(points: seq<Position>) {
    PoleAnchors(points).Some?
  }

  /** The level loop of `drawShelfLevels` (map.ts:276-390) over `plans`, the shelf
      group having taken id `groupId`: every level takes five ids and yields its
      level group. An outline too short for the clean-up throws after the group
      and the two slabs of the first level are made, one without a third point
      after its two poles are made. */
  method LevelLoop(points: seq<Position>, plans: seq<LevelPlan>, groupId: nat)
    returns (threw: bool, nextId: nat, levelGroups: seq<Object3D>)
    ensures |plans| >= 1 && CleanOutline(points).None? ==> threw && nextId == groupId + 4
    ensures |plans| >= 1 && CleanOutline(points).Some? && !Drawable(points) ==> threw && nextId == groupId + 6
    ensures |plans| == 0 || Drawable(points) ==>
      !threw && nextId == groupId + 1 + IdsPerLevel * |plans| && levelGroups == LevelGroups(groupId, plans)
  {
    threw := false;
    nextId := groupId + 1;
    levelGroups := [];
    var index := 0;
    while index < |plans|
      invariant 0 <= index <= |plans|
      invariant nextId == groupId + 1 + IdsPerLevel * index
      invariant index > 0 ==> Drawable(points)
      invariant levelGroups == LevelGroups(groupId, plans[..index])
    {
      var levelId := nextId;
      nextId := nextId + 3;
      var cleaned := CleanOutline(points);
      if cleaned.None? {
        // `points[0].x` or `points[1].y` of an outline with fewer than two points
        threw := true;
        return;
      }
      nextId := nextId + 2;
      if |cleaned.value| < 3 {
        // `points[2].x` of an outline left with fewer than three points
        threw := true;
        return;
      }
      LevelGroupsStep(groupId, plans, index);
      levelGroups := levelGroups + [LevelGroup(levelId, plans[index])];
      index := index + 1;
    }
    assert plans[..index] == plans;
  }

  /** Where the parts of level `i` (0-based) of a drawn shelf are: the level group
      records level i+1 and the top of the level; the bottom slab lies on the levels
      below; the top slab ends at the top of the level; both poles span the level
      from its bottom to its top; and the level's top is the next level's bottom. */
  lemma ShelfGroupLayout(id: nat, shelf: Shelf, config: Config, i: nat)
    requires shelf.levels <= |Expanded(shelf.height, shelf.levels)|
    requires i < shelf.levels
    ensures var heights := Expanded(shelf.height, shelf.levels);
      var g := ShelfGroup(id, shelf, config);
      var ground := config.groundHeight;
      |g.children| == shelf.levels &&
      g.children[i].id == id + 1 + IdsPerLevel * i &&
      g.children[i].data.level == Some(i + 1) &&
      g.children[i].data.coordY == Some(ground + PrefixSum(heights, i + 1)) &&
      |g.children[i].children| == 4 &&
      g.children[i].children[0].y == Some(ground + PrefixSum(heights, i)) &&
      g.children[i].children[1].y == Some(ground + PrefixSum(heights, i + 1) - config.surfaceHeight) &&
      g.children[i].children[2].y == g.children[i].children[3].y &&
      g.children[i].children[2].y.Some? &&
      g.children[i].children[2].y.value - heights[i] / 2.0 == ground + PrefixSum(heights, i) &&
      g.children[i].children[2].y.value + heights[i] / 2.0 == ground + PrefixSum(heights, i + 1)
    ensures i + 1 < shelf.levels ==>
      var g := ShelfGroup(id, shelf, config);
      g.children[i].children[1].y.value + config.surfaceHeight == g.children[i + 1].children[0].y.value
  {
    var heights := Expanded(shelf.height, shelf.levels);
    LevelAtFacts(heights, i, config.groundHeight, config.surfaceHeight);
  }

  /** A stack drawn on level L of a shelf stands on the top face of that level's
      bottom slab in the shelf group, whatever the shelf's first id. */
  lemma StackRestsOnSlab(id: nat, shelf: Shelf, config: Config, shelfLevel: int)
    requires 1 <= shelfLevel <= shelf.levels <= |Expanded(shelf.height, shelf.levels)|
    ensures var slab := ShelfGroup(id, shelf, config).children[shelfLevel - 1].children[0];
      slab.y.Some? &&
      StackY(Some(shelf.height), shelfLevel, config) == Some(slab.y.value + config.surfaceHeight)
  {
    ShelfGroupLayout(id, shelf, config, shelfLevel - 1);
    StackSitsOnItsLevel(shelf.height, shelf.levels, shelfLevel, config.groundHeight, config.surfaceHeight);
  }

  /** The y of a stack (map.ts:433-446) on a shelf whose recorded height is
      `shelfHeight`: with no height, the loop adds undefined (NaN) once there is a
      level below. */
  function StackY(shelfHeight: Option<HeightSpec>, shelfLevel: int, config: Config): Option<real> {
    if shelfHeight.Some? then StackBase(shelfHeight.value, shelfLevel, config.groundHeight, config.surfaceHeight)
    else if Below(shelfLevel) == 0 then Some(config.groundHeight + config.surfaceHeight)
    else None
  }

  /** The stack mesh (map.ts:451-463) with id `id`: the stack's members
      (`{ ...new Stack(), ...properties }`) with the computed height, which is NaN
      (`None`) when the height chain gives none, and the recorded theme style. */
  function StackObject(id: nat, p: Properties, height: Option<real>, y: Option<real>): Object3D {
    Object3D(id, Mesh(Painted(StackStyle), StackStyle),
      NoData.(kind := Some(STACK), key := p.key, name := p.name, shelfId := p.shelfId, shelfLevel := p.shelfLevel,
              height := if height.Some? then Some(Uniform(height.value)) else None),
      y, [])
  }

  /** A feature `drawShelf` draws levels for (map.ts:236-243): a Feature whose
      properties have type `shelf` and whose geometry is a Polygon. */
  predicate ShelfPolygon(f: Feature) {
    f.kind == "Feature" && TypeOf(f) == Some(SHELF) && f.geometry.Some? && f.geometry.value.kind == "Polygon"
  }

  /** The shelf `drawShelf` merges from a shelf feature's properties. */
  function ShelfOf(f: Feature): Shelf
    requires f.properties.Some?
  {
    MergeShelf(f.properties.value)
  }

  /** The outline points of a shelf polygon: `shape.getPoints()` of the shape built
      from all of its rings. */
  function OutlineOf(f: Feature, getPoints: seq<Position> -> seq<Position>): seq<Position>
    requires f.geometry.Some?
  {
    getPoints(Flatten(f.geometry.value.rings))
  }

  /** A shelf feature has one height per level, as `drawShelfLevels` needs. */
  predicate ShelfFits(f: Feature) {
    ShelfPolygon(f) ==> ShelfOf(f).levels <= |Expanded(ShelfOf(f).height, ShelfOf(f).levels)|
  }

  /** `drawShelf` of feature `f` throws: a collection nested in a collection, which
      this model gives no `features` of its own, has none to walk, and a shelf with levels whose outline is too short throws
      in its first level. */
  predicate ShelfThrows(f: Feature, getPoints: seq<Position> -> seq<Position>) {
    f.kind == "FeatureCollection" ||
    (ShelfPolygon(f) && ShelfOf(f).levels >= 1 && !Drawable(OutlineOf(f, getPoints)))
  }

  /** `drawShelf` of feature `f` adds a shelf group to the scene. */
  predicate ShelfDrawn(f: Feature, getPoints: seq<Position> -> seq<Position>) {
    ShelfPolygon(f) && ShelfOf(f).levels >= 1 && Drawable(OutlineOf(f, getPoints))
  }

  /** A Feature whose properties have type `stack` (map.ts:400-402). */
  predicate StackFeature(f: Feature) {
    f.kind == "Feature" && TypeOf(f) == Some(STACK)
  }

  /** `drawStack` of feature `f` throws on a scene whose children are `cs`: a nested
      collection (given no `features` of its own in this model), or a stack without a truthy height of its own on a shelf that
      records no height (`undefined[shelfLevel - 1]`). */
  predicate StackThrows(f: Feature, cs: seq<Object3D>) {
    f.kind == "FeatureCollection" ||
    (StackFeature(f) && Target(cs, f.properties.value.shelfId, SHELF).Some? &&
     !TruthyHeight(f.properties.value.height) &&
     cs[Target(cs, f.properties.value.shelfId, SHELF).value].data.height.None?)
  }

  /** `drawStack` of feature `f` adds a stack mesh to a scene whose children are `cs`:
      its shelf is there, the height chain does not throw, and it is a Polygon. */
  predicate StackDrawn(f: Feature, cs: seq<Object3D>) {
    StackFeature(f) && Target(cs, f.properties.value.shelfId, SHELF).Some? && !StackThrows(f, cs) &&
    f.geometry.Some? && f.geometry.value.kind == "Polygon"
  }

  /** The stack mesh `drawStack` adds for stack feature `f` with id `id` on the shelf
      `shelf`: its height from the fallback chain and its y from the levels below. */
  function StackFor(id: nat, f: Feature, shelf: Object3D, config: Config): Object3D
    requires StackFeature(f)
  {
    var p := f.properties.value;
    StackObject(id, p,
      StackHeight(p.height, shelf.data.height.GetOr(Uniform(0.0)), p.shelfLevel.GetOr(0), config.surfaceHeight),
      StackY(shelf.data.height, p.shelfLevel.GetOr(0), config))
  }

  /** The stack mesh `drawStack` makes (map.ts:414, 426-461) for stack feature `f`
      standing on `shelf`: the height from the fallback chain, and the y from the
      loop over the levels below. */
  method StackMesh(id: nat, f: Feature, shelf: Object3D, config: Config) returns (stack: Object3D)
    requires StackFeature(f)
    requires TruthyHeight(f.properties.value.height) || shelf.data.height.Some?
    ensures stack == StackFor(id, f, shelf, config)
    ensures stack.kind == Mesh(Painted(StackStyle), StackStyle) && stack.data.kind == Some(STACK)
    ensures stack.data.shelfId == f.properties.value.shelfId && stack.data.shelfLevel == f.properties.value.shelfLevel
  {
    var p := f.properties.value;
    var level := p.shelfLevel.GetOr(0);
    var height := StackHeight(p.height, shelf.data.height.GetOr(Uniform(0.0)), level, config.surfaceHeight);
    var y: Option<real>;
    if shelf.data.height.Some? {
      y := StackBaseY(shelf.data.height.value, level, config.groundHeight, config.surfaceHeight);
    } else {
      // adding the undefined height of every level below gives NaN
      y := if Below(level) == 0 then Some(config.groundHeight + config.surfaceHeight) else None;
    }
    stack := StackObject(id, p, height, y);
  }

  /** Appending objects that are not shelves leaves every shelf lookup as it was. */
  lemma {:induction false} TargetKeptByAppend(cs: seq<Object3D>, more: seq<Object3D>, key: Option<string>)
    requires forall k :: 0 <= k < |more| ==> more[k].data.kind != Some(SHELF)
    ensures Target(cs + more, key, SHELF) == Target(cs, key, SHELF)
    decreases |cs|
  {
    if cs == [] {
      assert cs + more == more;
    } else if !Matches(cs[0], key, SHELF) {
      assert (cs + more)[1..] == cs[1..] + more;
      TargetKeptByAppend(cs[1..], more, key);
    }
  }

  /** `after` is `before` with only objects of user data type `kind` added at the end. */
  predicate AppendsOnly(before: seq<Object3D>, after: seq<Object3D>, kind: string) {
    |before| <= |after| && after[..|before|] == before &&
    forall k :: |before| <= k < |after| ==> after[k].data.kind == Some(kind)
  }

  /** The scene `after` is the scene `before` with `count` objects of type `kind`
      added at the end of its children, and nothing else changed. */
  predicate Grown(before: Object3D, after: Object3D, kind: string, count: nat) {
    after == before.(children := after.children) &&
    AppendsOnly(before.children, after.children, kind) &&
    |after.children| == |before.children| + count
  }

  lemma GrownTrans(a: Object3D, b: Object3D, c: Object3D, kind: string, m: nat, n: nat)
    requires Grown(a, b, kind, m) && Grown(b, c, kind, n)
    ensures Grown(a, c, kind, m + n)
  {
    assert c.children[..|a.children|] == c.children[..|b.children|][..|a.children|];
  }

  /** The number of features of `fs` that `drawShelf` draws a shelf group for. */
  function ShelvesDrawn(fs: seq<Feature>, getPoints: seq<Position> -> seq<Position>): nat {
    if fs == [] then 0
    else ShelvesDrawn(fs[..|fs| - 1], getPoints) + (if ShelfDrawn(fs[|fs| - 1], getPoints) then 1 else 0)
  }

  /** The number of features of `fs` that `drawStack` draws a stack for, on a scene
      whose children are `cs`. */
  function StacksDrawn(fs: seq<Feature>, cs: seq<Object3D>): nat {
    if fs == [] then 0
    else StacksDrawn(fs[..|fs| - 1], cs) + (if StackDrawn(fs[|fs| - 1], cs) then 1 else 0)
  }

  /** Appending stacks leaves what a stack feature does unchanged: the shelves it
      looks up are where they were. */
  lemma StackOutcomeKept(f: Feature, cs: seq<Object3D>, more: seq<Object3D>)
    requires forall k :: 0 <= k < |more| ==> more[k].data.kind == Some(STACK)
    ensures StackThrows(f, cs + more) == StackThrows(f, cs)
    ensures StackDrawn(f, cs + more) == StackDrawn(f, cs)
    ensures StackFeature(f) ==> Target(cs + more, f.properties.value.shelfId, SHELF) == Target(cs, f.properties.value.shelfId, SHELF)
  {
    if StackFeature(f) {
      TargetKeptByAppend(cs, more, f.properties.value.shelfId);
    }
  }

  /** A scene grown by stacks only gives every stack feature the outcome it had. */
  lemma GrownByStacks(start: Object3D, now: Object3D, n: nat, f: Feature)
    requires Grown(start, now, STACK, n)
    ensures StackThrows(f, now.children) == StackThrows(f, start.children)
    ensures StackDrawn(f, now.children) == StackDrawn(f, start.children)
  {
    var more := now.children[|start.children|..];
    assert now.children == start.children + more;
    StackOutcomeKept(f, start.children, more);
  }

  /** One more feature drawn in the shelf collection loop. */
  lemma ShelvesStep(start: Object3D, before: Object3D, after: Object3D, features: seq<Feature>, i: nat,
                    getPoints: seq<Position> -> seq<Position>)
    requires i < |features|
    requires Grown(start, before, SHELF, ShelvesDrawn(features[..i], getPoints))
    requires Grown(before, after, SHELF, if ShelfDrawn(features[i], getPoints) then 1 else 0)
    ensures Grown(start, after, SHELF, ShelvesDrawn(features[..i + 1], getPoints))
  {
    GrownTrans(start, before, after, SHELF, ShelvesDrawn(features[..i], getPoints), if ShelfDrawn(features[i], getPoints) then 1 else 0);
    assert features[..i + 1][..i] == features[..i];
  }

  /** One more feature drawn in the stack collection loop, whose outcome is the one
      it has on the scene the loop started from. */
  lemma StacksStep(start: Object3D, before: Object3D, after: Object3D, features: seq<Feature>, i: nat)
    requires i < |features|
    requires Grown(start, before, STACK, StacksDrawn(features[..i], start.children))
    requires Grown(before, after, STACK, if StackDrawn(features[i], before.children) then 1 else 0)
    ensures Grown(start, after, STACK, StacksDrawn(features[..i + 1], start.children))
  {
    GrownByStacks(start, before, StacksDrawn(features[..i], start.children), features[i]);
    GrownTrans(start, before, after, STACK, StacksDrawn(features[..i], start.children), if StackDrawn(features[i], start.children) then 1 else 0);
    assert features[..i + 1][..i] == features[..i];
  }
}
