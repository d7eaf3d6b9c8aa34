# warehouse3d core, modelled in Dafny

warehouse3d draws a warehouse floor plan in a browser with three.js. The plan is a
GeoJSON FeatureCollection (section 3.3 of RFC 7946) of areas, shelves and stacks
(storage slots). The user clicks a shelf level or a stack to highlight it. This
project models the parts of the program that are sequential logic, not rendering:

- **Parsing** (`GeoJsonUtil`, module `GeoJsonUtil`). The features of a collection
  are split by `properties.type` into the areas, shelves and stacks of a
  `Warehouse`, in input order.
- **Shelf and stack layout** (modules `ShelfLayout` and `Drawing`). A shelf has
  `levels` levels. Its `height` is one number or one number per level. Each level
  has a bottom slab, a top slab and two poles. The levels are stacked upwards from
  `groundHeight`. A stack stands on the bottom slab of the level given by its
  `shelfLevel`. Its height comes from a chain of fallbacks. All of this is
  arithmetic over `real`, and the promised relations are exact linear identities.
  The model also covers the clean-up of the outline points, the pole footprint,
  and the flattening of a polygon's rings (section 3.1.6 of RFC 7946) into one
  point list.
- **The scene graph** (module `Scene`). The scene is a tree of meshes (a live
  material plus the style recorded in `userData.material`), groups, and other
  objects (lights, the axes helper, the grid, labels). `fadeOut`, `fadeIn` and
  `reset` are recursive walks of this tree, as functions. `target` is a lookup
  among the scene's children.
- **The `Map` class** (module `WarehouseMap`). It holds the scene, the selected
  object (`selectedMesh`), the position of the last left mouse press (`museXY`)
  and the configuration. Its methods are the handlers that change these:
  - the click-versus-drag filter and `onSelectObject`, given the objects the ray
    hit, nearest first;
  - `handleSelectedObj` and `handleAreaObj`;
  - the camera's label hysteresis;
  - `clearObj`, `fadeInAll` and `fadeOutAll`;
  - drawing shelves and stacks into the scene.
- **Label canvas** (`DomUtil.createTextCanvas`, modules `DomUtil` and
  `LegacyDomUtil`). The label text is split greedily into rows. A row is closed
  when it measures more than `width - 12`. Each row is drawn centred, 12 units
  below the previous one. The text measurement is a function parameter.

The scene is a value (`datatype Object3D`). An object's three.js `id` stands for its
identity, so `selectedMesh === obj` becomes id equality. An in-place write across
the tree becomes a function that returns the updated tree, and the `Map` methods
assign the result to the `scene` field. Loops over the scene's children, the
`clearObj` removal loop, the height-array loop and the row-splitting loop are
methods with loop invariants. Each one is proved against the function that
specifies it.

Where the source and its declared types disagree, the model follows the code:

- `Pole` is declared with `length` and `width` (src/core/modal/shelf.ts:16-19). The
  drawing code reads `shelf.pole.depth` (src/core/map.ts:320, 322). The model's
  `Pole` therefore carries an optional `depth`, taken from the data, which is
  undefined unless the data gives one.
- The `Type` enum is lower-case (`'shelf'`, `'stack'`). `handleSelectedObj`
  compares types with the capitalised `'Stack'` and `'Shelf'`
  (src/core/map.ts:680, 684, 698, 705). The model keeps these comparisons as
  written, so for parsed data those branches never fire.
- `Type.SHELF_LEVEL` is not a member of the enum, so a level group's
  `userData.type` is undefined.
- A new `Warehouse`'s collections have no `features` array
  (src/geojson/feature-collection.ts:7). The source's `parse` would throw on the
  first push. The model's `Parse` starts the buckets empty (see Findings).

## Model

| member | source | states |
|---|---|---|
| `GeoJsonUtil.LoadByUrl` | src/utils/geojson.util.ts:11-13 | loading by URL always yields `null` |
| `GeoJsonUtil.Parse` | src/utils/geojson.util.ts:19-35 | a non-FeatureCollection yields `null`; a collection without `features` throws; otherwise areas, shelves and stacks are exactly the features of that type, in input order |
| `GeoJsonUtil.BucketStep` | src/utils/geojson.util.ts:23-31 | one more feature is appended to its own bucket and to no other |
| `GeoJsonUtil.BucketMembership` | src/utils/geojson.util.ts:23-31 | a feature is in a bucket iff it is an input feature of that type; a feature without properties or of another type is in none; no feature is in two buckets |
| `GeoJsonUtil.BucketSizes` | src/utils/geojson.util.ts:23-31 | the three bucket sizes add up to the number of features typed area, shelf or stack |
| `GeoJsonUtil.BucketsKeepOrder` | src/utils/geojson.util.ts:23-31 | each bucket of a concatenated input is the first part's bucket followed by the second's |
| `GeoJsonUtil.ParseAsWritten` | src/utils/geojson.util.ts:19-35 | as written: `null` for a non-collection; a TypeError whenever a collection has no `features` or holds a typed feature to push |
| `GeoJsonUtil.ParseAsWrittenThrowsOnArea` | src/utils/geojson.util.ts:22-25 | a collection of one area throws as written, while with empty buckets the area is the only area |
| `Model.MergeShelf` | src/core/modal/shelf.ts:4-11 | a shelf's properties override the class defaults of 5 levels, width 15, height 20, direction `vertical` and a 5 by 5 pole without depth; the key is the feature's own |
| `ShelfLayout.HeightArray` | src/core/map.ts:268-275 | an array height is used unchanged; a number becomes exactly `levels` equal entries |
| `ShelfLayout.UniformPrefixSum` | src/core/map.ts:272-274 | with a single-number height, n levels are n times that number tall |
| `ShelfLayout.PrefixSumAgree` | src/core/map.ts:297 | the cumulative height of the first n levels depends only on those levels' heights |
| `ShelfLayout.PlanLevels` | src/core/map.ts:276-382 | level i records `level = i+1` and `y = ground + Σ_{j≤i} h_j`; its bottom slab is at `ground + Σ_{j<i} h_j` and its top slab at `ground + Σ_{j≤i} h_j - surfaceHeight`; its poles are `h_i` tall and span the level; each level's top is the next level's bottom |
| `ShelfLayout.PlansInClosedForm` | src/core/map.ts:295-301 | levels built one by one satisfy the closed forms of the slab, group and pole positions |
| `ShelfLayout.LevelAtFacts` | src/core/map.ts:295-301 | one level's group y, top slab y and pole extent in terms of the cumulative heights |
| `ShelfLayout.PoleFootprint` | src/core/map.ts:318-323 | vertical: (`width` or `pole.width`, pole depth); horizontal: the two swapped; any other direction leaves both undefined |
| `ShelfLayout.FootprintSwapsWithDirection` | src/core/map.ts:319-322 | turning a shelf from vertical to horizontal swaps its pole footprint |
| `ShelfLayout.PoleCentres` | src/core/map.ts:345-373 | with `useInheritStyle` the poles cover the rectangles inside the first and third corners; otherwise a vertical shelf puts them outside along y and a horizontal one outside along x |
| `ShelfLayout.PolesInsideWhenInherited` | src/core/map.ts:345-362 | with `useInheritStyle`, both poles of a lower-left/upper-right outline stay inside it |
| `ShelfLayout.CleanOutline` | src/core/map.ts:310-316 | the last point is dropped iff its x equals the first point's x and its y equals the second point's y; fewer than two points fail |
| `ShelfLayout.ClosedRingKeepsClosingPoint` | src/core/map.ts:311-316 | a closed square ring that starts with a vertical edge keeps its closing point, because the test reads the second point's y |
| `ShelfLayout.PoleAnchors` | src/core/map.ts:310-362 | the poles stand on the outline's own first and third points, which exist whenever it has four points and never with fewer than three |
| `ShelfLayout.ThreePointOutlineLosesAnchor` | src/core/map.ts:310-362 | an open three-point outline can lose its third point in the clean-up, and with it the back pole's anchor |
| `ShelfLayout.FlattenRings` | src/core/map.ts:245-250 | the point list is every ring of the polygon, holes included, concatenated in order: same length and same points |
| `ShelfLayout.StackBaseY` | src/core/map.ts:433-446 | a stack's base is `ground + surfaceHeight + Σ` of the heights of levels `1..shelfLevel-1`; NaN when a per-level array runs out; `n * h` for a single height |
| `ShelfLayout.StackSitsOnItsLevel` | src/core/map.ts:433-446 | a stack's base is the top face of its level's bottom slab |
| `ShelfLayout.StackFillsItsLevel` | src/core/map.ts:414 | a stack whose height falls back to its level's height reaches exactly the underside of that level's top slab |
| `Drawing.LevelLoop` | src/core/map.ts:284-390 | the level loop makes one level group per level, five ids apart; an outline the clean-up fails on throws in the first level after its slabs are made, and one the clean-up leaves with fewer than three points throws there after its poles are made |
| `Drawing.ShelfGroupLayout` | src/core/map.ts:276-389 | in the drawn shelf group, level i records `level = i+1`, has its slabs and both poles at the cumulative heights, and its top face is the next level's bottom face |
| `Drawing.StackRestsOnSlab` | src/core/map.ts:433-449 | a drawn stack's y is the y of its level's bottom slab plus one slab thickness |
| `Drawing.StackMesh` | src/core/map.ts:414-457 | the stack mesh takes its height from the fallback chain, its y from the levels below, the stack theme style, and the feature's shelf id and level |
| `Drawing.TargetKeptByAppend` | src/core/map.ts:781-783 | adding objects that are not shelves changes no shelf lookup |
| `Drawing.StackOutcomeKept` | src/core/map.ts:405-409 | a stack feature is drawn, skipped or throws the same way after other stacks have been added |
| `Scene.Restyle` | src/core/map.ts:739-798 | fadeOut dims a mesh to 0.1 and records its opacity only when none is recorded; fadeIn restores the recorded opacity or 0.7; reset restores the colour, the opacity or both, by mode |
| `Scene.Walk` | src/core/map.ts:739-807 | a walk keeps the tree's shape, every object's id and user data, and every non-mesh kind |
| `Scene.WalkAt` | src/core/map.ts:739-807 | a walk restyles exactly the meshes reachable through groups and leaves every other object as it was |
| `Scene.WalkAll` | src/core/map.ts:728-756 | fadeInAll and fadeOutAll walk each child of the scene and change nothing else |
| `Scene.ResetColorThenOpacity` | src/core/map.ts:789-802 | resetting the colour and then the opacity equals resetting both |
| `Scene.ResetIdempotent` | src/core/map.ts:789-802 | resetting twice in the same mode equals resetting once |
| `Scene.FadeInAfterFadeOut` | src/core/map.ts:739-774 | fading out then in gives every reached mesh its colour back, and the recorded opacity, else its own, else 0.7 |
| `Scene.WalkById` | src/core/map.ts:660-667 | resetting the referenced object walks it where it sits and keeps the tree's shape |
| `Scene.WalkByIdAbsent` | src/core/map.ts:660-667 | resetting an object no longer in the scene changes nothing |
| `Scene.WalkByIdAt` | src/core/map.ts:660-667 | the referenced object is walked as a whole |
| `Scene.WalkByIdKeepsIdentity` | src/core/map.ts:660-667 | resetting by reference keeps every object's id and user data |
| `Scene.WalkContains` | src/core/map.ts:739-807 | a walk keeps every id in the tree |
| `Scene.WalkByIdUntouched` | src/core/map.ts:803-806 | resetting an object leaves alone every object that neither has its id nor lies below one that has |
| `Scene.Target` | src/core/map.ts:781-783 | the first child of the scene with the given `userData.id` and type; none iff no child matches |
| `Scene.ClearTwice` | src/core/map.ts:813-825 | clearing a cleared scene leaves it as it is |
| `Scene.RemoveChild` | src/core/map.ts:820 | `scene.remove` takes out the first child with the object's id and keeps the others in order; an object that is not a child, or undefined, changes nothing |
| `Scene.RemoveFirstChild` | src/core/map.ts:820 | removing the first child takes the front off the children |
| `Scene.AddThenRemove` | src/core/map.ts:623-642 | removing a label just added gives the children back |
| `Scene.ShowLabel` | src/core/map.ts:624-645 | showing an area's name adds a label at the end of the scene and records it on the area as shown; no other object in the tree changes |
| `Scene.HideLabel` | src/core/map.ts:621-623 | hiding an area's name never adds children |
| `Scene.LabelRoundTrip` | src/core/map.ts:614-646 | showing then hiding an area's label restores the scene, except for the area's stale `nameMesh` |
| `WarehouseMap.SelectionPath` | src/core/map.ts:652-655 | the selection is the hit object when it is a child of the scene, its parent otherwise |
| `WarehouseMap.Highlighted` | src/core/map.ts:718-720 | a highlighted child gets the selected colour, its recorded opacity when that is truthy and the group's recorded opacity otherwise, and keeps its recorded style |
| `WarehouseMap.HighlightChildren` | src/core/map.ts:718-721 | every child of a selected group is highlighted in order, until the first that cannot be, which throws: the children are exactly `HighlightedKids` of the group |
| `WarehouseMap.FirstUnhighlightable` | src/core/map.ts:718-721 | the child the highlighting throws on: every child before it can be highlighted, and it cannot |
| `WarehouseMap.ResetList` | src/core/map.ts:803-806 | resetting an array resets each element with no mode and keeps the tree's shape |
| `WarehouseMap.ResetListAt` | src/core/map.ts:803-806 | after `reset(array)`, an object with no listed object above it or inside it is reset in colour and opacity when it is listed (once or more often) and unchanged when it is not |
| `WarehouseMap.Map.constructor` | src/core/map.ts:90-153 | a new map's scene holds the axes helper, two directional lights and the grid, with ids increasing in creation order and below the next id; nothing is selected |
| `WarehouseMap.Map.WalkChildren` | src/core/map.ts:728-756 | the `forEach` over the scene's children walks each child |
| `WarehouseMap.Map.FadeOutAll` | src/core/map.ts:752-756 | the scene becomes the fade-out walk of its children |
| `WarehouseMap.Map.FadeInAll` | src/core/map.ts:728-732 | the scene becomes the fade-in walk of its children |
| `WarehouseMap.Map.ClearObj` | src/core/map.ts:813-825 | exactly the directional lights and axes helpers present remain, in their original order |
| `WarehouseMap.Map.AddBack` | src/core/map.ts:822-824 | the kept objects are added back in order |
| `WarehouseMap.Map.KeepStep` | src/core/map.ts:815-821 | one more child examined adds it to the kept objects iff it is a light or the axes helper |
| `WarehouseMap.Map.ResetObjects` | src/core/map.ts:803-806 | each object of the array is reset in turn |
| `WarehouseMap.Map.SelectMesh` | src/core/map.ts:671-693 | a mesh becomes the selection with the selected colour and opacity 0.7 and notifies the listener; the stack branch reads a capitalised type |
| `WarehouseMap.Map.SelectGroup` | src/core/map.ts:694-721 | a group becomes the selection; when its parent is not typed `'Shelf'`, the new scene is the old one with the group's children highlighted up to the first that throws; when none throws, every child ends in its highlighted state |
| `WarehouseMap.Map.HandleSelectedObj` | src/core/map.ts:651-723 | re-selecting the selected object fades all in, resets it and clears the selection; otherwise, on the scene with the previous selection's colour given back, a mesh not typed `'Stack'` takes the selected colour at opacity 0.7 and notifies the listener, a group not under a shelf has its children highlighted, and anything else clears the selection; each case states the whole new scene (`WarehouseMap.Handled`) |
| `WarehouseMap.Map.SelectObject` | src/core/map.ts:664-721 | with nothing selected, a mesh or group at the path becomes the selection and is highlighted as `WarehouseMap.SelectedIn` states, and anything else changes nothing |
| `WarehouseMap.Map.FadeInAndDeselect` | src/core/map.ts:586-599 | a ground or area hit fades everything in, resets the selection and clears it |
| `WarehouseMap.Map.OnSelectObject` | src/core/map.ts:553-609 | only a left click released where it was pressed, with a hit, changes anything; then everything is faded out and the nearest hit alone decides: the ground fades all in and deselects, an area does so and then toggles its label, and anything else has `handleSelectedObj`'s effect on the faded scene |
| `WarehouseMap.Map.RememberXY` | src/core/map.ts:543-550 | a left press records its screen position; any other event changes nothing |
| `WarehouseMap.Map.HandleAreaObj` | src/core/map.ts:614-646 | for a named area, a shown label is hidden and a hidden one shown (`WarehouseMap.AreaToggled`); anything else is left alone |
| `WarehouseMap.AreaToggled` | src/core/map.ts:614-646 | a named area's shown label is hidden, a hidden one is shown with the next id, and any other object leaves the scene as it is |
| `WarehouseMap.Map.UpdateLabels` | src/core/map.ts:846-850 | when no label is shown, afterwards exactly the named areas among the children show one |
| `WarehouseMap.Map.OnCameraChange` | src/core/map.ts:122-131 | the label flag is set iff the camera is at or below the critical point, and labels are toggled only when the flag flips; a flip when no label is shown leaves exactly the named areas among the children showing one |
| `WarehouseMap.Map.DrawShelfLevels` | src/core/map.ts:267-391 | the shelf group with all its levels is appended to the scene once; an outline the clean-up fails on, or leaves with fewer than three points, throws before anything is added |
| `WarehouseMap.Map.DrawShelf` | src/core/map.ts:233-255 | a shelf Polygon feature adds its shelf group; any other feature is skipped; a nested collection, which carries no `features` in this model, throws |
| `WarehouseMap.Map.DrawShelves` | src/core/map.ts:256-262 | a collection draws each feature; one without `features` throws; any other document is skipped |
| `WarehouseMap.Map.DrawShelfFeatures` | src/core/map.ts:258-260 | the features are drawn in order until one throws, and the scene gains one shelf group per shelf drawn, at its end |
| `WarehouseMap.Map.DrawStack` | src/core/map.ts:397-461 | a stack without its shelf among the scene's children is not drawn and the scene is unchanged; otherwise a Polygon adds one stack mesh |
| `WarehouseMap.Map.DrawStacks` | src/core/map.ts:462-467 | a collection draws each stack feature; one without `features` throws; any other document is skipped |
| `WarehouseMap.Map.DrawStackFeatures` | src/core/map.ts:464-466 | the stack features are drawn in order until one throws, each finding the shelves the scene had at the start |
| `DomUtil.WrapRows` | src/utils/dom.util.ts:82-92 | the row-splitting loop computes the greedy split of the text |
| `DomUtil.WrapFacts` | src/utils/dom.util.ts:85-91 | closed rows and the pending row concatenate to the text read so far; a row is closed only once it measures more than the limit |
| `DomUtil.RowsFacts` | src/utils/dom.util.ts:82-92 | the rows concatenate to the text; there is at least one; every row but the last measured more than `width - 12`, and no row was closed earlier |
| `DomUtil.DrawRows` | src/utils/dom.util.ts:93-95 | row b is drawn at x = `width/2`, y = `12*(b+1)` |
| `DomUtil.CreateTextCanvas` | src/utils/dom.util.ts:60-98 | without a 2D context nothing is drawn; otherwise the given colours and font size, and the rows at spacing 12 whatever the font size |
| `LegacyDomUtil.CreateTextCanvas` | src/utils/domUtil.ts:47-78 | the same row split and placement, with the fixed background, white text and a 12-unit font |

## Left out

- Rendering, WebGL, the camera, OrbitControls, Stats, the animation loop, texture loading and file loading are not modelled. They are an engine and browser I/O.
- Raycasting is not modelled. A click comes with the hit objects as paths into the scene, nearest first.
- `drawGround`, `drawArea` and src/utils/draw.util.ts are not part of this model. They are thin wrappers over three.js constructors.
- `JSON.parse` is not modelled. `Parse` takes the already-parsed document.
- `shape.getPoints()` is a three.js computation. It is a function parameter of `DrawShelf`.
- `ctx.measureText(...).width` is a function parameter. The canvas drawing calls are recorded as values, not performed.
- Shared materials are not modelled. The two slabs, and the two poles, of a level share one three.js material, so a write to one is seen through the other. Every walk in the model writes the same values to both, so the visible result agrees.
- The model does not track object positions other than y, geometry sizes, rotations or the `currentHex` field.
- Event dispatch to the ground's click listener is not modelled. The shelf and level click listeners are not modelled either.
- Every mesh in the model records a style in `userData.material`. A mesh without one, on which the source's `fadeIn` would throw, is not represented.
- `WarehouseMap.Map.SelectMesh`: states the new scene completely only when the hit is not typed `'Stack'`. For parsed data that branch never fires.
- `WarehouseMap.Map.SelectGroup`: states the whole new scene only when the group's parent is not typed `'Shelf'`. Under such a parent it states the selection and that every child ends highlighted, not the effect of the shelf and stack resets. Parsed data never carries the capitalised type, so that branch never fires.
- `WarehouseMap.Map.UpdateLabels`: is stated for the case in which no label is shown at the start. When some are shown, the labels are removed while the `forEach` runs, so the indices it visits shift.
- `Scene.HideLabel`: its contract only bounds the number of children. `Scene.LabelRoundTrip` states the full effect.
- `DomUtil.WrapRows`: a character is one Unicode scalar value. The source's `text.split("")` cuts a character outside the Basic Multilingual Plane into two UTF-16 surrogates, which can then land in different rows. That split is not modelled.
- `Model.MergeShelf`: a property that is absent falls back to the class default. A property given as JSON `null` overrides the default with `null` in the object spread. That is not represented: `None` means absent.
- `WarehouseMap.Map.DrawShelf`: the model's `Feature` carries no `features` list, so a FeatureCollection nested in a collection always throws. The source draws the features of such a collection recursively when it has them (src/core/map.ts:256-260). The same holds for `WarehouseMap.Map.DrawStack` (src/core/map.ts:462-466).
- `ShelfLayout.PlanLevels`, `Drawing.ShelfPlans`, `Drawing.ShelfGroup`, `Drawing.ShelfGroupLayout`, `Drawing.StackRestsOnSlab`, `WarehouseMap.Map.DrawShelfLevels` and `WarehouseMap.Map.DrawShelf`: require a per-level height array to have at least `levels` entries. With a shorter array the source reads `undefined` heights and draws levels at NaN positions. That case is not modelled.
- NaN is represented as `None` where the source can produce it (stack heights and positions). Other floating-point effects are not modelled: the layout identities are exact over the reals.

## Findings

| source | as written | input that shows it | evidently intended | confidence | as-written member | corrected member |
|---|---|---|---|---|---|---|
| src/utils/geojson.util.ts:22-25 | `new Warehouse()` makes collections whose `features` is undefined (src/geojson/feature-collection.ts:7), so the first `features.push` throws a TypeError | a FeatureCollection holding one Feature whose `properties.type` is `area` | each collection starts with an empty `features` array that the features are pushed into | high (not executed) | `GeoJsonUtil.ParseAsWrittenThrowsOnArea` | `GeoJsonUtil.Parse` |
