/** The `Map` class of src/core/map.ts: the scene it draws the warehouse into, the
    selected object, the position of the last mouse press and the configuration,
    and the handlers that change them. Rendering, the camera and raycasting are not
    part of this model: a click comes with the list of objects the ray hit. */
module WarehouseMap {
  import opened Wrappers
  import opened Seqs
  import opened GeoJson
  import opened Model
  import opened Scene
  import ShelfLayout
  import opened Drawing

  /** A pointer event: a mouse event with its button and screen position, or a
      touch event, which has no `button`. */
  datatype Event = Mouse(button: int, screenX: real, screenY: real) | Touch

  /** The object `handleSelectedObj` works on for a hit at `p`: the hit object when
      it is a child of the scene, its parent otherwise. */
  function SelectionPath(p: seq<nat>): (r: seq<nat>)
    requires |p| >= 1
    ensures 1 <= |r| <= |p| && r == p[..|r|]
    ensures |p| == 1 <==> r == p
  {
    if |p| == 1 then p else p[..|p| - 1]
  }

  /** Child `c` of the selected group `g` can be highlighted: it is a mesh, and its
      recorded opacity is truthy or the group records a style to fall back on. */
  predicate Highlightable(g: Object3D, c: Object3D) {
    c.kind.Mesh? && (Truthy(c.kind.recorded.opacity) || (g.kind.Group? && g.kind.style.Some?))
  }

  /** Child `c` of the selected group `g` highlighted: the selected colour, and its
      recorded opacity, or else the opacity the group records. */
  function Highlighted(g: Object3D, c: Object3D): (r: Object3D)
    requires Highlightable(g, c)
    ensures r.kind.Mesh? && r.kind.material.color == SelectedColor && r.kind.recorded == c.kind.recorded
    ensures Truthy(c.kind.recorded.opacity) ==> r.kind.material.opacity == c.kind.recorded.opacity
    ensures !Truthy(c.kind.recorded.opacity) ==> r.kind.material.opacity == g.kind.style.value.opacity
    ensures r == c.(kind := r.kind)
  {
    var s := c.kind.recorded;
    var opacity := if Truthy(s.opacity) then s.opacity else g.kind.style.value.opacity;
    c.(kind := Mesh(Material(SelectedColor, opacity), s))
  }

  /** A non-mesh child, or a mesh child with nothing to take its opacity from, throws a
      TypeError; a mesh has been given the selected colour by then. */
  function Aborted(c: Object3D): Object3D {
    if c.kind.Mesh? then c.(kind := Mesh(c.kind.material.(color := SelectedColor), c.kind.recorded)) else c
  }

  /** A left click released where the press was recorded: the only release that
      selects (map.ts:553-564). Touch events carry no button and never select. */
  predicate Click(e: Event, x: real, y: real) {
    e.Mouse? && e.button == 0 && e.screenX == x && e.screenY == y
  }

  /** The position of the first child of `g` from `i` on that cannot be highlighted,
      or the number of children when there is none. */
  function FirstUnhighlightable(g: Object3D, i: nat): (r: nat)
    requires i <= |g.children|
    ensures i <= r <= |g.children|
    ensures forall j :: i <= j < r ==> Highlightable(g, g.children[j])
    ensures r < |g.children| ==> !Highlightable(g, g.children[r])
    decreases |g.children| - i
  {
    if i == |g.children| || !Highlightable(g, g.children[i]) then i else FirstUnhighlightable(g, i + 1)
  }

  /** The children of `g` once it is highlighted: those before the first child that
      cannot be highlighted are, that one is aborted, the rest are left alone. */
  function HighlightedKids(g: Object3D): (kids: seq<Object3D>)
    ensures |kids| == |g.children|
  {
    var b := FirstUnhighlightable(g, 0);
    seq(|g.children|, i requires 0 <= i < |g.children| =>
      if i < b then Highlighted(g, g.children[i])
      else if i == b then Aborted(g.children[i])
      else g.children[i])
  }

  /** The children `handleSelectedObj` highlights (map.ts:718-721), one after the other
      until one of them throws. */
  method HighlightChildren(g: Object3D) returns (threw: bool, kids: seq<Object3D>)
    ensures kids == HighlightedKids(g) && threw == (FirstUnhighlightable(g, 0) < |g.children|)
    ensures |kids| == |g.children|
    ensures !threw <==> forall i :: 0 <= i < |g.children| ==> Highlightable(g, g.children[i])
    ensures !threw ==> forall i :: 0 <= i < |g.children| ==> kids[i] == Highlighted(g, g.children[i])
    ensures threw ==> exists b :: (0 <= b < |g.children| && !Highlightable(g, g.children[b]) &&
      (forall i :: 0 <= i < b ==> Highlightable(g, g.children[i]) && kids[i] == Highlighted(g, g.children[i])) &&
      kids[b] == Aborted(g.children[b]) &&
      (forall i :: b < i < |g.children| ==> kids[i] == g.children[i]))
  {
    kids := g.children;
    threw := false;
    var i := 0;
    while i < |g.children|
      invariant 0 <= i <= |g.children| == |kids|
      invariant forall j :: 0 <= j < i ==> Highlightable(g, g.children[j]) && kids[j] == Highlighted(g, g.children[j])
      invariant forall j :: i <= j < |g.children| ==> kids[j] == g.children[j]
    {
      var mesh := kids[i];
      if !Highlightable(g, mesh) {
        kids := kids[i := Aborted(mesh)];
        threw := true;
        FirstUnhighlightableAt(g, i);
        return;
      }
      kids := kids[i := Highlighted(g, mesh)];
      i := i + 1;
    }
    FirstUnhighlightableAt(g, i);
  }

  /** The first child that cannot be highlighted is the one every earlier child's
      success and its own failure point to. */
  lemma FirstUnhighlightableAt(g: Object3D, b: nat)
    requires b <= |g.children|
    requires forall j :: 0 <= j < b ==> Highlightable(g, g.children[j])
    requires b < |g.children| ==> !Highlightable(g, g.children[b])
    ensures FirstUnhighlightable(g, 0) == b
  {
  }

  /** A highlighted child stays as it is when highlighted again by its group. */
  lemma HighlightedFixed(g: Object3D, c: Object3D, kind: Kind)
    requires Highlightable(g, c) && g.kind == kind
    ensures var h := Highlighted(g, c); Highlightable(g, h) && Highlighted(g, h) == h
  {
  }

  /** Highlighting keeps the group's shape. */
  lemma HighlightKeepsShape(g: Object3D, kids: seq<Object3D>)
    requires |kids| == |g.children|
    requires forall i :: 0 <= i < |kids| ==> (kids[i] == g.children[i] || kids[i] == Aborted(g.children[i]) ||
      (Highlightable(g, g.children[i]) && kids[i] == Highlighted(g, g.children[i])))
    ensures SameShape(g.(children := kids), g)
  {
    forall i | 0 <= i < |kids| ensures SameShape(kids[i], g.children[i]) {
      var c := g.children[i];
      if kids[i] == c {
        SameShapeRefl(c);
      } else if c.kind.Mesh? {
        RestyledSameShape(c, kids[i].kind);
      } else {
        SameShapeRefl(c);
      }
    }
  }

  /** The scene once `handleSelectedObj` has given the previously selected object its
      colour back (map.ts:659-662). */
  function Deselected(root: Object3D, prev: Option<nat>): (r: Object3D)
    ensures SameShape(r, root)
    ensures prev.None? ==> r == root
  {
    if prev.Some? then WalkById(root, prev.value, Reset(ColorOnly)) else (SameShapeRefl(root); root)
  }

  /** Giving the colour back keeps every path, and the id and the user data found there. */
  lemma DeselectedPaths(root: Object3D, prev: Option<nat>, q: seq<nat>)
    requires ValidPath(root, q)
    ensures ValidPath(Deselected(root, prev), q)
    ensures At(Deselected(root, prev), q).id == At(root, q).id
    ensures At(Deselected(root, prev), q).data == At(root, q).data
    ensures At(Deselected(root, prev), q).kind.Mesh? == At(root, q).kind.Mesh?
    ensures At(Deselected(root, prev), q).kind.Group? == At(root, q).kind.Group?
  {
    SameShapePaths(Deselected(root, prev), root, []);
    SameShapeSym(Deselected(root, prev), root);
    SameShapePaths(root, Deselected(root, prev), q);
    if prev.Some? {
      WalkByIdKeepsIdentity(root, prev.value, Reset(ColorOnly), q);
    }
  }

  /** The object at `sel` is a child of an object typed 'Shelf': selecting it first
      resets that parent (map.ts:699-702). */
  predicate UnderShelf(root: Object3D, sel: seq<nat>)
    requires ValidPath(root, sel)
  {
    |sel| >= 2 && (PathPrefix(root, sel, |sel| - 1); At(root, sel[..|sel| - 1]).data.kind == Some("Shelf"))
  }

  /** What `handleSelectedObj` does to the scene `before`, whose selection was `prev`,
      for a hit at `p` when the listener is set or not: `after`, `now`, `threw` and
      `notified` are the scene, the selection, whether it threw and whom it notified
      afterwards. Selecting the selected object again fades everything in, resets it
      and clears the selection; any other object is selected on the scene with the
      previous selection's colour given back. */
  ghost predicate Handled(before: Object3D, prev: Option<nat>, p: seq<nat>, listening: bool,
                          after: Object3D, now: Option<nat>, threw: bool, notified: Option<nat>)
    requires ValidPath(before, p) && |p| >= 1
  {
    var sel := SelectionPath(p);
    PathPrefix(before, p, |sel|);
    var obj := At(before, sel);
    if prev == Some(obj.id) then
      !threw && now == None && notified == None &&
      after == WalkById(WalkAll(before, FadeIn), obj.id, Reset(ColorAndOpacity))
    else
      DeselectedPaths(before, prev, sel);
      SelectedIn(Deselected(before, prev), sel, listening, after, now, threw, notified)
  }

  /** Selecting the object at `sel` of `before`, with nothing selected (map.ts:664-721):
      a mesh becomes the selection, and one not typed 'Stack' takes the selected colour
      at opacity 0.7 and notifies the listener; a group becomes the selection, and one
      whose parent is not typed 'Shelf' has its children highlighted, up to the first
      that throws, every child ending highlighted when none throws; anything else
      changes nothing. */
  ghost predicate SelectedIn(before: Object3D, sel: seq<nat>, listening: bool,
                             after: Object3D, now: Option<nat>, threw: bool, notified: Option<nat>)
    requires ValidPath(before, sel) && |sel| >= 1
  {
    var obj := At(before, sel);
    SameShape(after, before) && ValidPath(after, sel) &&
    if obj.kind.Mesh? then
      now == Some(obj.id) &&
      (obj.data.kind != Some("Stack") ==>
        !threw && notified == (if listening then Some(obj.id) else None) &&
        after == Replace(before, sel, obj.(kind := Mesh(Material(SelectedColor, Some(0.7)), obj.kind.recorded))))
    else if obj.kind.Group? then
      now == Some(obj.id) && notified == None &&
      (!UnderShelf(before, sel) ==>
        threw == (FirstUnhighlightable(obj, 0) < |obj.children|) &&
        after == Replace(before, sel, obj.(children := HighlightedKids(obj)))) &&
      (!threw ==> var h := At(after, sel);
        forall i :: 0 <= i < |h.children| ==> Highlightable(h, h.children[i]) && h.children[i] == Highlighted(h, h.children[i]))
    else
      !threw && now == None && notified == None && after == before
  }

  /** `handleAreaObj` on the object at `p` of `root`, the next id being `id`: a named
      area's label is hidden when shown and shown otherwise. */
  function AreaToggled(root: Object3D, p: seq<nat>, id: nat): (r: Object3D)
    requires ValidPath(root, p)
    ensures p != [] && NamedArea(At(root, p)) && At(root, p).data.showName ==> r == HideLabel(root, p)
    ensures p != [] && NamedArea(At(root, p)) && !At(root, p).data.showName ==> r == ShowLabel(root, p, id)
    ensures !(p != [] && NamedArea(At(root, p))) ==> r == root
  {
    if p == [] || !NamedArea(At(root, p)) then root
    else if At(root, p).data.showName then HideLabel(root, p)
    else ShowLabel(root, p, id)
  }

  /** The scene once a ground or area hit has faded every child of the scene in and
      reset the selected object, if any (map.ts:586-590, 594-599). */
  function Refreshed(root: Object3D, prev: Option<nat>): (r: Object3D)
    ensures SameShape(r, root)
  {
    var faded := WalkAll(root, FadeIn);
    if prev.Some? then
      SameShapeTrans(WalkById(faded, prev.value, Reset(ColorAndOpacity)), faded, root);
      WalkById(faded, prev.value, Reset(ColorAndOpacity))
    else faded
  }

  /** Fading in and deselecting keeps every path below the scene, and the user data
      found there. */
  lemma RefreshedPaths(root: Object3D, prev: Option<nat>, q: seq<nat>)
    requires ValidPath(root, q) && q != []
    ensures ValidPath(Refreshed(root, prev), q) && At(Refreshed(root, prev), q).data == At(root, q).data
  {
    WalkAllData(root, FadeIn, q);
    if prev.Some? {
      WalkByIdKeepsIdentity(WalkAll(root, FadeIn), prev.value, Reset(ColorAndOpacity), q);
    }
  }

  /** No child of the scene shows its label. */
  predicate NoneShown(root: Object3D) {
    forall j :: 0 <= j < |root.children| ==> !root.children[j].data.showName
  }

  /** `after` is `before` with a label shown for every named area among its children:
      those children keep their places, ids and kinds, and exactly the named areas
      among them record a label as shown. */
  predicate LabelsShown(before: Object3D, after: Object3D) {
    |after.children| >= |before.children| &&
    forall j :: 0 <= j < |before.children| ==>
      after.children[j].data.showName == NamedArea(before.children[j]) &&
      after.children[j].id == before.children[j].id &&
      after.children[j].kind == before.children[j].kind
  }

  /** `reset(array)`: each object of the list reset in turn, with no mode. */
  function ResetList(root: Object3D, objs: seq<Object3D>): (r: Object3D)
    ensures SameShape(r, root)
    decreases |objs|
  {
    if objs == [] then (SameShapeRefl(root); root)
    else
      var before := ResetList(root, objs[..|objs| - 1]);
      SameShapeTrans(WalkById(before, objs[|objs| - 1].id, Reset(ColorAndOpacity)), before, root);
      WalkById(before, objs[|objs| - 1].id, Reset(ColorAndOpacity))
  }

  /** One of `objs` has id `id`. */
  predicate Listed(objs: seq<Object3D>, id: nat) {
    exists j :: 0 <= j < |objs| && objs[j].id == id
  }

  /** Resetting a list keeps the ids on the way to every object. */
  lemma {:induction false} ResetListAvoids(root: Object3D, objs: seq<Object3D>, p: seq<nat>, id: nat)
    requires ValidPath(root, p)
    ensures ValidPath(ResetList(root, objs), p) && AvoidsAbove(ResetList(root, objs), p, id) == AvoidsAbove(root, p, id)
    decreases |objs|
  {
    if objs != [] {
      var before := ResetList(root, objs[..|objs| - 1]);
      ResetListAvoids(root, objs[..|objs| - 1], p, id);
      WalkByIdAvoids(before, objs[|objs| - 1].id, Reset(ColorAndOpacity), p, id);
    }
  }

  /** What `reset(array)` does to the object at `p`, when no listed object lies above
      it or inside it: reset in colour and opacity when it is listed (once or more),
      unchanged when it is not. */
  lemma {:induction false} ResetListAt(root: Object3D, objs: seq<Object3D>, p: seq<nat>)
    requires ValidPath(root, p)
    requires forall j :: 0 <= j < |objs| ==> AvoidsAbove(root, p, objs[j].id)
    requires forall j :: 0 <= j < |objs| && objs[j].id != At(root, p).id ==> !Contains(At(root, p), objs[j].id)
    ensures ValidPath(ResetList(root, objs), p)
    ensures Listed(objs, At(root, p).id) ==> At(ResetList(root, objs), p) == Walk(At(root, p), Reset(ColorAndOpacity))
    ensures !Listed(objs, At(root, p).id) ==> At(ResetList(root, objs), p) == At(root, p)
    decreases |objs|
  {
    var o := At(root, p);
    var r := ResetList(root, objs);
    if objs == [] {
    } else {
      var init := objs[..|objs| - 1];
      var last := objs[|objs| - 1];
      assert forall j :: 0 <= j < |init| ==> init[j] == objs[j];
      ResetListAt(root, init, p);
      var t := ResetList(root, init);
      assert r == WalkById(t, last.id, Reset(ColorAndOpacity));
      ResetListAvoids(root, init, p, last.id);
      assert Listed(objs, o.id) <==> Listed(init, o.id) || last.id == o.id by {
        if Listed(objs, o.id) && last.id != o.id {
          var j :| 0 <= j < |objs| && objs[j].id == o.id;
          assert j < |init| && init[j].id == o.id;
        }
        if Listed(init, o.id) {
          var j :| 0 <= j < |init| && init[j].id == o.id;
          assert objs[j].id == o.id;
        }
      }
      if last.id == o.id {
        WalkByIdAt(t, last.id, Reset(ColorAndOpacity), p);
        ResetIdempotent(o, ColorAndOpacity);
      } else {
        WalkContains(o, Reset(ColorAndOpacity), last.id);
        WalkByIdUntouched(t, last.id, Reset(ColorAndOpacity), p);
      }
    }
  }

  class Map {
    /** The scene (`this.scene`); its children are what `scene.children` holds. */
    var scene: Object3D
    /** `selectedMesh`: the id of the selected object, if any. */
    var selected: Option<nat>
    /** `museXY`: where the last left mouse press was. */
    var mouseX: real
    var mouseY: real
    /** `config`. */
    var config: Config
    /** Whether a `selectionListener` is set. */
    var hasListener: bool
    /** The id three.js gives the next object the map creates. */
    var nextId: nat

    /** `new Map()` as far as `initScene` builds the scene: the scene, the camera, the
        axes helper, two directional lights and the grid are created in that order,
        and three.js numbers objects in creation order; the camera is not part of the
        scene. How many ids are used up in between (each light makes a target and a
        shadow camera of its own, the renderer may make cameras) depends on the
        three.js version, so only their order is promised. */
    constructor (firstId: nat, hasListener: bool)
      ensures scene.kind == SceneRoot && scene.id == firstId
      ensures |scene.children| == 4
      ensures scene.children[0].kind == AxesHelper && scene.children[1].kind == DirectionalLight
      ensures scene.children[2].kind == DirectionalLight && scene.children[3].kind == OtherObject
      ensures firstId < scene.children[0].id < scene.children[1].id < scene.children[2].id < scene.children[3].id < nextId
      ensures selected == None && mouseX == 0.0 && mouseY == 0.0
      ensures config == DefaultConfig && this.hasListener == hasListener
    {
      var axes := Object3D(firstId + 2, AxesHelper, NoData, Some(0.0), []);
      var light1 := Object3D(firstId + 3, DirectionalLight, NoData, Some(1000.0), []);
      var light2 := Object3D(firstId + 6, DirectionalLight, NoData, Some(1000.0), []);
      var grid := Object3D(firstId + 9, OtherObject, NoData, Some(0.0), []);
      scene := Object3D(firstId, SceneRoot, NoData, Some(0.0), [axes, light1, light2, grid]);
      selected := None;
      mouseX, mouseY := 0.0, 0.0;
      config := DefaultConfig;
      this.hasListener := hasListener;
      nextId := firstId + 10;
    }

    /** The `forEach` over the scene's children shared by `fadeInAll` and `fadeOutAll`. */
    method WalkChildren(v: Visual)
      modifies this`scene
      ensures scene == WalkAll(old(scene), v)
    {
      var i := 0;
      while i < |scene.children|
        invariant 0 <= i <= |scene.children| == |old(scene).children|
        invariant scene == old(scene).(children := scene.children)
        invariant forall j :: 0 <= j < i ==> scene.children[j] == Walk(old(scene).children[j], v)
        invariant forall j :: i <= j < |scene.children| ==> scene.children[j] == old(scene).children[j]
      {
        scene := scene.(children := scene.children[i := Walk(scene.children[i], v)]);
        i := i + 1;
      }
    }

    /** `fadeOutAll` (map.ts:752-756). */
    method FadeOutAll()
      modifies this`scene
      ensures scene == WalkAll(old(scene), FadeOut)
    {
      WalkChildren(FadeOut);
    }

    /** `fadeInAll` (map.ts:728-732). */
    method FadeInAll()
      modifies this`scene
      ensures scene == WalkAll(old(scene), FadeIn)
    {
      WalkChildren(FadeIn);
    }

    /** `clearObj` (map.ts:813-825): every child is removed from the front; the
        directional lights and the axes helper are kept aside and added back. */
    method ClearObj()
      modifies this`scene
      ensures scene == old(scene).(children := Filter(old(scene).children, Stable))
    {
      ghost var start := scene;
      ghost var cs := scene.children;
      var stableObjs := [];
      ghost var k := 0;
      while |scene.children| > 0
        invariant 0 <= k <= |cs|
        invariant scene == start.(children := cs[k..])
        invariant stableObjs == Filter(cs[..k], Stable)
        decreases |scene.children|
      {
        var first := scene.children[0];
        if first.kind == DirectionalLight || first.kind == AxesHelper {
          stableObjs := stableObjs + [first];
        }
        RemoveFirstChild(scene.children);
        KeepStep(cs, k);
        scene := scene.(children := RemoveChild(scene.children, Some(first.id)));
        k := k + 1;
      }
      assert cs[..k] == cs;
      AddBack(start, stableObjs);
    }

    /** The `forEach` of `clearObj` that adds the kept objects back, in order. */
    method AddBack(ghost start: Object3D, stableObjs: seq<Object3D>)
      requires scene == start.(children := [])
      modifies this`scene
      ensures scene == start.(children := stableObjs)
    {
      var i := 0;
      while i < |stableObjs|
        invariant 0 <= i <= |stableObjs|
        invariant scene == start.(children := stableObjs[..i])
      {
        scene := scene.(children := scene.children + [stableObjs[i]]);
        assert stableObjs[..i + 1] == stableObjs[..i] + [stableObjs[i]];
        i := i + 1;
      }
      assert stableObjs[..i] == stableObjs;
    }

    /** One more child looked at by `clearObj`'s loop. */
    static lemma KeepStep(cs: seq<Object3D>, k: nat)
      requires k < |cs|
      ensures Filter(cs[..k + 1], Stable) == Filter(cs[..k], Stable) + (if Stable(cs[k]) then [cs[k]] else [])
      ensures cs[k..][1..] == cs[k + 1..]
    {
      assert cs[..k + 1] == cs[..k] + [cs[k]];
      FilterAppend(cs[..k], [cs[k]], Stable);
      assert [cs[k]][1..] == [];
    }

    /** `reset(array)` (map.ts:803-806). */
    method ResetObjects(objs: seq<Object3D>)
      modifies this`scene
      ensures scene == ResetList(old(scene), objs)
    {
      ghost var start := scene;
      var i := 0;
      while i < |objs|
        invariant 0 <= i <= |objs|
        invariant scene == ResetList(start, objs[..i])
      {
        assert objs[..i + 1][..i] == objs[..i];
        scene := WalkById(scene, objs[i].id, Reset(ColorAndOpacity));
        i := i + 1;
      }
      assert objs[..i] == objs;
    }

    /** The mesh branch of `handleSelectedObj` (map.ts:664-696): the mesh becomes the
        selection and takes the selected colour. A stack also resets the shelf level
        it stands on, looked up under a capitalised type the data never carries, so
        the lookup throws unless such a shelf is present. */
    method SelectMesh(sel: seq<nat>) returns (threw: bool, notified: Option<nat>)
      requires ValidPath(scene, sel) && At(scene, sel).kind.Mesh?
      modifies this`scene, this`selected
      ensures SameShape(scene, old(scene))
      ensures ValidPath(scene, sel)
      ensures selected == Some(At(old(scene), sel).id)
      ensures var cur := At(old(scene), sel);
        cur.data.kind != Some("Stack") ==>
          !threw && notified == (if hasListener then Some(cur.id) else None) &&
          scene == Replace(old(scene), sel, cur.(kind := Mesh(Material(SelectedColor, Some(0.7)), cur.kind.recorded)))
    {
      threw, notified := false, None;
      var cur := At(scene, sel);
      selected := Some(cur.id);
      var chosen := cur.(kind := Mesh(Material(SelectedColor, Some(0.7)), cur.kind.recorded));
      RestyledSameShape(cur, chosen.kind);
      ReplaceShape(scene, sel, chosen);
      scene := Replace(scene, sel, chosen);
      if cur.data.kind == Some("Stack") {
        // the shelf is looked up by a capitalised type the data never has
        var shelfIndex := Target(scene.children, cur.data.shelfId, "Shelf");
        if shelfIndex.None? {
          // `shelfMesh.children` of undefined
          threw := true;
          return;
        }
        var shelfObj := scene.children[shelfIndex.value];
        var level := cur.data.shelfLevel;
        if level.None? || level.value < 1 || level.value > |shelfObj.children| {
          // `reset(undefined)` reads `undefined.type`
          threw := true;
          return;
        }
        var at := [shelfIndex.value, level.value - 1];
        assert ValidPath(scene, at) by {
          assert ValidPath(scene.children[at[0]], at[1..]) by {
            assert ValidPath(scene.children[at[0]].children[at[1]], at[1..][1..]);
          }
        }
        ghost var chosenScene := scene;
        var target := At(scene, at);
        ReplaceShape(scene, at, Walk(target, Reset(ColorAndOpacity)));
        scene := Replace(scene, at, Walk(target, Reset(ColorAndOpacity)));
        SameShapeTrans(scene, chosenScene, old(scene));
        SameShapeSym(scene, old(scene));
        SameShapePaths(old(scene), scene, sel);
      }
      if hasListener {
        notified := Some(cur.id);
      }
    }

    /** The group branch of `handleSelectedObj` (map.ts:697-720): the group becomes
        the selection and every child of it takes the selected colour; the first
        child that is not a mesh throws. The parent-shelf reset before it is looked
        up under a capitalised type the data never carries. */
    method SelectGroup(sel: seq<nat>) returns (threw: bool)
      requires ValidPath(scene, sel) && At(scene, sel).kind.Group?
      modifies this`scene, this`selected
      ensures SameShape(scene, old(scene))
      ensures ValidPath(scene, sel)
      ensures selected == Some(At(old(scene), sel).id)
      ensures var g := At(scene, sel);
        !threw ==> forall i :: 0 <= i < |g.children| ==> g.children[i].kind.Mesh? && g.children[i].kind.material.color == SelectedColor
      ensures var g := At(scene, sel);
        !threw ==> forall i :: 0 <= i < |g.children| ==> Highlightable(g, g.children[i]) && g.children[i] == Highlighted(g, g.children[i])
      ensures var g := At(old(scene), sel);
        !UnderShelf(old(scene), sel) ==>
          threw == (FirstUnhighlightable(g, 0) < |g.children|) &&
          scene == Replace(old(scene), sel, g.(children := HighlightedKids(g)))
    {
      var cur := At(scene, sel);
      selected := Some(cur.id);
      SameShapeRefl(scene);
      if |sel| >= 2 {
        var parentPath := sel[..|sel| - 1];
        PathPrefix(scene, sel, |sel| - 1);
        var parent := At(scene, parentPath);
        if parent.data.kind == Some("Shelf") {
          ReplaceShape(scene, parentPath, Walk(parent, Reset(ColorAndOpacity)));
          scene := Replace(scene, parentPath, Walk(parent, Reset(ColorAndOpacity)));
          var stacks := Filter(scene.children, (o: Object3D) => o.data.kind == Some("Stack") && o.data.shelfId == parent.data.key);
          stacks := Filter(stacks, (o: Object3D) => o.data.shelfLevel == cur.data.level);
          ghost var beforeStacks := scene;
          ResetObjects(stacks);
          SameShapeTrans(scene, beforeStacks, old(scene));
        }
      }
      SameShapeSym(scene, old(scene));
      SameShapePaths(old(scene), scene, sel);
      var group := At(scene, sel);
      var kids;
      threw, kids := HighlightChildren(group);
      HighlightKeepsShape(group, kids);
      ghost var beforeHighlight := scene;
      ReplaceShape(scene, sel, group.(children := kids));
      scene := Replace(scene, sel, group.(children := kids));
      SameShapeTrans(scene, beforeHighlight, old(scene));
      if !threw {
        forall i | 0 <= i < |kids|
          ensures Highlightable(group.(children := kids), kids[i])
          ensures kids[i] == Highlighted(group.(children := kids), kids[i])
        {
          HighlightedFixed(group, group.children[i], group.(children := kids).kind);
        }
      }
    }

    /** `handleSelectedObj` (map.ts:651-723) for a hit at `p`. Selecting the selected
        object again fades everything in, resets it and clears the selection;
        otherwise the previous selection gets its colour back, and a mesh or group
        becomes the selection and is highlighted. A mesh notifies the listener. */
    method HandleSelectedObj(p: seq<nat>) returns (threw: bool, notified: Option<nat>)
      requires ValidPath(scene, p) && |p| >= 1
      modifies this`scene, this`selected
      ensures SameShape(scene, old(scene))
      ensures ValidPath(scene, SelectionPath(p)) && ValidPath(old(scene), SelectionPath(p))
      ensures var obj := At(old(scene), SelectionPath(p));
        old(selected) == Some(obj.id) ==>
          !threw && selected == None && notified == None &&
          scene == WalkById(WalkAll(old(scene), FadeIn), obj.id, Reset(ColorAndOpacity))
      ensures var obj := At(old(scene), SelectionPath(p));
        old(selected) != Some(obj.id) ==>
          selected == (if obj.kind.Mesh? || obj.kind.Group? then Some(obj.id) else None)
      ensures var obj := At(old(scene), SelectionPath(p));
        old(selected) != Some(obj.id) && obj.kind.Mesh? && obj.data.kind != Some("Stack") ==>
          !threw && notified == (if hasListener then Some(obj.id) else None) &&
          At(scene, SelectionPath(p)).kind.Mesh? &&
          At(scene, SelectionPath(p)).kind.material == Material(SelectedColor, Some(0.7))
      ensures var obj := At(old(scene), SelectionPath(p));
        old(selected) != Some(obj.id) && !obj.kind.Mesh? && !obj.kind.Group? ==>
          !threw && notified == None &&
          scene == (if old(selected).Some? then WalkById(old(scene), old(selected).value, Reset(ColorOnly)) else old(scene))
      ensures var obj := At(old(scene), SelectionPath(p));
        var g := At(scene, SelectionPath(p));
        old(selected) != Some(obj.id) && obj.kind.Group? && !threw ==>
          notified == None &&
          forall i :: 0 <= i < |g.children| ==> g.children[i].kind.Mesh? && g.children[i].kind.material.color == SelectedColor
      ensures Handled(old(scene), old(selected), p, hasListener, scene, selected, threw, notified)
    {
      threw, notified := false, None;
      var sel := SelectionPath(p);
      PathPrefix(scene, p, |sel|);
      var obj := At(scene, sel);
      if selected == Some(obj.id) {
        FadeInAll();
        scene := WalkById(scene, obj.id, Reset(ColorAndOpacity));
        selected := None;
        SameShapeTrans(scene, WalkAll(old(scene), FadeIn), old(scene));
        SameShapeSym(scene, old(scene));
        SameShapePaths(old(scene), scene, sel);
        return;
      }
      if selected.Some? {
        WalkByIdKeepsIdentity(scene, selected.value, Reset(ColorOnly), sel);
        scene := WalkById(scene, selected.value, Reset(ColorOnly));
        selected := None;
      } else {
        SameShapeRefl(scene);
      }
      ghost var reset := scene;
      assert reset == Deselected(old(scene), old(selected));
      DeselectedPaths(old(scene), old(selected), sel);
      threw, notified := SelectObject(sel);
      SameShapeTrans(scene, reset, old(scene));
      SameShapeSym(scene, old(scene));
      SameShapePaths(old(scene), scene, sel);
      if !threw && At(reset, sel).kind.Group? {
        var g := At(scene, sel);
        forall i | 0 <= i < |g.children|
          ensures g.children[i].kind.Mesh? && g.children[i].kind.material.color == SelectedColor
        {
          assert g.children[i] == Highlighted(g, g.children[i]);
        }
      }
    }

    /** The part of `handleSelectedObj` after the previous selection is let go
        (map.ts:664-721): a mesh or a group is selected, anything else is left alone. */
    method SelectObject(sel: seq<nat>) returns (threw: bool, notified: Option<nat>)
      requires ValidPath(scene, sel) && |sel| >= 1 && selected == None
      modifies this`scene, this`selected
      ensures SelectedIn(old(scene), sel, hasListener, scene, selected, threw, notified)
    {
      threw, notified := false, None;
      var cur := At(scene, sel);
      if cur.kind.Mesh? {
        threw, notified := SelectMesh(sel);
      } else if cur.kind.Group? {
        threw := SelectGroup(sel);
      } else {
        SameShapeRefl(scene);
      }
    }

    /** What a ground or area hit does first (map.ts:586-590, 594-599): every child of
        the scene is faded in, and the selected object, if any, is reset and the
        selection cleared. */
    method FadeInAndDeselect()
      modifies this`scene, this`selected
      ensures selected == None
      ensures scene == Refreshed(old(scene), old(selected))
      ensures scene == (if old(selected).Some?
                        then WalkById(WalkAll(old(scene), FadeIn), old(selected).value, Reset(ColorAndOpacity))
                        else WalkAll(old(scene), FadeIn))
      ensures SameShape(scene, old(scene))
    {
      FadeInAll();
      ghost var faded := scene;
      if selected.Some? {
        scene := WalkById(scene, selected.value, Reset(ColorAndOpacity));
        selected := None;
      } else {
        SameShapeRefl(scene);
      }
      SameShapeTrans(scene, faded, old(scene));
    }

    /** `onSelectObject` (map.ts:553-609) for an event and the objects its ray hit,
        nearest first. Only a left click released where it was pressed counts; then
        everything is faded out and only the first hit is handled: the ground fades
        everything back in and clears the selection, an area does the same and then
        toggles its label, anything else goes to `handleSelectedObj`. */
    method OnSelectObject(e: Event, hits: seq<seq<nat>>) returns (threw: bool, notified: Option<nat>)
      requires hits != [] ==> ValidPath(scene, hits[0]) && |hits[0]| >= 1
      modifies this`scene, this`selected, this`nextId
      ensures !Click(e, old(mouseX), old(mouseY)) || hits == [] ==>
        scene == old(scene) && selected == old(selected) && nextId == old(nextId) && !threw && notified == None
      ensures Click(e, old(mouseX), old(mouseY)) && hits != [] && At(old(scene), hits[0]).data.kind in {Some(GROUND), Some(AREA)} ==>
        selected == None && !threw && notified == None
      ensures Click(e, old(mouseX), old(mouseY)) && hits != [] && At(old(scene), hits[0]).data.kind == Some(GROUND) ==>
        nextId == old(nextId) &&
        scene == (if old(selected).Some?
                  then WalkById(WalkAll(WalkAll(old(scene), FadeOut), FadeIn), old(selected).value, Reset(ColorAndOpacity))
                  else WalkAll(WalkAll(old(scene), FadeOut), FadeIn))
      ensures hits != [] ==>
        ValidPath(WalkAll(old(scene), FadeOut), hits[0]) &&
        ValidPath(Refreshed(WalkAll(old(scene), FadeOut), old(selected)), hits[0])
      ensures Click(e, old(mouseX), old(mouseY)) && hits != [] && At(old(scene), hits[0]).data.kind == Some(AREA) ==>
        var o := At(old(scene), hits[0]);
        scene == AreaToggled(Refreshed(WalkAll(old(scene), FadeOut), old(selected)), hits[0], old(nextId)) &&
        nextId == old(nextId) + (if NamedArea(o) && !o.data.showName then 1 else 0)
      ensures Click(e, old(mouseX), old(mouseY)) && hits != [] && At(old(scene), hits[0]).data.kind !in {Some(GROUND), Some(AREA)} ==>
        nextId == old(nextId) &&
        Handled(WalkAll(old(scene), FadeOut), old(selected), hits[0], hasListener, scene, selected, threw, notified)
    {
      if hits != [] {
        WalkAllData(scene, FadeOut, hits[0]);
        RefreshedPaths(WalkAll(scene, FadeOut), selected, hits[0]);
      }
      threw, notified := false, None;
      if !e.Mouse? || e.button != 0 {
        return;
      }
      if e.screenX != mouseX || e.screenY != mouseY {
        return;
      }
      if |hits| > 0 {
        ghost var start := scene;
        var hit := hits[0];
        FadeOutAll();
        SameShapeSym(scene, start);
        SameShapePaths(start, scene, hit);
        WalkAllData(start, FadeOut, hit);
        var first := At(scene, hit);
        if first.data.kind == Some(GROUND) {
          FadeInAndDeselect();
          return;
        }
        if first.data.kind == Some(AREA) {
          ghost var faded := scene;
          FadeInAndDeselect();
          SameShapeTrans(scene, faded, start);
          SameShapeSym(scene, start);
          SameShapePaths(start, scene, hit);
          HandleAreaObj(hit);
          return;
        }
        threw, notified := HandleSelectedObj(hit);
      }
    }

    /** `remenberXY` (map.ts:543-550): a left mouse press records where it happened. */
    method RememberXY(e: Event)
      modifies this`mouseX, this`mouseY
      ensures e.Mouse? && e.button == 0 ==> mouseX == e.screenX && mouseY == e.screenY
      ensures !(e.Mouse? && e.button == 0) ==> mouseX == old(mouseX) && mouseY == old(mouseY)
    {
      if !e.Mouse? || e.button != 0 {
        return;
      }
      mouseX := e.screenX;
      mouseY := e.screenY;
    }

    /** `handleAreaObj` (map.ts:614-646) on the object at `p`: for a named area, hide
        its label when it is shown and show one otherwise; anything else is left alone. */
    method HandleAreaObj(p: seq<nat>)
      requires ValidPath(scene, p)
      modifies this`scene, this`nextId
      ensures !(p != [] && NamedArea(At(old(scene), p))) ==> scene == old(scene) && nextId == old(nextId)
      ensures p != [] && NamedArea(At(old(scene), p)) && At(old(scene), p).data.showName ==>
        scene == HideLabel(old(scene), p) && nextId == old(nextId)
      ensures p != [] && NamedArea(At(old(scene), p)) && !At(old(scene), p).data.showName ==>
        scene == ShowLabel(old(scene), p, old(nextId)) && nextId == old(nextId) + 1
      ensures scene == AreaToggled(old(scene), p, old(nextId))
    {
      if p == [] {
        // the scene itself has no user data
        return;
      }
      var obj := At(scene, p);
      if obj.data.kind != Some(AREA) {
        return;
      }
      if !TruthyString(obj.data.name) {
        return;
      }
      if obj.data.showName {
        scene := Replace(scene, p, obj.(data := obj.data.(showName := false)));
        scene := scene.(children := RemoveChild(scene.children, obj.data.nameMesh));
      } else {
        var points := LabelObject(nextId);
        nextId := nextId + 1;
        AppendKeepsPath(scene, points, p);
        scene := scene.(children := scene.children + [points]);
        scene := Replace(scene, p, obj.(data := obj.data.(showName := true, nameMesh := Some(points.id))));
      }
    }

    /** `updateLabels` (map.ts:846-850): `handleAreaObj` on each child of the scene, in a
        `forEach` whose length is fixed when it starts while the handler adds and
        removes children. When no area shows its label, every named area among the
        children shows one afterwards, and nothing else changes among them. */
    method UpdateLabels()
      modifies this`scene, this`nextId
      ensures (forall j :: 0 <= j < |old(scene).children| ==> !old(scene).children[j].data.showName) ==>
        |scene.children| >= |old(scene).children| &&
        forall j :: 0 <= j < |old(scene).children| ==>
          scene.children[j].data.showName == NamedArea(old(scene).children[j]) &&
          scene.children[j].id == old(scene).children[j].id &&
          scene.children[j].kind == old(scene).children[j].kind
      ensures NoneShown(old(scene)) ==> LabelsShown(old(scene), scene)
    {
      var len := |scene.children|;
      ghost var noneShown := forall j :: 0 <= j < len ==> !scene.children[j].data.showName;
      var k := 0;
      while k < len
        invariant 0 <= k <= len == |old(scene).children|
        invariant noneShown ==> |scene.children| >= len
        invariant noneShown ==> forall j :: 0 <= j < len ==>
          scene.children[j].id == old(scene).children[j].id &&
          scene.children[j].kind == old(scene).children[j].kind &&
          scene.children[j].data == (if j < k && NamedArea(old(scene).children[j])
            then old(scene).children[j].data.(showName := true, nameMesh := scene.children[j].data.nameMesh)
            else old(scene).children[j].data)
      {
        if k < |scene.children| {
          ghost var before := scene;
          assert [k][1..] == [] && [k][0] == k;
          assert ValidPath(scene.children[k], []);
          assert ValidPath(scene, [k]);
          assert At(scene, [k]) == scene.children[k];
          HandleAreaObj([k]);
          if noneShown {
            assert At(before, [k]) == before.children[k];
            forall j | 0 <= j < len
              ensures scene.children[j] == (if j == k then At(scene, [k]) else before.children[j])
            {
              if j != k && NamedArea(before.children[k]) {
                ReplaceElsewhere(before.(children := before.children + [LabelObject(nextId - 1)]), [k],
                                 At(scene, [k]), [j]);
              }
            }
          }
        }
        k := k + 1;
      }
    }

    /** The camera's `change` handler (map.ts:122-131): the labels are shown while the
        camera is at or below the critical height and hidden above it, and are
        toggled only when that flag flips. */
    method OnCameraChange(cameraY: real)
      modifies this`config, this`scene, this`nextId
      ensures config == old(config).(isShowMeshLabel := cameraY <= old(config).criticalPoint)
      ensures old(config).isShowMeshLabel == (cameraY <= old(config).criticalPoint) ==>
        scene == old(scene) && nextId == old(nextId)
      ensures old(config).isShowMeshLabel != (cameraY <= old(config).criticalPoint) && NoneShown(old(scene)) ==>
        LabelsShown(old(scene), scene)
    {
      if cameraY <= config.criticalPoint && !config.isShowMeshLabel {
        config := config.(isShowMeshLabel := true);
        UpdateLabels();
      } else if cameraY > config.criticalPoint && config.isShowMeshLabel {
        config := config.(isShowMeshLabel := false);
        UpdateLabels();
      }
    }

    /** `drawShelfLevels` (map.ts:267-391) for `shelf`, where `points` is what
        `shape.getPoints()` returns for its outline. The first id goes to the shelf
        group and five go to each level. An outline too short for the clean-up or
        for the back pole throws in the first level, before anything is added; no
        level at all leaves the group out of the scene. The group is added as each
        level is completed, and adding it again keeps it last, so it ends up once
        at the end of the scene. */
    method DrawShelfLevels(points: seq<Position>, shelf: Shelf) returns (threw: bool)
      requires shelf.levels <= |ShelfLayout.Expanded(shelf.height, shelf.levels)|
      modifies this`scene, this`nextId
      ensures shelf.levels < 1 ==> !threw && scene == old(scene) && nextId == old(nextId) + 1
      ensures shelf.levels >= 1 && ShelfLayout.CleanOutline(points).None? ==>
        threw && scene == old(scene) && nextId == old(nextId) + 4
      ensures shelf.levels >= 1 && ShelfLayout.CleanOutline(points).Some? && !Drawable(points) ==>
        threw && scene == old(scene) && nextId == old(nextId) + 6
      ensures shelf.levels >= 1 && Drawable(points) ==>
        !threw && nextId == old(nextId) + 1 + IdsPerLevel * shelf.levels &&
        scene == old(scene).(children := old(scene).children + [ShelfGroup(old(nextId), shelf, config)])
    {
      var heightArr := ShelfLayout.HeightArray(shelf.height, shelf.levels);
      var plans := ShelfLayout.PlanLevels(heightArr, shelf.levels, config.groundHeight, config.surfaceHeight);
      assert plans == ShelfPlans(shelf, config);
      var groupId := nextId;
      var levelGroups;
      threw, nextId, levelGroups := LevelLoop(points, plans, groupId);
      if !threw && shelf.levels >= 1 {
        scene := scene.(children := scene.children + [Object3D(groupId, Group(Some(ShelfStyle)), ShelfData(shelf), Some(0.0), levelGroups)]);
      }
    }

    /** `drawShelf` (map.ts:233-263) of a feature, `getPoints` standing for
        `shape.getPoints()` of the shape built from its rings. A shelf polygon is
        merged over the class defaults and its levels drawn; any other feature is
        skipped, and a collection nested in a collection, which this model gives no
        `features` of its own, throws. */
    method DrawShelf(f: Feature, getPoints: seq<Position> -> seq<Position>) returns (threw: bool)
      requires ShelfFits(f)
      modifies this`scene, this`nextId
      ensures threw <==> ShelfThrows(f, getPoints)
      ensures ShelfDrawn(f, getPoints) ==>
        scene == old(scene).(children := old(scene).children + [ShelfGroup(old(nextId), ShelfOf(f), config)])
      ensures !ShelfDrawn(f, getPoints) ==> scene == old(scene)
      ensures Grown(old(scene), scene, SHELF, if ShelfDrawn(f, getPoints) then 1 else 0)
      ensures nextId >= old(nextId)
    {
      threw := false;
      if f.kind == "FeatureCollection" {
        // `collection.features` of a Feature is undefined
        threw := true;
        return;
      }
      if !ShelfPolygon(f) {
        return;
      }
      var shelf := ShelfOf(f);
      var vectors := ShelfLayout.FlattenRings(f.geometry.value.rings);
      threw := DrawShelfLevels(getPoints(vectors), shelf);
      assert scene.children[..|old(scene).children|] == old(scene).children;
    }

    /** The collection branch of `drawShelf` (map.ts:257-262): a collection without
        `features` throws, and any other document that is not a collection is
        skipped. */
    method DrawShelves(doc: Document, getPoints: seq<Position> -> seq<Position>) returns (threw: bool)
      requires doc.features.Some? ==> forall i :: 0 <= i < |doc.features.value| ==> ShelfFits(doc.features.value[i])
      modifies this`scene, this`nextId
      ensures doc.kind != "FeatureCollection" ==> !threw && scene == old(scene) && nextId == old(nextId)
      ensures doc.kind == "FeatureCollection" && doc.features.None? ==> threw && scene == old(scene) && nextId == old(nextId)
      ensures doc.kind == "FeatureCollection" && doc.features.Some? ==>
        (threw <==> exists i :: 0 <= i < |doc.features.value| && ShelfThrows(doc.features.value[i], getPoints)) &&
        (!threw ==> Grown(old(scene), scene, SHELF, ShelvesDrawn(doc.features.value, getPoints)))
    {
      threw := false;
      if doc.kind != "FeatureCollection" {
        return;
      }
      if doc.features.None? {
        // `forEach` of undefined
        threw := true;
        return;
      }
      threw := DrawShelfFeatures(doc.features.value, getPoints);
    }

    /** The `forEach` of the collection branch of `drawShelf`: the features are drawn
        in order until one throws, so the scene only gains shelf groups at its end,
        one for every shelf drawn. */
    method DrawShelfFeatures(features: seq<Feature>, getPoints: seq<Position> -> seq<Position>) returns (threw: bool)
      requires forall i :: 0 <= i < |features| ==> ShelfFits(features[i])
      modifies this`scene, this`nextId
      ensures threw <==> exists i :: 0 <= i < |features| && ShelfThrows(features[i], getPoints)
      ensures !threw ==> Grown(old(scene), scene, SHELF, ShelvesDrawn(features, getPoints))
    {
      threw := false;
      ghost var start := scene;
      var i := 0;
      assert Grown(start, scene, SHELF, 0);
      while i < |features|
        invariant 0 <= i <= |features|
        invariant Grown(start, scene, SHELF, ShelvesDrawn(features[..i], getPoints))
        invariant forall j :: 0 <= j < i ==> !ShelfThrows(features[j], getPoints)
      {
        ghost var before := scene;
        threw := DrawShelf(features[i], getPoints);
        ShelvesStep(start, before, scene, features, i, getPoints);
        if threw {
          return;
        }
        i := i + 1;
      }
      assert features[..i] == features;
    }

    /** `drawStack` (map.ts:397-468) of a feature. A stack feature whose shelf is not
        among the scene's children is skipped; otherwise its height comes from the
        fallback chain, which throws when it has to read the height of a shelf that
        records none, and a Polygon gets a stack mesh at the y of the levels below. */
    method DrawStack(f: Feature) returns (threw: bool)
      modifies this`scene, this`nextId
      ensures threw <==> StackThrows(f, old(scene).children)
      ensures StackDrawn(f, old(scene).children) ==>
        var shelf := old(scene).children[Target(old(scene).children, f.properties.value.shelfId, SHELF).value];
        nextId == old(nextId) + 1 &&
        scene == old(scene).(children := old(scene).children + [StackFor(old(nextId), f, shelf, config)])
      ensures !StackDrawn(f, old(scene).children) ==> scene == old(scene) && nextId == old(nextId)
      ensures Grown(old(scene), scene, STACK, if StackDrawn(f, old(scene).children) then 1 else 0)
    {
      threw := false;
      if f.kind == "FeatureCollection" {
        // `collection.features` of a Feature is undefined
        threw := true;
        return;
      }
      if !StackFeature(f) {
        return;
      }
      var p := f.properties.value;
      var t := Target(scene.children, p.shelfId, SHELF);
      if t.None? {
        // the shelf is not drawn: a warning, and no stack
        return;
      }
      var shelf := scene.children[t.value];
      if !ShelfLayout.TruthyHeight(p.height) && shelf.data.height.None? {
        // `shelf.userData.height[stack.shelfLevel - 1]` of undefined
        threw := true;
        return;
      }
      if f.geometry.None? || f.geometry.value.kind != "Polygon" {
        return;
      }
      var stack := StackMesh(nextId, f, shelf, config);
      scene := scene.(children := scene.children + [stack]);
      nextId := nextId + 1;
      assert scene.children[..|old(scene).children|] == old(scene).children;
    }

    /** The collection branch of `drawStack` (map.ts:463-467): a collection without
        `features` throws, and any other document that is not a collection is
        skipped. */
    method DrawStacks(doc: Document) returns (threw: bool)
      modifies this`scene, this`nextId
      ensures doc.kind != "FeatureCollection" ==> !threw && scene == old(scene) && nextId == old(nextId)
      ensures doc.kind == "FeatureCollection" && doc.features.None? ==> threw && scene == old(scene) && nextId == old(nextId)
      ensures doc.kind == "FeatureCollection" && doc.features.Some? ==>
        (threw <==> exists i :: 0 <= i < |doc.features.value| && StackThrows(doc.features.value[i], old(scene).children)) &&
        (!threw ==> Grown(old(scene), scene, STACK, StacksDrawn(doc.features.value, old(scene).children)))
    {
      threw := false;
      if doc.kind != "FeatureCollection" {
        return;
      }
      if doc.features.None? {
        // `forEach` of undefined
        threw := true;
        return;
      }
      threw := DrawStackFeatures(doc.features.value);
    }

    /** The `forEach` of the collection branch of `drawStack`: the features are drawn
        in order until one throws. Stacks are not shelves, so every feature finds the
        shelves the scene had at the start; the scene gains one stack per stack
        drawn, at its end. */
    method DrawStackFeatures(features: seq<Feature>) returns (threw: bool)
      modifies this`scene, this`nextId
      ensures threw <==> exists i :: 0 <= i < |features| && StackThrows(features[i], old(scene).children)
      ensures !threw ==> Grown(old(scene), scene, STACK, StacksDrawn(features, old(scene).children))
    {
      threw := false;
      ghost var start := scene;
      var i := 0;
      assert Grown(start, scene, STACK, 0);
      while i < |features|
        invariant 0 <= i <= |features|
        invariant Grown(start, scene, STACK, StacksDrawn(features[..i], start.children))
        invariant forall j :: 0 <= j < i ==> !StackThrows(features[j], start.children)
      {
        ghost var before := scene;
        GrownByStacks(start, before, StacksDrawn(features[..i], start.children), features[i]);
        threw := DrawStack(features[i]);
        StacksStep(start, before, scene, features, i);
        if threw {
          return;
        }
        i := i + 1;
      }
      assert features[..i] == features;
    }
  }
}
