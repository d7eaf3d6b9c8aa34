/** The three.js scene graph as the map builds and restyles it. Every object keeps
    its three.js `id`, which stands for object identity (`===`); `children` are its
    children in order. The walks of `Map` (`fadeIn`, `fadeOut`, `reset`) and its
    lookups (`target`, the `find`/`filter` calls) are functions on this tree. */
module Scene {
  import opened Wrappers
  import opened Seqs
  import opened GeoJson
  import opened Model

  /** A mesh's live material: its colour and its opacity (undefined once a reset has
      copied a missing recorded opacity into it). */
  datatype Material = Material(color: Color, opacity: Option<real>)

  /** What an object is (`obj.type`, or its class): the scene itself, a mesh with its
      material and the style recorded in `userData.material`, a group with the style
      recorded in its `userData.material` (a level group has none), a light, the
      axes helper, a label (`Points`), or anything else (the grid, say). */
  datatype Kind =
    | SceneRoot
    | Mesh(material: Material, recorded: Style)
    | Group(style: Option<Style>)
    | DirectionalLight
    | AxesHelper
    | Points
    | OtherObject

  /** The members of `userData` the map reads or writes; `None` is undefined.
      `key` is `userData.id`, `kind` is `userData.type`, `nameMesh` is the id of the
      label shown for an area, `coordY` is `userData.coordinate.y`. */
  datatype UserData = UserData(
    kind: Option<string>,
    key: Option<string>,
    name: Option<string>,
    showName: bool,
    nameMesh: Option<nat>,
    level: Option<int>,
    coordY: Option<real>,
    shelfId: Option<string>,
    shelfLevel: Option<int>,
    height: Option<HeightSpec>)

  const NoData: UserData := UserData(None, None, None, false, None, None, None, None, None, None)

  /** An object with its id, kind, user data, y position (`None` is NaN) and children. */
  datatype Object3D = Object3D(id: nat, kind: Kind, data: UserData, y: Option<real>, children: seq<Object3D>)

  // ----- Paths -----

  /** `p` leads from `o` to a descendant, one child index per step. */
  predicate ValidPath(o: Object3D, p: seq<nat>)
    decreases |p|
  {
    p == [] || (p[0] < |o.children| && ValidPath(o.children[p[0]], p[1..]))
  }

  /** The object `p` leads to. */
  function At(o: Object3D, p: seq<nat>): Object3D
    requires ValidPath(o, p)
    decreases |p|
  {
    if p == [] then o else At(o.children[p[0]], p[1..])
  }

  /** Every object strictly above the end of `p` is a group: a walk from `o` reaches it. */
  predicate ThroughGroups(o: Object3D, p: seq<nat>)
    requires ValidPath(o, p)
    decreases |p|
  {
    p == [] || (o.kind.Group? && ThroughGroups(o.children[p[0]], p[1..]))
  }

  /** `a` and `b` have the same tree of children, and their objects are meshes and
      groups in the same places: the same paths lead somewhere in both, and an
      `instanceof` test gives the same answer on both. */
  predicate SameShape(a: Object3D, b: Object3D)
    decreases a
  {
    a.kind.Mesh? == b.kind.Mesh? && a.kind.Group? == b.kind.Group? &&
    |a.children| == |b.children| &&
    forall i :: 0 <= i < |a.children| ==> SameShape(a.children[i], b.children[i])
  }

  lemma {:induction false} SameShapeRefl(a: Object3D)
    ensures SameShape(a, a)
    decreases a
  {
    forall i | 0 <= i < |a.children| ensures SameShape(a.children[i], a.children[i]) {
      SameShapeRefl(a.children[i]);
    }
  }

  lemma {:induction false} SameShapeTrans(a: Object3D, b: Object3D, c: Object3D)
    requires SameShape(a, b) && SameShape(b, c)
    ensures SameShape(a, c)
    decreases a
  {
    forall i | 0 <= i < |a.children| ensures SameShape(a.children[i], c.children[i]) {
      SameShapeTrans(a.children[i], b.children[i], c.children[i]);
    }
  }

  lemma {:induction false} SameShapeSym(a: Object3D, b: Object3D)
    requires SameShape(a, b)
    ensures SameShape(b, a)
    decreases a
  {
    forall i | 0 <= i < |b.children| ensures SameShape(b.children[i], a.children[i]) {
      SameShapeSym(a.children[i], b.children[i]);
    }
  }

  /** A mesh given another material or record keeps its shape. */
  lemma RestyledSameShape(o: Object3D, k: Kind)
    requires o.kind.Mesh? && k.Mesh?
    ensures SameShape(o.(kind := k), o)
  {
    forall i | 0 <= i < |o.children| ensures SameShape(o.children[i], o.children[i]) {
      SameShapeRefl(o.children[i]);
    }
  }

  /** Objects of the same shape have the same paths, and the objects those paths lead
      to have the same shape. */
  lemma {:induction false} SameShapePaths(a: Object3D, b: Object3D, p: seq<nat>)
    requires SameShape(a, b) && ValidPath(a, p)
    ensures ValidPath(b, p) && SameShape(At(a, p), At(b, p))
    decreases |p|
  {
    if p != [] {
      SameShapePaths(a.children[p[0]], b.children[p[0]], p[1..]);
    }
  }

  /** A prefix of a path is a path, and the rest of the path leads on from where it ends. */
  lemma {:induction false} PathPrefix(o: Object3D, p: seq<nat>, k: nat)
    requires ValidPath(o, p) && k <= |p|
    ensures ValidPath(o, p[..k]) && ValidPath(At(o, p[..k]), p[k..])
    ensures At(At(o, p[..k]), p[k..]) == At(o, p)
    decreases |p|
  {
    if k > 0 {
      assert p[..k][1..] == p[1..][..k - 1];
      assert p[k..] == p[1..][k - 1..];
      PathPrefix(o.children[p[0]], p[1..], k - 1);
    }
  }

  /** A path extended by the index of a child of the object it leads to is a path to
      that child. */
  lemma {:induction false} PathExtend(o: Object3D, p: seq<nat>, i: nat)
    requires ValidPath(o, p) && i < |At(o, p).children|
    ensures ValidPath(o, p + [i]) && At(o, p + [i]) == At(o, p).children[i]
    decreases |p|
  {
    if p == [] {
      assert [i][1..] == [];
    } else {
      assert (p + [i])[1..] == p[1..] + [i];
      PathExtend(o.children[p[0]], p[1..], i);
    }
  }

  // ----- Restyling one mesh -----

  /** What `reset` restores: the colour, the opacity, or both (no mode given). */
  datatype ResetMode = ColorOnly | OpacityOnly | ColorAndOpacity

  /** The three restyling walks of the map. */
  datatype Visual = FadeOut | FadeIn | Reset(mode: ResetMode)

  /** The opacity of a faded-out mesh. */
  const FadedOpacity: real := 0.1
  /** The opacity `fadeIn` falls back to when none is recorded. */
  const FadeInDefault: real := 0.7

  /** What one walk does to one mesh's material and recorded style:
      `fadeOut` records the current opacity when no truthy one is recorded and dims
      the mesh to 0.1; `fadeIn` sets the recorded opacity, or 0.7; `reset` copies the
      recorded colour (white when there is none) and/or the recorded opacity. */
  function Restyle(v: Visual, m: Material, s: Style): (r: (Material, Style))
    ensures v != FadeOut ==> r.1 == s
    ensures v == FadeOut ==> r.0 == m.(opacity := Some(FadedOpacity)) && r.1.color == s.color
    ensures v == FadeOut ==> (Truthy(s.opacity) ==> r.1 == s) && (!Truthy(s.opacity) ==> r.1.opacity == m.opacity)
    ensures v == FadeIn ==> r.0.color == m.color && Truthy(r.0.opacity)
    ensures v == FadeIn && Truthy(s.opacity) ==> r.0.opacity == s.opacity
    ensures v == FadeIn && !Truthy(s.opacity) ==> r.0.opacity == Some(FadeInDefault)
    ensures v.Reset? && v.mode != OpacityOnly ==> r.0.color == s.color.GetOr(White)
    ensures v.Reset? && v.mode != ColorOnly ==> r.0.opacity == s.opacity
    ensures v == Reset(ColorOnly) ==> r.0.opacity == m.opacity
    ensures v == Reset(OpacityOnly) ==> r.0.color == m.color
  {
    match v
    case FadeOut =>
      (m.(opacity := Some(FadedOpacity)), if Truthy(s.opacity) then s else s.(opacity := m.opacity))
    case FadeIn =>
      (m.(opacity := Some(if Truthy(s.opacity) then s.opacity.value else FadeInDefault)), s)
    case Reset(ColorOnly) =>
      (m.(color := s.color.GetOr(White)), s)
    case Reset(OpacityOnly) =>
      (m.(opacity := s.opacity), s)
    case Reset(ColorAndOpacity) =>
      (Material(s.color.GetOr(White), s.opacity), s)
  }

  // ----- Walks -----

  /** `fadeOut(obj)`, `fadeIn(obj)` and `reset(obj, mode)`: a mesh is restyled, a group
      passes the walk on to each of its children, anything else is left as it is. */
  function Walk(o: Object3D, v: Visual): (r: Object3D)
    ensures SameShape(r, o)
    ensures r.id == o.id && r.data == o.data && r.y == o.y
    ensures !o.kind.Mesh? ==> r.kind == o.kind
    ensures o.kind.Mesh? ==> r.kind.Mesh? && r.children == o.children
    decreases o
  {
    match o.kind
    case Mesh(m, s) =>
      var ms := Restyle(v, m, s);
      SameShapeRefl(o);
      o.(kind := Mesh(ms.0, ms.1))
    case Group(_) =>
      o.(children := WalkEach(o.children, v, o))
    case _ =>
      SameShapeRefl(o);
      o
  }

  /** `Walk` applied to each object of `os`, children of `parent`. */
  function WalkEach(os: seq<Object3D>, v: Visual, ghost parent: Object3D): (r: seq<Object3D>)
    requires forall i :: 0 <= i < |os| ==> os[i] < parent
    ensures |r| == |os|
    ensures forall i :: 0 <= i < |os| ==> r[i] == Walk(os[i], v)
    decreases parent, |os|
  {
    if os == [] then [] else [Walk(os[0], v)] + WalkEach(os[1..], v, parent)
  }

  /** The object a walk from `o` leaves at `p`: the walk of the original object there
      when the walk reaches it through groups, and the original object otherwise.
      So a walk restyles exactly the meshes reachable through groups, and changes
      nothing else. */
  lemma {:induction false} WalkAt(o: Object3D, v: Visual, p: seq<nat>)
    requires ValidPath(o, p)
    ensures ValidPath(Walk(o, v), p)
    ensures ThroughGroups(Walk(o, v), p) <==> ThroughGroups(o, p)
    ensures ThroughGroups(o, p) ==> At(Walk(o, v), p) == Walk(At(o, p), v)
    ensures !ThroughGroups(o, p) ==> At(Walk(o, v), p) == At(o, p)
    decreases |p|
  {
    if p != [] {
      var c := o.children[p[0]];
      if o.kind.Group? {
        assert Walk(o, v).children[p[0]] == Walk(c, v);
        WalkAt(c, v, p[1..]);
      } else {
        assert Walk(o, v).children == o.children;
      }
    }
  }

  /** `fadeInAll`, `fadeOutAll`: the walk applied to every child of the scene. */
  function WalkAll(root: Object3D, v: Visual): (r: Object3D)
    ensures SameShape(r, root)
    ensures r == root.(children := r.children)
    ensures forall i :: 0 <= i < |root.children| ==> r.children[i] == Walk(root.children[i], v)
  {
    var r := root.(children := WalkEach(root.children, v, root));
    assert SameShape(r, root);
    r
  }

  /** Walking the scene's children changes no object's user data. */
  lemma WalkAllData(root: Object3D, v: Visual, p: seq<nat>)
    requires ValidPath(root, p) && p != []
    ensures ValidPath(WalkAll(root, v), p) && At(WalkAll(root, v), p).data == At(root, p).data
  {
    var c := root.children[p[0]];
    WalkAt(c, v, p[1..]);
  }

  /** Restoring the colour and then the opacity of a tree is restoring both at once. */
  lemma {:induction false} ResetColorThenOpacity(o: Object3D)
    ensures Walk(Walk(o, Reset(ColorOnly)), Reset(OpacityOnly)) == Walk(o, Reset(ColorAndOpacity))
    decreases o
  {
    if o.kind.Group? {
      var a := Walk(Walk(o, Reset(ColorOnly)), Reset(OpacityOnly)).children;
      var b := Walk(o, Reset(ColorAndOpacity)).children;
      forall i | 0 <= i < |o.children| ensures a[i] == b[i] {
        ResetColorThenOpacity(o.children[i]);
      }
    }
  }

  /** Resetting twice in the same mode is resetting once. */
  lemma {:induction false} ResetIdempotent(o: Object3D, mode: ResetMode)
    ensures Walk(Walk(o, Reset(mode)), Reset(mode)) == Walk(o, Reset(mode))
    decreases o
  {
    if o.kind.Group? {
      var a := Walk(Walk(o, Reset(mode)), Reset(mode)).children;
      var b := Walk(o, Reset(mode)).children;
      forall i | 0 <= i < |o.children| ensures a[i] == b[i] {
        ResetIdempotent(o.children[i], mode);
      }
    }
  }

  /** Fading a tree out and back in gives every mesh the walk reaches its colour back,
      and its opacity back whenever that or the recorded one was truthy: the recorded
      opacity when it was truthy, else the mesh's own, else 0.7. */
  lemma FadeInAfterFadeOut(o: Object3D, p: seq<nat>)
    requires ValidPath(o, p) && ThroughGroups(o, p) && At(o, p).kind.Mesh?
    ensures ValidPath(Walk(Walk(o, FadeOut), FadeIn), p)
    ensures At(Walk(Walk(o, FadeOut), FadeIn), p).kind.Mesh?
    ensures var m := At(o, p).kind.material;
      var s := At(o, p).kind.recorded;
      At(Walk(Walk(o, FadeOut), FadeIn), p).kind.material
        == m.(opacity := if Truthy(s.opacity) then s.opacity
                         else if Truthy(m.opacity) then m.opacity
                         else Some(FadeInDefault))
  {
    WalkAt(o, FadeOut, p);
    WalkAt(Walk(o, FadeOut), FadeIn, p);
  }

  // ----- Objects held by reference -----

  /** `o` or one of its descendants has id `id`. */
  predicate Contains(o: Object3D, id: nat)
    decreases o
  {
    o.id == id || exists i :: 0 <= i < |o.children| && Contains(o.children[i], id)
  }

  /** A walk started at the object the map holds a reference to (`reset(this.selectedMesh)`):
      the walk is applied where the object with that id sits in the tree. */
  function WalkById(o: Object3D, id: nat, v: Visual): (r: Object3D)
    ensures SameShape(r, o)
    ensures r.id == o.id && r.data == o.data && r.y == o.y
    ensures o.id == id ==> r == Walk(o, v)
    decreases o
  {
    if o.id == id then Walk(o, v)
    else o.(children := WalkByIdEach(o.children, id, v, o))
  }

  function WalkByIdEach(os: seq<Object3D>, id: nat, v: Visual, ghost parent: Object3D): (r: seq<Object3D>)
    requires forall i :: 0 <= i < |os| ==> os[i] < parent
    ensures |r| == |os|
    ensures forall i :: 0 <= i < |os| ==> r[i] == WalkById(os[i], id, v)
    decreases parent, |os|
  {
    if os == [] then [] else [WalkById(os[0], id, v)] + WalkByIdEach(os[1..], id, v, parent)
  }

  /** A tree without the object leaves the tree unchanged: resetting an object that
      is no longer in the scene changes nothing visible. */
  lemma {:induction false} WalkByIdAbsent(o: Object3D, id: nat, v: Visual)
    requires !Contains(o, id)
    ensures WalkById(o, id, v) == o
    decreases o
  {
    var r := WalkById(o, id, v);
    forall i | 0 <= i < |o.children| ensures r.children[i] == o.children[i] {
      WalkByIdAbsent(o.children[i], id, v);
    }
  }

  /** No object strictly above the end of `p` has id `id`. */
  predicate AvoidsAbove(o: Object3D, p: seq<nat>, id: nat)
    requires ValidPath(o, p)
    decreases |p|
  {
    p == [] || (o.id != id && AvoidsAbove(o.children[p[0]], p[1..], id))
  }

  /** The object with the id, reached along a path with no other object of that id
      above it, is walked as a whole. */
  lemma {:induction false} WalkByIdAt(o: Object3D, id: nat, v: Visual, p: seq<nat>)
    requires ValidPath(o, p) && AvoidsAbove(o, p, id) && At(o, p).id == id
    ensures ValidPath(WalkById(o, id, v), p)
    ensures At(WalkById(o, id, v), p) == Walk(At(o, p), v)
    decreases |p|
  {
    if p != [] {
      WalkByIdAt(o.children[p[0]], id, v, p[1..]);
    }
  }

  /** Walking by id keeps, at every path, the identity and the user data of the
      object found there. */
  lemma {:induction false} WalkByIdKeepsIdentity(o: Object3D, id: nat, v: Visual, p: seq<nat>)
    requires ValidPath(o, p)
    ensures ValidPath(WalkById(o, id, v), p)
    ensures At(WalkById(o, id, v), p).id == At(o, p).id
    ensures At(WalkById(o, id, v), p).data == At(o, p).data
    decreases |p|
  {
    SameShapeSym(WalkById(o, id, v), o);
    SameShapePaths(o, WalkById(o, id, v), p);
    if p != [] && o.id != id {
      WalkByIdKeepsIdentity(o.children[p[0]], id, v, p[1..]);
    } else if p != [] {
      WalkAt(o, v, p);
    }
  }

  /** A walk keeps the ids in a tree. */
  lemma {:induction false} WalkContains(o: Object3D, v: Visual, id: nat)
    ensures Contains(Walk(o, v), id) == Contains(o, id)
    decreases o
  {
    if o.kind.Group? {
      var r := Walk(o, v);
      forall i | 0 <= i < |o.children| ensures Contains(r.children[i], id) == Contains(o.children[i], id) {
        WalkContains(o.children[i], v, id);
      }
    }
  }

  /** A walk keeps the ids on the way to every object. */
  lemma {:induction false} WalkAvoids(o: Object3D, v: Visual, p: seq<nat>, id: nat)
    requires ValidPath(o, p)
    ensures ValidPath(Walk(o, v), p) && AvoidsAbove(Walk(o, v), p, id) == AvoidsAbove(o, p, id)
    decreases |p|
  {
    WalkAt(o, v, p);
    if p != [] && o.kind.Group? {
      assert Walk(o, v).children[p[0]] == Walk(o.children[p[0]], v);
      WalkAvoids(o.children[p[0]], v, p[1..], id);
    }
  }

  /** A walk by id keeps the ids on the way to every object. */
  lemma {:induction false} WalkByIdAvoids(o: Object3D, target: nat, v: Visual, p: seq<nat>, id: nat)
    requires ValidPath(o, p)
    ensures ValidPath(WalkById(o, target, v), p) && AvoidsAbove(WalkById(o, target, v), p, id) == AvoidsAbove(o, p, id)
    decreases |p|
  {
    WalkByIdKeepsIdentity(o, target, v, p);
    if o.id == target {
      WalkAvoids(o, v, p, id);
    } else if p != [] {
      WalkByIdAvoids(o.children[p[0]], target, v, p[1..], id);
    }
  }

  /** A walk by id leaves alone an object that neither holds the id nor lies below it. */
  lemma {:induction false} WalkByIdUntouched(o: Object3D, id: nat, v: Visual, p: seq<nat>)
    requires ValidPath(o, p) && AvoidsAbove(o, p, id) && !Contains(At(o, p), id)
    ensures ValidPath(WalkById(o, id, v), p) && At(WalkById(o, id, v), p) == At(o, p)
    decreases |p|
  {
    if p == [] {
      WalkByIdAbsent(o, id, v);
    } else {
      WalkByIdUntouched(o.children[p[0]], id, v, p[1..]);
    }
  }

  // ----- Changing the object at a path -----

  /** The tree with the object at `p` replaced by `n`. */
  function Replace(o: Object3D, p: seq<nat>, n: Object3D): (r: Object3D)
    requires ValidPath(o, p)
    ensures ValidPath(r, p) && At(r, p) == n
    ensures p != [] ==> r.id == o.id && r.kind == o.kind && r.data == o.data && r.y == o.y && |r.children| == |o.children|
    decreases |p|
  {
    if p == [] then n
    else o.(children := o.children[p[0] := Replace(o.children[p[0]], p[1..], n)])
  }

  /** Replacing an object by one of the same shape keeps the shape of the tree. */
  lemma {:induction false} ReplaceShape(o: Object3D, p: seq<nat>, n: Object3D)
    requires ValidPath(o, p) && SameShape(n, At(o, p))
    ensures SameShape(Replace(o, p, n), o)
    decreases |p|
  {
    if p == [] {
    } else {
      var r := Replace(o, p, n);
      forall i | 0 <= i < |o.children| ensures SameShape(r.children[i], o.children[i]) {
        if i == p[0] {
          ReplaceShape(o.children[i], p[1..], n);
        } else {
          SameShapeRefl(o.children[i]);
        }
      }
    }
  }

  /** A path that leaves `p` before reaching its end, and does not end on its way,
      leads to the same object after the replacement: nothing else changes. */
  lemma {:induction false} ReplaceElsewhere(o: Object3D, p: seq<nat>, n: Object3D, q: seq<nat>)
    requires ValidPath(o, p) && ValidPath(o, q)
    requires exists k :: 0 <= k < |p| && k < |q| && p[k] != q[k]
    ensures ValidPath(Replace(o, p, n), q) && At(Replace(o, p, n), q) == At(o, q)
    decreases |p|
  {
    var k :| 0 <= k < |p| && k < |q| && p[k] != q[k];
    if p[0] != q[0] {
    } else {
      assert p[1..][k - 1] != q[1..][k - 1];
      ReplaceElsewhere(o.children[p[0]], p[1..], n, q[1..]);
    }
  }

  // ----- Lookups among the scene's children -----

  /** `obj.userData.id === key && obj.userData.type === kind`. */
  predicate Matches(o: Object3D, key: Option<string>, kind: string) {
    o.data.key == key && o.data.kind == Some(kind)
  }

  /** `target(id, type)`: the position of the first child of the scene whose
      `userData.id` is `key` and whose `userData.type` is `kind`, if there is one. */
  function Target(cs: seq<Object3D>, key: Option<string>, kind: string): (r: Option<nat>)
    ensures r.Some? ==> r.value < |cs| && Matches(cs[r.value], key, kind)
    ensures r.Some? ==> forall j :: 0 <= j < r.value ==> !Matches(cs[j], key, kind)
    ensures r.None? <==> forall j :: 0 <= j < |cs| ==> !Matches(cs[j], key, kind)
  {
    if cs == [] then None
    else if Matches(cs[0], key, kind) then Some(0)
    else
      var rest := Target(cs[1..], key, kind);
      if rest.Some? then Some(rest.value + 1) else None
  }

  /** The children `clearObj` keeps: the directional lights and the axes helper. */
  predicate Stable(o: Object3D) {
    o.kind == DirectionalLight || o.kind == AxesHelper
  }

  /** Clearing a cleared scene keeps it as it is. */
  lemma ClearTwice(cs: seq<Object3D>)
    ensures Filter(Filter(cs, Stable), Stable) == Filter(cs, Stable)
  {
    FilterIdempotent(cs, Stable);
  }

  /** The position of the first object with id `id` in `cs`. */
  function IndexOf(cs: seq<Object3D>, id: nat): (r: Option<nat>)
    ensures r.Some? ==> r.value < |cs| && cs[r.value].id == id
    ensures r.Some? ==> forall j :: 0 <= j < r.value ==> cs[j].id != id
    ensures r.None? <==> forall j :: 0 <= j < |cs| ==> cs[j].id != id
  {
    if cs == [] then None
    else if cs[0].id == id then Some(0)
    else
      var rest := IndexOf(cs[1..], id);
      if rest.Some? then Some(rest.value + 1) else None
  }

  /** `scene.remove(obj)`: the first child that is `obj` is taken out; an object that is
      not a child (or undefined) leaves the children as they are. */
  function RemoveChild(cs: seq<Object3D>, id: Option<nat>): (r: seq<Object3D>)
    ensures id.None? || IndexOf(cs, id.value).None? ==> r == cs
    ensures id.Some? && IndexOf(cs, id.value).Some? ==>
      |r| == |cs| - 1 && multiset(r) + multiset{cs[IndexOf(cs, id.value).value]} == multiset(cs)
    // the other children keep their order
    ensures id.Some? && IndexOf(cs, id.value).Some? ==>
      r == cs[..IndexOf(cs, id.value).value] + cs[IndexOf(cs, id.value).value + 1..]
  {
    if id.None? then cs
    else match IndexOf(cs, id.value)
      case None => cs
      case Some(k) =>
        assert cs == cs[..k] + [cs[k]] + cs[k + 1..];
        cs[..k] + cs[k + 1..]
  }

  /** Removing the first child takes the front off the children. */
  lemma RemoveFirstChild(cs: seq<Object3D>)
    requires cs != []
    ensures RemoveChild(cs, Some(cs[0].id)) == cs[1..]
  {
    assert IndexOf(cs, cs[0].id) == Some(0);
  }

  /** Removing an object just added to the end, whose id no other child has, gives
      back the children as they were. */
  lemma AddThenRemove(cs: seq<Object3D>, added: Object3D)
    requires forall j :: 0 <= j < |cs| ==> cs[j].id != added.id
    ensures RemoveChild(cs + [added], Some(added.id)) == cs
  {
    var all := cs + [added];
    assert all[|cs|].id == added.id;
    assert IndexOf(all, added.id) == Some(|cs|);
    assert all[..|cs|] == cs;
  }

  // ----- Area labels -----

  /** An area with a name: the objects `handleAreaObj` shows or hides a label for. */
  predicate NamedArea(o: Object3D) {
    o.data.kind == Some(AREA) && TruthyString(o.data.name)
  }

  /** The label object (a `Points`) added for an area, with the id it is created with. */
  function LabelObject(id: nat): Object3D {
    Object3D(id, Points, NoData, Some(0.0), [])
  }

  /** Appending a child to the scene leaves every path below the scene where it was. */
  lemma AppendKeepsPath(root: Object3D, x: Object3D, p: seq<nat>)
    requires ValidPath(root, p) && p != []
    ensures ValidPath(root.(children := root.children + [x]), p)
    ensures At(root.(children := root.children + [x]), p) == At(root, p)
  {
    var r := root.(children := root.children + [x]);
    assert r.children[p[0]] == root.children[p[0]];
  }

  /** `q` leaves `p` somewhere before either ends: the objects `q` leads to are not on
      the way to the end of `p`, nor below it. */
  predicate Diverges(p: seq<nat>, q: seq<nat>) {
    exists k :: 0 <= k < |p| && k < |q| && p[k] != q[k]
  }

  /** Showing the label of the area at `p` (`handleAreaObj`, name hidden): a label with
      id `id` is added to the scene and the area records it as shown; nothing else
      changes. */
  function ShowLabel(root: Object3D, p: seq<nat>, id: nat): (r: Object3D)
    requires ValidPath(root, p) && p != []
    ensures ValidPath(r, p) && At(r, p) == At(root, p).(data := At(root, p).data.(showName := true, nameMesh := Some(id)))
    ensures |r.children| == |root.children| + 1 && r.children[|root.children|] == LabelObject(id)
    ensures r == root.(children := r.children)
    ensures forall q :: ValidPath(root, q) && Diverges(p, q) ==> ValidPath(r, q) && At(r, q) == At(root, q)
  {
    var x := LabelObject(id);
    var withLabel := root.(children := root.children + [x]);
    AppendKeepsPath(root, x, p);
    var o := At(root, p);
    var n := o.(data := o.data.(showName := true, nameMesh := Some(id)));
    var r := Replace(withLabel, p, n);
    forall q | ValidPath(root, q) && Diverges(p, q) ensures ValidPath(r, q) && At(r, q) == At(root, q) {
      AppendKeepsPath(root, x, q);
      ReplaceElsewhere(withLabel, p, n, q);
    }
    assert r.children[|root.children|] == x;
    r
  }

  /** Hiding the label of the area at `p` (`handleAreaObj`, name shown): the area records
      it as hidden and the label it recorded is removed from the scene. */
  function HideLabel(root: Object3D, p: seq<nat>): (r: Object3D)
    requires ValidPath(root, p) && p != []
    ensures |r.children| <= |root.children|
  {
    var o := At(root, p);
    var hidden := Replace(root, p, o.(data := o.data.(showName := false)));
    hidden.(children := RemoveChild(hidden.children, o.data.nameMesh))
  }

  /** Replacing twice at the same path keeps the second replacement. */
  lemma {:induction false} ReplaceTwice(o: Object3D, p: seq<nat>, n1: Object3D, n2: Object3D)
    requires ValidPath(o, p)
    ensures Replace(Replace(o, p, n1), p, n2) == Replace(o, p, n2)
    decreases |p|
  {
    if p != [] {
      ReplaceTwice(o.children[p[0]], p[1..], n1, n2);
    }
  }

  /** Showing then hiding an area's label gives the scene back, except that the area
      still records the (now removed) label as its `nameMesh`, provided the label's id
      is new to the scene's children. */
  lemma LabelRoundTrip(root: Object3D, p: seq<nat>, id: nat)
    requires ValidPath(root, p) && p != [] && !At(root, p).data.showName
    requires forall j :: 0 <= j < |root.children| ==> root.children[j].id != id
    ensures var shown := ShowLabel(root, p, id);
      HideLabel(shown, p) == Replace(root, p, At(root, p).(data := At(root, p).data.(nameMesh := Some(id))))
  {
    var o := At(root, p);
    var x := LabelObject(id);
    var withLabel := root.(children := root.children + [x]);
    AppendKeepsPath(root, x, p);
    var shownObj := o.(data := o.data.(showName := true, nameMesh := Some(id)));
    var hiddenObj := o.(data := o.data.(nameMesh := Some(id)));
    assert shownObj.(data := shownObj.data.(showName := false)) == hiddenObj;
    ReplaceTwice(withLabel, p, shownObj, hiddenObj);
    var back := Replace(root, p, hiddenObj);
    assert Replace(withLabel, p, hiddenObj).children == back.children + [x] by {
      var a := Replace(withLabel, p, hiddenObj).children;
      assert a == withLabel.children[p[0] := Replace(withLabel.children[p[0]], p[1..], hiddenObj)];
    }
    assert forall j :: 0 <= j < |back.children| ==> back.children[j].id != id by {
      forall j | 0 <= j < |back.children| ensures back.children[j].id != id {
        if j == p[0] && |p| == 1 {
        } else if j == p[0] {
          assert back.children[j] == Replace(root.children[j], p[1..], hiddenObj);
        }
      }
    }
    AddThenRemove(back.children, x);
  }
}
