/** The warehouse's records, their class defaults, the configuration and the colour
    theme (the `Warehouse`, `Shelf`, `Pole`, `Stack`, `WarehouseConfig` and
    `DefaultTheme` classes of the source). */
module Model {
  import opened Wrappers
  import opened GeoJson

  /** The values of the `Type` enum. There is no member for a shelf level: the
      source's `Type.SHELF_LEVEL` evaluates to undefined. */
  const GROUND: string := "ground"
  const AREA: string := "area"
  const SHELF: string := "shelf"
  const STACK: string := "stack"

  /** A warehouse: the features of the three collections it is parsed into. */
  datatype Warehouse = Warehouse(areas: seq<Feature>, shelves: seq<Feature>, stacks: seq<Feature>)

  /** A shelf as `drawShelfLevels` reads it: `{ ...new Shelf(), ...properties }`. */
  datatype Shelf = Shelf(
    key: Option<string>,
    levels: int,
    width: real,
    height: HeightSpec,
    direction: string,
    pole: Pole)

  const DefaultPole: Pole := Pole(5.0, 5.0, None)

  /** Default height of a stack (`Stack.height`). */
  const DefaultStackHeight: real := 15.0

  /** The class defaults of `Shelf` overridden by the members the properties give. */
  function MergeShelf(p: Properties): (s: Shelf)
    ensures s.levels == (if p.levels.Some? then p.levels.value else 5)
    ensures s.height == (if p.height.Some? then p.height.value else Uniform(20.0))
    ensures s.direction == (if p.direction.Some? then p.direction.value else "vertical")
    ensures s.width == (if p.width.Some? then p.width.value else 15.0)
    ensures s.pole == (if p.pole.Some? then p.pole.value else Pole(5.0, 5.0, None))
    ensures s.key == p.key
  {
    Shelf(p.key, p.levels.GetOr(5), p.width.GetOr(15.0), p.height.GetOr(Uniform(20.0)),
          p.direction.GetOr("vertical"), p.pole.GetOr(DefaultPole))
  }

  /** The configuration (`WarehouseConfig`). */
  datatype Config = Config(
    groundHeight: real,
    surfaceHeight: real,
    useInheritStyle: bool,
    criticalPoint: real,
    isShowMeshLabel: bool)

  const DefaultConfig: Config := Config(2.0, 1.0, true, 300.0, false)

  /** A colour as the theme writes it. */
  type Color = string

  /** A material style recorded in `userData.material`: a copy of a theme entry,
      whose members may be missing. */
  datatype Style = Style(color: Option<Color>, opacity: Option<real>)

  /** The entries of `DefaultTheme` that the core uses. */
  const SelectedColor: Color := "#69c0ff"
  const ShelfStyle: Style := Style(None, Some(1.0))
  const PoleStyle: Style := Style(Some("#bae7ff"), Some(1.0))
  const LevelStyle: Style := Style(Some("#ffd591"), Some(1.0))
  const StackStyle: Style := Style(Some("#fadb14"), Some(0.7))

  /** The colour `new THREE.Color(undefined)` yields: three.js leaves it white. */
  const White: Color := "#ffffff"
}
