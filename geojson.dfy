/** The GeoJSON objects (RFC 7946) the warehouse is described with, as already-parsed
    values: JSON text and `JSON.parse` are not part of this model. */
module GeoJson {
  import opened Wrappers

  /** A position (section 3.1.1 of RFC 7946); only its first two numbers are read. */
  datatype Position = Position(x: real, y: real)

  /** A geometry object. For a Polygon (section 3.1.6 of RFC 7946) `rings` holds the
      coordinates: the exterior ring followed by the holes. */
  datatype Geometry = Geometry(kind: string, rings: seq<seq<Position>>)

  /** `height` of a shelf: one number for every level, or one number per level. */
  datatype HeightSpec = Uniform(h: real) | PerLevel(hs: seq<real>)

  /** The `pole` member of a shelf. The source's Pole class declares `length` and
      `width`, while the drawing code reads `depth`: all three are kept, `depth`
      being undefined unless the data gives it. */
  datatype Pole = Pole(length: real, width: real, depth: Option<real>)

  /** The members of a feature's `properties` that the core reads; `None` is a
      missing member. `kind` is `properties.type`, `key` is `properties.id`. */
  datatype Properties = Properties(
    kind: Option<string>,
    key: Option<string>,
    name: Option<string>,
    levels: Option<int>,
    height: Option<HeightSpec>,
    width: Option<real>,
    direction: Option<string>,
    pole: Option<Pole>,
    shelfId: Option<string>,
    shelfLevel: Option<int>)

  /** A Feature object (section 3.2 of RFC 7946); `kind` is its `type` member. */
  datatype Feature = Feature(kind: string, geometry: Option<Geometry>, properties: Option<Properties>)

  /** The top-level object of a document: its `type` member and, when present,
      its `features` array (section 3.3 of RFC 7946). */
  datatype Document = Document(kind: string, features: Option<seq<Feature>>)

  /** `properties.type` of a feature, when it has properties. */
  function TypeOf(f: Feature): Option<string> {
    if f.properties.Some? then f.properties.value.kind else None
  }
}
