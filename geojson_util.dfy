/** `GeoJsonUtil` (src/utils/geojson.util.ts): splitting a FeatureCollection into the
    warehouse's areas, shelves and stacks. */
module GeoJsonUtil {
  import opened Wrappers
  import opened Seqs
  import opened GeoJson
  import opened Model

  /** Whether a feature has properties whose `type` is `t`. */
  predicate TypedAs(f: Feature, t: string) {
    f.properties.Some? && f.properties.value.kind == Some(t)
  }

  /** The features of type `t`, in input order. */
  function Bucket(features: seq<Feature>, t: string): seq<Feature> {
    Filter(features, f => TypedAs(f, t))
  }

  /** What `parse` returns: a warehouse, `null`, or a thrown TypeError. */
  datatype ParseResult = Parsed(warehouse: Warehouse) | Null | Threw

  /** `GeoJsonUtil.loadByUrl` (geojson.util.ts:11-13) is a stub. */
  function LoadByUrl(url: string): (r: ParseResult)
    ensures r == Null
  {
    Null
  }

  /** `GeoJsonUtil.parse` (geojson.util.ts:19-35), with the three collections
      starting out empty. A document that is not a FeatureCollection yields `null`;
      one without a `features` array throws. */
  method Parse(doc: Document) returns (r: ParseResult)
    ensures r == Null <==> doc.kind != "FeatureCollection"
    ensures r == Threw <==> doc.kind == "FeatureCollection" && doc.features.None?
    ensures r.Parsed? ==> (doc.features.Some? &&
      r.warehouse.areas == Bucket(doc.features.value, AREA) &&
      r.warehouse.shelves == Bucket(doc.features.value, SHELF) &&
      r.warehouse.stacks == Bucket(doc.features.value, STACK))
  {
    if doc.kind != "FeatureCollection" {
      return Null;
    }
    if doc.features.None? {
      return Threw;
    }
    var features := doc.features.value;
    var areas, shelves, stacks := [], [], [];
    var i := 0;
    while i < |features|
      invariant 0 <= i <= |features|
      invariant areas == Bucket(features[..i], AREA)
      invariant shelves == Bucket(features[..i], SHELF)
      invariant stacks == Bucket(features[..i], STACK)
    {
      var feature := features[i];
      assert features[..i + 1] == features[..i] + [feature];
      BucketStep(features[..i], feature, AREA);
      BucketStep(features[..i], feature, SHELF);
      BucketStep(features[..i], feature, STACK);
      if TypedAs(feature, AREA) {
        areas := areas + [feature];
      } else if TypedAs(feature, SHELF) {
        shelves := shelves + [feature];
      } else if TypedAs(feature, STACK) {
        stacks := stacks + [feature];
      }
      i := i + 1;
    }
    assert features[..i] == features;
    r := Parsed(Warehouse(areas, shelves, stacks));
  }

  /** Appending one feature to the input appends it to its own bucket only. */
  lemma BucketStep(prefix: seq<Feature>, f: Feature, t: string)
    ensures Bucket(prefix + [f], t) == Bucket(prefix, t) + (if TypedAs(f, t) then [f] else [])
  {
    FilterAppend(prefix, [f], g => TypedAs(g, t));
    assert [f][1..] == [];
  }

  /** Every bucket holds only features of its own type, and every feature of that
      type: a feature without properties, or of any other type, is in no bucket,
      and no feature is in two buckets. */
  lemma BucketMembership(features: seq<Feature>, f: Feature)
    ensures f in Bucket(features, AREA) <==> f in features && TypedAs(f, AREA)
    ensures f in Bucket(features, SHELF) <==> f in features && TypedAs(f, SHELF)
    ensures f in Bucket(features, STACK) <==> f in features && TypedAs(f, STACK)
    ensures !(f in Bucket(features, AREA) && f in Bucket(features, SHELF))
    ensures !(f in Bucket(features, AREA) && f in Bucket(features, STACK))
    ensures !(f in Bucket(features, SHELF) && f in Bucket(features, STACK))
  {
  }

  /** The bucket sizes add up to the number of features typed area, shelf or stack. */
  lemma BucketSizes(features: seq<Feature>)
    ensures |Bucket(features, AREA)| + |Bucket(features, SHELF)| + |Bucket(features, STACK)|
         == |Filter(features, f => TypedAs(f, AREA) || TypedAs(f, SHELF) || TypedAs(f, STACK))|
  {
    FilterDisjointSizes(features, f => TypedAs(f, AREA), f => TypedAs(f, SHELF), f => TypedAs(f, STACK),
                        f => TypedAs(f, AREA) || TypedAs(f, SHELF) || TypedAs(f, STACK));
  }

  /** Parsing a collection made of two parts puts the first part's features first:
      each bucket keeps input order. */
  lemma BucketsKeepOrder(a: seq<Feature>, b: seq<Feature>, t: string)
    ensures Bucket(a + b, t) == Bucket(a, t) + Bucket(b, t)
  {
    FilterAppend(a, b, f => TypedAs(f, t));
  }

  /** What the source's `parse` does AS WRITTEN: the three collections of a new
      `Warehouse` are `new FeatureCollection()`, whose `features` member is declared
      without an initialiser and so is undefined; the first push into one throws. */
  datatype AsWrittenResult = ReturnsNull | ThrowsTypeError | ReturnsWithoutFeatures

  function ParseAsWritten(doc: Document): (r: AsWrittenResult)
    ensures r == ReturnsNull <==> doc.kind != "FeatureCollection"
    ensures r == ThrowsTypeError <==> (doc.kind == "FeatureCollection" &&
      (doc.features.None? || exists f :: f in doc.features.value && (TypedAs(f, AREA) || TypedAs(f, SHELF) || TypedAs(f, STACK))))
  {
    if doc.kind != "FeatureCollection" then ReturnsNull
    else if doc.features.None? then ThrowsTypeError
    else if exists f :: f in doc.features.value && (TypedAs(f, AREA) || TypedAs(f, SHELF) || TypedAs(f, STACK)) then ThrowsTypeError
    else ReturnsWithoutFeatures
  }

  /** A collection holding a single area feature: as written, parsing throws; with
      the collections starting empty, the area is the warehouse's only area. */
  lemma ParseAsWrittenThrowsOnArea(f: Feature)
    requires TypedAs(f, AREA)
    ensures ParseAsWritten(Document("FeatureCollection", Some([f]))) == ThrowsTypeError
    ensures Bucket([f], AREA) == [f] && Bucket([f], SHELF) == [] && Bucket([f], STACK) == []
  {
    assert f in [f];
  }
}
