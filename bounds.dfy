/**
 * `getBoundingBox`: one scan over the features keeping four running
 * extremes, each `undefined` until the first feature is seen. The result is
 * the pair of corners `[[minLng, minLat], [maxLng, maxLat]]`.
 */
module Bounds {
  import opened Js
  import opened Features

  /** A corner `[lng, lat]`; a coordinate is None while it is still `undefined`. */
  datatype Corner = Corner(lng: Option<real>, lat: Option<real>)

  datatype BBox = BBox(sw: Corner, ne: Corner)

  const Undefined4 := BBox(Corner(None, None), Corner(None, None))

  predicate Defined(b: BBox) {
    b.sw.lng.Some? && b.sw.lat.Some? && b.ne.lng.Some? && b.ne.lat.Some?
  }

  /** Every position lies inside the box. */
  predicate Encloses(fs: seq<Feature>, b: BBox)
    requires Defined(b)
  {
    forall i :: 0 <= i < |fs| ==>
      b.sw.lng.value <= fs[i].position.lng <= b.ne.lng.value &&
      b.sw.lat.value <= fs[i].position.lat <= b.ne.lat.value
  }

  /** Each side of the box touches some position. */
  predicate Attained(fs: seq<Feature>, b: BBox)
    requires Defined(b)
  {
    (exists i :: 0 <= i < |fs| && fs[i].position.lng == b.sw.lng.value) &&
    (exists i :: 0 <= i < |fs| && fs[i].position.lat == b.sw.lat.value) &&
    (exists i :: 0 <= i < |fs| && fs[i].position.lng == b.ne.lng.value) &&
    (exists i :: 0 <= i < |fs| && fs[i].position.lat == b.ne.lat.value)
  }

  /** `b` is the smallest box around the positions of `fs`. */
  predicate IsBoxOf(fs: seq<Feature>, b: BBox) {
    Defined(b) && Encloses(fs, b) && Attained(fs, b)
  }

  method GetBoundingBox(fs: seq<Feature>) returns (b: BBox)
    ensures |fs| == 0 ==> b == Undefined4
    ensures |fs| > 0 ==> IsBoxOf(fs, b)
  {
    var minLng: Option<real> := None;
    var maxLng: Option<real> := None;
    var minLat: Option<real> := None;
    var maxLat: Option<real> := None;
    var i := 0;
    while i < |fs|
      invariant 0 <= i <= |fs|
      invariant i == 0 ==> minLng == maxLng == minLat == maxLat == None
      invariant i > 0 ==> IsBoxOf(fs[..i], BBox(Corner(minLng, minLat), Corner(maxLng, maxLat)))
    {
      var c := fs[i].position;
      if minLng == None || c.lng < minLng.value {
        minLng := Some(c.lng);
      }
      if maxLng == None || c.lng > maxLng.value {
        maxLng := Some(c.lng);
      }
      if minLat == None || c.lat < minLat.value {
        minLat := Some(c.lat);
      }
      if maxLat == None || c.lat > maxLat.value {
        maxLat := Some(c.lat);
      }
      assert fs[..i + 1] == fs[..i] + [fs[i]];
      i := i + 1;
    }
    assert fs[..i] == fs;
    b := BBox(Corner(minLng, minLat), Corner(maxLng, maxLat));
  }

  /** The smallest enclosing box is unique, so the method's contract fixes its result. */
  lemma BoxUnique(fs: seq<Feature>, b1: BBox, b2: BBox)
    requires IsBoxOf(fs, b1) && IsBoxOf(fs, b2)
    ensures b1 == b2
  {
  }

  /** A single feature gives a degenerate box at its own position. */
  lemma SinglePointBox(f: Feature, b: BBox)
    requires IsBoxOf([f], b)
    ensures b == BBox(Corner(Some(f.position.lng), Some(f.position.lat)),
                      Corner(Some(f.position.lng), Some(f.position.lat)))
  {
  }

  method TwoPointsExample() {
    var a := Feature([], Position(-9.0, 38.0), None, None);
    var c := Feature([], Position(-9.5, 38.7), None, None);
    var fs := [a, c];
    var b := GetBoundingBox(fs);
    var expected := BBox(Corner(Some(-9.5), Some(38.0)), Corner(Some(-9.0), Some(38.7)));
    assert fs[1].position.lng == -9.5 && fs[0].position.lat == 38.0;
    assert fs[0].position.lng == -9.0 && fs[1].position.lat == 38.7;
    BoxUnique(fs, b, expected);
    assert b == expected;
    var e := GetBoundingBox([]);
    assert e == Undefined4;
  }
}
