/**
 * GeoJSON point features: an ordered property object and a position. The
 * two results of `parseInt` on the `from` and `to` properties are carried
 * beside the raw properties, since `parseInt` itself is not modelled.
 */
module Features {
  import opened Js

  /** A property object: own enumerable properties in enumeration order. */
  type Props = seq<(string, JValue)>

  datatype Position = Position(lng: real, lat: real)

  datatype Feature = Feature(
    properties: Props,
    position: Position,
    parsedFrom: Option<int>,   // parseInt(properties.from), None for NaN
    parsedTo: Option<int>)     // parseInt(properties.to), None for NaN

  /** The keys in enumeration order. */
  function Keys(p: Props): seq<string> {
    if p == [] then [] else [p[0].0] + Keys(p[1..])
  }

  /** `props[k]`: the value of the first entry with key `k`, `undefined` when there is none. */
  function Get(p: Props, k: string): (v: JValue)
    ensures k !in Keys(p) ==> v == Undefined
    ensures k in Keys(p) ==> (k, v) in p
  {
    if p == [] then Undefined
    else if p[0].0 == k then p[0].1
    else Get(p[1..], k)
  }

  /**
   * `{ ...props, [k]: v }`: an existing key keeps its place and takes the new
   * value; a new key is appended at the end.
   */
  function SetProp(p: Props, k: string, v: JValue): Props {
    if p == [] then [(k, v)]
    else if p[0].0 == k then [(k, v)] + p[1..]
    else [p[0]] + SetProp(p[1..], k, v)
  }

  /** The entries of `p` whose key is not `k`, in order. */
  function Without(p: Props, k: string): (r: Props)
    ensures k !in Keys(r)
    ensures forall e :: e in r <==> e in p && e.0 != k
    ensures |r| <= |p|
  {
    if p == [] then []
    else if p[0].0 == k then Without(p[1..], k)
    else [p[0]] + Without(p[1..], k)
  }

  /** After the spread, `k` reads `v` and every other key reads what it read before. */
  lemma {:induction false} SetPropGet(p: Props, k: string, v: JValue, k': string)
    ensures Get(SetProp(p, k, v), k') == if k' == k then v else Get(p, k')
  {
    if p != [] && p[0].0 != k {
      SetPropGet(p[1..], k, v, k');
    }
  }

  /**
   * The spread copy differs from the original only in key `k`: with `k`
   * removed, both are the same list of entries in the same order.
   */
  lemma {:induction false} SetPropOnlyTouches(p: Props, k: string, v: JValue)
    ensures Without(SetProp(p, k, v), k) == Without(p, k)
  {
    if p == [] {
    } else if p[0].0 == k {
      var r := SetProp(p, k, v);
      assert r[1..] == p[1..];
    } else {
      SetPropOnlyTouches(p[1..], k, v);
      var r := SetProp(p, k, v);
      assert r[1..] == SetProp(p[1..], k, v);
    }
  }

  lemma KeysCons(e: (string, JValue), p: Props)
    ensures Keys([e] + p) == [e.0] + Keys(p)
  {
  }

  /** The keys of the spread copy are those of the original plus `k`. */
  lemma {:induction false} SetPropKeys(p: Props, k: string, v: JValue, key: string)
    ensures key in Keys(SetProp(p, k, v)) <==> key in Keys(p) || key == k
  {
    if p == [] {
      assert Keys(SetProp(p, k, v)) == [k];
    } else {
      assert p == [p[0]] + p[1..];
      KeysCons(p[0], p[1..]);
      if p[0].0 == k {
        KeysCons((k, v), p[1..]);
      } else {
        SetPropKeys(p[1..], k, v, key);
        KeysCons(p[0], SetProp(p[1..], k, v));
      }
    }
  }
}
