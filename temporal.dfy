/**
 * The per-feature display state for a selected year, and the list of
 * features handed to the map for that year: every feature is copied with a
 * `displayState` property and the hidden ones are dropped.
 */
module Temporal {
  import opened Js
  import opened Features

  datatype DisplayState = Hidden | Active | Expired

  /** The year the script takes as "now"; also the default end of a record. */
  const CurrentYear := 2025

  /** The property value written into `displayState`. */
  function StateName(d: DisplayState): string {
    match d
    case Hidden => "hidden"
    case Active => "active"
    case Expired => "expired"
  }

  /**
   * The end year of a feature: the parsed `to` when the `to` property is
   * truthy, not blank after `trim`, and parses; otherwise CurrentYear.
   */
  function ToYear(f: Feature): int {
    var raw := Get(f.properties, "to");
    if Truthy(raw) && Trim(ToStr(raw)) != "" && f.parsedTo.Some? then f.parsedTo.value
    else CurrentYear
  }

  /** The display state of a record with parsed start `from` and end `to` in year `sel`. */
  function Classify(from: Option<int>, to: int, sel: int): DisplayState {
    if from.None? then Hidden
    else if sel >= from.value && sel <= to then Active
    else if sel > to && from.value <= to then Expired
    else Hidden
  }

  function ClassifyFeature(f: Feature, sel: int): DisplayState {
    Classify(f.parsedFrom, ToYear(f), sel)
  }

  /** `{ ...feature, properties: { ...feature.properties, displayState } }` */
  function Stamp(f: Feature, sel: int): Feature {
    f.(properties := SetProp(f.properties, "displayState", Str(StateName(ClassifyFeature(f, sel)))))
  }

  /** The `map` step: every feature stamped with its state. */
  function StampAll(fs: seq<Feature>, sel: int): seq<Feature> {
    seq(|fs|, i requires 0 <= i < |fs| => Stamp(fs[i], sel))
  }

  /** The elements of `xs` that `keep` accepts, in order. */
  function Filter<T>(keep: T -> bool, xs: seq<T>): seq<T> {
    if xs == [] then []
    else (if keep(xs[0]) then [xs[0]] else []) + Filter(keep, xs[1..])
  }

  predicate NotHiddenCopy(g: Feature) {
    Get(g.properties, "displayState") != Str("hidden")
  }

  /** The `filter` step: keep the features whose `displayState` is not "hidden". */
  function DropHidden(gs: seq<Feature>): seq<Feature> {
    Filter(NotHiddenCopy, gs)
  }

  /** `processedFeatures` of `updateMapViewForYear`. */
  function ProcessFeatures(fs: seq<Feature>, sel: int): seq<Feature> {
    DropHidden(StampAll(fs, sel))
  }

  // ---------------------------------------------------------------------------
  // The end year

  /** A string `to` gives its parsed value unless it is blank or does not parse. */
  lemma ToYearOfString(f: Feature, s: string)
    requires Get(f.properties, "to") == Str(s)
    ensures ToYear(f) == if !IsBlank(s) && f.parsedTo.Some? then f.parsedTo.value else CurrentYear
  {
    TrimEmptyIffBlank(s);
  }

  /** A missing, `null` or blank `to` means the record is still open: it ends in CurrentYear. */
  lemma ToYearDefault(f: Feature)
    requires Get(f.properties, "to") in {Undefined, Null}
             || (Get(f.properties, "to").Str? && IsBlank(Get(f.properties, "to").s))
    ensures ToYear(f) == CurrentYear
  {
    TrimEmptyIffBlank(ToStr(Get(f.properties, "to")));
  }

  // ---------------------------------------------------------------------------
  // The classifier

  /** Active exactly in the closed interval [from, to]. */
  lemma ActiveIff(from: Option<int>, to: int, sel: int)
    ensures Classify(from, to, sel) == Active <==> from.Some? && from.value <= sel <= to
  {
  }

  /** Expired exactly after the end of a well-formed interval. */
  lemma ExpiredIff(from: Option<int>, to: int, sel: int)
    ensures Classify(from, to, sel) == Expired <==> from.Some? && from.value <= to < sel
  {
  }

  /** A record whose start does not parse, or that ends before it starts, is never shown. */
  lemma NeverShown(from: Option<int>, to: int, sel: int)
    requires from.None? || from.value > to
    ensures Classify(from, to, sel) == Hidden
  {
  }

  /** Expired means the record was active in some earlier year. */
  lemma ExpiredWasActive(from: Option<int>, to: int, sel: int)
    requires Classify(from, to, sel) == Expired
    ensures exists y :: y < sel && Classify(from, to, y) == Active
  {
    assert Classify(from, to, to) == Active;
  }

  /** A record that starts in 2015 with an empty `to` is open up to CurrentYear. */
  lemma OpenEndedExample(props: Props)
    requires Get(props, "to") == Str("")
    ensures var f := Feature(props, Position(0.0, 0.0), Some(2015), None);
            ClassifyFeature(f, 2020) == Active &&
            ClassifyFeature(f, 2010) == Hidden &&
            ClassifyFeature(f, 2030) == Expired
  {
    var f := Feature(props, Position(0.0, 0.0), Some(2015), None);
    ToYearDefault(f);
  }

  /** A closed record, 2019 to 2023 (the Egeu entry of the dataset). */
  lemma ClosedExample(props: Props)
    requires Get(props, "to") == Str("2023")
    ensures var f := Feature(props, Position(-9.1402153, 38.7337315), Some(2019), Some(2023));
            ClassifyFeature(f, 2018) == Hidden &&
            ClassifyFeature(f, 2019) == Active &&
            ClassifyFeature(f, 2023) == Active &&
            ClassifyFeature(f, 2024) == Expired
  {
    var f := Feature(props, Position(-9.1402153, 38.7337315), Some(2019), Some(2023));
    ToYearOfString(f, "2023");
    assert !IsWhitespace("2023"[0]);
  }

  // ---------------------------------------------------------------------------
  // The filtered list

  /** The stamped copy carries its state and is otherwise the input feature. */
  lemma StampOnlyAddsState(f: Feature, sel: int)
    ensures var g := Stamp(f, sel);
            && Get(g.properties, "displayState") == Str(StateName(ClassifyFeature(f, sel)))
            && Without(g.properties, "displayState") == Without(f.properties, "displayState")
            && g.position == f.position
            && g.parsedFrom == f.parsedFrom && g.parsedTo == f.parsedTo
  {
    var v := Str(StateName(ClassifyFeature(f, sel)));
    SetPropGet(f.properties, "displayState", v, "displayState");
    SetPropOnlyTouches(f.properties, "displayState", v);
  }

  /** Whether each feature is shown (not hidden) in `sel`. */
  function ShownFlags(fs: seq<Feature>, sel: int): seq<bool> {
    seq(|fs|, i requires 0 <= i < |fs| => ClassifyFeature(fs[i], sel) != Hidden)
  }

  /** The positions, from `lo` on and in increasing order, where `flags` is true. */
  function Kept(flags: seq<bool>, lo: nat): seq<int>
    requires lo <= |flags|
    decreases |flags| - lo
  {
    if lo == |flags| then []
    else (if flags[lo] then [lo] else []) + Kept(flags, lo + 1)
  }

  /**
   * The filtered list is exactly the features that are not hidden, in their
   * original order, each one the stamped copy of its input: position `k` of
   * the output is the input at the `k`-th non-hidden index.
   */
  lemma ProcessedExactly(fs: seq<Feature>, sel: int)
    ensures var r := ProcessFeatures(fs, sel);
            var ix := Kept(ShownFlags(fs, sel), 0);
            && |r| == |ix|
            && (forall k :: 0 <= k < |ix| ==>
                  0 <= ix[k] < |fs| && ClassifyFeature(fs[ix[k]], sel) != Hidden
                  && r[k] == Stamp(fs[ix[k]], sel))
            && (forall k, l :: 0 <= k < l < |ix| ==> ix[k] < ix[l])
            && (forall j :: 0 <= j < |fs| && ClassifyFeature(fs[j], sel) != Hidden ==> j in ix)
  {
    var gs := StampAll(fs, sel);
    var flags := ShownFlags(fs, sel);
    forall i | 0 <= i < |gs| ensures flags[i] == NotHiddenCopy(gs[i]) {
      StampedHiddenIff(fs[i], sel);
    }
    KeptInRange(flags, 0);
    KeptIncreasing(flags, 0);
    KeptComplete(flags, 0);
    assert gs[0..] == gs;
    FilterKept(NotHiddenCopy, gs, flags, 0);
  }

  /** The list is non-empty exactly when some feature is not hidden. */
  lemma ProcessedNonEmptyIff(fs: seq<Feature>, sel: int)
    ensures |ProcessFeatures(fs, sel)| > 0 <==>
            exists j :: 0 <= j < |fs| && ClassifyFeature(fs[j], sel) != Hidden
  {
    ProcessedExactly(fs, sel);
    var ix := Kept(ShownFlags(fs, sel), 0);
    if |ix| > 0 {
      assert ClassifyFeature(fs[ix[0]], sel) != Hidden;
    }
  }

  /** Filtering on the written property is filtering on the classification. */
  lemma StampedHiddenIff(f: Feature, sel: int)
    ensures Get(Stamp(f, sel).properties, "displayState") != Str("hidden")
            <==> ClassifyFeature(f, sel) != Hidden
  {
    StampOnlyAddsState(f, sel);
  }

  /** `Kept` unfolded once. */
  lemma KeptStep(flags: seq<bool>, lo: nat)
    requires lo < |flags|
    ensures Kept(flags, lo) == if flags[lo] then [lo] + Kept(flags, lo + 1) else Kept(flags, lo + 1)
  {
  }

  /** Every kept position from `lo` on is in range and flagged. */
  lemma {:induction false} KeptInRange(flags: seq<bool>, lo: nat)
    requires lo <= |flags|
    ensures forall k :: 0 <= k < |Kept(flags, lo)| ==>
              lo <= Kept(flags, lo)[k] < |flags| && flags[Kept(flags, lo)[k]]
    decreases |flags| - lo
  {
    if lo < |flags| {
      KeptInRange(flags, lo + 1);
      KeptStep(flags, lo);
      var ix, tail := Kept(flags, lo), Kept(flags, lo + 1);
      if flags[lo] {
        forall k | 0 < k < |ix| ensures ix[k] == tail[k - 1] {
        }
      }
    }
  }

  predicate Increasing(s: seq<int>) {
    forall k, l :: 0 <= k < l < |s| ==> s[k] < s[l]
  }

  lemma ConsIncreasing(x: int, s: seq<int>)
    requires Increasing(s) && forall k :: 0 <= k < |s| ==> x < s[k]
    ensures Increasing([x] + s)
  {
    var t := [x] + s;
    forall k, l | 0 <= k < l < |t| ensures t[k] < t[l] {
      assert t[l] == s[l - 1];
      if k > 0 {
        assert t[k] == s[k - 1];
      }
    }
  }

  /** The kept positions are strictly increasing. */
  lemma {:induction false} KeptIncreasing(flags: seq<bool>, lo: nat)
    requires lo <= |flags|
    ensures Increasing(Kept(flags, lo))
    decreases |flags| - lo
  {
    if lo < |flags| {
      var tail := Kept(flags, lo + 1);
      KeptIncreasing(flags, lo + 1);
      KeptStep(flags, lo);
      if flags[lo] {
        KeptInRange(flags, lo + 1);
        ConsIncreasing(lo, tail);
      }
    }
  }

  /** Every flagged position from `lo` on is kept. */
  lemma {:induction false} KeptComplete(flags: seq<bool>, lo: nat)
    requires lo <= |flags|
    ensures forall j :: lo <= j < |flags| && flags[j] ==> j in Kept(flags, lo)
    decreases |flags| - lo
  {
    if lo < |flags| {
      KeptComplete(flags, lo + 1);
      KeptStep(flags, lo);
    }
  }

  /** `Filter` on a suffix, unfolded once. */
  lemma FilterStep<T>(keep: T -> bool, xs: seq<T>, lo: nat)
    requires lo < |xs|
    ensures Filter(keep, xs[lo..]) ==
            (if keep(xs[lo]) then [xs[lo]] else []) + Filter(keep, xs[lo + 1..])
  {
    assert xs[lo..][1..] == xs[lo + 1..];
  }

  /** Filtering a suffix picks the elements at the kept positions. */
  lemma {:induction false} FilterKept<T>(keep: T -> bool, xs: seq<T>, flags: seq<bool>, lo: nat)
    requires |flags| == |xs| && lo <= |xs|
    requires forall i :: 0 <= i < |xs| ==> flags[i] == keep(xs[i])
    ensures var r := Filter(keep, xs[lo..]);
            var ix := Kept(flags, lo);
            && |r| == |ix|
            && (forall k :: 0 <= k < |ix| ==> 0 <= ix[k] < |xs| && r[k] == xs[ix[k]])
    decreases |xs| - lo
  {
    KeptInRange(flags, lo);
    if lo < |xs| {
      FilterKept(keep, xs, flags, lo + 1);
      KeptStep(flags, lo);
      FilterStep(keep, xs, lo);
      var r, ix := Filter(keep, xs[lo..]), Kept(flags, lo);
      var rest, tail := Filter(keep, xs[lo + 1..]), Kept(flags, lo + 1);
      if flags[lo] {
        forall k | 0 < k < |ix| ensures r[k] == xs[ix[k]] {
          assert r[k] == rest[k - 1] && ix[k] == tail[k - 1];
        }
      }
    }
  }
}
