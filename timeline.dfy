/**
 * The year timeline: its range, computed once from the data; the year
 * update that re-filters the features and asks for a camera fit; and the
 * play/pause animation, whose interval timer is modelled by its handles and
 * whose tick is an explicit operation.
 */
module Timeline {
  import opened Js
  import opened Features
  import opened Bounds
  import opened Temporal

  /**
   * `m` is the first year of the slider: the least parseable `from` when
   * some `from` parses, and ten years before CurrentYear otherwise.
   */
  predicate IsMinDataYear(fs: seq<Feature>, m: int) {
    if exists i :: 0 <= i < |fs| && fs[i].parsedFrom.Some? then
      (exists i :: 0 <= i < |fs| && fs[i].parsedFrom == Some(m)) &&
      (forall i :: 0 <= i < |fs| && fs[i].parsedFrom.Some? ==> m <= fs[i].parsedFrom.value)
    else
      m == CurrentYear - 10
  }

  /** The scan for `minDataYear` at the start of the load handler. */
  method MinDataYear(fs: seq<Feature>) returns (minDataYear: int)
    ensures IsMinDataYear(fs, minDataYear)
  {
    minDataYear := CurrentYear;
    var foundMinYear := false;
    var i := 0;
    while i < |fs|
      invariant 0 <= i <= |fs|
      invariant foundMinYear <==> exists j :: 0 <= j < i && fs[j].parsedFrom.Some?
      invariant foundMinYear ==>
                  (exists j :: 0 <= j < i && fs[j].parsedFrom == Some(minDataYear)) &&
                  (forall j :: 0 <= j < i && fs[j].parsedFrom.Some? ==> minDataYear <= fs[j].parsedFrom.value)
    {
      var fromYear := fs[i].parsedFrom;
      if fromYear.Some? {
        if !foundMinYear || fromYear.value < minDataYear {
          minDataYear := fromYear.value;
          foundMinYear := true;
        }
      }
      i := i + 1;
    }
    if !foundMinYear {
      minDataYear := CurrentYear - 10;
    }
  }

  /** The year after one tick of the animation: wrap to `lo` once `hi` is reached. */
  function NextYear(cur: int, lo: int, hi: int): int {
    if cur >= hi then lo else cur + 1
  }

  /** The year after `n` ticks. */
  function Ticks(cur: int, lo: int, hi: int, n: nat): int {
    if n == 0 then cur else NextYear(Ticks(cur, lo, hi, n - 1), lo, hi)
  }

  /** A tick keeps the year in [lo, hi], and the last year wraps to the first. */
  lemma TickInRange(cur: int, lo: int, hi: int)
    requires lo <= cur <= hi
    ensures lo <= NextYear(cur, lo, hi) <= hi
    ensures cur == hi ==> NextYear(cur, lo, hi) == lo
    ensures cur < hi ==> NextYear(cur, lo, hi) == cur + 1
  {
  }

  /** Division by a positive modulus has a unique remainder. */
  lemma ModUnique(x: int, m: int, q: int, r: int)
    requires m > 0 && 0 <= r < m && x == q * m + r
    ensures x % m == r
  {
    var d := q - x / m;
    assert d * m == x % m - r;
  }

  lemma ModSucc(a: nat, m: nat)
    requires m > 0
    ensures (a + 1) % m == if a % m == m - 1 then 0 else a % m + 1
  {
    var q, r := a / m, a % m;
    assert a == q * m + r;
    if r == m - 1 {
      ModUnique(a + 1, m, q + 1, 0);
    } else {
      ModUnique(a + 1, m, q, r + 1);
    }
  }

  /**
   * Playback is circular: after `n` ticks from a year in [lo, hi] the year
   * is `lo + (cur - lo + n) mod (hi - lo + 1)`.
   */
  lemma {:induction false} TicksCircular(cur: int, lo: int, hi: int, n: nat)
    requires lo <= cur <= hi
    ensures Ticks(cur, lo, hi, n) == lo + (cur - lo + n) % (hi - lo + 1)
  {
    if n > 0 {
      TicksCircular(cur, lo, hi, n - 1);
      ModSucc(cur - lo + n - 1, hi - lo + 1);
    }
  }

  /**
   * The camera-fit log after a year update that showed `shown`: one new fit
   * to the box of `shown` when it is non-empty, no new fit otherwise.
   */
  predicate FitAfter(before: seq<BBox>, after: seq<BBox>, shown: seq<Feature>) {
    if |shown| == 0 then after == before
    else |after| == |before| + 1 && after[..|before|] == before && IsBoxOf(shown, after[|before|])
  }

  /** The timeline and the animation state of the load handler. */
  class Player {
    const data: seq<Feature>
    const minYear: int
    const maxYear: int
    var year: int              // the value of both year sliders
    var isPlaying: bool
    var timer: Option<nat>     // the handle last stored in `timer`; kept after clearInterval
    var live: set<nat>         // the interval handles still scheduled
    var nextHandle: nat        // the handle the next setInterval returns
    var shown: seq<Feature>    // the data last given to the map source
    var fits: seq<BBox>        // the camera fits asked for by year updates, oldest first

    /** At most one interval is scheduled, and exactly while playing; it is the one in `timer`. */
    ghost predicate Valid()
      reads this
    {
      && (isPlaying ==> timer.Some? && live == {timer.value})
      && (!isPlaying ==> live == {})
      && (forall h :: h in live ==> h < nextHandle)
    }

    /** The state when the map's load handler has set up the sliders. */
    constructor (data: seq<Feature>)
      ensures Valid()
      ensures this.data == data && IsMinDataYear(data, minYear) && maxYear == CurrentYear
      ensures year == minYear && !isPlaying && timer == None && live == {}
      ensures shown == [] && fits == []
    {
      this.data := data;
      var m := MinDataYear(data);
      minYear := m;
      maxYear := CurrentYear;
      year := m;
      isPlaying := false;
      timer := None;
      live := {};
      nextHandle := 0;
      shown := [];
      fits := [];
    }

    /**
     * `updateMapViewForYear`: both sliders show `sel`, the map gets the
     * features that are not hidden in `sel`, and a camera fit to their box
     * is asked for only when there is at least one of them.
     */
    method ShowYear(sel: int)
      requires Valid()
      modifies this
      ensures Valid()
      ensures year == sel && shown == ProcessFeatures(data, sel)
      ensures isPlaying == old(isPlaying) && timer == old(timer)
      ensures live == old(live) && nextHandle == old(nextHandle)
      ensures FitAfter(old(fits), fits, shown)
    {
      year := sel;
      shown := ProcessFeatures(data, sel);
      if |shown| > 0 {
        var b := GetBoundingBox(shown);
        if Defined(b) {
          fits := fits + [b];
        }
      }
    }

    /** `togglePlayTimelapse`: start an interval when playback begins, clear it when it ends. */
    method Toggle()
      requires Valid()
      modifies this
      ensures Valid()
      ensures isPlaying == !old(isPlaying)
      ensures live - old(live) != {} <==> isPlaying
      ensures old(live) - live != {} <==> !isPlaying
      ensures isPlaying ==> timer == Some(old(nextHandle)) && nextHandle == old(nextHandle) + 1
      ensures !isPlaying ==> timer == old(timer) && nextHandle == old(nextHandle)
      ensures year == old(year) && shown == old(shown) && fits == old(fits)
    {
      isPlaying := !isPlaying;
      if isPlaying {
        timer := Some(nextHandle);
        live := live + {nextHandle};
        nextHandle := nextHandle + 1;
      } else {
        if timer.Some? {
          live := live - {timer.value};
        }
      }
    }

    /** One firing of the interval: advance the year circularly and update the view. */
    method Tick()
      requires Valid() && isPlaying
      modifies this
      ensures Valid() && isPlaying
      ensures year == NextYear(old(year), minYear, maxYear)
      ensures shown == ProcessFeatures(data, year)
      ensures timer == old(timer) && live == old(live) && nextHandle == old(nextHandle)
      ensures FitAfter(old(fits), fits, shown)
      ensures minYear <= old(year) <= maxYear ==> minYear <= year <= maxYear
    {
      var currentValue := year;
      if currentValue >= maxYear {
        currentValue := minYear;
      } else {
        currentValue := currentValue + 1;
      }
      ShowYear(currentValue);
    }

    /** The `input` handler of either slider: manual scrubbing stops playback, then shows `value`. */
    method SliderInput(value: int)
      requires Valid()
      modifies this
      ensures Valid()
      ensures !isPlaying && live == {}
      ensures year == value && shown == ProcessFeatures(data, value)
      ensures timer == old(timer) && nextHandle == old(nextHandle)
      ensures FitAfter(old(fits), fits, shown)
    {
      if isPlaying {
        Toggle();
      }
      ShowYear(value);
    }
  }

  /** Playing from the last year: the first tick wraps to the first year, the next one moves on. */
  method WrapExample(data: seq<Feature>)
  {
    var p := new Player(data);
    p.ShowYear(p.maxYear);
    p.Toggle();
    assert p.isPlaying;
    p.Tick();
    assert p.year == p.minYear;
    if p.minYear < p.maxYear {
      p.Tick();
      assert p.year == p.minYear + 1;
    }
    p.SliderInput(2020);
    assert !p.isPlaying && p.year == 2020 && p.live == {};
  }
}
