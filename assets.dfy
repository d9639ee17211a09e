/**
 * The coordination of the two marker images: each image's `onload` registers
 * it and may run the icon-layer setup once both are in; any `onerror` (or an
 * exception while preparing them) switches, once, to the circle-layer
 * fallback. The map surface is reduced to the source and layer ids it holds
 * and the log of `addImage`/`addSource`/`addLayer` calls made on it.
 */
module Assets {

  const SourceId := "mapa_independente"
  const LayerId := "mapa_independente"
  const ActiveIcon := "custom-marker-active"
  const ExpiredIcon := "custom-marker-expired"

  datatype Marker = ActiveMarker | ExpiredMarker

  /** An `onload`, an `onerror`, or the `catch` of the setup block. */
  datatype Event = Loaded(marker: Marker) | Failed(marker: Marker) | SetupThrew

  datatype LayerKind = SymbolLayer | CircleLayer

  datatype SurfaceCall = AddImage(name: string) | AddSource(id: string) | AddLayer(id: string, kind: LayerKind)

  /**
   * The three closure flags, the surface, and how many times each setup
   * routine got past its guard.
   */
  datatype Loader = Loader(
    activeMarkerLoaded: bool,
    expiredMarkerLoaded: bool,
    fallbackTriggered: bool,
    sources: set<string>,
    layers: set<string>,
    calls: seq<SurfaceCall>,
    iconSetups: nat,
    fallbackSetups: nat)

  const Init := Loader(false, false, false, {}, {}, [], 0, 0)

  /** How many `addSource` calls in `cs` name `id`. */
  function SourceAdds(cs: seq<SurfaceCall>, id: string): nat {
    if cs == [] then 0
    else SourceAdds(cs[..|cs| - 1], id) + (if cs[|cs| - 1] == AddSource(id) then 1 else 0)
  }

  /** How many `addLayer` calls in `cs`, of either kind, name `id`. */
  function LayerAdds(cs: seq<SurfaceCall>, id: string): nat {
    if cs == [] then 0
    else LayerAdds(cs[..|cs| - 1], id) + (if cs[|cs| - 1].AddLayer? && cs[|cs| - 1].id == id then 1 else 0)
  }

  lemma AddsAppend(cs: seq<SurfaceCall>, d: SurfaceCall)
    ensures forall id :: SourceAdds(cs + [d], id) == SourceAdds(cs, id) + (if d == AddSource(id) then 1 else 0)
    ensures forall id :: LayerAdds(cs + [d], id) == LayerAdds(cs, id) + (if d.AddLayer? && d.id == id then 1 else 0)
  {
    assert (cs + [d])[..|cs|] == cs;
  }

  /** `if (!map.getSource(id)) map.addSource(id, ...)` */
  function AddSourceOnce(s: Loader): Loader {
    if SourceId in s.sources then s
    else s.(sources := s.sources + {SourceId}, calls := s.calls + [AddSource(SourceId)])
  }

  /** `if (!map.getLayer(id)) map.addLayer({ id, type, ... })` */
  function AddLayerOnce(s: Loader, kind: LayerKind): Loader {
    if LayerId in s.layers then s
    else s.(layers := s.layers + {LayerId}, calls := s.calls + [AddLayer(LayerId, kind)])
  }

  /** `setupMapLayersAndData`: nothing once the fallback has triggered. */
  function SetupIcons(s: Loader): Loader {
    if s.fallbackTriggered then s
    else AddLayerOnce(AddSourceOnce(s), SymbolLayer).(iconSetups := s.iconSetups + 1)
  }

  /** `triggerFallbackMechanism` */
  function SetupFallback(s: Loader): Loader {
    AddLayerOnce(AddSourceOnce(s), CircleLayer).(fallbackSetups := s.fallbackSetups + 1)
  }

  /** `handleMarkerLoadSuccess` */
  function OnLoadSuccess(s: Loader): Loader {
    if s.activeMarkerLoaded && s.expiredMarkerLoaded && !s.fallbackTriggered then SetupIcons(s) else s
  }

  /**
   * `handleMarkerLoadError`, and also the `catch` of the setup block as
   * evidently intended, with `fallbackTriggered` and `triggerFallbackMechanism`
   * declared before the `try`.
   */
  function OnLoadError(s: Loader): Loader {
    if !s.fallbackTriggered then SetupFallback(s.(fallbackTriggered := true)) else s
  }

  /** The `onload` of one image: `addImage`, set its flag, then `handleMarkerLoadSuccess`. */
  function OnImageLoad(s: Loader, m: Marker): Loader {
    match m
    case ActiveMarker =>
      OnLoadSuccess(s.(calls := s.calls + [AddImage(ActiveIcon)], activeMarkerLoaded := true))
    case ExpiredMarker =>
      OnLoadSuccess(s.(calls := s.calls + [AddImage(ExpiredIcon)], expiredMarkerLoaded := true))
  }

  function Step(s: Loader, e: Event): Loader {
    match e
    case Loaded(m) => OnImageLoad(s, m)
    case Failed(_) => OnLoadError(s)
    case SetupThrew => OnLoadError(s)
  }

  function Run(s: Loader, evs: seq<Event>): Loader
    decreases |evs|
  {
    if evs == [] then s else Run(Step(s, evs[0]), evs[1..])
  }

  /** Running one more event is one more step. */
  lemma {:induction false} RunSnoc(s: Loader, evs: seq<Event>, e: Event)
    ensures Run(s, evs + [e]) == Step(Run(s, evs), e)
    decreases |evs|
  {
    if evs != [] {
      assert (evs + [e])[1..] == evs[1..] + [e];
      RunSnoc(Step(s, evs[0]), evs[1..], e);
    }
  }

  /** The surface holds each source and layer id exactly when one call added it. */
  ghost predicate SurfaceInv(s: Loader) {
    && (forall id :: SourceAdds(s.calls, id) == if id in s.sources then 1 else 0)
    && (forall id :: LayerAdds(s.calls, id) == if id in s.layers then 1 else 0)
  }

  /**
   * The invariant of the coordinator: fallback setup has run exactly when
   * the flag is set; icon setup has run only with both images in; and the
   * surface invariant.
   */
  ghost predicate Inv(s: Loader) {
    && s.fallbackSetups == (if s.fallbackTriggered then 1 else 0)
    && (s.iconSetups > 0 ==> s.activeMarkerLoaded && s.expiredMarkerLoaded)
    && SurfaceInv(s)
  }

  lemma AddSourceOnceInv(s: Loader)
    requires SurfaceInv(s)
    ensures SurfaceInv(AddSourceOnce(s))
  {
    AddsAppend(s.calls, AddSource(SourceId));
  }

  lemma AddLayerOnceInv(s: Loader, kind: LayerKind)
    requires SurfaceInv(s)
    ensures SurfaceInv(AddLayerOnce(s, kind))
  {
    AddsAppend(s.calls, AddLayer(LayerId, kind));
  }

  lemma SetupsInv(s: Loader)
    requires SurfaceInv(s)
    ensures SurfaceInv(SetupFallback(s))
    ensures SurfaceInv(SetupIcons(s))
  {
    AddSourceOnceInv(s);
    AddLayerOnceInv(AddSourceOnce(s), CircleLayer);
    AddLayerOnceInv(AddSourceOnce(s), SymbolLayer);
  }

  lemma ErrorInv(s: Loader)
    requires Inv(s)
    ensures Inv(OnLoadError(s))
  {
    SetupsInv(s.(fallbackTriggered := true));
  }

  lemma ImageLoadInv(s: Loader, m: Marker)
    requires Inv(s)
    ensures Inv(OnImageLoad(s, m))
  {
    var name := if m == ActiveMarker then ActiveIcon else ExpiredIcon;
    AddsAppend(s.calls, AddImage(name));
    var t := if m == ActiveMarker
             then s.(calls := s.calls + [AddImage(ActiveIcon)], activeMarkerLoaded := true)
             else s.(calls := s.calls + [AddImage(ExpiredIcon)], expiredMarkerLoaded := true);
    assert SurfaceInv(t);
    SetupsInv(t);
  }

  /** Every event keeps the invariant. */
  lemma StepInv(s: Loader, e: Event)
    requires Inv(s)
    ensures Inv(Step(s, e))
  {
    match e
    case Loaded(m) => ImageLoadInv(s, m);
    case Failed(_) => ErrorInv(s);
    case SetupThrew => ErrorInv(s);
  }

  lemma {:induction false} RunInv(s: Loader, evs: seq<Event>)
    requires Inv(s)
    ensures Inv(Run(s, evs))
    decreases |evs|
  {
    if evs != [] {
      StepInv(s, evs[0]);
      RunInv(Step(s, evs[0]), evs[1..]);
    }
  }

  /**
   * Whatever callbacks arrive, in whatever order and however often: the
   * fallback routine runs at most once, it has run exactly when the flag is
   * set, and no source or layer id is ever added to the surface twice.
   */
  lemma AtMostOnceForAnyEvents(evs: seq<Event>)
    ensures var t := Run(Init, evs);
            && t.fallbackSetups <= 1
            && t.fallbackSetups == (if t.fallbackTriggered then 1 else 0)
            && (t.iconSetups > 0 ==> t.activeMarkerLoaded && t.expiredMarkerLoaded)
            && (forall id :: SourceAdds(t.calls, id) <= 1)
            && (forall id :: LayerAdds(t.calls, id) <= 1)
  {
    RunInv(Init, evs);
  }

  /** `fallbackTriggered` only goes from false to true, and once it is set an error changes nothing. */
  lemma FallbackIsSticky(s: Loader, e: Event)
    requires s.fallbackTriggered
    ensures Step(s, e).fallbackTriggered
    ensures !e.Loaded? ==> Step(s, e) == s
    ensures Step(s, e).iconSetups == s.iconSetups && Step(s, e).fallbackSetups == s.fallbackSetups
  {
  }

  /** Icon setup only proceeds when both images are in and the fallback has not triggered. */
  lemma IconSetupGuard(s: Loader, e: Event)
    requires Step(s, e).iconSetups != s.iconSetups
    ensures e.Loaded? && !s.fallbackTriggered
    ensures Step(s, e).activeMarkerLoaded && Step(s, e).expiredMarkerLoaded
    ensures Step(s, e).iconSetups == s.iconSetups + 1
  {
  }

  /**
   * The callbacks that can happen: an exception before the image handlers
   * are attached, or exactly one of `onload`/`onerror` from each image, in
   * either order.
   */
  predicate OneOutcomeEach(evs: seq<Event>) {
    evs == [SetupThrew] ||
    (|evs| == 2 && !evs[0].SetupThrew? && !evs[1].SetupThrew? && evs[0].marker != evs[1].marker)
  }

  /**
   * With one outcome per image, exactly one of the two setup routines runs,
   * once: the icon layer when both images load, the circle fallback
   * otherwise. The layer is then on the surface.
   */
  lemma ExactlyOneSetup(evs: seq<Event>)
    requires OneOutcomeEach(evs)
    ensures var t := Run(Init, evs);
            && t.iconSetups + t.fallbackSetups == 1
            && (t.iconSetups == 1 <==> forall i :: 0 <= i < |evs| ==> evs[i].Loaded?)
            && LayerId in t.layers
  {
    if evs != [SetupThrew] {
      var s1 := Step(Init, evs[0]);
      FirstOutcome(evs[0]);
      assert evs[1..] == [evs[1]];
      assert Run(Init, evs) == Run(s1, [evs[1]]) == Step(s1, evs[1]);
    }
  }

  /** The state after the first of the two outcomes. */
  lemma FirstOutcome(e: Event)
    requires !e.SetupThrew?
    ensures var s1 := Step(Init, e);
            && s1.iconSetups == 0
            && (e.Loaded? ==> !s1.fallbackTriggered && s1.fallbackSetups == 0 && LayerId !in s1.layers
                              && s1.activeMarkerLoaded == (e.marker == ActiveMarker)
                              && s1.expiredMarkerLoaded == (e.marker == ExpiredMarker))
            && (e.Failed? ==> s1.fallbackTriggered && s1.fallbackSetups == 1 && LayerId in s1.layers)
  {
  }

  /** Without the one-outcome rule, a repeated `onload` runs the icon setup again (the surface is still added to once). */
  lemma RepeatedLoadRerunsSetup()
    ensures var t := Run(Init, [Loaded(ActiveMarker), Loaded(ExpiredMarker), Loaded(ActiveMarker)]);
            t.iconSetups == 2 && t.calls == [AddImage(ActiveIcon), AddImage(ExpiredIcon),
                                             AddSource(SourceId), AddLayer(LayerId, SymbolLayer),
                                             AddImage(ActiveIcon)]
  {
    var evs := [Loaded(ActiveMarker), Loaded(ExpiredMarker), Loaded(ActiveMarker)];
    assert evs[1..] == [Loaded(ExpiredMarker), Loaded(ActiveMarker)];
    assert evs[1..][1..] == [Loaded(ActiveMarker)];
  }

  /**
   * Without the one-outcome rule, an `onerror` after the icon setup still
   * runs the fallback routine; the surface already holds the source and the
   * symbol layer, so the routine adds nothing to it.
   */
  lemma LateErrorAfterIconSetup()
    ensures var t := Run(Init, [Loaded(ActiveMarker), Loaded(ExpiredMarker), Failed(ActiveMarker)]);
            t.iconSetups == 1 && t.fallbackSetups == 1 && t.fallbackTriggered
            && t.calls == [AddImage(ActiveIcon), AddImage(ExpiredIcon),
                           AddSource(SourceId), AddLayer(LayerId, SymbolLayer)]
  {
    var evs := [Loaded(ActiveMarker), Loaded(ExpiredMarker), Failed(ActiveMarker)];
    assert evs[1..] == [Loaded(ExpiredMarker), Failed(ActiveMarker)];
    assert evs[1..][1..] == [Failed(ActiveMarker)];
  }

  // ---------------------------------------------------------------------------
  // The `catch` of the setup block as written

  /**
   * As written, the `catch` reads `fallbackTriggered`, a `let` declared
   * inside the `try` block, so it throws a ReferenceError before it can
   * trigger the fallback: the event leaves the coordinator untouched.
   * (`triggerFallbackMechanism` is also declared inside the `try`, after
   * every statement that can throw, so it is not available there either.)
   */
  function StepAsWritten(s: Loader, e: Event): Loader {
    if e == SetupThrew then s else Step(s, e)
  }

  function RunAsWritten(s: Loader, evs: seq<Event>): Loader
    decreases |evs|
  {
    if evs == [] then s else RunAsWritten(StepAsWritten(s, evs[0]), evs[1..])
  }

  /** An exception during setup leaves the map with neither rendering layer. */
  lemma CatchAsWrittenRendersNothing()
    ensures var t := RunAsWritten(Init, [SetupThrew]);
            t.iconSetups == 0 && t.fallbackSetups == 0 && t.layers == {}
  {
  }

  /**
   * With `fallbackTriggered` and `triggerFallbackMechanism` both declared
   * before the `try`, the same exception switches to the fallback. Moving
   * the flag alone is not enough: the function is declared inside the `try`
   * after every statement that can throw, so the `catch` would find it
   * unset or undeclared.
   */
  lemma CatchCorrectedFallsBack()
    ensures var t := Run(Init, [SetupThrew]);
            t.iconSetups == 0 && t.fallbackSetups == 1 && t.fallbackTriggered
            && t.layers == {LayerId} && t.calls == [AddSource(SourceId), AddLayer(LayerId, CircleLayer)]
  {
  }

  // ---------------------------------------------------------------------------
  // The closure state of the setup block

  /** The closure variables and the map surface, updated in place by the callbacks. */
  class Coordinator {
    var activeMarkerLoaded: bool
    var expiredMarkerLoaded: bool
    var fallbackTriggered: bool
    var sources: set<string>
    var layers: set<string>
    var calls: seq<SurfaceCall>
    var iconSetups: nat
    var fallbackSetups: nat
    ghost var events: seq<Event>   // the callbacks handled so far

    function State(): Loader
      reads this
    {
      Loader(activeMarkerLoaded, expiredMarkerLoaded, fallbackTriggered,
             sources, layers, calls, iconSetups, fallbackSetups)
    }

    /** The state is what the callbacks handled so far make of the initial one. */
    ghost predicate Valid()
      reads this
    {
      State() == Run(Init, events)
    }

    constructor ()
      ensures State() == Init && events == [] && Valid()
    {
      activeMarkerLoaded, expiredMarkerLoaded, fallbackTriggered := false, false, false;
      sources, layers, calls := {}, {}, [];
      iconSetups, fallbackSetups := 0, 0;
      events := [];
    }

    /** Recording one more handled callback keeps the object valid, and the run-wide guarantees hold. */
    ghost method Record(e: Event)
      requires State() == Step(Run(Init, events), e)
      modifies this
      ensures events == old(events) + [e] && State() == old(State()) && Valid()
      ensures fallbackSetups <= 1 && fallbackSetups == (if fallbackTriggered then 1 else 0)
      ensures iconSetups > 0 ==> activeMarkerLoaded && expiredMarkerLoaded
      ensures forall id :: SourceAdds(calls, id) <= 1 && LayerAdds(calls, id) <= 1
    {
      RunSnoc(Init, events, e);
      events := events + [e];
      AtMostOnceForAnyEvents(events);
    }

    method AddSourceIfMissing()
      modifies this
      ensures State() == AddSourceOnce(old(State()))
      ensures events == old(events)
    {
      if SourceId !in sources {
        sources := sources + {SourceId};
        calls := calls + [AddSource(SourceId)];
      }
    }

    method AddLayerIfMissing(kind: LayerKind)
      modifies this
      ensures State() == AddLayerOnce(old(State()), kind)
      ensures events == old(events)
    {
      if LayerId !in layers {
        layers := layers + {LayerId};
        calls := calls + [AddLayer(LayerId, kind)];
      }
    }

    method SetupMapLayersAndData()
      modifies this
      ensures State() == SetupIcons(old(State()))
      ensures events == old(events)
    {
      if fallbackTriggered {
        return;
      }
      AddSourceIfMissing();
      AddLayerIfMissing(SymbolLayer);
      iconSetups := iconSetups + 1;
    }

    method TriggerFallbackMechanism()
      modifies this
      ensures State() == SetupFallback(old(State()))
      ensures events == old(events)
    {
      AddSourceIfMissing();
      AddLayerIfMissing(CircleLayer);
      fallbackSetups := fallbackSetups + 1;
    }

    method HandleMarkerLoadSuccess()
      modifies this
      ensures State() == OnLoadSuccess(old(State()))
      ensures events == old(events)
    {
      if activeMarkerLoaded && expiredMarkerLoaded && !fallbackTriggered {
        SetupMapLayersAndData();
      }
    }

    method HandleMarkerLoadError(marker: Marker)
      modifies this
      ensures State() == OnLoadError(old(State()))
      ensures events == old(events)
    {
      if !fallbackTriggered {
        fallbackTriggered := true;
        TriggerFallbackMechanism();
      }
    }

    /** `img.onload` / `imgGrey.onload` */
    method ImageOnLoad(marker: Marker)
      requires Valid()
      modifies this
      ensures State() == Step(old(State()), Loaded(marker))
      ensures Valid() && events == old(events) + [Loaded(marker)]
      ensures fallbackSetups <= 1 && fallbackSetups == (if fallbackTriggered then 1 else 0)
      ensures iconSetups > 0 ==> activeMarkerLoaded && expiredMarkerLoaded
      ensures forall id :: SourceAdds(calls, id) <= 1 && LayerAdds(calls, id) <= 1
    {
      match marker {
        case ActiveMarker =>
          calls := calls + [AddImage(ActiveIcon)];
          activeMarkerLoaded := true;
        case ExpiredMarker =>
          calls := calls + [AddImage(ExpiredIcon)];
          expiredMarkerLoaded := true;
      }
      HandleMarkerLoadSuccess();
      Record(Loaded(marker));
    }

    /** `img.onerror` / `imgGrey.onerror` */
    method ImageOnError(marker: Marker)
      requires Valid()
      modifies this
      ensures State() == Step(old(State()), Failed(marker))
      ensures Valid() && events == old(events) + [Failed(marker)]
      ensures fallbackSetups <= 1 && fallbackSetups == (if fallbackTriggered then 1 else 0)
      ensures iconSetups > 0 ==> activeMarkerLoaded && expiredMarkerLoaded
      ensures forall id :: SourceAdds(calls, id) <= 1 && LayerAdds(calls, id) <= 1
    {
      HandleMarkerLoadError(marker);
      Record(Failed(marker));
    }

    /** The `catch` of the setup block, with `fallbackTriggered` and `triggerFallbackMechanism` declared before the `try`. */
    method SetupCatch()
      requires Valid()
      modifies this
      ensures State() == Step(old(State()), SetupThrew)
      ensures Valid() && events == old(events) + [SetupThrew]
      ensures fallbackSetups <= 1 && fallbackSetups == (if fallbackTriggered then 1 else 0)
      ensures iconSetups > 0 ==> activeMarkerLoaded && expiredMarkerLoaded
      ensures forall id :: SourceAdds(calls, id) <= 1 && LayerAdds(calls, id) <= 1
    {
      if !fallbackTriggered {
        fallbackTriggered := true;
        TriggerFallbackMechanism();
      }
      Record(SetupThrew);
    }
  }

  /** One image loads and the other fails: the coordinator ends with the fallback only. */
  method LoadThenFailExample() {
    var c := new Coordinator();
    c.ImageOnLoad(ActiveMarker);
    c.ImageOnError(ExpiredMarker);
    ExactlyOneSetup(c.events);
    assert !c.events[1].Loaded?;
    assert c.fallbackSetups == 1 && c.iconSetups == 0 && LayerId in c.layers;
  }
}
