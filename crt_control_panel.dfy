/**
 * The side panel of sliders that edits a CrtSettings bundle.
 *
 * The panel receives the current bundle and a change callback.  Each of its
 * fourteen sliders shows one field of the bundle and, when moved to value v,
 * hands `settings.copy(FIELD = v)` to the callback.  The panel itself keeps
 * no state: what it does for a value-change event is the bundle it emits.
 */
module CrtControlPanel {
  import opened CrtSettingsModel

  /** A slider row: its caption, its value range, and the field it edits. */
  datatype Slider = Slider(caption: string, min: real, max: real, field: Field)

  /** The fourteen sliders, top to bottom, grouped as on screen. */
  function Sliders(): seq<Slider>
  {
    [ // optics & geometry
      Slider("Fish Eye", -2.0, 2.0, FishEyeStrength),
      Slider("Zoom", 0.0, 2.5, ScreenZoom),
      Slider("Vignette", 0.0, 2.0, VignetteIntensity),
      // phosphor & grid
      Slider("Grid Opacity", 0.0, 1.0, GridOpacity),
      Slider("Grid Spacing", 10.0, 400.0, GridSpacing),
      Slider("Scanline Density", 0.0, 50.0, ScanlineDensity),
      Slider("Scanline Opacity", 0.0, 0.5, ScanlineOpacity),
      // signal glitch
      Slider("Text Anaglyph", 0.0, 50.0, TextAnaglyph),
      Slider("Grid Anaglyph", 0.0, 50.0, GridAnaglyph),
      Slider("Signal Shift", -100.0, 100.0, SignalShift),
      // temporal instability
      Slider("Jitter Chance", 0.0, 0.9, JitterChance),
      Slider("Jitter Intensity", 0.0, 200.0, JitterIntensity),
      Slider("Global Jitter Chance", 0.0, 0.9, GlobalJitterChance),
      Slider("Global Jitter Power", 0.0, 150.0, GlobalJitterStrength) ]
  }

  /** The value slider `i` displays: the `value` argument of its row. */
  function Displayed(settings: CrtSettings, i: nat): (shown: real)
    requires i < |Sliders()|
    ensures shown == Get(settings, Sliders()[i].field)
  {
    match i
    case 0 => settings.fishEyeStrength
    case 1 => settings.screenZoom
    case 2 => settings.vignetteIntensity
    case 3 => settings.gridOpacity
    case 4 => settings.gridSpacing
    case 5 => settings.scanlineDensity
    case 6 => settings.scanlineOpacity
    case 7 => settings.textAnaglyph
    case 8 => settings.gridAnaglyph
    case 9 => settings.signalShift
    case 10 => settings.jitterChance
    case 11 => settings.jitterIntensity
    case 12 => settings.globalJitterChance
    case 13 => settings.globalJitterStrength
  }

  /**
   * The bundle slider `i`'s handler passes to `onSettingsChange` when the
   * slider reports value v: the slider's own field becomes v, the other
   * thirteen are those of the bundle the panel was given.
   */
  function OnValueChange(settings: CrtSettings, i: nat, v: real): (emitted: CrtSettings)
    requires i < |Sliders()|
    ensures Get(emitted, Sliders()[i].field) == v
    ensures forall g :: g != Sliders()[i].field ==> Get(emitted, g) == Get(settings, g)
  {
    match i
    case 0 => settings.(fishEyeStrength := v)
    case 1 => settings.(screenZoom := v)
    case 2 => settings.(vignetteIntensity := v)
    case 3 => settings.(gridOpacity := v)
    case 4 => settings.(gridSpacing := v)
    case 5 => settings.(scanlineDensity := v)
    case 6 => settings.(scanlineOpacity := v)
    case 7 => settings.(textAnaglyph := v)
    case 8 => settings.(gridAnaglyph := v)
    case 9 => settings.(signalShift := v)
    case 10 => settings.(jitterChance := v)
    case 11 => settings.(jitterIntensity := v)
    case 12 => settings.(globalJitterChance := v)
    case 13 => settings.(globalJitterStrength := v)
  }

  /** Each handler is exactly the one-field copy of the field its slider shows. */
  lemma HandlerIsCopyOfShownField(settings: CrtSettings, i: nat, v: real)
    requires i < |Sliders()|
    ensures OnValueChange(settings, i, v) == With(settings, Sliders()[i].field, v)
    ensures Displayed(OnValueChange(settings, i, v), i) == v
  {
    SettingsExtensional(OnValueChange(settings, i, v), With(settings, Sliders()[i].field, v));
  }

  /** There are fourteen sliders and every field has exactly one of them. */
  lemma EveryFieldHasOneSlider()
    ensures |Sliders()| == 14
    ensures forall i :: 0 <= i < 14 ==> Sliders()[i].field == AllFields()[i]
    ensures forall f :: Sliders()[FieldIndex(f)].field == f
    ensures forall i, j :: 0 <= i < j < 14 ==> Sliders()[i].field != Sliders()[j].field
  {
    var sl, fs := Sliders(), AllFields();
    AllFieldsOnce();
    forall i | 0 <= i < 14 ensures sl[i].field == fs[i] {
    }
  }

  /** Every slider's range is a proper interval. */
  lemma RangesProper(i: nat)
    requires i < |Sliders()|
    ensures Sliders()[i].min < Sliders()[i].max
  {
  }

  /** Every declared default lies inside its slider's range. */
  lemma DefaultsInRange(i: nat)
    requires i < |Sliders()|
    ensures Sliders()[i].min <= Displayed(CrtSettings(), i) <= Sliders()[i].max
  {
  }

  /**
   * A value the slider can report (it keeps its value inside its range)
   * leaves the edited field inside that range, and a panel whose fields all
   * lie in range emits bundles whose fields all lie in range.
   */
  lemma ChangeKeepsRanges(settings: CrtSettings, i: nat, v: real)
    requires i < |Sliders()|
    requires Sliders()[i].min <= v <= Sliders()[i].max
    requires InRanges(settings)
    ensures InRanges(OnValueChange(settings, i, v))
  {
    var e := OnValueChange(settings, i, v);
    forall j | 0 <= j < |Sliders()| ensures Sliders()[j].min <= Displayed(e, j) <= Sliders()[j].max {
      if j != i {
        EveryFieldHasOneSlider();
        assert Sliders()[j].field != Sliders()[i].field;
        assert Displayed(e, j) == Displayed(settings, j);
      }
    }
  }

  /** Every slider shows a value inside its own range. */
  ghost predicate InRanges(settings: CrtSettings)
  {
    forall j :: 0 <= j < |Sliders()| ==> Sliders()[j].min <= Displayed(settings, j) <= Sliders()[j].max
  }

  /** A value-change event reported by slider `slider`. */
  datatype Event = Event(slider: nat, value: real)

  /**
   * The bundles the panel hands to `onSettingsChange` for a run of events
   * while it is composed with one `settings`: one call per event, in order,
   * each a copy of that same `settings`, which the panel never changes.
   */
  function Emitted(settings: CrtSettings, events: seq<Event>): (calls: seq<CrtSettings>)
    requires forall k :: 0 <= k < |events| ==> events[k].slider < |Sliders()|
    ensures |calls| == |events|
    ensures forall k :: 0 <= k < |events| ==>
      calls[k] == OnValueChange(settings, events[k].slider, events[k].value)
    decreases |events|
  {
    if events == [] then []
    else
      var last := events[|events| - 1];
      Emitted(settings, events[..|events| - 1]) + [OnValueChange(settings, last.slider, last.value)]
  }

  /**
   * The screens own the bundle and store every emitted one (`settings = it`),
   * so the panel is recomposed with the new bundle before the next event.
   */
  function Hosted(settings: CrtSettings, events: seq<Event>): CrtSettings
    requires forall k :: 0 <= k < |events| ==> events[k].slider < |Sliders()|
    decreases |events|
  {
    if events == [] then settings
    else
      var last := events[|events| - 1];
      OnValueChange(Hosted(settings, events[..|events| - 1]), last.slider, last.value)
  }

  /** The position of the last event whose slider edits `f`, or -1 if none does. */
  function LastTouch(events: seq<Event>, f: Field): (r: int)
    requires forall k :: 0 <= k < |events| ==> events[k].slider < |Sliders()|
    ensures -1 <= r < |events|
    ensures r >= 0 ==> Sliders()[events[r].slider].field == f
    ensures forall l :: r < l < |events| ==> Sliders()[events[l].slider].field != f
    decreases |events|
  {
    if events == [] then -1
    else if Sliders()[events[|events| - 1].slider].field == f then |events| - 1
    else LastTouch(events[..|events| - 1], f)
  }

  /**
   * Under the screens, a field ends at the value of the last event of its
   * slider, or keeps its value when no event touched it.
   */
  lemma {:induction false} HostedLastEventWins(settings: CrtSettings, events: seq<Event>, f: Field)
    requires forall k :: 0 <= k < |events| ==> events[k].slider < |Sliders()|
    ensures var k := LastTouch(events, f);
      Get(Hosted(settings, events), f) == if k < 0 then Get(settings, f) else events[k].value
    decreases |events|
  {
    if events != [] {
      var init := events[..|events| - 1];
      assert forall k :: 0 <= k < |init| ==> init[k] == events[k];
      HostedLastEventWins(settings, init, f);
    }
  }
}
