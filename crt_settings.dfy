/**
 * The CRT parameter bundle and its binding to the shader's uniforms.
 *
 * CrtSettings is an immutable record of fourteen scalar knobs with declared
 * defaults; every change is a copy with one field replaced.  The binding
 * writes each of the fourteen values into the uniform of the same name on a
 * shader, which is modelled as a table from uniform name to value plus a log
 * of every write it received.
 *
 * Values are `real`s: the code does no arithmetic on them, it only stores and
 * forwards them, so no floating-point reasoning is needed.
 */
module CrtSettingsModel {

  /** The fourteen fields, with the defaults of the data class's constructor. */
  datatype CrtSettings = CrtSettings(
    // physical hardware simulation
    fishEyeStrength: real := 0.90,
    screenZoom: real := 1.40,
    vignetteIntensity: real := 0.90,
    gridOpacity: real := 0.05,
    gridSpacing: real := 80.0,
    scanlineDensity: real := 0.50,
    scanlineOpacity: real := 0.05,
    // signal interference and glitches
    textAnaglyph: real := 4.0,
    gridAnaglyph: real := 6.0,
    signalShift: real := 15.0,
    jitterChance: real := 0.01,
    jitterIntensity: real := 45.0,
    globalJitterChance: real := 0.005,
    globalJitterStrength: real := 25.0
  )

  /** Names for the fields, so that "one field" can be a parameter. */
  datatype Field =
    | FishEyeStrength | ScreenZoom | VignetteIntensity | GridOpacity
    | GridSpacing | ScanlineDensity | ScanlineOpacity
    | TextAnaglyph | GridAnaglyph | SignalShift | JitterChance
    | JitterIntensity | GlobalJitterChance | GlobalJitterStrength

  /** Every field once, in declaration order. */
  function AllFields(): seq<Field>
  {
    [FishEyeStrength, ScreenZoom, VignetteIntensity, GridOpacity,
     GridSpacing, ScanlineDensity, ScanlineOpacity,
     TextAnaglyph, GridAnaglyph, SignalShift, JitterChance,
     JitterIntensity, GlobalJitterChance, GlobalJitterStrength]
  }

  /** The position of a field in declaration order. */
  function FieldIndex(f: Field): (i: nat)
    ensures i < |AllFields()| && AllFields()[i] == f
  {
    match f
    case FishEyeStrength => 0
    case ScreenZoom => 1
    case VignetteIntensity => 2
    case GridOpacity => 3
    case GridSpacing => 4
    case ScanlineDensity => 5
    case ScanlineOpacity => 6
    case TextAnaglyph => 7
    case GridAnaglyph => 8
    case SignalShift => 9
    case JitterChance => 10
    case JitterIntensity => 11
    case GlobalJitterChance => 12
    case GlobalJitterStrength => 13
  }

  /** The enumeration lists all fourteen fields, each exactly once. */
  lemma AllFieldsOnce()
    ensures |AllFields()| == 14
    ensures forall f :: f in AllFields()
    ensures forall i, j :: 0 <= i < j < |AllFields()| ==> AllFields()[i] != AllFields()[j]
  {
    var fs := AllFields();
    forall f ensures f in fs {
      assert fs[FieldIndex(f)] == f;
    }
    forall i | 0 <= i < 14 ensures FieldIndex(fs[i]) == i {
    }
    forall i, j | 0 <= i < j < 14 ensures fs[i] != fs[j] {
      assert FieldIndex(fs[i]) != FieldIndex(fs[j]);
    }
  }

  /** Reads one field. */
  function Get(s: CrtSettings, f: Field): real
  {
    match f
    case FishEyeStrength => s.fishEyeStrength
    case ScreenZoom => s.screenZoom
    case VignetteIntensity => s.vignetteIntensity
    case GridOpacity => s.gridOpacity
    case GridSpacing => s.gridSpacing
    case ScanlineDensity => s.scanlineDensity
    case ScanlineOpacity => s.scanlineOpacity
    case TextAnaglyph => s.textAnaglyph
    case GridAnaglyph => s.gridAnaglyph
    case SignalShift => s.signalShift
    case JitterChance => s.jitterChance
    case JitterIntensity => s.jitterIntensity
    case GlobalJitterChance => s.globalJitterChance
    case GlobalJitterStrength => s.globalJitterStrength
  }

  /** Two bundles that agree on every field are the same bundle. */
  lemma SettingsExtensional(a: CrtSettings, b: CrtSettings)
    requires forall f :: Get(a, f) == Get(b, f)
    ensures a == b
  {
    assert Get(a, FishEyeStrength) == Get(b, FishEyeStrength);
    assert Get(a, ScreenZoom) == Get(b, ScreenZoom);
    assert Get(a, VignetteIntensity) == Get(b, VignetteIntensity);
    assert Get(a, GridOpacity) == Get(b, GridOpacity);
    assert Get(a, GridSpacing) == Get(b, GridSpacing);
    assert Get(a, ScanlineDensity) == Get(b, ScanlineDensity);
    assert Get(a, ScanlineOpacity) == Get(b, ScanlineOpacity);
    assert Get(a, TextAnaglyph) == Get(b, TextAnaglyph);
    assert Get(a, GridAnaglyph) == Get(b, GridAnaglyph);
    assert Get(a, SignalShift) == Get(b, SignalShift);
    assert Get(a, JitterChance) == Get(b, JitterChance);
    assert Get(a, JitterIntensity) == Get(b, JitterIntensity);
    assert Get(a, GlobalJitterChance) == Get(b, GlobalJitterChance);
    assert Get(a, GlobalJitterStrength) == Get(b, GlobalJitterStrength);
  }

  /** `copy(FIELD = v)`: the named field becomes v, the other thirteen stay. */
  function With(s: CrtSettings, f: Field, v: real): (r: CrtSettings)
    ensures Get(r, f) == v
    ensures forall g :: g != f ==> Get(r, g) == Get(s, g)
  {
    match f
    case FishEyeStrength => s.(fishEyeStrength := v)
    case ScreenZoom => s.(screenZoom := v)
    case VignetteIntensity => s.(vignetteIntensity := v)
    case GridOpacity => s.(gridOpacity := v)
    case GridSpacing => s.(gridSpacing := v)
    case ScanlineDensity => s.(scanlineDensity := v)
    case ScanlineOpacity => s.(scanlineOpacity := v)
    case TextAnaglyph => s.(textAnaglyph := v)
    case GridAnaglyph => s.(gridAnaglyph := v)
    case SignalShift => s.(signalShift := v)
    case JitterChance => s.(jitterChance := v)
    case JitterIntensity => s.(jitterIntensity := v)
    case GlobalJitterChance => s.(globalJitterChance := v)
    case GlobalJitterStrength => s.(globalJitterStrength := v)
  }

  /** Overriding a field twice with the same value is overriding it once. */
  lemma WithIdempotent(s: CrtSettings, f: Field, v: real)
    ensures With(With(s, f, v), f, v) == With(s, f, v)
  {
    SettingsExtensional(With(With(s, f, v), f, v), With(s, f, v));
  }

  /** The second of two overrides of one field wins. */
  lemma WithLastWins(s: CrtSettings, f: Field, u: real, v: real)
    ensures With(With(s, f, u), f, v) == With(s, f, v)
  {
    SettingsExtensional(With(With(s, f, u), f, v), With(s, f, v));
  }

  /** Overrides of two different fields do not interfere. */
  lemma WithCommutes(s: CrtSettings, f: Field, u: real, g: Field, v: real)
    requires f != g
    ensures With(With(s, f, u), g, v) == With(With(s, g, v), f, u)
  {
    SettingsExtensional(With(With(s, f, u), g, v), With(With(s, g, v), f, u));
  }

  /** Overriding a field with the value it already holds changes nothing. */
  lemma WithCurrentValue(s: CrtSettings, f: Field)
    ensures With(s, f, Get(s, f)) == s
  {
    SettingsExtensional(With(s, f, Get(s, f)), s);
  }

  /** The default a bare `CrtSettings()` gives each field. */
  lemma DefaultsAsDeclared()
    ensures var d := CrtSettings();
      && d.fishEyeStrength == 0.90 && d.screenZoom == 1.40
      && d.vignetteIntensity == 0.90 && d.gridOpacity == 0.05
      && d.gridSpacing == 80.0 && d.scanlineDensity == 0.50
      && d.scanlineOpacity == 0.05 && d.textAnaglyph == 4.0
      && d.gridAnaglyph == 6.0 && d.signalShift == 15.0
      && d.jitterChance == 0.01 && d.jitterIntensity == 45.0
      && d.globalJitterChance == 0.005 && d.globalJitterStrength == 25.0
  {
  }

  // ---------------------------------------------------------------------
  // Uniform binding

  /** The shader uniform each field is written to. */
  function UniformName(f: Field): string
  {
    match f
    case FishEyeStrength => "FISH_EYE_STRENGTH"
    case ScreenZoom => "SCREEN_ZOOM"
    case VignetteIntensity => "VIGNETTE_INTENSITY"
    case GridOpacity => "GRID_OPACITY"
    case GridSpacing => "GRID_SPACING"
    case ScanlineDensity => "SCANLINE_DENSITY"
    case ScanlineOpacity => "SCANLINE_OPACITY"
    case TextAnaglyph => "TEXT_ANAGLYPH"
    case GridAnaglyph => "GRID_ANAGLYPH"
    case SignalShift => "SIGNAL_SHIFT"
    case JitterChance => "JITTER_CHANCE"
    case JitterIntensity => "JITTER_INTENSITY"
    case GlobalJitterChance => "GLOBAL_JITTER_CHANCE"
    case GlobalJitterStrength => "GLOBAL_JITTER_STRENGTH"
  }

  /** Different fields go to different uniforms. */
  lemma UniformNameInjective(f: Field, g: Field)
    requires f != g
    ensures UniformName(f) != UniformName(g)
  {
  }

  /** The names of all uniforms the binding writes. */
  function CrtUniformNames(): (names: set<string>)
    ensures forall f :: UniformName(f) in names
    ensures forall n :: n in names ==> exists f :: UniformName(f) == n
  {
    AllFieldsOnce();
    set f | f in AllFields() :: UniformName(f)
  }

  /** A shader declaring the binding's names declares each name as the binding spells it. */
  lemma CrtUniformNamesDeclared(declared: set<string>)
    requires CrtUniformNames() <= declared
    ensures "FISH_EYE_STRENGTH" in declared && "SCREEN_ZOOM" in declared
    ensures "VIGNETTE_INTENSITY" in declared && "GRID_OPACITY" in declared
    ensures "GRID_SPACING" in declared && "SCANLINE_DENSITY" in declared
    ensures "SCANLINE_OPACITY" in declared && "TEXT_ANAGLYPH" in declared
    ensures "GRID_ANAGLYPH" in declared && "SIGNAL_SHIFT" in declared
    ensures "JITTER_CHANCE" in declared && "JITTER_INTENSITY" in declared
    ensures "GLOBAL_JITTER_CHANCE" in declared && "GLOBAL_JITTER_STRENGTH" in declared
  {
    var names := CrtUniformNames();
    assert UniformName(FishEyeStrength) in names;
    assert UniformName(ScreenZoom) in names;
    assert UniformName(VignetteIntensity) in names;
    assert UniformName(GridOpacity) in names;
    assert UniformName(GridSpacing) in names;
    assert UniformName(ScanlineDensity) in names;
    assert UniformName(ScanlineOpacity) in names;
    assert UniformName(TextAnaglyph) in names;
    assert UniformName(GridAnaglyph) in names;
    assert UniformName(SignalShift) in names;
    assert UniformName(JitterChance) in names;
    assert UniformName(JitterIntensity) in names;
    assert UniformName(GlobalJitterChance) in names;
    assert UniformName(GlobalJitterStrength) in names;
  }

  /** One `setFloatUniform(name, value)` call. */
  datatype Write = Write(name: string, value: real)

  /** The uniform table after the writes `ws`, applied in order, to `m`. */
  function ApplyWrites(m: map<string, real>, ws: seq<Write>): map<string, real>
    decreases |ws|
  {
    if ws == [] then m
    else ApplyWrites(m, ws[..|ws| - 1])[ws[|ws| - 1].name := ws[|ws| - 1].value]
  }

  /** The names the writes touch. */
  function WrittenNames(ws: seq<Write>): (names: set<string>)
    ensures forall i :: 0 <= i < |ws| ==> ws[i].name in names
    ensures forall n :: n in names ==> exists i :: 0 <= i < |ws| && ws[i].name == n
  {
    set i | 0 <= i < |ws| :: ws[i].name
  }

  ghost predicate DistinctNames(ws: seq<Write>)
  {
    forall i, j :: 0 <= i < j < |ws| ==> ws[i].name != ws[j].name
  }

  /** A name no write touches keeps its entry, or its absence. */
  lemma {:induction false} ApplyWritesUntouched(m: map<string, real>, ws: seq<Write>, n: string)
    requires n !in WrittenNames(ws)
    ensures n in ApplyWrites(m, ws) <==> n in m
    ensures n in m ==> ApplyWrites(m, ws)[n] == m[n]
  {
    if ws != [] {
      var init := ws[..|ws| - 1];
      assert forall i :: 0 <= i < |init| ==> init[i] == ws[i];
      ApplyWritesUntouched(m, init, n);
    }
  }

  /** The table holds exactly the old names and the written ones. */
  lemma {:induction false} ApplyWritesKeys(m: map<string, real>, ws: seq<Write>)
    ensures ApplyWrites(m, ws).Keys == m.Keys + WrittenNames(ws)
  {
    if ws != [] {
      var init := ws[..|ws| - 1];
      ApplyWritesKeys(m, init);
      assert WrittenNames(ws) == WrittenNames(init) + {ws[|ws| - 1].name} by {
        forall n | n in WrittenNames(ws) ensures n in WrittenNames(init) + {ws[|ws| - 1].name} {
          var i :| 0 <= i < |ws| && ws[i].name == n;
          if i < |init| { assert init[i] == ws[i]; }
        }
        forall n | n in WrittenNames(init) ensures n in WrittenNames(ws) {
          var i :| 0 <= i < |init| && init[i].name == n;
          assert ws[i] == init[i];
        }
      }
    }
  }

  /** With pairwise distinct names, each written name holds its write's value. */
  lemma {:induction false} ApplyWritesDistinct(m: map<string, real>, ws: seq<Write>, k: nat)
    requires DistinctNames(ws)
    requires k < |ws|
    ensures ws[k].name in ApplyWrites(m, ws)
    ensures ApplyWrites(m, ws)[ws[k].name] == ws[k].value
  {
    var init := ws[..|ws| - 1];
    if k < |ws| - 1 {
      assert init[k] == ws[k];
      ApplyWritesDistinct(m, init, k);
    }
  }

  /** The fourteen writes of `updateCrtUniforms`, in the order it issues them. */
  function BindingWrites(s: CrtSettings): seq<Write>
  {
    [ Write("FISH_EYE_STRENGTH", s.fishEyeStrength),
      Write("SCREEN_ZOOM", s.screenZoom),
      Write("VIGNETTE_INTENSITY", s.vignetteIntensity),
      Write("GRID_OPACITY", s.gridOpacity),
      Write("GRID_SPACING", s.gridSpacing),
      Write("SCANLINE_DENSITY", s.scanlineDensity),
      Write("SCANLINE_OPACITY", s.scanlineOpacity),
      Write("TEXT_ANAGLYPH", s.textAnaglyph),
      Write("GRID_ANAGLYPH", s.gridAnaglyph),
      Write("SIGNAL_SHIFT", s.signalShift),
      Write("JITTER_CHANCE", s.jitterChance),
      Write("JITTER_INTENSITY", s.jitterIntensity),
      Write("GLOBAL_JITTER_CHANCE", s.globalJitterChance),
      Write("GLOBAL_JITTER_STRENGTH", s.globalJitterStrength) ]
  }

  /**
   * The binding issues exactly fourteen writes, the i-th one carrying the
   * i-th field's uniform name and value, under pairwise distinct names.
   */
  lemma BindingWritesShape(s: CrtSettings)
    ensures |BindingWrites(s)| == 14
    ensures forall i :: 0 <= i < 14 ==>
      BindingWrites(s)[i] == Write(UniformName(AllFields()[i]), Get(s, AllFields()[i]))
    ensures DistinctNames(BindingWrites(s))
    ensures WrittenNames(BindingWrites(s)) == CrtUniformNames()
  {
    var ws, fs := BindingWrites(s), AllFields();
    AllFieldsOnce();
    forall i | 0 <= i < 14 ensures ws[i] == Write(UniformName(fs[i]), Get(s, fs[i])) {
    }
    forall i, j | 0 <= i < j < 14 ensures ws[i].name != ws[j].name {
      UniformNameInjective(fs[i], fs[j]);
    }
    forall n | n in CrtUniformNames() ensures n in WrittenNames(ws) {
      var f :| UniformName(f) == n;
      assert ws[FieldIndex(f)].name == n;
    }
  }

  /** The uniform table after `updateCrtUniforms(s)` on table `m`. */
  function Bind(m: map<string, real>, s: CrtSettings): map<string, real>
  {
    ApplyWrites(m, BindingWrites(s))
  }

  /** After binding, the uniform named after each field holds that field's value. */
  lemma BindSetsEveryField(m: map<string, real>, s: CrtSettings, f: Field)
    ensures UniformName(f) in Bind(m, s)
    ensures Bind(m, s)[UniformName(f)] == Get(s, f)
  {
    BindingWritesShape(s);
    ApplyWritesDistinct(m, BindingWrites(s), FieldIndex(f));
  }

  /** Binding leaves every other uniform (`size`, `time`, ...) as it was. */
  lemma BindLeavesOthers(m: map<string, real>, s: CrtSettings, n: string)
    requires n !in CrtUniformNames()
    ensures n in Bind(m, s) <==> n in m
    ensures n in m ==> Bind(m, s)[n] == m[n]
  {
    BindingWritesShape(s);
    ApplyWritesUntouched(m, BindingWrites(s), n);
  }

  /** The table after binding: the old names plus the fourteen. */
  lemma BindKeys(m: map<string, real>, s: CrtSettings)
    ensures Bind(m, s).Keys == m.Keys + CrtUniformNames()
  {
    BindingWritesShape(s);
    ApplyWritesKeys(m, BindingWrites(s));
  }

  /** Binding `b` after anything the binding wrote equals binding `b` alone. */
  lemma BindOverrides(m: map<string, real>, a: CrtSettings, b: CrtSettings)
    ensures Bind(Bind(m, a), b) == Bind(m, b)
  {
    var l, r := Bind(Bind(m, a), b), Bind(m, b);
    BindKeys(m, a);
    BindKeys(Bind(m, a), b);
    BindKeys(m, b);
    forall n | n in l.Keys ensures l[n] == r[n] {
      if n in CrtUniformNames() {
        var f :| UniformName(f) == n;
        BindSetsEveryField(Bind(m, a), b, f);
        BindSetsEveryField(m, b, f);
      } else {
        BindLeavesOthers(Bind(m, a), b, n);
        BindLeavesOthers(m, a, n);
        BindLeavesOthers(m, b, n);
      }
    }
  }

  /** Binding the same bundle twice leaves the table of binding it once. */
  lemma BindIdempotent(m: map<string, real>, s: CrtSettings)
    ensures Bind(Bind(m, s), s) == Bind(m, s)
  {
    BindOverrides(m, s, s);
  }

  /**
   * A shader program, seen only through its float uniforms: the names its
   * source declares, the value each has been set to, and the log of every
   * `setFloatUniform` call it received.
   */
  class Shader {
    const declared: set<string>
    var uniforms: map<string, real>
    var writes: seq<Write>

    constructor (declared: set<string>)
      ensures this.declared == declared
      ensures uniforms == map[] && writes == []
    {
      this.declared := declared;
      uniforms := map[];
      writes := [];
    }

    /** Sets one uniform; the name must be one the shader declares. */
    method SetFloatUniform(name: string, value: real)
      requires name in declared
      modifies this
      ensures uniforms == old(uniforms)[name := value]
      ensures writes == old(writes) + [Write(name, value)]
    {
      uniforms := uniforms[name := value];
      writes := writes + [Write(name, value)];
    }

    /** `updateCrtUniforms`: the fourteen writes, one per field. */
    method UpdateCrtUniforms(settings: CrtSettings)
      requires CrtUniformNames() <= declared
      modifies this
      ensures uniforms == Bind(old(uniforms), settings)
      ensures writes == old(writes) + BindingWrites(settings)
    {
      CrtUniformNamesDeclared(declared);
      BindAsUpdates(uniforms, settings);
      BindingAsLog(writes, settings);
      SetFloatUniform("FISH_EYE_STRENGTH", settings.fishEyeStrength);
      SetFloatUniform("SCREEN_ZOOM", settings.screenZoom);
      SetFloatUniform("VIGNETTE_INTENSITY", settings.vignetteIntensity);
      SetFloatUniform("GRID_OPACITY", settings.gridOpacity);
      SetFloatUniform("GRID_SPACING", settings.gridSpacing);
      SetFloatUniform("SCANLINE_DENSITY", settings.scanlineDensity);
      SetFloatUniform("SCANLINE_OPACITY", settings.scanlineOpacity);
      SetFloatUniform("TEXT_ANAGLYPH", settings.textAnaglyph);
      SetFloatUniform("GRID_ANAGLYPH", settings.gridAnaglyph);
      SetFloatUniform("SIGNAL_SHIFT", settings.signalShift);
      SetFloatUniform("JITTER_CHANCE", settings.jitterChance);
      SetFloatUniform("JITTER_INTENSITY", settings.jitterIntensity);
      SetFloatUniform("GLOBAL_JITTER_CHANCE", settings.globalJitterChance);
      SetFloatUniform("GLOBAL_JITTER_STRENGTH", settings.globalJitterStrength);
    }
  }

  /** The binding's table is the fourteen updates made one after the other. */
  lemma BindAsUpdates(m: map<string, real>, s: CrtSettings)
    ensures Bind(m, s) == m
      ["FISH_EYE_STRENGTH" := s.fishEyeStrength]
      ["SCREEN_ZOOM" := s.screenZoom]
      ["VIGNETTE_INTENSITY" := s.vignetteIntensity]
      ["GRID_OPACITY" := s.gridOpacity]
      ["GRID_SPACING" := s.gridSpacing]
      ["SCANLINE_DENSITY" := s.scanlineDensity]
      ["SCANLINE_OPACITY" := s.scanlineOpacity]
      ["TEXT_ANAGLYPH" := s.textAnaglyph]
      ["GRID_ANAGLYPH" := s.gridAnaglyph]
      ["SIGNAL_SHIFT" := s.signalShift]
      ["JITTER_CHANCE" := s.jitterChance]
      ["JITTER_INTENSITY" := s.jitterIntensity]
      ["GLOBAL_JITTER_CHANCE" := s.globalJitterChance]
      ["GLOBAL_JITTER_STRENGTH" := s.globalJitterStrength]
  {
    var ws := BindingWrites(s);
    assert ws[..0] == [];
    assert ws[..14] == ws;
    ApplyWritesSnoc(m, ws, 0);
    ApplyWritesSnoc(m, ws, 1);
    ApplyWritesSnoc(m, ws, 2);
    ApplyWritesSnoc(m, ws, 3);
    ApplyWritesSnoc(m, ws, 4);
    ApplyWritesSnoc(m, ws, 5);
    ApplyWritesSnoc(m, ws, 6);
    ApplyWritesSnoc(m, ws, 7);
    ApplyWritesSnoc(m, ws, 8);
    ApplyWritesSnoc(m, ws, 9);
    ApplyWritesSnoc(m, ws, 10);
    ApplyWritesSnoc(m, ws, 11);
    ApplyWritesSnoc(m, ws, 12);
    ApplyWritesSnoc(m, ws, 13);
  }

  /** The binding's writes are the fourteen calls logged one after the other. */
  lemma BindingAsLog(log: seq<Write>, s: CrtSettings)
    ensures log + BindingWrites(s) == log
      + [Write("FISH_EYE_STRENGTH", s.fishEyeStrength)]
      + [Write("SCREEN_ZOOM", s.screenZoom)]
      + [Write("VIGNETTE_INTENSITY", s.vignetteIntensity)]
      + [Write("GRID_OPACITY", s.gridOpacity)]
      + [Write("GRID_SPACING", s.gridSpacing)]
      + [Write("SCANLINE_DENSITY", s.scanlineDensity)]
      + [Write("SCANLINE_OPACITY", s.scanlineOpacity)]
      + [Write("TEXT_ANAGLYPH", s.textAnaglyph)]
      + [Write("GRID_ANAGLYPH", s.gridAnaglyph)]
      + [Write("SIGNAL_SHIFT", s.signalShift)]
      + [Write("JITTER_CHANCE", s.jitterChance)]
      + [Write("JITTER_INTENSITY", s.jitterIntensity)]
      + [Write("GLOBAL_JITTER_CHANCE", s.globalJitterChance)]
      + [Write("GLOBAL_JITTER_STRENGTH", s.globalJitterStrength)]
  {
  }

  /** Replaying one more write of `ws` updates the table by that write. */
  lemma ApplyWritesSnoc(m: map<string, real>, ws: seq<Write>, k: nat)
    requires k < |ws|
    ensures ApplyWrites(m, ws[..k + 1]) == ApplyWrites(m, ws[..k])[ws[k].name := ws[k].value]
  {
    assert ws[..k + 1][..k] == ws[..k];
  }
}
