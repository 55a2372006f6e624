# Cathode-AGSL core, modelled in Dafny

Cathode-AGSL is an Android demo app. It draws a CRT-monitor look over Compose
screens with AGSL runtime shaders. Most of it is UI glue. This project models
the three parts that hold sequential logic, and proves what each of them
promises.

- **CRT settings and the uniform binding** (`crt_settings.dfy`, module
  `CrtSettingsModel`).
  - `CrtSettings` is an immutable bundle of fourteen shader knobs, each with a
    declared default. Every change is a `copy` with one field replaced.
  - `RuntimeShader.updateCrtUniforms` makes fourteen `setFloatUniform`
    calls, one per field, each under the field's upper-case uniform name.
  - The shader is a class. It holds the names its source declares, a table
    from uniform name to value, and a log of the writes it received.
- **The control panel** (`crt_control_panel.dfy`, module `CrtControlPanel`).
  - There are fourteen slider rows. Each has a caption and a value range,
    shows one field, and answers a value change by handing
    `settings.copy(FIELD = v)` to `onSettingsChange`.
  - The panel keeps no state, so it is modelled as functions.
- **The laser text display** (`laser_highlight.dfy` and `laser_typing.dfy`,
  modules `LaserHighlight` and `LaserTyping`).
  - The keyword highlighter takes the visible prefix of the text. For each
    entry of a fixed keyword table, in declaration order, it runs an
    `indexOf` loop that adds one bold span in the entry's colour per hit.
  - The highlighter's loop is a Dafny `while` method, proved against a
    specification function of all hits of the key.
  - The typing sequencer is the `LaunchedEffect` loop, with each `delay`
    abstracted to one tick. It reveals one character per tick and calls
    `onCharAdded` after each. It ends writing on the tick after the last
    character. It is a pure state machine, plus a class whose methods are
    proved to follow that machine.
  - The cursor clamp in the layout callback picks the character the laser
    sits on.

Uniform values are `real`s. The code only stores and forwards them, so no
float rounding enters any property.

Three facts of the code the model keeps, because they decide what is
proved:

- **Overlapping hits.** After a hit at `index` the search resumes at
  `index + 1` (LaserTextDisplay.kt:110), not after the key, so overlapping
  hits of one key are all styled. `LaserHighlight.OverlappingHitsExample`
  shows two such spans.
- **Uniform names.** The names passed to `setFloatUniform` are the
  upper-case literals `FISH_EYE_STRENGTH`, `SCREEN_ZOOM` and so on
  (CrtSettings.kt:53-68), and the model uses those strings.
- **Table order.** `mapOf` keeps insertion order, so `forEach` visits the
  keyword entries in declaration order, and the model does the same.

## Model

| member | source | states |
|---|---|---|
| CrtSettingsModel.DefaultsAsDeclared | app/src/main/java/com/lebaillyapp/cathode_agsl/model/CrtSettings.kt:25-43 | `CrtSettings()` gives each of the fourteen fields its declared default (0.90, 1.40, 0.90, 0.05, 80.0, 0.50, 0.05, 4.0, 6.0, 15.0, 0.01, 45.0, 0.005, 25.0) |
| CrtSettingsModel.AllFieldsOnce | app/src/main/java/com/lebaillyapp/cathode_agsl/model/CrtSettings.kt:25-43 | the field enumeration has fourteen entries, contains every field, and repeats none |
| CrtSettingsModel.With | app/src/main/java/com/lebaillyapp/cathode_agsl/model/CrtSettings.kt:25-43 | `copy(FIELD = v)` makes that field v and leaves the other thirteen equal |
| CrtSettingsModel.WithIdempotent | app/src/main/java/com/lebaillyapp/cathode_agsl/model/CrtSettings.kt:25-43 | overriding a field twice with the same value equals overriding it once |
| CrtSettingsModel.WithLastWins | app/src/main/java/com/lebaillyapp/cathode_agsl/model/CrtSettings.kt:25-43 | of two overrides of one field, the second wins |
| CrtSettingsModel.WithCommutes | app/src/main/java/com/lebaillyapp/cathode_agsl/model/CrtSettings.kt:25-43 | overrides of two different fields can be done in either order |
| CrtSettingsModel.WithCurrentValue | app/src/main/java/com/lebaillyapp/cathode_agsl/model/CrtSettings.kt:25-43 | overriding a field with the value it holds gives back the same bundle |
| CrtSettingsModel.UniformName | app/src/main/java/com/lebaillyapp/cathode_agsl/model/CrtSettings.kt:53-68 | definition: the upper-case uniform name each field is written under; `UniformNameInjective` proves no two fields share one |
| CrtSettingsModel.UniformNameInjective | app/src/main/java/com/lebaillyapp/cathode_agsl/model/CrtSettings.kt:53-68 | different fields are written under different uniform names |
| CrtSettingsModel.CrtUniformNames | app/src/main/java/com/lebaillyapp/cathode_agsl/model/CrtSettings.kt:53-68 | the set of names the binding writes holds every field's uniform name and nothing else |
| CrtSettingsModel.CrtUniformNamesDeclared | app/src/main/java/com/lebaillyapp/cathode_agsl/model/CrtSettings.kt:53-68 | a shader that declares the binding's names declares each of the fourteen literal names the calls use |
| CrtSettingsModel.BindingWritesShape | app/src/main/java/com/lebaillyapp/cathode_agsl/model/CrtSettings.kt:51-69 | the binding issues exactly fourteen writes; the i-th carries the i-th field's name and value; the names are pairwise distinct; they are exactly the binding's name set |
| CrtSettingsModel.BindingWrites | app/src/main/java/com/lebaillyapp/cathode_agsl/model/CrtSettings.kt:53-68 | definition: the fourteen `setFloatUniform` calls, in source order, as name/value writes; `BindingWritesShape` states their count, order and distinctness |
| CrtSettingsModel.Bind | app/src/main/java/com/lebaillyapp/cathode_agsl/model/CrtSettings.kt:51-69 | definition: the uniform table after those writes; the `Bind…` lemmas below state what it holds |
| CrtSettingsModel.ApplyWritesDistinct | app/src/main/java/com/lebaillyapp/cathode_agsl/model/CrtSettings.kt:51-69 | after a run of writes under distinct names, each written name holds its own write's value, whatever the order |
| CrtSettingsModel.ApplyWritesUntouched | app/src/main/java/com/lebaillyapp/cathode_agsl/model/CrtSettings.kt:51-69 | a name no write touches keeps its value, or stays absent |
| CrtSettingsModel.ApplyWritesKeys | app/src/main/java/com/lebaillyapp/cathode_agsl/model/CrtSettings.kt:51-69 | after a run of writes the table holds exactly the old names and the written ones |
| CrtSettingsModel.BindSetsEveryField | app/src/main/java/com/lebaillyapp/cathode_agsl/model/CrtSettings.kt:51-69 | after binding, the uniform named after each field holds that field's value |
| CrtSettingsModel.BindLeavesOthers | app/src/main/java/com/lebaillyapp/cathode_agsl/model/CrtSettings.kt:51-69 | binding leaves every other uniform (such as `size` or `time`) as it was, present or absent |
| CrtSettingsModel.BindKeys | app/src/main/java/com/lebaillyapp/cathode_agsl/model/CrtSettings.kt:51-69 | after binding, the table holds the old names plus the fourteen |
| CrtSettingsModel.BindOverrides | app/src/main/java/com/lebaillyapp/cathode_agsl/model/CrtSettings.kt:51-69 | binding A and then B leaves the same table as binding B alone |
| CrtSettingsModel.BindIdempotent | app/src/main/java/com/lebaillyapp/cathode_agsl/model/CrtSettings.kt:51-69 | binding the same bundle twice leaves the table of binding it once |
| CrtSettingsModel.BindAsUpdates | app/src/main/java/com/lebaillyapp/cathode_agsl/model/CrtSettings.kt:53-68 | the bound table is the result of the fourteen single updates, in the order the code makes them |
| CrtSettingsModel.Shader.constructor | app/src/main/java/com/lebaillyapp/cathode_agsl/model/CrtSettings.kt:51 | a new shader has its declared names, no uniform set and no write logged |
| CrtSettingsModel.Shader.SetFloatUniform | app/src/main/java/com/lebaillyapp/cathode_agsl/model/CrtSettings.kt:53 | setting a declared uniform updates that one entry and logs one write |
| CrtSettingsModel.Shader.UpdateCrtUniforms | app/src/main/java/com/lebaillyapp/cathode_agsl/model/CrtSettings.kt:51-69 | the fourteen calls leave the table bound to the settings and append the fourteen writes, in source order, to the log |
| CrtControlPanel.Sliders | app/src/main/java/com/lebaillyapp/cathode_agsl/ui/component/CrtControlPanel.kt:55-114 | definition: the fourteen rows, each with its caption, range and field, in source order; `EveryFieldHasOneSlider`, `RangesProper` and `DefaultsInRange` state their properties |
| CrtControlPanel.Displayed | app/src/main/java/com/lebaillyapp/cathode_agsl/ui/component/CrtControlPanel.kt:55-114 | each slider shows the current value of the field its row names |
| CrtControlPanel.OnValueChange | app/src/main/java/com/lebaillyapp/cathode_agsl/ui/component/CrtControlPanel.kt:55-114 | each handler's bundle has its slider's field set to the reported value and the other thirteen preserved |
| CrtControlPanel.HandlerIsCopyOfShownField | app/src/main/java/com/lebaillyapp/cathode_agsl/ui/component/CrtControlPanel.kt:55-114 | each handler is the one-field copy of the very field its slider displays, and the slider then shows the new value |
| CrtControlPanel.EveryFieldHasOneSlider | app/src/main/java/com/lebaillyapp/cathode_agsl/ui/component/CrtControlPanel.kt:55-114 | there are fourteen sliders, in field order; every field has one, and no two share a field |
| CrtControlPanel.RangesProper | app/src/main/java/com/lebaillyapp/cathode_agsl/ui/component/CrtControlPanel.kt:55-114 | every slider range has min < max |
| CrtControlPanel.DefaultsInRange | app/src/main/java/com/lebaillyapp/cathode_agsl/ui/component/CrtControlPanel.kt:55-114 | every default lies inside its slider's range |
| CrtControlPanel.ChangeKeepsRanges | app/src/main/java/com/lebaillyapp/cathode_agsl/ui/component/CrtControlPanel.kt:131-142 | a value reported inside the slider's range keeps every field of an in-range bundle in range |
| CrtControlPanel.Emitted | app/src/main/java/com/lebaillyapp/cathode_agsl/ui/component/CrtControlPanel.kt:36-40 | the panel makes one `onSettingsChange` call per value-change event, in order, each a copy of the unchanged `settings` it was given |
| CrtControlPanel.Hosted | app/src/main/java/com/lebaillyapp/cathode_agsl/ui/component/CrtControlPanel.kt:36-40 | definition: a host that stores every bundle the panel emits, event after event; `HostedLastEventWins` states the result |
| CrtControlPanel.HostedLastEventWins | app/src/main/java/com/lebaillyapp/cathode_agsl/ui/component/CrtControlPanel.kt:36-40 | when the host stores each emitted bundle, a field ends at the value of the last event of its slider, or keeps its value when no event touched it |
| LaserHighlight.Highlights | app/src/main/java/com/lebaillyapp/cathode_agsl/ui/component/LaserTextDisplay.kt:66-90 | definition: the seventeen keyword entries with their ARGB colours, in declaration order; `HighlightKeysNonEmpty` states its size and that no key is empty |
| LaserHighlight.HighlightKeysNonEmpty | app/src/main/java/com/lebaillyapp/cathode_agsl/ui/component/LaserTextDisplay.kt:66-90 | the table has seventeen entries and no empty key |
| LaserHighlight.Take | app/src/main/java/com/lebaillyapp/cathode_agsl/ui/component/LaserTextDisplay.kt:99 | the visible text is the prefix of `fullText` of length min(count, length) |
| LaserHighlight.IndexOf | app/src/main/java/com/lebaillyapp/cathode_agsl/ui/component/LaserTextDisplay.kt:103 | `indexOf` returns -1 or an index at which the key fits inside the text |
| LaserHighlight.IndexOfMeaning | app/src/main/java/com/lebaillyapp/cathode_agsl/ui/component/LaserTextDisplay.kt:103-110 | `indexOf(key, from)` is -1 exactly when the key has no hit at or after `from`, and otherwise the least such hit; an empty key is found at `from` clamped to the text |
| LaserHighlight.FirstFromMeaning | app/src/main/java/com/lebaillyapp/cathode_agsl/ui/component/LaserTextDisplay.kt:103-110 | the scan finds the least hit at or after its start, and -1 only when there is none |
| LaserHighlight.OccurrencesMeaning | app/src/main/java/com/lebaillyapp/cathode_agsl/ui/component/LaserTextDisplay.kt:103-110 | the reference list of hits holds exactly the positions at or after `from` where the key occurs, in strictly increasing order |
| LaserHighlight.OccurrencesSkip | app/src/main/java/com/lebaillyapp/cathode_agsl/ui/component/LaserTextDisplay.kt:103-110 | skipping positions without a hit loses no hit |
| LaserHighlight.OccurrencesNone | app/src/main/java/com/lebaillyapp/cathode_agsl/ui/component/LaserTextDisplay.kt:103-110 | with no hit at or after `from`, the list of hits from there is empty |
| LaserHighlight.IndexOfSplitsOccurrences | app/src/main/java/com/lebaillyapp/cathode_agsl/ui/component/LaserTextDisplay.kt:103-110 | one search yields the first remaining hit, and the rest are the hits after it; -1 means none remain |
| LaserHighlight.SearchStep | app/src/main/java/com/lebaillyapp/cathode_agsl/ui/component/LaserTextDisplay.kt:110 | restarting at `index + 1` moves strictly forward and keeps every hit still to be visited |
| LaserHighlight.HighlightKey | app/src/main/java/com/lebaillyapp/cathode_agsl/ui/component/LaserTextDisplay.kt:103-111 | for a non-empty key the loop ends, and it adds exactly one span per hit of the key, in order of position |
| LaserHighlight.KeySpansMeaning | app/src/main/java/com/lebaillyapp/cathode_agsl/ui/component/LaserTextDisplay.kt:103-110 | each span of a key covers a hit and has the entry's colour in bold; every hit, overlapping ones included, has a span; span starts strictly increase |
| LaserHighlight.KeySpansInBounds | app/src/main/java/com/lebaillyapp/cathode_agsl/ui/component/LaserTextDisplay.kt:105-109 | every span of a non-empty key satisfies 0 <= start < end <= the visible length |
| LaserHighlight.AbsentKeyNoSpan | app/src/main/java/com/lebaillyapp/cathode_agsl/ui/component/LaserTextDisplay.kt:103-104 | a key gets no span exactly when it does not occur in the visible text |
| LaserHighlight.TableSpansSound | app/src/main/java/com/lebaillyapp/cathode_agsl/ui/component/LaserTextDisplay.kt:102-112 | every span of the whole pass covers a hit of some table entry, with that entry's colour in bold |
| LaserHighlight.TableSpansComplete | app/src/main/java/com/lebaillyapp/cathode_agsl/ui/component/LaserTextDisplay.kt:102-112 | every hit of every table entry gets that entry's span |
| LaserHighlight.AnnotatedText | app/src/main/java/com/lebaillyapp/cathode_agsl/ui/component/LaserTextDisplay.kt:98-114 | the annotated string holds the visible prefix and the spans of every table entry, entry after entry in table order |
| LaserHighlight.VisibleHits | app/src/main/java/com/lebaillyapp/cathode_agsl/ui/component/LaserTextDisplay.kt:98-103 | a key hits the visible text exactly where it hits the full text with all its characters already revealed |
| LaserHighlight.SingleHit | app/src/main/java/com/lebaillyapp/cathode_agsl/ui/component/LaserTextDisplay.kt:103-111 | a key with exactly one hit gets exactly one span |
| LaserHighlight.OkTagExample | app/src/main/java/com/lebaillyapp/cathode_agsl/ui/component/LaserTextDisplay.kt:66-112 | over the whole seventeen-entry table, "[  OK  ] up" gets exactly one span: neon green, bold, over the tag [0, 8) |
| LaserHighlight.OverlappingHitsExample | app/src/main/java/com/lebaillyapp/cathode_agsl/ui/component/LaserTextDisplay.kt:80 | a run of sixty dashes gets two overlapping separator spans, [0, 59) and [1, 60) |
| LaserTyping.Initial | app/src/main/java/com/lebaillyapp/cathode_agsl/ui/component/LaserTextDisplay.kt:57-59 | definition: first composition, count 0 and writing on; the class constructor is proved to produce it |
| LaserTyping.Recomposed | app/src/main/java/com/lebaillyapp/cathode_agsl/ui/component/LaserTextDisplay.kt:38-39 | definition: a new `fullText` with the remembered count and flag kept; `LaunchResets` and `StaleCountEmptyTextCrashes` use it |
| LaserTyping.Launched | app/src/main/java/com/lebaillyapp/cathode_agsl/ui/component/LaserTextDisplay.kt:135-136 | definition: the effect's first two assignments; `LaunchResets` states its result |
| LaserTyping.Ticked | app/src/main/java/com/lebaillyapp/cathode_agsl/ui/component/LaserTextDisplay.kt:137-143 | definition: one delay of the effect elapsing; `TickStep`, `WritingEndsWhenComplete` and `FinishedIsStable` state what a tick does |
| LaserTyping.LaunchResets | app/src/main/java/com/lebaillyapp/cathode_agsl/ui/component/LaserTextDisplay.kt:134-136 | a (re)start on any text, from any state, sets the count to 0 and turns writing on before any increment |
| LaserTyping.TickStep | app/src/main/java/com/lebaillyapp/cathode_agsl/ui/component/LaserTextDisplay.kt:137-143 | a tick keeps count <= length and "not writing implies all shown"; it never lowers the count and raises it by at most one; the callback fires, with the new count, exactly when the count rises |
| LaserTyping.WritingEndsWhenComplete | app/src/main/java/com/lebaillyapp/cathode_agsl/ui/component/LaserTextDisplay.kt:142-143 | writing turns off only once the count equals the text length |
| LaserTyping.FinishedIsStable | app/src/main/java/com/lebaillyapp/cathode_agsl/ui/component/LaserTextDisplay.kt:142-144 | once writing is off, further ticks change nothing |
| LaserTyping.FinishedTicks | app/src/main/java/com/lebaillyapp/cathode_agsl/ui/component/LaserTextDisplay.kt:142-144 | any number of ticks after the end change nothing |
| LaserTyping.RunFrom | app/src/main/java/com/lebaillyapp/cathode_agsl/ui/component/LaserTextDisplay.kt:137-143 | from count c with writing on, k ticks reach count min(c + k, length) and fire the callback for c+1 .. that count, in order |
| LaserTyping.RunAfterLaunch | app/src/main/java/com/lebaillyapp/cathode_agsl/ui/component/LaserTextDisplay.kt:134-144 | after a start the count takes the values 1, 2, ..., length in order and no more; the callback fires exactly once per increment, length times in all; writing stops only after that |
| LaserTyping.RestartCompletes | app/src/main/java/com/lebaillyapp/cathode_agsl/ui/component/LaserTextDisplay.kt:134-144 | a restart in the middle of an earlier run still reveals all of the new text and then stops writing |
| LaserTyping.CoerceIn | app/src/main/java/com/lebaillyapp/cathode_agsl/ui/component/LaserTextDisplay.kt:178 | `coerceIn` throws exactly on an empty range; otherwise the result lies in the range, equals the value when the value is inside, and equals the nearer bound when it is not |
| LaserTyping.CursorIndex | app/src/main/java/com/lebaillyapp/cathode_agsl/ui/component/LaserTextDisplay.kt:177-178 | as written: no move for a count <= 0; a crash exactly for a positive count over an empty text; otherwise an index below the length, equal to count - 1 when the count fits the text |
| LaserTyping.CursorOnLastShown | app/src/main/java/com/lebaillyapp/cathode_agsl/ui/component/LaserTextDisplay.kt:177-178 | while the sequencer runs with a positive count, the cursor sits on the last revealed character, inside [0, length - 1], and the clamp does not throw |
| LaserTyping.StaleCountEmptyTextCrashes | app/src/main/java/com/lebaillyapp/cathode_agsl/ui/component/LaserTextDisplay.kt:134-178 | after one character of "ok" and a recomposition with "" before the effect restarts, the clamp as written throws |
| LaserTyping.SafeCursorIndex | app/src/main/java/com/lebaillyapp/cathode_agsl/ui/component/LaserTextDisplay.kt:177-178 | the guarded clamp never throws, moves only when there is a character to sit on, and picks count - 1 whenever it fits |
| LaserTyping.SafeCursorAgrees | app/src/main/java/com/lebaillyapp/cathode_agsl/ui/component/LaserTextDisplay.kt:177-178 | the guard changes nothing wherever the clamp as written does not throw |
| LaserTyping.LaserTextDisplay.constructor | app/src/main/java/com/lebaillyapp/cathode_agsl/ui/component/LaserTextDisplay.kt:57-59 | first composition starts with nothing shown and writing on |
| LaserTyping.LaserTextDisplay.Recompose | app/src/main/java/com/lebaillyapp/cathode_agsl/ui/component/LaserTextDisplay.kt:38-39 | recomposing with a new text changes only the text; the remembered count and flag stay |
| LaserTyping.LaserTextDisplay.Launch | app/src/main/java/com/lebaillyapp/cathode_agsl/ui/component/LaserTextDisplay.kt:134-136 | the effect's first two statements reset the state as the pure machine's start does |
| LaserTyping.LaserTextDisplay.Tick | app/src/main/java/com/lebaillyapp/cathode_agsl/ui/component/LaserTextDisplay.kt:137-143 | one resumption of the effect moves the state as the pure machine's tick does |
| LaserTyping.LaserTextDisplay.RunEffect | app/src/main/java/com/lebaillyapp/cathode_agsl/ui/component/LaserTextDisplay.kt:134-144 | the uncancelled effect ends with every character shown, writing off, and the callback logged for 1..length in order; this is the machine's start followed by length + 1 ticks |
| LaserTyping.LaserTextDisplay.CursorUpdate | app/src/main/java/com/lebaillyapp/cathode_agsl/ui/component/LaserTextDisplay.kt:176-181 | the layout callback uses the clamp as written: in a valid state with a positive count it moves the laser to the last revealed character; it throws exactly when the count is positive and the text is empty |

## Left out

- Android's `RuntimeShader`, `RenderEffect`, `graphicsLayer` and AGSL sources are foreign APIs. The shader is only a table of float uniforms with a write log.
- Uniforms that are not CRT settings are not modelled: the vector uniforms (`size`, `cursor`) and the laser uniforms set in the graphics layer (`radius`, `time`, `laserIntensity`). `BindLeavesOthers` covers them only as "other names are untouched".
- Shader.SetFloatUniform: Android throws when the shader does not declare the uniform. The model demands a declared name as a precondition instead of modelling the exception.
- Values are exact reals, not 32-bit floats. Literals such as `0.90f` are taken at their decimal values, and float rounding is not modelled. No code path does arithmetic on them.
- Resource loading (`openRawResource`, `readText`), fonts, text layout (`getCursorRect`, the `rect.center.x > 0` test), colours as pixels and scrolling are I/O or rendering, so they are left out.
- Kotlin strings count UTF-16 code units, and `length`, `take` and `indexOf` work on them. Here each `char` stands for one UTF-16 code unit, so a character outside the Basic Multilingual Plane (an emoji, say) is two `char`s, and the model does not treat surrogate pairs specially. The typing loop may therefore show half such a pair for one tick, as the code does. The model does not relate its strings to Unicode scalar values.
- The `delay` calls, their lengths (`charDelay`, 150 ms) and coroutine cancellation are abstracted. Each delay is one tick, and cancellation is a restart of the pure machine. The model does not capture timing or interleaving with frames.
- `animateFloatAsState`, `rememberInfiniteTransition` and `fontSize.toPx() * 1.2f` are float animation, so they are left out.
- How Compose resolves overlapping spans of different keys is library behaviour. The model stops at the list of spans added, in order.
- `buildAnnotatedString`'s builder is modelled as a sequence of spans that the loops extend, not as an object.
- CrtControlPanel.ChangeKeepsRanges: the Material `Slider` keeps its value inside `valueRange`. That is library behaviour, so it is a precondition here.
- The distinctness of the seventeen keyword-table keys is not proved. The model uses the table in declaration order, as `mapOf` with distinct keys keeps it.
- The screens that own a `settings` variable (the composition files, `MainActivity.kt`) are not part of this model. Only their "store what the panel emits" role appears, in `CrtControlPanel.Hosted`.

## Findings

| source | as written | input that shows it | evidently intended | confidence | as-written member | corrected member |
|---|---|---|---|---|---|---|
| app/src/main/java/com/lebaillyapp/cathode_agsl/ui/component/LaserTextDisplay.kt:177-178 | a positive `displayedCharCount` is clamped with `coerceIn(0, fullText.length - 1)`, which throws when the text is empty | the display has revealed 1 character of "ok" and is recomposed with `fullText = ""`; the layout callback runs before the restarted effect resets the count, so the range is [0, -1] | the clamp guards stale counts after a text change, so it should also skip the move when the text is empty. The display class keeps the clamp as written; `SafeCursorIndex` is the guarded version | low, not executed. It holds only for the component used on its own. Both callers in this app compose the display only with non-empty text (app/src/main/java/com/lebaillyapp/cathode_agsl/ui/screen/CathodeComposition.kt:110, app/src/main/java/com/lebaillyapp/cathode_agsl/ui/screen/LaserDemoComposition.kt:32), so this input cannot arise here. The restarted effect's first two statements probably also run before that frame's layout. | LaserTyping.StaleCountEmptyTextCrashes | LaserTyping.SafeCursorIndex |
