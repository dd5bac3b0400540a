# HypercubeCalibrator: the calibrators' state machines in Dafny

This project models the deterministic core of the HypercubeCalibrator Unity
scripts and proves properties of it. The core is three small sequential state
machines:

- **The halving display-bounds finder** (`vertexCalibrator`, module
  `VertexCalibrator`). It does a binary search for the lit area of the display.
  Its state is a rectangle `current`, the rectangle `lastSuccessful` it was cut
  from, and two flags, `widthHeight` and `firstSecond`. A step either cuts the
  rectangle in half, when the sensors saw it, or flips to the other half, when
  they did not. `fill` then either restarts the search or paints the rectangle
  white on a black `textureRes` x `textureRes` texture. The texture is a 2D
  array filled by a verified nested loop.
- **The line-sweep calibration module** (`sampleLines_inline`, module
  `SampleLines`). First a horizontal line rises one unit per update until it
  passes the screen height. Then a vertical line moves right until its next
  step would pass the screen width. After that, updates do nothing.
- **The auto-calibrator orchestration** (`autoCalibrator`, module
  `AutoCalibrator`). `Awake` creates the `sampleLines_inline` module and
  `Start` installs it. `setModule` ends the old module and starts the new one.
  The per-frame `Update` does three things in order:
  - it ticks the active module;
  - it keeps only the last serial message of the frame;
  - it sets each indicator on or off by a strict threshold on the message's
    space-separated fields.

There are three shared helpers:

- `PortSelection` models `getPortName`, which is identical in both
  calibrators.
- `Strings` models .NET's ordinal `String.Contains` and `String.Split(char)`.
- `Optional` is the `Option` type used for C# null.

Modelling choices:

- The `Vector4` rectangle has `real` components. The `(int)` cast in `fill` is
  an explicit truncation toward zero (`VertexCalibrator.Truncate`). Every
  value the search stores is a whole number, and every value it computes
  before a cast is a whole number or a half (`RunKeepsWholeNumbers`). Single
  precision holds such values exactly below 2^22 in magnitude. With the
  bounds test on `x`, stored values lie in [0, `textureRes`], so no computed
  value exceeds three times `textureRes`. Any `textureRes` below 2^20 is
  therefore computed exactly, not only the default of 1024.
- The sweep's line positions are integers, because they move in whole units
  from -5. The screen dimensions are `real`.
- Module objects are shared and mutable. The calibrator keeps each module's
  state in a map keyed by object identity, and the active module is an
  identity, so a module installed again resumes the state it had. Every hook
  call and every serial read is appended to a trace, so the order of calls
  can be stated.
- The host supplies these as inputs:
  - the answers of `ReadSerialMessage` for one frame (`None` for null);
  - whether the `serial` field is set;
  - the screen dimensions;
  - the float parser `dataFileDict.stringToFloat` (a function parameter,
    whose failure reads as 0);
  - the port list;
  - each halving step's success flag.

The code has these features, modelled as written:

- In `sampleLines_inline.cs` both lines start at -5 and move up or right; no
  line moves back towards zero.
- `Update` rejects only a message with more fields than indicators, and then
  only after it has set every indicator. A message with fewer fields leaves
  the remaining indicators as they were.

- `autoCalibrator.serial` is never assigned in `autoCalibrator.cs`, because its
  set-up is commented out. As written, `Update` therefore always returns after
  the module tick. The model keeps the serial path behind the `serialPresent`
  input.
- `a.horizontal` and `a.vertical`, used by `sampleLines_inline`, are not
  declared in `autoCalibrator.cs`. The model keeps the two line positions on
  the calibrator.
- `vertexCalibrator.Start` never calls `startNewHalvingTest`, so the search
  starts from the fields' default values (`VertexCalibrator.Initial`). A first
  step from there always restarts.

## Model

| member | source | states |
|---|---|---|
| `Strings.Contains` | vertexCalibrator.cs:47 | The result is true exactly when `sub` occurs at some index of `s` (ordinal substring search). |
| `Strings.Split` | autoCalibrator/autoCalibrator.cs:105 | A split has at least one field, and no field contains the separator. |
| `Strings.SplitFieldCount` | autoCalibrator/autoCalibrator.cs:105 | A split has exactly one more field than the message has separators, so empty fields are kept. |
| `Strings.JoinSplit` | autoCalibrator/autoCalibrator.cs:105 | Joining the fields of a split with the separator gives back the original message. |
| `Strings.SplitJoin` | autoCalibrator/autoCalibrator.cs:105 | Splitting a join of separator-free fields gives back exactly those fields. |
| `PortSelection.GetPortName` | autoCalibrator/autoCalibrator.cs:60-69 | Returns the first port whose name contains "usbmodem", or "NOT FOUND!" when none does. The result contains "usbmodem" if and only if some port does. |
| `PortSelection.NotFoundIsNoUsbModem` | vertexCalibrator.cs:50 | The fallback "NOT FOUND!" does not contain "usbmodem", so it cannot be taken for a found port. |
| `VertexCalibrator.Truncate` | vertexCalibrator.cs:149 | The cast truncates toward zero: the result is the integer between 0 and `v` that is less than one unit from `v`. |
| `VertexCalibrator.Half` | vertexCalibrator.cs:85-96 | A half along an axis keeps the other axis and has half the extent. The first half starts at the parent's start; the second half ends at the parent's end, so it starts at the midpoint. |
| `VertexCalibrator.RestartCoversTexture` | vertexCalibrator.cs:141-144 | A restart makes `current` and `lastSuccessful` both the whole texture (0, 0, res, res), inside the texture. Both flags are kept. |
| `VertexCalibrator.SuccessfulStepKeepsOneHalf` | vertexCalibrator.cs:81-98 | A successful step sets `lastSuccessful` to the pre-step `current` and toggles `widthHeight`. It keeps the half of `current` cut across the new axis: the second half if `firstSecond` is set, the first otherwise. Then `fill` runs. |
| `VertexCalibrator.FailedStepMovesByHalf` | vertexCalibrator.cs:102-123 | A failed step toggles `firstSecond`. It moves `x` (width-wise) or `y` (height-wise) by half of `lastSuccessful`'s side: forward if the new `firstSecond` is set, back otherwise. Nothing else changes. |
| `VertexCalibrator.FailedStepShowsOtherHalf` | vertexCalibrator.cs:102-123 | If `current` is one half of `lastSuccessful`, a failed step moves it onto the other half. |
| `VertexCalibrator.FailureAfterSuccessTriesOtherHalf` | vertexCalibrator.cs:79-123 | After a successful step that paints whole-pixel halves, a failed step shows the other half of the rectangle the success cut. |
| `VertexCalibrator.OutOfBoundsStepReverts` | vertexCalibrator.cs:111-130 | When a failed step's candidate fails the bounds test, `current` is restored to `lastSuccessful`. `firstSecond` keeps its pre-step value, and `fill` is not reached. |
| `VertexCalibrator.FillOutcome` | vertexCalibrator.cs:147-160 | `fill` restarts, writing no pixel, exactly when a truncated side is below `successPoint`. Otherwise it stores the truncated rectangle as `current`, changes nothing else, and paints that rectangle. |
| `VertexCalibrator.LastSuccessfulChangesOnlyOnSuccessOrRestart` | vertexCalibrator.cs:79-144 | `lastSuccessful` changes only on a successful step or a restart. |
| `VertexCalibrator.WidthHeightTogglesOnlyOnSuccess` | vertexCalibrator.cs:84 | `widthHeight` flips exactly on successful steps. |
| `VertexCalibrator.TruncateWithinTexture` | vertexCalibrator.cs:149 | Truncating a rectangle that lies inside the texture keeps it inside. |
| `VertexCalibrator.IntendedStepStaysWithinTexture` | vertexCalibrator.cs:104-117 | With the width-wise test on `x`, a step from a state whose rectangles lie in the texture keeps them there, and paints only inside the texture. |
| `VertexCalibrator.IntendedRunStaysWithinTexture` | vertexCalibrator.cs:79-139 | With the test on `x`, every run of steps from an in-texture state stays in the texture. |
| `VertexCalibrator.IntendedSearchPaintsWithinTexture` | vertexCalibrator.cs:151-173 | With the test on `x`, starting from the fields' defaults, every rectangle the search paints lies inside the texture. |
| `VertexCalibrator.AsWrittenWidthGuardLetsRectLeave` | vertexCalibrator.cs:111-116 | As written, a failed step after a width-wise restart shifts the whole-texture rectangle by half its width. The test on `y` lets it through, so `fill` paints off the texture. The test on `x` reverts the same step. |
| `VertexCalibrator.AsWrittenPaintsOffTextureFromInitial` | vertexCalibrator.cs:79-160 | From the fields' defaults, a success and then a failure paint (512, 0, 1024, 1024), which lies half outside the 1024-wide texture. |
| `VertexCalibrator.StepKeepsWholeNumbers` | vertexCalibrator.cs:79-160 | A step stores only whole numbers: a paint stores the casts, a restart the whole texture, a revert a stored rectangle. The rectangle it computes before the cast is made of whole numbers and halves. |
| `VertexCalibrator.RunKeepsWholeNumbers` | vertexCalibrator.cs:79-160 | Every state reached from whole rectangles, such as the fields' defaults, holds whole numbers, under either bounds test. |
| `VertexCalibrator.PaintTexture` | vertexCalibrator.cs:164-173 | The nested loop gives a `textureRes` x `textureRes` texture. Pixel (x, y) is white if and only if `_x <= x < _x+_w` and `_y <= y < _y+_h`, and black otherwise. |
| `VertexCalibrator.TakeHalvingTestStepAndPaint` | vertexCalibrator.cs:147-175 | A texture is produced exactly when `fill` paints. It shows the rectangle that the step stored as `current`. |
| `SampleLines.FreshSweepRisesFirst` | autoCalibrator/sampleLines_inline.cs:10-35 | A new module, once started, is in the horizontal phase. For as long as the line stays within the screen height, n updates put the horizontal line at n - 5, and the vertical line waits at -5. |
| `SampleLines.StartPlacesLinesOffScreen` | autoCalibrator/sampleLines_inline.cs:12-19 | `start` places both lines at -lineThickness (-5) and does not reset the phase flag. |
| `SampleLines.HorizontalUpdate` | autoCalibrator/sampleLines_inline.cs:27-35 | In the horizontal phase, an update raises the horizontal line by exactly 1 and leaves the vertical line alone. The phase stays horizontal if and only if the new y does not exceed the screen height. |
| `SampleLines.VerticalUpdate` | autoCalibrator/sampleLines_inline.cs:36-47 | In the vertical phase, x advances by 1 exactly when the new x is at most the screen width. Otherwise the update is a no-op. The horizontal line and the phase never change. |
| `SampleLines.NeverBackToHorizontal` | autoCalibrator/sampleLines_inline.cs:27-47 | Once vertical, the sweep stays vertical for any number of updates, and the horizontal line stays put. |
| `SampleLines.LinesNeverMoveBack` | autoCalibrator/sampleLines_inline.cs:21-49 | Over any number of updates, neither line moves backwards. |
| `SampleLines.StuckIsFixedPoint` | autoCalibrator/sampleLines_inline.cs:38-44 | Once the vertical line cannot advance, every further update leaves the whole state unchanged (idempotence). |
| `SampleLines.VerticalLineBounded` | autoCalibrator/sampleLines_inline.cs:38-44 | The stored x never exceeds the larger of the screen width and its position when the updates began. |
| `SampleLines.SweepFromStartBounded` | autoCalibrator/sampleLines_inline.cs:12-49 | After `start`, the vertical line's x never exceeds max(screenW, -lineThickness). |
| `SampleLines.HorizontalPhase` | autoCalibrator/sampleLines_inline.cs:27-35 | While the line stays within the screen height, n updates raise it by exactly n and change nothing else. |
| `SampleLines.VerticalPhase` | autoCalibrator/sampleLines_inline.cs:36-47 | While the line stays within the screen width, n updates move it right by exactly n and change nothing else. |
| `SampleLines.SweepEventuallyStuck` | autoCalibrator/sampleLines_inline.cs:21-49 | For fixed screen dimensions, from any state, finitely many updates bring the sweep to the stuck state. |
| `AutoCalibrator.DefaultHooksDoNothing` | autoCalibrator/autoCalibratorModule.cs:12-19 | A module that keeps the base class's hooks changes nothing when started or updated. |
| `AutoCalibrator.SetModuleLifecycle` | autoCalibrator/autoCalibrator.cs:71-80 | `setModule(m)` records the previous module's `end`, if there is one, before `m`'s `start`, if `m` is non-null. Each happens exactly once. Afterwards the active module is `m`. No module object's state changes, so a module installed again resumes where it was, and the indicators are untouched. |
| `AutoCalibrator.SetModuleNullDeactivates` | autoCalibrator/autoCalibrator.cs:71-80 | `setModule(null)` ends the old module, starts nothing, leaves the lines alone, and leaves no module active. |
| `AutoCalibrator.SetModuleStartsSweep` | autoCalibrator/autoCalibrator.cs:76-79 | Installing a `sampleLines_inline` object runs its `start`: both lines go to -lineThickness, the module installed is the one given, and its phase is kept. |
| `AutoCalibrator.AwakeThenStart` | autoCalibrator/autoCalibrator.cs:39-47 | After `Awake` and `Start`, the `inline` object is active in its horizontal phase, the lines are where `start` on a fresh module puts them, and its `start` is the only call made. |
| `AutoCalibrator.TickCallsUpdateOnce` | autoCalibrator/autoCalibrator.cs:85-86 | The tick calls the active module's `update` exactly once if a module is set, and otherwise changes nothing. The same module stays active, and no other module's state changes. |
| `AutoCalibrator.TickRunsSweep` | autoCalibrator/autoCalibrator.cs:85-86 | With a `sampleLines_inline` object active, a tick moves the lines and that object's phase exactly as one sweep update. |
| `AutoCalibrator.TicksRunSweep` | autoCalibrator/autoCalibrator.cs:85-86 | While a `sampleLines_inline` object stays active, n ticks move the lines and its phase exactly as n sweep updates. |
| `AutoCalibrator.StartedCalibratorSweeps` | autoCalibrator/autoCalibrator.cs:39-47 | From `Awake` and `Start`, the lines after n frames are those of n sweep updates from `start` on a fresh module, so the sweep's properties hold of the calibrator's lines. |
| `AutoCalibrator.MessageRun` | autoCalibrator/autoCalibrator.cs:98-103 | The number of messages read before the first null: all are non-null, and the next answer is null or the queue is empty. |
| `AutoCalibrator.ReadLatestMessage` | autoCalibrator/autoCalibrator.cs:92-103 | Gives no message if and only if the first read is null. Otherwise it gives the last non-null message before the first null, after one more read call than messages consumed. |
| `AutoCalibrator.ApplyFields` | autoCalibrator/autoCalibrator.cs:107-114 | Indicator i is on if and only if field i's value (0 if it does not parse) is strictly above the threshold. Indicators past the last field are unchanged. More fields than indicators is an out-of-range error at the first missing index. |
| `AutoCalibrator.Update` | autoCalibrator/autoCalibrator.cs:83-115 | The module's `update` is called once, if a module is set, before any serial read. With no serial port, or a null first read, no indicator changes. Otherwise only the frame's last message sets the indicators by the strict threshold, and more fields than indicators is an error. |

## Findings

| source | as written | input that shows it | evidently intended | confidence | as-written member | corrected member |
|---|---|---|---|---|---|---|
| vertexCalibrator.cs:111 | The width-wise bounds test checks `y < 0` or `y + z > textureRes`, so a rectangle moved along x is never checked along x. | Start from the fields' defaults. Take a successful step, which restarts with `widthHeight` set. Then take a failed step: x becomes 512 on the whole-width rectangle, the test passes, and `fill` paints (512, 0, 1024, 1024). | `x < 0` or `x + z > textureRes`, so the step is reverted and the rectangle never leaves the texture. | not executed; high (copy of the height-wise test at line 125) | `VertexCalibrator.AsWrittenWidthGuardLetsRectLeave` | `VertexCalibrator.IntendedRunStaysWithinTexture` |

The search itself (`TakeHalvingTestStep`) follows the code as written. The
corrected step, `TakeHalvingTestStepIntended`, differs from it only in that
bounds test. Both are instances of `StepWith`, so every property above that
holds for any guard holds for both.

## Left out

- Peak extraction: `getPeaksFromData`, called from Editor/calibratorMenuOptions.cs:28, has no definition in `autoCalibrator.cs`, so there is nothing to model.
- Serial I/O: the `SerialController` set-up and `ReadSerialMessage` are replaced by the frame's list of answers. `dataFileDict.stringToFloat` is not part of this model; it is a parser parameter whose failure yields 0.
- AutoCalibrator.ReadLatestMessage: each frame's answers are a finite list with null past its end, so the read loop always ends. A serial thread that refilled the queue as fast as `Update` drains it would keep the loop at autoCalibrator.cs:98-103 running, and the model cannot express that.
- `vertexCalibrator.Update`: `Start` declares a local `serial` (vertexCalibrator.cs:32) that shadows the field of the same name, which stays null. As written, line 69 therefore throws a null reference every frame, and `takeHalvingTestStep` is never reached. Were the field assigned, `Update` would still always pass `false`. The model takes each step's success flag as a free input.
- Rendering: `setLine` (float screen geometry and Unity transforms) is not modelled. Neither are the lines' `sizeDelta` and the coordinates that `update` never moves.
- Texture plumbing: `assignNewDisplayTexture`, the width check before it, and `Apply` are not modelled. `PaintTexture` allocates a fresh square texture instead, which is what the loop leaves behind, since it overwrites every pixel.
- Unity glue: `calibrator.OnEnable` and both `getMaterials` only hand materials to the renderer.
- `getRelevantValue`: it is abstract in `autoCalibratorModule.cs`, and no code in `autoCalibrator.cs`, `sampleLines_inline.cs` or `autoCalibratorModule.cs` calls it. `sampleLines_inline` does not implement it, so as written that class does not compile. The model gives modules no such member.
- `vertexCalibrator.Start`: besides the serial set-up above, it only allocates the display texture.
- Debug logging: the `Debug.LogWarning` calls (vertexCalibrator.cs:133-136) only log.
- Floating point: single-precision rounding is not modelled. Line positions past 2^24 would stop moving in single precision. The search's values round only for a `textureRes` of 2^20 or more, or, under the bounds test as written, once a rectangle has wandered that far off the texture; the model proves no magnitude bound for that test. `Truncate` does not model the undefined result of casting a value outside the `int` range.
- Null indicators: a null entry in `indicators` would throw a null reference; the model's indicators are plain flags.
- An exception thrown by `Update` is returned as `UpdateError`. Unity's handling of it, logging it and carrying on with the next frame, is outside the model.
