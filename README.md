# Dot grids, greeting rotation and gradient palette — a Dafny model

This project models the discrete and exact-arithmetic core of a portfolio of animated
showcases:

- **The pattern registry** of the dot-grid showcase (`lib/patterns.ts`). It covers the grid
  geometry helpers: snake (boustrophedon) indexing, checkerboard parity, the kaleidoscope's
  4-way mirror folding, and the hard-coded 3×3 spiral with its lookup. It also covers the
  patterns whose intensity is a clamp or affine map (snake, scan, diamond, fibonacci), and
  the registry of the 24 pattern names.
- **The dot grid** (`components/DotGrid.tsx`). This part has the layout arithmetic and the
  flat-index → (row, col) mapping. It also has `ValueBuffer`, the class for the per-dot
  `(opacity, scale)` buffer. The animation effect rebuilds that buffer when its length is
  wrong, sets it to idle, and smooths it in place on every frame.
- **The onboarding greeting** (`components/onboard/OnboardFlow.tsx`). An `OnboardFlow` class
  holds the current greeting, the hover and form flags, the pending rotation timeout and the
  pending completion timeouts. Each browser event is one method:
  - a hover starts or ends;
  - a click;
  - the rotation timeout expires;
  - the form completes;
  - the completion timeout expires.

  The effect re-runs only when one of its dependencies changed, as in React. The rotation
  delay and the letter stagger delays are pure functions.
- **The gradient palette** (`components/scrolling-palette/ScrollingPalette.tsx`). A
  `Palette` class holds the guarded active index. The breakpoint lists and the spacer height
  are pure functions.
- **The grid cards** (`components/GridCard.tsx` and its themed copy
  `components/grid/GridCard.tsx`): the size → (dot size, gap) table and the hover flag.
  The themed card's state and handlers (lines 20, 28-29 and 38) are the same as the first
  card's, so one class `GridCard.Card` models both. The themed card's sizing is restated
  from its own lines and proved identical.
- **The play-mode switch** (`components/PlayModeToggle.tsx`): the next mode, `aria-checked`
  and the knob offset.

JavaScript numbers are exact reals (`real`), and grid coordinates are natural numbers.
Where the source uses a float remainder or `Math.round`, the model writes it out exactly:
`JsFrac` for `x % 1`, which keeps the sign of `x`, and `Round` = ⌊x + 0.5⌋. The
checkerboard's sine is an input `s = sin(2.5 t)`. The model then uses sin(x + π) = −sin(x)
for the odd cells.

## Model

| member | source | states |
|---|---|---|
| `Patterns.JsFrac` | lib/patterns.ts:223 | `x % 1` lies in [0, 1) for x ≥ 0 and in (−1, 0] for x < 0; it is x itself on [0, 1); it differs from x by a whole number |
| `Patterns.SnakeIndex` | lib/patterns.ts:27-32 | definition: even rows left to right, odd rows right to left; properties in `SnakeIndexInRange`, `SnakeIndexBijective` and `SnakeStepsAreAdjacent` |
| `Patterns.SnakeCell` | lib/patterns.ts:27-32 | definition of the inverse of `snakeIndex`; properties in `SnakeIndexRoundTrip` and `SnakeCellRoundTrip` |
| `Patterns.SnakeIndexInRange` | lib/patterns.ts:27-32 | every cell of a size×size grid gets a snake index in [0, size²) |
| `Patterns.SnakeIndexRoundTrip` | lib/patterns.ts:27-32 | decoding a cell's snake index with `SnakeCell` gives back the cell |
| `Patterns.SnakeCellRoundTrip` | lib/patterns.ts:27-32 | each position k < size² decodes to a grid cell whose snake index is k |
| `Patterns.SnakeIndexBijective` | lib/patterns.ts:27-32 | snake indexing is injective on the grid and reaches every index: a bijection onto 0..size²−1 |
| `Patterns.SnakeStepsAreAdjacent` | lib/patterns.ts:28-31 | the cells at snake positions k and k+1 are orthogonally adjacent, including at each row turn |
| `Patterns.Snake` | lib/patterns.ts:84-95 | definition; properties in `SnakeBounds` |
| `Patterns.SnakeBounds` | lib/patterns.ts:84-95 | snake opacity lies in [0.15, 1] and scale in [0.5, 1]; the opacity is 1 exactly at the cell whose index equals the progress |
| `Patterns.TrailFalloff` | lib/patterns.ts:88-90 | a glow falling off linearly over a positive tail length is in [0, 1] and is full exactly at its head |
| `Patterns.Falloff` | lib/patterns.ts:90 | definition of the clamp `max(0, 1 − x)` that lines 90, 225 and 307 share; properties in `FalloffBounds`, `FalloffAntitone` and `TrailFalloff` |
| `Patterns.FalloffBounds` | lib/patterns.ts:225 | for x ≥ 0, max(0, 1 − x) lies in [0, 1]; it is positive iff x < 1 and is 1 iff x = 0 |
| `Patterns.FalloffAntitone` | lib/patterns.ts:307 | the falloff never grows as the distance grows |
| `Patterns.Scan` | lib/patterns.ts:221-230 | definition; properties in `ScanBounds` |
| `Patterns.ScanBounds` | lib/patterns.ts:221-230 | scan opacity lies in [0.1, 1] and scale in [0.4, 1]; all columns of a row agree; the opacity is 1 iff the row sits exactly at the scan position |
| `Patterns.Diamond` | lib/patterns.ts:300-312 | definition; properties in `DiamondBounds` and `DiamondSymmetric` |
| `Patterns.DiamondBounds` | lib/patterns.ts:300-312 | diamond opacity lies in [0.15, 1] and scale in [0.45, 1] |
| `Patterns.DiamondSymmetric` | lib/patterns.ts:301-304 | the diamond does not change under a vertical or horizontal mirror or under transposition |
| `Patterns.CheckerPhase` | lib/patterns.ts:111-112 | the phase is 0 or π (0 or 1 half turn) |
| `Patterns.Checkerboard` | lib/patterns.ts:110-118 | definition, with the sine of line 113 as the input s; properties in `CheckerNeighboursOpposite` |
| `Patterns.CheckerNeighboursOpposite` | lib/patterns.ts:110-118 | orthogonal neighbours have opposite phases, so their opacities sum to 1.15; the opacity lies in [0.15, 1] when the sine does |
| `Patterns.Mirror` | lib/patterns.ts:390-393 | definition of the fold of one coordinate; properties in `MirrorBounds` |
| `Patterns.KaleidoscopeSeed` | lib/patterns.ts:390-395 | definition of the seed mr·10 + mc; properties in `KaleidoscopeSymmetric` and `KaleidoscopeSeedSeparates` |
| `Patterns.MirrorBounds` | lib/patterns.ts:390-393 | the folded coordinate is a grid coordinate at most the centre (size−1)/2, and folding x and size−1−x gives the same result |
| `Patterns.KaleidoscopeSymmetric` | lib/patterns.ts:390-395 | (row, col), (size−1−row, col), (row, size−1−col) and (size−1−row, size−1−col) share one seed |
| `Patterns.KaleidoscopeSeedSeparates` | lib/patterns.ts:395 | on grids up to 20 wide, two cells share a seed only if they fold onto the same cell |
| `Patterns.FindIndex` | lib/patterns.ts:328 | `findIndex` returns the first position holding the cell, or −1 exactly when the cell is absent |
| `Patterns.SpiralOrder` | lib/patterns.ts:317-327 | constant listing the spiral's cells; properties in `SpiralIsHamiltonianPath` |
| `Patterns.SpiralIsHamiltonianPath` | lib/patterns.ts:317-327 | the spiral has nine distinct 3×3 cells, covers all of them, starts at (1,1) and moves one orthogonal step at a time |
| `Patterns.SpiralLookup` | lib/patterns.ts:317-328 | the lookup returns a position in 0..8 holding the cell for 3×3 cells, and −1 for every other cell |
| `Patterns.FibonacciIntensity` | lib/patterns.ts:331-336 | definition; properties in `FibonacciIntensityBounds` |
| `Patterns.Fibonacci` | lib/patterns.ts:315-341 | definition; properties in `FibonacciBounds` and `SpiralLookup` |
| `Patterns.FibonacciIntensityBounds` | lib/patterns.ts:331-336 | the intensity lies in [0, 1]; it is non-zero iff −3 < index − progress ≤ 0 and is 1 iff index = progress |
| `Patterns.FibonacciBounds` | lib/patterns.ts:315-341 | fibonacci opacity lies in [0.1, 1] and scale in [0.4, 1]; a cell is lit iff the head is fewer than three cells past it (at exactly three it is dark) |
| `Patterns.Key` | lib/patterns.ts:440-465 | definition of each entry's key; the entries themselves are the constant `Patterns.Registry`; properties in `RegistryComplete` and `LookupKey` |
| `Patterns.Lookup` | lib/patterns.ts:440-465 | a lookup of a string finds a registered pattern with that key, or none iff no entry has that key |
| `Patterns.RegistryComplete` | lib/patterns.ts:440-465 | the registry has 24 entries, holds every pattern, and gives every pattern a key of its own |
| `Patterns.LookupKey` | lib/patterns.ts:440-465 | looking up a pattern's key gives back that pattern |
| `DotGrid.GridSide` | components/DotGrid.tsx:35 | definition of `gridSize`; properties in `DotsFillGrid` and `GridCard.GridSides` |
| `DotGrid.DotOffset` | components/DotGrid.tsx:96-99 | definition of where column j starts, with `dotSize`-pixel columns `gap` pixels apart; properties in `DotsFillGrid` |
| `DotGrid.DotsFillGrid` | components/DotGrid.tsx:35 | with columns every dotSize+gap pixels, every dot lies inside the `gridSize` square and the last one ends exactly at its edge |
| `DotGrid.DotIndices` | components/DotGrid.tsx:38-41 | the indices are 0..size²−1 in order |
| `DotGrid.Coordinates` | components/DotGrid.tsx:42-45 | there is one coordinate pair per dot |
| `DotGrid.CellOf` | components/DotGrid.tsx:43 | definition of the (row, col) of one dot; properties in `CoordinatesInGrid` and `CoordinatesOfCell` |
| `DotGrid.CoordinatesInGrid` | components/DotGrid.tsx:43 | dot i sits at (i div size, i mod size); both parts lie in [0, size) and row·size + col = i |
| `DotGrid.CoordinatesOfCell` | components/DotGrid.tsx:42-45 | every cell (row, col) is the coordinate of dot row·size + col, so the mapping is a bijection |
| `DotGrid.PatternTime` | components/DotGrid.tsx:74 | definition; properties in `PatternTimeLinear` |
| `DotGrid.PatternTimeLinear` | components/DotGrid.tsx:74 | pattern time is a fixed linear conversion from milliseconds: 1000 ms give 0.6, and it is additive and monotone |
| `DotGrid.Smooth` | components/DotGrid.tsx:80-81 | definition of one smoothing step; properties in `SmoothStep`, `SmoothTimesGap` and `SmoothTimesBetween` |
| `DotGrid.SmoothStep` | components/DotGrid.tsx:80-81 | one step lands between the old value and the target and leaves 0.88 of the gap; it is a fixed point only at the target |
| `DotGrid.SmoothDot` | components/DotGrid.tsx:80-81 | definition of one frame's step of opacity and scale; properties in `SteppedEffect` |
| `DotGrid.PowBounds` | components/DotGrid.tsx:80-81 | 0 < 0.88ⁿ ≤ 1 |
| `DotGrid.SmoothTimesGap` | components/DotGrid.tsx:80-81 | after n frames towards a fixed target the gap is 0.88ⁿ times the first gap |
| `DotGrid.SmoothTimesBetween` | components/DotGrid.tsx:80-81 | repeated smoothing never overshoots the target |
| `DotGrid.IsMounted` | components/DotGrid.tsx:56-84 | definition of the `if (!dot) return` skip of lines 58 and 77: entry i has a mounted dot; properties in `IdledEffect` and `SteppedEffect` |
| `DotGrid.Synced` | components/DotGrid.tsx:49-54 | definition of the rebuilt buffer; properties in `SyncedShape` |
| `DotGrid.Idled` | components/DotGrid.tsx:56-65 | definition of the idled buffer; properties in `IdledEffect` |
| `DotGrid.Targets` | components/DotGrid.tsx:75-78 | definition of the pattern result for every dot's cell; used by `ValueBuffer.Frame` |
| `DotGrid.Stepped` | components/DotGrid.tsx:75-84 | definition of one frame's buffer; properties in `SteppedEffect` |
| `DotGrid.SyncedShape` | components/DotGrid.tsx:49-54 | the buffer is rebuilt with size² idle (0.25, 0.7) entries exactly when its length differs; otherwise it is kept |
| `DotGrid.IdledEffect` | components/DotGrid.tsx:56-65 | idling sets exactly the mounted entries to (0.25, 0.7), leaves the others, and is idempotent |
| `DotGrid.SteppedEffect` | components/DotGrid.tsx:75-84 | a frame leaves entries without a dot unchanged; each mounted entry's opacity and scale land between old and target, 0.88 of the old gap away |
| `DotGrid.ValueBuffer.constructor` | components/DotGrid.tsx:34 | the buffer starts empty and no frame loop is scheduled |
| `DotGrid.ValueBuffer.Sync` | components/DotGrid.tsx:49-54 | the new buffer is `Synced` of the old one: a fresh idle array when the length was wrong, otherwise the same array with the same contents |
| `DotGrid.ValueBuffer.SetIdle` | components/DotGrid.tsx:56-65 | the buffer afterwards is `Idled` of the old one |
| `DotGrid.ValueBuffer.Frame` | components/DotGrid.tsx:73-85 | a frame can run only while the frame loop is scheduled; the buffer afterwards is `Stepped` of the old one, with the targets the pattern gives each dot's cell at pattern time |
| `DotGrid.ValueBuffer.RunEffect` | components/DotGrid.tsx:47-70 | the frame loop starts iff motion is allowed and the grid is hovered, and `running` records that; when it starts the buffer is `Synced` of the old one, otherwise the synchronised buffer is idled; the buffer ends with size² entries, in the same array when the length already fitted and in a fresh one otherwise |
| `DotGrid.EffectThenFrame` | components/DotGrid.tsx:47-88 | when the effect starts the loop, its first frame steps the synchronised buffer towards the pattern's targets; otherwise the buffer is the idled synchronised one |
| `Onboard.HelloMessages` | components/onboard/OnboardFlow.tsx:7-19 | constant listing the greetings; properties in `HelloMessagesTable` |
| `Onboard.HelloMessagesTable` | components/onboard/OnboardFlow.tsx:7-19 | there are 11 greetings of 2 to 7 letters each |
| `Onboard.Next` | components/onboard/OnboardFlow.tsx:45 | the next index always names a greeting |
| `Onboard.Advance` | components/onboard/OnboardFlow.tsx:45 | definition of k rotations; properties in `AdvanceIsAddition` and `RotationPeriod` |
| `Onboard.AdvanceIsAddition` | components/onboard/OnboardFlow.tsx:45 | k rotations move the index to (i + k) mod 11 |
| `Onboard.RotationPeriod` | components/onboard/OnboardFlow.tsx:45 | k rotations bring the index back to its start iff k is a multiple of 11: the greetings cycle with period exactly 11 |
| `Onboard.RotationDelayMs` | components/onboard/OnboardFlow.tsx:38-42 | the delay in whole ms equals (0.4 + (n−1)·0.1 + 0.5)·1000 + 3000, i.e. 3900 + 100·(n−1) |
| `Onboard.EnterDelay` | components/onboard/OnboardFlow.tsx:108 | definition; properties in `StaggerReversed` and `RotationWaitsForLastLetter` |
| `Onboard.ExitDelay` | components/onboard/OnboardFlow.tsx:116 | definition; properties in `StaggerReversed` |
| `Onboard.WordExitDelay` | components/onboard/OnboardFlow.tsx:96 | definition; properties in `StaggerReversed` |
| `Onboard.StaggerReversed` | components/onboard/OnboardFlow.tsx:96-116 | letters enter in order and leave in reverse order; the last letter leaves first; exit delay of i = entry delay of n−1−i minus 0.4; every letter starts leaving before the word fades |
| `Onboard.RotationWaitsForLastLetter` | components/onboard/OnboardFlow.tsx:39-40 | the delay is the last letter's entry delay plus its 0.5 s entrance, then 3 s of display |
| `Onboard.Timer` | components/onboard/OnboardFlow.tsx:27 | datatype of what `intervalRef` holds: no timer or a pending one with its delay; properties in `ScheduledOnlyWhenIdle` and `OnboardFlow.Valid` |
| `Onboard.ScheduledTimer` | components/onboard/OnboardFlow.tsx:37-47 | definition of the pending rotation for a state; properties in `ScheduledOnlyWhenIdle`; kept by `OnboardFlow.Valid` |
| `Onboard.ScheduledOnlyWhenIdle` | components/onboard/OnboardFlow.tsx:37-47 | a rotation is scheduled iff not hovered and the form is hidden; the delay is 4000..4500 ms |
| `Onboard.OnboardFlow.constructor` | components/onboard/OnboardFlow.tsx:24-27 | starts at greeting 0, not hovered, form hidden, with the first rotation scheduled |
| `Onboard.OnboardFlow.StopAutoRotate` | components/onboard/OnboardFlow.tsx:29-34 | no rotation is pending afterwards |
| `Onboard.OnboardFlow.RunEffect` | components/onboard/OnboardFlow.tsx:36-50 | after cleanup, the pending rotation is exactly what `ScheduledTimer` prescribes for the state |
| `Onboard.OnboardFlow.Rerender` | components/onboard/OnboardFlow.tsx:50 | the effect re-runs only if index, hover or form flag changed; otherwise the timer is untouched |
| `Onboard.OnboardFlow.MouseEnter` | components/onboard/OnboardFlow.tsx:76 | hovering pauses the rotation and changes nothing else |
| `Onboard.OnboardFlow.MouseLeave` | components/onboard/OnboardFlow.tsx:77 | leaving clears the hover and resumes the rotation iff the form is hidden |
| `Onboard.OnboardFlow.Click` | components/onboard/OnboardFlow.tsx:52-58 | with the form hidden: the timer is cleared, the hover ends and the form shows; with it shown: nothing changes |
| `Onboard.OnboardFlow.RotationTimerFires` | components/onboard/OnboardFlow.tsx:44-47 | the next greeting is shown and its own rotation is scheduled |
| `Onboard.OnboardFlow.SubscribeComplete` | components/onboard/OnboardFlow.tsx:60-65 | one more completion timeout is pending; nothing else changes |
| `Onboard.OnboardFlow.CompletionTimerFires` | components/onboard/OnboardFlow.tsx:61-64 | the form hides, the hover clears, the index is untouched, and the rotation resumes |
| `Onboard.OnboardFlow.Greeting` | components/onboard/OnboardFlow.tsx:67 | the letters shown are the current greeting's |
| `ScrollingPalette.GradientIds` | lib/gradients.ts:8-139 | constant listing the gradient ids in order; properties in `GradientTable` |
| `ScrollingPalette.GradientTable` | lib/gradients.ts:8-139 | ten gradients with distinct ids |
| `ScrollingPalette.Round` | components/scrolling-palette/ScrollingPalette.tsx:25 | `Math.round` gives the integer within half a unit, with halves rounded up |
| `ScrollingPalette.Accept` | components/scrolling-palette/ScrollingPalette.tsx:25-28 | a rounded index in [0, n) is taken; any other leaves the active index unchanged |
| `ScrollingPalette.AfterChanges` | components/scrolling-palette/ScrollingPalette.tsx:24-29 | definition of the index after a run of change events; properties in `AfterChangesSnoc` and `ChangesKeepIndexValid` |
| `ScrollingPalette.AfterChangesSnoc` | components/scrolling-palette/ScrollingPalette.tsx:24-29 | a sequence of changes is the fold of the guard, one reported value at a time |
| `ScrollingPalette.ChangesKeepIndexValid` | components/scrolling-palette/ScrollingPalette.tsx:24-31 | after any sequence of changes the active index still names a gradient |
| `ScrollingPalette.InRangeValueAccepted` | components/scrolling-palette/ScrollingPalette.tsx:18-26 | a value inside the output range [0, n−1] always rounds to an accepted index |
| `ScrollingPalette.InputBreakpoints` | components/scrolling-palette/ScrollingPalette.tsx:20 | definition; properties in `BreakpointsRise` |
| `ScrollingPalette.OutputBreakpoints` | components/scrolling-palette/ScrollingPalette.tsx:21 | definition; properties in `BreakpointsRise` |
| `ScrollingPalette.BreakpointsRise` | components/scrolling-palette/ScrollingPalette.tsx:20-21 | for n ≥ 2 the offsets i/(n−1) rise strictly from 0 to 1 and map onto 0..n−1 |
| `ScrollingPalette.SpacerHeightVh` | components/scrolling-palette/ScrollingPalette.tsx:52 | definition; properties in `SpacerPerStep` |
| `ScrollingPalette.SpacerPerStep` | components/scrolling-palette/ScrollingPalette.tsx:52 | the spacer is 30vh per step between neighbouring gradients: 270vh for ten |
| `ScrollingPalette.Palette.constructor` | components/scrolling-palette/ScrollingPalette.tsx:11 | the active index starts at 0 |
| `ScrollingPalette.Palette.OnChange` | components/scrolling-palette/ScrollingPalette.tsx:24-29 | the new index is the guarded rounding of the reported value, and the index stays valid |
| `ScrollingPalette.Palette.CurrentGradient` | components/scrolling-palette/ScrollingPalette.tsx:31 | `gradients[activeIndex]` is always a gradient of the table |
| `GridCard.DotSize` | components/GridCard.tsx:22 | definition; properties in `GridSides` |
| `GridCard.Gap` | components/GridCard.tsx:23 | definition; properties in `GridSides` |
| `GridCard.GridSides` | components/GridCard.tsx:22-23 | sizes 3, 5 and 9 give grid sides of 32, 47 and 69 px; larger grids get smaller dots |
| `GridCard.Card.constructor` | components/GridCard.tsx:20 | a card starts unhovered |
| `GridCard.Card.MouseEnter` | components/GridCard.tsx:28 | entering sets the hover flag |
| `GridCard.Card.MouseLeave` | components/GridCard.tsx:29 | leaving clears the hover flag |
| `GridCard.Card.DotGridHovered` | components/GridCard.tsx:38 | the `isHovered` flag the card passes to its dot grid is true iff every card plays or this card is hovered |
| `GridCard.Card.RenderGrid` | components/GridCard.tsx:32-39 | with that flag the grid's effect (components/DotGrid.tsx:47-70) starts its frame loop iff motion is allowed and either every card plays or this card is hovered; the grid ends with size² entries, in the same array when the length already fitted and a fresh one otherwise, holding the synchronised buffer when animating and the idled synchronised buffer otherwise |
| `ThemedGridCard.Sizing` | components/grid/GridCard.tsx:22-23 | definition; properties in `SameSizingAsGridCard` |
| `ThemedGridCard.SameSizingAsGridCard` | components/grid/GridCard.tsx:22-23 | the themed card gives sizes 9, 5 and 3 the pairs (5,3), (7,3) and (8,4), the same as the plain card, so under the `gridSize` formula of components/DotGrid.tsx the grid sides match |
| `PlayModeToggle.Toggled` | components/PlayModeToggle.tsx:25 | a click asks for "all" in "hover" mode and for "hover" in "all" mode |
| `PlayModeToggle.IsAll` | components/PlayModeToggle.tsx:13 | definition; properties in `KnobFollowsChecked` |
| `PlayModeToggle.AriaChecked` | components/PlayModeToggle.tsx:26 | definition; properties in `ToggleTwice` and `KnobFollowsChecked` |
| `PlayModeToggle.KnobOffset` | components/PlayModeToggle.tsx:32 | definition; properties in `ToggleTwice` and `KnobFollowsChecked` |
| `PlayModeToggle.ToggleTwice` | components/PlayModeToggle.tsx:25-32 | two clicks restore the mode; each click flips `aria-checked` and moves the knob across |
| `PlayModeToggle.KnobFollowsChecked` | components/PlayModeToggle.tsx:13-32 | `aria-checked` is true exactly in "all" mode, with the knob at 20 then and at 0 otherwise |

## Left out

- Patterns whose bodies are trigonometric, square-root, `atan2`, `pow` or `exp` maths are
  floating-point transcendental functions. These are pulse, wave, waveDiagonal, ripple,
  cascade, heartbeat, orbit, dna, stagger, pinwheel, radar, waveInterference, gravityWells
  and perlinFlow, plus the helpers `distanceFromCenter` and `maxDistance`. Only their
  registry entries are modelled.
- `pseudoRandom` is a sine-based hash. Also left out are the outputs of rain, kaleidoscope
  and quantum that depend on it. For the kaleidoscope, the folding and the seed are modelled.
- cross: its off-cross branch uses `sqrt`, so the pattern is left out as a whole.
- corners: it chooses a corner with `Math.floor((time * 0.5) % 4)` over `sqrt` distances.
- Patterns.CheckerNeighboursOpposite: the sine of the pattern time is an input, and the model
  uses sin(x + π) = −sin(x) for odd cells. The sine itself is not modelled.
- Onboard.RotationDelayMs: the delay is exact whole milliseconds. The source's floating-point
  sum can differ from it by a rounding error.
- Rounding: float rounding in general, and the `toFixed(3)` strings written to the DOM.
- The browser: `requestAnimationFrame`, `cancelAnimationFrame`, `setTimeout` and
  `clearTimeout` as clocks, DOM style writes and React's effect scheduling.
  - Each frame is one `ValueBuffer.Frame` call.
  - `Frame` can be called only while `running` is set, that is after a `RunEffect` that
    started the loop and before the next one. When each callback fires is not modelled.
  - Each timeout expiry is one method, called only while that timeout is pending.
- The motion library's behaviour is not shown, so these are inputs or left out:
  - `useReducedMotion` is a boolean input;
  - the `useScroll`/`useTransform` interpolation is the real value given to `OnChange`;
  - `AnimatePresence` and its exit timing are left out.
- Mouse events on the greeting while the form is shown are accepted by the model. The source
  unmounts that element, apart from its exit animation.
- Aurora's canvas waves, and the `exp`-based scale and opacity in `GradientList.tsx`.
- `GradientDisplay.tsx`, `SubscribeForm.tsx`, the pages, the layout, `Links.tsx` and
  `Source.tsx` are markup only.
- The gradient CSS strings. Only the ten ids are kept.
- The name form that `OnboardFlow` renders is not part of this model. Its only effect here
  is the completion callback.
- The themed card renders its own grid, `components/grid/DotGrid.tsx`, which is not part of
  this model. `ThemedGridCard.SameSizingAsGridCard` compares grid sides under the `gridSize`
  formula of `components/DotGrid.tsx`.
- The `DotGrid` defaults (`dotSize = 8`, `gap = 6`, `isHovered = false`, components/DotGrid.tsx:26-29) are not
  modelled. Both cards pass all three props, and the model takes them as parameters.
- Patterns.Lookup: only the registry's own keys are modelled. Any other string gives `None`,
  but `patterns[name]` in JavaScript also finds names inherited from `Object.prototype`, such as
  `"constructor"`. Every caller passes a registered key.
