# Podcast page scripting: a verified model

This project models the sequential logic of the page script `script.js`, a
marketing page for a podcast. The model covers:

- the mock audio player (`PodcastPlayer`): the selected episode, play/pause, the playback position, and the one-second progress ticker;
- the `MM:SS / MM:SS` text of the player's time display;
- tab selection and the mobile menu;
- the animation driver's choice between the DNA-helix and neuron-network scenes;
- the index and count structure of the helix points and of the network's connections;
- the newsletter form's e-mail acceptance test.

The state the script changes in place is modelled as classes:

- `Player.PodcastPlayer`
- `Navigation.Page`
- `Helix.DNAHelix`
- `Network.NeuronNetwork`
- `Animation.Visualization`

Each of their methods states the new state in terms of the old one. The
expression-level code is modelled as functions with lemmas. These include the
formatter in `TimeFormat`, the scene test in `Animation`, the e-mail predicate
in `Newsletter`, and the specification functions `Player.TickStep`,
`Navigation.SelectTabs`, `Helix.Layout` and `Network.Edges`.

Inputs the script takes from outside become parameters:

- the wall clock (`now`);
- random draws: `spawn` for neuron creation, and `Oracle.coin` and `Oracle.strength` for connections;
- the Euclidean distance test (`Oracle.near`);
- the progress-bar click fraction (`percent`).

Numbers are exact (`real`/`int`). JavaScript's truncating `%`, its
`Math.floor`, `String(n)`, `padStart` and `trim` are written out.

Modules: `Wrappers` (Option), `TimeFormat`, `Player`, `Navigation`, `Helix`,
`Network`, `Animation`, `Newsletter`, one per file.

## Model

| member | source | states |
|---|---|---|
| `TimeFormat.DecimalDigits` | script.js:187 | `String(n)` of a non-negative integer is a non-empty digit string, with a leading `0` only for 0, and one digit exactly below 10 |
| `TimeFormat.PadStartFacts` | script.js:187 | `padStart(width, fill)` has length max(width, \|s\|), ends with `s` unchanged, and has only fill characters before it: it never truncates |
| `TimeFormat.Rem60` | script.js:183 | JavaScript's `t % 60` on a non-negative time lies in [0, 60) |
| `TimeFormat.DecimalValue` | script.js:187 | reading back the digits of `String(n)` gives n |
| `TimeFormat.Pad2Shape` | script.js:187 | `pad2(n)` is `0` followed by the digit below 10, is `String(n)` unchanged from 10 on (it never truncates), and is exactly 2 characters below 100 |
| `TimeFormat.Pad2Value` | script.js:187 | the digits of `pad2(n)` read back to n: the added `0` does not change the value |
| `TimeFormat.ClockRoundTrip` | script.js:182-187 | each `MM:SS` half parses back (digits, colon, two digits below 60) to the number of seconds it shows |
| `TimeFormat.FloorParts` | script.js:182-185 | for a non-negative (possibly fractional) time, `Math.floor(t / 60)` and `Math.floor(t % 60)` are floor(t) div 60 and floor(t) mod 60 |
| `TimeFormat.DisplayIsTwoClocks` | script.js:181-188 | the display is the clock of the whole seconds of the position, ` / `, and the clock of the duration |
| `TimeFormat.DisplayOfDefaultEpisode` | script.js:60 | 65 s into the default 2142 s episode the display reads `01:05 / 35:42` |
| `Player.TickCases` | script.js:152-162 | a tick at or past the end sets the position to 0, stops playing and cancels the ticker; before the end it adds exactly one second and changes nothing else |
| `Player.TickKeepsConsistent` | script.js:149-170 | a tick keeps 0 <= position < duration + 1, and keeps "a ticker runs exactly while playing" |
| `Player.TickKeepsWholeRange` | script.js:153-161 | a whole-second position in [0, duration] stays a whole second in [0, duration] |
| `Player.PlaysToEndThenStops` | script.js:152-163 | playing from whole second t, after duration - t ticks the position is the duration and still playing; the next tick rewinds to 0 and stops |
| `Player.PodcastPlayer.constructor` | script.js:56-63 | a new player has no episode, is not playing, is at 0, has duration 2142 and no ticker |
| `Player.PodcastPlayer.StopProgress` | script.js:166-170 | clearing the interval the player refers to leaves no interval running (live count 0); nothing else changes |
| `Player.PodcastPlayer.StartProgress` | script.js:149-164 | the old interval is cleared before the new one is installed, so exactly one interval is running afterwards (live count 1); a start without the clear would leave two |
| `Player.PodcastPlayer.UpdateProgress` | script.js:172-189 | the display becomes the `MM:SS / MM:SS` text of position and duration |
| `Player.PodcastPlayer.Play` | script.js:95-125 | afterwards the episode is the given one, playing, with exactly one interval running (live count 1); position and display unchanged; the invariant is kept |
| `Player.PodcastPlayer.Pause` | script.js:127-142 | afterwards not playing and no interval running (live count 0); episode, position and display unchanged |
| `Player.PodcastPlayer.TogglePlay` | script.js:86-93 | pauses exactly when the given episode is the current one and is playing; in every other case plays it |
| `Player.PodcastPlayer.Seek` | script.js:144-147 | the position becomes duration × percent (in [0, duration]) and the display is refreshed; play state unchanged |
| `Player.PodcastPlayer.Tick` | script.js:152-163 | the interval callback, which only fires while its interval is live, performs `TickStep` and leaves one interval running when it advances and none when it rewinds; it refreshes the display when it advances, and leaves the display as it was when it rewinds |
| `Navigation.SelectTabs` | script.js:18-24 | after a click every tab keeps its key and is active exactly when its `data-tab` equals the target |
| `Navigation.SelectPanels` | script.js:27-32 | after a click every panel keeps its id and is active exactly when its id equals the target |
| `Navigation.ExactlyOneTabActive` | script.js:11-24 | `allTabs` holds the desktop and the mobile buttons; when each navigation has distinct keys and both offer the target, exactly one button per navigation is active afterwards |
| `Navigation.NoTabActiveForUnknownKey` | script.js:18-24 | selecting a key no tab has leaves no tab active |
| `Navigation.SelectIgnoresPreviousState` | script.js:16-32 | the outcome does not depend on which tabs and panels were active before (a second click on the same tab changes nothing) |
| `Navigation.Page.constructor` | script.js:11-14 | the page starts with its tabs and panels and the mobile menu closed |
| `Navigation.Page.ToggleMenu` | script.js:5-8 | the hamburger toggles both the menu and its own `active` class, so the two stay equal |
| `Navigation.Page.HandleTabClick` | script.js:16-45 | tabs and panels become `SelectTabs`/`SelectPanels` of the old ones; the menu is closed; the hamburger is cleared only if the menu was open |
| `Helix.SegmentYIsWhole` | script.js:240 | the height `(i / 60) * 600 - 300` of segment i is exactly 10·i - 300 |
| `Helix.LayoutShape` | script.js:238-257 | n segments give 2n points; index 2k is strand 1 and index 2k+1 strand 2, both of segment k at the same height |
| `Helix.HelixHeights` | script.js:233-258 | the helix has 120 points, rung k at height 10·k - 300, from -300 up to 290 |
| `Helix.StrandsOfLayout` | script.js:304-305 | filtering by strand gives each strand's n points in segment order |
| `Helix.LastRungSkipped` | script.js:290 | the base-pair loop as written never reaches the last segment (points 118 and 119 of the helix) |
| `Helix.EveryRungDrawn` | script.js:290 | the corrected loop visits the first point of every segment, and each visited index has its partner in range and in the same segment |
| `Helix.DNAHelix.constructor` | script.js:224-231 | a new helix is at rotation 0 and holds exactly the 60-segment layout |
| `Helix.DNAHelix.GenerateHelix` | script.js:233-258 | appends the 60-segment layout to the points |
| `Helix.DNAHelix.Update` | script.js:260-262 | the rotation grows by 0.01 per frame |
| `Network.RowsFacts` | script.js:365-376 | after the first `rows` rows of the nested loop, the connections are exactly the accepted pairs whose source is below `rows`, in increasing (from, to) order |
| `Network.EdgesExact` | script.js:365-376 | the connections are exactly the pairs 0 <= from < to < n that the distance/random oracle accepts, each with its drawn strength, and no (from, to) pair appears twice |
| `Network.EdgesComplete` | script.js:365-376 | every accepted pair i < j gets its connection |
| `Network.AxisStepKeepsSpeed` | script.js:394-396 | a bounce reverses the velocity on one axis without changing its speed |
| `Network.AxisStepKeepsNearBox` | script.js:388-396 | on one axis, bouncing keeps the position within one step of the box, and heading back whenever it is outside |
| `Network.StepKeepsContained` | script.js:386-398 | a neuron kept near its box (±300, ±300, ±200) stays so after a frame |
| `Network.NeuronNetwork.constructor` | script.js:344-348 | a new network holds the 25 spawned neurons and exactly their generated connections |
| `Network.NeuronNetwork.GenerateNetwork` | script.js:350-377 | appends 25 neurons, then the connections of every accepted pair of all neurons, in loop order |
| `Network.NeuronNetwork.Update` | script.js:386-398 | every neuron is replaced by its one-frame step; the count is unchanged |
| `Animation.JsRem` | script.js:519 | the remainder takes the dividend's sign: in [0, m) for a non-negative clock, in (-m, 0] otherwise |
| `Animation.SceneInCycle` | script.js:518-529 | in every 16-second cycle the first 8000 ms select the helix and the remaining 8000 ms the network |
| `Animation.ScenePeriodic` | script.js:519 | the scene choice repeats every 16000 ms |
| `Animation.SceneBoundaries` | script.js:518-521 | 3000 and 7999 ms into a cycle give the helix; 8000, 9000 and 15999 give the network; 16000 gives the helix again |
| `Animation.NegativeClockShowsHelix` | script.js:519-521 | a clock before the epoch always selects the helix |
| `Animation.Visualization.constructor` | script.js:497-498 | the driver owns the one helix and the one network |
| `Animation.Visualization.Frame` | script.js:508-532 | a frame advances the helix's rotation and leaves the network unchanged, or steps the network and leaves the helix unchanged, according to the scene |
| `Newsletter.TrimStartKeeps` | script.js:546 | trimming the start neither loses nor adds a non-whitespace character |
| `Newsletter.TrimEndKeeps` | script.js:546 | trimming the end neither loses nor adds a non-whitespace character |
| `Newsletter.AcceptsIffContainsAt` | script.js:546-548 | an input is accepted exactly when it contains `@`; the emptiness test after trimming is subsumed |
| `Newsletter.SampleInputs` | script.js:546-566 | `not-an-email` and blank input are rejected; `a@b.com`, with or without surrounding blanks, is accepted |
| `TimeFormat.Decimal` | script.js:187 | `String(n)` of a non-negative integer: the most significant digit first, no leading zeros, at least one character |
| `TimeFormat.PadStart` | script.js:187 | `s.padStart(width, fill)` with a one-character fill: fill characters before `s` up to `width`, `s` unchanged when already that long (facts in `PadStartFacts`) |
| `TimeFormat.Pad2` | script.js:187 | `String(n).padStart(2, '0')` (facts in `Pad2Shape` and `Pad2Value`) |
| `TimeFormat.Field` | script.js:182-187 | one `MM:SS` half: `pad2(Math.floor(t / 60)) + ':' + pad2(Math.floor(t % 60))` (equal to the clock of floor(t) by `FieldIsClock`) |
| `TimeFormat.TimeDisplay` | script.js:181-187 | the text written to the `.time` element: the position's half, ` / `, the duration's half (characterised by `DisplayIsTwoClocks`) |
| `Player.TickStep` | script.js:152-162 | the interval callback's effect on position, playing flag and ticker: rewind, stop and cancel at or past the end, otherwise one second more (characterised by `TickCases`) |
| `Helix.SegmentY` | script.js:240 | the height of segment i: (i / 60) × 600 − 600 / 2 (equal to 10i − 300 by `SegmentYIsWhole`) |
| `Helix.Layout` | script.js:238-257 | the points pushed by the first n iterations: per segment, strand 1 then strand 2 at that segment's height (characterised by `LayoutShape`) |
| `Helix.RungsAsWritten` | script.js:290 | the indices the base-pair loop visits as written, `i = 0, 2, … < length − 2` (see `LastRungSkipped`) |
| `Helix.RungsIntended` | script.js:290 | the indices visited with the bound `length − 1`, one per segment (see `EveryRungDrawn`) |
| `Network.Edges` | script.js:365-376 | the connections pushed by the nested loops, in loop order, with distance test, coin and strength taken from the oracle (characterised by `EdgesExact`) |
| `Network.AxisStep` | script.js:388-396 | one axis of the update: move by the velocity, then negate the velocity when the new position is beyond the bound (see `AxisStepKeepsSpeed`, `AxisStepKeepsNearBox`) |
| `Network.Step` | script.js:387-397 | one neuron's update: the three axis steps with bounds 300, 300 and 200, and the pulse advanced by 0.05 (see `StepKeepsContained`) |
| `Animation.SceneAt` | script.js:519-528 | `Date.now() % 16000 < 8000` picks the helix, otherwise the network, with JavaScript's truncating `%` (see `SceneInCycle`, `NegativeClockShowsHelix`) |
| `Newsletter.Trim` | script.js:546 | `String.prototype.trim`: the ECMAScript white space and line terminators removed from both ends |
| `Newsletter.AcceptsEmail` | script.js:546-548 | the trimmed input is non-empty and contains `@` (see `AcceptsIffContainsAt`) |

## Findings

| source | as written | input that shows it | evidently intended | confidence | as-written member | corrected member |
|---|---|---|---|---|---|---|
| script.js:290 | the base-pair loop runs `for (i = 0; i < points.length - 2; i += 2)` | the generated 120-point helix: i = 118 is never visited, so points 118 and 119 (the top segment) are never joined | `i < points.length - 1`, so that every segment's pair is joined | medium, not executed | `Helix.LastRungSkipped` | `Helix.EveryRungDrawn` |

## Left out

- DOM access is not modelled: element lookups, class lists, styles, `textContent` writes other than the time display, event-listener wiring, `initializePlayer`, and `scrollTo`. The model keeps only the abstract state these change. It assumes the looked-up elements exist.
- The play/pause icon and label swapping and `resetButtons` (script.js:97-118, 129-138, 191-202) are presentation only. So is the progress-fill width (script.js:176-179).
- Canvas drawing, the perspective projection, `Particle` and the particle loop are left out. They are floating-point decoration that draws on the canvas.
- Helix points do not keep their trigonometric x and z. Each point keeps its segment number, which is the angle parameter.
- Randomness, `Math.sqrt` distance and `Date.now` are parameters. The network's random draws are indexed by neuron or by pair, rather than by the order in which `Math.random` is called.
- Timer delays (`setInterval`, `setTimeout`, `requestAnimationFrame`), rescheduling, and the resize handler are left out. The intervals `startProgress` installs are represented only by the ghost count `live` of running intervals, not by their ids. The newsletter success/error visual timeouts, load-more and the subscribe animation are left out too.
- Floating-point rounding is not modelled. Positions, rotation and pulse are exact `real`s. The helix height `(i / 60) * 600 - 300` is computed exactly.
- Player.PodcastPlayer.Seek: takes `percent` in [0, 1]. Computing it from the click's pixel geometry (script.js:79-80) is not modelled. A fractional percent gives a fractional position.
- Player.PodcastPlayer.TogglePlay: episode ids are strings. A button without a `data-episode` attribute (an undefined id) is not modelled.
- The helix heights run from -300 to 290, as in the code, not across [-300, 300]. The model follows the code.
