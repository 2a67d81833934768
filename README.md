# Quiz sketch: a verified model

This project models the core of a p5.js quiz sketch (`sketch.js`).

The sketch reads multiple-choice questions from a CSV table. If no usable row survives, it falls back to three built-in questions. It then runs the quiz through three screens:

- **intro**: a start button;
- **quiz**: four option boxes, answered by pointer or by the keys A–D, each answer followed by a 45-frame feedback countdown;
- **result**: a score, plus fireworks, balloons or bubbles depending on the score ratio. Typing `R` starts over.

Around this sit a 60-dot cursor trail, click ripples, particle bursts and hover sparkles.

## Modules

- `questions.dfy` (`QuizData`): answer-letter parsing and the row filter of the table loader, with the fallback set.
- `layout.dfy` (`Layout`): the rectangle hit test, the base font size, the option-box layout and the progress bar width.
- `effects.dfy` (`Effects`): the counters of the trail (a push, evict and fade queue), the ripples and the particles, and the update-then-splice pass shared by the ripple, particle, fragment, balloon and bubble lists.
- `results.dfy` (`ResultAnim`): ratio, percentage and tier, and the counters of fireworks, balloons and bubbles.
- `session.dfy` (`QuizSession`): the session globals as a value, one pure transition per input event, the session invariant and whole-game scenarios.
- `rules.dfy` (`SketchRules`): what the handlers do to the option boxes and the effect lists, the invariant of the whole sketch, and one lemma per handler showing that handler keeps it.
- `sketch.dfy` (`Sketch`): a class `Sketch` holding the sketch's globals as fields.
  - It has one method per event handler and per part of the frame loop.
  - Each method's `ensures` ties the new field values to the pure transitions above.

Positions, velocities, colours and drawing are not modelled. What remains is the sketch's own bookkeeping:

- the screen and the session counters;
- the answer checking and scoring;
- the highlight values of the boxes;
- the sizes and life counters of every effect list, with their caps, spawn cadences and removal rules.

## Model

| member | source | states |
|---|---|---|
| QuizData.TrimStart | sketch.js:797 | the start of `trim`: drops exactly a leading run of JavaScript white space; what is left starts with a non-space |
| QuizData.TrimEnd | sketch.js:797 | the end of `trim`: drops exactly a trailing run of white space; what is left ends with a non-space |
| QuizData.TrimStartSuffix | sketch.js:797 | trimming the start leaves a suffix of the input |
| QuizData.TrimEndPrefix | sketch.js:797 | trimming the end leaves a prefix of the input |
| QuizData.UpperAsciiLetter | sketch.js:797-799 | a string upper-cases to one of `A`..`D` exactly when it is that letter in either case |
| QuizData.LetterToIndex | sketch.js:795-800 | the index is always in -1..3, and an empty cell gives -1 |
| QuizData.LetterToIndexMeaning | sketch.js:795-800 | a cell maps to index i (0..3) if and only if, once trimmed, it is the i-th letter in upper or lower case; so every other cell maps to -1 |
| QuizData.KeptRow | sketch.js:103-120 | a row contributes at most one question, and exactly one if and only if its five text cells are non-empty and its answer letter is recognised |
| QuizData.KeptConcat | sketch.js:102-121 | the row loop is compositional: filtering a concatenation concatenates the filtered parts |
| QuizData.InvalidRowSkipped | sketch.js:114-120 | deleting a row that fails validation from anywhere in the table does not change the questions |
| QuizData.ValidRowKept | sketch.js:114-120 | a valid row becomes its question (text, four options, letter index) at its table position |
| QuizData.ToQuestionWellFormed | sketch.js:114-120 | the question built from a valid row has text, four non-empty options and a correct index in 0..3 |
| QuizData.KeptWellFormed | sketch.js:102-121 | every question kept is well formed; there are never more than rows; all rows are kept if and only if all are valid |
| QuizData.FallbackWellFormed | sketch.js:125-132 | the built-in set has three well-formed questions |
| QuizData.ParseQuestionsOrFallback | sketch.js:89-133 | the result is the valid rows of a table that has rows and the required columns, or the built-in set when that is empty; in every case non-empty and well formed |
| Layout.PointInRectEdges | sketch.js:790-792 | the hit test includes all four edges and corners; a rectangle of negative width or height contains no point |
| Layout.BaseFontSize | sketch.js:55 | the font size always lies in [14, 22]; it equals width/50 inside that band, 14 for widths up to 700, 22 from 1100 |
| Layout.BuildOptionBoxes | sketch.js:138-152 | four boxes of one width (viewport less margins, at most 900) and one height (at least 56), centred, the first at 38% of the height, consecutive gaps of max(14, 0.6 × font), stacked without overlap, none hovered or lit |
| Layout.StackedHitsAtMostOne | sketch.js:138-152 | in that layout no point lies in two boxes, so a click can hit at most one option |
| Layout.FirstHit | sketch.js:354-374 | the box the scan stops at is under the pointer and no earlier box is; -1 means no box is |
| Layout.FirstHitUnique | sketch.js:354-374 | any index with those properties is the first hit, so the scan's answer is determined |
| Layout.ProgressWidth | sketch.js:474 | the filled width lies in [0, w] for 0 ≤ idx ≤ total; it is full if and only if idx = total (or w = 0); it is 0 for an empty quiz |
| Layout.ProgressMonotone | sketch.js:474 | the bar never shrinks as the question index grows |
| Effects.Survivors | sketch.js:541-552 | a splice pass never lengthens its list |
| Effects.SurvivorsAlive | sketch.js:541-552 | no entry that is dead after its update survives the pass |
| Effects.SurvivorsMembership | sketch.js:584-595 | an entry survives if and only if it is alive and is the update of some entry of the old list |
| Effects.SurvivorsNoneDead | sketch.js:584-595 | when nothing dies, the pass keeps every entry in place, updated |
| Effects.StepAndCull | sketch.js:541-552 | the backward update-and-splice loop leaves exactly the updated live entries, in their original order |
| Effects.RippleAfter | sketch.js:543-544 | after n passes a fresh ripple has radius 4n and opacity 200 - 6n |
| Effects.RippleLifetime | sketch.js:529-553 | a fresh ripple is removed by its 34th pass and not before |
| Effects.Spawned | sketch.js:556-570 | k spawns give k particles, all at full opacity with the given life and twinkle |
| Effects.SpawnedConcat | sketch.js:556-570 | spawning a and then b particles of one kind is spawning a + b |
| Effects.BurstParticles | sketch.js:572-580 | an answer burst is 36 twinkling particles with 70 frames to live at full opacity |
| Effects.ParticleLifetime | sketch.js:589-591 | after n > 0 passes a particle's life is down by n and its opacity is life × 255/90; a particle spawned with life L > 0 is gone exactly from its L-th pass on; twinkle never changes |
| Effects.FadeTrailPoint | sketch.js:519-521 | a dot fades by 3 per frame and never drops below 0 |
| Effects.FadeTrail | sketch.js:517-521 | fading keeps the number of dots |
| Effects.TrailFrameBounded | sketch.js:507-521 | a trail frame keeps at most 60 dots with opacities in [0, 180]; it grows by one until full and then drops its oldest; the newest dot ends the frame at 177 and every older dot is the corresponding old dot faded |
| ResultAnim.Ratio | sketch.js:412-413 | the ratio times the total is the score; it lies in [0, 1] for a valid score; it is 0 for an empty quiz |
| ResultAnim.TierByCounts | sketch.js:429-435 | in integers: fireworks if and only if 5·score ≥ 4·total; balloons if and only if 2·score ≥ total but below that; bubbles if and only if 2·score < total |
| ResultAnim.TierExamples | sketch.js:429-435 | 4/5 gives fireworks, 3/5 balloons, 1/5 bubbles, and an empty quiz bubbles |
| ResultAnim.PctBounds | sketch.js:414 | the displayed percentage is the integer quotient 100·score / total and lies in [0, 100] |
| ResultAnim.StepFirework | sketch.js:644-664 | a firework becomes done only once burst with no fragment left; a burst firework is done exactly when that happens |
| ResultAnim.FireworksPass | sketch.js:621-625 | the fireworks pass never lengthens the list |
| ResultAnim.Explosions | sketch.js:621-625 | at most one burst per live firework in a pass |
| ResultAnim.PassSplice | sketch.js:621-625 | one step of the backward splice loop over the fireworks: the entry at i is still the old one, and removing or replacing it extends the pass by one entry |
| ResultAnim.StepFireworkOk | sketch.js:644-682 | an update keeps a healthy firework healthy, unless it is now done (burst with no fragments) |
| ResultAnim.FireworksPassOk | sketch.js:618-626 | after a pass every remaining firework is healthy and not done |
| ResultAnim.SpawnRespectsCap | sketch.js:618-620 | a spawn check (the same rule for fireworks, balloons and bubbles) adds at most one entity and never pushes a list under its cap above it |
| ResultAnim.BalloonAfter | sketch.js:728-732 | after n frames a balloon has risen by n times its speed; radius and speed stay |
| QuizSession.Record | sketch.js:357-371 | recording an answer sets the choice, locks input, starts the 45-frame countdown, adds a point exactly when the choice is right, and leaves the screen and the index |
| QuizSession.Press | sketch.js:328-375 | a pointer press keeps the session invariant |
| QuizSession.KeyIndex | sketch.js:386-389 | a key chooses option k (0..3) if and only if it is the k-th of `a`..`d` in lower or upper case; every other key chooses none (-1) |
| QuizSession.KeyDown | sketch.js:384-406 | a key press keeps the session invariant |
| QuizSession.InvScoreBounds | sketch.js:11-16 | the score never exceeds the questions answered (plus the one being scored), nor the number of questions |
| QuizSession.FrameKeepsInv | sketch.js:216-324 | the countdown and the quiz-screen frame keep the invariant; off the quiz screen the countdown is idle |
| QuizSession.Step | sketch.js:328-458 | every event of the input and frame loop keeps the session invariant |
| QuizSession.FrameStep | sketch.js:69-84 | a frame keeps the session invariant |
| QuizSession.Run | sketch.js:328-458 | the invariant holds after any sequence of events |
| QuizSession.RunConcat | sketch.js:328-458 | running two event sequences one after the other is running their concatenation |
| QuizSession.ResetTransitions | sketch.js:328-458 | start fires only from the intro on the start button; restart fires only from the result screen on `r`/`R`; both zero every counter; other presses off the quiz change nothing |
| QuizSession.AnswerRecording | sketch.js:350-406 | an answer to an unanswered question (pointer or key) records the option, locks, starts the countdown and scores exactly when right; otherwise the session is unchanged |
| QuizSession.LockedIgnoresAnswers | sketch.js:350-385 | while input is locked no press and no key changes the session, so each question is scored at most once |
| QuizSession.KeyMatchesPointer | sketch.js:384-406 | under the invariant, a key answer equals a pointer press on the same option, even though the key handler lacks the index check |
| QuizSession.ScoreMonotone | sketch.js:328-458 | the score never falls, except through a start or a restart |
| QuizSession.FrameCountdown | sketch.js:303-324 | a running countdown loses one frame; its last frame advances by exactly one question, clears the answer and unlocks, entering the result screen exactly when no question is left |
| QuizSession.Frames | sketch.js:69-84 | k idle frames |
| QuizSession.CountdownRuns | sketch.js:303-324 | for t - 1 frames of a countdown of t only the timer moves; the t-th frame advances the quiz once |
| QuizSession.PlayEventsOk | sketch.js:328-374 | the events of any run of turns are well formed |
| QuizSession.TurnAdvances | sketch.js:303-374 | one answer plus 45 frames moves on by one question, with one point exactly when right |
| QuizSession.PlayScores | sketch.js:303-374 | playing out every remaining question ends on the result screen, reset, with one point added per right choice |
| QuizSession.PerfectRun | sketch.js:330-458 | start, then every answer right, ends on the result screen with the full score; `R` then returns to a fresh intro |
| QuizSession.AllCorrect | sketch.js:361-363 | choosing every right option scores every question |
| SketchRules.SameGeometryStacked | sketch.js:138-152 | changing only hover and highlight marks keeps the boxes stacked |
| SketchRules.ClickFlash | sketch.js:359-368 | a pointer answer lights the chosen box at 140 and, when wrong, the right box at 80; rectangles, hovers and all other boxes are untouched; highlights stay in range |
| SketchRules.KeyFlash | sketch.js:401 | a key answer lights no box of its own, only the right box at 80 when wrong; everything else is untouched |
| SketchRules.HoverFrameKeeps | sketch.js:241-254 | a quiz frame keeps the rectangles and the highlight range, marks exactly the boxes under the pointer as hovered, and fades every lit highlight by 10 |
| SketchRules.FlashFadesOut | sketch.js:254 | after n quiz frames a highlight is down by 10n (to no less than 0), so even the full 140 is gone after 14 frames |
| SketchRules.HoverCount | sketch.js:287-289 | at most one hover sparkle per box |
| SketchRules.HoverCountStacked | sketch.js:287-289 | in the stacked layout a quiz frame spawns at most one hover sparkle: exactly one when the pointer is on a box |
| SketchRules.ScreenSparkles | sketch.js:208-289 | every particle a screen spawns (intro sparkle, hover sparkle, firework ring) twinkles, starts fully opaque and lives at least 50 frames |
| SketchRules.RipplesAdded | sketch.js:529-537 | fresh ripples added to live ones leave every ripple live |
| SketchRules.ParticlesAdded | sketch.js:556-570 | fresh particles with positive life added to live ones leave every particle live |
| SketchRules.SetupOk | sketch.js:51-59 | setup establishes the sketch invariant |
| SketchRules.PressKeepsOk | sketch.js:328-375 | a pointer press keeps the sketch invariant, whatever it hits |
| SketchRules.KeyDownKeepsOk | sketch.js:384-406 | a key press keeps the sketch invariant |
| SketchRules.KeyTypedKeepsOk | sketch.js:447-458 | a typed character keeps the sketch invariant; a restart empties only the particles and the ripples |
| SketchRules.ResizeKeepsOk | sketch.js:62-66 | a new layout keeps the sketch invariant |
| SketchRules.FireworksFrameOk | sketch.js:610-626 | a fireworks frame keeps at most 6 fireworks, all healthy |
| SketchRules.ScreenFrameOk | sketch.js:216-761 | the screen part of a frame keeps boxes stacked and lit in range, and the animations within their caps of 6, 10 and 20 |
| SketchRules.TransientFrameOk | sketch.js:507-601 | the trail, particle and ripple passes leave the trail bounded and no expired ripple or particle |
| SketchRules.FrameKeepsOk | sketch.js:69-84 | a whole frame keeps the sketch invariant |
| Sketch.Sketch.Setup | sketch.js:43-59 | setup loads the questions (table or fallback), sizes the font, lays out the boxes, starts on a fresh intro with no effects, and establishes the class invariant and the sketch invariant |
| Sketch.Sketch.WindowResized | sketch.js:62-66 | a resize re-sizes the font and re-lays out the boxes for the new window and keeps the class invariant |
| Sketch.Sketch.SpawnRipple | sketch.js:529-537 | appends one fresh ripple |
| Sketch.Sketch.SpawnParticle | sketch.js:556-570 | appends one fresh particle with the given life and twinkle |
| Sketch.Sketch.BurstParticlesCenter | sketch.js:572-580 | adds exactly the 36-particle burst and one ripple |
| Sketch.Sketch.FindHit | sketch.js:354-374 | the scan returns the first box under the pointer, or -1 when none is |
| Sketch.Sketch.MousePressed | sketch.js:328-375 | the new session is the press transition on the first box hit; one ripple always, and on an answer a second ripple, the burst and the click highlights; the class invariant is kept |
| Sketch.Sketch.PointerAnswer | sketch.js:357-371 | records the hit box as the answer, lights it at 140 (and the right box at 80 when wrong) and adds the burst |
| Sketch.Sketch.KeyPressed | sketch.js:384-406 | the new session is the key transition; on an answer the burst and the key highlight; the class invariant is kept |
| Sketch.Sketch.KeyTyped | sketch.js:447-458 | the new session is the restart transition; a restart clears particles and ripples only; the class invariant is kept |
| Sketch.Sketch.Tick | sketch.js:303-324 | the countdown of a quiz frame, keeping the session invariant |
| Sketch.Sketch.HoverPass | sketch.js:241-289 | the option-box loop of a quiz frame: boxes become the hover frame of the old ones, plus the hover sparkles |
| Sketch.Sketch.DrawQuiz | sketch.js:216-325 | the quiz frame transition; with no question left the boxes and particles are untouched, otherwise the hover pass applies |
| Sketch.Sketch.DrawIntro | sketch.js:208-210 | adds the intro sparkle on every third frame |
| Sketch.Sketch.DrawCursorTrail | sketch.js:507-521 | the trail becomes the trail frame of the old one (push, evict past 60, fade) |
| Sketch.Sketch.UpdateAndDrawRipples | sketch.js:540-553 | the ripples become the survivors of one ripple pass |
| Sketch.Sketch.UpdateAndDrawParticles | sketch.js:583-601 | the particles become the survivors of one particle pass |
| Sketch.Sketch.Explode | sketch.js:665-682 | the firework bursts with its 80 fragment lives and adds its 20-particle sparkle ring |
| Sketch.Sketch.UpdateFirework | sketch.js:644-664 | one firework update, adding the sparkle ring exactly when it bursts |
| Sketch.Sketch.DrawResultFireworks | sketch.js:610-626 | spawn-if-due, then the fireworks pass; the particles gain 20 per burst |
| Sketch.Sketch.DrawResultBalloons | sketch.js:698-714 | spawn-if-due (every 20 frames, cap 10), then the balloon pass |
| Sketch.Sketch.DrawResultBubbles | sketch.js:745-761 | spawn-if-due (every 5 frames, cap 20), then the bubble pass |
| Sketch.Sketch.DrawResult | sketch.js:411-444 | only the animation of the earned tier runs |
| Sketch.Sketch.DrawScreen | sketch.js:73-79 | the screen of the current state runs, as the frame functions say; the class invariant is kept |
| Sketch.Sketch.Draw | sketch.js:69-84 | one frame: trail, screen, particle pass, ripple pass, each field as the frame functions say; the class invariant is kept |

## Left out

- Drawing is not modelled.
  - This covers every `push`/`fill`/`text`/`rect` call, `drawBackgroundGradient`, `drawCustomCursor`, the progress bar's glow, the feedback text and the restart hint.
  - It also covers `noCursor`, `textFont` and `createCanvas`/`resizeCanvas`. The canvas size becomes the `width`/`height` fields.
- `preload`'s `loadTable` is I/O.
  - `Sketch.Setup` takes an `Option<Table>` instead; `None` stands for a failed load.
  - A `Row` holds the cells under the names the parser looks up.
- `QuizData.ParseQuestionsOrFallback`: assumes that every cell the row loop looks up exists. The column test lower-cases the header names, but the lookups use the exact names `question`, `A`–`D` and `answer`/`correct`. So a header such as `Question,A,B,C,D,Answer`, or one with lower-case `a`–`d`, passes the test and then asks each row for a column it lacks. What p5's `getString` then does (it may throw and abort setup) is not modelled.
- `touchStarted` is out: it only forwards to `mousePressed`, and its return value only matters to the browser.
- `startBtnHover` is out: it only affects drawing.
- Positions, velocities, sway, radii, colours and the firework's x position are out (floating-point physics). Only opacities, lives, list sizes and the spawn and removal rules are modelled.
  - Balloons and bubbles keep their `y`, `r` and speed; the fireworks' launch height is not modelled.
- `random()` and `frameCount` become parameters.
  - `FrameInput` carries the pointer, the frame counter, the outcome of each firework's burst test, the fragment lives of a burst, and the radius and speed of a new balloon or bubble.
  - The lives are only required to stay within random(40, 80).
- `ResultAnim.Pct`: computed with exact rational arithmetic. JavaScript computes `floor(score / total * 100)` in floating point, which can come out one lower; for example 29/100 gives 28.
- `QuizData.LetterToIndex`: upper-cases ASCII only. JavaScript's `toUpperCase` maps more characters, but none outside `a`–`d` to one of `A`–`D`, so the result agrees.
- `QuizData.HasRequiredColumns`: lower-cases ASCII only. The one non-ASCII character `toLowerCase` maps into ASCII gives `k`, which no required column name contains.
- `QuizSession.KeyIndex`: models `k in mapKey` on the key names p5 delivers. JavaScript's `in` also matches inherited property names such as `constructor`, but no key name lower-cases to one of them.
- `Sketch.Sketch.KeyPressed`: requires that the quiz screen shows a question. The source indexes `questions[current]` without checking; every reachable state satisfies this, and `QuizSession.Inv` ensures it.
- `Sketch.Sketch.FindHit`, `Sketch.Sketch.PointerAnswer`, `Sketch.Sketch.Tick`, `Sketch.Sketch.HoverPass` and `Sketch.Sketch.DrawScreen`: these split inline code of `mousePressed`, `drawQuiz` and `draw` into methods of their own. They add no behaviour.
- The handler methods (`Sketch.Sketch.MousePressed`, `KeyPressed`, `KeyTyped`, `WindowResized`, `DrawScreen`, `Draw`): their own `ensures` promise the class invariant `Valid` (questions and session). The whole-sketch invariant `Healthy` (boxes, trail, ripples, particles, animations) follows from the keep lemmas in `SketchRules`, which are stated on the very transition each method's `ensures` names. It is not restated on each method.
- JavaScript numbers are doubles. The model uses unbounded integers for counters and exact reals for geometry; no counter of the sketch gets anywhere near 2^53.
