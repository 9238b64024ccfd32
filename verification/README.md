# Tug-of-war arithmetic game — a Dafny model of its core

Two players answer arithmetic questions. Every correct answer pulls a rope
toward the answering player's side, and the first side to drag the rope
across the win line wins. This project models the sequential logic behind
that game as pure Dafny functions over immutable records, and proves
properties of it.

- `game_logic.dfy` (module `GameLogic`) is the match state machine and the
  tension physics of the game hook. It covers:
  - the two scores;
  - the target tension that answers push around;
  - the raw tension that eases toward the target;
  - a damped "pulse" spring that jolts on every answer;
  - the status `Idle | Playing | LeftWin | RightWin`.

  `OnCorrect`, `Tick` (one run of the physics loop), `Start` and `Reset`
  are the entry points. `Run` folds a sequence of such events.
- `arena.dfy` (module `Arena`) is the per-frame scene geometry of the
  arena renderer. It covers:
  - the display tension and its clamp;
  - the rigid, fixed-length rope: its centre and grips, sag and curve;
  - the twist-mark samples;
  - the flag on the rope's midpoint;
  - the side glow and the tension gauge fill;
  - both characters' poses and facial expression;
  - the footstep dust pool, capped at 80 particles.

  `RenderFrame` is one ticker callback, and `RunFrames` runs any number of
  them.
- `player_panel.dfy` (module `PlayerPanel`) is the question panel:
  - `randInt` and the question generator;
  - the numpad buffer and the keyboard field;
  - `parseInt` on decimal input;
  - the submit guard that reports a correct answer to the game.
- `calculator.dfy` (module `Calculator`) is the factor-picker calculator:
  - the operation table;
  - `result` and `canSubmit`;
  - picking a factor, switching the operation, submitting.
- `wrappers.dfy` (module `Wrappers`) holds the shared `Option` type, and
  `numeric.dfy` (module `Numeric`) the shared `Abs`, `Max`, `Min` and the
  unit-interval predicate for random draws.

Every quantity is an exact `real` or an unbounded `int`. Each
`Math.random()` draw is a parameter, and lemmas that need it constrain it
to [0, 1). The layout numbers that the arena derives from its surface width
are fields of a `Layout` parameter.

Three behaviours of the code are worth knowing before reading the model:

- **Any side other than "left" pulls right.** `onCorrect` compares the side
  with `"left"` only, so every other value takes the right-hand branch
  (`NonLeftSideActsAsRight`).
- **Answers commute except at the clamp.** A left and a right answer in
  either order give the same state while the target is away from the ±1.5
  clamp (`AnswersCommuteAwayFromClamp`). At the clamp they do not: with the
  target at -1.5, left-then-right ends at -1.38 and right-then-left at -1.5
  (`AnswersDoNotCommuteAtClamp`).
- **Calculator results span [1, 81].** With factors from 1..9 a product
  lies in [1, 81] (1 × 1 = 1) and a sum in [2, 18] (`ResultRange`,
  `ResultRangeTight`).

## Model

| member | source | states |
|---|---|---|
| GameLogic.Start | src/hooks/useGameLogic.js:55-66 | a start from any state yields a match in progress with both scores 0 and tension, target, pulse displacement and velocity all 0; the result does not depend on the prior state, so starting twice is starting once |
| GameLogic.Reset | src/hooks/useGameLogic.js:83-92 | a reset from any state yields the idle initial state with zero scores and physics, independent of the prior state (idempotent) |
| GameLogic.Initial | src/hooks/useGameLogic.js:11-28 | before the first game the match is idle with both scores 0 and tension, target and pulse at rest; Reset returns to exactly this state, and every state reachable from it keeps the match invariant (ReachableIsValid) |
| GameLogic.OnCorrect | src/hooks/useGameLogic.js:69-80 | outside a match nothing changes; tension, pulse displacement and status never change; a "left" answer adds one left point, subtracts the 0.55 impulse and sets the target to target - 0.12 when that is at least -1.5 and to -1.5 otherwise; any other side adds a right point, adds the impulse and sets the target to target + 0.12 when that is at most 1.5 and to 1.5 otherwise |
| GameLogic.Tick | src/hooks/useGameLogic.js:32-51 | outside a match a frame is a no-op; in a match the target and scores stay, the gap to the target shrinks by exactly 0.955, and the status becomes LeftWin iff the new raw tension is at most -1, RightWin iff at least 1, and stays Playing iff strictly between |
| GameLogic.TickStaysInRange | src/hooks/useGameLogic.js:35 | one easing step keeps the tension between its old value and the target, hence within [-1.5, 1.5] |
| GameLogic.StepPreservesValid | src/hooks/useGameLogic.js:33-92 | every event keeps target and tension in [-1.5, 1.5], a match in progress strictly inside the win lines, and an idle engine equal to the initial state |
| GameLogic.RunPreservesValid | src/hooks/useGameLogic.js:33-92 | the same invariant holds after any finite sequence of events |
| GameLogic.ReachableIsValid | src/hooks/useGameLogic.js:11-16 | every state reachable from the initial one keeps target and tension in [-1.5, 1.5] |
| GameLogic.StepStatusTransition | src/hooks/useGameLogic.js:33-47 | the status moves only Idle/any → Playing by a start, any → Idle by a reset, and Playing → LeftWin or RightWin by a frame; answers never change it |
| GameLogic.WinIsTerminal | src/hooks/useGameLogic.js:33 | once a side has won, any sequence of answers and frames leaves the whole state unchanged |
| GameLogic.StepScores | src/hooks/useGameLogic.js:70-79 | answers and frames never lower a score, and change no score outside a match |
| GameLogic.ScoresCountAnswers | src/hooks/useGameLogic.js:74 | without starts or resets, the total score grows by exactly the number of answers given while the match was in progress |
| GameLogic.LeftAnswers | src/hooks/useGameLogic.js:72-74 | n consecutive left answers set the target to max(-1.5, target - 0.12 n), add n to the left score, add n impulses to the pulse velocity and keep the match on |
| GameLogic.LeftAnswersFromStart | src/hooks/useGameLogic.js:55-74 | from a fresh start, n left answers put the target at max(-1.5, -0.12 n) and the left score at n |
| GameLogic.AnswersCommuteAwayFromClamp | src/hooks/useGameLogic.js:72-77 | with the target within 0.12 of neither clamp, a left and a right answer give the same state in either order |
| GameLogic.AnswersDoNotCommuteAtClamp | src/hooks/useGameLogic.js:72-77 | at target -1.5 the order matters: left then right gives -1.38, right then left gives -1.5 |
| GameLogic.NonLeftSideActsAsRight | src/hooks/useGameLogic.js:71-79 | every side value other than "left" has exactly the effect of "right"; none is rejected |
| GameLogic.MirrorSymmetry | src/hooks/useGameLogic.js:32-80 | swapping the sides (negating tensions and pulse, exchanging scores and winners) commutes with a frame and turns a right answer into a left one and back |
| GameLogic.MirrorTickN | src/hooks/useGameLogic.js:32-51 | mirroring commutes with any number of frames |
| GameLogic.ShrunkIsPow | src/hooks/useGameLogic.js:6 | shrinking a gap k times by 1 - 0.045 is multiplying it by (0.955)^k |
| GameLogic.GeometricApproach | src/hooks/useGameLogic.js:35 | with no answers, k frames keep the target and, while the match lasts, leave a gap to the target equal to the initial gap shrunk k times by 0.955 |
| GameLogic.TickNFixed | src/hooks/useGameLogic.js:33 | any number of frames leave a match that is not in progress untouched |
| GameLogic.TickTowardLowTarget | src/hooks/useGameLogic.js:35-47 | with the target at or below -1.08, a frame lowers the tension by at least 0.0036, keeps the invariant and cannot give a right win |
| GameLogic.PullDown | src/hooks/useGameLogic.js:35-47 | with the target at or below -1.08, after k frames the left side has won or the tension has dropped by at least 0.0036 k |
| GameLogic.LeftWinsWithin556 | src/hooks/useGameLogic.js:39-47 | once the target is at or below -1.08 (nine unanswered left answers), left has won after any n ≥ 556 frames |
| GameLogic.RightWinsWithin556 | src/hooks/useGameLogic.js:39-47 | symmetrically, a target at or above 1.08 gives a right win after any n ≥ 556 frames |
| GameLogic.AlternatingStaysBalanced | src/hooks/useGameLogic.js:35-79 | rounds of left answer, frame, right answer, frame from a balanced rope keep the match on, return the target to 0 each round, keep the tension in [-0.12, 0] and add n points to each side |
| GameLogic.SpringStep | src/hooks/useGameLogic.js:36-37 | the velocity is updated from the old displacement, and the new displacement uses the new velocity: d' = 0.91 d + 0.82 v |
| GameLogic.SpringEnergyBoundsDisplacement | src/hooks/useGameLogic.js:36-37 | the spring energy 9d² + 9dv + 82v² bounds 8d² from above and is never negative |
| GameLogic.SpringEnergyDecays | src/hooks/useGameLogic.js:36-37 | every frame multiplies the spring energy by exactly 0.82, so each impulse dies away geometrically |
| Arena.BezierIsDeCasteljau | src/components/TugArena.jsx:4-10 | the Bernstein-form point equals the point built by interpolating twice between the three control points, for every t |
| Arena.BezierEndpoints | src/components/TugArena.jsx:4-10 | the curve passes through its first point at t = 0 and its last at t = 1 |
| Arena.BezierMidpoint | src/components/TugArena.jsx:4-10 | with level endpoints and the control x at their midpoint, the point at t = 0.5 lies at that x, half the control point's dip below the endpoints |
| Arena.BezierTranslate | src/components/TugArena.jsx:4-10 | moving all control points down by dy moves every curve point down by dy |
| Arena.DisplayTension | src/components/TugArena.jsx:277 | the drawn tension equals the raw tension iff the pulse is at rest, and lies above it iff the pulse is positive |
| Arena.ClampUnit | src/components/TugArena.jsx:278 | the clamped tension lies in [-1, 1], equals the input inside that range and saturates at the nearer end outside it |
| Arena.Slide | src/components/TugArena.jsx:183-286 | the centre's offset from the middle is the full slide at tension 1 and its negation at -1, within the maximum slide for a clamped tension, zero at zero tension, and positive iff the tension is |
| Arena.SlideLinear | src/components/TugArena.jsx:286 | the slide is proportional to the tension: the slides of two tensions add up to the slide of their sum, and a larger tension never slides the centre less |
| Arena.RopeGrips | src/components/TugArena.jsx:286-288 | the grips are one rope length apart with the centre between them, and the centre is the middle shifted by the slide for the clamped tension; so it stays within the slide range of the middle, sits in the middle at zero and right of it iff the tension is positive |
| Arena.RopeLengthInvariant | src/components/TugArena.jsx:277-288 | for every raw tension and pulse the rope keeps its length and its centre stays within the slide range |
| Arena.Sag | src/components/TugArena.jsx:307 | the sag is at least 2, and exactly 2 iff the pulse is at rest |
| Arena.SagSymmetricMonotone | src/components/TugArena.jsx:307 | the sag does not depend on the pulse's sign and grows with its size |
| Arena.RopeCurve | src/components/TugArena.jsx:15-16 | the rope runs from grip to grip with its control point above their midpoint, the sag below their mean height |
| Arena.ShadowAndHighlightFollowRope | src/components/TugArena.jsx:18-31 | the shadow and highlight curves are the rope body shifted 5 down and 2 up, at every parameter |
| Arena.TwistSamples | src/components/TugArena.jsx:34 | the twist loop visits exactly eight parameters, 0.06 + 0.13 i, all strictly inside (0, 1) |
| Arena.LevelRopePoint | src/components/TugArena.jsx:4-16 | on a level rope the point at t lies the fraction t of the way from grip to grip and 2t(1 - t) times the sag below the grips; strictly inside the rope it hangs between the grip height and half the sag |
| Arena.TwistMarksOnLevelRope | src/components/TugArena.jsx:34-35 | the twist marks sampled by the loop lie a fraction t of the way between the grips, consecutive marks are 0.13 of the grip distance apart, and with a non-negative sag every mark hangs between the grip height and half the sag below it |
| Arena.GaitPhase | src/components/TugArena.jsx:50-53 | a character whose grip moved at most 0.15 idles at phase 2 × time; a moving one after positive time has a phase above 6 × time in size, positive iff its grip moved right; at time 0 the phase is 0 |
| Arena.GaitPhaseMirror | src/components/TugArena.jsx:50-53 | grips moving in opposite directions walk in opposite phase, and idle characters share the phase |
| Arena.GlowFor | src/components/TugArena.jsx:302-304 | the glow covers the left half iff the tension is negative, the right half iff positive, none at zero, with an opacity in (0, 0.22] |
| Arena.MeterFillFor | src/components/TugArena.jsx:146-152 | the fill is blue iff the tension is negative, red iff positive and absent at zero; it grows outward from the gauge centre, and for a clamped tension it is at most 130 wide and stays inside the gauge |
| Arena.Stride | src/components/TugArena.jsx:54 | for a gait sine in [-1, 1] the stride stays within the stride amplitude |
| Arena.CharPose | src/components/TugArena.jsx:47-74 | a character moves iff its grip moved more than 0.15; the stride amplitude is in [5, 22]; the drag is non-negative and positive iff the tension pulls toward the other side; the strain is in [0, 1] and the lean in [-0.18, 0.32]; the body stands 50 behind the grip; the elbow lies between shoulder and fist; the face is distressed iff drag > 0.25 or strain > 0.5 |
| Arena.PoseMirror | src/components/TugArena.jsx:47-74 | the right character under tension t has the drag, strain, stride, expression and bob of the left one under -t, and the opposite lean |
| Arena.DraggedSideStrainsMore | src/components/TugArena.jsx:57-58 | the character being dragged strains at least as hard as the leader, whose drag is zero and who grimaces only when the display tension exceeds 5/3 |
| Arena.NewParticle | src/components/TugArena.jsx:254-261 | a new particle has life 1 and, for draws in [0, 1), lies within 12 of the foot on the ground band, rises with a vertical speed in (-3.3, -0.8] and has a radius in [2, 6) |
| Arena.KeepNewestAppend | src/components/TugArena.jsx:263 | trimming the pool to its newest 80 before appending more particles and trimming again keeps the same particles as trimming once at the end |
| Arena.EmitDust | src/components/TugArena.jsx:252-264 | the pool holds at most 80 particles; it is the old pool plus the three new ones when that fits, otherwise its newest 80; the three new particles are always its last three |
| Arena.SurvivorsMembers | src/components/TugArena.jsx:315 | a particle survives the filter exactly when it was in the pool with life above 0 |
| Arena.SurvivorsFilter | src/components/TugArena.jsx:315 | the filter works particle by particle and keeps the order: the survivors of two pools laid end to end are the survivors of the first followed by those of the second, and a single particle survives iff its life is above 0 |
| Arena.AdvanceNClosedForm | src/components/TugArena.jsx:316 | after k advances a particle has moved k × vx across, its falling speed has grown by k × 0.18, its height has changed by k × vy + 0.18 × k(k - 1)/2, its life has dropped by k × 0.045, and its horizontal speed and size are unchanged |
| Arena.Updated | src/components/TugArena.jsx:315-322 | the update advances each survivor in order, so the pool never grows |
| Arena.UpdateParticles | src/components/TugArena.jsx:315-322 | one pass over the pool, filtering then advancing, computes the same pool as the filter-then-map reference |
| Arena.DrawRadius | src/components/TugArena.jsx:318 | a particle is drawn with radius at least 0.5 |
| Arena.DrawAlpha | src/components/TugArena.jsx:319 | the opacity is 0.55 times the life: in (0, 0.55] for a drawn particle, 0.55 only at full life and below it once the particle has aged |
| Arena.UpdateLife | src/components/TugArena.jsx:315-322 | each updated particle had life before the update and lost exactly 0.045; one left with no life is still in the pool and undrawn, and the next update drops it |
| Arena.UpdateLowersLife | src/components/TugArena.jsx:316 | if every life is at most m, after an update every life is at most m - 0.045 |
| Arena.UpdatedNLife | src/components/TugArena.jsx:315-322 | after k updates every life is at most m - 0.045 k |
| Arena.PoolDrainsIn24Frames | src/components/TugArena.jsx:315-322 | without new dust, a pool of particles with life at most 1 is empty after 24 frames |
| Arena.EmitFootsteps | src/components/TugArena.jsx:297-298 | a grip raises a burst of three particles exactly when it moved by more than 0.2; with no burst the pool is unchanged; otherwise it is the newest 80 of the old pool, the left burst and the right burst in that order, ending with the right burst (or the left one alone) |
| Arena.InitialTicker | src/components/TugArena.jsx:266-269 | before the first frame the previous grips are the resting grips, one rope length apart, the clock is 0 and the pool is empty |
| Arena.RenderFrame | src/components/TugArena.jsx:272-351 | one ticker frame: the drawn tension is the raw tension plus 0.44 of the pulse; the rope, gauge, glow and banner get it clamped to [-1, 1], and the characters get it unclamped; the grips follow the clamped tension and the rope hangs between them with the pulse's sag; the rope keeps its length; the flag is the midpoint of the drawn rope at the rope centre, half the sag below the grips; the banner points right iff the clamped tension is ≥ 0; each grip's velocity is its move since the last frame; the gait phases run on the new time and each grip's velocity; the next pool is the footstep dust added to the old pool, then filtered and advanced; when the previous grips were a rope length apart, both grips move together, and a frame with at most 0.2 movement only filters and advances the pool; time advances by delta/60; a pool of at most 80 stays so |
| Arena.FrameFollowsDisplayTension | src/components/TugArena.jsx:277-288 | within [-1, 1] the gauge shows exactly the raw tension plus 0.44 of the pulse; beyond 1 the rope is at full slide to the right and the banner points right, and beyond -1 the rope is at full slide to the left and the banner points left |
| Arena.FirstFrameAtRest | src/components/TugArena.jsx:266-298 | a first frame with zero tension and pulse moves neither grip and leaves the pool empty |
| Arena.PoolStaysBounded | src/components/TugArena.jsx:252-322 | over any sequence of frames, whatever the tensions and draws, the pool stays at most 80 and the grips one rope length apart |
| Arena.ArenaPoolBounded | src/components/TugArena.jsx:251-269 | from the arena's first frame on the dust pool never exceeds 80 particles |
| PlayerPanel.RandInt | src/components/PlayerPanel.jsx:3-5 | for a draw in [0, 1) and min ≤ max the result is an integer in [min, max] |
| PlayerPanel.RandIntReachesAll | src/components/PlayerPanel.jsx:3-5 | every integer in [min, max] is produced by some draw in [0, 1) |
| PlayerPanel.GenerateQuestion | src/components/PlayerPanel.jsx:7-18 | with draws in [0, 1) the fallback branch is never taken; sums have operands in [3, 20]; differences have a in [8, 20], b in [2, a-3] and answer ≥ 3; products have factors in [2, 12]; quotients have divisor and answer in [2, 9] |
| PlayerPanel.QuestionIsCorrect | src/components/PlayerPanel.jsx:7-18 | evaluating the displayed expression of a generated question gives its answer; in particular every division is exact |
| PlayerPanel.EveryOperatorReachable | src/components/PlayerPanel.jsx:8 | each of the four operators is chosen by some draw |
| PlayerPanel.ParseDigits | src/components/PlayerPanel.jsx:57 | parseInt of a non-empty run of digits is the number they spell |
| PlayerPanel.ParseDecimal | src/components/PlayerPanel.jsx:57 | parseInt of the decimal spelling of a natural number gives back that number |
| PlayerPanel.ParseIntToString | src/components/PlayerPanel.jsx:17 | parseInt of the template-literal spelling of any integer, negative ones with a leading minus, gives back that integer |
| PlayerPanel.DisplayLeadsWithFirstOperand | src/components/PlayerPanel.jsx:17 | parseInt of a question's displayed text `a op b` reads back its first operand a, since the space after it ends the number |
| PlayerPanel.PadKeysAreDigitsAndBackspace | src/components/PlayerPanel.jsx:21-26 | the numpad has a key for every digit, and its only other key is backspace |
| PlayerPanel.CanSubmitEnabled | src/components/PlayerPanel.jsx:85-86 | submitting is possible only when the pad is enabled, and then exactly when the input is not blank |
| PlayerPanel.NextQuestion | src/components/PlayerPanel.jsx:38-53 | loading a question clears the buffer, the feedback and the wrong entry, which re-enables the pad with nothing to submit |
| PlayerPanel.HandleNumpad | src/components/PlayerPanel.jsx:76-83 | a key does nothing while disabled; backspace drops the last character (an empty buffer stays empty); any other key is appended only below four characters; the pad never lengthens a buffer past four |
| PlayerPanel.BackspaceUndoesDigit | src/components/PlayerPanel.jsx:78-82 | a key press that fits followed by backspace restores the panel |
| PlayerPanel.TypeDigits | src/components/PlayerPanel.jsx:76-83 | typing any keys keeps a buffer of at most four within four and leaves question and feedback alone; digits that fit are appended in order |
| PlayerPanel.KeyboardEdit | src/components/PlayerPanel.jsx:102-172 | the keyboard field exists only during play and is locked while feedback shows: outside play or with feedback it changes nothing, otherwise it replaces the buffer with its text; question, feedback and wrong entry are never touched |
| PlayerPanel.KeyboardBypassesLimit | src/components/PlayerPanel.jsx:76-172 | during play without feedback the keyboard field can hold five characters, which a further numpad digit does not lengthen; outside play or with feedback it changes nothing, so the four-character bound is the numpad's alone |
| PlayerPanel.KeyboardAnswerScores | src/components/PlayerPanel.jsx:55-172 | typing the decimal spelling of the answer, of any size, into the keyboard field during play and submitting reports the correct answer to the game |
| PlayerPanel.HandleSubmit | src/components/PlayerPanel.jsx:55-69 | the game is told of a correct answer iff submitting is allowed and the input parses to the answer; a disallowed or unparseable submit changes nothing; a parsed wrong value shows the wrong feedback and records the entry |
| PlayerPanel.NoDoubleSubmit | src/components/PlayerPanel.jsx:55-86 | after a submit that was not ignored, the panel is disabled: a second submit and any key change nothing until the next question |
| PlayerPanel.TypingTheAnswerScores | src/components/PlayerPanel.jsx:38-83 | on a fresh question, typing the digits of an answer below 10000 and submitting reports the correct answer to the game |
| PlayerPanel.GeneratedAnswersFitThePad | src/components/PlayerPanel.jsx:7-18 | every generated answer is non-negative and fits in the four-character buffer |
| Calculator.Result | src/components/Calculator.jsx:6-18 | a result exists iff both factors are set; it is their product under the × entry and their sum under the + entry |
| Calculator.CanSubmitExactly | src/components/Calculator.jsx:22 | submitting is possible iff the calculator is neither disabled nor locked and both factors are set |
| Calculator.Initial | src/components/Calculator.jsx:12-18 | a new calculator has neither factor set, hence no result, and multiplication selected |
| Calculator.Pick | src/components/Calculator.jsx:20-117 | a pick changes nothing on the idle screen, where the grids are not shown, or while disabled or locked; otherwise it sets exactly the chosen factor and keeps the operation |
| Calculator.Submit | src/components/Calculator.jsx:20-128 | on the idle screen, where the pull button is not shown, or when a submit is not allowed, nothing changes and nothing is sent; an allowed one sends the side and the result and clears both factors, keeping the operation |
| Calculator.SelectOp | src/components/Calculator.jsx:63-76 | switching the operation does nothing on the idle screen, where the selector is not shown, or while disabled or locked; otherwise it selects it and clears both factors, so no result remains |
| Calculator.NoDoubleSubmit | src/components/Calculator.jsx:29-34 | after a submission there is no result, so an immediate second submit sends nothing |
| Calculator.PickBothThenSubmit | src/components/Calculator.jsx:18-34 | picking both factors and submitting sends what the selected operation computes from them |
| Calculator.OperationsPreserveValid | src/components/Calculator.jsx:3-69 | picking from the grid, switching the operation and submitting keep every set factor within 1..9 |
| Calculator.ResultRange | src/components/Calculator.jsx:3-18 | with grid factors a product lies in [1, 81] and a sum in [2, 18] |
| Calculator.ResultRangeTight | src/components/Calculator.jsx:3-9 | the bounds are reached: 1 × 1 = 1, 9 × 9 = 81, 1 + 1 = 2, 9 + 9 = 18 |

## Left out

- Drawing calls, layer set-up, the static background, the crowd and
  win-zone painting, and the asynchronous set-up and tear-down of the
  arena. The model keeps only the numbers that feed the drawing.
- Animation-frame scheduling and cancellation, React state publication, and
  the victory and game-loop sounds. One frame of the physics is the pure
  function `Tick`.
- The audio hook, the confetti, the countdown overlay, the scoreboard and
  the page layout. The layout refers to statuses (countdown, paused) that
  the game hook never produces.
- Floating point. Reals are exact, so the model does not cover rounding:
  the twist loop's accumulated parameter, the 0.955 factor, and the
  integer-valued layout derived by `Math.round` from the surface width.
  `Layout` takes those numbers as given.
- `Math.sin` and `Math.hypot`. The gait phase is modelled
  (`Arena.GaitPhase`, part of each frame's view), but the sine of it that
  swings the legs is a caller-supplied value. The twist marks'
  normal vectors, the leg and foot coordinates and the face, eye, fist and
  shoe shapes are not modelled.
- Arena.CharPose: the elbow's y, the second elbow and the foot positions
  are left out; the shoulder and head heights follow from the hip height.
- The `setTimeout` delays (500 ms after a correct answer, 1300 ms after a
  wrong one) and input focus. `NextQuestion` is the delayed step, applied
  when the caller chooses.
- PlayerPanel.ParseInt: only ASCII whitespace is skipped, and digits are
  only ASCII digits. The Unicode white space that `trim` and `parseInt`
  also skip is not modelled.
- PlayerPanel.Display: only the decimal rendering of the question is
  modelled. The fallback branch's display (`undefined` as the operator) is
  kept but never reached with proper draws.
- The header, labels, colours and class names of the panels and the
  calculator, and the calculator's "waiting to start" hint. That the idle
  screen hides the calculator's controls is modelled by an `idle` argument
  under which no input has an effect.
- PlayerPanel.KeyboardEdit: the browser's own filtering of a numeric input
  field is not modelled; the field's text is taken as given.
