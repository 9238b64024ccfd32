/** The match state machine and tension physics of the tug-of-war game.

    The engine keeps the two scores, the target tension that correct answers
    push around, the raw tension that follows the target, a damped "pulse"
    spring (displacement and velocity) that jolts on every correct answer,
    and the match status. One call of the animation-frame physics loop is the
    pure step function `Tick`; `OnCorrect`, `Start` and `Reset` are the other
    entry points. All quantities are exact `real`s. */
module GameLogic {
  import opened Numeric

  // ---------------------------------------------------------------------------
  // Constants
  // ---------------------------------------------------------------------------

  const ShiftPerCorrect: real := 0.12
  const TensionLerp: real := 0.045
  const WinThreshold: real := 1.0
  const PulseDamp: real := 0.82
  const PulseK: real := 0.09
  /** Velocity kick that one correct answer gives the pulse spring. */
  const PulseImpulse: real := 0.55
  /** The target tension is clamped to plus or minus this bound. */
  const TargetLimit: real := WinThreshold * 1.5

  // ---------------------------------------------------------------------------
  // State
  // ---------------------------------------------------------------------------

  datatype Status = Idle | Playing | LeftWin | RightWin

  /** The hook's refs (tension, target, pulse, status) together with the
      scores it publishes. */
  datatype Engine = Engine(
    leftScore: nat,
    rightScore: nat,
    tension: real,
    target: real,
    pulseD: real,
    pulseV: real,
    status: Status)

  /** The state before the first game and after every reset. */
  function Initial(): (r: Engine)
    ensures r.status == Idle
    ensures r.leftScore == 0 && r.rightScore == 0
    ensures r.tension == 0.0 && r.target == 0.0
    ensures r.pulseD == 0.0 && r.pulseV == 0.0
  {
    Engine(0, 0, 0.0, 0.0, 0.0, 0.0, Idle)
  }

  // ---------------------------------------------------------------------------
  // Operations
  // ---------------------------------------------------------------------------

  /** Starting (or restarting) a match zeroes the physics and the scores,
      whatever state came before. */
  function Start(s: Engine): (r: Engine)
    ensures r.status == Playing
    ensures r.leftScore == 0 && r.rightScore == 0
    ensures r.tension == 0.0 && r.target == 0.0
    ensures r.pulseD == 0.0 && r.pulseV == 0.0
  {
    Initial().(status := Playing)
  }

  /** Going back to the menu zeroes the physics and the scores and leaves
      the match idle, whatever state came before. */
  function Reset(s: Engine): (r: Engine)
    ensures r.status == Idle
    ensures r.leftScore == 0 && r.rightScore == 0
    ensures r.tension == 0.0 && r.target == 0.0
    ensures r.pulseD == 0.0 && r.pulseV == 0.0
  {
    Initial()
  }

  /** A correct answer from `side`. Only the literal "left" pulls left;
      every other value takes the right-hand branch. */
  function OnCorrect(s: Engine, side: string): (r: Engine)
    ensures s.status != Playing ==> r == s
    // nothing but target, pulse velocity and one score ever changes
    ensures r.status == s.status && r.tension == s.tension && r.pulseD == s.pulseD
    ensures s.status == Playing && side == "left" ==>
      && r.leftScore == s.leftScore + 1 && r.rightScore == s.rightScore
      && r.pulseV == s.pulseV - PulseImpulse
      && -TargetLimit <= r.target <= Max(s.target, -TargetLimit)
      // the target drops by ShiftPerCorrect, or stops at the lower limit
      && (s.target - ShiftPerCorrect >= -TargetLimit ==> r.target == s.target - ShiftPerCorrect)
      && (s.target - ShiftPerCorrect < -TargetLimit ==> r.target == -TargetLimit)
    ensures s.status == Playing && side != "left" ==>
      && r.rightScore == s.rightScore + 1 && r.leftScore == s.leftScore
      && r.pulseV == s.pulseV + PulseImpulse
      && Min(s.target, TargetLimit) <= r.target <= TargetLimit
      && (s.target + ShiftPerCorrect <= TargetLimit ==> r.target == s.target + ShiftPerCorrect)
      && (s.target + ShiftPerCorrect > TargetLimit ==> r.target == TargetLimit)
  {
    if s.status != Playing then s
    else if side == "left" then
      s.(target := Max(-TargetLimit, s.target - ShiftPerCorrect),
         pulseV := s.pulseV - PulseImpulse,
         leftScore := s.leftScore + 1)
    else
      s.(target := Min(TargetLimit, s.target + ShiftPerCorrect),
         pulseV := s.pulseV + PulseImpulse,
         rightScore := s.rightScore + 1)
  }

  /** One run of the physics loop: ease the tension toward the target,
      advance the pulse spring, then check the raw tension for a win. */
  function Tick(s: Engine): (r: Engine)
    ensures s.status != Playing ==> r == s
    ensures s.status == Playing ==>
      && r.target == s.target
      && r.leftScore == s.leftScore && r.rightScore == s.rightScore
      // the gap to the target shrinks by the factor 1 - TensionLerp
      && s.target - r.tension == (1.0 - TensionLerp) * (s.target - s.tension)
      && (r.status == LeftWin <==> r.tension <= -WinThreshold)
      && (r.status == RightWin <==> r.tension >= WinThreshold)
      && (r.status == Playing <==> -WinThreshold < r.tension < WinThreshold)
  {
    if s.status != Playing then s
    else
      var t := s.tension + (s.target - s.tension) * TensionLerp;
      var v := s.pulseV * PulseDamp - s.pulseD * PulseK;
      var d := s.pulseD + v;
      var status :=
        if t <= -WinThreshold || t >= WinThreshold then
          (if t <= -WinThreshold then LeftWin else RightWin)
        else Playing;
      s.(tension := t, pulseV := v, pulseD := d, status := status)
  }

  // ---------------------------------------------------------------------------
  // Event sequences
  // ---------------------------------------------------------------------------

  datatype Event = Correct(side: string) | Frame | StartGame | ResetGame

  function Step(s: Engine, e: Event): Engine
  {
    match e
    case Correct(side) => OnCorrect(s, side)
    case Frame => Tick(s)
    case StartGame => Start(s)
    case ResetGame => Reset(s)
  }

  function Run(s: Engine, evs: seq<Event>): Engine
    decreases |evs|
  {
    if evs == [] then s else Run(Step(s, evs[0]), evs[1..])
  }

  /** n copies of one event. */
  function Repeat(e: Event, n: nat): (r: seq<Event>)
    ensures |r| == n
    ensures forall i :: 0 <= i < |r| ==> r[i] == e
  {
    if n == 0 then [] else [e] + Repeat(e, n - 1)
  }

  function TickN(s: Engine, n: nat): Engine
    decreases n
  {
    if n == 0 then s else TickN(Tick(s), n - 1)
  }

  function Pow(x: real, n: nat): real
  {
    if n == 0 then 1.0 else x * Pow(x, n - 1)
  }

  // ---------------------------------------------------------------------------
  // Invariant
  // ---------------------------------------------------------------------------

  /** What every reachable state satisfies: target and tension stay within
      the clamp range, a match in progress has not yet crossed the win line,
      and an idle engine is exactly the initial one. */
  predicate Valid(s: Engine)
  {
    && -TargetLimit <= s.target <= TargetLimit
    && -TargetLimit <= s.tension <= TargetLimit
    && (s.status == Playing ==> -WinThreshold < s.tension < WinThreshold)
    && (s.status == Idle ==> s == Initial())
  }

  /** Easing toward a target inside the clamp range never leaves it. */
  lemma TickStaysInRange(s: Engine)
    requires s.status == Playing
    requires -TargetLimit <= s.target <= TargetLimit
    requires -TargetLimit <= s.tension <= TargetLimit
    ensures -TargetLimit <= Tick(s).tension <= TargetLimit
    ensures Min(s.tension, s.target) <= Tick(s).tension <= Max(s.tension, s.target)
  {
    var t' := Tick(s).tension;
    assert t' == s.tension + (s.target - s.tension) * TensionLerp;
  }

  lemma StepPreservesValid(s: Engine, e: Event)
    requires Valid(s)
    ensures Valid(Step(s, e))
  {
    match e
    case Frame =>
      if s.status == Playing {
        TickStaysInRange(s);
      }
    case Correct(side) =>
    case StartGame =>
    case ResetGame =>
  }

  lemma {:induction false} RunPreservesValid(s: Engine, evs: seq<Event>)
    requires Valid(s)
    ensures Valid(Run(s, evs))
    decreases |evs|
  {
    if evs != [] {
      StepPreservesValid(s, evs[0]);
      RunPreservesValid(Step(s, evs[0]), evs[1..]);
    }
  }

  /** Every state reachable from the initial one by any mix of answers,
      frames, starts and resets keeps the target and the tension in
      [-1.5, 1.5]. */
  lemma ReachableIsValid(evs: seq<Event>)
    ensures Valid(Run(Initial(), evs))
    ensures -TargetLimit <= Run(Initial(), evs).target <= TargetLimit
    ensures -TargetLimit <= Run(Initial(), evs).tension <= TargetLimit
  {
    RunPreservesValid(Initial(), evs);
  }

  // ---------------------------------------------------------------------------
  // Status and scores
  // ---------------------------------------------------------------------------

  /** The status moves only along Idle -> Playing -> LeftWin | RightWin,
      except that a start always yields Playing and a reset always Idle. */
  predicate AllowedTransition(before: Status, after: Status, e: Event)
  {
    match e
    case StartGame => after == Playing
    case ResetGame => after == Idle
    case Correct(_) => after == before
    case Frame =>
      after == before || (before == Playing && (after == LeftWin || after == RightWin))
  }

  lemma StepStatusTransition(s: Engine, e: Event)
    ensures AllowedTransition(s.status, Step(s, e).status, e)
  {
  }

  /** A won match is terminal: answers and frames change nothing until the
      next start or reset. */
  lemma {:induction false} WinIsTerminal(s: Engine, evs: seq<Event>)
    requires s.status == LeftWin || s.status == RightWin
    requires forall i :: 0 <= i < |evs| ==> evs[i].Correct? || evs[i].Frame?
    ensures Run(s, evs) == s
    decreases |evs|
  {
    if evs != [] {
      assert Step(s, evs[0]) == s;
      WinIsTerminal(s, evs[1..]);
    }
  }

  /** Scores never decrease except through start or reset, and they only
      move while a match is in progress. */
  lemma StepScores(s: Engine, e: Event)
    requires !e.StartGame? && !e.ResetGame?
    ensures Step(s, e).leftScore >= s.leftScore
    ensures Step(s, e).rightScore >= s.rightScore
    ensures s.status != Playing ==>
      Step(s, e).leftScore == s.leftScore && Step(s, e).rightScore == s.rightScore
  {
  }

  /** Once started, and with no further start or reset, the total score
      counts exactly the correct answers given while the match was on. */
  function CountedAnswers(s: Engine, evs: seq<Event>): nat
    decreases |evs|
  {
    if evs == [] then 0
    else (if s.status == Playing && evs[0].Correct? then 1 else 0)
         + CountedAnswers(Step(s, evs[0]), evs[1..])
  }

  lemma {:induction false} ScoresCountAnswers(s: Engine, evs: seq<Event>)
    requires forall i :: 0 <= i < |evs| ==> evs[i].Correct? || evs[i].Frame?
    ensures Run(s, evs).leftScore + Run(s, evs).rightScore
         == s.leftScore + s.rightScore + CountedAnswers(s, evs)
    decreases |evs|
  {
    if evs != [] {
      ScoresCountAnswers(Step(s, evs[0]), evs[1..]);
    }
  }

  // ---------------------------------------------------------------------------
  // Repeated answers and ordering
  // ---------------------------------------------------------------------------

  /** n left answers in a row, with no frame in between, move the target to
      max(-1.5, target - 0.12 n), add n to the left score and accumulate n
      impulses in the pulse velocity: the kick does not depend on the pulse
      already present. */
  lemma {:induction false} LeftAnswers(s: Engine, n: nat)
    requires s.status == Playing
    requires -TargetLimit <= s.target
    ensures Run(s, Repeat(Correct("left"), n)).target
         == Max(-TargetLimit, s.target - ShiftPerCorrect * (n as real))
    ensures Run(s, Repeat(Correct("left"), n)).leftScore == s.leftScore + n
    ensures Run(s, Repeat(Correct("left"), n)).pulseV
         == s.pulseV - PulseImpulse * (n as real)
    ensures Run(s, Repeat(Correct("left"), n)).status == Playing
    decreases n
  {
    if n > 0 {
      var s' := OnCorrect(s, "left");
      assert Step(s, Correct("left")) == s';
      assert Repeat(Correct("left"), n)[1..] == Repeat(Correct("left"), n - 1);
      LeftAnswers(s', n - 1);
    }
  }

  /** From a fresh start, n left answers put the target at max(-1.5, -0.12 n). */
  lemma LeftAnswersFromStart(s: Engine, n: nat)
    ensures Run(Start(s), Repeat(Correct("left"), n)).target
         == Max(-TargetLimit, -ShiftPerCorrect * (n as real))
    ensures Run(Start(s), Repeat(Correct("left"), n)).leftScore == n
  {
    LeftAnswers(Start(s), n);
  }

  /** Away from the clamp, a left and a right answer commute. */
  lemma AnswersCommuteAwayFromClamp(s: Engine)
    requires -TargetLimit + ShiftPerCorrect <= s.target <= TargetLimit - ShiftPerCorrect
    ensures OnCorrect(OnCorrect(s, "left"), "right") == OnCorrect(OnCorrect(s, "right"), "left")
  {
  }

  /** At the clamp they do not: with the target at -1.5, left-then-right
      ends at -1.38 while right-then-left ends back at -1.5. */
  lemma AnswersDoNotCommuteAtClamp(s: Engine)
    requires s.status == Playing && s.target == -TargetLimit
    ensures OnCorrect(OnCorrect(s, "left"), "right").target == -1.38
    ensures OnCorrect(OnCorrect(s, "right"), "left").target == -1.5
  {
  }

  /** Any side name other than "left" behaves exactly like "right". */
  lemma NonLeftSideActsAsRight(s: Engine, side: string)
    requires side != "left"
    ensures OnCorrect(s, side) == OnCorrect(s, "right")
  {
  }

  // ---------------------------------------------------------------------------
  // Mirror symmetry
  // ---------------------------------------------------------------------------

  function MirrorStatus(st: Status): Status
  {
    match st
    case LeftWin => RightWin
    case RightWin => LeftWin
    case _ => st
  }

  /** The same match seen from the other side of the screen. */
  function Mirror(s: Engine): Engine
  {
    Engine(s.rightScore, s.leftScore, -s.tension, -s.target,
           -s.pulseD, -s.pulseV, MirrorStatus(s.status))
  }

  /** The physics does not favour either side: mirroring commutes with the
      tick and exchanges left and right answers. */
  lemma MirrorSymmetry(s: Engine)
    ensures Tick(Mirror(s)) == Mirror(Tick(s))
    ensures OnCorrect(Mirror(s), "left") == Mirror(OnCorrect(s, "right"))
    ensures OnCorrect(Mirror(s), "right") == Mirror(OnCorrect(s, "left"))
    ensures Mirror(Mirror(s)) == s
  {
  }

  lemma {:induction false} MirrorTickN(s: Engine, n: nat)
    ensures TickN(Mirror(s), n) == Mirror(TickN(s, n))
    decreases n
  {
    if n > 0 {
      MirrorSymmetry(s);
      MirrorTickN(Tick(s), n - 1);
    }
  }

  // ---------------------------------------------------------------------------
  // Convergence and winning
  // ---------------------------------------------------------------------------

  /** A gap g after k shrinks by the factor 1 - TensionLerp. */
  function Shrunk(g: real, k: nat): real
  {
    if k == 0 then g else (1.0 - TensionLerp) * Shrunk(g, k - 1)
  }

  /** Shrinking k times is scaling by the k-th power. */
  lemma {:induction false} ShrunkIsPow(g: real, k: nat)
    ensures Shrunk(g, k) == Pow(1.0 - TensionLerp, k) * g
  {
    if k > 0 {
      ShrunkIsPow(g, k - 1);
      var P := Pow(1.0 - TensionLerp, k - 1);
      assert (1.0 - TensionLerp) * (P * g) == ((1.0 - TensionLerp) * P) * g;
    }
  }

  /** With the target held fixed, k ticks shrink the gap to the target
      geometrically, as long as the match stays on. */
  lemma {:induction false} GeometricApproach(s: Engine, k: nat)
    requires s.status == Playing
    ensures TickN(s, k).target == s.target
    ensures TickN(s, k).status == Playing ==>
      s.target - TickN(s, k).tension == Shrunk(s.target - s.tension, k)
    decreases k
  {
    if k > 0 {
      GeometricApproach(s, k - 1);
      TickNLast(s, k - 1);
      var prev := TickN(s, k - 1);
      if Tick(prev).status == Playing {
        assert prev.status == Playing;
      }
    }
  }

  /** The last of k + 1 ticks is one tick after the first k. */
  lemma {:induction false} TickNLast(s: Engine, k: nat)
    ensures TickN(s, k + 1) == Tick(TickN(s, k))
    decreases k
  {
    if k > 0 {
      TickNLast(Tick(s), k - 1);
    }
  }

  /** Ticks do nothing to a match that is not in progress. */
  lemma {:induction false} TickNFixed(s: Engine, k: nat)
    requires s.status != Playing
    ensures TickN(s, k) == s
    decreases k
  {
    if k > 0 {
      TickNFixed(Tick(s), k - 1);
    }
  }

  /** One tick toward a target at or below -1.08, in a match still in
      progress, lowers the tension by at least 0.0036 and cannot give a
      right win. */
  lemma TickTowardLowTarget(s: Engine)
    requires Valid(s) && s.status == Playing && s.target <= -1.08
    ensures Valid(Tick(s))
    ensures Tick(s).status == Playing || Tick(s).status == LeftWin
    ensures Tick(s).target == s.target
    ensures Tick(s).tension <= s.tension - 0.0036
  {
    StepPreservesValid(s, Frame);
  }

  lemma {:induction false} PullDown(s: Engine, k: nat)
    requires Valid(s) && s.status == Playing && s.target <= -1.08
    ensures TickN(s, k).status == Playing || TickN(s, k).status == LeftWin
    ensures TickN(s, k).status == Playing ==>
      Valid(TickN(s, k)) && TickN(s, k).tension <= s.tension - 0.0036 * (k as real)
    decreases k
  {
    if k > 0 {
      TickTowardLowTarget(s);
      assert TickN(s, k) == TickN(Tick(s), k - 1);
      if Tick(s).status == Playing {
        PullDown(Tick(s), k - 1);
      } else {
        TickNFixed(Tick(s), k - 1);
      }
    }
  }

  /** Once the target sits at -1.08 or below (nine unanswered left answers
      from the start), the left side has won after any n >= 556 frames. */
  lemma LeftWinsWithin556(s: Engine, n: nat)
    requires Valid(s) && s.status == Playing && s.target <= -1.08
    requires n >= 556
    ensures TickN(s, n).status == LeftWin
  {
    PullDown(s, n);
  }

  /** The mirror image: a target at 1.08 or above gives a right win after
      any n >= 556 frames. */
  lemma RightWinsWithin556(s: Engine, n: nat)
    requires Valid(s) && s.status == Playing && s.target >= 1.08
    requires n >= 556
    ensures TickN(s, n).status == RightWin
  {
    LeftWinsWithin556(Mirror(s), n);
    MirrorTickN(Mirror(s), n);
    assert Mirror(Mirror(s)) == s;
  }

  /** Alternating rounds of one left answer, a frame, one right answer and a
      frame, from a balanced rope, never decide the match: the target returns
      to 0 after every pair and the tension stays in [-0.12, 0]. */
  function Rounds(n: nat): (r: seq<Event>)
    ensures |r| == 4 * n
  {
    if n == 0 then [] else [Correct("left"), Frame, Correct("right"), Frame] + Rounds(n - 1)
  }

  lemma RunAppend(s: Engine, a: seq<Event>, b: seq<Event>)
    ensures Run(s, a + b) == Run(Run(s, a), b)
    decreases |a|
  {
    if a != [] {
      assert a + b != [] && (a + b)[0] == a[0];
      assert Run(s, a + b) == Run(Step(s, a[0]), (a + b)[1..]);
      assert Run(s, a) == Run(Step(s, a[0]), a[1..]);
      assert (a + b)[1..] == a[1..] + b;
      RunAppend(Step(s, a[0]), a[1..], b);
    } else {
      assert a + b == b;
    }
  }

  lemma {:induction false} AlternatingStaysBalanced(s: Engine, n: nat)
    requires s.status == Playing && s.target == 0.0
    requires -ShiftPerCorrect <= s.tension <= 0.0
    ensures Run(s, Rounds(n)).status == Playing
    ensures Run(s, Rounds(n)).target == 0.0
    ensures -ShiftPerCorrect <= Run(s, Rounds(n)).tension <= 0.0
    ensures Run(s, Rounds(n)).leftScore == s.leftScore + n
    ensures Run(s, Rounds(n)).rightScore == s.rightScore + n
    decreases n
  {
    if n > 0 {
      var round: seq<Event> := [Correct("left"), Frame, Correct("right"), Frame];
      assert Rounds(n) == round + Rounds(n - 1);
      RunAppend(s, round, Rounds(n - 1));
      var a := OnCorrect(s, "left");
      var b := Tick(a);
      var c := OnCorrect(b, "right");
      var d := Tick(c);
      assert Run(s, round) == d;
      AlternatingStaysBalanced(d, n - 1);
    }
  }

  // ---------------------------------------------------------------------------
  // The pulse spring
  // ---------------------------------------------------------------------------

  /** The spring update is semi-implicit: the new displacement uses the new
      velocity, which makes it 0.91 d + 0.82 v in terms of the old values. */
  lemma SpringStep(s: Engine)
    requires s.status == Playing
    ensures Tick(s).pulseV == PulseDamp * s.pulseV - PulseK * s.pulseD
    ensures Tick(s).pulseD == 0.91 * s.pulseD + 0.82 * s.pulseV
  {
  }

  /** A positive-definite energy of the pulse spring. */
  function SpringEnergy(d: real, v: real): real
  {
    9.0 * d * d + 9.0 * d * v + 82.0 * v * v
  }

  /** The energy bounds the squared displacement: a small energy means a
      small jolt in the drawn rope. */
  lemma SpringEnergyBoundsDisplacement(d: real, v: real)
    ensures 0.0 <= 8.0 * (d * d) <= SpringEnergy(d, v)
  {
    var w := d + 4.5 * v;
    assert SpringEnergy(d, v) - 8.0 * (d * d) == w * w + 61.75 * (v * v);
    assert w * w >= 0.0 by { if w < 0.0 { assert w * w == (-w) * (-w); } }
    assert v * v >= 0.0 by { if v < 0.0 { assert v * v == (-v) * (-v); } }
    assert d * d >= 0.0 by { if d < 0.0 { assert d * d == (-d) * (-d); } }
  }

  /** Every tick multiplies the spring energy by exactly PulseDamp, so each
      impulse dies away geometrically however often it is applied. */
  lemma SpringEnergyDecays(s: Engine)
    requires s.status == Playing
    ensures SpringEnergy(Tick(s).pulseD, Tick(s).pulseV)
         == PulseDamp * SpringEnergy(s.pulseD, s.pulseV)
  {
    SpringStep(s);
    var d, v := s.pulseD, s.pulseV;
    var d', v' := 0.91 * d + 0.82 * v, 0.82 * v - 0.09 * d;
    assert 9.0 * d' * d' == 7.4529 * d * d + 13.4316 * d * v + 6.0516 * v * v;
    assert 9.0 * d' * v' == -0.7371 * d * d + 6.0516 * d * v + 6.0516 * v * v;
    assert 82.0 * v' * v' == 0.6642 * d * d - 12.1032 * d * v + 55.1368 * v * v;
  }
}
