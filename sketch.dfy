/** The sketch itself: the global variables of the quiz as the fields of one object, with one
    method per event handler and per part of the frame loop. Drawing is not modelled; where a
    handler draws, the method does only the bookkeeping that goes with it. */
module Sketch {
  import opened QuizData
  import opened Layout
  import opened Effects
  import opened ResultAnim
  import opened QuizSession
  import opened SketchRules

  class Sketch {
    const questions: seq<Question>
    var width: real
    var height: real
    var baseFontSize: real
    var optionBoxes: seq<OptionBox>

    var state: Screen
    var current: nat
    var score: nat
    var selectedIndex: int
    var lockInput: bool
    var feedbackTimer: nat

    var particles: seq<Particle>
    var ripples: seq<Ripple>
    var cursorTrail: seq<TrailPoint>
    var fireworks: seq<Firework>
    var balloons: seq<Balloon>
    var bubbles: seq<Bubble>

    /** The session variables as one value. */
    function Snapshot(): Session
      reads this`state, this`current, this`score, this`selectedIndex, this`lockInput, this`feedbackTimer
    {
      Session(state, current, score, selectedIndex, lockInput, feedbackTimer)
    }

    /** What setup establishes once and nothing changes afterwards: a non-empty set of well
        formed questions and four option boxes. */
    ghost predicate ShapeOk()
      reads this`optionBoxes
    {
      |questions| > 0 && WellFormed(questions) && |optionBoxes| == 4
    }

    /** The class invariant the handlers rely on: the shape setup establishes and the session
        invariant. */
    ghost predicate Valid()
      reads this`optionBoxes, this`state, this`current, this`score, this`selectedIndex, this`lockInput, this`feedbackTimer
    {
      ShapeOk() && Inv(Snapshot(), |questions|)
    }

    /** The whole sketch invariant over the current field values: the class invariant and
        healthy option boxes and effects. Setup establishes it; every handler's new state is
        the transition function of its keep lemma applied to the old one. */
    ghost predicate Healthy()
      reads this`optionBoxes, this`fireworks, this`balloons, this`bubbles, this`cursorTrail, this`ripples, this`particles
      reads this`state, this`current, this`score, this`selectedIndex, this`lockInput, this`feedbackTimer
    {
      SketchOk(questions, Snapshot(), optionBoxes, fireworks, balloons, bubbles, cursorTrail, ripples, particles)
    }

    /** preload and setup: the table (None when it failed to load) and the window size. */
    constructor Setup(table: Option<Table>, windowWidth: real, windowHeight: real)
      ensures questions == if FromTable(table) == [] then Fallback() else FromTable(table)
      ensures width == windowWidth && height == windowHeight && baseFontSize == BaseFontSize(windowWidth)
      ensures LaidOut(optionBoxes, width, height, baseFontSize)
      ensures Snapshot() == Fresh(Intro)
      ensures particles == [] && ripples == [] && cursorTrail == []
      ensures fireworks == [] && balloons == [] && bubbles == []
      ensures Valid() && Healthy()
    {
      width := windowWidth;
      height := windowHeight;
      baseFontSize := BaseFontSize(windowWidth);
      var qs := ParseQuestionsOrFallback(table);
      questions := qs;
      var boxes := BuildOptionBoxes(windowWidth, windowHeight, BaseFontSize(windowWidth));
      optionBoxes := boxes;
      state, current, score, selectedIndex, lockInput, feedbackTimer := Intro, 0, 0, -1, false, 0;
      particles, ripples, cursorTrail := [], [], [];
      fireworks, balloons, bubbles := [], [], [];
      SetupOk(qs, boxes, windowWidth, windowHeight, BaseFontSize(windowWidth));
    }

    /** A resize: the font size and the option boxes follow the new window; highlights reset. */
    method WindowResized(windowWidth: real, windowHeight: real)
      modifies this`width, this`height, this`baseFontSize, this`optionBoxes
      ensures width == windowWidth && height == windowHeight && baseFontSize == BaseFontSize(windowWidth)
      ensures LaidOut(optionBoxes, width, height, baseFontSize)
      ensures old(Valid()) ==> Valid()
    {
      width := windowWidth;
      height := windowHeight;
      baseFontSize := BaseFontSize(width);
      optionBoxes := BuildOptionBoxes(width, height, baseFontSize);
    }

    method SpawnRipple()
      modifies this`ripples
      ensures ripples == old(ripples) + [NewRipple()]
    {
      ripples := ripples + [NewRipple()];
    }

    method SpawnParticle(life: int, twinkle: bool)
      modifies this`particles
      ensures particles == old(particles) + [Particle(life, ParticleStartAlpha, twinkle)]
    {
      particles := particles + [Particle(life, ParticleStartAlpha, twinkle)];
    }

    /** The answer burst: 36 particles with 70 frames to live, then one ripple. */
    method BurstParticlesCenter()
      modifies this`particles, this`ripples
      ensures particles == old(particles) + BurstParticles()
      ensures ripples == old(ripples) + [NewRipple()]
    {
      for i := 0 to BurstSize
        invariant particles == old(particles) + Spawned(i, BurstLife, true)
        invariant ripples == old(ripples)
      {
        SpawnParticle(BurstLife, true);
        SpawnedConcat(i, 1, BurstLife, true);
      }
      SpawnRipple();
    }

    /** The option-box scan of a pointer press: the first box, in slot order, under the
        pointer, or -1. */
    method FindHit(mx: real, my: real) returns (hit: int)
      ensures -1 <= hit < |optionBoxes|
      ensures hit >= 0 ==> InBox(optionBoxes[hit], mx, my)
      ensures forall j :: 0 <= j < |optionBoxes| && (hit == -1 || j < hit) ==> !InBox(optionBoxes[j], mx, my)
    {
      hit := -1;
      var i := 0;
      while i < |optionBoxes| && hit == -1
        invariant 0 <= i <= |optionBoxes|
        invariant -1 <= hit < i
        invariant hit == -1 ==> forall j :: 0 <= j < i ==> !InBox(optionBoxes[j], mx, my)
        invariant hit >= 0 ==> InBox(optionBoxes[hit], mx, my) && forall j :: 0 <= j < hit ==> !InBox(optionBoxes[j], mx, my)
      {
        if InBox(optionBoxes[i], mx, my) {
          hit := i;
        }
        i := i + 1;
      }
    }

    /** A pointer press at (mx, my). Every press makes a ripple; a press on the start control
        of the intro starts the quiz and does nothing else; a press on an option box of an
        unanswered question records the answer, lights the box, and bursts. */
    method MousePressed(mx: real, my: real)
      requires ShapeOk()
      modifies this`state, this`current, this`score, this`selectedIndex, this`lockInput, this`feedbackTimer
      modifies this`ripples, this`particles, this`optionBoxes
      ensures Snapshot() == Press(old(Snapshot()), OnStartButton(mx, my, width, height), FirstHit(old(optionBoxes), mx, my), questions)
      ensures var hit := FirstHit(old(optionBoxes), mx, my);
        var answers := PressAnswers(old(Snapshot()), hit, |questions|);
        && ripples == old(ripples) + [NewRipple()] + (if answers then [NewRipple()] else [])
        && particles == old(particles) + (if answers then BurstParticles() else [])
        && optionBoxes == (if answers then ClickFlash(old(optionBoxes), hit, questions[old(current)].correct) else old(optionBoxes))
      ensures old(Valid()) ==> Valid()
    {
      if state == Intro && OnStartButton(mx, my, width, height) {
        SpawnRipple();
        state, current, score, selectedIndex, lockInput, feedbackTimer := Quiz, 0, 0, -1, false, 0;
      } else {
        SpawnRipple();
        if state == Quiz && !lockInput && current < |questions| {
          var hit := FindHit(mx, my);
          FirstHitUnique(optionBoxes, mx, my, hit);
          if hit >= 0 {
            PointerAnswer(hit);
          }
        }
      }
    }

    /** The answer part of a pointer press on box `hit`: the choice is recorded, the box lit,
        the right box lit softly when the choice is wrong, and the burst spawned. */
    method PointerAnswer(hit: int)
      requires ShapeOk() && state == Quiz && !lockInput && current < |questions| && 0 <= hit < 4
      modifies this`score, this`selectedIndex, this`lockInput, this`feedbackTimer
      modifies this`ripples, this`particles, this`optionBoxes
      ensures Snapshot() == Record(old(Snapshot()), hit, questions[current].correct)
      ensures ripples == old(ripples) + [NewRipple()]
      ensures particles == old(particles) + BurstParticles()
      ensures optionBoxes == ClickFlash(old(optionBoxes), hit, questions[current].correct)
    {
      var q := questions[current];
      selectedIndex := hit;
      lockInput := true;
      optionBoxes := optionBoxes[hit := optionBoxes[hit].(flash := ClickFlashAlpha)];
      if hit == q.correct {
        score := score + 1;
        BurstParticlesCenter();
      } else {
        BurstParticlesCenter();
        optionBoxes := optionBoxes[q.correct := optionBoxes[q.correct].(flash := HintFlashAlpha)];
      }
      feedbackTimer := NextDelayFrames;
    }

    /** A key press. A letter a to d in either case answers an unanswered question with that
        option; unlike the pointer the key lights no box of its own, only the right box when
        the choice is wrong. There is no question-index check here: the key handler relies on
        the quiz screen always showing a question. */
    method KeyPressed(key: string)
      requires ShapeOk() && CurrentInRange(Snapshot(), |questions|)
      modifies this`state, this`current, this`score, this`selectedIndex, this`lockInput, this`feedbackTimer
      modifies this`ripples, this`particles, this`optionBoxes
      ensures Snapshot() == KeyDown(old(Snapshot()), key, questions)
      ensures var answers := KeyAnswers(old(Snapshot()), key);
        && ripples == old(ripples) + (if answers then [NewRipple()] else [])
        && particles == old(particles) + (if answers then BurstParticles() else [])
        && optionBoxes == (if answers then KeyFlash(old(optionBoxes), KeyIndex(key), questions[old(current)].correct) else old(optionBoxes))
      ensures old(Valid()) ==> Valid()
    {
      if state == Quiz && !lockInput {
        var idx := KeyIndex(key);
        if idx != -1 {
          selectedIndex := idx;
          lockInput := true;
          var q := questions[current];
          if idx == q.correct {
            score := score + 1;
            BurstParticlesCenter();
          } else {
            BurstParticlesCenter();
            optionBoxes := optionBoxes[q.correct := optionBoxes[q.correct].(flash := HintFlashAlpha)];
          }
          feedbackTimer := NextDelayFrames;
        }
      }
    }

    /** A typed character: r or R on the result screen restarts. Only the particles and the
        ripples are cleared; the trail and the result animations stay. */
    method KeyTyped(key: string)
      modifies this`state, this`current, this`score, this`selectedIndex, this`lockInput, this`feedbackTimer
      modifies this`ripples, this`particles
      ensures Snapshot() == QuizSession.KeyTyped(old(Snapshot()), key)
      ensures var restarts := old(state) == Result && (key == "r" || key == "R");
        particles == (if restarts then [] else old(particles))
        && ripples == (if restarts then [] else old(ripples))
      ensures old(Valid()) ==> Valid()
    {
      ghost var s0 := Snapshot();
      if state == Result && (key == "r" || key == "R") {
        state, current, score, selectedIndex, lockInput, feedbackTimer := Intro, 0, 0, -1, false, 0;
        particles := [];
        ripples := [];
      }
      assert Snapshot() == Step(s0, KeyTypedEvent(key), questions);
    }

    /** The countdown part of a quiz frame. */
    method Tick()
      modifies this`state, this`current, this`selectedIndex, this`lockInput, this`feedbackTimer
      ensures Snapshot() == Countdown(old(Snapshot()), |questions|)
      ensures Inv(old(Snapshot()), |questions|) ==> Inv(Snapshot(), |questions|)
    {
      ghost var s0 := Snapshot();
      if feedbackTimer > 0 {
        feedbackTimer := feedbackTimer - 1;
        if feedbackTimer == 0 {
          selectedIndex := -1;
          lockInput := false;
          current := current + 1;
          if current >= |questions| {
            state := Result;
          }
        }
      }
      if Inv(s0, |questions|) {
        FrameKeepsInv(s0, |questions|);
      }
    }

    /** The option-box pass of a quiz frame: hover marks, highlight fading, hover sparkles. */
    method HoverPass(mx: real, my: real, frameCount: nat)
      modifies this`optionBoxes, this`particles
      ensures optionBoxes == HoverFrame(old(optionBoxes), mx, my)
      ensures particles == old(particles) + HoverSparkles(old(optionBoxes), mx, my, frameCount)
    {
      ghost var boxes := optionBoxes;
      for i := 0 to |optionBoxes|
        invariant |optionBoxes| == |boxes|
        invariant forall k :: 0 <= k < i ==> optionBoxes[k] == HoverBox(boxes[k], mx, my)
        invariant forall k :: i <= k < |boxes| ==> optionBoxes[k] == boxes[k]
        invariant particles == old(particles) + HoverSparkles(boxes[..i], mx, my, frameCount)
      {
        var box := optionBoxes[i];
        var hovered := InBox(box, mx, my);
        box := box.(hover := hovered);
        if box.flash > 0 {
          box := box.(flash := box.flash - FlashFade);
        }
        optionBoxes := optionBoxes[i := box];
        assert boxes[..i + 1][..i] == boxes[..i];
        if frameCount % 4 == 0 {
          SpawnedConcat(HoverCount(boxes[..i], mx, my), 1, HoverSparkleLife, true);
        }
        if hovered && frameCount % 4 == 0 {
          SpawnParticle(HoverSparkleLife, true);
        }
      }
      assert boxes[..|boxes|] == boxes;
    }

    /** The quiz screen of one frame: with no question left the result screen takes over and
        the frame ends there; otherwise the option boxes are updated and the countdown runs. */
    method DrawQuiz(mx: real, my: real, frameCount: nat)
      modifies this`state, this`current, this`selectedIndex, this`lockInput, this`feedbackTimer
      modifies this`optionBoxes, this`particles
      ensures Snapshot() == QuizFrame(old(Snapshot()), |questions|)
      ensures old(current) >= |questions| ==> optionBoxes == old(optionBoxes) && particles == old(particles)
      ensures old(current) < |questions| ==>
        optionBoxes == HoverFrame(old(optionBoxes), mx, my)
        && particles == old(particles) + HoverSparkles(old(optionBoxes), mx, my, frameCount)
    {
      if current >= |questions| {
        state := Result;
        return;
      }
      HoverPass(mx, my, frameCount);
      Tick();
    }

    /** The intro screen of one frame: a sparkle on every third frame. */
    method DrawIntro(frameCount: nat)
      modifies this`particles
      ensures particles == old(particles) + IntroSparkles(frameCount)
    {
      if frameCount % 3 == 0 {
        SpawnParticle(IntroSparkleLife, true);
      }
    }

    /** The cursor trail of one frame: a new dot, overflow evicted, every dot faded. */
    method DrawCursorTrail()
      modifies this`cursorTrail
      ensures cursorTrail == TrailFrame(old(cursorTrail))
    {
      cursorTrail := cursorTrail + [TrailPoint(TrailStartAlpha)];
      if |cursorTrail| > TrailCapacity {
        cursorTrail := cursorTrail[1..];
      }
      ghost var pushed := cursorTrail;
      assert pushed == PushTrail(old(cursorTrail), TrailPoint(TrailStartAlpha));
      for i := 0 to |cursorTrail|
        invariant |cursorTrail| == |pushed|
        invariant forall k :: 0 <= k < i ==> cursorTrail[k] == FadeTrailPoint(pushed[k])
        invariant forall k :: i <= k < |pushed| ==> cursorTrail[k] == pushed[k]
      {
        var p := cursorTrail[i];
        p := p.(alpha := p.alpha - TrailFade);
        if p.alpha < 0 {
          p := p.(alpha := 0);
        }
        cursorTrail := cursorTrail[i := p];
      }
    }

    method UpdateAndDrawRipples()
      modifies this`ripples
      ensures ripples == Survivors(old(ripples), StepRipple, RippleGone)
    {
      ripples := StepAndCull(ripples, StepRipple, RippleGone);
    }

    method UpdateAndDrawParticles()
      modifies this`particles
      ensures particles == Survivors(old(particles), StepParticle, ParticleGone)
    {
      particles := StepAndCull(particles, StepParticle, ParticleGone);
    }

    /** The burst of a firework: it takes its 80 fragments and spawns its 20-particle ring. */
    method Explode(f: Firework, burstLives: seq<real>) returns (g: Firework)
      requires |burstLives| == FragmentCount
      modifies this`particles
      ensures g == f.(stage := Burst, fragments := f.fragments + burstLives)
      ensures particles == old(particles) + Spawned(SparkleCount, SparkleLife, true)
    {
      g := f.(stage := Burst);
      for i := 0 to FragmentCount
        invariant g == f.(stage := Burst, fragments := f.fragments + burstLives[..i])
      {
        assert burstLives[..i + 1] == burstLives[..i] + [burstLives[i]];
        g := g.(fragments := g.fragments + [burstLives[i]]);
      }
      assert burstLives[..FragmentCount] == burstLives;
      for i := 0 to SparkleCount
        invariant particles == old(particles) + Spawned(i, SparkleLife, true)
      {
        SpawnParticle(SparkleLife, true);
        SpawnedConcat(i, 1, SparkleLife, true);
      }
    }

    /** One update of a firework; a burst spawns its sparkle ring into the particles. */
    method UpdateFirework(f: Firework, explodeNow: bool, burstLives: seq<real>) returns (g: Firework)
      requires |burstLives| == FragmentCount
      modifies this`particles
      ensures g == StepFirework(f, explodeNow, burstLives)
      ensures particles == old(particles) + (if Explodes(f, explodeNow) then Spawned(SparkleCount, SparkleLife, true) else [])
    {
      if f.stage == Rise {
        g := f;
        if explodeNow {
          g := Explode(f, burstLives);
        }
      } else {
        var left := StepAndCull(f.fragments, StepFragment, FragmentGone);
        g := f.(fragments := left);
        if |left| == 0 {
          g := g.(done := true);
        }
      }
    }

    /** The fireworks of one result frame: a new one every 15 frames while fewer than 6 are
        live, then every firework is updated, from the last, and the done ones are removed.
        `explodes[i]` is the outcome of the burst test of the i-th firework, `bursts[i]` the
        lives its fragments would draw. */
    method DrawResultFireworks(frameCount: nat, explodes: seq<bool>, bursts: seq<seq<real>>)
      requires |explodes| > |fireworks| && |bursts| > |fireworks|
      requires forall k :: 0 <= k < |bursts| ==> BurstLivesOk(bursts[k])
      modifies this`fireworks, this`particles
      ensures var spawned := SpawnIfDue(old(fireworks), NewFirework(), frameCount, FireworkEvery, FireworkCap);
        && fireworks == FireworksPass(spawned, explodes, bursts)
        && particles == old(particles) + Spawned(SparkleCount * Explosions(spawned, explodes), SparkleLife, true)
    {
      if frameCount % FireworkEvery == 0 && |fireworks| < FireworkCap {
        fireworks := fireworks + [NewFirework()];
      }
      ghost var fs := fireworks;
      ghost var ps := particles;
      var live := fireworks;
      var i := |live|;
      while i > 0
        invariant 0 <= i <= |fs|
        invariant live == fs[..i] + FireworksPass(fs[i..], explodes[i..], bursts[i..])
        invariant particles == ps + Spawned(SparkleCount * Explosions(fs[i..], explodes[i..]), SparkleLife, true)
      {
        i := i - 1;
        PassSplice(fs, explodes, bursts, i, live);
        SparklesFrom(fs, explodes, bursts, i);
        var g := UpdateFirework(live[i], explodes[i], bursts[i]);
        ghost var ring := if Explodes(fs[i], explodes[i]) then Spawned(SparkleCount, SparkleLife, true) else [];
        AppendAssoc(ps, Spawned(SparkleCount * Explosions(fs[i + 1..], explodes[i + 1..]), SparkleLife, true), ring);
        if g.done {
          live := live[..i] + live[i + 1..];
        } else {
          live := live[..i] + [g] + live[i + 1..];
        }
      }
      assert fs[0..] == fs && explodes[0..] == explodes && bursts[0..] == bursts;
      fireworks := live;
    }

    /** The balloons of one result frame: a new one every 20 frames while fewer than 10, then
        every balloon rises and the ones past the top are removed. */
    method DrawResultBalloons(frameCount: nat, r: real, spd: real)
      modifies this`balloons
      ensures balloons == Survivors(SpawnIfDue(old(balloons), NewBalloon(height, r, spd), frameCount, BalloonEvery, BalloonCap), StepBalloon, BalloonGone)
    {
      if |balloons| < BalloonCap && frameCount % BalloonEvery == 0 {
        balloons := balloons + [NewBalloon(height, r, spd)];
      }
      balloons := StepAndCull(balloons, StepBalloon, BalloonGone);
    }

    /** The bubbles of one result frame: a new one every 5 frames while fewer than 20, then
        every bubble rises and the ones past the top are removed. */
    method DrawResultBubbles(frameCount: nat, r: real, spd: real)
      modifies this`bubbles
      ensures bubbles == Survivors(SpawnIfDue(old(bubbles), NewBubble(height, r, spd), frameCount, BubbleEvery, BubbleCap), StepBubble, BubbleGone)
    {
      if |bubbles| < BubbleCap && frameCount % BubbleEvery == 0 {
        bubbles := bubbles + [NewBubble(height, r, spd)];
      }
      bubbles := StepAndCull(bubbles, StepBubble, BubbleGone);
    }

    /** The result screen of one frame: only the animation of the earned tier runs. */
    method DrawResult(inp: FrameInput)
      requires state == Result && DrawsOk(inp, fireworks)
      modifies this`fireworks, this`particles, this`balloons, this`bubbles
      ensures fireworks == FrameFireworks(Snapshot(), |questions|, old(fireworks), inp)
      ensures balloons == FrameBalloons(Snapshot(), |questions|, old(balloons), height, inp)
      ensures bubbles == FrameBubbles(Snapshot(), |questions|, old(bubbles), height, inp)
      ensures particles == old(particles) + ScreenSparkles(Snapshot(), |questions|, optionBoxes, old(fireworks), inp)
    {
      var total := |questions|;
      var ratio := if total > 0 then score as real / total as real else 0.0;
      if ratio >= 0.8 {
        DrawResultFireworks(inp.frameCount, inp.explodes, inp.bursts);
      } else if ratio >= 0.5 {
        DrawResultBalloons(inp.frameCount, inp.balloonR, inp.balloonSpd);
      } else {
        DrawResultBubbles(inp.frameCount, inp.bubbleR, inp.bubbleSpd);
      }
    }

    /** The screen part of one frame: the intro, the quiz or the result screen, as the
        session says. */
    method DrawScreen(inp: FrameInput)
      requires DrawsOk(inp, fireworks)
      modifies this`state, this`current, this`selectedIndex, this`lockInput, this`feedbackTimer
      modifies this`optionBoxes, this`particles, this`fireworks, this`balloons, this`bubbles
      ensures Snapshot() == FrameStep(old(Snapshot()), |questions|)
      ensures optionBoxes == FrameBoxes(old(Snapshot()), |questions|, old(optionBoxes), inp)
      ensures fireworks == FrameFireworks(old(Snapshot()), |questions|, old(fireworks), inp)
      ensures balloons == FrameBalloons(old(Snapshot()), |questions|, old(balloons), height, inp)
      ensures bubbles == FrameBubbles(old(Snapshot()), |questions|, old(bubbles), height, inp)
      ensures particles == old(particles) + ScreenSparkles(old(Snapshot()), |questions|, old(optionBoxes), old(fireworks), inp)
      ensures old(Valid()) ==> Valid()
    {
      if state == Intro {
        DrawIntro(inp.frameCount);
      } else if state == Quiz {
        DrawQuiz(inp.mx, inp.my, inp.frameCount);
      } else {
        DrawResult(inp);
      }
    }

    /** One run of the frame loop: the trail, the current screen, then the particle and
        ripple passes. The pointer, the frame counter and the random draws of the result
        animations come in `inp`. */
    method Draw(inp: FrameInput)
      requires DrawsOk(inp, fireworks)
      modifies this`state, this`current, this`selectedIndex, this`lockInput, this`feedbackTimer
      modifies this`optionBoxes, this`particles, this`fireworks, this`balloons, this`bubbles
      modifies this`cursorTrail, this`ripples
      ensures Snapshot() == FrameStep(old(Snapshot()), |questions|)
      ensures optionBoxes == FrameBoxes(old(Snapshot()), |questions|, old(optionBoxes), inp)
      ensures fireworks == FrameFireworks(old(Snapshot()), |questions|, old(fireworks), inp)
      ensures balloons == FrameBalloons(old(Snapshot()), |questions|, old(balloons), height, inp)
      ensures bubbles == FrameBubbles(old(Snapshot()), |questions|, old(bubbles), height, inp)
      ensures cursorTrail == TrailFrame(old(cursorTrail))
      ensures ripples == Survivors(old(ripples), StepRipple, RippleGone)
      ensures particles == Survivors(old(particles) + ScreenSparkles(old(Snapshot()), |questions|, old(optionBoxes), old(fireworks), inp),
                                     StepParticle, ParticleGone)
      ensures old(Valid()) ==> Valid()
    {
      DrawCursorTrail();
      DrawScreen(inp);
      UpdateAndDrawParticles();
      UpdateAndDrawRipples();
    }
  }
}
