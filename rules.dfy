/** What the handlers and the frame loop do to the option boxes and the effect collections,
    stated on values, and the invariant of the whole sketch with one lemma per handler saying
    that the handler keeps it. */
module SketchRules {
  import opened QuizData
  import opened Layout
  import opened Effects
  import opened ResultAnim
  import opened QuizSession

  const ClickFlashAlpha: int := 140
  const HintFlashAlpha: int := 80
  const FlashFade: int := 10

  // ---------------------------------------------------------------------------------------
  // Option-box highlights

  /** Every highlight is one a click can set or a frame can leave: 0 to 140 in steps of 10. */
  predicate FlashOk(boxes: seq<OptionBox>)
  {
    forall k :: 0 <= k < |boxes| ==> 0 <= boxes[k].flash <= ClickFlashAlpha && boxes[k].flash % FlashFade == 0
  }

  /** Two box lists with the same rectangles, whatever their hover and flash marks. */
  predicate SameGeometry(a: seq<OptionBox>, b: seq<OptionBox>)
  {
    |a| == |b| && forall k :: 0 <= k < |a| ==> a[k].x == b[k].x && a[k].y == b[k].y && a[k].w == b[k].w && a[k].h == b[k].h
  }

  lemma SameGeometryStacked(a: seq<OptionBox>, b: seq<OptionBox>)
    requires SameGeometry(a, b) && Stacked(a)
    ensures Stacked(b)
  {
    forall i, j | 0 <= i < j < |b| ensures b[i].y + b[i].h < b[j].y {
      assert a[i].y + a[i].h < a[j].y;
    }
  }

  /** The highlights a pointer answer leaves: the chosen box at full highlight and, when the
      choice is wrong, the right box at the softer one. */
  function ClickFlash(boxes: seq<OptionBox>, hit: int, correct: int): (r: seq<OptionBox>)
    requires 0 <= hit < |boxes| && 0 <= correct < |boxes|
    ensures SameGeometry(boxes, r)
    ensures forall k :: 0 <= k < |r| ==> r[k].hover == boxes[k].hover
    ensures r[hit].flash == ClickFlashAlpha
    ensures hit != correct ==> r[correct].flash == HintFlashAlpha
    ensures forall k :: 0 <= k < |r| && k != hit && k != correct ==> r[k] == boxes[k]
    ensures FlashOk(boxes) ==> FlashOk(r)
  {
    var b := boxes[hit := boxes[hit].(flash := ClickFlashAlpha)];
    if hit == correct then b else b[correct := b[correct].(flash := HintFlashAlpha)]
  }

  /** The highlights a key answer leaves: none on the chosen box, and the softer one on the
      right box when the choice is wrong. */
  function KeyFlash(boxes: seq<OptionBox>, idx: int, correct: int): (r: seq<OptionBox>)
    requires 0 <= correct < |boxes|
    ensures SameGeometry(boxes, r)
    ensures forall k :: 0 <= k < |r| ==> r[k].hover == boxes[k].hover
    ensures idx != correct ==> r[correct].flash == HintFlashAlpha
    ensures forall k :: 0 <= k < |r| && (k != correct || idx == correct) ==> r[k] == boxes[k]
    ensures FlashOk(boxes) ==> FlashOk(r)
  {
    if idx == correct then boxes else boxes[correct := boxes[correct].(flash := HintFlashAlpha)]
  }

  /** One box after a quiz frame: hovered exactly when the pointer is on it, its highlight
      one step fainter. */
  function HoverBox(b: OptionBox, mx: real, my: real): OptionBox
  {
    b.(hover := InBox(b, mx, my), flash := if b.flash > 0 then b.flash - FlashFade else b.flash)
  }

  function HoverFrame(boxes: seq<OptionBox>, mx: real, my: real): seq<OptionBox>
  {
    seq(|boxes|, k requires 0 <= k < |boxes| => HoverBox(boxes[k], mx, my))
  }

  /** A quiz frame keeps the rectangles and the highlight range, marks exactly the boxes under
      the pointer as hovered, and fades every lit highlight by exactly one step. */
  lemma HoverFrameKeeps(boxes: seq<OptionBox>, mx: real, my: real)
    requires FlashOk(boxes)
    ensures SameGeometry(boxes, HoverFrame(boxes, mx, my)) && FlashOk(HoverFrame(boxes, mx, my))
    ensures forall k :: 0 <= k < |boxes| ==> (HoverFrame(boxes, mx, my)[k].hover <==> InBox(boxes[k], mx, my))
    ensures forall k :: 0 <= k < |boxes| && boxes[k].flash > 0 ==>
      HoverFrame(boxes, mx, my)[k].flash == boxes[k].flash - FlashFade
    ensures forall k :: 0 <= k < |boxes| && boxes[k].flash == 0 ==> HoverFrame(boxes, mx, my)[k].flash == 0
  {
  }

  /** n quiz frames. */
  function HoverFrames(boxes: seq<OptionBox>, mx: real, my: real, n: nat): seq<OptionBox>
  {
    if n == 0 then boxes else HoverFrame(HoverFrames(boxes, mx, my, n - 1), mx, my)
  }

  /** The full highlight has faded out after 14 quiz frames, whatever the pointer does. */
  lemma {:induction false} FlashFadesOut(boxes: seq<OptionBox>, mx: real, my: real, n: nat)
    requires FlashOk(boxes)
    ensures FlashOk(HoverFrames(boxes, mx, my, n)) && |HoverFrames(boxes, mx, my, n)| == |boxes|
    ensures forall k :: 0 <= k < |boxes| ==>
      HoverFrames(boxes, mx, my, n)[k].flash == if boxes[k].flash >= FlashFade * n then boxes[k].flash - FlashFade * n else 0
    ensures n >= 14 ==> forall k :: 0 <= k < |boxes| ==> HoverFrames(boxes, mx, my, n)[k].flash == 0
  {
    if n > 0 {
      FlashFadesOut(boxes, mx, my, n - 1);
      HoverFrameKeeps(HoverFrames(boxes, mx, my, n - 1), mx, my);
    }
  }

  /** The number of boxes under the pointer, counted from the first. */
  function HoverCount(boxes: seq<OptionBox>, mx: real, my: real): (c: nat)
    ensures c <= |boxes|
  {
    if boxes == [] then 0
    else HoverCount(boxes[..|boxes| - 1], mx, my) + (if InBox(boxes[|boxes| - 1], mx, my) then 1 else 0)
  }

  /** In a stacked layout the pointer is on at most one box, the first hit, so a quiz frame
      makes at most one hover sparkle. */
  lemma {:induction false} HoverCountStacked(boxes: seq<OptionBox>, mx: real, my: real)
    requires Stacked(boxes)
    ensures HoverCount(boxes, mx, my) == if FirstHit(boxes, mx, my) >= 0 then 1 else 0
  {
    if boxes != [] {
      var init := boxes[..|boxes| - 1];
      assert Stacked(init) by {
        assert forall k :: 0 <= k < |init| ==> init[k] == boxes[k];
      }
      HoverCountStacked(init, mx, my);
      var h := FirstHit(boxes, mx, my);
      var hi := FirstHit(init, mx, my);
      if InBox(boxes[|boxes| - 1], mx, my) {
        forall j | 0 <= j < |init| ensures !InBox(init[j], mx, my) {
          assert init[j] == boxes[j];
          StackedHitsAtMostOne(boxes, mx, my, j, |boxes| - 1);
        }
        assert h >= 0;
      } else if hi >= 0 {
        assert init[hi] == boxes[hi];
      } else {
        assert forall j :: 0 <= j < |init| ==> init[j] == boxes[j];
        assert h == -1;
      }
    }
  }

  /** The hover sparkles of one quiz frame: one per hovered box on every fourth frame. */
  function HoverSparkles(boxes: seq<OptionBox>, mx: real, my: real, frameCount: nat): seq<Particle>
  {
    Spawned(if frameCount % 4 == 0 then HoverCount(boxes, mx, my) else 0, HoverSparkleLife, true)
  }

  /** The intro sparkle: one on every third frame. */
  function IntroSparkles(frameCount: nat): seq<Particle>
  {
    if frameCount % 3 == 0 then Spawned(1, IntroSparkleLife, true) else []
  }


  // ---------------------------------------------------------------------------------------
  // What one frame does beyond the session

  /** The pointer position, the frame counter and the random draws of one frame:
      `explodes[i]` is the outcome of the burst test of the i-th live firework, `bursts[i]`
      the lives its fragments would draw, and the radius and speed of a balloon and of a
      bubble spawned on this frame. */
  datatype FrameInput = FrameInput(mx: real, my: real, frameCount: nat,
                                   explodes: seq<bool>, bursts: seq<seq<real>>,
                                   balloonR: real, balloonSpd: real, bubbleR: real, bubbleSpd: real)

  /** There is a draw for each firework the frame may update, and burst lives as
      random(40, 80) gives them. */
  predicate DrawsOk(inp: FrameInput, fs: seq<Firework>)
  {
    |inp.explodes| > |fs| && |inp.bursts| > |fs| && forall k :: 0 <= k < |inp.bursts| ==> BurstLivesOk(inp.bursts[k])
  }

  /** Whether the result screen of session s runs the given animation. */
  predicate Shows(s: Session, n: nat, t: Tier)
  {
    s.state == Result && TierOf(Ratio(s.score, n)) == t
  }

  /** The option boxes after a frame: updated by a quiz frame that shows a question. */
  function FrameBoxes(s: Session, n: nat, boxes: seq<OptionBox>, inp: FrameInput): seq<OptionBox>
  {
    if s.state == Quiz && s.current < n then HoverFrame(boxes, inp.mx, inp.my) else boxes
  }

  /** The fireworks after a frame: only the fireworks animation moves them. */
  function FrameFireworks(s: Session, n: nat, fs: seq<Firework>, inp: FrameInput): seq<Firework>
    requires DrawsOk(inp, fs)
  {
    if Shows(s, n, FireworksTier)
    then FireworksPass(SpawnIfDue(fs, NewFirework(), inp.frameCount, FireworkEvery, FireworkCap), inp.explodes, inp.bursts)
    else fs
  }

  function FrameBalloons(s: Session, n: nat, bs: seq<Balloon>, height: real, inp: FrameInput): seq<Balloon>
  {
    if Shows(s, n, BalloonsTier)
    then Survivors(SpawnIfDue(bs, NewBalloon(height, inp.balloonR, inp.balloonSpd), inp.frameCount, BalloonEvery, BalloonCap), StepBalloon, BalloonGone)
    else bs
  }

  function FrameBubbles(s: Session, n: nat, bs: seq<Bubble>, height: real, inp: FrameInput): seq<Bubble>
  {
    if Shows(s, n, BubblesTier)
    then Survivors(SpawnIfDue(bs, NewBubble(height, inp.bubbleR, inp.bubbleSpd), inp.frameCount, BubbleEvery, BubbleCap), StepBubble, BubbleGone)
    else bs
  }

  /** The particles the screen part of a frame spawns: the intro sparkle, the hover sparkles
      of a quiz frame that shows a question, or the sparkle rings of the fireworks that burst. */
  function ScreenSparkles(s: Session, n: nat, boxes: seq<OptionBox>, fs: seq<Firework>, inp: FrameInput): (ps: seq<Particle>)
    requires DrawsOk(inp, fs)
    ensures forall p :: p in ps ==> p.twinkle && p.alpha == ParticleStartAlpha && p.life >= SparkleLife
  {
    match s.state
    case Intro => IntroSparkles(inp.frameCount)
    case Quiz => if s.current >= n then [] else HoverSparkles(boxes, inp.mx, inp.my, inp.frameCount)
    case Result =>
      if Shows(s, n, FireworksTier)
      then Spawned(SparkleCount * Explosions(SpawnIfDue(fs, NewFirework(), inp.frameCount, FireworkEvery, FireworkCap), inp.explodes), SparkleLife, true)
      else []
  }

  // ---------------------------------------------------------------------------------------
  // The invariant of the whole sketch

  /** The option boxes and the result animations between two frames: the boxes stacked
      with their highlights in range, the animations within their caps. */
  predicate ScreenOk(boxes: seq<OptionBox>, fs: seq<Firework>, bls: seq<Balloon>, bbs: seq<Bubble>)
  {
    && |boxes| == 4 && Stacked(boxes) && FlashOk(boxes)
    && |fs| <= FireworkCap && (forall k :: 0 <= k < |fs| ==> FireworkOk(fs[k]))
    && |bls| <= BalloonCap
    && |bbs| <= BubbleCap
  }

  /** The per-frame effects between two frames: the trail within its capacity, no expired
      ripple or particle. */
  predicate TransientOk(trail: seq<TrailPoint>, rs: seq<Ripple>, ps: seq<Particle>)
  {
    && TrailOk(trail)
    && (forall k :: 0 <= k < |rs| ==> !RippleGone(rs[k]))
    && (forall k :: 0 <= k < |ps| ==> !ParticleGone(ps[k]))
  }

  /** The sketch between two events: well-formed questions, the session invariant, and
      healthy boxes and effects. */
  predicate SketchOk(qs: seq<Question>, s: Session, boxes: seq<OptionBox>, fs: seq<Firework>, bls: seq<Balloon>,
                     bbs: seq<Bubble>, trail: seq<TrailPoint>, rs: seq<Ripple>, ps: seq<Particle>)
  {
    |qs| > 0 && WellFormed(qs) && Inv(s, |qs|) && ScreenOk(boxes, fs, bls, bbs) && TransientOk(trail, rs, ps)
  }

  /** Fresh ripples appended to live ones leave every ripple live. */
  lemma RipplesAdded(rs: seq<Ripple>, rs': seq<Ripple>)
    requires forall k :: 0 <= k < |rs| ==> !RippleGone(rs[k])
    requires |rs| <= |rs'| && rs'[..|rs|] == rs && forall k :: |rs| <= k < |rs'| ==> rs'[k] == NewRipple()
    ensures forall k :: 0 <= k < |rs'| ==> !RippleGone(rs'[k])
  {
    assert forall k :: 0 <= k < |rs| ==> rs'[k] == rs[k];
  }

  /** Fresh particles, with positive life, appended to live ones leave every particle live. */
  lemma ParticlesAdded(ps: seq<Particle>, ps': seq<Particle>)
    requires forall k :: 0 <= k < |ps| ==> !ParticleGone(ps[k])
    requires |ps| <= |ps'| && ps'[..|ps|] == ps && forall k :: |ps| <= k < |ps'| ==> ps'[k].life > 0
    ensures forall k :: 0 <= k < |ps'| ==> !ParticleGone(ps'[k])
  {
    assert forall k :: 0 <= k < |ps| ==> ps'[k] == ps[k];
  }


  /** Setup leaves the sketch in its invariant: the intro screen of a fresh session, a fresh
      layout and no effects. */
  lemma SetupOk(qs: seq<Question>, boxes: seq<OptionBox>, width: real, height: real, baseFontSize: real)
    ensures |qs| > 0 && WellFormed(qs) && LaidOut(boxes, width, height, baseFontSize) ==>
      SketchOk(qs, Fresh(Intro), boxes, [], [], [], [], [], [])
  {
  }

  /** A pointer press keeps the sketch invariant, whatever it hits. */
  lemma PressKeepsOk(qs: seq<Question>, s: Session, boxes: seq<OptionBox>, fs: seq<Firework>, bls: seq<Balloon>,
                     bbs: seq<Bubble>, trail: seq<TrailPoint>, rs: seq<Ripple>, ps: seq<Particle>,
                     onStart: bool, mx: real, my: real)
    ensures var hit := FirstHit(boxes, mx, my);
      var answers := PressAnswers(s, hit, |qs|);
      SketchOk(qs, s, boxes, fs, bls, bbs, trail, rs, ps) ==>
      SketchOk(qs, Press(s, onStart, hit, qs),
               if answers then ClickFlash(boxes, hit, qs[s.current].correct) else boxes, fs, bls, bbs, trail,
               rs + [NewRipple()] + (if answers then [NewRipple()] else []),
               ps + (if answers then BurstParticles() else []))
  {
    if SketchOk(qs, s, boxes, fs, bls, bbs, trail, rs, ps) {
      var hit := FirstHit(boxes, mx, my);
      var answers := PressAnswers(s, hit, |qs|);
      assert Inv(Step(s, PointerDown(onStart, hit), qs), |qs|);
      if answers {
        SameGeometryStacked(boxes, ClickFlash(boxes, hit, qs[s.current].correct));
      }
      RipplesAdded(rs, rs + [NewRipple()] + (if answers then [NewRipple()] else []));
      ParticlesAdded(ps, ps + (if answers then BurstParticles() else []));
    }
  }

  /** A key press keeps the sketch invariant. */
  lemma KeyDownKeepsOk(qs: seq<Question>, s: Session, boxes: seq<OptionBox>, fs: seq<Firework>, bls: seq<Balloon>,
                       bbs: seq<Bubble>, trail: seq<TrailPoint>, rs: seq<Ripple>, ps: seq<Particle>, key: string)
    ensures var answers := KeyAnswers(s, key);
      SketchOk(qs, s, boxes, fs, bls, bbs, trail, rs, ps) ==>
      SketchOk(qs, KeyDown(s, key, qs),
               if answers then KeyFlash(boxes, KeyIndex(key), qs[s.current].correct) else boxes, fs, bls, bbs, trail,
               rs + (if answers then [NewRipple()] else []),
               ps + (if answers then BurstParticles() else []))
  {
    if SketchOk(qs, s, boxes, fs, bls, bbs, trail, rs, ps) {
      var answers := KeyAnswers(s, key);
      assert Inv(Step(s, KeyDownEvent(key), qs), |qs|);
      if answers {
        SameGeometryStacked(boxes, KeyFlash(boxes, KeyIndex(key), qs[s.current].correct));
      }
      RipplesAdded(rs, rs + (if answers then [NewRipple()] else []));
      ParticlesAdded(ps, ps + (if answers then BurstParticles() else []));
    }
  }

  /** A typed character keeps the sketch invariant; a restart empties particles and ripples. */
  lemma KeyTypedKeepsOk(qs: seq<Question>, s: Session, boxes: seq<OptionBox>, fs: seq<Firework>, bls: seq<Balloon>,
                        bbs: seq<Bubble>, trail: seq<TrailPoint>, rs: seq<Ripple>, ps: seq<Particle>, key: string)
    ensures var restarts := s.state == Result && (key == "r" || key == "R");
      SketchOk(qs, s, boxes, fs, bls, bbs, trail, rs, ps) ==>
      SketchOk(qs, KeyTyped(s, key), boxes, fs, bls, bbs, trail, if restarts then [] else rs, if restarts then [] else ps)
  {
    if SketchOk(qs, s, boxes, fs, bls, bbs, trail, rs, ps) {
      assert Inv(Step(s, KeyTypedEvent(key), qs), |qs|);
    }
  }

  /** A new layout keeps the sketch invariant. */
  lemma ResizeKeepsOk(qs: seq<Question>, s: Session, boxes: seq<OptionBox>, fs: seq<Firework>, bls: seq<Balloon>,
                      bbs: seq<Bubble>, trail: seq<TrailPoint>, rs: seq<Ripple>, ps: seq<Particle>,
                      boxes': seq<OptionBox>, width: real, height: real, baseFontSize: real)
    ensures SketchOk(qs, s, boxes, fs, bls, bbs, trail, rs, ps) && LaidOut(boxes', width, height, baseFontSize) ==>
      SketchOk(qs, s, boxes', fs, bls, bbs, trail, rs, ps)
  {
  }

  /** A fireworks frame keeps the live list within its cap and every firework in it healthy. */
  lemma FireworksFrameOk(fs: seq<Firework>, frameCount: nat, explodes: seq<bool>, bursts: seq<seq<real>>)
    requires |fs| <= FireworkCap && forall k :: 0 <= k < |fs| ==> FireworkOk(fs[k])
    requires |explodes| > |fs| && |bursts| > |fs|
    requires forall k :: 0 <= k < |bursts| ==> BurstLivesOk(bursts[k])
    ensures var spawned := SpawnIfDue(fs, NewFirework(), frameCount, FireworkEvery, FireworkCap);
      var r := FireworksPass(spawned, explodes, bursts);
      |r| <= FireworkCap && forall k :: 0 <= k < |r| ==> FireworkOk(r[k])
  {
    var spawned := SpawnIfDue(fs, NewFirework(), frameCount, FireworkEvery, FireworkCap);
    SpawnRespectsCap(fs, NewFirework(), frameCount, FireworkEvery, FireworkCap);
    assert forall k :: 0 <= k < |spawned| ==> FireworkOk(spawned[k]);
    FireworksPassOk(spawned, explodes, bursts);
  }

  /** The screen part of a frame keeps the boxes and the result animations healthy. */
  lemma ScreenFrameOk(s: Session, n: nat, boxes: seq<OptionBox>, fs: seq<Firework>, bls: seq<Balloon>,
                      bbs: seq<Bubble>, height: real, inp: FrameInput)
    requires ScreenOk(boxes, fs, bls, bbs) && DrawsOk(inp, fs)
    ensures ScreenOk(FrameBoxes(s, n, boxes, inp), FrameFireworks(s, n, fs, inp),
                     FrameBalloons(s, n, bls, height, inp), FrameBubbles(s, n, bbs, height, inp))
  {
    HoverFrameKeeps(boxes, inp.mx, inp.my);
    SameGeometryStacked(boxes, HoverFrame(boxes, inp.mx, inp.my));
    FireworksFrameOk(fs, inp.frameCount, inp.explodes, inp.bursts);
    SpawnRespectsCap(bls, NewBalloon(height, inp.balloonR, inp.balloonSpd), inp.frameCount, BalloonEvery, BalloonCap);
    SpawnRespectsCap(bbs, NewBubble(height, inp.bubbleR, inp.bubbleSpd), inp.frameCount, BubbleEvery, BubbleCap);
  }

  /** The trail, particle and ripple passes of a frame keep the per-frame effects healthy,
      whatever was spawned before the passes. */
  lemma TransientFrameOk(trail: seq<TrailPoint>, rs: seq<Ripple>, ps: seq<Particle>)
    requires TrailOk(trail)
    ensures TransientOk(TrailFrame(trail), Survivors(rs, StepRipple, RippleGone), Survivors(ps, StepParticle, ParticleGone))
  {
    TrailFrameBounded(trail);
    var rs', ps' := Survivors(rs, StepRipple, RippleGone), Survivors(ps, StepParticle, ParticleGone);
    assert forall k :: 0 <= k < |rs'| ==> rs'[k] in rs';
    assert forall k :: 0 <= k < |ps'| ==> ps'[k] in ps';
  }

  /** A whole frame keeps the sketch invariant. */
  lemma FrameKeepsOk(qs: seq<Question>, s: Session, boxes: seq<OptionBox>, fs: seq<Firework>, bls: seq<Balloon>,
                     bbs: seq<Bubble>, trail: seq<TrailPoint>, rs: seq<Ripple>, ps: seq<Particle>,
                     height: real, inp: FrameInput)
    requires DrawsOk(inp, fs)
    ensures SketchOk(qs, s, boxes, fs, bls, bbs, trail, rs, ps) ==>
      SketchOk(qs, Step(s, Frame, qs), FrameBoxes(s, |qs|, boxes, inp), FrameFireworks(s, |qs|, fs, inp),
                     FrameBalloons(s, |qs|, bls, height, inp), FrameBubbles(s, |qs|, bbs, height, inp),
                     TrailFrame(trail), Survivors(rs, StepRipple, RippleGone),
                     Survivors(ps + ScreenSparkles(s, |qs|, boxes, fs, inp), StepParticle, ParticleGone))
  {
    if SketchOk(qs, s, boxes, fs, bls, bbs, trail, rs, ps) {
      assert Inv(Step(s, Frame, qs), |qs|);
      ScreenFrameOk(s, |qs|, boxes, fs, bls, bbs, height, inp);
      TransientFrameOk(trail, rs, ps + ScreenSparkles(s, |qs|, boxes, fs, inp));
    }
  }
}
