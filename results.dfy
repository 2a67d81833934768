/** The result screen: score ratio, percentage, tier selection, and the counters of the
    three result animations (fireworks, balloons, bubbles). Motion and sway are not modelled. */
module ResultAnim {
  import opened Effects

  datatype Tier = FireworksTier | BalloonsTier | BubblesTier

  /** score / total, and 0 for an empty quiz. */
  function Ratio(score: int, total: int): (r: real)
    ensures total <= 0 ==> r == 0.0
    ensures total > 0 ==> r * total as real == score as real
    ensures total > 0 && 0 <= score <= total ==> 0.0 <= r <= 1.0
  {
    if total > 0 then score as real / total as real else 0.0
  }

  /** 80 % and more earns fireworks, 50 % and more balloons, anything lower bubbles. */
  function TierOf(ratio: real): Tier
  {
    if ratio >= 0.8 then FireworksTier else if ratio >= 0.5 then BalloonsTier else BubblesTier
  }

  /** The displayed percentage, floor(ratio * 100). */
  function Pct(score: int, total: int): int
  {
    (Ratio(score, total) * 100.0).Floor
  }

  /** The tier in integers: fireworks iff 5 * score >= 4 * total, balloons iff additionally
      2 * score >= total fails to reach the top band, bubbles otherwise. */
  lemma TierByCounts(score: int, total: int)
    requires total > 0
    ensures TierOf(Ratio(score, total)) == FireworksTier <==> 5 * score >= 4 * total
    ensures TierOf(Ratio(score, total)) == BalloonsTier <==> 2 * score >= total && 5 * score < 4 * total
    ensures TierOf(Ratio(score, total)) == BubblesTier <==> 2 * score < total
  {
    var r := Ratio(score, total);
    var t := total as real;
    var sc := score as real;
    assert r * t == sc;
    RatioBand(r, 0.8, t, sc);
    RatioBand(r, 0.5, t, sc);
    assert sc >= 0.8 * t <==> (5 * score) as real >= (4 * total) as real;
    assert sc >= 0.5 * t <==> (2 * score) as real >= total as real;
    assert r >= 0.8 <==> 5 * score >= 4 * total;
    assert r >= 0.5 <==> 2 * score >= total;
  }

  lemma ScaleCompare(r: real, c: real, t: real)
    requires t > 0.0
    ensures r >= c <==> r * t >= c * t
  {
    assert r * t - c * t == (r - c) * t;
    if r >= c {
      assert (r - c) * t >= 0.0;
    } else {
      assert (c - r) * t > 0.0;
    }
  }

  lemma RatioBand(r: real, c: real, t: real, sc: real)
    requires t > 0.0 && r * t == sc
    ensures r >= c <==> sc >= c * t
  {
    ScaleCompare(r, c, t);
  }

  /** The worked examples: 4/5 gives fireworks, 3/5 balloons, 1/5 bubbles, and an empty quiz bubbles. */
  lemma TierExamples()
    ensures TierOf(Ratio(4, 5)) == FireworksTier
    ensures TierOf(Ratio(3, 5)) == BalloonsTier
    ensures TierOf(Ratio(1, 5)) == BubblesTier
    ensures TierOf(Ratio(0, 0)) == BubblesTier
  {
    TierByCounts(4, 5);
    TierByCounts(3, 5);
    TierByCounts(1, 5);
  }

  /** The percentage is 100 * score / total rounded down, so it lies in [0, 100]. */
  lemma PctBounds(score: int, total: int)
    requires total > 0 && 0 <= score <= total
    ensures Pct(score, total) == (100 * score) / total
    ensures 0 <= Pct(score, total) <= 100
  {
    RatioScaled(score, total);
    FloorOfQuotient(100 * score, total);
    var p := (100 * score) / total;
    DivBounds(100 * score, total);
    IntCancel(0, p + 1, total);
    IntCancel(p, 101, total);
  }

  lemma RatioScaled(score: int, total: int)
    requires total > 0
    ensures Ratio(score, total) * 100.0 == (100 * score) as real / total as real
  {
  }

  /** Real division followed by floor is integer division, for a positive divisor. */
  lemma FloorOfQuotient(a: int, t: int)
    requires t > 0
    ensures (a as real / t as real).Floor == a / t
  {
    var q, r := a / t, a % t;
    var x := a as real / t as real;
    assert a == q * t + r;
    CastProduct(q, t);
    assert x == q as real + r as real / t as real;
    assert 0.0 <= r as real / t as real < 1.0;
    FloorUnique(x, q);
  }

  lemma DivBounds(a: int, t: int)
    requires t > 0
    ensures (a / t) * t <= a < (a / t + 1) * t
  {
    var q, r := a / t, a % t;
    assert a == q * t + r;
    assert (q + 1) * t == q * t + t;
  }

  /** A common positive factor can be cancelled from a strict inequality. */
  lemma IntCancel(u: int, v: int, t: int)
    requires t > 0 && u * t < v * t
    ensures u < v
  {
  }

  lemma FloorUnique(x: real, p: int)
    requires p as real <= x < (p + 1) as real
    ensures x.Floor == p
  {
  }

  lemma CastProduct(a: int, b: int)
    ensures (a * b) as real == a as real * b as real
  {
  }

  // ---------------------------------------------------------------------------------------
  // Fireworks

  const FireworkCap: nat := 6
  const FireworkEvery: nat := 15
  const FragmentCount: nat := 80
  const SparkleCount: nat := 20
  const SparkleLife: int := 50
  const BalloonCap: nat := 10
  const BalloonEvery: nat := 20
  const BubbleCap: nat := 20
  const BubbleEvery: nat := 5

  datatype Stage = Rise | Burst

  /** A firework: rising or burst, the remaining lives of its fragments, and its done mark. */
  datatype Firework = Firework(stage: Stage, fragments: seq<real>, done: bool)

  function NewFirework(): Firework { Firework(Rise, [], false) }

  function StepFragment(life: real): real { life - 1.0 }

  predicate FragmentGone(life: real) { life <= 0.0 }

  /** One update of a firework. While rising it bursts when `explodeNow` (the outcome of the
      speed and altitude test) holds, taking `burstLives` as its fragments' lives; once burst
      its fragments age and expire, and it is marked done when none is left. */
  function StepFirework(f: Firework, explodeNow: bool, burstLives: seq<real>): (g: Firework)
    ensures g.done ==> f.done || (g.stage == Burst && g.fragments == [])
    ensures f.stage == Burst ==> g.done == (f.done || g.fragments == [])
  {
    match f.stage
    case Rise =>
      if explodeNow then f.(stage := Burst, fragments := f.fragments + burstLives) else f
    case Burst =>
      var left := Survivors(f.fragments, StepFragment, FragmentGone);
      f.(fragments := left, done := if |left| == 0 then true else f.done)
  }

  /** Whether this update makes the firework burst, which also spawns its 20-particle sparkle ring. */
  predicate Explodes(f: Firework, explodeNow: bool)
  {
    f.stage == Rise && explodeNow
  }

  /** Lives that random(40, 80) can give to the 80 fragments of one burst. */
  predicate BurstLivesOk(lives: seq<real>)
  {
    |lives| == FragmentCount && forall l :: l in lives ==> 40.0 <= l < 80.0
  }

  /** A firework as it can sit in the live list: not done, no fragments while rising, and a
      non-empty set of live fragments once burst. */
  predicate FireworkOk(f: Firework)
  {
    && !f.done
    && (f.stage == Rise ==> f.fragments == [])
    && (f.stage == Burst ==> f.fragments != [])
    && forall l :: l in f.fragments ==> l > 0.0
  }

  /** The fireworks pass over the live list with one random draw per entry: every firework is
      updated and the done ones are removed. */
  function FireworksPass(fs: seq<Firework>, ex: seq<bool>, lives: seq<seq<real>>): (r: seq<Firework>)
    requires |ex| >= |fs| && |lives| >= |fs|
    ensures |r| <= |fs|
  {
    if fs == [] then []
    else
      var g := StepFirework(fs[0], ex[0], lives[0]);
      (if g.done then [] else [g]) + FireworksPass(fs[1..], ex[1..], lives[1..])
  }

  /** The number of fireworks that burst in a pass. */
  function Explosions(fs: seq<Firework>, ex: seq<bool>): (n: nat)
    requires |ex| >= |fs|
    ensures n <= |fs|
  {
    if fs == [] then 0 else (if Explodes(fs[0], ex[0]) then 1 else 0) + Explosions(fs[1..], ex[1..])
  }

  /** The pass and the burst count taken from index i on, one firework at a time. */
  lemma PassFrom(fs: seq<Firework>, ex: seq<bool>, lives: seq<seq<real>>, i: nat)
    requires |ex| >= |fs| && |lives| >= |fs| && i < |fs|
    ensures var g := StepFirework(fs[i], ex[i], lives[i]);
      FireworksPass(fs[i..], ex[i..], lives[i..])
      == (if g.done then [] else [g]) + FireworksPass(fs[i + 1..], ex[i + 1..], lives[i + 1..])
    ensures Explosions(fs[i..], ex[i..])
      == (if Explodes(fs[i], ex[i]) then 1 else 0) + Explosions(fs[i + 1..], ex[i + 1..])
  {
    assert fs[i..][1..] == fs[i + 1..] && ex[i..][1..] == ex[i + 1..] && lives[i..][1..] == lives[i + 1..];
  }

  /** One step of the backward splice loop over the fireworks: with the entries from i + 1 on
      already updated, updating entry i in place (or splicing it out when it is done) leaves
      the entries from i on updated. */
  lemma PassSplice(fs: seq<Firework>, ex: seq<bool>, lives: seq<seq<real>>, i: nat, cur: seq<Firework>)
    requires |ex| >= |fs| && |lives| >= |fs| && i < |fs|
    requires cur == fs[..i + 1] + FireworksPass(fs[i + 1..], ex[i + 1..], lives[i + 1..])
    ensures i < |cur| && cur[i] == fs[i]
    ensures var g := StepFirework(fs[i], ex[i], lives[i]);
      (if g.done then cur[..i] + cur[i + 1..] else cur[..i] + [g] + cur[i + 1..])
      == fs[..i] + FireworksPass(fs[i..], ex[i..], lives[i..])
  {
    PassFrom(fs, ex, lives, i);
    var g := StepFirework(fs[i], ex[i], lives[i]);
    var rest := FireworksPass(fs[i + 1..], ex[i + 1..], lives[i + 1..]);
    assert fs[..i + 1] == fs[..i] + [fs[i]];
    SpliceAt(fs[..i], fs[i], rest, cur, g);
    if g.done {
      assert [] + rest == rest;
    }
  }

  /** Removing or replacing the entry after a prefix of a list. */
  lemma SpliceAt<T>(pre: seq<T>, x: T, rest: seq<T>, cur: seq<T>, y: T)
    requires cur == pre + [x] + rest
    ensures |pre| < |cur| && cur[|pre|] == x
    ensures cur[..|pre|] + cur[|pre| + 1..] == pre + rest
    ensures cur[..|pre|] + [y] + cur[|pre| + 1..] == pre + ([y] + rest)
  {
    assert cur[..|pre|] == pre;
    assert cur[|pre| + 1..] == rest;
  }

  /** The sparkle rings spawned from index i on: those from i + 1 on and then the ring of the
      i-th firework if it bursts. */
  lemma SparklesFrom(fs: seq<Firework>, ex: seq<bool>, lives: seq<seq<real>>, i: nat)
    requires |ex| >= |fs| && |lives| >= |fs| && i < |fs|
    ensures Spawned(SparkleCount * Explosions(fs[i + 1..], ex[i + 1..]), SparkleLife, true)
      + (if Explodes(fs[i], ex[i]) then Spawned(SparkleCount, SparkleLife, true) else [])
      == Spawned(SparkleCount * Explosions(fs[i..], ex[i..]), SparkleLife, true)
  {
    PassFrom(fs, ex, lives, i);
    SpawnedConcat(SparkleCount * Explosions(fs[i + 1..], ex[i + 1..]), SparkleCount, SparkleLife, true);
  }

  /** An update keeps a healthy firework healthy unless it is now done: a done firework is one
      whose fragments all expired after its burst. */
  lemma StepFireworkOk(f: Firework, explodeNow: bool, burstLives: seq<real>)
    requires FireworkOk(f) && BurstLivesOk(burstLives)
    ensures var g := StepFirework(f, explodeNow, burstLives);
      g.done <==> (f.stage == Burst && g.fragments == [])
    ensures var g := StepFirework(f, explodeNow, burstLives);
      !g.done ==> FireworkOk(g)
  {
    if f.stage == Burst {
      SurvivorsAlive(f.fragments, StepFragment, FragmentGone);
    } else if explodeNow {
      assert burstLives[0] in burstLives;
    }
  }

  /** After a pass every remaining firework is healthy and not done. */
  lemma {:induction false} FireworksPassOk(fs: seq<Firework>, ex: seq<bool>, lives: seq<seq<real>>)
    requires |ex| >= |fs| && |lives| >= |fs|
    requires forall k :: 0 <= k < |fs| ==> FireworkOk(fs[k]) && BurstLivesOk(lives[k])
    ensures forall k :: 0 <= k < |FireworksPass(fs, ex, lives)| ==> FireworkOk(FireworksPass(fs, ex, lives)[k])
  {
    if fs != [] {
      StepFireworkOk(fs[0], ex[0], lives[0]);
      assert forall k :: 0 <= k < |fs[1..]| ==> fs[1..][k] == fs[k + 1] && lives[1..][k] == lives[k + 1];
      FireworksPassOk(fs[1..], ex[1..], lives[1..]);
    }
  }

  // ---------------------------------------------------------------------------------------
  // Balloons and bubbles

  /** A balloon: its vertical position, its radius and its rising speed per frame. */
  datatype Balloon = Balloon(y: real, r: real, spd: real)

  /** A bubble: its vertical position, its radius and its rising speed per frame. */
  datatype Bubble = Bubble(y: real, r: real, spd: real)

  /** A balloon starts 60 below the bottom edge. */
  function NewBalloon(height: real, r: real, spd: real): Balloon { Balloon(height + 60.0, r, spd) }

  function StepBalloon(b: Balloon): Balloon { b.(y := b.y - b.spd) }

  /** A balloon is removed once its string end is more than 50 above the top edge. */
  predicate BalloonGone(b: Balloon) { b.y + b.r * 2.0 < -50.0 }

  /** A bubble starts 20 below the bottom edge. */
  function NewBubble(height: real, r: real, spd: real): Bubble { Bubble(height + 20.0, r, spd) }

  function StepBubble(b: Bubble): Bubble { b.(y := b.y - b.spd) }

  /** A bubble is removed once it is more than 30 above the top edge. */
  predicate BubbleGone(b: Bubble) { b.y < -30.0 }

  /** The spawn rule shared by the three animations: on a frame that is a multiple of the
      period, one entity is added, but only while the list is below its cap. */
  function SpawnIfDue<T>(xs: seq<T>, x: T, frameCount: nat, every: nat, cap: nat): (r: seq<T>)
    requires every > 0
    ensures |xs| < cap && frameCount % every == 0 ==> r == xs + [x]
    ensures !(|xs| < cap && frameCount % every == 0) ==> r == xs
  {
    if frameCount % every == 0 && |xs| < cap then xs + [x] else xs
  }

  /** A spawn adds at most one entity and never takes a list under its cap above the cap. */
  lemma SpawnRespectsCap<T>(xs: seq<T>, x: T, frameCount: nat, every: nat, cap: nat)
    requires every > 0 && |xs| <= cap
    ensures |xs| <= |SpawnIfDue(xs, x, frameCount, every, cap)| <= |xs| + 1
    ensures |SpawnIfDue(xs, x, frameCount, every, cap)| <= cap
  {
  }

  /** After n frames a balloon has risen by n times its speed; its radius and speed stay. */
  lemma {:induction false} BalloonAfter(b: Balloon, n: nat)
    ensures Iterate(StepBalloon, b, n) == b.(y := b.y - n as real * b.spd)
  {
    if n > 0 { BalloonAfter(b, n - 1); }
  }
}
