/** The particle system's counters: cursor trail, click ripples and particles.
    Positions, velocities, radii of trail dots and colours are not part of this model. */
module Effects {

  /** A trail dot; only its opacity is modelled. */
  datatype TrailPoint = TrailPoint(alpha: int)

  /** A click ripple: its radius grows and its opacity falls every frame. */
  datatype Ripple = Ripple(radius: int, alpha: int)

  /** A particle: frames left to live, its opacity, and whether it twinkles. */
  datatype Particle = Particle(life: int, alpha: real, twinkle: bool)

  const TrailCapacity: nat := 60
  const TrailStartAlpha: int := 180
  const TrailFade: int := 3
  const RippleStartAlpha: int := 200
  const RippleGrowth: int := 4
  const RippleFade: int := 6
  const ParticleStartAlpha: real := 255.0
  const BurstSize: nat := 36
  const BurstLife: int := 70
  const HoverSparkleLife: int := 80
  const IntroSparkleLife: int := 120

  // ---------------------------------------------------------------------------------------
  // Update-then-remove passes

  /** What a backward pass that updates every entry and then splices out the dead ones leaves:
      the updated live entries, in their original order. */
  function Survivors<T>(s: seq<T>, step: T -> T, dead: T -> bool): (r: seq<T>)
    ensures |r| <= |s|
  {
    if s == [] then []
    else (if dead(step(s[0])) then [] else [step(s[0])]) + Survivors(s[1..], step, dead)
  }

  /** No dead entry survives a pass. */
  lemma {:induction false} SurvivorsAlive<T>(s: seq<T>, step: T -> T, dead: T -> bool)
    ensures forall x :: x in Survivors(s, step, dead) ==> !dead(x)
  {
    if s != [] {
      SurvivorsAlive(s[1..], step, dead);
    }
  }

  /** Runs over the collection from its last index down to 0, updating each entry and removing
      it on the spot when it is dead, like the sketch's splice loops. */
  method StepAndCull<T>(s: seq<T>, step: T -> T, dead: T -> bool) returns (r: seq<T>)
    ensures r == Survivors(s, step, dead)
  {
    r := s;
    var i := |s|;
    while i > 0
      invariant 0 <= i <= |s|
      invariant r == s[..i] + Survivors(s[i..], step, dead)
    {
      i := i - 1;
      assert s[i..] == [s[i]] + s[i + 1..];
      assert r[i] == s[i] && r[..i] == s[..i];
      var x := step(r[i]);
      if dead(x) {
        r := r[..i] + r[i + 1..];
      } else {
        r := r[..i] + [x] + r[i + 1..];
      }
    }
    assert s[..0] + Survivors(s[0..], step, dead) == Survivors(s, step, dead) by {
      assert s[0..] == s;
    }
  }

  /** An entry survives exactly when its updated value is alive, and then it appears updated. */
  lemma {:induction false} SurvivorsMembership<T>(s: seq<T>, step: T -> T, dead: T -> bool, x: T)
    ensures x in Survivors(s, step, dead) <==> !dead(x) && exists k :: 0 <= k < |s| && step(s[k]) == x
  {
    if s != [] {
      SurvivorsMembership(s[1..], step, dead, x);
      if exists k :: 0 <= k < |s| && step(s[k]) == x {
        var k :| 0 <= k < |s| && step(s[k]) == x;
        if k > 0 { assert s[1..][k - 1] == s[k]; }
      }
      if exists k :: 0 <= k < |s[1..]| && step(s[1..][k]) == x {
        var k :| 0 <= k < |s[1..]| && step(s[1..][k]) == x;
        assert s[k + 1] == s[1..][k];
      }
    }
  }

  /** When nothing dies in a pass, the pass keeps every entry and only updates it. */
  lemma {:induction false} SurvivorsNoneDead<T>(s: seq<T>, step: T -> T, dead: T -> bool)
    requires forall k :: 0 <= k < |s| ==> !dead(step(s[k]))
    ensures |Survivors(s, step, dead)| == |s|
    ensures forall k :: 0 <= k < |s| ==> Survivors(s, step, dead)[k] == step(s[k])
  {
    if s != [] {
      assert forall k :: 0 <= k < |s[1..]| ==> s[1..][k] == s[k + 1];
      SurvivorsNoneDead(s[1..], step, dead);
    }
  }

  /** n updates applied to x. */
  function Iterate<T>(step: T -> T, x: T, n: nat): T
  {
    if n == 0 then x else step(Iterate(step, x, n - 1))
  }

  // ---------------------------------------------------------------------------------------
  // Ripples

  function NewRipple(): Ripple { Ripple(0, RippleStartAlpha) }

  function StepRipple(r: Ripple): Ripple { Ripple(r.radius + RippleGrowth, r.alpha - RippleFade) }

  predicate RippleGone(r: Ripple) { r.alpha <= 0 }

  /** After n frames a fresh ripple has grown by 4 and faded by 6 per frame. */
  lemma {:induction false} RippleAfter(n: nat)
    ensures Iterate(StepRipple, NewRipple(), n) == Ripple(4 * n, 200 - 6 * n)
  {
    if n > 0 { RippleAfter(n - 1); }
  }

  /** A fresh ripple is removed by the 34th ripple pass and not before. */
  lemma RippleLifetime(n: nat)
    ensures RippleGone(Iterate(StepRipple, NewRipple(), n)) <==> n >= 34
  {
    RippleAfter(n);
  }

  // ---------------------------------------------------------------------------------------
  // Particles

  /** k fresh particles, as spawnParticle makes them: full opacity and the given life. */
  function Spawned(k: nat, life: int, twinkle: bool): (ps: seq<Particle>)
    ensures |ps| == k
    ensures forall p :: p in ps ==> p == Particle(life, ParticleStartAlpha, twinkle)
  {
    seq(k, _ => Particle(life, ParticleStartAlpha, twinkle))
  }

  /** Spawning a then b particles of one kind is spawning a + b of them. */
  lemma SpawnedConcat(a: nat, b: nat, life: int, twinkle: bool)
    ensures Spawned(a, life, twinkle) + Spawned(b, life, twinkle) == Spawned(a + b, life, twinkle)
  {
    var l, r := Spawned(a, life, twinkle), Spawned(b, life, twinkle);
    assert forall k :: 0 <= k < a + b ==> (l + r)[k] == Particle(life, ParticleStartAlpha, twinkle);
  }

  /** The particles of an answer burst: 36 twinkling ones with 70 frames to live. */
  function BurstParticles(): (ps: seq<Particle>)
    ensures |ps| == 36
    ensures forall p :: p in ps ==> p.life == 70 && p.twinkle && p.alpha == 255.0
  {
    Spawned(BurstSize, BurstLife, true)
  }

  /** One frame of a particle: one frame less to live, and its opacity mapped linearly from
      life 0..90 onto 0..255 (unclamped, as p5's map does by default). */
  function StepParticle(p: Particle): Particle
  {
    var life := p.life - 1;
    p.(life := life, alpha := life as real * 255.0 / 90.0)
  }

  predicate ParticleGone(p: Particle) { p.life <= 0 }

  /** A particle spawned with life L > 0 is removed on exactly the L-th particle pass: its
      life after n passes is L - n, and it is gone exactly from then on. */
  lemma {:induction false} ParticleLifetime(p: Particle, n: nat)
    ensures p.life > 0 ==> (ParticleGone(Iterate(StepParticle, p, n)) <==> n >= p.life)
    ensures n > 0 ==> Iterate(StepParticle, p, n).life == p.life - n
    ensures n > 0 ==> Iterate(StepParticle, p, n).alpha == (p.life - n) as real * 255.0 / 90.0
    ensures Iterate(StepParticle, p, n).twinkle == p.twinkle
  {
    if n > 1 { ParticleLifetime(p, n - 1); }
  }

  // ---------------------------------------------------------------------------------------
  // Cursor trail

  /** A trail dot one frame older: 3 less opacity, never below 0. */
  function FadeTrailPoint(p: TrailPoint): (q: TrailPoint)
    ensures q.alpha >= 0
    ensures p.alpha >= TrailFade ==> q.alpha == p.alpha - TrailFade
    ensures p.alpha < TrailFade ==> q.alpha == 0
  {
    TrailPoint(if p.alpha - TrailFade < 0 then 0 else p.alpha - TrailFade)
  }

  /** The queue after appending the newest dot; the oldest is evicted past 60 entries. */
  function PushTrail(t: seq<TrailPoint>, p: TrailPoint): seq<TrailPoint>
  {
    var t1 := t + [p];
    if |t1| > TrailCapacity then t1[1..] else t1
  }

  function FadeTrail(t: seq<TrailPoint>): (r: seq<TrailPoint>)
    ensures |r| == |t|
  {
    seq(|t|, i requires 0 <= i < |t| => FadeTrailPoint(t[i]))
  }

  /** The trail after one frame: a full-opacity dot appended, overflow evicted, all faded. */
  function TrailFrame(t: seq<TrailPoint>): seq<TrailPoint>
  {
    FadeTrail(PushTrail(t, TrailPoint(TrailStartAlpha)))
  }

  predicate TrailOk(t: seq<TrailPoint>)
  {
    |t| <= TrailCapacity && forall k :: 0 <= k < |t| ==> 0 <= t[k].alpha <= TrailStartAlpha
  }

  /** A trail frame keeps the queue bounded by 60 and no opacity below 0; it grows by one
      until full, and once full it drops its oldest dot. The newest dot ends the frame at 177. */
  lemma TrailFrameBounded(t: seq<TrailPoint>)
    requires TrailOk(t)
    ensures TrailOk(TrailFrame(t))
    ensures |TrailFrame(t)| == if |t| < TrailCapacity then |t| + 1 else TrailCapacity
    ensures TrailFrame(t)[|TrailFrame(t)| - 1] == TrailPoint(TrailStartAlpha - TrailFade)
    ensures |t| < TrailCapacity ==> forall k :: 0 <= k < |t| ==> TrailFrame(t)[k] == FadeTrailPoint(t[k])
    ensures |t| == TrailCapacity ==> forall k :: 0 <= k < |t| - 1 ==> TrailFrame(t)[k] == FadeTrailPoint(t[k + 1])
  {
    var pushed := PushTrail(t, TrailPoint(TrailStartAlpha));
    if |t| == TrailCapacity {
      assert forall k :: 0 <= k < |t| - 1 ==> pushed[k] == t[k + 1];
    }
  }
}
