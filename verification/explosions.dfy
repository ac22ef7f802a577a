/**
 The explosion system: bursts of particles spawned by a hit, their
 per-frame kinematics and fading, and the removal of bursts whose
 particles have all died.
 */
module Explosions {

  import opened Rand
  import opened Balloons

  /** Particles in one burst. */
  const PARTICLES_PER_EXPLOSION: nat := 30

  /** Upper bound of the first factor of a particle's launch speed. */
  const PARTICLE_SPEED: real := 2.5

  /** Frames within which every freshly spawned particle has faded out. */
  const FADE_OUT_FRAMES: nat := 128

  /** Red, green and blue components of a balloon colour. */
  datatype Rgb = Rgb(red: real, green: real, blue: real)

  /**
   The unit vector (cos angle, sin angle) of a particle's launch direction;
   the angle draw and the trigonometry are taken as given.
   */
  type Direction = d: (real, real) | d.0 * d.0 + d.1 * d.1 == 1.0 witness (1.0, 0.0)

  datatype Particle = Particle(
    x: real, y: real, vx: real, vy: real, gravity: real,
    red: real, green: real, blue: real,
    alpha: real, fade: real, size: real, shrink: real)

  datatype Explosion = Explosion(particles: seq<Particle>)

  /** The draws `createExplosion` consumes for one particle, in order. */
  datatype SparkDraws = SparkDraws(
    dir: Direction, speedBase: Unit, speedBoost: Unit,
    dx: Unit, dy: Unit, gravity: Unit,
    red: Unit, green: Unit, blue: Unit,
    alpha: Unit, fade: Unit, size: Unit, shrink: Unit)

  /** Bounds on a product of two non-negative factors from half-open ranges. */
  lemma ProductBounds(a: real, b: real, alo: real, ahi: real, blo: real, bhi: real)
    requires 0.0 <= alo <= a < ahi
    requires 0.0 <= blo <= b < bhi
    ensures alo * blo <= a * b < ahi * bhi
  {
    assert a * b - alo * blo == (a - alo) * b + alo * (b - blo);
    assert 0.0 <= (a - alo) * b;
    assert 0.0 <= alo * (b - blo);
    assert ahi * bhi - a * b == (ahi - a) * bhi + a * (bhi - b);
    assert 0.0 < (ahi - a) * bhi;
    assert 0.0 <= a * (bhi - b);
  }

  /** `random(0.5, PARTICLE_SPEED) * (0.4 + random())`. */
  function LaunchSpeed(d: SparkDraws): (s: real)
    ensures 0.2 <= s < 3.5
  {
    var base := Between(0.5, PARTICLE_SPEED, d.speedBase);
    var boost := 0.4 + d.speedBoost;
    ProductBounds(base, boost, 0.5, PARTICLE_SPEED, 0.4, 1.4);
    base * boost
  }

  /** Scaling a unit vector by `s` gives a vector of squared length `s * s`. */
  lemma ScaledDirection(d: Direction, s: real)
    ensures (d.0 * s) * (d.0 * s) + (d.1 * s) * (d.1 * s) == s * s
  {
    calc {
      (d.0 * s) * (d.0 * s) + (d.1 * s) * (d.1 * s);
      (d.0 * d.0 + d.1 * d.1) * (s * s);
      s * s;
    }
  }

  /** The ranges every freshly spawned particle's attributes are drawn from. */
  predicate Fresh(p: Particle)
  {
    && 180.0 <= p.alpha < 255.0
    && 2.0 <= p.fade < 6.0
    && 4.0 <= p.size
    && 0.985 <= p.shrink < 0.995
    && 0.015 <= p.gravity < 0.045
    && 0.04 <= p.vx * p.vx + p.vy * p.vy < 12.25
  }

  /** One particle of `createExplosion` for balloon `b` of colour `rgb`. */
  function Spark(b: Balloon, rgb: Rgb, d: SparkDraws): (p: Particle)
    ensures Abs(p.x - b.x) <= Abs(b.r) / 6.0 && Abs(p.y - b.y) <= Abs(b.r) / 6.0
    ensures p.vx * p.vx + p.vy * p.vy == LaunchSpeed(d) * LaunchSpeed(d)
    ensures rgb.red - 20.0 <= p.red < rgb.red + 20.0
    ensures rgb.green - 20.0 <= p.green < rgb.green + 20.0
    ensures rgb.blue - 20.0 <= p.blue < rgb.blue + 20.0
    ensures p.size < Max(6.0, b.r / 12.0)
    ensures Fresh(p)
  {
    var speed := LaunchSpeed(d);
    ScaledDirection(d.dir, speed);
    ProductBounds(speed, speed, 0.2, 3.5, 0.2, 3.5);
    Particle(
      x := b.x + Between(-b.r / 6.0, b.r / 6.0, d.dx),
      y := b.y + Between(-b.r / 6.0, b.r / 6.0, d.dy),
      vx := d.dir.0 * speed,
      vy := d.dir.1 * speed,
      gravity := 0.03 * Between(0.5, 1.5, d.gravity),
      red := rgb.red + Between(-20.0, 20.0, d.red),
      green := rgb.green + Between(-20.0, 20.0, d.green),
      blue := rgb.blue + Between(-20.0, 20.0, d.blue),
      alpha := Between(180.0, 255.0, d.alpha),
      fade := Between(2.0, 6.0, d.fade),
      size := Between(4.0, Max(6.0, b.r / 12.0), d.size),
      shrink := Between(0.985, 0.995, d.shrink))
  }

  /**
   The burst `createExplosion` builds for balloon `b`: thirty fresh
   particles, each starting within a sixth of the diameter of the centre.
   */
  function CreateExplosion(b: Balloon, rgb: Rgb, draws: seq<SparkDraws>): (e: Explosion)
    requires |draws| == PARTICLES_PER_EXPLOSION
    ensures |e.particles| == PARTICLES_PER_EXPLOSION
    ensures forall i :: 0 <= i < |e.particles| ==>
      Fresh(e.particles[i])
      && Abs(e.particles[i].x - b.x) <= Abs(b.r) / 6.0
      && Abs(e.particles[i].y - b.y) <= Abs(b.r) / 6.0
  {
    Explosion(seq(PARTICLES_PER_EXPLOSION, i requires 0 <= i < PARTICLES_PER_EXPLOSION => Spark(b, rgb, draws[i])))
  }

  /** One frame of a particle: gravity first, then the move, the fade and the shrink. */
  function StepParticle(p: Particle): (q: Particle)
    ensures q.vy - p.vy == p.gravity
    ensures q.y - p.y == q.vy
    ensures q.x - p.x == q.vx == p.vx
    ensures q.alpha == p.alpha - p.fade && q.size == p.size * p.shrink
    ensures q.gravity == p.gravity && q.fade == p.fade && q.shrink == p.shrink
    ensures q.red == p.red && q.green == p.green && q.blue == p.blue
  {
    var vy := p.vy + p.gravity;
    p.(vy := vy, x := p.x + p.vx, y := p.y + vy, alpha := p.alpha - p.fade, size := p.size * p.shrink)
  }

  /** A particle is dead once it is transparent or too small to see. */
  predicate Dead(p: Particle)
  {
    p.alpha <= 0.0 || p.size <= 0.5
  }

  /** Every particle of the burst is dead (vacuously so for an empty burst). */
  predicate AllDead(e: Explosion)
  {
    forall i :: 0 <= i < |e.particles| ==> Dead(e.particles[i])
  }

  function StepExplosion(e: Explosion): (e': Explosion)
    ensures |e'.particles| == |e.particles|
    ensures forall i :: 0 <= i < |e.particles| ==> e'.particles[i] == StepParticle(e.particles[i])
  {
    Explosion(seq(|e.particles|, i requires 0 <= i < |e.particles| => StepParticle(e.particles[i])))
  }

  function StepAll(es: seq<Explosion>): (es': seq<Explosion>)
    ensures |es'| == |es|
    ensures forall i :: 0 <= i < |es| ==> es'[i] == StepExplosion(es[i])
  {
    seq(|es|, i requires 0 <= i < |es| => StepExplosion(es[i]))
  }

  /** The bursts that still have a live particle, in their original order. */
  function Prune(es: seq<Explosion>): (kept: seq<Explosion>)
    ensures |kept| <= |es|
    ensures forall i :: 0 <= i < |kept| ==> !AllDead(kept[i])
  {
    if |es| == 0 then []
    else if AllDead(es[0]) then Prune(es[1..])
    else [es[0]] + Prune(es[1..])
  }

  /** A burst survives pruning exactly when it has a live particle. */
  lemma {:induction false} PruneKeepsExactlyLive(es: seq<Explosion>, e: Explosion)
    ensures e in Prune(es) <==> e in es && !AllDead(e)
  {
    if |es| > 0 {
      PruneKeepsExactlyLive(es[1..], e);
      assert es == [es[0]] + es[1..];
    }
  }

  /** Pruning distributes over concatenation, so survivors keep their relative order. */
  lemma {:induction false} PruneAppend(a: seq<Explosion>, b: seq<Explosion>)
    ensures Prune(a + b) == Prune(a) + Prune(b)
  {
    if |a| == 0 {
      assert a + b == b;
    } else {
      assert (a + b)[1..] == a[1..] + b;
      PruneAppend(a[1..], b);
    }
  }

  /** Nothing is removed while every burst has a live particle. */
  lemma {:induction false} PruneKeepsLiveList(es: seq<Explosion>)
    requires forall i :: 0 <= i < |es| ==> !AllDead(es[i])
    ensures Prune(es) == es
  {
    if |es| > 0 {
      PruneKeepsLiveList(es[1..]);
    }
  }

  /**
   The explosion loop of `draw`: from the last burst to the first, advance
   every particle, then splice the burst out if all its particles are dead.
   Splicing behind the index skips and repeats nothing, so the result is the
   filter of the advanced list.
   */
  method UpdateExplosions(es: seq<Explosion>) returns (out: seq<Explosion>)
    ensures out == Prune(StepAll(es))
  {
    out := es;
    var i := |es| - 1;
    while i >= 0
      invariant -1 <= i < |es|
      invariant out == es[..i + 1] + Prune(StepAll(es[i + 1..]))
    {
      SpliceStep(es, out, i);
      var ex := StepExplosion(out[i]);
      out := out[i := ex];
      if AllDead(ex) {
        out := out[..i] + out[i + 1..];
      }
      i := i - 1;
    }
    assert es[0..] == es;
  }

  /**
   One turn of the explosion loop at index `i`: replacing burst `i` by its
   advanced form, and splicing it out when it is all dead, extends the
   pruned suffix by one position.
   */
  lemma SpliceStep(es: seq<Explosion>, out: seq<Explosion>, i: nat)
    requires i < |es|
    requires out == es[..i + 1] + Prune(StepAll(es[i + 1..]))
    ensures var ex := StepExplosion(out[i]);
      var written := out[i := ex];
      (AllDead(ex) ==> written[..i] + written[i + 1..] == es[..i] + Prune(StepAll(es[i..])))
      && (!AllDead(ex) ==> written == es[..i] + Prune(StepAll(es[i..])))
  {
    var ex := StepExplosion(out[i]);
    var written := out[i := ex];
    var rest := Prune(StepAll(es[i + 1..]));
    assert out[..i] == es[..i] && out[i] == es[i] && out[i + 1..] == rest;
    assert written[..i] == out[..i] && written[i + 1..] == out[i + 1..];
    PruneStepFront(es, i);
    if !AllDead(ex) {
      assert written == written[..i] + [ex] + written[i + 1..];
    }
  }

  /** Pruning the advanced suffix from `i` decides burst `i`, then prunes the rest. */
  lemma PruneStepFront(es: seq<Explosion>, i: nat)
    requires i < |es|
    ensures var ex := StepExplosion(es[i]);
      Prune(StepAll(es[i..])) == (if AllDead(ex) then [] else [ex]) + Prune(StepAll(es[i + 1..]))
  {
    var s := StepAll(es[i..]);
    assert s[1..] == StepAll(es[i + 1..]);
  }

  /** `a` raised to the `n`-th power. */
  function Power(a: real, n: nat): real
  {
    if n == 0 then 1.0 else a * Power(a, n - 1)
  }

  /** A particle after `n` frames. */
  function Steps(p: Particle, n: nat): Particle
  {
    if n == 0 then p else StepParticle(Steps(p, n - 1))
  }

  lemma MulSucc(m: real, a: real)
    ensures (m + 1.0) * a == m * a + a
  {
  }

  /**
   Closed form of `n` frames, first part: velocity sideways and the
   per-particle constants never change, the particle drifts sideways at
   constant speed, gravity accumulates linearly in `vy`, and the fade is linear.
   */
  lemma {:induction false} StepsLinear(p: Particle, n: nat)
    ensures Steps(p, n).vx == p.vx && Steps(p, n).gravity == p.gravity
    ensures Steps(p, n).fade == p.fade && Steps(p, n).shrink == p.shrink
    ensures Steps(p, n).x == p.x + n as real * p.vx
    ensures Steps(p, n).vy == p.vy + n as real * p.gravity
    ensures Steps(p, n).alpha == p.alpha - n as real * p.fade
  {
    if n > 0 {
      StepsLinear(p, n - 1);
      var m := (n - 1) as real;
      assert n as real == m + 1.0;
      MulSucc(m, p.vx);
      MulSucc(m, p.gravity);
      MulSucc(m, p.fade);
    }
  }

  /**
   Closed form of `n` frames, second part: because `vy` is updated before
   the move, the height after `n` frames carries gravity n(n+1)/2 times.
   */
  lemma {:induction false} StepsHeight(p: Particle, n: nat)
    ensures Steps(p, n).y == p.y + n as real * p.vy + p.gravity * (n as real * (n as real + 1.0) / 2.0)
  {
    if n > 0 {
      StepsHeight(p, n - 1);
      StepsLinear(p, n);
      var k := n as real;
      var m := (n - 1) as real;
      var g := p.gravity;
      assert m * (m + 1.0) / 2.0 + k == k * (k + 1.0) / 2.0;
      assert g * (m * (m + 1.0) / 2.0) + g * k == g * (k * (k + 1.0) / 2.0);
      assert m * p.vy + p.vy == k * p.vy;
    }
  }

  /** Closed form of `n` frames, third part: the size shrinks geometrically. */
  lemma {:induction false} StepsSize(p: Particle, n: nat)
    ensures Steps(p, n).size == p.size * Power(p.shrink, n)
  {
    if n > 0 {
      StepsSize(p, n - 1);
      StepsLinear(p, n - 1);
      var s := p.shrink;
      assert (p.size * Power(s, n - 1)) * s == p.size * (s * Power(s, n - 1));
    }
  }

  /** The fade and shrink of a particle never brighten or grow it. */
  predicate Decaying(p: Particle)
  {
    0.0 <= p.fade && 0.0 <= p.shrink <= 1.0
  }

  /** Every particle of the burst keeps decaying. */
  predicate AllDecaying(e: Explosion)
  {
    forall i :: 0 <= i < |e.particles| ==> Decaying(e.particles[i])
  }

  /** A dead particle stays dead while its fade is non-negative and its shrink at most one. */
  lemma DeadStaysDead(p: Particle)
    requires Dead(p) && Decaying(p)
    ensures Dead(StepParticle(p))
  {
    if p.alpha > 0.0 {
      assert p.size <= 0.5;
      if p.size >= 0.0 {
        assert p.size - p.size * p.shrink == p.size * (1.0 - p.shrink);
        ProductBounds(p.size, 1.0 - p.shrink, 0.0, p.size + 1.0, 0.0, 2.0);
      } else {
        assert p.size * p.shrink <= 0.0;
      }
    }
  }

  /** A burst after `n` frames. */
  function ExplosionSteps(e: Explosion, n: nat): Explosion
  {
    if n == 0 then e else StepExplosion(ExplosionSteps(e, n - 1))
  }

  /** Advancing a burst `n` frames advances each of its particles `n` frames. */
  lemma {:induction false} ExplosionStepsPointwise(e: Explosion, n: nat)
    ensures |ExplosionSteps(e, n).particles| == |e.particles|
    ensures forall i :: 0 <= i < |e.particles| ==> ExplosionSteps(e, n).particles[i] == Steps(e.particles[i], n)
  {
    if n > 0 {
      ExplosionStepsPointwise(e, n - 1);
    }
  }

  /**
   A burst of decaying particles that is all dead stays all dead in every
   later frame, so removing it the frame it dies loses nothing visible.
   */
  lemma {:induction false} DeadBurstStaysDead(e: Explosion, n: nat)
    requires AllDead(e) && AllDecaying(e)
    ensures AllDead(ExplosionSteps(e, n))
  {
    if n > 0 {
      DeadBurstStaysDead(e, n - 1);
      var prev := ExplosionSteps(e, n - 1);
      ExplosionStepsPointwise(e, n - 1);
      forall i | 0 <= i < |prev.particles|
        ensures Dead(StepExplosion(prev).particles[i])
      {
        StepsLinear(e.particles[i], n - 1);
        DeadStaysDead(prev.particles[i]);
      }
    }
  }

  /** A burst spawned by a hit has a live particle and only decaying particles. */
  lemma SpawnedExplosionIsLive(b: Balloon, rgb: Rgb, draws: seq<SparkDraws>)
    requires |draws| == PARTICLES_PER_EXPLOSION
    ensures !AllDead(CreateExplosion(b, rgb, draws))
    ensures AllDecaying(CreateExplosion(b, rgb, draws))
  {
    var e := CreateExplosion(b, rgb, draws);
    assert !Dead(e.particles[0]);
  }

  /** A burst spawned by a hit is not pruned in the frame after it appears. */
  lemma SpawnedExplosionSurvivesFirstFrame(b: Balloon, rgb: Rgb, draws: seq<SparkDraws>)
    requires |draws| == PARTICLES_PER_EXPLOSION
    ensures !AllDead(StepExplosion(CreateExplosion(b, rgb, draws)))
  {
    var e := CreateExplosion(b, rgb, draws);
    var p := e.particles[0];
    ProductBounds(p.size, p.shrink, 4.0, p.size + 1.0, 0.985, 1.0);
    assert !Dead(StepExplosion(e).particles[0]);
  }

  /** Every particle of a burst spawned by a hit is dead after FADE_OUT_FRAMES frames. */
  lemma SpawnedExplosionFadesOut(b: Balloon, rgb: Rgb, draws: seq<SparkDraws>)
    requires |draws| == PARTICLES_PER_EXPLOSION
    ensures AllDead(ExplosionSteps(CreateExplosion(b, rgb, draws), FADE_OUT_FRAMES))
  {
    var e := CreateExplosion(b, rgb, draws);
    ExplosionStepsPointwise(e, FADE_OUT_FRAMES);
    forall i | 0 <= i < |e.particles|
      ensures Dead(ExplosionSteps(e, FADE_OUT_FRAMES).particles[i])
    {
      StepsLinear(e.particles[i], FADE_OUT_FRAMES);
    }
  }

}
