/**
 The game state and its two entry points: the frame callback `draw` and
 the click handler `mousePressed`.
 */
module Game {

  import opened Rand
  import opened Palette
  import opened Wrappers
  import opened Balloons
  import opened Explosions

  /** Everything the two handlers mutate. */
  datatype State = State(balloons: seq<Balloon>, explosions: seq<Explosion>, score: int)

  /** The canvas bounds the random positions are drawn against. */
  datatype Canvas = Canvas(width: real, height: real)

  /** The draws a hit consumes: thirty particles, then the balloon's reset. */
  datatype ClickDraws = ClickDraws(sparks: seq<SparkDraws>, reset: ResetDraws)

  /**
   A burst as it sits in the state between frames: its full count of
   particles, at least one of them live, and all of them decaying.
   */
  predicate OnScreen(e: Explosion)
  {
    |e.particles| == PARTICLES_PER_EXPLOSION && !AllDead(e) && AllDecaying(e)
  }

  /**
   The state invariant: the field holds exactly NUM_CIRCLES balloons, each
   with attributes in their drawn ranges, and every burst is on screen, so
   no dead burst lingers.
   */
  predicate Valid(g: State)
  {
    && |g.balloons| == NUM_CIRCLES
    && (forall i :: 0 <= i < |g.balloons| ==> Drawn(g.balloons[i]))
    && (forall i :: 0 <= i < |g.explosions| ==> OnScreen(g.explosions[i]))
  }

  /**
   The state part of `draw`: every balloon rises (draws[i] feeds balloon
   i's recycling), then every burst advances and the dead ones are removed.
   The score is untouched.
   */
  function Frame(g: State, c: Canvas, draws: seq<ResetDraws>): (g': State)
    requires |draws| == |g.balloons|
    ensures |g'.balloons| == |g.balloons|
    ensures forall i :: 0 <= i < |g.balloons| ==> g'.balloons[i] == Rise(g.balloons[i], c.width, c.height, draws[i])
    ensures g'.explosions == Prune(StepAll(g.explosions))
    ensures g'.score == g.score
  {
    State(RiseAll(g.balloons, c.width, c.height, draws), Prune(StepAll(g.explosions)), g.score)
  }

  /**
   The state part of `mousePressed` at (mx, my): the topmost balloon under
   the cursor scores, spawns a burst from its current centre and is then
   recycled; a click on empty canvas changes nothing. `rgbOf` gives the
   colour components p5 derives from a hex string.
   */
  function Click(g: State, c: Canvas, mx: real, my: real, rgbOf: string -> Rgb, d: ClickDraws): (g': State)
    requires |d.sparks| == PARTICLES_PER_EXPLOSION
    ensures |g'.balloons| == |g.balloons|
    ensures g' == g <==> forall j :: 0 <= j < |g.balloons| ==> !Hits(g.balloons[j], mx, my)
    ensures g'.score - g.score in {-1, 0, 1}
    ensures forall i, j :: 0 <= i < j < |g.balloons| && g'.balloons[i] != g.balloons[i] ==> g'.balloons[j] == g.balloons[j]
  {
    match HitIndex(g.balloons, mx, my)
    case None => g
    case Some(k) =>
      var b := g.balloons[k];
      State(
        g.balloons[k := Reset(b, c.width, c.height, d.reset)],
        g.explosions + [CreateExplosion(b, rgbOf(b.hex), d.sparks)],
        g.score + ScoreDelta(b.hex))
  }

  /**
   What a click on the topmost balloon `k` under the cursor does: the score
   moves by one in the direction of the balloon's colour, one burst of
   thirty particles is appended around the balloon's centre before the
   reset, the balloon goes below the bottom edge with fresh attributes, and
   every other balloon and every existing burst is kept.
   */
  lemma ClickOnTopmost(g: State, c: Canvas, mx: real, my: real, rgbOf: string -> Rgb, d: ClickDraws, k: nat)
    requires |d.sparks| == PARTICLES_PER_EXPLOSION
    requires k < |g.balloons| && Hits(g.balloons[k], mx, my)
    requires forall j :: k < j < |g.balloons| ==> !Hits(g.balloons[j], mx, my)
    ensures var g' := Click(g, c, mx, my, rgbOf, d);
      && (IsBonus(g.balloons[k].hex) ==> g'.score == g.score + 1)
      && (!IsBonus(g.balloons[k].hex) ==> g'.score == g.score - 1)
      && |g'.explosions| == |g.explosions| + 1
      && g'.explosions[..|g.explosions|] == g.explosions
      && |g'.explosions[|g.explosions|].particles| == PARTICLES_PER_EXPLOSION
      && (forall i :: 0 <= i < PARTICLES_PER_EXPLOSION ==>
            Abs(g'.explosions[|g.explosions|].particles[i].x - g.balloons[k].x) <= Abs(g.balloons[k].r) / 6.0
            && Abs(g'.explosions[|g.explosions|].particles[i].y - g.balloons[k].y) <= Abs(g.balloons[k].r) / 6.0)
      && g'.balloons[k].y == c.height + g.balloons[k].r / 2.0
      && Drawn(g'.balloons[k])
      && (forall j :: 0 <= j < |g.balloons| && j != k ==> g'.balloons[j] == g.balloons[j])
  {
    HitIndexIsTopmost(g.balloons, mx, my, k);
  }

  /** Of two overlapping balloons under the cursor, the earlier one is left alone. */
  lemma ClickTieBreak(g: State, c: Canvas, mx: real, my: real, rgbOf: string -> Rgb, d: ClickDraws, i: nat, j: nat)
    requires |d.sparks| == PARTICLES_PER_EXPLOSION
    requires i < j < |g.balloons|
    requires Hits(g.balloons[i], mx, my) && Hits(g.balloons[j], mx, my)
    ensures Click(g, c, mx, my, rgbOf, d).balloons[i] == g.balloons[i]
  {
    HitTieBreak(g.balloons, mx, my, i, j);
  }

  /** A frame keeps the state invariant. */
  lemma FrameKeepsValid(g: State, c: Canvas, draws: seq<ResetDraws>)
    requires Valid(g) && |draws| == |g.balloons|
    ensures Valid(Frame(g, c, draws))
  {
    var g' := Frame(g, c, draws);
    forall i | 0 <= i < |g.balloons|
      ensures Drawn(g'.balloons[i])
    {
      RisePreservesDrawn(g.balloons[i], c.width, c.height, draws[i]);
    }
    var stepped := StepAll(g.explosions);
    forall i | 0 <= i < |g'.explosions|
      ensures OnScreen(g'.explosions[i])
    {
      var kept := g'.explosions[i];
      PruneKeepsExactlyLive(stepped, kept);
      var m :| 0 <= m < |stepped| && stepped[m] == kept;
      assert kept == StepExplosion(g.explosions[m]);
      assert OnScreen(g.explosions[m]);
    }
  }

  /**
   A burst that dies in a frame is gone from the state after that frame,
   and, left alone, it would have stayed dead in every later frame.
   */
  lemma FrameDropsDyingBurst(g: State, c: Canvas, draws: seq<ResetDraws>, i: nat, n: nat)
    requires Valid(g) && |draws| == |g.balloons|
    requires i < |g.explosions| && AllDead(StepExplosion(g.explosions[i]))
    ensures StepExplosion(g.explosions[i]) !in Frame(g, c, draws).explosions
    ensures AllDead(ExplosionSteps(StepExplosion(g.explosions[i]), n))
  {
    var dying := StepExplosion(g.explosions[i]);
    PruneKeepsExactlyLive(StepAll(g.explosions), dying);
    assert OnScreen(g.explosions[i]);
    DeadBurstStaysDead(dying, n);
  }

  /** A click keeps the state invariant. */
  lemma ClickKeepsValid(g: State, c: Canvas, mx: real, my: real, rgbOf: string -> Rgb, d: ClickDraws)
    requires Valid(g) && |d.sparks| == PARTICLES_PER_EXPLOSION
    ensures Valid(Click(g, c, mx, my, rgbOf, d))
  {
    var g' := Click(g, c, mx, my, rgbOf, d);
    match HitIndex(g.balloons, mx, my)
    case None =>
    case Some(k) =>
      var burst := CreateExplosion(g.balloons[k], rgbOf(g.balloons[k].hex), d.sparks);
      assert g'.balloons == g.balloons[k := Reset(g.balloons[k], c.width, c.height, d.reset)];
      assert g'.explosions == g.explosions + [burst];
      forall i | 0 <= i < |g'.balloons|
        ensures Drawn(g'.balloons[i])
      {
        if i != k {
          assert g'.balloons[i] == g.balloons[i];
        }
      }
      SpawnedExplosionIsLive(g.balloons[k], rgbOf(g.balloons[k].hex), d.sparks);
      forall i | 0 <= i < |g'.explosions|
        ensures OnScreen(g'.explosions[i])
      {
        if i < |g.explosions| {
          assert g'.explosions[i] == g.explosions[i];
        }
      }
  }

  /**
   `mousePressed` as written: scan from the last balloon to the first and
   act on the first one under the cursor, then stop.
   */
  method MousePressed(g: State, c: Canvas, mx: real, my: real, rgbOf: string -> Rgb, d: ClickDraws) returns (g': State)
    requires |d.sparks| == PARTICLES_PER_EXPLOSION
    ensures g' == Click(g, c, mx, my, rgbOf, d)
  {
    var i := |g.balloons| - 1;
    while i >= 0
      invariant -1 <= i < |g.balloons|
      invariant forall j :: i < j < |g.balloons| ==> !Hits(g.balloons[j], mx, my)
    {
      var b := g.balloons[i];
      if Hits(b, mx, my) {
        HitIndexIsTopmost(g.balloons, mx, my, i);
        var score := g.score + ScoreDelta(b.hex);
        var burst := CreateExplosion(b, rgbOf(b.hex), d.sparks);
        var balloons := g.balloons[i := Reset(b, c.width, c.height, d.reset)];
        return State(balloons, g.explosions + [burst], score);
      }
      i := i - 1;
    }
    return g;
  }

  /**
   `draw` as written, on the state: the balloon loop in index order, then
   the reverse explosion loop.
   */
  method Draw(g: State, c: Canvas, draws: seq<ResetDraws>) returns (g': State)
    requires |draws| == |g.balloons|
    ensures g' == Frame(g, c, draws)
  {
    var balloons := g.balloons;
    var i := 0;
    while i < |balloons|
      invariant 0 <= i <= |balloons| == |g.balloons|
      invariant forall j :: 0 <= j < i ==> balloons[j] == Rise(g.balloons[j], c.width, c.height, draws[j])
      invariant forall j :: i <= j < |balloons| ==> balloons[j] == g.balloons[j]
    {
      balloons := balloons[i := Rise(balloons[i], c.width, c.height, draws[i])];
      i := i + 1;
    }
    var explosions := UpdateExplosions(g.explosions);
    g' := State(balloons, explosions, g.score);
  }

}
