/**
 The balloon field: the records that float up the canvas, their recycling
 below the bottom edge, the per-frame rise, and the point-in-circle hit test.
 */
module Balloons {

  import opened Rand
  import opened Palette
  import opened Wrappers

  /** Number of balloons on the field, fixed for the whole game. */
  const NUM_CIRCLES: nat := 20

  /**
   One balloon. `r` is the diameter (the circle is drawn with size `r`), so
   the balloon covers the points within `r / 2` of its centre.
   */
  datatype Balloon = Balloon(x: real, y: real, r: real, hex: string, alpha: real, speed: real)

  /** The five draws `resetCircle` consumes, in the order it consumes them. */
  datatype ResetDraws = ResetDraws(x: Unit, r: Unit, hex: Unit, alpha: Unit, speed: Unit)

  /** The attributes of a balloon lie in the ranges they are drawn from. */
  predicate Drawn(b: Balloon)
  {
    && 50.0 <= b.r < 200.0
    && b.hex in COLORS
    && 80.0 <= b.alpha < 255.0
    && 1.0 <= b.speed < 5.0
  }

  /**
   `resetCircle`: the balloon moves below the bottom edge by half of its
   radius before the re-draw, then takes a fresh x, diameter, colour,
   alpha and speed.
   */
  function Reset(b: Balloon, width: real, height: real, d: ResetDraws): (b': Balloon)
    ensures b'.y == height + b.r / 2.0
    ensures 0.0 < b.r ==> b'.y > height
    ensures 0.0 <= width ==> 0.0 <= b'.x <= width
    ensures 0.0 < width ==> b'.x < width
    ensures Drawn(b')
  {
    Balloon(
      x := Below(width, d.x),
      y := height + b.r / 2.0,
      r := Between(50.0, 200.0, d.r),
      hex := Pick(COLORS, d.hex),
      alpha := Between(80.0, 255.0, d.alpha),
      speed := Between(1.0, 5.0, d.speed))
  }

  /** After rising by its speed, the balloon's lowest point is above the top edge. */
  predicate LeavesTop(b: Balloon)
  {
    (b.y - b.speed) + b.r / 2.0 < 0.0
  }

  /**
   One frame of a balloon in `draw`: it rises by its speed, and is recycled
   exactly when its lowest point is then strictly above the top edge.
   */
  function Rise(b: Balloon, width: real, height: real, d: ResetDraws): (b': Balloon)
    ensures !LeavesTop(b) ==> b' == b.(y := b.y - b.speed)
    ensures !LeavesTop(b) ==> b'.y + b'.r / 2.0 >= 0.0
    ensures LeavesTop(b) ==> b'.y == height + b.r / 2.0 && Drawn(b')
  {
    var moved := b.(y := b.y - b.speed);
    if moved.y + moved.r / 2.0 < 0.0 then Reset(moved, width, height, d) else moved
  }

  /** The per-frame update of every balloon; draws[i] feeds balloon i's recycling. */
  function RiseAll(bs: seq<Balloon>, width: real, height: real, draws: seq<ResetDraws>): (bs': seq<Balloon>)
    requires |draws| == |bs|
    ensures |bs'| == |bs|
    ensures forall i :: 0 <= i < |bs| ==> bs'[i] == Rise(bs[i], width, height, draws[i])
  {
    seq(|bs|, i requires 0 <= i < |bs| => Rise(bs[i], width, height, draws[i]))
  }

  /**
   `dist(mx, my, x, y) <= r / 2` without the square root: for a
   non-negative half-diameter the two comparisons agree, and for a negative
   one no distance qualifies.
   */
  predicate Hits(b: Balloon, mx: real, my: real)
  {
    var dx := mx - b.x;
    var dy := my - b.y;
    var half := b.r / 2.0;
    0.0 <= half && dx * dx + dy * dy <= half * half
  }

  /**
   The scan of `mousePressed` over the first `n` balloons, from index
   `n - 1` down to 0: the first balloon hit is the highest-indexed one.
   */
  function HitBelow(bs: seq<Balloon>, mx: real, my: real, n: nat): (k: Option<nat>)
    requires n <= |bs|
    ensures k.Some? ==> k.value < n && Hits(bs[k.value], mx, my)
    ensures k.Some? ==> forall j :: k.value < j < n ==> !Hits(bs[j], mx, my)
    ensures k.None? <==> forall j :: 0 <= j < n ==> !Hits(bs[j], mx, my)
    decreases n
  {
    if n == 0 then None
    else if Hits(bs[n - 1], mx, my) then Some(n - 1)
    else HitBelow(bs, mx, my, n - 1)
  }

  /** The balloon a click at (mx, my) acts on, if any. */
  function HitIndex(bs: seq<Balloon>, mx: real, my: real): (k: Option<nat>)
    ensures k.Some? <==> exists j :: 0 <= j < |bs| && Hits(bs[j], mx, my)
    ensures k.Some? ==> k.value < |bs| && Hits(bs[k.value], mx, my)
    ensures k.Some? ==> forall j :: k.value < j < |bs| ==> !Hits(bs[j], mx, my)
  {
    HitBelow(bs, mx, my, |bs|)
  }

  /** The highest-indexed balloon hit is the one reported, whatever lies below it. */
  lemma HitIndexIsTopmost(bs: seq<Balloon>, mx: real, my: real, k: nat)
    requires k < |bs| && Hits(bs[k], mx, my)
    requires forall j :: k < j < |bs| ==> !Hits(bs[j], mx, my)
    ensures HitIndex(bs, mx, my) == Some(k)
  {
  }

  /** Of two overlapping balloons under the click, the later one is taken. */
  lemma HitTieBreak(bs: seq<Balloon>, mx: real, my: real, i: nat, j: nat)
    requires i < j < |bs|
    requires Hits(bs[i], mx, my) && Hits(bs[j], mx, my)
    ensures HitIndex(bs, mx, my).Some?
    ensures HitIndex(bs, mx, my).value >= j
  {
  }

  /** A balloon stays drawn from its ranges through every frame. */
  lemma RisePreservesDrawn(b: Balloon, width: real, height: real, d: ResetDraws)
    requires Drawn(b)
    ensures Drawn(Rise(b, width, height, d))
  {
  }

  /**
   The recycle boundary is strict: a balloon whose lowest point lands
   exactly on the top edge keeps rising and is not recycled.
   */
  lemma RecycleBoundaryIsStrict(b: Balloon, width: real, height: real, d: ResetDraws)
    requires (b.y - b.speed) + b.r / 2.0 == 0.0
    ensures Rise(b, width, height, d) == b.(y := -(b.r / 2.0))
  {
  }

  /** A balloon entirely above the top edge after its rise starts again below the bottom edge. */
  lemma AboveTopIsRecycled(b: Balloon, width: real, height: real, d: ResetDraws)
    requires 0.0 < b.r
    requires (b.y - b.speed) + b.r / 2.0 < 0.0
    ensures Rise(b, width, height, d).y > height
    ensures Drawn(Rise(b, width, height, d))
  {
  }

}
