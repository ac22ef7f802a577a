# Balloon-popping game: a Dafny model of its simulation core

The game (a p5.js sketch in `sketch.js`) floats twenty coloured balloons up a
canvas. Clicking a balloon scores +1 for the bonus colour `#ffca3a` and −1
for any other colour, spawns a burst of 30 particles at the balloon, and
recycles the balloon below the bottom edge with fresh random attributes.
Each frame every balloon rises by its speed and is recycled once it is
entirely above the top edge; every particle falls under its own gravity,
fades and shrinks, and a burst is removed once all of its particles are dead.

This project models that state machine with immutable records and pure
functions over `real`:

- `rand.dfy` (`Rand`): p5's `random(m)`, `random(a, b)` (with its swap of
  reversed bounds) and `random(xs)`, each consuming one caller-supplied draw
  in [0, 1). All ranges below are derived from these, not assumed.
- `palette.dfy` (`Palette`): the five colours, ASCII `toLowerCase`, and the
  ±1 scoring rule.
- `balloons.dfy` (`Balloons`): the balloon record, `resetCircle`, the
  per-frame rise with its strict recycle test, and the reverse hit scan.
  `r` is the circle's diameter, as in the source, so a hit means a distance
  of at most `r / 2`, written as `dx*dx + dy*dy <= (r/2)*(r/2)` together
  with `r/2 >= 0` (exactly `dist(...) <= r/2`, without the square root).
- `explosions.dfy` (`Explosions`): particle creation, the particle step,
  the "all dead" test, pruning as an order-keeping filter, the reverse
  splice loop of `draw`, closed forms for `n` frames and the lifetime of a
  fresh burst.
- `game.dfy` (`Game`): the state (balloons, bursts, score), the frame and
  click transitions, the state invariant (which also says no dead burst
  lingers between frames), and the two handler loops as
  written (`MousePressed`, `Draw`), each proved equal to its transition.

Three facts about the code shape the model: `r` is the circle's diameter,
drawn from [50, 200) (half-open, as `random` is); a recycled balloon's `y`
is the canvas height plus half of its diameter *before* the re-draw, so
only its centre is guaranteed to be below the bottom edge; and a burst
whose particles all die in a frame is removed in that same frame, right
after the step.

## Model

| member | source | states |
|---|---|---|
| Palette.ScoreDelta | sketch.js:178-181 | a hit changes the score by exactly +1 or −1, and by +1 exactly when the colour lower-cases to `#ffca3a` |
| Palette.ExactlyOneBonusColour | sketch.js:4-4 | of the five palette colours exactly the second, `#ffca3a`, scores +1 |
| Palette.BonusIgnoresCase | sketch.js:180-180 | the bonus test is case-insensitive: a colour scores like its lower-case form |
| Balloons.Reset | sketch.js:151-159 | the recycled balloon sits at height plus half its previous diameter (so below the bottom edge), with x in [0, width), diameter in [50, 200), a palette colour, alpha in [80, 255) and speed in [1, 5) |
| Balloons.Rise | sketch.js:48-53 | a balloon rises by exactly its speed and keeps every other field unless its lowest point is then strictly above the top edge, in which case it is recycled below the bottom edge |
| Balloons.RecycleBoundaryIsStrict | sketch.js:51-53 | a balloon whose lowest point lands exactly on the top edge is not recycled |
| Balloons.AboveTopIsRecycled | sketch.js:49-53 | a balloon that rises entirely above the top edge reappears below the bottom edge with attributes in their ranges |
| Balloons.RisePreservesDrawn | sketch.js:48-53 | every balloon keeps its attributes within the drawn ranges across a frame |
| Balloons.HitBelow | sketch.js:175-178 | scanning indices n−1 down to 0, the result is the highest index under the cursor, and none is found exactly when no balloon below n is under the cursor |
| Balloons.HitIndex | sketch.js:175-186 | a click finds a balloon exactly when some balloon is under the cursor, and the one found is under the cursor with none above it |
| Balloons.HitIndexIsTopmost | sketch.js:175-187 | the highest-indexed balloon under the cursor is the one acted on |
| Balloons.HitTieBreak | sketch.js:175-187 | of two overlapping balloons under the cursor, the later one wins |
| Explosions.LaunchSpeed | sketch.js:130-130 | a particle's launch speed lies in [0.2, 3.5) |
| Explosions.Spark | sketch.js:129-146 | a new particle starts within a sixth of the diameter of the balloon's centre, moves at the launch speed, has colour within ±20 of the balloon's, alpha in [180, 255), fade in [2, 6), size in [4, max(6, r/12)), shrink in [0.985, 0.995) and gravity in [0.015, 0.045) |
| Explosions.CreateExplosion | sketch.js:127-148 | a burst has exactly 30 particles, each fresh and within a sixth of the diameter of the balloon's centre |
| Explosions.StepParticle | sketch.js:75-79 | gravity is added to `vy` before the move, the particle moves by the updated velocity, alpha drops by the fade and the size is multiplied by the shrink, and velocity sideways, gravity, colour, fade and shrink never change |
| Explosions.StepsLinear | sketch.js:74-79 | after n frames x has moved n·vx, vy has gained n·gravity and alpha has lost n·fade |
| Explosions.StepsHeight | sketch.js:75-77 | after n frames y has moved n·vy + gravity·n(n+1)/2, the extra n counting the update of `vy` before the move |
| Explosions.StepsSize | sketch.js:79-79 | after n frames the size is the initial size times shrink to the n-th power |
| Explosions.DeadStaysDead | sketch.js:78-84 | a dead particle (alpha ≤ 0 or size ≤ 0.5) stays dead in the next frame while fade ≥ 0 and 0 ≤ shrink ≤ 1 |
| Explosions.DeadBurstStaysDead | sketch.js:74-84 | a burst of decaying particles that is all dead stays all dead for any number of further frames |
| Explosions.Prune | sketch.js:84-85 | pruning never lengthens the list and keeps only bursts with a live particle |
| Explosions.PruneKeepsExactlyLive | sketch.js:84-85 | a burst survives pruning if and only if it was in the list and not all of its particles are dead |
| Explosions.PruneAppend | sketch.js:72-87 | pruning distributes over concatenation, so survivors keep their relative order |
| Explosions.PruneKeepsLiveList | sketch.js:84-86 | a list of bursts that each have a live particle is left as it is |
| Explosions.UpdateExplosions | sketch.js:72-87 | the reverse-index loop that advances each burst and splices out the dead ones yields exactly the order-keeping filter of the advanced list, skipping and repeating nothing |
| Explosions.ExplosionStepsPointwise | sketch.js:74-79 | n frames of a burst are n frames of each of its particles, and the particle count is kept |
| Explosions.SpawnedExplosionIsLive | sketch.js:142-145 | a freshly spawned burst has a live particle, and every particle has fade ≥ 0 and shrink in [0, 1] |
| Explosions.SpawnedExplosionSurvivesFirstFrame | sketch.js:142-145 | a freshly spawned burst still has a live particle after its first frame, so it is not removed then |
| Explosions.SpawnedExplosionFadesOut | sketch.js:142-143 | every particle of a freshly spawned burst is dead after 128 frames, since alpha starts below 255 and fades by at least 2 per frame |
| Game.Frame | sketch.js:48-87 | a frame keeps the number of balloons and the score, updates each balloon independently, and leaves exactly the live advanced bursts in order |
| Game.Click | sketch.js:175-188 | a click keeps the number of balloons, changes the score by −1, 0 or +1, changes at most one balloon, and leaves the state unchanged exactly when no balloon is under the cursor |
| Game.ClickOnTopmost | sketch.js:175-187 | hitting the topmost balloon k scores ±1 by its colour, appends one burst of 30 particles around its pre-reset centre, recycles balloon k below the bottom edge with fresh attributes, and keeps every other balloon and burst |
| Game.ClickTieBreak | sketch.js:174-187 | the earlier of two overlapping balloons under the cursor is not touched |
| Game.FrameKeepsValid | sketch.js:48-87 | a frame keeps twenty balloons with attributes in range, and every burst left has thirty decaying particles of which at least one is live |
| Game.FrameDropsDyingBurst | sketch.js:72-87 | a burst whose particles all die in a frame is absent from the state after that frame, and would have stayed dead in every later frame |
| Game.ClickKeepsValid | sketch.js:175-188 | a click keeps twenty balloons with attributes in range, and every burst, including the new one, has thirty decaying particles of which at least one is live |
| Game.MousePressed | sketch.js:175-188 | the reverse scan with its early stop computes exactly the click transition |
| Game.Draw | sketch.js:48-87 | the balloon loop followed by the reverse explosion loop computes exactly the frame transition |

## Left out

- Drawing (background, balloons, the highlight square, particles, score and student-number text, the audio hint) is rendering with no effect on the state.
- Sound loading, playback and the `userStartAudio` unlock are asynchronous foreign calls whose failures never reach the state.
- `setup`, `createCanvas` and `windowResized` are host plumbing; the initial population is therefore not modelled, and `Valid` is shown to be kept by every frame and click, not established at start.
- The random generator itself: every `random` call is a caller-supplied draw in [0, 1), and a frame takes one set of reset draws per balloon, which can represent any values the shared stream would produce. A click is given exactly the thirty particle draws and one reset draw a hit consumes (the two sound draws, volume and rate, go with the left-out sound); a miss ignores them.
- The particle direction: `random(TWO_PI)` with `cos` and `sin` is replaced by a supplied unit vector (`Direction`), so only the launch speed and the length of the velocity are modelled.
- p5 colour conversion: `color(hex)` with `red`, `green` and `blue` is a caller-supplied function `rgbOf`; the balloon's derived `color` field and its `setAlpha` are drawing state and are not kept.
- `toLowerCase` is modelled for ASCII letters only; every colour the game can hold is ASCII.
- IEEE floating-point rounding, NaN and infinities: all quantities are exact reals.
