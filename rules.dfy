/** The fixed rules of the game: the bird's and the pipes' constants, the
    collision test, where a new pipe's gap is placed, and the difficulty table.
    Everything here is pure; the state that changes lives in Simulation and
    FlappyBird. */
module Rules {

  // The bird (script.js line 9). Only y and velocity ever change.
  const BIRD_X: int := 50
  const BIRD_WIDTH: int := 20
  const BIRD_HEIGHT: int := 20
  const GRAVITY: real := 0.6
  const JUMP: real := -10.0
  const START_Y: real := 150.0

  const PIPE_WIDTH: int := 30
  /** A new pipe is spawned on every frame whose number is a multiple of this. */
  const SPAWN_INTERVAL: nat := 90
  /** Margin kept free above and below a freshly placed gap. */
  const GAP_MARGIN: int := 10

  /** A pipe: its left edge and the top of its gap. The gap's height is not
      stored per pipe; it is the game-wide pipeGap at the time of each test. */
  datatype Pipe = Pipe(x: int, y: int)

  function Min(a: real, b: real): (m: real) { if a <= b then a else b }
  function Max(a: real, b: real): (m: real) { if a <= b then b else a }

  /** The open intervals (lo1, hi1) and (lo2, hi2) share a point. */
  predicate Overlap(lo1: real, hi1: real, lo2: real, hi2: real)
  {
    Max(lo1, lo2) < Min(hi1, hi2)
  }

  /** The interval [lo1, hi1] lies inside [lo2, hi2]. */
  predicate Inside(lo1: real, hi1: real, lo2: real, hi2: real)
  {
    lo2 <= lo1 && hi1 <= hi2
  }

  /** The collision test of one pipe against the bird whose top is at birdY. */
  function Collides(birdY: real, p: Pipe, gap: int): (hit: bool)
    // the bird's box and the pipe's column overlap horizontally, and the bird
    // is not wholly inside the gap
    ensures hit <==>
      Overlap(BIRD_X as real, (BIRD_X + BIRD_WIDTH) as real, p.x as real, (p.x + PIPE_WIDTH) as real) &&
      !Inside(birdY, birdY + BIRD_HEIGHT as real, p.y as real, (p.y + gap) as real)
    // touching edges is not a collision
    ensures p.x + PIPE_WIDTH == BIRD_X || p.x == BIRD_X + BIRD_WIDTH ==> !hit
    ensures birdY == p.y as real && BIRD_HEIGHT <= gap ==> !hit
    ensures birdY + BIRD_HEIGHT as real == (p.y + gap) as real && BIRD_HEIGHT <= gap ==> !hit
  {
    BIRD_X < p.x + PIPE_WIDTH && BIRD_X + BIRD_WIDTH > p.x &&
    (birdY < p.y as real || birdY + BIRD_HEIGHT as real > (p.y + gap) as real)
  }

  /** The top of the gap of a pipe spawned with the random draw r. */
  function SpawnY(r: real, height: int, gap: int): (y: int)
    requires 0.0 <= r < 1.0
    // when the playfield is tall enough, the gap keeps a margin of at least
    // 10 above it and more than 10 below it
    ensures height - gap - 20 > 0 ==> GAP_MARGIN <= y && y + gap < height - GAP_MARGIN
    // otherwise the draw is negative or zero and the gap starts at or above 10
    ensures height - gap - 20 <= 0 ==> height - gap - 20 - 1 + GAP_MARGIN < y <= GAP_MARGIN
  {
    var span := (height - gap - 20) as real;
    var f := (r * span).Floor;
    DrawBounds(r, span);
    assert f as real <= r * span < f as real + 1.0;
    f + GAP_MARGIN
  }

  /** Where r * span lies, for a draw r in [0, 1). */
  lemma DrawBounds(r: real, span: real)
    requires 0.0 <= r < 1.0
    ensures span > 0.0 ==> 0.0 <= r * span < span
    ensures span <= 0.0 ==> span <= r * span <= 0.0
  {
    if span > 0.0 {
      ProductNonNegative(r, span);
      ProductNonNegative(1.0 - r, span);
      assert span - r * span == (1.0 - r) * span;
      assert (1.0 - r) * span != 0.0;
    } else {
      ProductNonNegative(r, -span);
      ProductNonNegative(1.0 - r, -span);
      assert r * span == -(r * -span);
      assert r * span - span == (1.0 - r) * -span;
    }
  }

  lemma ProductNonNegative(a: real, b: real)
    requires a >= 0.0 && b >= 0.0
    ensures a * b >= 0.0
  {
  }

  /** Every placement the margins allow is drawn by some r. */
  lemma SpawnYCovers(k: int, height: int, gap: int)
    requires 0 <= k < height - gap - 20
    ensures var r := k as real / (height - gap - 20) as real;
      0.0 <= r < 1.0 && SpawnY(r, height, gap) == k + GAP_MARGIN
  {
    var span := (height - gap - 20) as real;
    var r := k as real / span;
    assert r * span == k as real;
  }

  /** The gap height and scroll speed of a difficulty. */
  datatype Settings = Settings(gap: int, speed: int)

  const EASY: Settings := Settings(200, 2)
  const MEDIUM: Settings := Settings(130, 3)
  const HARD: Settings := Settings(100, 4)
  /** The settings before any choice is made; not a row of the table. */
  const INITIAL_SETTINGS: Settings := Settings(100, 2)

  /** The difficulty table: any choice other than "medium" or "hard" is easy. */
  function Difficulty(choice: string): (s: Settings)
    ensures s == EASY || s == MEDIUM || s == HARD
    ensures s == MEDIUM <==> choice == "medium"
    ensures s == HARD <==> choice == "hard"
    // harder settings have a narrower gap and a faster scroll
    ensures s.gap <= EASY.gap && s.speed >= EASY.speed
    ensures s.gap >= HARD.gap && s.speed <= HARD.speed
  {
    match choice
    case "medium" => MEDIUM
    case "hard" => HARD
    case _ => EASY
  }
}
