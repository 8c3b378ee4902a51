/** The game's state as a value, and what each handler of the game does to
    it. FlappyBird.Game holds this state in mutable fields and each of its
    methods is proved to act as the function of the same handler here. */
module Simulation {
  import opened Rules
  import opened Sweep

  /** Everything a handler reads or writes (the canvas size aside, which
      never changes). */
  datatype GameState = GameState(
    y: real,            // top of the bird
    velocity: real,     // of the bird, downwards positive
    pipes: seq<Pipe>,   // oldest first
    frame: nat,
    score: nat,
    over: bool,
    gap: int,           // current pipeGap
    speed: int          // current pipeSpeed
  )

  /** The state the page loads with. */
  const INITIAL: GameState :=
    GameState(START_Y, 0.0, [], 0, 0, false, INITIAL_SETTINGS.gap, INITIAL_SETTINGS.speed)

  /** endGame: raise the game-over flag. Raising it again changes nothing. */
  function Ended(s: GameState): (t: GameState)
    ensures t.over
    ensures t.(over := s.over) == s
    ensures s.over ==> t == s
  {
    s.(over := true)
  }

  /** updateBird: one semi-implicit Euler step, then the ground test. */
  function BirdStep(s: GameState, height: nat): (t: GameState)
    ensures t.velocity == s.velocity + GRAVITY
    ensures t.y == s.y + t.velocity
    // the bird is past the ground when its bottom is strictly below the canvas
    ensures t.over <==> s.over || t.y + BIRD_HEIGHT as real > height as real
    // no other part of the state changes
    ensures t.(y := s.y, velocity := s.velocity, over := s.over) == s
  {
    var v := s.velocity + GRAVITY;
    var moved := s.(velocity := v, y := s.y + v);
    if moved.y + BIRD_HEIGHT as real > height as real then Ended(moved) else moved
  }

  /** The queue after the spawning part of updatePipes. */
  function Spawned(s: GameState, width: nat, height: nat, r: real): (pipes: seq<Pipe>)
    requires 0.0 <= r < 1.0
    ensures s.frame % SPAWN_INTERVAL != 0 ==> pipes == s.pipes
    // on a spawn frame one pipe is added at the tail, at the right edge,
    // and the older pipes keep their order
    ensures s.frame % SPAWN_INTERVAL == 0 ==>
      |pipes| == |s.pipes| + 1 && pipes[..|s.pipes|] == s.pipes && pipes[|s.pipes|].x == width &&
      (height - s.gap - 20 > 0 ==>
        GAP_MARGIN <= pipes[|s.pipes|].y && pipes[|s.pipes|].y + s.gap < height - GAP_MARGIN)
  {
    if s.frame % SPAWN_INTERVAL == 0 then s.pipes + [Pipe(width, SpawnY(r, height, s.gap))]
    else s.pipes
  }

  /** updatePipes: spawn, then one pass of the pipe loop. */
  function PipeStep(s: GameState, width: nat, height: nat, r: real): (t: GameState)
    requires 0.0 <= r < 1.0
    // each point scored removed exactly one pipe
    ensures t.score >= s.score
    ensures |t.pipes| + (t.score - s.score) == |s.pipes| + (if s.frame % SPAWN_INTERVAL == 0 then 1 else 0)
    ensures s.over ==> t.over
    // the bird, the frame counter and the difficulty are untouched
    ensures t.(pipes := s.pipes, score := s.score, over := s.over) == s
  {
    var out := Pass(Spawned(s, width, height, r), s.speed, s.gap, s.y);
    s.(pipes := out.pipes, score := s.score + out.retired, over := s.over || out.hit)
  }

  /** gameLoop without the drawing: nothing once the game is over; otherwise
      the bird step, the pipe step (even when the bird step has just ended
      the game) and the frame count. */
  function Tick(s: GameState, width: nat, height: nat, r: real): (t: GameState)
    requires 0.0 <= r < 1.0
    ensures s.over ==> t == s
    ensures !s.over ==> t.frame == s.frame + 1 && t.velocity == s.velocity + GRAVITY && t.y == s.y + t.velocity
    // a running frame is the bird step followed by the pipe step, even when
    // the bird step has just ended the game
    ensures !s.over ==> t.(frame := s.frame) == PipeStep(BirdStep(s, height), width, height, r)
    ensures !s.over && t.y + BIRD_HEIGHT as real > height as real ==> t.over
    ensures t.score >= s.score
    ensures s.over ==> t.over
    ensures t.gap == s.gap && t.speed == s.speed
  {
    if s.over then s
    else
      var p := PipeStep(BirdStep(s, height), width, height, r);
      p.(frame := p.frame + 1)
  }

  /** The frame on which the bird reaches the ground ends the game, yet its
      pipes still scroll, retire and score as one pass of the pipe loop over
      the spawned queue, tested against the fallen bird. */
  lemma GroundFrameStillMovesPipes(s: GameState, width: nat, height: nat, r: real)
    requires 0.0 <= r < 1.0
    requires !s.over && s.y + s.velocity + GRAVITY + BIRD_HEIGHT as real > height as real
    ensures var t := Tick(s, width, height, r);
      var b := BirdStep(s, height);
      var out := Pass(Spawned(b, width, height, r), s.speed, s.gap, b.y);
      t.over && t.frame == s.frame + 1 &&
      t.pipes == out.pipes && t.score == s.score + out.retired
  {
    var b := BirdStep(s, height);
    assert b.over && b.speed == s.speed && b.gap == s.gap && b.score == s.score;
  }

  /** The click and Space handlers: an absolute set of the velocity, only
      while the game runs. */
  function Jump(s: GameState): (t: GameState)
    ensures s.over ==> t == s
    ensures !s.over ==> t.velocity == JUMP && t.(velocity := s.velocity) == s
  {
    if s.over then s else s.(velocity := JUMP)
  }

  /** The difficulty change handler. */
  function ApplyDifficulty(s: GameState, choice: string): (t: GameState)
    ensures Settings(t.gap, t.speed) == Difficulty(choice)
    ensures t.(gap := s.gap, speed := s.speed) == s
  {
    var d := Difficulty(choice);
    s.(gap := d.gap, speed := d.speed)
  }

  /** resetGame: back to the starting state, keeping the difficulty. */
  function Reset(s: GameState): (t: GameState)
    ensures t == INITIAL.(gap := s.gap, speed := s.speed)
    ensures !t.over && t.pipes == [] && t.score == 0 && t.frame == 0
  {
    s.(y := START_Y, velocity := 0.0, pipes := [], frame := 0, score := 0, over := false)
  }

  /** Every draw is a possible value of Math.random(). */
  predicate Draws(draws: seq<real>)
  {
    forall i :: 0 <= i < |draws| ==> 0.0 <= draws[i] < 1.0
  }

  /** The game left to itself for |draws| frames, without input. */
  function Run(s: GameState, width: nat, height: nat, draws: seq<real>): (t: GameState)
    requires Draws(draws)
    ensures t.score >= s.score
    ensures s.over ==> t == s
    ensures !t.over ==> !s.over && t.frame == s.frame + |draws|
    ensures t.gap == s.gap && t.speed == s.speed
    decreases |draws|
  {
    if draws == [] then s else Run(Tick(s, width, height, draws[0]), width, height, draws[1..])
  }

  /** Running a + b is running a, then b. */
  lemma {:induction false} RunAppend(s: GameState, width: nat, height: nat, a: seq<real>, b: seq<real>)
    requires Draws(a) && Draws(b)
    ensures Draws(a + b)
    ensures Run(s, width, height, a + b) == Run(Run(s, width, height, a), width, height, b)
    decreases |a|
  {
    assert Draws(a + b) by {
      forall i | 0 <= i < |a + b| ensures 0.0 <= (a + b)[i] < 1.0 {
        if i < |a| { assert (a + b)[i] == a[i]; } else { assert (a + b)[i] == b[i - |a|]; }
      }
    }
    if a == [] {
      assert a + b == b;
    } else {
      var t := Tick(s, width, height, a[0]);
      assert (a + b)[0] == a[0];
      assert (a + b)[1..] == a[1..] + b;
      calc {
        Run(s, width, height, a + b);
        Run(t, width, height, a[1..] + b);
        { RunAppend(t, width, height, a[1..], b); }
        Run(Run(t, width, height, a[1..]), width, height, b);
      }
    }
  }

  /** How far a bird starting at velocity v falls in n frames of free fall. */
  function FallDistance(v: real, n: nat): (d: real)
    // closed form: n * v + gravity * (1 + 2 + ... + n)
    ensures d == n as real * v + GRAVITY * (n * (n + 1) / 2) as real
    decreases n
  {
    if n == 0 then assert n as real * v == 0.0; 0.0
    else
      var rest := FallDistance(v + GRAVITY, n - 1);
      assert (n - 1) as real * (v + GRAVITY) == n as real * v - v + (n - 1) as real * GRAVITY;
      assert n * (n + 1) / 2 == (n - 1) * n / 2 + n;
      (v + GRAVITY) + rest
  }

  /** While the game runs without input, the bird falls freely: after n
      frames its velocity has grown by n * gravity and it has fallen
      FallDistance(velocity, n). */
  lemma {:induction false} FreeFall(s: GameState, width: nat, height: nat, draws: seq<real>)
    requires Draws(draws)
    ensures var t := Run(s, width, height, draws);
      !t.over ==>
        t.velocity == s.velocity + |draws| as real * GRAVITY &&
        t.y == s.y + FallDistance(s.velocity, |draws|)
    decreases |draws|
  {
    if draws != [] {
      var u := Tick(s, width, height, draws[0]);
      var t := Run(s, width, height, draws);
      assert t == Run(u, width, height, draws[1..]);
      FreeFall(u, width, height, draws[1..]);
      if !t.over {
        assert !s.over;
        assert u.velocity == s.velocity + GRAVITY;
        assert u.y == s.y + u.velocity;
        assert t.y == u.y + FallDistance(u.velocity, |draws| - 1);
        assert FallDistance(s.velocity, |draws|) == u.velocity + FallDistance(u.velocity, |draws| - 1);
      }
    }
  }

  /** A game still running after at least one frame has its bird above the
      ground. */
  lemma {:induction false} RunningMeansAboveGround(s: GameState, width: nat, height: nat, draws: seq<real>)
    requires Draws(draws) && draws != []
    ensures var t := Run(s, width, height, draws);
      !t.over ==> t.y + BIRD_HEIGHT as real <= height as real
    decreases |draws|
  {
    if |draws| > 1 {
      RunningMeansAboveGround(Tick(s, width, height, draws[0]), width, height, draws[1..]);
    }
  }

  /** The canvas is at most 320 wide, so at most 480 high: left alone after a
      reset, the bird reaches the ground and the game is over within 32
      frames, whatever the pipes do. */
  lemma FallWithoutInputEndsTheGame(s: GameState, width: nat, height: nat, draws: seq<real>)
    requires height <= 480
    requires Draws(draws) && |draws| >= 32
    ensures Run(Reset(s), width, height, draws).over
  {
    var start := Reset(s);
    var a, b := draws[..32], draws[32..];
    assert draws == a + b;
    assert Draws(a) && Draws(b);
    RunAppend(start, width, height, a, b);
    FreeFall(start, width, height, a);
    RunningMeansAboveGround(start, width, height, a);
    var u := Run(start, width, height, a);
    assert u.over;
  }

  /** The replay button resets and runs one frame: the queue then holds just
      the pipe spawned on frame 0, already moved once. */
  lemma ReplaySpawnsFirstPipe(s: GameState, width: nat, height: nat, r: real)
    requires 0.0 <= r < 1.0
    requires s.speed <= PIPE_WIDTH
    ensures var t := Tick(Reset(s), width, height, r);
      t.frame == 1 && t.score == 0 &&
      t.pipes == [Pipe(width - s.speed, SpawnY(r, height, s.gap))]
  {
    var start := Reset(s);
    var b := BirdStep(start, height);
    assert b.frame == 0 && b.pipes == [] && b.speed == s.speed && b.gap == s.gap;
    var orig := Spawned(b, width, height, r);
    assert orig == [Pipe(width, SpawnY(r, height, s.gap))];
    assert !Retires(orig[0], s.speed);
    assert Visits(orig, s.speed, 0) == [0] + Visits(orig, s.speed, 1);
    var v := Visits(orig, s.speed, 0);
    assert v == [0];
    assert RetiredAmong(orig, s.speed, v) == 0 by {
      assert v[..0] == [];
    }
    var out := Pass(orig, s.speed, s.gap, b.y);
    assert out.pipes == Advanced(orig, s.speed, v)[0..];
    assert out.pipes == [Moved(orig[0], s.speed)];
    var p := PipeStep(b, width, height, r);
    assert p.pipes == out.pipes && p.score == 0 && p.frame == 0;
    assert Tick(start, width, height, r) == p.(frame := 1);
  }

  /** No pipe is ever to the right of the spawn column. */
  predicate BehindRightEdge(pipes: seq<Pipe>, width: nat)
  {
    forall i :: 0 <= i < |pipes| ==> pipes[i].x <= width
  }

  /** With a non-negative scroll speed, the pipe step keeps every pipe at or
      left of the right edge. */
  lemma PipeStepKeepsPipesBehindRightEdge(s: GameState, width: nat, height: nat, r: real)
    requires 0.0 <= r < 1.0
    requires s.speed >= 0 && BehindRightEdge(s.pipes, width)
    ensures BehindRightEdge(PipeStep(s, width, height, r).pipes, width)
  {
    var orig := Spawned(s, width, height, r);
    assert BehindRightEdge(orig, width);
    PassEffect(orig, s.speed, s.gap, s.y);
  }

  /** With a non-negative scroll speed, a frame keeps every pipe at or left
      of the right edge. */
  lemma TickKeepsPipesBehindRightEdge(s: GameState, width: nat, height: nat, r: real)
    requires 0.0 <= r < 1.0
    requires s.speed >= 0 && BehindRightEdge(s.pipes, width)
    ensures BehindRightEdge(Tick(s, width, height, r).pipes, width)
  {
    if !s.over {
      PipeStepKeepsPipesBehindRightEdge(BirdStep(s, height), width, height, r);
    }
  }
}
