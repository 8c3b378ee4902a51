/** The game as the page runs it: one object whose fields the handlers
    assign in place. Each handler method is proved to do to State() what the
    function of the same handler in Simulation does, and to keep Valid().
    EndGame only raises the flag; VisitPipe is the body of the pipe loop's
    callback, and MovePipes, the loop itself, is proved equal to Sweep.Pass. */
module FlappyBird {
  import opened Rules
  import opened Sweep
  import opened Simulation

  class Game {
    const width: nat
    const height: nat

    var y: real
    var velocity: real
    var pipes: seq<Pipe>
    var frame: nat
    var score: nat
    var gameOver: bool
    var pipeGap: int
    var pipeSpeed: int

    /** The fields, as a value. */
    function State(): (s: GameState)
      reads this
    {
      GameState(y, velocity, pipes, frame, score, gameOver, pipeGap, pipeSpeed)
    }

    /** The difficulty is the starting one or a row of the table, and no
        pipe is right of the spawn column. */
    ghost predicate Valid()
      reads this
    {
      Settings(pipeGap, pipeSpeed) in {INITIAL_SETTINGS, EASY, MEDIUM, HARD} &&
      BehindRightEdge(pipes, width)
    }

    /** The page loads: the canvas size is fixed and the state is the initial
        one. */
    constructor (width: nat, height: nat)
      ensures this.width == width && this.height == height
      ensures State() == INITIAL && Valid()
    {
      this.width, this.height := width, height;
      y, velocity := START_Y, 0.0;
      pipes, frame, score, gameOver := [], 0, 0, false;
      pipeGap, pipeSpeed := INITIAL_SETTINGS.gap, INITIAL_SETTINGS.speed;
    }

    /** The difficulty selector's change handler. */
    method ChangeDifficulty(choice: string)
      requires Valid()
      modifies this
      ensures State() == ApplyDifficulty(old(State()), choice) && Valid()
    {
      match choice
      case "medium" =>
        pipeGap := 130;
        pipeSpeed := 3;
      case "hard" =>
        pipeGap := 100;
        pipeSpeed := 4;
      case _ =>
        pipeGap := 200;
        pipeSpeed := 2;
    }

    /** resetGame. */
    method ResetGame()
      requires Valid()
      modifies this
      ensures State() == Reset(old(State())) && Valid()
    {
      y := START_Y;
      velocity := 0.0;
      pipes := [];
      frame := 0;
      score := 0;
      gameOver := false;
    }

    /** endGame. */
    method EndGame()
      modifies this`gameOver
      ensures State() == Ended(old(State()))
    {
      gameOver := true;
    }

    /** updateBird. */
    method UpdateBird()
      requires Valid()
      modifies this
      ensures State() == BirdStep(old(State()), height) && Valid()
    {
      velocity := velocity + GRAVITY;
      y := y + velocity;
      if y + BIRD_HEIGHT as real > height as real {
        EndGame();
      }
    }

    /** The body of the forEach callback in updatePipes, for the pipe at
        index k: move it, shift the head and score if it is past the left
        edge, and end the game if it hits the bird. */
    method VisitPipe(k: nat)
      requires k < |pipes|
      modifies this
      ensures var p := Moved(old(pipes)[k], pipeSpeed);
        pipes == if Retires(old(pipes)[k], pipeSpeed) then old(pipes)[k := p][1..] else old(pipes)[k := p]
      ensures score == old(score) + if Retires(old(pipes)[k], pipeSpeed) then 1 else 0
      ensures gameOver == (old(gameOver) || Collides(y, Moved(old(pipes)[k], pipeSpeed), pipeGap))
      ensures y == old(y) && velocity == old(velocity) && frame == old(frame)
      ensures pipeGap == old(pipeGap) && pipeSpeed == old(pipeSpeed)
    {
      var pipe := pipes[k];
      pipe := pipe.(x := pipe.x - pipeSpeed);
      pipes := pipes[k := pipe];
      if pipe.x + PIPE_WIDTH < 0 {
        pipes := pipes[1..];
        score := score + 1;
      }
      if Collides(y, pipe, pipeGap) {
        EndGame();
      }
    }

    /** The loop of updatePipes over the queue. It is forEach: it walks the
        indices below the length the queue had when it started, and calls
        back only for an index the queue still reaches. */
    method MovePipes()
      modifies this
      ensures var out := Pass(old(pipes), pipeSpeed, pipeGap, y);
        pipes == out.pipes && score == old(score) + out.retired && gameOver == (old(gameOver) || out.hit)
      ensures y == old(y) && velocity == old(velocity) && frame == old(frame)
      ensures pipeGap == old(pipeGap) && pipeSpeed == old(pipeSpeed)
    {
      ghost var orig := pipes;
      // done: the original positions visited so far; next: the original
      // position of the pipe at index k; shifted: the number of shifts
      ghost var done: seq<nat> := [];
      ghost var next: nat := 0;
      ghost var shifted: nat := 0;
      WalkStart(orig, pipeSpeed);
      var len := |pipes|;
      var k := 0;
      while k < len
        invariant len == |orig| && k <= len
        invariant Walking(orig, pipeSpeed, k, done, next, shifted, pipes)
        invariant score == old(score) + shifted
        invariant gameOver == (old(gameOver) || HitAmong(orig, pipeSpeed, pipeGap, y, done))
        invariant y == old(y) && velocity == old(velocity) && frame == old(frame)
        invariant pipeGap == old(pipeGap) && pipeSpeed == old(pipeSpeed)
      {
        if k < |pipes| {
          ghost var before := pipes;
          VisitPipe(k);
          WalkVisit(orig, pipeSpeed, k, done, next, shifted, before, pipes);
          HitAmongAppend(orig, pipeSpeed, pipeGap, y, done, next);
          ghost var retired := Retires(before[k], pipeSpeed);
          done := done + [next];
          next := if retired then next + 2 else next + 1;
          shifted := if retired then shifted + 1 else shifted;
        } else {
          WalkSkip(orig, pipeSpeed, k, done, next, shifted, pipes);
          next := next + 1;
        }
        k := k + 1;
      }
      WalkEnd(orig, pipeSpeed, pipeGap, y, done, next, shifted, pipes);
    }

    /** updatePipes, with r the value Math.random() returns: spawn on every
        90th frame, then the loop over the queue. */
    method UpdatePipes(r: real)
      requires 0.0 <= r < 1.0
      requires Valid()
      modifies this
      ensures State() == PipeStep(old(State()), width, height, r) && Valid()
    {
      ghost var before := State();
      if frame % SPAWN_INTERVAL == 0 {
        var pipeY := SpawnY(r, height, pipeGap);
        pipes := pipes + [Pipe(width, pipeY)];
      }
      assert pipes == Spawned(before, width, height, r);
      ghost var out := Pass(pipes, pipeSpeed, pipeGap, y);
      MovePipes();
      assert pipes == out.pipes && score == before.score + out.retired && gameOver == (before.over || out.hit);
      PipeStepKeepsPipesBehindRightEdge(before, width, height, r);
    }

    /** gameLoop without the drawing and the rescheduling; r is the draw the
        pipe step would take if this frame spawns. */
    method GameLoop(r: real)
      requires 0.0 <= r < 1.0
      requires Valid()
      modifies this
      ensures State() == Tick(old(State()), width, height, r) && Valid()
    {
      if gameOver {
        return;
      }
      UpdateBird();
      UpdatePipes(r);
      frame := frame + 1;
    }

    /** The click handler on the canvas. */
    method Click()
      requires Valid()
      modifies this
      ensures State() == Jump(old(State())) && Valid()
    {
      if !gameOver {
        velocity := JUMP;
      }
    }

    /** The keydown handler: only the Space key jumps. */
    method KeyDown(code: string)
      requires Valid()
      modifies this
      ensures State() == (if code == "Space" then Jump(old(State())) else old(State())) && Valid()
    {
      if code == "Space" {
        if !gameOver {
          velocity := JUMP;
        }
      }
    }

    /** The replay button: reset, then run one frame. */
    method Replay(r: real)
      requires 0.0 <= r < 1.0
      requires Valid()
      modifies this
      ensures State() == Tick(Reset(old(State())), width, height, r) && Valid()
      // the queue then holds only the pipe spawned on frame 0, moved once
      ensures frame == 1 && score == 0
      ensures pipes == [Pipe(width - old(pipeSpeed), SpawnY(r, height, old(pipeGap)))]
    {
      ReplaySpawnsFirstPipe(State(), width, height, r);
      ResetGame();
      GameLoop(r);
    }
  }
}
