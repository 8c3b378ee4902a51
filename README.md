# Flappy bird: the per-frame simulation

This project models the game logic of the browser Flappy bird clone in
`Flappy_bird/script.js`: a yellow box of a bird that falls under gravity and
jumps on a click or the Space key, a queue of green pipes that spawn at the
right edge every 90 frames and scroll left, a score that counts pipes leaving
the screen, a game-over flag raised by the ground or by a pipe, a difficulty
selector, and the replay button.

The model has four modules:

- `Rules` (rules.dfy) holds the pure rules. These are the bird's and the
  pipes' constants, the collision test, where a new pipe's gap is placed for
  a random draw, and the difficulty table.
- `Sweep` (sweep.dfy) describes one pass of the pipe loop of `updatePipes` as
  a function, `Pass`. The loop removes pipes from the queue it walks
  (`pipes.shift()` inside `pipes.forEach`). forEach fixes the length when it
  starts and calls back only for an index the array still reaches. So after a
  pipe retires, every later pipe slides one place forward and the loop steps
  over the pipe that slid into the slot it just left. `Pass` keeps this
  behaviour: it walks the original positions and jumps two places after a
  retirement (`Visits`).
- `Simulation` (simulation.dfy) gives the game state as a value (`GameState`)
  and one function per handler.
- `FlappyBird` (game.dfy) holds the page's global variables as the fields of
  a class `Game`, with one method per handler. Each handler method is proved
  to change `State()` exactly as the matching `Simulation` function does, and
  to keep `Valid()`: the difficulty is the starting one or a row of the table,
  and no pipe lies right of the spawn column. Three methods are not handlers.
  `EndGame` only raises the flag. `VisitPipe` is the body of the loop's
  callback. `MovePipes` is the loop itself: it walks indices over the fixed
  starting length and runs `VisitPipe` only while the index is in range. Its
  loop invariant proves it equal to `Sweep.Pass`.

Where the behaviour of the code could be read otherwise, the model follows
the code as written:

- In `gameLoop`, the ground test in `updateBird` ends the game, but the pipe
  step and `frame++` still run in that same frame (script.js:120-123). Only
  the next frame returns early.
- `pipeGap` is one global value and is not stored per pipe. A difficulty
  change therefore also changes the gap of pipes already on screen at the
  next collision test.
- The starting settings (gap 100, speed 2, script.js:12 and :16) are not a row
  of the difficulty table. The comment calls them medium, but the "medium" row
  sets 130 and 3.
- A pipe retires only when its right edge is strictly past the left edge
  (`x + 30 < 0`).
- The pipe loop skips the pipe that follows a retired one. That pipe is
  neither moved nor tested against the bird on that frame.
- `shift()` removes the head of the queue, whichever pipe the callback is
  visiting.

## Model

| member | source | states |
|---|---|---|
| Rules.Collides | Flappy_bird/script.js:93-94 | A pipe hits the bird exactly when the bird's box and the pipe's column overlap as open intervals horizontally, and the bird's vertical span is not inside the closed gap. Touching a pipe's side edge, or touching the top or bottom of a gap at least as tall as the bird, is not a hit. |
| Rules.SpawnY | Flappy_bird/script.js:76-78 | On a canvas tall enough for the gap plus 20, a new gap has at least 10 above it and more than 10 below it. Otherwise it starts at or above 10, within one span of it. |
| Rules.SpawnYCovers | Flappy_bird/script.js:77 | Every gap position the margins allow comes from some draw in [0, 1). |
| Rules.Difficulty | Flappy_bird/script.js:22-37 | The choice maps to one of the three rows: "medium" gives (130, 3), "hard" gives (100, 4), and any other value gives easy (200, 2). The result lies between easy and hard in both gap and speed. |
| Sweep.Visits | Flappy_bird/script.js:82-87 | The positions the forEach callback reaches lie within the queue. It reaches the first pipe, and never reaches more positions than remain. |
| Sweep.VisitsAscending | Flappy_bird/script.js:82 | The callback reaches positions in strictly increasing order, so no pipe is handled twice in one pass. |
| Sweep.SkipRule | Flappy_bird/script.js:82-87 | A later pipe is reached exactly when the pipe before it was not both reached and retired. |
| Sweep.AllVisitedWithoutRetirement | Flappy_bird/script.js:82-83 | When no pipe retires, the loop reaches every pipe. |
| Sweep.Pass | Flappy_bird/script.js:82-97 | After one pass, the queue has lost exactly one pipe per point scored. The points equal the number of reached pipes that moved off screen. |
| Sweep.PassEffect | Flappy_bird/script.js:82-88 | The pipes left after a pass are the original tail in order. Each keeps its gap position. Each moved by the speed if reached, and not at all if skipped. |
| Sweep.PassHit | Flappy_bird/script.js:92-96 | A pass ends the game exactly when some reached pipe, after its move, collides with the bird. |
| Sweep.PassWithoutRetirement | Flappy_bird/script.js:82-97 | When no pipe retires, no point is scored and every pipe moves by the speed. |
| Sweep.HeadRetirementSkipsFollower | Flappy_bird/script.js:82-88 | When the head retires, the pipe behind it is skipped. If that was the only retirement, the skipped pipe stays where it was. |
| Simulation.Ended | Flappy_bird/script.js:106-109 | The game-over flag is raised and nothing else changes. Raising it again is a no-op. |
| Simulation.BirdStep | Flappy_bird/script.js:64-72 | Gravity is added to the velocity and the new velocity to y. The game ends exactly when it was already over or the bird's bottom is strictly below the canvas. Nothing else changes. |
| Simulation.Spawned | Flappy_bird/script.js:75-79 | A pipe is added only on frames that are multiples of 90. It goes at the tail, at the right edge, with the gap margins of SpawnY, and older pipes keep their order. |
| Simulation.PipeStep | Flappy_bird/script.js:74-98 | The score never drops. Every point scored removed one pipe from the queue. A game that is over stays over. The bird, the frame and the difficulty are untouched. |
| Simulation.Tick | Flappy_bird/script.js:111-125 | A game that is over does not change. Otherwise the frame advances by one, and the rest of the state is the bird step followed by the pipe step, even when the bird step has just ended the game. A bird below the ground ends the game. The score never drops and the difficulty is kept. |
| Simulation.GroundFrameStillMovesPipes | Flappy_bird/script.js:120-123 | On the frame the bird falls past the ground, the game ends and the frame still advances. The queue and the score are still those of one pipe pass over the spawned queue, tested against the fallen bird. |
| Simulation.Jump | Flappy_bird/script.js:128-135 | While the game runs, the velocity is set to -10 and nothing else changes. After game over it is a no-op. |
| Simulation.ApplyDifficulty | Flappy_bird/script.js:22-38 | The gap and speed become the table row of the choice and nothing else changes. |
| Simulation.Reset | Flappy_bird/script.js:40-49 | The bird is back at 150 with no velocity. The queue is empty, frame and score are 0 and the game runs. The difficulty is kept. |
| Simulation.Run | Flappy_bird/script.js:111-125 | Over any run of frames without input, the score never drops and a game that is over does not change. A game still running has advanced one frame per draw. The difficulty is kept. |
| Simulation.RunAppend | Flappy_bird/script.js:111-125 | Running two stretches of frames one after the other is the same as running them as one. |
| Simulation.FallDistance | Flappy_bird/script.js:65-66 | After n frames from velocity v, the bird has fallen n·v + 0.6·(1 + … + n). |
| Simulation.FreeFall | Flappy_bird/script.js:64-66 | While a game runs without input, after n frames the velocity has grown by n·0.6 and y by FallDistance. |
| Simulation.RunningMeansAboveGround | Flappy_bird/script.js:69-71 | A game still running after at least one frame has its bird at or above the ground. |
| Simulation.FallWithoutInputEndsTheGame | Flappy_bird/script.js:6-7 | With a canvas at most 480 high (width at most 320), a reset game with no input is over after 32 frames, whatever the pipes do. |
| Simulation.ReplaySpawnsFirstPipe | Flappy_bird/script.js:139-142 | The replay button leaves frame 1, score 0, and exactly one pipe: the one spawned on frame 0, moved once. |
| Simulation.PipeStepKeepsPipesBehindRightEdge | Flappy_bird/script.js:76-83 | With a non-negative speed, the pipe step keeps every pipe at or left of the spawn column. |
| Simulation.TickKeepsPipesBehindRightEdge | Flappy_bird/script.js:111-125 | A whole frame keeps every pipe at or left of the spawn column. |
| FlappyBird.Game.constructor | Flappy_bird/script.js:6-16 | The page starts with the given canvas size, the bird at 150 at rest, no pipes, frame and score 0, the game running, and gap 100 with speed 2. |
| FlappyBird.Game.ChangeDifficulty | Flappy_bird/script.js:22-38 | The fields change as ApplyDifficulty says. |
| FlappyBird.Game.ResetGame | Flappy_bird/script.js:40-49 | The fields change as Reset says. |
| FlappyBird.Game.EndGame | Flappy_bird/script.js:106-109 | Only the game-over flag is set. |
| FlappyBird.Game.UpdateBird | Flappy_bird/script.js:64-72 | The fields change as BirdStep says. |
| FlappyBird.Game.VisitPipe | Flappy_bird/script.js:82-97 | For the pipe at index k: it moves by the speed. If it is now off screen, the head is shifted out and a point is scored. If it hits the bird, the game ends. No other field changes. |
| FlappyBird.Game.MovePipes | Flappy_bird/script.js:82-97 | The forEach loop leaves the queue, score and game-over flag that Pass computes for the queue it started from. |
| FlappyBird.Game.UpdatePipes | Flappy_bird/script.js:74-98 | The fields change as PipeStep says. |
| FlappyBird.Game.GameLoop | Flappy_bird/script.js:111-125 | The fields change as Tick says. |
| FlappyBird.Game.Click | Flappy_bird/script.js:128-130 | The fields change as Jump says. |
| FlappyBird.Game.KeyDown | Flappy_bird/script.js:132-136 | The Space key changes the fields as Jump says. Any other key changes nothing. |
| FlappyBird.Game.Replay | Flappy_bird/script.js:139-142 | The fields change as a Tick after a Reset says. The game is then at frame 1 with score 0, and the queue holds only the pipe spawned on frame 0, moved once. |

## Left out

- Drawing: `drawBird`, `drawPipes`, `drawScore` and `clearRect` only paint the canvas and change no game state.
- The DOM: the score text and the replay button's visibility (script.js:47-48, :89, :108) are display only.
- Scheduling: `requestAnimationFrame` is not modelled. `GameLoop` is one frame, and `Run` is a sequence of frames without input. Input can come between any two frames by calling `Click`/`KeyDown` between `GameLoop` calls.
- `Math.random()` is the parameter `r`, with 0 <= r < 1. The loop's caller supplies one draw per frame, and the draw is used only on spawn frames.
- Canvas size: `Math.min(320, window.innerWidth * 0.9)` and `canvas.width * 1.5` depend on the window. The width and height are constructor parameters (natural numbers, as the canvas stores them). Only `FallWithoutInputEndsTheGame` assumes the bound they imply (height at most 480).
- Floating point: the bird's y and velocity are exact reals, not IEEE doubles, so rounding in `0.6` sums is not modelled. Pipe positions, the gap and the speed are integers, as they are in the code.
- Object identity of pipes: a pipe is a value in a sequence. The code mutates the pipe object in place, but each object sits in one slot only, so this changes nothing observable.
- Simulation.PipeStep: states the score and queue-length balance, not the full outcome. The full outcome is in Sweep.Pass, Sweep.PassEffect and Sweep.PassHit.
