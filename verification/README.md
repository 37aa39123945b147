# Snake game engine, modelled in Dafny

This project models `SnakeGame`, the engine of a grid snake game. The game board has
`tileCount` x `tileCount` cells. The snake is a non-empty sequence of cells with its head
at index 0. It moves one cell per tick in its direction `(dx, dy)`. A food item wanders
by itself: it tries to step every third tick, and it never steps off the board or onto
the snake. Eating the food grows the snake by one segment, adds one to the score and
respawns the food. The game ends when the head leaves the board or runs into the body.

`snake_game_logic.dfy` holds module `SnakeGameLogic`:

- value types: `Pos` (a cell or a step), `UpdateResult` and the `GameState` snapshot;
- the specification functions `Reverses`, `Steer`, `Grown`, `Slither`, `Collides`,
  `CanSpawn`, `FirstFree`, `Wander`, `CounterAfter` and `CounterAfterCalls`, with
  lemmas about them;
- the class `SnakeGame`, whose fields match the engine's fields. Its methods update
  those fields in place. The moving methods (`MoveSnake`, `MoveFood`, `Update`,
  `GenerateRandomFood`, `SetDirection`) tie the new state to the specification
  functions applied to the old state. The lifecycle methods (`StartGame`,
  `PauseGame`, `GameOver`, `SetRandomFoodDirection`) state the new flag or direction
  directly, and their frames keep every other field.

`scenarios.dfy` (module `Scenarios`) drives the class through the situations described
in the engine's test suite, using only the contracts:

- a fresh game;
- a wall collision;
- eating food;
- a tick while paused;
- the U-turn;
- a sequence of turns;
- food that is blocked by the snake or by the edge.

The engine's only source of nondeterminism is `Math.random`. Here each random result is
a parameter of the method that uses it:

- `draws: seq<Pos>` lists the cells the random source yields one after another. The
  spawn loop consumes them until one misses the snake.
- `turn: DirIndex` (0 to 3) is the index into the four wander directions.

`tileCount` is `canvasWidth / gridSize`, and the constructor requires the division to
be exact.

## Model

| member | source | states |
|---|---|---|
| `SnakeGameLogic.SnakeGame.constructor` | snake-game-logic.js:3-7 | `gridSize` and `canvasWidth` default to 20 and 400; `tileCount` is `canvasWidth / gridSize` (width a multiple of the cell size), then the state is exactly that of a reset |
| `SnakeGameLogic.SnakeGame.Reset` | snake-game-logic.js:9-21 | snake is `[(10,10)]`, direction `(0,0)`, score 0, both flags false, counter 0, interval 3; food is the first drawn cell off the snake, with a cardinal direction, so the food is placed and the counter lies below the interval |
| `SnakeGameLogic.CanSpawn` | snake-game-logic.js:23-35 | draws the retry loop can consume (on the board, one of them off the snake) exist only while the board has a free cell |
| `SnakeGameLogic.ResetCanAlwaysSpawn` | snake-game-logic.js:9-20 | on any board of at least one cell, the reset snake leaves (0,0) free, so a draw sequence that reset's spawn accepts always exists |
| `SnakeGameLogic.FreeCellGivesDraws` | snake-game-logic.js:23-35 | conversely, any free cell on the board is a draw sequence the retry loop accepts, so spawning is possible exactly on a board that is not full |
| `SnakeGameLogic.FirstFree` | snake-game-logic.js:23-35 | the retry keeps the first draw that misses the snake: that draw is off the snake and every earlier draw is on it |
| `SnakeGameLogic.SnakeGame.GenerateRandomFood` | snake-game-logic.js:23-38 | the retry loop ends with food on the first free draw, on the board and off every segment, and the wander direction is the drawn one |
| `SnakeGameLogic.SnakeGame.IsOnSnake` | snake-game-logic.js:30-35 | the scan over segments answers true exactly when the cell equals some segment |
| `SnakeGameLogic.SnakeGame.SetRandomFoodDirection` | snake-game-logic.js:40-48 | the wander direction becomes the drawn one of the four cardinal vectors |
| `SnakeGameLogic.CounterAfter` | snake-game-logic.js:51-54 | one call keeps a non-negative counter non-negative and always leaves it below a positive interval |
| `SnakeGameLogic.CounterAfterCalls` | snake-game-logic.js:50-54 | any number of calls keeps a counter that starts in [0, interval) inside that range |
| `SnakeGameLogic.FoodCadence` | snake-game-logic.js:50-54 | from a counter of 0 with interval 3, after k calls the counter is k mod 3, and call k attempts a move exactly when k mod 3 is 2 (every third call) |
| `SnakeGameLogic.Wander` | snake-game-logic.js:56-81 | a move attempt either leaves the food in place or puts it one step along its direction, on the board and off the snake; the direction is kept on a step and replaced by the drawn one when blocked; the step happens exactly when the target is free, and a blocked attempt always leaves the food in place with the drawn direction |
| `SnakeGameLogic.SnakeGame.MoveFood` | snake-game-logic.js:50-83 | the counter advances as `CounterAfter`; food and direction change only on the call where the counter reaches the interval, and then as `Wander`; food that moves lands on the board and off the snake; a placed food stays placed; a counter below the interval stays below it |
| `SnakeGameLogic.Grown` | snake-game-logic.js:86-88 | a move that eats puts the new head in front: one segment longer, the old body unchanged behind the head |
| `SnakeGameLogic.Slither` | snake-game-logic.js:86-96 | a move that does not eat keeps the length, puts the new head in front, and shifts the old snake down one index without its tail; every cell of the result is the head or an old segment |
| `SnakeGameLogic.SnakeGame.MoveSnake` | snake-game-logic.js:85-97 | the new head is the old head plus `(dx,dy)`; when it equals the food, the snake grows by one, the score rises by exactly one and the food is respawned; otherwise the length and score are kept and food is untouched; a placed food stays placed |
| `SnakeGameLogic.Collides` | snake-game-logic.js:99-115 | a collision is exactly a head off the board or a head that reappears later in the snake; a single segment on the board never collides |
| `SnakeGameLogic.SnakeGame.CheckCollision` | snake-game-logic.js:99-115 | the loop answers exactly `Collides`: true when the head is off the board on either axis or equals a segment at index 1 or more; changes nothing |
| `SnakeGameLogic.Reverses` | snake-game-logic.js:119-123 | a refusal happens only while the snake moves, and never for the direction it already has |
| `SnakeGameLogic.Steer` | snake-game-logic.js:117-129 | the direction after a request is the old one or the requested one, and a moving snake with deltas in -1..1 is never turned straight back |
| `SnakeGameLogic.SnakeGame.SetDirection` | snake-game-logic.js:117-129 | refuses, and keeps `(dx,dy)`, exactly when the request reverses the current direction; otherwise sets `(dx,dy)` to the request and returns true |
| `SnakeGameLogic.ReversesIsOppositeOnNonzeroAxis` | snake-game-logic.js:119-123 | for deltas in -1..1 the reversal test holds exactly when the request is the negation of the current direction on an axis where that direction is nonzero |
| `SnakeGameLogic.AtRestEveryRequestIsAccepted` | snake-game-logic.js:117-129 | from the initial direction `(0,0)` every request is accepted and taken |
| `SnakeGameLogic.TwoTurnsMakeReversal` | snake-game-logic.js:117-129 | a perpendicular turn and then the reverse of the original direction are both accepted, and together they reverse the direction that a single request may not reverse |
| `SnakeGameLogic.UTurnCollides` | snake-game-logic.js:85-115 | after those two turns, a straight snake of three or more segments runs its head into its own body on the next move, whether or not it eats |
| `SnakeGameLogic.SnakeGame.StartGame` | snake-game-logic.js:131-134 | running becomes true and paused false; snake, score and food are untouched |
| `SnakeGameLogic.SnakeGame.PauseGame` | snake-game-logic.js:136-140 | paused flips when running and is kept otherwise; nothing else changes |
| `SnakeGameLogic.SnakeGame.GameOver` | snake-game-logic.js:142-144 | clears running and nothing else |
| `SnakeGameLogic.SnakeGame.Update` | snake-game-logic.js:146-160 | stopped or paused: returns `(false,false)` and changes no field; otherwise the snake moves (grow or slither), then the food counter and food advance, and running stays true exactly when there is no collision; the result is `(true,false)` on a collision and `(false,true)` otherwise; a placed food stays placed, and so does a counter below the interval |
| `SnakeGameLogic.SnakeGame.GetGameState` | snake-game-logic.js:162-172 | the snapshot carries the engine's snake, food, score, flags and direction |

## Left out

- `Particle` (snake-game-logic.js:175-199) is not modelled. It is a cosmetic effect built on floating-point velocity, friction and size decay.
- snake.js is not part of this model. It is the browser variant: canvas drawing, DOM and `localStorage`, timers, keyboard and touch input. Its game routines repeat the engine, and it shows a score scaled by 10 there.
- `Math.random` itself is not modelled. Each draw is a parameter constrained to the range the source can produce (`DirIndex` for a direction, in-bounds cells for a food draw).
- SnakeGameLogic.SnakeGame.GenerateRandomFood: requires that some draw misses the snake. On a full board the source's retry (snake-game-logic.js:32) calls itself until the JavaScript call stack overflows and a `RangeError` is thrown. That error path is what this requires excludes, and the model does not capture it. Thrown from `moveSnake`, the error leaves the snake already grown (:88), the score already raised (:92), and the food on the last draw, which lies on the snake. Reset and the constructor cannot reach this error: their one-cell snake at (10,10) always leaves (0,0) free on a board of at least one cell. Each retry is one loop iteration over the next draw, not a recursive call.
- SnakeGameLogic.SnakeGame.constructor: requires `canvasWidth` to be a positive multiple of `gridSize`. A fractional `tileCount` is not modelled.
- SnakeGameLogic.SnakeGame.GetGameState: the snapshot is a value, so in the model it is fully independent of the engine. The source copies only one level deep. `[...this.snake]` (snake-game-logic.js:164) makes a new array, but its elements are the engine's own segment objects. In the source, writing a coordinate of a returned segment changes the engine's snake. The model does not capture that aliasing. The snapshot leaves out the food direction and counter, as the source does.
- Coordinates and the score are unbounded integers. JavaScript numbers are doubles, but the values involved stay small integers.
- The test files and the Jest setup are not modelled. The scenarios module replays their situations against the contracts.
- The reset snake starts at the fixed cell `(10,10)`, as the code does (snake-game-logic.js:10). It does not start at the centre `tileCount / 2`, which would coincide with `(10,10)` only when `tileCount` is 20 (or 21, with the division rounded down).
- Respawning food does not reset the food move counter, as in the code (snake-game-logic.js:23-38).
- The U-turn collision needs at least three segments. With two segments and no food, the old second segment is dropped as the tail on the same move, so the head does not hit it.
