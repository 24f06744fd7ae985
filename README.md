# Slither snake engine — a Dafny model

This project models the simulation core of *Slither*, a grid snake game:

- the **snake** (`snake.py`): a head-first list of cells, a heading and a counter of segments still owed to the tail;
- the **food** (`food.py`): one cell and an "eaten" flag, re-placed at random off the snake;
- the **game controller** (`game.py`): score, speed, the running / paused / game-over flags, the per-tick update, the restart and the key dispatch.

The snake, food and game are Dafny classes whose methods update their fields as the Python methods do. Each method is proved against a specification on plain values:

- `SnakeEntity`: `Moved`, `Turned` and `Collides`.
- `GameRules`: a `World` value for a whole game, with the relations `TickStep` (one tick) and `EventStep` (one event).
- `GameRules` also defines runs: sequences of worlds linked by ticks and events. Lemmas there state what holds over any run:
  - score and speed never drop within a game (no event dispatched as a restart);
  - game over is sticky until R;
  - the speed stays bounded;
  - the food never lies under the snake;
  - while the game is not over, the snake never overlaps itself and, when it starts inside the grid, never leaves it.

The configuration constants (`GRID_WIDTH`, `GRID_HEIGHT`, `INITIAL_SNAKE_LENGTH`, `FOOD_SCORE`, `INITIAL_SPEED`, `MAX_SPEED`, `SPEED_INCREMENT`) are the fields of `Grid.Config`. They are positive integers. `constants.py` is not part of this model. The headings are taken as UP = (0, -1), DOWN = (0, 1), LEFT = (-1, 0), RIGHT = (1, 0) in screen coordinates. Their opposites follow the table in `snake.py`.

The speed rises only when the new score is an exact multiple of 50 (`game.py:80`). A score that jumps past a multiple does not raise it. The last increment can overshoot `MAX_SPEED` by up to `SPEED_INCREMENT - 1`; `RunSpeedCapped` proves that cap.

A game can start only when some cell is free of the initial snake (`GameRules.CanStart`), since the food placement off the initial snake (`game.py:27`) must find one. Any grid with two or more rows qualifies (`TallGridCanStart`), and so does any snake shorter than the number of cells (`ShortSnakeCanStart`).

The initial snake stretches leftwards from the centre. When `INITIAL_SNAKE_LENGTH` exceeds `GRID_WIDTH / 2 + 1`, its tail starts off the grid while the game runs (`InitialTailOffGrid`). The collision test looks only at the head, so nothing catches this. `RunAliveInGrid` therefore assumes the initial snake fits.

Files: `wrappers.dfy` (Option), `grid.dfy` (cells, headings, configuration, the pigeonhole count), `snake.dfy`, `food.dfy`, `game_rules.dfy`, `game.dfy`.

## Model

| member | source | states |
|---|---|---|
| `Grid.Opposite` | snake.py:32-37 | the opposite heading differs from the heading and is its exact negation (so a step along one then the other returns to the start cell) |
| `Grid.RoomOnGrid` | food.py:13-20 | a body shorter than width × height leaves an in-grid cell free, so the rejection sampling has an acceptable cell to find |
| `SnakeEntity.InitialBody` | snake.py:7-13 | the initial body has n cells, cell i being (x - i, y) |
| `SnakeEntity.Moved` | snake.py:17-27 | one move: new head is old head plus heading; every later cell is the old cell one place ahead; length grows by one exactly when growth is owed |
| `SnakeEntity.MoveN` | snake.py:15-27 | k moves in a row never shorten the body |
| `SnakeEntity.MoveNLength` | snake.py:24-27 | over k moves the length grows by exactly min(k, owed growth), and the counter left after paying once per move has fallen by the same amount |
| `SnakeEntity.MoveNHead` | snake.py:17-21 | after k straight moves the head is k unit steps from where it started |
| `SnakeEntity.MoveNKeepsBody` | snake.py:20-27 | after k moves, cell k + i is old cell i for every i below the old length minus the tail cells dropped (k minus the growth paid); while growth is owed no old cell is lost |
| `SnakeEntity.Turned` | snake.py:29-40 | the new heading is never the reverse of the current one; the request is taken iff it is not the reverse, otherwise the heading stays |
| `SnakeEntity.Snake.constructor` | snake.py:5-13 | straight body of INITIAL_SNAKE_LENGTH cells from (x, y) leftwards (x, y default to the grid centre), facing RIGHT, nothing owed |
| `SnakeEntity.Snake.Move` | snake.py:15-27 | body becomes `Moved` of the old body, the owed count drops by one if positive, heading unchanged, body stays non-empty |
| `SnakeEntity.Snake.ChangeDirection` | snake.py:29-40 | heading becomes `Turned(old heading, request)`; body and growth counter unchanged; no error path |
| `SnakeEntity.Snake.Grow` | snake.py:42-44 | owed growth increases by `segments` (default 1); body and heading unchanged |
| `SnakeEntity.Snake.CheckCollision` | snake.py:46-59 | true iff the head is outside [0, W) × [0, H) or equals some later segment; changes nothing |
| `SnakeEntity.Snake.GetHeadPosition` | snake.py:61-63 | returns the first cell of the body |
| `SnakeEntity.Snake.GetLength` | snake.py:78-80 | returns the number of cells, at least one |
| `FoodEntity.Food.constructor` | food.py:6-9 | food at an in-grid cell, not eaten |
| `FoodEntity.Food.GeneratePosition` | food.py:11-20 | the cell is inside the grid, and off the given body when one is given (any in-grid cell when none is given) |
| `FoodEntity.Food.Respawn` | food.py:22-25 | new position is an admissible cell (in-grid, off the body if given) and the eaten flag is cleared |
| `FoodEntity.Food.CheckEaten` | food.py:27-32 | returns true iff the food is at the head; position never changes; flag is raised on a hit and otherwise left as it was |
| `FoodEntity.Food.GetPosition` | food.py:48-50 | returns the food's cell, which is inside the grid |
| `GameRules.Dispatch` | game.py:35-58 | quit always stops; under game over only R restarts and Q stops; otherwise P toggles pause; steering keys turn the snake iff neither over nor paused, each key mapping to its heading |
| `GameRules.TickFrozen` | game.py:62-63 | a tick while over or paused leaves every field of game, snake and food unchanged |
| `GameRules.TickCollision` | game.py:66-71 | a collision after the move sets game over and leaves score, speed, food and flag untouched; the moved body is kept |
| `GameRules.TickSurvivorHeadSafe` | game.py:66-71 | after a tick that leaves the game alive, the head is inside the grid and occurs nowhere else in the body |
| `GameRules.TickEating` | game.py:74-77 | landing on the food adds FOOD_SCORE, owes one more segment, re-places the food in the grid off the moved snake and ends the tick with the flag cleared |
| `GameRules.TickNotEating` | game.py:74-81 | a tick that does not eat leaves score, speed, food and flag unchanged |
| `GameRules.TickSpeedRule` | game.py:79-81 | the speed changes only on eating, only by SPEED_INCREMENT, only when the new score is a multiple of 50 and the old speed was below MAX_SPEED |
| `GameRules.RoomForFood` | game.py:74-77 | when the snake plus one segment is shorter than the grid, an eating tick can always place the new food |
| `GameRules.RunScoreSpeedMonotone` | game.py:74-81 | across any run in which no event is dispatched as a restart, neither score nor speed ever decreases |
| `GameRules.RunGameOverFrozen` | game.py:40-63 | once over, no tick or event other than R changes anything but the running flag |
| `GameRules.RunStaysStopped` | game.py:36-44 | once `running` is false, no tick or event sets it back |
| `GameRules.RunSpeedCapped` | game.py:79-81 | across any run, restarts included, the speed never exceeds max(INITIAL_SPEED, MAX_SPEED - 1 + SPEED_INCREMENT) |
| `GameRules.StepKeepsFoodClear` | game.py:66-77 | one tick or event keeps the food in the grid and off every segment of the snake |
| `GameRules.RunFoodClear` | game.py:66-77 | from a start with the food clear, the food is never under the snake in any later state |
| `GameRules.TallGridCanStart` | game.py:23-27 | with two or more rows a cell is always free of the initial snake, so the food placement off the initial snake succeeds |
| `GameRules.ShortSnakeCanStart` | game.py:23-27 | an initial snake shorter than the number of cells leaves a cell free for the food placement off the initial snake |
| `GameRules.StepKeepsAliveDistinct` | game.py:66-77 | one tick or event keeps the cells of a live snake pairwise distinct |
| `GameRules.RunAliveDistinct` | game.py:66-71 | over any run, restarts included, every state that is not over has a snake with pairwise distinct cells |
| `GameRules.InitialTailOffGrid` | snake.py:5-13 | a snake longer than half the width plus one starts, in a running game, with its tail outside the grid |
| `GameRules.StepKeepsAliveInGrid` | game.py:66-71 | one tick or event keeps every cell of a live snake inside the grid, given that the initial snake fits |
| `GameRules.FreshStartsClear` | game.py:168-176 | a fresh game has the food clear of the snake, a snake without repeated cells, and, when the initial snake fits, a snake inside the grid |
| `GameRules.RunAliveInGrid` | game.py:66-71 | over any run, restarts included, every state that is not over has its whole snake inside the grid, given that the initial snake fits |
| `GameController.Game.constructor` | game.py:16-27 | running, not over, not paused, score 0, INITIAL_SPEED, a fresh snake, food in the grid and off the snake (requires a cell free of the initial snake) |
| `GameController.Game.HandleEvent` | game.py:36-58 | the game changes exactly as `EventStep` says for the action `Dispatch` picks |
| `GameController.Game.HandleEvents` | game.py:33-58 | the events are handled in order; the returned trace is a run from the old state to the new one |
| `GameController.Game.Update` | game.py:60-81 | the new state is a `TickStep` successor of the old one: move, then collision, then food, in that order |
| `GameController.Game.RestartGame` | game.py:168-176 | the same fresh state the constructor builds (new snake and food, food off the snake); `running` untouched |

## Left out

- Drawing of the snake, the food, the grid, the score line and the overlays (`snake.py:65-76`, `food.py:34-46`, `game.py:83-166`): presentation only.
- pygame set-up, the window, fonts and the clock (`game.py:10-13`, `game.py:29-31`), and the frame loop `run` with its `clock.tick` and exit (`game.py:178-187`): I/O and timing.
- `main.py`: start-up banner and exception reporting.
- pygame events and key codes: replaced by the `Event` and `Key` datatypes. `HandleEvents` takes the batch of events as a parameter instead of reading the event queue.
- `FoodEntity.Food.GeneratePosition`: the random draw is a nondeterministic choice of an admissible cell. Its distribution is not modelled, and neither is the retry loop that reaches the choice.
- `FoodEntity.Food.GeneratePosition`, `FoodEntity.Food.Respawn`: both require a free cell when a body is given. The game's code loops forever when there is none.
- `GameController.Game.Update`: requires `CanTick`, meaning that when the tick eats, some cell is free of the moved snake. Without a free cell the game's code never returns from the food placement. `GameRules.RoomForFood` shows that a snake plus one segment shorter than the grid suffices.
- `GameController.Game.constructor`: requires `CanStart`, meaning some cell is free of the initial snake. Without one the food placement off the initial snake (`game.py:27`) never returns. `RestartGame` relies on the same condition, kept in `Game.Valid`.
- `GameRules.RunAliveInGrid`: assumes the initial snake fits in the grid (`StartsInGrid`). The game's code does not guarantee this, as `InitialTailOffGrid` shows.
- Python integers are unbounded, like Dafny's; no wrap-around is involved.
