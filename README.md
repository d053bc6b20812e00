# Snake game core in Dafny

This project models the game-state core of a single-player Snake game and
proves properties of it. In the original program, one `SnakeGame` object holds
the game on a grid of 30 by 20 cells:

- the snake, a list of cells with the head first;
- the committed direction and the pending direction;
- the food cell and the score;
- the tick interval `speed_ms`;
- the flags `running` and `paused`.

The key bindings call `change_direction`, `toggle_pause` and `restart`. A timer
calls `game_loop` once per tick.

The project has five modules, one file each:

- `grid.dfy`, module `Grid`: cells, membership in a `w` by `h` grid, and the
  counting argument behind food placement. The grid has `w * h` cells, so a
  shorter snake of distinct in-grid cells leaves at least one cell free.
- `rules.dfy`, module `Rules`: a value snapshot `Game` of the object's state
  and the rules as pure functions on it. `Tick` is one game-loop step,
  `ChangeDirection` and `TogglePause` are the two keys, and `Restart` is the
  initial layout followed by the first tick. `Inv` is the invariant that every
  reachable state keeps.
- `properties.dfy`, module `Properties`: lemmas about these functions. They
  cover the invariant, the collision cases, growth and score, the tail rule,
  the neck rule, the win rule and the terminal states.
- `snake.dfy`, module `Snake`: class `SnakeGame` with the program's fields.
  Its methods modify the object in place, as the program does. The
  constructor and `Restart`, `TogglePause`, `ChangeDirection` and `GameLoop`
  are each proved to leave the object in exactly the state the matching
  `Rules` function computes, and to keep `Inv`. `GameOver` only clears
  `running`. `RandomEmptyCell` changes nothing and returns a free cell.
- `events.dfy`, module `Events`: a session as the event loop delivers it. A
  session is a sequence of direction keys, pause keys, restart keys and timer
  ticks, handled one at a time. Lemmas by induction lift the one-step
  properties to whole sessions.

The grid size is a pair of class constants `width` and `height`. The model
requires `width >= 4` and `height >= 1`, because restart puts the tail at
`width / 2 - 2`. The shipped 30 by 20 grid meets this
(`Properties.ShippedRestart`).

The random food draw is a choice of any free cell. The class method picks one
nondeterministically. The pure `Tick` takes the drawn cell as a parameter and
uses it only when the step eats without filling the grid.

Three consequences of following the program's code exactly:

- `restart` runs one game-loop step at once (`snake.py:67`), before any timer
  fires. So the state after a restart is the initial layout advanced by one
  cell, and the score is already 1 if the first food lay straight ahead
  (`Rules.Restart`, `Properties.RestartLayout`).
- A win leaves the food on the cell the head just ate, because no new food is
  placed (`snake.py:120-124`). So "food is off the snake" holds in every state
  except a won game (`Properties.FoodNeverOnSnake`).
- The score counts the food eaten, so a full grid of `w * h` cells is reached
  with score `w * h - 3`: the three starting cells score nothing. A 3 by 2 grid cannot come from a
  restart, because the tail would be at x = -1. `Properties.SmallGridWin`
  therefore builds the five-cell snake directly.

## Model

| member | source | states |
|---|---|---|
| Rules.SpeedFor | snake.py:119 | The tick interval after `score` points lies in [60, 120]. It is 120 exactly at score 0 and reaches the 60 ms floor exactly from score 30 on. |
| Rules.Tick | snake.py:96-130 | One step changes the snake length by 0 or +1. Score and length change by the same amount. The pending direction and the pause flag are kept. A stopped game is never restarted by a tick. |
| Rules.ChangeDirection | snake.py:78-87 | A direction key changes at most the pending direction. It changes it only while playing, only to the key's direction, and never to the opposite of the committed direction. |
| Rules.TogglePause | snake.py:69-76 | The pause key leaves a stopped game unchanged and flips the pause flag of a running one. Pausing moves nothing: snake, score and food are kept. A pause key never restarts a stopped game. |
| Rules.Restart | snake.py:46-67 | Whatever the earlier state, the game comes back unpaused and heading right, with score 0 or 1 and a snake of 3 cells plus the score. |
| Properties.SpeedExamples | snake.py:119 | The speed is 120 ms at score 0, 100 ms at score 10, and clamped to 60 ms at score 40. |
| Properties.SpeedNonIncreasing | snake.py:119 | A higher score never gives a longer tick interval. |
| Properties.InitialInv | snake.py:46-65 | The centred three-cell snake heading right, with score 0, speed 120, running, unpaused and a free first food, satisfies the invariant. |
| Properties.IdleTick | snake.py:96-98 | A tick while stopped or paused changes nothing. |
| Properties.WallCollision | snake.py:100-108 | When the next head leaves the grid, the tick commits the pending direction and clears `running`. Snake, score, speed and food stay unchanged. |
| Properties.SelfCollision | snake.py:110-113 | When the next head lands on the body without its tail, the game stops with the same unchanged board. |
| Properties.TickMoves | snake.py:115-127 | A move onto a free non-food cell prepends the new head and drops the tail. It commits the direction and changes nothing else. |
| Properties.TickEats | snake.py:115-125 | A move onto the food keeps the tail and raises the score by exactly 1. It sets the speed from the new score. It stops with the old food when the grid becomes full, and otherwise takes the drawn cell as food. |
| Properties.TickGrowth | snake.py:115-127 | Length and score rise by 1 exactly when the tick eats, and otherwise stay put. The speed follows the new score and stays within [60, 120]. |
| Properties.TailCellIsFree | snake.py:110-127 | Moving onto the current tail cell is legal. The game goes on and the snake keeps its length. |
| Properties.NeckIsNeverEntered | snake.py:78-104 | While running, the next head is never the neck cell. This holds after any direction key too, because reversals of the committed direction are refused. |
| Properties.ChangeDirectionEffect | snake.py:78-87 | A direction key changes at most the pending direction. It takes effect exactly when the game is playing and the key is not the opposite of the committed direction. An opposite key, or any key while paused or stopped, changes nothing. |
| Properties.PauseThenResume | snake.py:69-76 | Pausing only sets `paused`. Pausing and then resuming equals a single tick. |
| Properties.TerminalAbsorbing | snake.py:69-98 | In a lost or won game, ticks, direction keys and the pause key all leave the state unchanged. |
| Properties.FoodNeverOnSnake | snake.py:89-94 | In every state satisfying the invariant, short of a won game, the food is a grid cell off the snake. |
| Properties.WinExactlyWhenGridFills | snake.py:117-124 | A playing tick ends in a won game exactly when it eats and the grown snake fills the grid. A collision is never a win. |
| Properties.GrownSnakeOk | snake.py:115-125 | The snake grown by an eating move is still on the grid and free of repeats, so the food draw has a free cell whenever the grid is not full. |
| Properties.TickPreservesInv | snake.py:96-130 | Given a free drawn cell when one is needed, a tick keeps the invariant: in bounds, distinct cells, length = score + 3, food off the snake unless the grid is full, speed from score, no pending reversal, head one move ahead of the neck. |
| Properties.ChangeDirectionPreservesInv | snake.py:78-87 | A direction key keeps the invariant. |
| Properties.TogglePausePreservesInv | snake.py:69-76 | The pause key keeps the invariant, including the tick it runs on resume. |
| Properties.RestartLayout | snake.py:46-67 | Whatever the earlier state, restart ends in a fixed layout after its first tick. Direction and pending direction are right, the game is unpaused, and the head is at (W/2+1, H/2) followed by the initial cells. The score is 1 if the first food was straight ahead and 0 otherwise. The game is running unless the grid has only 4 cells. |
| Properties.ShippedRestart | snake.py:6-7 | On the shipped 30 by 20 grid, restart satisfies the invariant, keeps the game running, and puts the head at (16, 10) followed by (15, 10) and (14, 10). |
| Properties.SmallGridWin | snake.py:117-124 | On a 3 by 2 grid, a five-cell snake eating the last free cell reaches six cells, score 3 and the won state. |
| Events.Apply | snake.py:32-41 | Dispatches one key press or timer tick to its handler. Every handler leaves a non-empty snake. |
| Events.Run | snake.py:32-41 | Handles a sequence of events one after another, and the snake stays non-empty. |
| Events.ApplyPreservesInv | snake.py:32-41 | Every handler keeps the invariant, given free cells from its random draws. |
| Events.RunPreservesInv | snake.py:32-41 | Every state a session reaches from a state satisfying the invariant satisfies it too. |
| Events.ReachableInv | snake.py:44-67 | Every state reachable from a restart satisfies the invariant. In particular, the snake stays on the grid without overlaps and the food stays off it until a win. |
| Events.FinishedStaysFinished | snake.py:69-98 | Once the game is lost or won, no sequence of direction keys, pause keys and ticks changes the state. Only a restart leaves it. |
| Events.ScoreAndLengthInStep | snake.py:115-127 | Along any session without a restart, the score never decreases, and the snake's length minus the score stays constant. |
| Grid.EmptyCellExists | snake.py:89-94 | A snake of distinct in-grid cells shorter than `w * h` leaves a free grid cell, so the food draw can succeed. |
| Snake.SnakeGame.constructor | snake.py:43-44 | The new game has the given grid size, is restarted and satisfies the invariant. |
| Snake.SnakeGame.Restart | snake.py:46-67 | Leaves the object in the state `Rules.Restart` computes for some free first food, and keeps the invariant. |
| Snake.SnakeGame.TogglePause | snake.py:69-76 | Leaves the object in the state `Rules.TogglePause` computes, ticking on resume, and keeps the invariant. |
| Snake.SnakeGame.ChangeDirection | snake.py:78-87 | Leaves the object in the state `Rules.ChangeDirection` computes, and keeps the invariant. |
| Snake.SnakeGame.RandomEmptyCell | snake.py:89-94 | Returns a grid cell not occupied by the snake. |
| Snake.SnakeGame.GameLoop | snake.py:96-130 | Leaves the object in the state `Rules.Tick` computes, with the food it placed as the drawn cell, and keeps the invariant. |
| Snake.SnakeGame.GameOver | snake.py:132-135 | Clears `running` and changes nothing else. |

## Left out

- The tkinter window, canvas, label, key bindings, `draw`, `draw_cell` and the status texts (`snake.py:12-41`, `snake.py:137-160`) are display only. `draw` changes no game state.
- Timer scheduling with `root.after` and `after_cancel`, and the `after_id` handle (`snake.py:43`, `snake.py:61-63`, `snake.py:130`), are left out. A tick is a method the caller invokes. So the model does not capture the second timer chain that pausing and resuming before a stale callback fires can start (`snake.py:73-76` does not cancel it).
- Snake.SnakeGame.RandomEmptyCell: may return any free cell. The uniform distribution of `random.randrange` and the retry loop are not modelled. The loop's termination is a matter of probability, not provable.
- `main` and the event-loop startup (`snake.py:163-171`) are left out.
- The grid size is a parameter rather than the fixed constants 30 by 20 (`snake.py:6-7`), restricted to grids where the centred snake fits.
- Snake.SnakeGame.ChangeDirection: takes one of the four unit directions. The key bindings (`snake.py:32-39`) are its only callers and pass nothing else, so tuples of any other value are not modelled.
