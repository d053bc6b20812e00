/**
 * The SnakeGame object: the fields the game mutates and the handlers the key
 * bindings and the timer call. The constructor, Restart, TogglePause,
 * ChangeDirection and GameLoop are proved to carry out the matching
 * transition of module Rules and to keep the invariant Rules.Inv; GameOver
 * only clears the run flag and RandomEmptyCell changes nothing.
 */
module Snake {
  import opened Grid
  import opened Rules
  import Properties

  class SnakeGame {
    const width: int
    const height: int
    var snake: seq<Cell>
    var direction: Direction
    var pendingDirection: Direction
    var food: Cell
    var score: nat
    var speedMs: int
    var running: bool
    var paused: bool

    /** The object's fields as a Rules snapshot. */
    ghost function State(): Game
      reads this
    {
      Game(snake, direction, pendingDirection, food, score, speedMs, running, paused)
    }

    ghost predicate Valid()
      reads this
    {
      Inv(width, height, State())
    }

    /** Builds the game on a `w` by `h` grid and restarts it, as the window setup does. */
    constructor (w: int, h: int)
      requires GridOk(w, h)
      ensures width == w && height == h
      ensures Valid()
      ensures exists first :: FirstFoodOk(w, h, first) && State() == Rules.Restart(w, h, first, food)
    {
      width, height := w, h;
      new;
      Restart();
    }

    /**
     * Lays out the centred three-cell snake heading right, clears the score,
     * resets the speed, places the first food and runs the first tick.
     */
    method Restart()
      requires GridOk(width, height)
      modifies this
      ensures Valid()
      ensures exists first ::
        FirstFoodOk(width, height, first) && State() == Rules.Restart(width, height, first, food)
    {
      var centerX := width / 2;
      var centerY := height / 2;
      snake := [(centerX, centerY), (centerX - 1, centerY), (centerX - 2, centerY)];
      direction := RIGHT;
      pendingDirection := direction;
      score := 0;
      speedMs := INITIAL_SPEED_MS;
      running := true;
      paused := false;
      assert width * height >= 4 by {
        assert width * height >= 4 * height;
      }
      food := RandomEmptyCell();
      ghost var first := food;
      assert State() == Initial(width, height, first);
      Properties.InitialInv(width, height, first);
      GameLoop();
      assert State() == Rules.Restart(width, height, first, food);
    }

    /** The pause key: ignored once the game has ended; resuming ticks at once. */
    method TogglePause()
      requires Valid()
      modifies this
      ensures Valid()
      ensures State() == Rules.TogglePause(width, height, old(State()), food)
    {
      if !running {
        return;
      }
      paused := !paused;
      if !paused {
        GameLoop();
      }
    }

    /**
     * A direction key: buffered as the pending direction while playing,
     * unless it undoes the committed direction.
     */
    method ChangeDirection(newDirection: Direction)
      requires Valid()
      modifies this
      ensures Valid()
      ensures State() == Rules.ChangeDirection(old(State()), newDirection)
    {
      if !running || paused {
        return;
      }
      var (dx, dy) := direction;
      var (ndx, ndy) := newDirection;
      if dx + ndx == 0 && dy + ndy == 0 {
        return;
      }
      pendingDirection := newDirection;
    }

    /**
     * Some grid cell the snake does not occupy. The program samples cells
     * uniformly until one is free; here any free cell may be chosen.
     */
    method RandomEmptyCell() returns (pos: Cell)
      requires 0 <= width && 0 <= height
      requires AllInGrid(snake, width, height) && Distinct(snake)
      requires |snake| < width * height
      ensures InGrid(pos, width, height) && pos !in snake
    {
      EmptyCellExists(snake, width, height);
      ghost var c :| InGrid(c, width, height) && c !in snake;
      assert (c.0, c.1) == c;
      var x: int, y: int :| 0 <= x < width && 0 <= y < height && (x, y) !in snake;
      pos := (x, y);
    }

    /**
     * One tick: commit the pending direction, move the head, stop on a wall
     * or on the body short of its tail, grow and score on food (winning when
     * the grid is full, else placing new food), or drop the tail.
     */
    method GameLoop()
      requires Valid()
      modifies this
      ensures State() == Tick(width, height, old(State()), food)
      ensures Valid()
    {
      if !running || paused {
        return;
      }
      ghost var before := State();
      direction := pendingDirection;
      var (headX, headY) := snake[0];
      var (dx, dy) := direction;
      var newHead := (headX + dx, headY + dy);
      assert newHead == NextHead(before);
      if !(0 <= newHead.0 < width && 0 <= newHead.1 < height) {
        GameOver();
        Properties.WallCollision(width, height, before, food);
      } else if newHead in snake[..|snake| - 1] {
        GameOver();
        assert HitsSelf(width, height, before);
        Properties.SelfCollision(width, height, before, food);
      } else {
        assert Advances(width, height, before);
        snake := [newHead] + snake;
        if newHead == food {
          score := score + 1;
          speedMs := Max(MIN_SPEED_MS, INITIAL_SPEED_MS - score * SPEED_STEP_MS);
          assert speedMs == SpeedFor(score);
          if |snake| == width * height {
            running := false;
          } else {
            Properties.GrownSnakeOk(width, height, before);
            food := RandomEmptyCell();
          }
          Properties.TickEats(width, height, before, food);
        } else {
          snake := snake[..|snake| - 1];
          Properties.TickMoves(width, height, before, food);
        }
      }
      assert State() == Tick(width, height, before, food);
      Properties.TickPreservesInv(width, height, before, food);
    }

    /** Ends the game; the board stays as it is. */
    method GameOver()
      modifies this
      ensures State() == old(State()).(running := false)
    {
      running := false;
    }
  }

  /** Python's two-argument max. */
  function Max(a: int, b: int): (m: int)
    ensures m >= a && m >= b && (m == a || m == b)
  {
    if a >= b then a else b
  }
}
