/**
 * What the rules guarantee: the invariant holds from restart on and every
 * input keeps it, a tick grows the snake by one cell exactly when it eats,
 * collisions freeze the board, the tail cell is a legal target, the snake
 * cannot turn back into its neck, and finished games stay finished.
 */
module Properties {
  import opened Grid
  import opened Rules

  lemma SpeedExamples()
    ensures SpeedFor(0) == 120 && SpeedFor(10) == 100 && SpeedFor(40) == 60
  {
  }

  /** The game never slows down as the score rises. */
  lemma SpeedNonIncreasing(a: nat, b: nat)
    requires a <= b
    ensures SpeedFor(b) <= SpeedFor(a)
  {
  }

  /** The layout restart builds satisfies the invariant. */
  lemma InitialInv(w: int, h: int, first: Cell)
    requires GridOk(w, h) && FirstFoodOk(w, h, first)
    ensures Inv(w, h, Initial(w, h, first))
  {
  }

  /** A tick that is not processed changes nothing. */
  lemma IdleTick(w: int, h: int, g: Game, drawn: Cell)
    requires |g.snake| > 0 && !Active(g)
    ensures Tick(w, h, g, drawn) == g
  {
  }

  /** Leaving the grid ends the game; only the committed direction and the run flag change. */
  lemma WallCollision(w: int, h: int, g: Game, drawn: Cell)
    requires |g.snake| > 0 && HitsWall(w, h, g)
    ensures Tick(w, h, g, drawn) == g.(direction := g.pending, running := false)
  {
  }

  /** Running into the body other than the tail cell ends the game the same way. */
  lemma SelfCollision(w: int, h: int, g: Game, drawn: Cell)
    requires |g.snake| > 0 && HitsSelf(w, h, g)
    ensures Tick(w, h, g, drawn) == g.(direction := g.pending, running := false)
  {
  }

  /**
   * A tick that moves onto a cell other than the food puts the new head in
   * front and drops the tail; it commits the pending direction and changes
   * nothing else.
   */
  lemma TickMoves(w: int, h: int, g: Game, drawn: Cell)
    requires |g.snake| > 0 && Advances(w, h, g) && NextHead(g) != g.food
    ensures Tick(w, h, g, drawn)
      == g.(snake := [NextHead(g)] + Body(g.snake), direction := g.pending)
  {
  }

  /**
   * A tick that moves onto the food keeps the tail, scores one point and
   * speeds up; it wins and stops when the grid is full, and otherwise takes
   * the drawn cell as the next food.
   */
  lemma TickEats(w: int, h: int, g: Game, drawn: Cell)
    requires |g.snake| > 0 && Eats(w, h, g)
    ensures Tick(w, h, g, drawn)
      == g.(snake := [NextHead(g)] + g.snake, direction := g.pending,
            score := g.score + 1, speedMs := SpeedFor(g.score + 1),
            running := |g.snake| + 1 != w * h,
            food := if |g.snake| + 1 == w * h then g.food else drawn)
  {
  }

  /**
   * Length and score move together: both rise by exactly one when the tick
   * eats and stay put otherwise; the speed follows the new score.
   */
  lemma TickGrowth(w: int, h: int, g: Game, drawn: Cell)
    requires |g.snake| > 0 && g.speedMs == SpeedFor(g.score)
    ensures var r := Tick(w, h, g, drawn);
      && |r.snake| == |g.snake| + (if Eats(w, h, g) then 1 else 0)
      && r.score == g.score + (if Eats(w, h, g) then 1 else 0)
      && r.speedMs == SpeedFor(r.score)
      && MIN_SPEED_MS <= r.speedMs <= INITIAL_SPEED_MS
  {
  }

  /**
   * The tail cell is vacated in the same tick, so moving onto it is a plain
   * move: the game goes on and the snake keeps its length.
   */
  lemma TailCellIsFree(w: int, h: int, g: Game, drawn: Cell)
    requires Inv(w, h, g) && Active(g)
    requires NextHead(g) == g.snake[|g.snake| - 1]
    ensures var r := Tick(w, h, g, drawn);
      && r.running
      && r.snake == [NextHead(g)] + Body(g.snake)
      && |r.snake| == |g.snake|
  {
  }

  /**
   * The committed direction and the pending one are never opposite, so the
   * head never moves back onto the neck, however the direction keys are hit.
   */
  lemma NeckIsNeverEntered(w: int, h: int, g: Game, d: Direction)
    requires Inv(w, h, g) && g.running
    ensures NextHead(g) != g.snake[1]
    ensures NextHead(ChangeDirection(g, d)) != g.snake[1]
  {
  }

  /**
   * A direction key changes at most the pending direction; it takes effect
   * exactly when the game is playing and the key does not undo the committed
   * move, and is ignored when the game is paused or stopped.
   */
  lemma ChangeDirectionEffect(g: Game, d: Direction)
    ensures var r := ChangeDirection(g, d);
      && r == g.(pending := r.pending)
      && (Active(g) && !Opposite(g.direction, d) ==> r.pending == d)
      && (!Active(g) ==> r == g)
      && (Opposite(g.direction, d) ==> r == g)
  {
  }

  /** Pausing and resuming amounts to one tick: the pause itself moves nothing. */
  lemma PauseThenResume(w: int, h: int, g: Game, first: Cell, drawn: Cell)
    requires |g.snake| > 0 && Active(g)
    ensures TogglePause(w, h, g, first) == g.(paused := true)
    ensures TogglePause(w, h, TogglePause(w, h, g, first), drawn) == Tick(w, h, g, drawn)
  {
  }

  /** Once over or won, no input changes the game any more. */
  lemma TerminalAbsorbing(w: int, h: int, g: Game, d: Direction, drawn: Cell)
    requires |g.snake| > 0
    requires PhaseOf(w, h, g) == Over || PhaseOf(w, h, g) == Won
    ensures Tick(w, h, g, drawn) == g
    ensures ChangeDirection(g, d) == g
    ensures TogglePause(w, h, g, drawn) == g
  {
  }

  /** Food is a free grid cell in every state short of a won game. */
  lemma FoodNeverOnSnake(w: int, h: int, g: Game)
    requires Inv(w, h, g) && PhaseOf(w, h, g) != Won
    ensures InGrid(g.food, w, h) && g.food !in g.snake
  {
  }

  /**
   * A playing tick wins exactly when it eats the last free cell; a collision
   * is never a win.
   */
  lemma WinExactlyWhenGridFills(w: int, h: int, g: Game, drawn: Cell)
    requires Inv(w, h, g) && Active(g)
    ensures PhaseOf(w, h, Tick(w, h, g, drawn)) == Won <==> Eats(w, h, g) && |g.snake| + 1 == w * h
  {
  }

  /**
   * The snake grown by the new head is still on the grid and free of
   * repeats, so the random draw for the next food has a free cell to find
   * unless the grid is full.
   */
  lemma GrownSnakeOk(w: int, h: int, g: Game)
    requires Inv(w, h, g) && Eats(w, h, g)
    ensures var grown := [NextHead(g)] + g.snake;
      && AllInGrid(grown, w, h) && Distinct(grown) && |grown| <= w * h
  {
  }

  /** A tick keeps the invariant, given a draw that is a free cell when one is needed. */
  lemma TickPreservesInv(w: int, h: int, g: Game, drawn: Cell)
    requires Inv(w, h, g) && PlacementOk(w, h, g, drawn)
    ensures Inv(w, h, Tick(w, h, g, drawn))
  {
    if Advances(w, h, g) {
      var s, head := g.snake, NextHead(g);
      var r := Tick(w, h, g, drawn);
      var tail := if Eats(w, h, g) then s else Body(s);
      assert r.snake == [head] + tail;
      assert Distinct(tail) && head !in tail;
      assert AllInGrid(tail, w, h);
      assert r.snake[1] == s[0];
    }
  }

  lemma ChangeDirectionPreservesInv(w: int, h: int, g: Game, d: Direction)
    requires Inv(w, h, g)
    ensures Inv(w, h, ChangeDirection(g, d))
  {
  }

  lemma TogglePausePreservesInv(w: int, h: int, g: Game, drawn: Cell)
    requires Inv(w, h, g)
    requires g.paused ==> PlacementOk(w, h, g.(paused := false), drawn)
    ensures Inv(w, h, TogglePause(w, h, g, drawn))
  {
    if g.running && g.paused {
      TickPreservesInv(w, h, g.(paused := false), drawn);
    }
  }

  /**
   * Whatever came before, restart ends in the same layout: one cell right of
   * centre after its first tick, heading right, unpaused, with score 0, or 1
   * if the first food lay straight ahead; it is still running unless the grid
   * has only four cells, where that first bite wins.
   */
  lemma RestartLayout(w: int, h: int, first: Cell, drawn: Cell)
    requires GridOk(w, h) && FirstFoodOk(w, h, first)
    requires PlacementOk(w, h, Initial(w, h, first), drawn)
    ensures var r := Restart(w, h, first, drawn);
      && Inv(w, h, r)
      && r.direction == RIGHT && r.pending == RIGHT && !r.paused
      && r.snake[0] == (w / 2 + 1, h / 2)
      && r.snake[1..] == (if first == r.snake[0] then InitialSnake(w, h) else InitialSnake(w, h)[..2])
      && r.score == (if first == r.snake[0] then 1 else 0)
      && (r.running <==> w * h != 4)
  {
    var g := Initial(w, h, first);
    InitialInv(w, h, first);
    TickPreservesInv(w, h, g, drawn);
    assert Advances(w, h, g);
    if w * h == 4 {
      assert h == 1 by {
        assert w * h >= 4 * h;
      }
      assert first == (3, 0);
    } else {
      assert w * h > 4 by {
        assert w * h >= 4 * h;
        if h == 1 { assert w > 4; }
      }
    }
  }

  /**
   * On the shipped 30 by 20 grid, restart leaves the head at (16, 10) with
   * (15, 10) and (14, 10) behind it, and the game running.
   */
  lemma ShippedRestart(first: Cell, drawn: Cell)
    requires FirstFoodOk(GRID_WIDTH, GRID_HEIGHT, first)
    requires PlacementOk(GRID_WIDTH, GRID_HEIGHT, Initial(GRID_WIDTH, GRID_HEIGHT, first), drawn)
    ensures GridOk(GRID_WIDTH, GRID_HEIGHT)
    ensures var r := Restart(GRID_WIDTH, GRID_HEIGHT, first, drawn);
      && Inv(GRID_WIDTH, GRID_HEIGHT, r)
      && r.snake[..3] == [(16, 10), (15, 10), (14, 10)]
      && r.running
  {
    RestartLayout(GRID_WIDTH, GRID_HEIGHT, first, drawn);
    var r := Restart(GRID_WIDTH, GRID_HEIGHT, first, drawn);
    assert r.snake[..3] == [r.snake[0]] + r.snake[1..][..2];
  }

  /**
   * On a 3 by 2 grid, a five-cell snake that eats the last free cell fills
   * the grid and wins with six cells.
   */
  lemma SmallGridWin()
    ensures var g := Game([(2, 1), (2, 0), (1, 0), (0, 0), (0, 1)], (0, 1), (-1, 0), (1, 1), 2, SpeedFor(2), true, false);
      var r := Tick(3, 2, g, (0, 0));
      && Eats(3, 2, g)
      && |r.snake| == 6 && r.score == 3
      && PhaseOf(3, 2, r) == Won
  {
  }
}
