/**
 * The game-state rules of the Snake game as pure functions on a snapshot of
 * the game: what one tick, one direction key, one pause key and one restart
 * do to the snake, the food, the score, the speed and the run flags. The
 * class in module Snake is proved to perform exactly these transitions.
 */
module Rules {
  import opened Grid

  /** The grid the program is shipped with; the model takes W and H as parameters. */
  const GRID_WIDTH := 30
  const GRID_HEIGHT := 20

  /** Tick interval at score 0, its floor, and the decrease per point scored. */
  const INITIAL_SPEED_MS := 120
  const MIN_SPEED_MS := 60
  const SPEED_STEP_MS := 2

  /** The four unit moves bound to the arrow and WASD keys. */
  type Direction = d: Cell | d == (0, -1) || d == (0, 1) || d == (-1, 0) || d == (1, 0)
    witness (1, 0)

  const RIGHT: Direction := (1, 0)

  /** Grids on which the centred three-cell snake fits: its tail is at W/2 - 2. */
  predicate GridOk(w: int, h: int) {
    w >= 4 && h >= 1
  }

  function Move(c: Cell, d: Cell): Cell {
    (c.0 + d.0, c.1 + d.1)
  }

  /** `e` undoes `d`: the component sums are (0, 0). */
  predicate Opposite(d: Cell, e: Cell) {
    d.0 + e.0 == 0 && d.1 + e.1 == 0
  }

  /** Tick interval after `score` points: 2 ms faster per point, never below 60 ms. */
  function SpeedFor(score: nat): (ms: int)
    ensures MIN_SPEED_MS <= ms <= INITIAL_SPEED_MS
    ensures ms == MIN_SPEED_MS <==> score >= 30
    ensures ms == INITIAL_SPEED_MS <==> score == 0
  {
    var decayed := INITIAL_SPEED_MS - score * SPEED_STEP_MS;
    if MIN_SPEED_MS >= decayed then MIN_SPEED_MS else decayed
  }

  /** A snapshot of the game's mutable state, head of the snake first. */
  datatype Game = Game(
    snake: seq<Cell>,
    direction: Direction,
    pending: Direction,
    food: Cell,
    score: nat,
    speedMs: int,
    running: bool,
    paused: bool)

  /** The four run states the two flags encode. */
  datatype Phase = Playing | Paused | Over | Won

  function PhaseOf(w: int, h: int, g: Game): Phase {
    if g.running then (if g.paused then Paused else Playing)
    else if |g.snake| == w * h then Won
    else Over
  }

  /** Three cells in a row, head at the centre, body trailing to the left. */
  function InitialSnake(w: int, h: int): seq<Cell> {
    var cx, cy := w / 2, h / 2;
    [(cx, cy), (cx - 1, cy), (cx - 2, cy)]
  }

  /** The state restart builds before its first tick, with `food` as the first food. */
  function Initial(w: int, h: int, food: Cell): Game {
    Game(InitialSnake(w, h), RIGHT, RIGHT, food, 0, INITIAL_SPEED_MS, true, false)
  }

  /** A first food that restart may place: in the grid and off the snake. */
  predicate FirstFoodOk(w: int, h: int, food: Cell) {
    InGrid(food, w, h) && food !in InitialSnake(w, h)
  }

  /**
   * The invariant every reachable state keeps: the snake is on the grid and
   * never overlaps itself, one cell longer than its starting three per point;
   * the food is a free cell unless the snake fills the grid (then the game is
   * won and over); the speed follows the score; the pending move never undoes
   * the committed one; and while running, the head is one committed move
   * ahead of the neck.
   */
  ghost predicate Inv(w: int, h: int, g: Game) {
    && GridOk(w, h)
    && |g.snake| == g.score + 3
    && |g.snake| <= w * h
    && AllInGrid(g.snake, w, h)
    && Distinct(g.snake)
    && (|g.snake| < w * h ==> InGrid(g.food, w, h) && g.food !in g.snake)
    && (|g.snake| == w * h ==> !g.running)
    && g.speedMs == SpeedFor(g.score)
    && !Opposite(g.direction, g.pending)
    && (g.paused ==> g.running)
    && (g.running ==> g.snake[0] == Move(g.snake[1], g.direction))
  }

  /** Ticks are processed only while running and not paused. */
  predicate Active(g: Game) {
    g.running && !g.paused
  }

  /** Where the head goes on the next tick: one pending move on. */
  function NextHead(g: Game): Cell
    requires |g.snake| > 0
  {
    Move(g.snake[0], g.pending)
  }

  /** The snake without its tail cell, which the tail vacates on a plain move. */
  function Body(s: seq<Cell>): seq<Cell>
    requires |s| > 0
  {
    s[..|s| - 1]
  }

  predicate HitsWall(w: int, h: int, g: Game)
    requires |g.snake| > 0
  {
    Active(g) && !InGrid(NextHead(g), w, h)
  }

  predicate HitsSelf(w: int, h: int, g: Game)
    requires |g.snake| > 0
  {
    Active(g) && InGrid(NextHead(g), w, h) && NextHead(g) in Body(g.snake)
  }

  /** The next tick moves the head without a collision. */
  predicate Advances(w: int, h: int, g: Game)
    requires |g.snake| > 0
  {
    Active(g) && InGrid(NextHead(g), w, h) && NextHead(g) !in Body(g.snake)
  }

  predicate Eats(w: int, h: int, g: Game)
    requires |g.snake| > 0
  {
    Advances(w, h, g) && NextHead(g) == g.food
  }

  /**
   * One game-loop step. `drawn` is the cell the random draw yields when the
   * step eats without filling the grid; it is ignored otherwise.
   */
  function Tick(w: int, h: int, g: Game, drawn: Cell): (r: Game)
    requires |g.snake| > 0
    ensures |r.snake| == |g.snake| || |r.snake| == |g.snake| + 1
    ensures r.score - g.score == |r.snake| - |g.snake|
    ensures r.paused == g.paused && r.pending == g.pending
    ensures r.running ==> g.running
  {
    if !g.running || g.paused then g
    else
      var committed := g.(direction := g.pending);
      var head := Move(committed.snake[0], committed.direction);
      if !InGrid(head, w, h) then committed.(running := false)
      else if head in Body(committed.snake) then committed.(running := false)
      else
        var grown := committed.(snake := [head] + committed.snake);
        if head == grown.food then
          var scored := grown.(score := grown.score + 1);
          var sped := scored.(speedMs := SpeedFor(scored.score));
          if |sped.snake| == w * h then sped.(running := false)
          else sped.(food := drawn)
        else grown.(snake := Body(grown.snake))
  }

  /**
   * What the random draw of a tick must deliver: when the tick eats and the
   * grid is not yet full, a grid cell off the grown snake.
   */
  predicate PlacementOk(w: int, h: int, g: Game, drawn: Cell)
    requires |g.snake| > 0
  {
    Eats(w, h, g) && |g.snake| + 1 != w * h ==>
      InGrid(drawn, w, h) && drawn !in [NextHead(g)] + g.snake
  }

  /**
   * A direction key: ignored unless playing, and ignored if it undoes the
   * committed move. Only the pending direction can change, and only to the
   * key's direction.
   */
  function ChangeDirection(g: Game, d: Direction): (r: Game)
    ensures r == g.(pending := r.pending)
    ensures r.pending == g.pending || (Active(g) && !Opposite(g.direction, d) && r.pending == d)
  {
    if !g.running || g.paused then g
    else if Opposite(g.direction, d) then g
    else g.(pending := d)
  }

  /**
   * The pause key: ignored once the game is over; it flips the pause flag of
   * a running game, and only resuming moves anything, by ticking at once.
   */
  function TogglePause(w: int, h: int, g: Game, drawn: Cell): (r: Game)
    requires |g.snake| > 0
    ensures !g.running ==> r == g
    ensures g.running ==> r.paused == !g.paused
    ensures !g.paused ==> r.snake == g.snake && r.score == g.score && r.food == g.food
    ensures r.running ==> g.running
  {
    if !g.running then g
    else if !g.paused then g.(paused := true)
    else Tick(w, h, g.(paused := false), drawn)
  }

  /**
   * Restart: the initial layout with `first` as food, followed by one tick.
   * Whatever the earlier state, the game comes back unpaused, heading right,
   * with a three- or four-cell snake and a score of at most one.
   */
  function Restart(w: int, h: int, first: Cell, drawn: Cell): (r: Game)
    ensures !r.paused && r.pending == RIGHT && r.direction == RIGHT
    ensures r.score <= 1 && |r.snake| == 3 + r.score
  {
    Tick(w, h, Initial(w, h, first), drawn)
  }
}
