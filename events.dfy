/**
 * A game session as the single event loop delivers it: key presses and
 * timer ticks, one after another, never overlapping. The lemmas lift the
 * one-step properties of module Properties to whole sessions.
 */
module Events {
  import opened Grid
  import opened Rules
  import Properties

  /**
   * One event: a direction key, the pause key, the restart key or a timer
   * tick. Each carries the cells the random draws of its handler yield.
   */
  datatype Input =
    | Key(d: Direction)
    | Space(drawn: Cell)
    | RestartKey(first: Cell, drawn: Cell)
    | Timer(drawn: Cell)

  /** The state after the handler for `input` has run. */
  function Apply(w: int, h: int, g: Game, input: Input): (r: Game)
    requires |g.snake| > 0
    ensures |r.snake| > 0
  {
    match input
    case Key(d) => ChangeDirection(g, d)
    case Space(drawn) => TogglePause(w, h, g, drawn)
    case RestartKey(first, drawn) => Restart(w, h, first, drawn)
    case Timer(drawn) => Tick(w, h, g, drawn)
  }

  /** The state after a whole sequence of events. */
  function Run(w: int, h: int, g: Game, inputs: seq<Input>): (r: Game)
    requires |g.snake| > 0
    ensures |r.snake| > 0
    decreases |inputs|
  {
    if inputs == [] then g
    else Run(w, h, Apply(w, h, g, inputs[0]), inputs[1..])
  }

  /** The random draws of one handler are free cells where the handler needs one. */
  predicate DrawOk(w: int, h: int, g: Game, input: Input)
    requires |g.snake| > 0
  {
    match input
    case Key(_) => true
    case Space(drawn) => g.paused ==> PlacementOk(w, h, g.(paused := false), drawn)
    case RestartKey(first, drawn) =>
      FirstFoodOk(w, h, first) && PlacementOk(w, h, Initial(w, h, first), drawn)
    case Timer(drawn) => PlacementOk(w, h, g, drawn)
  }

  /** Every draw along the session is a free cell where one is needed. */
  predicate DrawsOk(w: int, h: int, g: Game, inputs: seq<Input>)
    requires |g.snake| > 0
    decreases |inputs|
  {
    inputs == [] ||
    (DrawOk(w, h, g, inputs[0]) && DrawsOk(w, h, Apply(w, h, g, inputs[0]), inputs[1..]))
  }

  lemma ApplyPreservesInv(w: int, h: int, g: Game, input: Input)
    requires Inv(w, h, g) && DrawOk(w, h, g, input)
    ensures Inv(w, h, Apply(w, h, g, input))
  {
    match input
    case Key(d) => Properties.ChangeDirectionPreservesInv(w, h, g, d);
    case Space(drawn) => Properties.TogglePausePreservesInv(w, h, g, drawn);
    case RestartKey(first, drawn) => Properties.RestartLayout(w, h, first, drawn);
    case Timer(drawn) => Properties.TickPreservesInv(w, h, g, drawn);
  }

  /**
   * Every state a session reaches keeps the invariant: the snake stays on the
   * grid without overlapping itself, and the food stays off it until a win.
   */
  lemma {:induction false} RunPreservesInv(w: int, h: int, g: Game, inputs: seq<Input>)
    requires Inv(w, h, g) && DrawsOk(w, h, g, inputs)
    ensures Inv(w, h, Run(w, h, g, inputs))
    decreases |inputs|
  {
    if inputs != [] {
      ApplyPreservesInv(w, h, g, inputs[0]);
      RunPreservesInv(w, h, Apply(w, h, g, inputs[0]), inputs[1..]);
    }
  }

  /** Everything reachable from a restart keeps the invariant. */
  lemma ReachableInv(w: int, h: int, first: Cell, drawn: Cell, inputs: seq<Input>)
    requires GridOk(w, h) && FirstFoodOk(w, h, first)
    requires PlacementOk(w, h, Initial(w, h, first), drawn)
    requires DrawsOk(w, h, Restart(w, h, first, drawn), inputs)
    ensures Inv(w, h, Run(w, h, Restart(w, h, first, drawn), inputs))
  {
    Properties.RestartLayout(w, h, first, drawn);
    RunPreservesInv(w, h, Restart(w, h, first, drawn), inputs);
  }

  /** Only the restart key leaves a lost or won game. */
  lemma {:induction false} FinishedStaysFinished(w: int, h: int, g: Game, inputs: seq<Input>)
    requires |g.snake| > 0 && !g.running
    requires forall i :: 0 <= i < |inputs| ==> !inputs[i].RestartKey?
    ensures Run(w, h, g, inputs) == g
    decreases |inputs|
  {
    if inputs != [] {
      assert Apply(w, h, g, inputs[0]) == g;
      FinishedStaysFinished(w, h, g, inputs[1..]);
    }
  }

  /**
   * Without a restart the score never falls, and the snake grows exactly as
   * the score rises: one cell per point.
   */
  lemma {:induction false} ScoreAndLengthInStep(w: int, h: int, g: Game, inputs: seq<Input>)
    requires |g.snake| > 0
    requires forall i :: 0 <= i < |inputs| ==> !inputs[i].RestartKey?
    ensures Run(w, h, g, inputs).score >= g.score
    ensures |Run(w, h, g, inputs).snake| - Run(w, h, g, inputs).score == |g.snake| - g.score
    decreases |inputs|
  {
    if inputs != [] {
      var next := Apply(w, h, g, inputs[0]);
      assert next.score >= g.score && |next.snake| - next.score == |g.snake| - g.score by {
        match inputs[0]
        case Key(d) =>
        case Space(drawn) =>
        case Timer(drawn) =>
      }
      ScoreAndLengthInStep(w, h, next, inputs[1..]);
    }
  }
}
