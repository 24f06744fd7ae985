/**
 * The game's rules on plain values: the whole observable state of a game
 * as a `World`, the per-tick transition, the key-dispatch decision and the
 * effect of each input, and what holds over any run of ticks and inputs.
 * The `Game` class is proved to follow these relations.
 */
module GameRules {
  import opened Wrappers
  import opened Grid
  import opened SnakeEntity

  /** The score multiple at which the game speeds up. */
  const SpeedStepScore := 50

  /** The keys the game distinguishes; every other key is `OtherKey`. */
  datatype Key =
    | ArrowUp | ArrowDown | ArrowLeft | ArrowRight
    | KeyW | KeyA | KeyS | KeyD
    | KeyP | KeyR | KeyQ
    | OtherKey

  /** A window-close request, a key press, or any other event (ignored). */
  datatype Event = QuitEvent | KeyDown(key: Key) | OtherEvent

  /** What an event makes the game do. */
  datatype Action = StopRunning | Restart | TogglePause | Turn(d: Direction) | NoAction

  /** Arrow keys and W/A/S/D steer. */
  function KeyDirection(k: Key): Option<Direction>
  {
    match k
    case ArrowUp => Some(Up)
    case KeyW => Some(Up)
    case ArrowDown => Some(Down)
    case KeyS => Some(Down)
    case ArrowLeft => Some(Left)
    case KeyA => Some(Left)
    case ArrowRight => Some(Right)
    case KeyD => Some(Right)
    case _ => None
  }

  /**
   * The decision tree for one event: a quit request always stops the game;
   * after game over only R (restart) and Q (stop) act; otherwise P toggles
   * the pause, and steering keys act only while not paused.
   */
  function Dispatch(gameOver: bool, paused: bool, e: Event): (a: Action)
    ensures a == StopRunning <==> e == QuitEvent || (gameOver && e == KeyDown(KeyQ))
    ensures a == Restart <==> gameOver && e == KeyDown(KeyR)
    ensures a == TogglePause <==> !gameOver && e == KeyDown(KeyP)
    ensures a.Turn? <==> !gameOver && !paused && e.KeyDown? && KeyDirection(e.key).Some?
    ensures a.Turn? ==> KeyDirection(e.key) == Some(a.d)
  {
    match e
    case QuitEvent => StopRunning
    case OtherEvent => NoAction
    case KeyDown(k) =>
      if gameOver then
        if k == KeyR then Restart
        else if k == KeyQ then StopRunning
        else NoAction
      else if k == KeyP then TogglePause
      else if !paused then
        match KeyDirection(k)
        case Some(d) => Turn(d)
        case None => NoAction
      else NoAction
  }

  /** Everything a game holds: the snake, the food, and the controller's fields. */
  datatype World = World(
    body: seq<Position>,
    direction: Direction,
    growPending: int,
    food: Position,
    eaten: bool,
    score: int,
    speed: int,
    gameOver: bool,
    paused: bool,
    running: bool)

  /** The state of a new or restarted game, given where the food was placed. */
  function FreshWorld(cfg: Config, food: Position, running: bool): World
    requires cfg.Valid()
  {
    World(InitialBody(cfg.width / 2, cfg.height / 2, cfg.initialLength), Right, 0,
          food, false, 0, cfg.initialSpeed, false, false, running)
  }

  /** A freshly started game: initial snake and counters, food in the grid and off the snake. */
  predicate IsFresh(cfg: Config, w: World)
  {
    cfg.Valid() && w == FreshWorld(cfg, w.food, w.running) && cfg.InGrid(w.food) && w.food !in w.body
  }

  /**
   * A game can be started: some in-grid cell is free of the initial snake,
   * so the first food placement finds a cell.
   */
  ghost predicate CanStart(cfg: Config)
  {
    cfg.Valid() && HasFreeCell(cfg, InitialBody(cfg.width / 2, cfg.height / 2, cfg.initialLength))
  }

  /** With two or more rows a game can always start: the initial snake lies in one row. */
  lemma TallGridCanStart(cfg: Config)
    requires cfg.Valid() && cfg.height >= 2
    ensures CanStart(cfg)
  {
    var body := InitialBody(cfg.width / 2, cfg.height / 2, cfg.initialLength);
    assert cfg.InGrid(Pos(0, 0)) && Pos(0, 0) !in body;
  }

  /** A game can start whenever the initial snake is shorter than the number of cells. */
  lemma ShortSnakeCanStart(cfg: Config)
    requires cfg.Valid() && cfg.initialLength < cfg.width * cfg.height
    ensures CanStart(cfg)
  {
    RoomOnGrid(cfg, InitialBody(cfg.width / 2, cfg.height / 2, cfg.initialLength));
  }

  /** The world right after the snake's move, before any check. */
  function AfterMove(w: World): World
    requires |w.body| > 0
  {
    w.(body := Moved(w.body, w.direction, w.growPending),
       growPending := PendingAfterMove(w.growPending))
  }

  /** The tick moves the snake onto the food without colliding. */
  predicate Eats(cfg: Config, w: World)
    requires |w.body| > 0
  {
    var m := AfterMove(w);
    !w.gameOver && !w.paused && !Collides(cfg, m.body) && m.body[0] == w.food
  }

  /** The speed after the score reaches `score` by eating. */
  function SpeedAfterEating(cfg: Config, score: int, speed: int): int
  {
    if score % SpeedStepScore == 0 && speed < cfg.maxSpeed then speed + cfg.speedIncrement else speed
  }

  /**
   * One tick, in its fixed order: nothing while over or paused; otherwise
   * move, then stop on a collision, then eat (score, growth, new food off
   * the moved body, speed-up at every multiple of 50 below the maximum).
   */
  predicate TickStep(cfg: Config, w: World, w': World)
    requires |w.body| > 0
  {
    if w.gameOver || w.paused then w' == w
    else
      var m := AfterMove(w);
      if Collides(cfg, m.body) then w' == m.(gameOver := true)
      else if m.body[0] != m.food then w' == m
      else
        var score := m.score + cfg.foodScore;
        && w' == m.(growPending := m.growPending + 1, food := w'.food, eaten := false,
                    score := score, speed := SpeedAfterEating(cfg, score, m.speed))
        && cfg.InGrid(w'.food) && w'.food !in m.body
  }

  /** A tick that eats can place the new food: some cell is free of the moved body. */
  ghost predicate CanTick(cfg: Config, w: World)
    requires |w.body| > 0
  {
    Eats(cfg, w) ==> HasFreeCell(cfg, AfterMove(w).body)
  }

  /** The effect of one event, according to `Dispatch`. */
  predicate EventStep(cfg: Config, w: World, e: Event, w': World)
  {
    match Dispatch(w.gameOver, w.paused, e)
    case StopRunning => w' == w.(running := false)
    case Restart => IsFresh(cfg, w') && w'.running == w.running
    case TogglePause => w' == w.(paused := !w.paused)
    case Turn(d) => w' == w.(direction := Turned(w.direction, d))
    case NoAction => w' == w
  }

  /** One input to the game: a clock tick or an event. */
  datatype Input = Tick | Press(e: Event)

  predicate InputStep(cfg: Config, w: World, input: Input, w': World)
  {
    |w.body| > 0 &&
    match input
    case Tick => TickStep(cfg, w, w')
    case Press(e) => EventStep(cfg, w, e, w')
  }

  /** `ws` are the successive worlds of a game fed `inputs`. */
  predicate IsRun(cfg: Config, ws: seq<World>, inputs: seq<Input>)
  {
    |ws| == |inputs| + 1 &&
    forall i :: 0 <= i < |inputs| ==> InputStep(cfg, ws[i], inputs[i], ws[i + 1])
  }

  /** The events of one batch as inputs. */
  function Presses(events: seq<Event>): (inputs: seq<Input>)
    ensures |inputs| == |events|
    ensures forall i :: 0 <= i < |events| ==> inputs[i] == Press(events[i])
  {
    seq(|events|, i requires 0 <= i < |events| => Press(events[i]))
  }

  // ---------------------------------------------------------------------
  // One tick

  /** While over or paused a tick changes nothing. */
  lemma TickFrozen(cfg: Config, w: World, w': World)
    requires |w.body| > 0 && TickStep(cfg, w, w')
    requires w.gameOver || w.paused
    ensures w' == w
  {
  }

  /** A collision ends the game with score, speed and food as they were. */
  lemma TickCollision(cfg: Config, w: World, w': World)
    requires |w.body| > 0 && TickStep(cfg, w, w')
    requires !w.gameOver && !w.paused && Collides(cfg, AfterMove(w).body)
    ensures w'.gameOver
    ensures w'.score == w.score && w'.speed == w.speed
    ensures w'.food == w.food && w'.eaten == w.eaten
    ensures w'.body == Moved(w.body, w.direction, w.growPending)
  {
  }

  /** A tick that leaves the game running leaves the head in the grid and off the rest of the body. */
  lemma TickSurvivorHeadSafe(cfg: Config, w: World, w': World)
    requires |w.body| > 0 && TickStep(cfg, w, w')
    requires !w.gameOver && !w'.gameOver
    requires !w.paused
    ensures |w'.body| > 0 && cfg.InGrid(w'.body[0])
    ensures w'.body[0] !in w'.body[1..]
  {
  }

  /** Eating adds FOOD_SCORE, owes one more segment, and places fresh food off the snake. */
  lemma TickEating(cfg: Config, w: World, w': World)
    requires |w.body| > 0 && TickStep(cfg, w, w')
    requires Eats(cfg, w)
    ensures w'.score == w.score + cfg.foodScore
    ensures w'.growPending == PendingAfterMove(w.growPending) + 1
    ensures w'.body == Moved(w.body, w.direction, w.growPending)
    ensures cfg.InGrid(w'.food) && w'.food !in w'.body && !w'.eaten
    ensures w'.speed == SpeedAfterEating(cfg, w'.score, w.speed)
    ensures !w'.gameOver
  {
  }

  /** A tick that does not eat leaves score, speed and food alone. */
  lemma TickNotEating(cfg: Config, w: World, w': World)
    requires |w.body| > 0 && TickStep(cfg, w, w')
    requires !Eats(cfg, w)
    ensures w'.score == w.score && w'.speed == w.speed
    ensures w'.food == w.food && w'.eaten == w.eaten
  {
  }

  /**
   * The speed changes only by one increment, only when the new score is a
   * multiple of 50 and the old speed was below the maximum.
   */
  lemma TickSpeedRule(cfg: Config, w: World, w': World)
    requires |w.body| > 0 && TickStep(cfg, w, w')
    requires w'.speed != w.speed
    ensures Eats(cfg, w)
    ensures w'.speed == w.speed + cfg.speedIncrement
    ensures w'.score % SpeedStepScore == 0 && w.speed < cfg.maxSpeed
  {
  }

  /** A tick that eats is possible whenever the snake, even after growing, is shorter than the grid. */
  lemma RoomForFood(cfg: Config, w: World)
    requires cfg.Valid() && |w.body| > 0
    requires |w.body| + 1 < cfg.width * cfg.height
    ensures CanTick(cfg, w)
  {
    RoomOnGrid(cfg, AfterMove(w).body);
  }

  // ---------------------------------------------------------------------
  // Runs of ticks and events

  /** The prefix of a run is a run. */
  lemma RunPrefix(cfg: Config, ws: seq<World>, inputs: seq<Input>)
    requires IsRun(cfg, ws, inputs) && |inputs| > 0
    ensures IsRun(cfg, ws[..|ws| - 1], inputs[..|inputs| - 1])
  {
  }

  /** No R key among the inputs, so no restart can happen. */
  predicate NoRestartKey(inputs: seq<Input>)
  {
    forall i :: 0 <= i < |inputs| ==> inputs[i] != Press(KeyDown(KeyR))
  }

  /** Within a game (no restart), neither the score nor the speed ever decreases. */
  /** No event of the run is dispatched as a restart: the run stays within one game. */
  predicate NoRestart(ws: seq<World>, inputs: seq<Input>)
    requires |ws| == |inputs| + 1
  {
    forall i :: 0 <= i < |inputs| && inputs[i].Press? ==>
      Dispatch(ws[i].gameOver, ws[i].paused, inputs[i].e) != Restart
  }

  lemma {:induction false} RunScoreSpeedMonotone(cfg: Config, ws: seq<World>, inputs: seq<Input>)
    requires cfg.Valid() && IsRun(cfg, ws, inputs) && NoRestart(ws, inputs)
    ensures ws[0].score <= ws[|inputs|].score
    ensures ws[0].speed <= ws[|inputs|].speed
    decreases |inputs|
  {
    if |inputs| > 0 {
      var n := |inputs|;
      RunPrefix(cfg, ws, inputs);
      RunScoreSpeedMonotone(cfg, ws[..n], inputs[..n - 1]);
      assert InputStep(cfg, ws[n - 1], inputs[n - 1], ws[n]);
    }
  }

  /**
   * Game over is sticky: until an R key, nothing but the running flag
   * changes, whatever ticks and other events arrive.
   */
  lemma {:induction false} RunGameOverFrozen(cfg: Config, ws: seq<World>, inputs: seq<Input>)
    requires IsRun(cfg, ws, inputs) && NoRestartKey(inputs)
    requires ws[0].gameOver
    ensures ws[|inputs|] == ws[0].(running := ws[|inputs|].running)
    decreases |inputs|
  {
    if |inputs| > 0 {
      var n := |inputs|;
      RunPrefix(cfg, ws, inputs);
      RunGameOverFrozen(cfg, ws[..n], inputs[..n - 1]);
      assert InputStep(cfg, ws[n - 1], inputs[n - 1], ws[n]);
      assert inputs[n - 1] != Press(KeyDown(KeyR));
    }
  }

  /** Once the game stops running nothing makes it run again. */
  lemma {:induction false} RunStaysStopped(cfg: Config, ws: seq<World>, inputs: seq<Input>)
    requires IsRun(cfg, ws, inputs)
    requires !ws[0].running
    ensures !ws[|inputs|].running
    decreases |inputs|
  {
    if |inputs| > 0 {
      var n := |inputs|;
      RunPrefix(cfg, ws, inputs);
      RunStaysStopped(cfg, ws[..n], inputs[..n - 1]);
      assert InputStep(cfg, ws[n - 1], inputs[n - 1], ws[n]);
    }
  }

  /** The highest speed the rules can reach: the last increment may overshoot the maximum. */
  function SpeedCap(cfg: Config): int
  {
    Max(cfg.initialSpeed, cfg.maxSpeed - 1 + cfg.speedIncrement)
  }

  /** The speed stays bounded across any run, restarts included. */
  lemma {:induction false} RunSpeedCapped(cfg: Config, ws: seq<World>, inputs: seq<Input>)
    requires IsRun(cfg, ws, inputs)
    requires ws[0].speed <= SpeedCap(cfg)
    ensures ws[|inputs|].speed <= SpeedCap(cfg)
    decreases |inputs|
  {
    if |inputs| > 0 {
      var n := |inputs|;
      RunPrefix(cfg, ws, inputs);
      RunSpeedCapped(cfg, ws[..n], inputs[..n - 1]);
      assert InputStep(cfg, ws[n - 1], inputs[n - 1], ws[n]);
    }
  }

  /** The food is in the grid and not under any segment of the snake. */
  predicate FoodClear(cfg: Config, w: World)
  {
    cfg.InGrid(w.food) && w.food !in w.body
  }

  /** One step keeps the food clear of the snake. */
  lemma StepKeepsFoodClear(cfg: Config, w: World, input: Input, w': World)
    requires InputStep(cfg, w, input, w') && FoodClear(cfg, w)
    ensures FoodClear(cfg, w')
  {
  }

  /**
   * The food never lies under the snake: from a clear start it stays clear
   * over any run, because the head eats it before any segment can cover it.
   */
  lemma {:induction false} RunFoodClear(cfg: Config, ws: seq<World>, inputs: seq<Input>)
    requires IsRun(cfg, ws, inputs) && FoodClear(cfg, ws[0])
    ensures FoodClear(cfg, ws[|inputs|])
    decreases |inputs|
  {
    if |inputs| > 0 {
      var n := |inputs|;
      RunPrefix(cfg, ws, inputs);
      RunFoodClear(cfg, ws[..n], inputs[..n - 1]);
      StepKeepsFoodClear(cfg, ws[n - 1], inputs[n - 1], ws[n]);
    }
  }

  /** No cell occurs twice in `body`. */
  predicate Distinct(body: seq<Position>)
  {
    forall i, j :: 0 <= i < j < |body| ==> body[i] != body[j]
  }

  /** While the game is not over, the snake's cells are distinct. */
  predicate AliveDistinct(w: World)
  {
    !w.gameOver ==> Distinct(w.body)
  }

  /** One step keeps the cells of a live snake distinct. */
  lemma StepKeepsAliveDistinct(cfg: Config, w: World, input: Input, w': World)
    requires InputStep(cfg, w, input, w') && AliveDistinct(w)
    ensures AliveDistinct(w')
  {
  }

  /**
   * A live snake never overlaps itself: from a start where it does not, no
   * run of ticks and events, restarts included, reaches a live state with a
   * repeated cell, because a head landing on the body ends the game.
   */
  lemma {:induction false} RunAliveDistinct(cfg: Config, ws: seq<World>, inputs: seq<Input>)
    requires IsRun(cfg, ws, inputs) && AliveDistinct(ws[0])
    ensures AliveDistinct(ws[|inputs|])
    decreases |inputs|
  {
    if |inputs| > 0 {
      var n := |inputs|;
      RunPrefix(cfg, ws, inputs);
      RunAliveDistinct(cfg, ws[..n], inputs[..n - 1]);
      StepKeepsAliveDistinct(cfg, ws[n - 1], inputs[n - 1], ws[n]);
    }
  }

  /** Every cell of `body` is inside the grid. */
  predicate BodyInGrid(cfg: Config, body: seq<Position>)
  {
    forall i :: 0 <= i < |body| ==> cfg.InGrid(body[i])
  }

  /** While the game is not over, the whole snake is inside the grid. */
  predicate AliveInGrid(cfg: Config, w: World)
  {
    !w.gameOver ==> BodyInGrid(cfg, w.body)
  }

  /** The initial snake, centred and stretching leftwards, fits in the grid. */
  predicate StartsInGrid(cfg: Config)
  {
    cfg.initialLength <= cfg.width / 2 + 1
  }

  /** A snake longer than half the width starts with its tail off the grid, yet the game runs. */
  lemma InitialTailOffGrid(cfg: Config, food: Position, running: bool)
    requires cfg.Valid() && !StartsInGrid(cfg)
    ensures !FreshWorld(cfg, food, running).gameOver
    ensures !AliveInGrid(cfg, FreshWorld(cfg, food, running))
  {
    var body := FreshWorld(cfg, food, running).body;
    assert !cfg.InGrid(body[cfg.initialLength - 1]);
  }

  /** One step keeps a live snake inside the grid, when restarts place it inside. */
  lemma StepKeepsAliveInGrid(cfg: Config, w: World, input: Input, w': World)
    requires StartsInGrid(cfg)
    requires InputStep(cfg, w, input, w') && AliveInGrid(cfg, w)
    ensures AliveInGrid(cfg, w')
  {
    if input.Press? && Dispatch(w.gameOver, w.paused, input.e) == Restart {
      assert forall i :: 0 <= i < |w'.body| ==> w'.body[i] == Pos(cfg.width / 2 - i, cfg.height / 2);
    }
  }

  /**
   * A live snake never leaves the grid: a head that steps out ends the game
   * at once, and the rest of the body only retraces cells the head visited.
   */
  lemma {:induction false} RunAliveInGrid(cfg: Config, ws: seq<World>, inputs: seq<Input>)
    requires StartsInGrid(cfg)
    requires IsRun(cfg, ws, inputs) && AliveInGrid(cfg, ws[0])
    ensures AliveInGrid(cfg, ws[|inputs|])
    decreases |inputs|
  {
    if |inputs| > 0 {
      var n := |inputs|;
      RunPrefix(cfg, ws, inputs);
      RunAliveInGrid(cfg, ws[..n], inputs[..n - 1]);
      StepKeepsAliveInGrid(cfg, ws[n - 1], inputs[n - 1], ws[n]);
    }
  }

  /** A freshly started game meets the start condition of every run invariant above. */
  lemma FreshStartsClear(cfg: Config, w: World)
    requires IsFresh(cfg, w)
    ensures FoodClear(cfg, w) && AliveDistinct(w)
    ensures StartsInGrid(cfg) ==> AliveInGrid(cfg, w)
  {
  }
}
