/**
 * The game controller: owns one snake and one food, keeps score, speed and
 * the running / paused / game-over flags, and advances the game one tick at
 * a time. Each method is proved to follow the relations of `GameRules`.
 */
module GameController {
  import opened Wrappers
  import opened Grid
  import opened SnakeEntity
  import opened FoodEntity
  import opened GameRules

  class Game {
    const cfg: Config
    var running: bool
    var gameOver: bool
    var paused: bool
    var score: int
    var speed: int
    var snake: Snake
    var food: Food

    ghost predicate Valid()
      reads this, snake, food
    {
      CanStart(cfg) && snake.cfg == cfg && food.cfg == cfg && snake.Valid() && food.Valid()
    }

    /** The game as a value. */
    ghost function State(): World
      reads this, snake, food
    {
      World(snake.body, snake.direction, snake.growPending, food.position, food.eaten,
            score, speed, gameOver, paused, running)
    }

    /** A running game with a fresh snake and food placed off it. */
    constructor (cfg: Config)
      requires CanStart(cfg)
      ensures Valid() && this.cfg == cfg
      ensures IsFresh(cfg, State()) && running
    {
      this.cfg := cfg;
      running := true;
      gameOver := false;
      paused := false;
      score := 0;
      speed := cfg.initialSpeed;
      snake := new Snake(cfg);
      food := new Food(cfg);
      new;
      food.Respawn(Some(snake.body));
    }

    /** The effect of one event, decided by `Dispatch`. */
    method HandleEvent(e: Event)
      requires Valid()
      modifies this, snake, food
      ensures Valid()
      ensures EventStep(cfg, old(State()), e, State())
      ensures snake == old(snake) || fresh(snake)
      ensures food == old(food) || fresh(food)
    {
      match Dispatch(gameOver, paused, e)
      case StopRunning =>
        running := false;
      case Restart =>
        RestartGame();
      case TogglePause =>
        paused := !paused;
      case Turn(d) =>
        snake.ChangeDirection(d);
      case NoAction =>
    }

    /** Handles a batch of events in order; `trace` is the world after each. */
    method HandleEvents(events: seq<Event>) returns (ghost trace: seq<World>)
      requires Valid()
      modifies this, snake, food
      ensures Valid()
      ensures IsRun(cfg, trace, Presses(events))
      ensures trace[0] == old(State()) && trace[|events|] == State()
    {
      trace := [State()];
      for i := 0 to |events|
        invariant Valid()
        invariant snake == old(snake) || fresh(snake)
        invariant food == old(food) || fresh(food)
        invariant IsRun(cfg, trace, Presses(events[..i]))
        invariant trace[0] == old(State()) && trace[i] == State()
      {
        ghost var before := State();
        HandleEvent(events[i]);
        trace := trace + [State()];
        assert InputStep(cfg, before, Press(events[i]), State());
        assert Presses(events[..i + 1]) == Presses(events[..i]) + [Press(events[i])];
      }
      assert events[..|events|] == events;
    }

    /**
     * One tick: nothing while over or paused; otherwise move, end the game on
     * a collision, and on reaching the food score, grow, re-place the food off
     * the snake and speed up at every multiple of 50 below the maximum.
     */
    method Update()
      requires Valid() && CanTick(cfg, State())
      modifies this, snake, food
      ensures Valid() && snake == old(snake) && food == old(food)
      ensures TickStep(cfg, old(State()), State())
    {
      if gameOver || paused {
        return;
      }
      snake.Move();
      var collided := snake.CheckCollision();
      if collided {
        gameOver := true;
        return;
      }
      var eaten := food.CheckEaten(snake.GetHeadPosition());
      if eaten {
        score := score + cfg.foodScore;
        snake.Grow();
        food.Respawn(Some(snake.body));
        if score % SpeedStepScore == 0 && speed < cfg.maxSpeed {
          speed := speed + cfg.speedIncrement;
        }
      }
    }

    /** Back to a fresh game; the running flag is left as it is. */
    method RestartGame()
      requires Valid()
      modifies this
      ensures Valid()
      ensures IsFresh(cfg, State()) && running == old(running)
      ensures fresh(snake) && fresh(food)
    {
      gameOver := false;
      paused := false;
      score := 0;
      speed := cfg.initialSpeed;
      snake := new Snake(cfg);
      food := new Food(cfg);
      food.Respawn(Some(snake.body));
    }
  }
}
