/**
 * The food: one grid cell and a flag that is raised when the snake's head
 * reaches it. The random cell choice is a nondeterministic pick among the
 * admissible cells.
 */
module FoodEntity {
  import opened Wrappers
  import opened Grid

  /** A placement the food may take: inside the grid and, when a body is given, off it. */
  predicate Admissible(cfg: Config, p: Position, snakeBody: Option<seq<Position>>)
  {
    cfg.InGrid(p) && (snakeBody.Some? ==> p !in snakeBody.value)
  }

  class Food {
    const cfg: Config
    var position: Position
    var eaten: bool

    ghost predicate Valid()
      reads this
    {
      cfg.Valid() && cfg.InGrid(position)
    }

    /** Food at some in-grid cell, not yet eaten. */
    constructor (cfg: Config)
      requires cfg.Valid()
      ensures Valid() && this.cfg == cfg
      ensures !eaten
    {
      var p := GeneratePosition(cfg);
      this.cfg := cfg;
      position := p;
      eaten := false;
    }

    /**
     * Some in-grid cell, off `snakeBody` when one is given. The game's code draws
     * cells at random until one is acceptable; that loop ends only when an
     * acceptable cell exists, which is what the precondition demands.
     */
    static method GeneratePosition(cfg: Config, snakeBody: Option<seq<Position>> := None)
      returns (p: Position)
      requires cfg.Valid()
      requires snakeBody.Some? ==> HasFreeCell(cfg, snakeBody.value)
      ensures cfg.InGrid(p)
      ensures snakeBody.Some? ==> p !in snakeBody.value
    {
      match snakeBody
      case None =>
        var x, y :| 0 <= x < cfg.width && 0 <= y < cfg.height;
        p := Pos(x, y);
      case Some(body) =>
        ghost var free :| cfg.InGrid(free) && free !in body;
        assert 0 <= free.x < cfg.width && 0 <= free.y < cfg.height && Pos(free.x, free.y) !in body;
        var x, y :| 0 <= x < cfg.width && 0 <= y < cfg.height && Pos(x, y) !in body;
        p := Pos(x, y);
    }

    /** Moves the food to a fresh admissible cell and clears the eaten flag. */
    method Respawn(snakeBody: Option<seq<Position>> := None)
      requires Valid()
      requires snakeBody.Some? ==> HasFreeCell(cfg, snakeBody.value)
      modifies this
      ensures Valid()
      ensures Admissible(cfg, position, snakeBody)
      ensures !eaten
    {
      position := GeneratePosition(cfg, snakeBody);
      eaten := false;
    }

    /**
     * Whether the head is on the food; if so the flag is raised. The position
     * never changes, and a raised flag is never lowered here.
     */
    method CheckEaten(snakeHeadPosition: Position) returns (hit: bool)
      modifies this
      ensures hit <==> old(position) == snakeHeadPosition
      ensures position == old(position)
      ensures eaten == (old(eaten) || hit)
    {
      if position == snakeHeadPosition {
        eaten := true;
        return true;
      }
      return false;
    }

    function GetPosition(): (p: Position)
      reads this
      requires Valid()
      ensures cfg.InGrid(p) && p == position
    {
      position
    }
  }
}
