/**
 * The snake: a head-first list of cells, a heading and a counter of
 * segments still owed to the tail. The functions before the class describe
 * one move, a run of moves, a turn and the collision test on plain values;
 * the class is the mutable entity the game owns, proved against them.
 */
module SnakeEntity {
  import opened Grid

  /** The straight body [(x, y), (x-1, y), ..., (x-n+1, y)] of a new snake. */
  function InitialBody(x: int, y: int, n: nat): (body: seq<Position>)
    ensures |body| == n
    ensures forall i :: 0 <= i < n ==> body[i] == Pos(x - i, y)
  {
    if n == 0 then [] else InitialBody(x, y, n - 1) + [Pos(x - (n - 1), y)]
  }

  /** The growth counter after one move: one owed segment is paid, if any. */
  function PendingAfterMove(growPending: int): int
  {
    if growPending > 0 then growPending - 1 else growPending
  }

  /**
   * The body after one move: a new head one step along `d`, followed by the
   * old body, whose last cell is dropped unless growth is owed.
   */
  function Moved(body: seq<Position>, d: Direction, growPending: int): (r: seq<Position>)
    requires |body| > 0
    ensures |r| == |body| + (if growPending > 0 then 1 else 0)
    ensures r[0] == Step(body[0], d)
    ensures forall i :: 0 <= i < |r| - 1 ==> r[i + 1] == body[i]
  {
    [Step(body[0], d)] + (if growPending > 0 then body else body[..|body| - 1])
  }

  /** The body after `k` moves along `d`, with no turn in between. */
  function MoveN(body: seq<Position>, d: Direction, growPending: int, k: nat): (r: seq<Position>)
    requires |body| > 0
    ensures |r| >= |body|
    decreases k
  {
    if k == 0 then body
    else MoveN(Moved(body, d, growPending), d, PendingAfterMove(growPending), k - 1)
  }

  /** The growth counter after `k` moves: one move's payment, `k` times over. */
  function PendingAfterMoves(growPending: int, k: nat): int
    decreases k
  {
    if k == 0 then growPending
    else PendingAfterMoves(PendingAfterMove(growPending), k - 1)
  }

  /** The number of owed segments actually added during `k` moves. */
  function Grown(growPending: int, k: nat): int
  {
    Min(k, Max(growPending, 0))
  }

  /**
   * Exact length bookkeeping over `k` moves: the snake gains one segment per
   * move while growth is owed and keeps its length afterwards.
   */
  lemma {:induction false} MoveNLength(body: seq<Position>, d: Direction, g: int, k: nat)
    requires |body| > 0
    ensures |MoveN(body, d, g, k)| == |body| + Grown(g, k)
    ensures PendingAfterMoves(g, k) == g - Grown(g, k)
    decreases k
  {
    if k > 0 {
      MoveNLength(Moved(body, d, g), d, PendingAfterMove(g), k - 1);
    }
  }

  /** After `k` straight moves the head is `k` steps from where it was. */
  lemma {:induction false} MoveNHead(body: seq<Position>, d: Direction, g: int, k: nat)
    requires |body| > 0
    ensures MoveN(body, d, g, k)[0] == Pos(body[0].x + k * Dx(d), body[0].y + k * Dy(d))
    decreases k
  {
    if k > 0 {
      var b' := Moved(body, d, g);
      MoveNHead(b', d, PendingAfterMove(g), k - 1);
      assert b'[0].x + (k - 1) * Dx(d) == body[0].x + k * Dx(d);
      assert b'[0].y + (k - 1) * Dy(d) == body[0].y + k * Dy(d);
    }
  }

  /**
   * The body slides: after `k` moves, behind the `k` new cells comes the
   * old body, less the tail cells that were dropped because no growth was
   * owed. While growth is owed, every old cell is kept.
   */
  lemma {:induction false} MoveNKeepsBody(body: seq<Position>, d: Direction, g: int, k: nat)
    requires |body| > 0
    ensures forall i :: 0 <= i < |body| - (k - Grown(g, k)) ==>
      k + i < |MoveN(body, d, g, k)| && MoveN(body, d, g, k)[k + i] == body[i]
    decreases k
  {
    MoveNLength(body, d, g, k);
    if k > 0 {
      var b' := Moved(body, d, g);
      var g' := PendingAfterMove(g);
      GrownStep(g, k);
      MoveNKeepsBody(b', d, g', k - 1);
      var r := MoveN(b', d, g', k - 1);
      assert MoveN(body, d, g, k) == r;
      forall i | 0 <= i < |body| - (k - Grown(g, k))
        ensures r[k + i] == body[i]
      {
        assert r[(k - 1) + (i + 1)] == b'[i + 1];
      }
    }
  }

  lemma GrownStep(g: int, k: nat)
    requires k > 0
    ensures Grown(PendingAfterMove(g), k - 1) == Grown(g, k) - (if g > 0 then 1 else 0)
  {
  }

  /** The heading after a requested turn: a 180-degree reversal is ignored. */
  function Turned(current: Direction, requested: Direction): (r: Direction)
    ensures r != Opposite(current)
    ensures r == requested <==> requested != Opposite(current)
    ensures r != requested ==> r == current
  {
    if requested != Opposite(current) then requested else current
  }

  /**
   * The wall or self hit: the head is off the grid, or the head occupies
   * the same cell as some later segment.
   */
  predicate Collides(cfg: Config, body: seq<Position>)
    requires |body| > 0
  {
    !cfg.InGrid(body[0]) || exists i :: 1 <= i < |body| && body[i] == body[0]
  }

  class Snake {
    const cfg: Config
    var body: seq<Position>
    var direction: Direction
    var growPending: int

    ghost predicate Valid()
      reads this
    {
      cfg.Valid() && |body| > 0
    }

    /** A straight snake of `cfg.initialLength` cells with its head at (x, y), facing right. */
    constructor (cfg: Config, x: int := cfg.width / 2, y: int := cfg.height / 2)
      requires cfg.Valid()
      ensures Valid() && this.cfg == cfg
      ensures body == InitialBody(x, y, cfg.initialLength)
      ensures direction == Right && growPending == 0
    {
      this.cfg := cfg;
      body := [Pos(x, y)];
      direction := Right;
      growPending := 0;
      new;
      var i := 1;
      while i < cfg.initialLength
        invariant 1 <= i <= cfg.initialLength
        invariant body == InitialBody(x, y, i)
        invariant direction == Right && growPending == 0
      {
        body := body + [Pos(x - i, y)];
        i := i + 1;
      }
    }

    /** Advances one cell along the heading, keeping the tail while growth is owed. */
    method Move()
      requires Valid()
      modifies this
      ensures Valid()
      ensures body == Moved(old(body), old(direction), old(growPending))
      ensures growPending == PendingAfterMove(old(growPending))
      ensures direction == old(direction)
    {
      var head := body[0];
      var newHead := Pos(head.x + Dx(direction), head.y + Dy(direction));
      body := [newHead] + body;
      if growPending > 0 {
        growPending := growPending - 1;
      } else {
        body := body[..|body| - 1];
      }
    }

    /** Takes the requested heading unless it is the reverse of the current one. */
    method ChangeDirection(newDirection: Direction)
      modifies this
      ensures direction == Turned(old(direction), newDirection)
      ensures body == old(body) && growPending == old(growPending)
    {
      if newDirection != Opposite(direction) {
        direction := newDirection;
      }
    }

    /** Owes `segments` more cells to the tail. */
    method Grow(segments: int := 1)
      modifies this
      ensures growPending == old(growPending) + segments
      ensures body == old(body) && direction == old(direction)
    {
      growPending := growPending + segments;
    }

    /** Whether the head is off the grid or on another segment. */
    method CheckCollision() returns (hit: bool)
      requires Valid()
      ensures hit <==> Collides(cfg, body)
    {
      var head := body[0];
      if head.x < 0 || head.x >= cfg.width || head.y < 0 || head.y >= cfg.height {
        return true;
      }
      if head in body[1..] {
        return true;
      }
      return false;
    }

    function GetHeadPosition(): (p: Position)
      reads this
      requires Valid()
      ensures p in body && p == body[0]
    {
      body[0]
    }

    function GetLength(): (n: int)
      reads this
      requires Valid()
      ensures n >= 1 && n == |body|
    {
      |body|
    }
  }
}
