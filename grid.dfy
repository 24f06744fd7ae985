/**
 * The discrete playing field: grid cells, the four headings, the game's
 * configuration constants, and the counting fact that a body shorter than
 * the grid always leaves a free cell.
 */
module Grid {

  /** A grid cell (x, y); x grows to the right, y grows downwards. */
  datatype Position = Pos(x: int, y: int)

  /** The four unit headings UP, DOWN, LEFT, RIGHT. */
  datatype Direction = Up | Down | Left | Right

  /** Horizontal component of a heading's unit vector. */
  function Dx(d: Direction): int
  {
    match d
    case Left => -1
    case Right => 1
    case _ => 0
  }

  /** Vertical component of a heading's unit vector (screen coordinates). */
  function Dy(d: Direction): int
  {
    match d
    case Up => -1
    case Down => 1
    case _ => 0
  }

  /** The cell one step from `p` along `d`. */
  function Step(p: Position, d: Direction): Position
  {
    Pos(p.x + Dx(d), p.y + Dy(d))
  }

  /** The table of opposite headings used to reject reversals. */
  function Opposite(d: Direction): (r: Direction)
    ensures r != d
    ensures Dx(r) == -Dx(d) && Dy(r) == -Dy(d)
  {
    match d
    case Up => Down
    case Down => Up
    case Left => Right
    case Right => Left
  }

  /** The configuration constants of the game, every one a positive integer. */
  datatype Config = Config(
    width: int,
    height: int,
    initialLength: int,
    foodScore: int,
    initialSpeed: int,
    maxSpeed: int,
    speedIncrement: int)
  {
    predicate Valid()
    {
      width > 0 && height > 0 && initialLength > 0 && foodScore > 0 &&
      initialSpeed > 0 && maxSpeed > 0 && speedIncrement > 0
    }

    /** Inside [0, width) x [0, height). */
    predicate InGrid(p: Position)
    {
      0 <= p.x < width && 0 <= p.y < height
    }
  }

  function Min(a: int, b: int): int { if a < b then a else b }
  function Max(a: int, b: int): int { if a < b then b else a }

  /** Some in-grid cell is not covered by `body`. */
  ghost predicate HasFreeCell(cfg: Config, body: seq<Position>)
  {
    exists p :: cfg.InGrid(p) && p !in body
  }

  /** The cells of row `y` with x in [0, w). */
  ghost function RowCells(y: int, w: nat): set<Position>
  {
    set x | 0 <= x < w :: Pos(x, y)
  }

  /** The cells of the w-by-h block anchored at the origin. */
  ghost function BlockCells(w: nat, h: nat): set<Position>
  {
    set x, y | 0 <= x < w && 0 <= y < h :: Pos(x, y)
  }

  lemma {:induction false} RowCellsCount(y: int, w: nat)
    ensures |RowCells(y, w)| == w
  {
    if w > 0 {
      RowCellsCount(y, w - 1);
      assert RowCells(y, w) == RowCells(y, w - 1) + {Pos(w - 1, y)};
      assert Pos(w - 1, y) !in RowCells(y, w - 1);
    } else {
      assert RowCells(y, w) == {};
    }
  }

  lemma InBlockCells(w: nat, h: nat, p: Position)
    ensures p in BlockCells(w, h) <==> 0 <= p.x < w && 0 <= p.y < h
  {
  }

  lemma InRowCells(y: int, w: nat, p: Position)
    ensures p in RowCells(y, w) <==> 0 <= p.x < w && p.y == y
  {
  }

  /** The block of height h is the block of height h - 1 plus its last row. */
  lemma BlockSplit(w: nat, h: nat)
    requires h > 0
    ensures BlockCells(w, h) == BlockCells(w, h - 1) + RowCells(h - 1, w)
    ensures BlockCells(w, h - 1) !! RowCells(h - 1, w)
  {
  }

  /** The grid has exactly width * height cells. */
  lemma {:induction false} BlockCellsCount(w: nat, h: nat)
    ensures |BlockCells(w, h)| == w * h
  {
    if h > 0 {
      BlockCellsCount(w, h - 1);
      RowCellsCount(h - 1, w);
      BlockSplit(w, h);
      assert w * h == w * (h - 1) + w;
    } else {
      assert BlockCells(w, h) == {};
    }
  }

  /** Pigeonhole: a sequence shorter than a set cannot cover it. */
  lemma {:induction false} Uncovered(body: seq<Position>, cells: set<Position>)
    requires |body| < |cells|
    ensures exists p :: p in cells && p !in body
  {
    if body == [] {
      var p :| p in cells;
      assert p !in body;
    } else {
      var rest := cells - {body[0]};
      Uncovered(body[1..], rest);
      var p :| p in rest && p !in body[1..];
      assert body == [body[0]] + body[1..];
      assert p !in body;
    }
  }

  /**
   * A body shorter than the number of grid cells leaves a free in-grid
   * cell, so the rejection sampling of food placement can succeed.
   */
  lemma RoomOnGrid(cfg: Config, body: seq<Position>)
    requires cfg.width > 0 && cfg.height > 0
    requires |body| < cfg.width * cfg.height
    ensures HasFreeCell(cfg, body)
  {
    BlockCellsCount(cfg.width, cfg.height);
    Uncovered(body, BlockCells(cfg.width, cfg.height));
    var p :| p in BlockCells(cfg.width, cfg.height) && p !in body;
    InBlockCells(cfg.width, cfg.height, p);
  }
}
