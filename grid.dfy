/** The authoritative 9 x 10 grid of pieces, as a value. The source's
    `[[Piece; 10]; 9]` is kept flat: square (x, y) is cell x * 10 + y, so the
    source's scans (file outer, rank inner) visit the cells in ascending order. */
module Grids {
  import opened Pieces
  import opened Positions

  type Grid = g: seq<Piece> | |g| == 90 witness EmptyGrid()

  function EmptyGrid(): (g: seq<Piece>)
    ensures |g| == 90
  {
    seq(90, _ => Default())
  }

  /** The cell that holds square (x, y). */
  function Cell(x: nat, y: nat): (i: nat)
    requires x < 9 && y < 10
    ensures i < 90 && i / 10 == x && i % 10 == y
  {
    x * 10 + y
  }

  /** The position of cell i. */
  function PosOf(i: nat): (p: Position)
    requires i < 90
    ensures p.IsValid() && p.X() == i / 10 && p.Y() == i % 10 && Cell(p.X(), p.Y()) == i
  {
    New(i / 10, i % 10)
  }

  /** The piece on a square; a position off the board reads as empty. */
  function GetPiece(g: Grid, pos: Position): (p: Piece)
    ensures !pos.IsValid() ==> p == Default()
    ensures pos.IsValid() ==> p == g[Cell(pos.X(), pos.Y())]
  {
    if pos.IsValid() then g[Cell(pos.X(), pos.Y())] else Default()
  }

  /** The grid after writing `piece` on `pos`; a position off the board is ignored. */
  function Place(g: Grid, pos: Position, piece: Piece): (r: Grid)
    ensures GetPiece(r, pos) == if pos.IsValid() then piece else Default()
    ensures forall q: Position :: q.IsValid() && q != pos ==> GetPiece(r, q) == GetPiece(g, q)
  {
    if pos.IsValid() then g[Cell(pos.X(), pos.Y()) := piece] else g
  }

  /** Distinct valid positions occupy distinct cells. */
  lemma CellInjective(p: Position, q: Position)
    requires p.IsValid() && q.IsValid()
    ensures Cell(p.X(), p.Y()) == Cell(q.X(), q.Y()) ==> p == q
  {
  }
}
