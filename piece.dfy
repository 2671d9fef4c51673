/** Piece kinds, colours and the (kind, colour) pair stored on every square.
    The `None` variants mark an empty square. */
module Pieces {

  datatype PieceType = King | Advisor | Elephant | Horse | Chariot | Cannon | Pawn | None

  datatype Color = Red | Black | None

  datatype Piece = Piece(pieceType: PieceType, color: Color)

  /** The empty square: no kind, no colour. */
  function Default(): (p: Piece)
    ensures p.pieceType.None? && p.color.None?
  {
    Piece(PieceType.None, Color.None)
  }

  /** Index of a kind into the bitboard's kind masks and the hash table's first dimension. */
  function TypeIndex(t: PieceType): (i: nat)
    ensures i < 8
    ensures i == 7 <==> t.None?
  {
    match t
    case King => 0
    case Advisor => 1
    case Elephant => 2
    case Horse => 3
    case Chariot => 4
    case Cannon => 5
    case Pawn => 6
    case None => 7
  }

  /** Index of a colour into the bitboard's colour masks and the hash table's second dimension. */
  function ColorIndex(c: Color): (i: nat)
    ensures i < 3
    ensures i == 0 <==> c.None?
    ensures i == 1 <==> c.Red?
  {
    match c
    case Red => 1
    case Black => 2
    case None => 0
  }

  /** The kind that a mask index stands for: the inverse of TypeIndex. */
  function TypeAt(i: nat): (t: PieceType)
    requires i < 8
    ensures TypeIndex(t) == i
  {
    [King, Advisor, Elephant, Horse, Chariot, Cannon, Pawn, PieceType.None][i]
  }

  /** The colour that a mask index stands for: the inverse of ColorIndex. */
  function ColorAt(i: nat): (c: Color)
    requires i < 3
    ensures ColorIndex(c) == i
  {
    [Color.None, Red, Black][i]
  }

  lemma TypeIndexInjective(s: PieceType, t: PieceType)
    ensures TypeIndex(s) == TypeIndex(t) ==> s == t
  {
  }

  lemma ColorIndexInjective(c: Color, d: Color)
    ensures ColorIndex(c) == ColorIndex(d) ==> c == d
  {
  }

  /** The side that moves after `c`; an empty colour has no opponent. */
  function Opponent(c: Color): (o: Color)
    requires !c.None?
    ensures !o.None? && o != c
  {
    if c.Red? then Black else Red
  }
}
