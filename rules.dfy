/** The rules of the board as functions of its state: movement rules per
    piece kind, check detection, the effect of a move, safety, and the end
    conditions. The bitboard is read exactly where the board reads it (the
    palace test and the colour scan of check detection), through the masks
    that describe the grid, so squares without a bit stay invisible there. */
module Rules {
  import opened Options
  import opened Pieces
  import opened Positions
  import opened Grids
  import opened Bitboards
  import opened Zobrist

  /** What the board's methods see of it: the grid, the two cached king
      squares and the current hash. */
  datatype BoardState = BoardState(grid: Grid, redKing: Option<Position>, blackKing: Option<Position>, hash: Word)

  /** |a - b|, as the source computes it on coordinates widened to i8. */
  function Dist(a: nat, b: nat): (d: nat)
    ensures a + d == b || b + d == a
  {
    if a >= b then a - b else b - a
  }

  /** The bitboard's palace test on initialised palace masks. */
  predicate InPalace(pos: Position, c: Color)
  {
    InPalaceIn(PalaceMasks(), pos, c)
  }

  predicate KingMoveValid(g: Grid, from: Position, to: Position)
  {
    var dx, dy := Dist(from.X(), to.X()), Dist(from.Y(), to.Y());
    ((dx == 1 && dy == 0) || (dx == 0 && dy == 1)) && InPalace(to, GetPiece(g, from).color)
  }

  predicate AdvisorMoveValid(g: Grid, from: Position, to: Position)
  {
    var dx, dy := Dist(from.X(), to.X()), Dist(from.Y(), to.Y());
    dx == 1 && dy == 1 && InPalace(to, GetPiece(g, from).color)
  }

  /** The elephant's eye: the midpoint of its move. */
  function Eye(from: Position, to: Position): Position
  {
    New((from.X() + to.X()) / 2, (from.Y() + to.Y()) / 2)
  }

  predicate ElephantMoveValid(g: Grid, from: Position, to: Position)
  {
    var dx, dy := Dist(from.X(), to.X()), Dist(from.Y(), to.Y());
    dx == 2 && dy == 2 && GetPiece(g, Eye(from, to)).pieceType.None? &&
    match GetPiece(g, from).color
    case Red => to.Y() < 5
    case Black => to.Y() >= 5
    case None => false
  }

  /** The horse's leg: the square next to `from` along the long side of its move. */
  function Leg(from: Position, to: Position): Position
  {
    if Dist(from.X(), to.X()) == 2 then New((from.X() + to.X()) / 2, from.Y())
    else New(from.X(), (from.Y() + to.Y()) / 2)
  }

  predicate HorseMoveValid(g: Grid, from: Position, to: Position)
  {
    var dx, dy := Dist(from.X(), to.X()), Dist(from.Y(), to.Y());
    ((dx == 1 && dy == 2) || (dx == 2 && dy == 1)) && GetPiece(g, Leg(from, to)).pieceType.None?
  }

  predicate ChariotMoveValid(g: Grid, from: Position, to: Position)
  {
    (from.X() == to.X() || from.Y() == to.Y()) && PathCount(g, from, to) == 0
  }

  predicate CannonMoveValid(g: Grid, from: Position, to: Position)
  {
    (from.X() == to.X() || from.Y() == to.Y()) &&
    if !GetPiece(g, to).pieceType.None? then PathCount(g, from, to) == 1 else PathCount(g, from, to) == 0
  }

  predicate PawnCrossedRiver(pos: Position, c: Color)
  {
    match c
    case Red => pos.Y() >= 5
    case Black => pos.Y() < 5
    case None => false
  }

  predicate PawnMoveValid(from: Position, to: Position, c: Color)
  {
    var dx, dy := Dist(from.X(), to.X()), Dist(from.Y(), to.Y());
    ((dx == 0 && dy == 1) || (dx == 1 && dy == 0 && PawnCrossedRiver(from, c))) &&
    match c
    case Red => to.Y() > from.Y()
    case Black => to.Y() < from.Y()
    case None => false
  }

  /** Square k of a line: file `fixed` when vertical, rank `fixed` otherwise. */
  function LineSquare(vertical: bool, fixed: nat, k: nat): Position
    requires fixed < 16 && k < 16
  {
    if vertical then New(fixed, k) else New(k, fixed)
  }

  /** Occupied squares k of a line with lo <= k < hi. */
  function CountLine(g: Grid, vertical: bool, fixed: nat, lo: nat, hi: nat): (n: nat)
    requires fixed < 16 && hi <= 16
    ensures n <= hi - lo || hi <= lo
    decreases hi
  {
    if hi <= lo then 0
    else
      var here := if GetPiece(g, LineSquare(vertical, fixed, hi - 1)).pieceType.None? then 0 else 1;
      CountLine(g, vertical, fixed, lo, hi - 1) + here
  }

  function Min(a: nat, b: nat): nat { if a <= b then a else b }

  function Max(a: nat, b: nat): nat { if a <= b then b else a }

  /** Pieces strictly between two squares of one file or one rank (0 otherwise). */
  function PathCount(g: Grid, from: Position, to: Position): nat
  {
    if from.X() == to.X() then
      CountLine(g, true, from.X(), Min(from.Y(), to.Y()) + 1, Max(from.Y(), to.Y()))
    else if from.Y() == to.Y() then
      CountLine(g, false, from.Y(), Min(from.X(), to.X()) + 1, Max(from.X(), to.X()))
    else 0
  }

  /** The move guard and the per-kind dispatch. */
  predicate IsMoveValid(g: Grid, from: Position, to: Position, color: Color)
  {
    from.IsValid() && to.IsValid() &&
    var fp := GetPiece(g, from);
    !fp.pieceType.None? && fp.color == color && GetPiece(g, to).color != color &&
    match fp.pieceType
    case King => KingMoveValid(g, from, to)
    case Advisor => AdvisorMoveValid(g, from, to)
    case Elephant => ElephantMoveValid(g, from, to)
    case Horse => HorseMoveValid(g, from, to)
    case Chariot => ChariotMoveValid(g, from, to)
    case Cannon => CannonMoveValid(g, from, to)
    case Pawn => PawnMoveValid(from, to, color)
    case None => false
  }

  /** The cached king square of a colour; the empty colour has none. */
  function KingOf(s: BoardState, c: Color): Option<Position>
  {
    match c
    case Red => s.redKing
    case Black => s.blackKing
    case None => Option.None
  }

  /** Cell i holds an opponent piece, visible in the colour masks, that can move onto the king. */
  predicate Attacks(g: Grid, i: nat, king: Position, opponent: Color)
    requires i < 90
  {
    var from := PosOf(i);
    HasColorIn(ColorMasks(g), from, opponent) && !GetPiece(g, from).pieceType.None? &&
    IsMoveValid(g, from, king, opponent)
  }

  /** Check: some opponent piece attacks the cached king square. */
  predicate InCheck(s: BoardState, c: Color)
  {
    if c.None? then false
    else match KingOf(s, c)
      case None => false
      case Some(king) => exists i | 0 <= i < 90 :: Attacks(s.grid, i, king, Opponent(c))
  }

  /** The opening layout: the back ranks, cannons on ranks 2 and 7 and pawns
      on ranks 3 and 6 at the even files. */
  function InitialPiece(x: nat, y: nat): Piece
    requires x < 9
  {
    var back := [Chariot, Horse, Elephant, Advisor, King, Advisor, Elephant, Horse, Chariot];
    if y == 0 then Piece(back[x], Red)
    else if y == 9 then Piece(back[x], Black)
    else if y == 2 && (x == 1 || x == 7) then Piece(Cannon, Red)
    else if y == 7 && (x == 1 || x == 7) then Piece(Cannon, Black)
    else if y == 3 && x % 2 == 0 then Piece(Pawn, Red)
    else if y == 6 && x % 2 == 0 then Piece(Pawn, Black)
    else Default()
  }

  function InitialGrid(): Grid
  {
    seq(90, i requires 0 <= i < 90 => InitialPiece(i / 10, i % 10))
  }

  /** The first king of colour c among the first n cells, in scan order
      (file outer, rank inner). */
  function FindKingIn(g: Grid, c: Color, n: nat): Option<Position>
    requires n <= 90
  {
    if n == 0 then Option.None
    else
      var earlier := FindKingIn(g, c, n - 1);
      if earlier.Some? then earlier
      else if g[n - 1].pieceType.King? && g[n - 1].color == c then Some(PosOf(n - 1))
      else Option.None
  }

  /** The first king of colour c on the board. */
  function FindKing(g: Grid, c: Color): Option<Position>
  {
    FindKingIn(g, c, |g|)
  }

  /** The effect of make_move: empty `from`, put the mover on `to`, rescan the
      kings when a king moved or was captured, and update the hash incrementally. */
  function AfterMove(z: ZobristHash, s: BoardState, from: Position, to: Position): BoardState
    requires z.Valid() && from.IsValid() && to.IsValid()
  {
    var moved, captured := GetPiece(s.grid, from), GetPiece(s.grid, to);
    var g := Place(Place(s.grid, from, Default()), to, moved);
    var rescan := moved.pieceType.King? || captured.pieceType.King?;
    BoardState(g,
      if rescan then FindKing(g, Red) else s.redKing,
      if rescan then FindKing(g, Black) else s.blackKing,
      Update(z, s.hash, from, to, moved, captured))
  }

  /** The effect of set_piece: write the square, rescan the kings when a king
      is placed, and recompute the hash from scratch; a square off the board
      changes nothing. */
  function AfterSet(z: ZobristHash, s: BoardState, pos: Position, piece: Piece): BoardState
    requires z.Valid()
  {
    if !pos.IsValid() then s
    else
      var g := Place(s.grid, pos, piece);
      var rescan := piece.pieceType.King?;
      BoardState(g,
        if rescan then FindKing(g, Red) else s.redKing,
        if rescan then FindKing(g, Black) else s.blackKing,
        Hash(z, g))
  }

  /** A valid move that does not leave the mover's king in check. */
  predicate MoveSafe(z: ZobristHash, s: BoardState, from: Position, to: Position, c: Color)
    requires z.Valid()
  {
    IsMoveValid(s.grid, from, to, c) && !InCheck(AfterMove(z, s, from, to), c)
  }

  /** Some piece of colour c has a safe move. */
  predicate HasLegalMoves(z: ZobristHash, s: BoardState, c: Color)
    requires z.Valid()
  {
    exists i, j | 0 <= i < 90 && 0 <= j < 90 ::
      s.grid[i].color == c && MoveSafe(z, s, PosOf(i), PosOf(j), c)
  }

  predicate IsCheckmate(z: ZobristHash, s: BoardState, c: Color)
    requires z.Valid()
  {
    InCheck(s, c) && !HasLegalMoves(z, s, c)
  }

  predicate IsStalemate(z: ZobristHash, s: BoardState, c: Color)
    requires z.Valid()
  {
    !InCheck(s, c) && !HasLegalMoves(z, s, c)
  }
}
