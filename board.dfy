/** The board object: the authoritative grid, the cached king squares, the
    hash table and current hash, the bitboard index and the cache, updated in
    place by its methods. Its queries are proved against the rule functions
    of module Rules, applied to the board's State(). */
module Boards {
  import opened Options
  import opened Pieces
  import opened Positions
  import opened Grids
  import opened Bitboards
  import opened Zobrist
  import opened BoardCaches
  import opened Rules
  import opened MoveFacts
  import opened RuleFacts

  /** The grid whose first n cells are those of g, the rest empty: what the
      bitboard has seen of g part way through a rebuild. */
  function Prefix(g: Grid, n: nat): (r: seq<Piece>)
    ensures |r| == 90
    ensures forall i | 0 <= i < 90 :: r[i] == if i < n then g[i] else Default()
  {
    seq(90, i requires 0 <= i < 90 => if i < n then g[i] else Default())
  }

  /** Masks ignore empty squares, so grids that agree on the occupied
      squares have the same kind and colour masks. */
  lemma MasksAgree(g: Grid, h: Grid)
    requires forall i | 0 <= i < 90 :: g[i].pieceType.None? == h[i].pieceType.None?
    requires forall i | 0 <= i < 90 :: !g[i].pieceType.None? ==> g[i] == h[i]
    ensures KindMasks(g) == KindMasks(h) && ColorMasks(g) == ColorMasks(h)
  {
    forall k | 0 <= k < 8 ensures KindMasks(g)[k] == KindMasks(h)[k] {
      assert forall i | 0 <= i < 64 :: KindMasks(g)[k][i] == KindMasks(h)[k][i];
    }
    forall k | 0 <= k < 3 ensures ColorMasks(g)[k] == ColorMasks(h)[k] {
      assert forall i | 0 <= i < 64 :: ColorMasks(g)[k][i] == ColorMasks(h)[k][i];
    }
  }

  /** The masks of the empty grid are all zero. */
  lemma EmptyGridMasks()
    ensures KindMasks(EmptyGrid()) == seq(8, _ => EmptyMask())
    ensures ColorMasks(EmptyGrid()) == seq(3, _ => EmptyMask())
  {
    forall k | 0 <= k < 8 ensures KindMasks(EmptyGrid())[k] == EmptyMask() {
      assert forall i | 0 <= i < 64 :: KindMasks(EmptyGrid())[k][i] == EmptyMask()[i];
    }
    forall k | 0 <= k < 3 ensures ColorMasks(EmptyGrid())[k] == EmptyMask() {
      assert forall i | 0 <= i < 64 :: ColorMasks(EmptyGrid())[k][i] == EmptyMask()[i];
    }
  }

  /** One more cell of a rebuild: the prefix grows by cell n. */
  lemma PrefixStep(g: Grid, n: nat)
    requires n < 90
    ensures g[n].pieceType.None? ==>
      KindMasks(Prefix(g, n + 1)) == KindMasks(Prefix(g, n)) && ColorMasks(Prefix(g, n + 1)) == ColorMasks(Prefix(g, n))
    ensures Place(Prefix(g, n), PosOf(n), g[n]) == Prefix(g, n + 1)
  {
    if g[n].pieceType.None? {
      MasksAgree(Prefix(g, n + 1), Prefix(g, n));
    }
    assert Cell(PosOf(n).X(), PosOf(n).Y()) == n;
    assert Place(Prefix(g, n), PosOf(n), g[n]) == Prefix(g, n)[n := g[n]];
  }

  /** The opening layout on the given ranks and on the files below n of
      rank y, every other square empty: what the board holds part way
      through Initialize. */
  function OpeningPart(ranks: set<nat>, y: nat, n: nat): (r: Grid)
    ensures forall i | 0 <= i < 90 ::
      r[i] == if i % 10 in ranks || (i % 10 == y && i / 10 < n) then InitialPiece(i / 10, i % 10) else Default()
  {
    seq(90, i requires 0 <= i < 90 =>
      if i % 10 in ranks || (i % 10 == y && i / 10 < n) then InitialPiece(i / 10, i % 10) else Default())
  }

  /** Placing the opening piece of square (x, y) extends the part by one file. */
  lemma OpeningStep(ranks: set<nat>, y: nat, x: nat, p: Piece)
    requires x < 9 && y < 10 && p == InitialPiece(x, y)
    ensures Place(OpeningPart(ranks, y, x), New(x, y), p) == OpeningPart(ranks, y, x + 1)
  {
    var g := OpeningPart(ranks, y, x);
    assert Place(g, New(x, y), p) == g[x * 10 + y := p];
  }

  /** A square that is empty in the opening extends the part for free. */
  lemma OpeningSkip(ranks: set<nat>, y: nat, x: nat)
    requires x < 9 && InitialPiece(x, y) == Default()
    ensures OpeningPart(ranks, y, x) == OpeningPart(ranks, y, x + 1)
  {
  }

  /** A completed rank joins the finished ranks. */
  lemma OpeningRankDone(ranks: set<nat>, y: nat, next: nat)
    ensures OpeningPart(ranks, y, 9) == OpeningPart(ranks + {y}, next, 0)
  {
  }

  /** The empty board, and the opening layout, which occupies only ranks
      0, 2, 3, 6, 7 and 9. */
  lemma OpeningEnds()
    ensures OpeningPart({}, 0, 0) == EmptyGrid()
    ensures OpeningPart({0, 2, 3, 6, 7, 9}, 0, 0) == InitialGrid()
  {
  }

  /** The check scan passes one more square without finding an attacker. */
  lemma NoAttackExtend(g: Grid, king: Position, opponent: Color, n: nat)
    requires n < 90
    requires forall i | 0 <= i < n :: !Attacks(g, i, king, opponent)
    requires !Attacks(g, n, king, opponent)
    ensures forall i | 0 <= i < n + 1 :: !Attacks(g, i, king, opponent)
  {
  }

  /** The legal-move search passes one more square without a safe move. */
  lemma NoSafeMoveExtend(z: ZobristHash, s: BoardState, color: Color, n: nat)
    requires z.Valid() && n < 90
    requires forall i, j | 0 <= i < n && 0 <= j < 90 :: !(s.grid[i].color == color && MoveSafe(z, s, PosOf(i), PosOf(j), color))
    requires s.grid[n].color == color ==> forall j | 0 <= j < 90 :: !MoveSafe(z, s, PosOf(n), PosOf(j), color)
    ensures forall i, j | 0 <= i < n + 1 && 0 <= j < 90 :: !(s.grid[i].color == color && MoveSafe(z, s, PosOf(i), PosOf(j), color))
  {
  }

  /** The target scan passes one more square without a safe move. */
  lemma NoSafeTargetExtend(z: ZobristHash, s: BoardState, from: Position, color: Color, n: nat)
    requires z.Valid() && n < 90
    requires forall j | 0 <= j < n :: !MoveSafe(z, s, from, PosOf(j), color)
    requires !MoveSafe(z, s, from, PosOf(n), color)
    ensures forall j | 0 <= j < n + 1 :: !MoveSafe(z, s, from, PosOf(j), color)
  {
  }

  /** Recording cell n of g in the masks of the first n cells gives the
      masks of the first n + 1. */
  lemma MasksStep(g: Grid, n: nat)
    requires n < 90
    ensures SetKind(KindMasks(Prefix(g, n)), PosOf(n), g[n]) == KindMasks(Prefix(g, n + 1))
    ensures SetColor(ColorMasks(Prefix(g, n)), PosOf(n), g[n]) == ColorMasks(Prefix(g, n + 1))
  {
    PrefixStep(g, n);
    KindMasksPlace(Prefix(g, n), PosOf(n), g[n]);
    ColorMasksPlace(Prefix(g, n), PosOf(n), g[n]);
  }

  class Board {
    /** The 9 x 10 grid, flattened: square (x, y) is cell x * 10 + y. */
    const grid: array<Piece>
    var redKingPos: Option<Position>
    var blackKingPos: Option<Position>
    const zobrist: ZobristHash
    var currentHash: Word
    const bitboard: Bitboard
    const cache: BoardCache

    /** The objects the board owns. */
    ghost function Parts(): set<object>
    {
      {grid, bitboard, bitboard.pieces, bitboard.colors, bitboard.palace, cache}
    }

    ghost function Repr(): set<object>
    {
      {this} + Parts()
    }

    /** The grid has 90 cells, the table has its shape, and the bitboard
        describes the grid: its kind and colour masks are those of the grid
        and its palace masks are initialised. */
    ghost predicate Valid()
      reads grid, bitboard.pieces, bitboard.colors, bitboard.palace
    {
      grid.Length == 90 && zobrist.Valid() && bitboard.Valid() &&
      bitboard.pieces[..] == KindMasks(grid[..]) &&
      bitboard.colors[..] == ColorMasks(grid[..]) &&
      bitboard.palace[..] == PalaceMasks()
    }

    /** The board as the rule functions see it. */
    function State(): BoardState
      requires grid.Length == 90
      reads this, grid
    {
      BoardState(grid[..], redKingPos, blackKingPos, currentHash)
    }

    /** No check flag is cached. Nothing ever stores one, so every board
        keeps this, and check detection then always computes. */
    ghost predicate NoCachedCheck()
      reads cache
    {
      cache.checkStatus == map[]
    }

    /** What IsInCheck answers: a cached flag if there is one, else the rule. */
    ghost function CheckAnswer(color: Color): bool
      requires grid.Length == 90
      reads this, grid, cache
    {
      if color in cache.checkStatus then cache.checkStatus[color] else InCheck(State(), color)
    }

    /** Board::default: an empty grid, no kings, hash 0, a fresh bitboard
        with its palace masks initialised, and an empty cache. */
    constructor Blank(z: ZobristHash)
      requires z.Valid()
      ensures Valid() && fresh(Parts()) && zobrist == z
      ensures State() == BoardState(EmptyGrid(), Option.None, Option.None, Zero())
      ensures cache.legalMoves == map[] && NoCachedCheck() && cache.currentHash == Option.None
    {
      grid := new Piece[90](_ => Default());
      redKingPos, blackKingPos := Option.None, Option.None;
      zobrist := z;
      currentHash := Zero();
      bitboard := new Bitboard();
      cache := new BoardCache();
      new;
      bitboard.InitSpecialPositions();
      PalaceInitialised();
      assert grid[..] == EmptyGrid();
      EmptyGridMasks();
    }

    /** After a reset and initialisation the palace masks are PalaceMasks(). */
    lemma PalaceInitialised()
      requires bitboard.Valid()
      requires forall k, i | 0 <= k < 2 && 0 <= i < 64 :: bitboard.palace[k][i] == PalaceSquare(i, k)
      ensures bitboard.palace[..] == PalaceMasks()
    {
      forall k | 0 <= k < 2 ensures bitboard.palace[k] == PalaceMasks()[k] {
        assert forall i | 0 <= i < 64 :: bitboard.palace[k][i] == PalaceMasks()[k][i];
      }
    }

    /** Board::new: the default board with the opening layout, the kings
        found, the hash computed from scratch and cached. */
    constructor (z: ZobristHash)
      requires z.Valid()
      ensures Valid() && fresh(Parts()) && zobrist == z
      ensures State() == BoardState(InitialGrid(), Some(New(4, 0)), Some(New(4, 9)), Hash(z, InitialGrid()))
      ensures cache.legalMoves == map[] && NoCachedCheck() && cache.currentHash == Some(currentHash)
    {
      grid := new Piece[90](_ => Default());
      redKingPos, blackKingPos := Option.None, Option.None;
      zobrist := z;
      currentHash := Zero();
      bitboard := new Bitboard();
      cache := new BoardCache();
      new;
      assert fresh(Parts());
      bitboard.InitSpecialPositions();
      PalaceInitialised();
      assert grid[..] == EmptyGrid();
      EmptyGridMasks();
      Initialize();
      InitialKings();
      currentHash := Calculate(zobrist, grid[..]);
      assert State() == BoardState(InitialGrid(), Some(New(4, 0)), Some(New(4, 9)), Hash(z, InitialGrid()));
      cache.CacheHash(currentHash);
    }

    /** Board::initialize, on the empty board of Board::new: place the 32
        pieces of the opening and find the kings. The placements are grouped
        as in the source: Red's back rank, cannons and pawns, then Black's. */
    method Initialize()
      requires Valid() && grid[..] == EmptyGrid()
      modifies this, grid, bitboard.pieces, bitboard.colors
      ensures Valid() && grid[..] == InitialGrid()
      ensures redKingPos == Rules.FindKing(grid[..], Red) && blackKingPos == Rules.FindKing(grid[..], Black)
      ensures currentHash == old(currentHash)
    {
      OpeningEnds();
      PlaceBackRank(0, Red, {});
      OpeningRankDone({}, 0, 2);
      PlaceCannons(2, Red, {0});
      OpeningRankDone({0}, 2, 3);
      PlacePawns(3, Red, {0, 2});
      OpeningRankDone({0, 2}, 3, 9);
      PlaceBackRank(9, Black, {0, 2, 3});
      OpeningRankDone({0, 2, 3}, 9, 7);
      PlaceCannons(7, Black, {0, 2, 3, 9});
      OpeningRankDone({0, 2, 3, 9}, 7, 6);
      PlacePawns(6, Black, {0, 2, 3, 7, 9});
      OpeningRankDone({0, 2, 3, 7, 9}, 6, 0);
      assert {0, 2, 3, 7, 9} + {6} == {0, 2, 3, 6, 7, 9};
      UpdateKingPositions();
    }

    /** The nine pieces of a back rank: chariot, horse, elephant, advisor,
        king, advisor, elephant, horse, chariot. The source writes the nine
        placements out; here they run file by file over that order. */
    method PlaceBackRank(y: nat, c: Color, ghost ranks: set<nat>)
      requires Valid() && ((y == 0 && c == Red) || (y == 9 && c == Black))
      requires grid[..] == OpeningPart(ranks, y, 0)
      modifies grid, bitboard.pieces, bitboard.colors
      ensures Valid() && grid[..] == OpeningPart(ranks, y, 9)
    {
      var back := [Chariot, Horse, Elephant, Advisor, King, Advisor, Elephant, Horse, Chariot];
      for x := 0 to 9
        invariant Valid() && grid[..] == OpeningPart(ranks, y, x)
      {
        SetPieceSync(New(x, y), Piece(back[x], c));
        OpeningStep(ranks, y, x, Piece(back[x], c));
      }
    }

    /** The two cannons of a side, on files 1 and 7. */
    method PlaceCannons(y: nat, c: Color, ghost ranks: set<nat>)
      requires Valid() && ((y == 2 && c == Red) || (y == 7 && c == Black))
      requires grid[..] == OpeningPart(ranks, y, 0)
      modifies grid, bitboard.pieces, bitboard.colors
      ensures Valid() && grid[..] == OpeningPart(ranks, y, 9)
    {
      OpeningSkip(ranks, y, 0);
      SetPieceSync(New(1, y), Piece(Cannon, c));
      OpeningStep(ranks, y, 1, Piece(Cannon, c));
      assert grid[..] == OpeningPart(ranks, y, 2);
      OpeningSkip(ranks, y, 2);
      OpeningSkip(ranks, y, 3);
      OpeningSkip(ranks, y, 4);
      OpeningSkip(ranks, y, 5);
      OpeningSkip(ranks, y, 6);
      SetPieceSync(New(7, y), Piece(Cannon, c));
      OpeningStep(ranks, y, 7, Piece(Cannon, c));
      assert grid[..] == OpeningPart(ranks, y, 8);
      OpeningSkip(ranks, y, 8);
    }

    /** The five pawns of a side, on the even files. The source writes the
        five placements out; here they run file by file. */
    method PlacePawns(y: nat, c: Color, ghost ranks: set<nat>)
      requires Valid() && ((y == 3 && c == Red) || (y == 6 && c == Black))
      requires grid[..] == OpeningPart(ranks, y, 0)
      modifies grid, bitboard.pieces, bitboard.colors
      ensures Valid() && grid[..] == OpeningPart(ranks, y, 9)
    {
      for x := 0 to 9
        invariant Valid() && grid[..] == OpeningPart(ranks, y, x)
      {
        if x % 2 == 0 {
          SetPieceSync(New(x, y), Piece(Pawn, c));
          OpeningStep(ranks, y, x, Piece(Pawn, c));
        } else {
          OpeningSkip(ranks, y, x);
        }
      }
    }

    /** Board::update_king_positions: rescan both kings. */
    method UpdateKingPositions()
      requires grid.Length == 90
      modifies this
      ensures redKingPos == Rules.FindKing(grid[..], Red) && blackKingPos == Rules.FindKing(grid[..], Black)
      ensures currentHash == old(currentHash)
    {
      redKingPos := FindKing(Red);
      blackKingPos := FindKing(Black);
    }

    /** Board::find_king: scan files outer, ranks inner; the first king of
        the colour wins. */
    method FindKing(color: Color) returns (r: Option<Position>)
      requires grid.Length == 90
      ensures r == Rules.FindKing(grid[..], color)
    {
      ghost var g := grid[..];
      for x := 0 to 9
        invariant FindKingIn(g, color, x * 10).None?
      {
        for y := 0 to 10
          invariant FindKingIn(g, color, x * 10 + y).None?
        {
          var pos := New(x, y);
          var piece := GetPiece(pos);
          ghost var i := Cell(x, y);
          assert PosOf(i) == pos && piece == g[i];
          if piece.pieceType.King? && piece.color == color {
            FindKingInStable(g, color, i + 1, 90);
            return Some(pos);
          }
        }
      }
      return Option.None;
    }

    /** Board::get_piece: the piece on a square, empty off the board. */
    method GetPiece(pos: Position) returns (p: Piece)
      requires grid.Length == 90
      ensures p == Grids.GetPiece(grid[..], pos)
    {
      if pos.IsValid() {
        p := grid[pos.X() * 10 + pos.Y()];
      } else {
        p := Default();
      }
    }

    /** Board::set_piece_sync: write the grid and the bitboard; a square off
        the board is ignored. Kings, hash and cache are left as they are. */
    method SetPieceSync(pos: Position, piece: Piece)
      requires Valid()
      modifies grid, bitboard.pieces, bitboard.colors
      ensures Valid() && grid[..] == Place(old(grid[..]), pos, piece)
    {
      if pos.IsValid() {
        KindMasksPlace(grid[..], pos, piece);
        ColorMasksPlace(grid[..], pos, piece);
        grid[pos.X() * 10 + pos.Y()] := piece;
        bitboard.SetPiece(pos, piece);
      }
    }

    /** Board::set_piece: write one square, rescan the kings when a king is
        placed, recompute the hash from scratch and reset the cache to it. */
    method SetPiece(pos: Position, piece: Piece)
      requires Valid()
      modifies this, grid, bitboard.pieces, bitboard.colors, cache
      ensures Valid() && State() == AfterSet(zobrist, old(State()), pos, piece)
      ensures !pos.IsValid() ==>
        cache.legalMoves == old(cache.legalMoves) && cache.checkStatus == old(cache.checkStatus) &&
        cache.currentHash == old(cache.currentHash)
      ensures pos.IsValid() ==> cache.legalMoves == map[] && NoCachedCheck() && cache.currentHash == Some(currentHash)
    {
      if pos.IsValid() {
        SetPieceSync(pos, piece);
        if piece.pieceType.King? {
          UpdateKingPositions();
        }
        currentHash := Calculate(zobrist, grid[..]);
        ResetCache();
      }
    }

    /** Board::make_move: empty `from`, put the mover on `to`, rescan kings
        when a king moved or was captured, update the hash incrementally and
        reset the cache to it. The hash update indexes its table by both
        squares, so they must be on the board. */
    method MakeMove(from: Position, to: Position)
      requires Valid() && from.IsValid() && to.IsValid()
      modifies this, grid, bitboard.pieces, bitboard.colors, cache
      ensures Valid() && State() == AfterMove(zobrist, old(State()), from, to)
      ensures cache.legalMoves == map[] && NoCachedCheck() && cache.currentHash == Some(currentHash)
    {
      var movedPiece := GetPiece(from);
      var capturedPiece := GetPiece(to);
      SetPieceSync(from, Default());
      SetPieceSync(to, movedPiece);
      if movedPiece.pieceType.King? || capturedPiece.pieceType.King? {
        UpdateKingPositions();
      }
      currentHash := Update(zobrist, currentHash, from, to, movedPiece, capturedPiece);
      ResetCache();
    }

    /** Clear the cache and cache the current hash in it. */
    method ResetCache()
      modifies cache
      ensures cache.legalMoves == map[] && NoCachedCheck() && cache.currentHash == Some(currentHash)
    {
      cache.Clear();
      cache.CacheHash(currentHash);
    }

    /** Board::get_hash. */
    method GetHash() returns (h: Word)
      ensures h == currentHash
    {
      h := currentHash;
    }

    /** Board::is_move_valid: both squares on the board, a piece of the
        colour on `from`, no piece of the colour on `to`, then the rule of
        the piece's kind. */
    method IsMoveValid(from: Position, to: Position, color: Color) returns (b: bool)
      requires Valid()
      ensures b == Rules.IsMoveValid(grid[..], from, to, color)
    {
      if !from.IsValid() || !to.IsValid() {
        return false;
      }
      var fromPiece := GetPiece(from);
      if fromPiece.pieceType.None? {
        return false;
      }
      if fromPiece.color != color {
        return false;
      }
      var toPiece := GetPiece(to);
      if toPiece.color == color {
        return false;
      }
      match fromPiece.pieceType
      case King => b := IsKingMoveValid(from, to);
      case Advisor => b := IsAdvisorMoveValid(from, to);
      case Elephant => b := IsElephantMoveValid(from, to);
      case Horse => b := IsHorseMoveValid(from, to);
      case Chariot => b := IsChariotMoveValid(from, to);
      case Cannon => b := IsCannonMoveValid(from, to);
      case Pawn => b := IsPawnMoveValid(from, to, color);
      case None => b := false;
    }

    /** One step diagonally, onto a palace square of the advisor's colour. */
    method IsAdvisorMoveValid(from: Position, to: Position) returns (b: bool)
      requires Valid()
      ensures b == AdvisorMoveValid(grid[..], from, to)
    {
      var dx := Dist(from.X(), to.X());
      var dy := Dist(from.Y(), to.Y());
      if !(dx == 1 && dy == 1) {
        return false;
      }
      var piece := GetPiece(from);
      b := bitboard.IsInPalace(to, piece.color);
    }

    /** One step along a file or rank, onto a palace square of the king's colour. */
    method IsKingMoveValid(from: Position, to: Position) returns (b: bool)
      requires Valid()
      ensures b == KingMoveValid(grid[..], from, to)
    {
      var dx := Dist(from.X(), to.X());
      var dy := Dist(from.Y(), to.Y());
      if !((dx == 1 && dy == 0) || (dx == 0 && dy == 1)) {
        return false;
      }
      var piece := GetPiece(from);
      b := bitboard.IsInPalace(to, piece.color);
    }

    /** Two steps diagonally over an empty eye, not across the river. */
    method IsElephantMoveValid(from: Position, to: Position) returns (b: bool)
      requires Valid()
      ensures b == ElephantMoveValid(grid[..], from, to)
    {
      var dx := Dist(from.X(), to.X());
      var dy := Dist(from.Y(), to.Y());
      if !(dx == 2 && dy == 2) {
        return false;
      }
      var eyePos := New((from.X() + to.X()) / 2, (from.Y() + to.Y()) / 2);
      var eye := GetPiece(eyePos);
      if !eye.pieceType.None? {
        return false;
      }
      var piece := GetPiece(from);
      match piece.color
      case Red => b := to.Y() < 5;
      case Black => b := to.Y() >= 5;
      case None => b := false;
    }

    /** One step along and two across (or the reverse), with an empty leg. */
    method IsHorseMoveValid(from: Position, to: Position) returns (b: bool)
      requires Valid()
      ensures b == HorseMoveValid(grid[..], from, to)
    {
      var dx := Dist(from.X(), to.X());
      var dy := Dist(from.Y(), to.Y());
      if !((dx == 1 && dy == 2) || (dx == 2 && dy == 1)) {
        return false;
      }
      var legX, legY;
      if dx == 2 {
        legX, legY := (from.X() + to.X()) / 2, from.Y();
      } else {
        legX, legY := from.X(), (from.Y() + to.Y()) / 2;
      }
      var legPos := New(legX, legY);
      assert legPos == Leg(from, to);
      var leg := GetPiece(legPos);
      b := leg.pieceType.None?;
    }

    /** Along a file or rank with nothing in between. */
    method IsChariotMoveValid(from: Position, to: Position) returns (b: bool)
      requires Valid()
      ensures b == ChariotMoveValid(grid[..], from, to)
    {
      if from.X() != to.X() && from.Y() != to.Y() {
        return false;
      }
      b := IsPathClear(from, to);
    }

    /** Along a file or rank: over exactly one piece when capturing, over
        none otherwise. */
    method IsCannonMoveValid(from: Position, to: Position) returns (b: bool)
      requires Valid()
      ensures b == CannonMoveValid(grid[..], from, to)
    {
      if from.X() != to.X() && from.Y() != to.Y() {
        return false;
      }
      var toPiece := GetPiece(to);
      var hasCapture := !toPiece.pieceType.None?;
      var pieceCount := CountPiecesOnPath(from, to);
      if hasCapture {
        b := pieceCount == 1;
      } else {
        b := pieceCount == 0;
      }
    }

    /** One step forward, or one step sideways once across the river. */
    method IsPawnMoveValid(from: Position, to: Position, color: Color) returns (b: bool)
      ensures b == PawnMoveValid(from, to, color)
    {
      var dx := Dist(from.X(), to.X());
      var dy := Dist(from.Y(), to.Y());
      var crossed := IsPawnCrossedRiver(from, color);
      if !((dx == 0 && dy == 1) || (dx == 1 && dy == 0 && crossed)) {
        return false;
      }
      match color
      case Red => b := to.Y() > from.Y();
      case Black => b := to.Y() < from.Y();
      case None => b := false;
    }

    /** Red has crossed from rank 5 on, Black below rank 5. */
    method IsPawnCrossedRiver(pos: Position, color: Color) returns (b: bool)
      ensures b == PawnCrossedRiver(pos, color)
    {
      match color
      case Red => b := pos.Y() >= 5;
      case Black => b := pos.Y() < 5;
      case None => b := false;
    }

    /** No piece strictly between the two squares. */
    method IsPathClear(from: Position, to: Position) returns (b: bool)
      requires grid.Length == 90
      ensures b == (PathCount(grid[..], from, to) == 0)
    {
      var count := CountPiecesOnPath(from, to);
      b := count == 0;
    }

    /** Board::count_pieces_on_path: walk the squares strictly between two
        squares of a file (or else of a rank) and count the occupied ones;
        0 when they share neither. */
    method CountPiecesOnPath(from: Position, to: Position) returns (count: nat)
      requires grid.Length == 90
      ensures count == PathCount(grid[..], from, to)
    {
      count := 0;
      if from.X() == to.X() {
        count := CountOnLine(true, from.X(), Min(from.Y(), to.Y()) + 1, Max(from.Y(), to.Y()));
      } else if from.Y() == to.Y() {
        count := CountOnLine(false, from.Y(), Min(from.X(), to.X()) + 1, Max(from.X(), to.X()));
      }
    }

    /** One loop of count_pieces_on_path: the occupied squares k of a line
        (file `fixed` when vertical, rank `fixed` otherwise) with
        start <= k < end; none when start >= end. */
    method CountOnLine(vertical: bool, fixed: nat, start: nat, end: nat) returns (count: nat)
      requires grid.Length == 90 && fixed < 16 && start <= 16 && end < 16
      ensures count == CountLine(grid[..], vertical, fixed, start, end)
    {
      count := 0;
      var k := start;
      while k < end
        invariant start <= k <= Max(start, end)
        invariant count == CountLine(grid[..], vertical, fixed, start, k)
      {
        var pos := if vertical then New(fixed, k) else New(k, fixed);
        var piece := GetPiece(pos);
        if !piece.pieceType.None? {
          count := count + 1;
        }
        k := k + 1;
      }
    }

    /** Board::is_in_check: a cached answer if there is one; otherwise, for
        a colour with a cached king square, scan files outer and ranks inner
        for an opponent piece that the colour masks show and that can move
        onto the king. */
    method IsInCheck(color: Color) returns (b: bool)
      requires Valid()
      ensures b == CheckAnswer(color)
    {
      var cached := cache.GetCachedCheckStatus(color);
      if cached.Some? {
        return cached.value;
      }
      var kingPos: Option<Position>;
      match color {
        case Red => kingPos := redKingPos;
        case Black => kingPos := blackKingPos;
        case None => return false;
      }
      var isCheck := false;
      if kingPos.Some? {
        var king := kingPos.value;
        var opponent := Opponent(color);
        ghost var g := grid[..];
        for x := 0 to 9
          invariant !isCheck
          invariant forall i | 0 <= i < x * 10 :: !Attacks(g, i, king, opponent)
        {
          for y := 0 to 10
            invariant !isCheck
            invariant forall i | 0 <= i < x * 10 + y :: !Attacks(g, i, king, opponent)
          {
            var from := New(x, y);
            ghost var i := Cell(x, y);
            assert PosOf(i) == from;
            var shown := bitboard.HasColor(from, opponent);
            if shown {
              var piece := GetPiece(from);
              if !piece.pieceType.None? {
                var valid := IsMoveValid(from, king, opponent);
                if valid {
                  assert Attacks(g, i, king, opponent);
                  isCheck := true;
                  break;
                }
              }
            }
            assert !Attacks(g, i, king, opponent);
            NoAttackExtend(g, king, opponent, i);
          }
          if isCheck {
            break;
          }
        }
      }
      b := isCheck;
    }

    /** Board::is_move_safe: reject an invalid move; otherwise make it, ask
        whether the mover is in check, and undo it: put both squares back,
        restore the hash and the king squares, rebuild the bitboard from the
        grid and reset the cache to the original hash. */
    method IsMoveSafe(from: Position, to: Position, color: Color) returns (safe: bool)
      requires Valid()
      modifies this, grid, bitboard.pieces, bitboard.colors, bitboard.palace, cache
      ensures Valid() && State() == old(State())
      ensures safe == MoveSafe(zobrist, old(State()), from, to, color)
      ensures old(Rules.IsMoveValid(grid[..], from, to, color)) ==>
        cache.legalMoves == map[] && NoCachedCheck() && cache.currentHash == Some(currentHash)
      ensures !old(Rules.IsMoveValid(grid[..], from, to, color)) ==>
        cache.legalMoves == old(cache.legalMoves) && cache.checkStatus == old(cache.checkStatus) &&
        cache.currentHash == old(cache.currentHash)
    {
      var valid := IsMoveValid(from, to, color);
      if !valid {
        return false;
      }
      ghost var s := State();
      MoveGuards(s.grid, from, to, color);
      var originalFrom := GetPiece(from);
      var originalTo := GetPiece(to);
      var originalHash := currentHash;
      var originalRedKing := redKingPos;
      var originalBlackKing := blackKingPos;

      MakeMove(from, to);
      var inCheck := IsInCheck(color);
      safe := !inCheck;

      ghost var moved := grid[..];
      assert moved == AfterMove(zobrist, s, from, to).grid;
      SetPieceSync(from, originalFrom);
      SetPieceSync(to, originalTo);
      AfterMoveRestore(zobrist, s, from, to);
      assert grid[..] == Place(Place(moved, from, originalFrom), to, originalTo) == s.grid;
      currentHash := originalHash;
      redKingPos := originalRedKing;
      blackKingPos := originalBlackKing;
      assert State() == s;

      RebuildBitboard();
      cache.Clear();
      cache.CacheHash(originalHash);
    }

    /** The bitboard rebuild of is_move_safe: a fresh bitboard (reset in
        place here), palace squares initialised, then every occupied square
        recorded, files outer and ranks inner. */
    method RebuildBitboard()
      requires grid.Length == 90 && zobrist.Valid() && bitboard.Valid()
      modifies bitboard.pieces, bitboard.colors, bitboard.palace
      ensures Valid()
    {
      bitboard.Reset();
      bitboard.InitSpecialPositions();
      PalaceInitialised();
      ghost var g := grid[..];
      EmptyGridMasks();
      assert Prefix(g, 0) == EmptyGrid();
      assert bitboard.pieces[..] == KindMasks(Prefix(g, 0));
      assert bitboard.colors[..] == ColorMasks(Prefix(g, 0));
      for x := 0 to 9
        invariant bitboard.pieces[..] == KindMasks(Prefix(g, x * 10))
        invariant bitboard.colors[..] == ColorMasks(Prefix(g, x * 10))
        invariant bitboard.palace[..] == PalaceMasks()
      {
        RecordFile(x, g);
      }
      assert Prefix(g, 90) == g;
    }

    /** One file of the rebuild: the occupied squares of file x, ranks in
        order, added to masks that already hold the files before it. */
    method RecordFile(x: nat, ghost g: Grid)
      requires grid.Length == 90 && g == grid[..] && bitboard.Valid() && x < 9
      requires bitboard.pieces[..] == KindMasks(Prefix(g, x * 10))
      requires bitboard.colors[..] == ColorMasks(Prefix(g, x * 10))
      modifies bitboard.pieces, bitboard.colors
      ensures bitboard.pieces[..] == KindMasks(Prefix(g, x * 10 + 10))
      ensures bitboard.colors[..] == ColorMasks(Prefix(g, x * 10 + 10))
    {
      for y := 0 to 10
        invariant bitboard.pieces[..] == KindMasks(Prefix(g, x * 10 + y))
        invariant bitboard.colors[..] == ColorMasks(Prefix(g, x * 10 + y))
      {
        var pos := New(x, y);
        var piece := GetPiece(pos);
        ghost var i := x * 10 + y;
        assert i == Cell(x, y) && PosOf(i) == pos && piece == g[i];
        PrefixStep(g, i);
        if !piece.pieceType.None? {
          MasksStep(g, i);
          bitboard.SetPiece(pos, piece);
        }
      }
    }

    /** Board::clone: a board with copies of the grid, the bitboard and the
        cache of its own. */
    constructor Clone(other: Board)
      requires other.Valid()
      ensures Valid() && fresh(Parts()) && zobrist == other.zobrist && State() == other.State()
      ensures cache.legalMoves == other.cache.legalMoves && cache.checkStatus == other.cache.checkStatus &&
        cache.currentHash == other.cache.currentHash
    {
      grid := new Piece[90](i requires 0 <= i < 90 reads other.grid => other.grid[i]);
      redKingPos, blackKingPos := other.redKingPos, other.blackKingPos;
      zobrist := other.zobrist;
      currentHash := other.currentHash;
      bitboard := new Bitboard.Clone(other.bitboard);
      cache := new BoardCache.Clone(other.cache);
      new;
      assert grid[..] == other.grid[..];
    }

    /** Board::has_legal_moves: for every square holding a piece of the
        colour (files outer, ranks inner), try every target; a valid target
        is checked for safety on a clone, and the first safe one answers. */
    method HasLegalMoves(color: Color) returns (b: bool)
      requires Valid()
      ensures b == Rules.HasLegalMoves(zobrist, State(), color)
    {
      var temp := new Board.Clone(this);
      ghost var s := State();
      for x1 := 0 to 9
        invariant fresh(temp.Repr()) && temp.Valid() && temp.zobrist == zobrist && temp.State() == s
        invariant forall i, j | 0 <= i < x1 * 10 && 0 <= j < 90 ::
          !(s.grid[i].color == color && MoveSafe(zobrist, s, PosOf(i), PosOf(j), color))
      {
        for y1 := 0 to 10
          invariant fresh(temp.Repr()) && temp.Valid() && temp.zobrist == zobrist && temp.State() == s
          invariant forall i, j | 0 <= i < x1 * 10 + y1 && 0 <= j < 90 ::
            !(s.grid[i].color == color && MoveSafe(zobrist, s, PosOf(i), PosOf(j), color))
        {
          var from := New(x1, y1);
          var fromPiece := GetPiece(from);
          ghost var i := Cell(x1, y1);
          assert PosOf(i) == from && fromPiece == s.grid[i];
          if fromPiece.color == color {
            var found := SafeMoveFrom(temp, from, color);
            if found {
              return true;
            }
          }
          NoSafeMoveExtend(zobrist, s, color, i);
        }
      }
      return false;
    }

    /** The two inner loops of has_legal_moves: every target of one square,
        valid ones checked for safety on the clone `temp`. */
    method SafeMoveFrom(temp: Board, from: Position, color: Color) returns (found: bool)
      requires Valid() && temp.Valid() && temp.zobrist == zobrist && temp.State() == State()
      requires Repr() !! temp.Repr()
      modifies temp, temp.grid, temp.bitboard.pieces, temp.bitboard.colors, temp.bitboard.palace, temp.cache
      ensures temp.Valid() && temp.State() == State()
      ensures found <==> exists j | 0 <= j < 90 :: MoveSafe(zobrist, State(), from, PosOf(j), color)
    {
      ghost var s := State();
      for x2 := 0 to 9
        invariant temp.Valid() && temp.State() == s
        invariant forall j | 0 <= j < x2 * 10 :: !MoveSafe(zobrist, s, from, PosOf(j), color)
      {
        for y2 := 0 to 10
          invariant temp.Valid() && temp.State() == s
          invariant forall j | 0 <= j < x2 * 10 + y2 :: !MoveSafe(zobrist, s, from, PosOf(j), color)
        {
          var to := New(x2, y2);
          ghost var j := Cell(x2, y2);
          assert PosOf(j) == to;
          var valid := IsMoveValid(from, to, color);
          if valid {
            var safe := temp.IsMoveSafe(from, to, color);
            if safe {
              return true;
            }
          }
          assert !MoveSafe(zobrist, s, from, PosOf(j), color);
          NoSafeTargetExtend(zobrist, s, from, color, j);
        }
      }
      return false;
    }

    /** Board::is_checkmate: in check, and no legal move. */
    method IsCheckmate(color: Color) returns (b: bool)
      requires Valid()
      ensures b == (CheckAnswer(color) && !Rules.HasLegalMoves(zobrist, State(), color))
      ensures NoCachedCheck() ==> b == Rules.IsCheckmate(zobrist, State(), color)
    {
      var inCheck := IsInCheck(color);
      if !inCheck {
        return false;
      }
      var any := HasLegalMoves(color);
      b := !any;
    }

    /** Board::is_stalemate: not in check, and no legal move. */
    method IsStalemate(color: Color) returns (b: bool)
      requires Valid()
      ensures b == (!CheckAnswer(color) && !Rules.HasLegalMoves(zobrist, State(), color))
      ensures NoCachedCheck() ==> b == Rules.IsStalemate(zobrist, State(), color)
    {
      var inCheck := IsInCheck(color);
      if inCheck {
        return false;
      }
      var any := HasLegalMoves(color);
      b := !any;
    }
  }
}
