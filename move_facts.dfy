/** Properties of the effect of a move, of the king scan, of check detection
    and of the end conditions. */
module MoveFacts {
  import opened Options
  import opened Pieces
  import opened Positions
  import opened Grids
  import opened Bitboards
  import opened Zobrist
  import opened Rules

  /** A move empties `from`, puts the mover on `to` and leaves every other
      square alone; a move onto its own square changes no square. */
  lemma AfterMoveGrid(z: ZobristHash, s: BoardState, from: Position, to: Position)
    requires z.Valid() && from.IsValid() && to.IsValid()
    ensures var g := AfterMove(z, s, from, to).grid;
      from != to ==> GetPiece(g, from) == Default() && GetPiece(g, to) == GetPiece(s.grid, from)
    ensures var g := AfterMove(z, s, from, to).grid;
      forall q: Position | q.IsValid() && q != from && q != to :: GetPiece(g, q) == GetPiece(s.grid, q)
    ensures from == to ==> AfterMove(z, s, from, to).grid == s.grid
  {
    if from == to {
      var i := Cell(from.X(), from.Y());
      assert AfterMove(z, s, from, to).grid == s.grid[i := Default()][i := s.grid[i]];
    }
  }

  /** Putting the two squares of a move back restores the grid: the undo that
      the safety test performs. */
  lemma AfterMoveRestore(z: ZobristHash, s: BoardState, from: Position, to: Position)
    requires z.Valid() && from.IsValid() && to.IsValid() && from != to
    ensures Place(Place(AfterMove(z, s, from, to).grid, from, GetPiece(s.grid, from)), to, GetPiece(s.grid, to)) == s.grid
  {
    var g := s.grid;
    var fi, ti := Cell(from.X(), from.Y()), Cell(to.X(), to.Y());
    CellInjective(from, to);
    var r := Place(Place(AfterMove(z, s, from, to).grid, from, g[fi]), to, g[ti]);
    assert r == g[fi := Default()][ti := g[fi]][fi := g[fi]][ti := g[ti]];
  }

  /** The incremental hash of a move stays the full hash of the grid: if the
      state's hash describes its grid before a move of a non-empty piece onto
      another square, it describes it after. */
  lemma AfterMoveKeepsHash(z: ZobristHash, s: BoardState, from: Position, to: Position)
    requires z.Valid() && from.IsValid() && to.IsValid() && from != to
    requires !GetPiece(s.grid, from).pieceType.None?
    requires s.hash == Hash(z, s.grid)
    ensures AfterMove(z, s, from, to).hash == Hash(z, AfterMove(z, s, from, to).grid)
  {
    UpdateRefinesHash(z, s.grid, from, to);
  }

  /** The cell holds a king of colour c. */
  predicate KingAt(g: Grid, c: Color, i: nat)
    requires i < 90
  {
    g[i].pieceType.King? && g[i].color == c
  }

  /** The scan of the first n cells finds the first king of colour c there
      (on cell j), and nothing when there is none. */
  lemma {:induction false} FindKingInSound(g: Grid, c: Color, n: nat) returns (j: nat)
    requires n <= 90
    ensures FindKingIn(g, c, n).Some? ==>
      j < n && FindKingIn(g, c, n).value == PosOf(j) && KingAt(g, c, j) &&
      forall k | 0 <= k < j :: !KingAt(g, c, k)
    ensures FindKingIn(g, c, n).None? ==> forall k | 0 <= k < n :: !KingAt(g, c, k)
  {
    j := 0;
    if n > 0 {
      var earlier := FindKingIn(g, c, n - 1);
      j := FindKingInSound(g, c, n - 1);
      if earlier.None? {
        assert FindKingIn(g, c, n) == if KingAt(g, c, n - 1) then Some(PosOf(n - 1)) else Option.None;
        j := n - 1;
      } else {
        assert FindKingIn(g, c, n) == earlier;
      }
    }
  }

  /** Once the scan has found a king, scanning further cells keeps it. */
  lemma {:induction false} FindKingInStable(g: Grid, c: Color, n: nat, m: nat)
    requires n <= m <= 90 && FindKingIn(g, c, n).Some?
    ensures FindKingIn(g, c, m) == FindKingIn(g, c, n)
    decreases m
  {
    if n < m {
      FindKingInStable(g, c, n, m - 1);
    }
  }

  /** What FindKing answers, stated over squares: a king of colour c on a
      square of the board with no king of colour c earlier in the scan order
      (files outer, ranks inner); or nothing when the board holds none. */
  lemma FindKingSound(g: Grid, c: Color)
    ensures FindKing(g, c).Some? ==>
      var p := FindKing(g, c).value;
      p.IsValid() && GetPiece(g, p).pieceType.King? && GetPiece(g, p).color == c &&
      forall q: Position | q.IsValid() && Cell(q.X(), q.Y()) < Cell(p.X(), p.Y()) ::
        !(GetPiece(g, q).pieceType.King? && GetPiece(g, q).color == c)
    ensures FindKing(g, c).None? ==>
      forall q: Position | q.IsValid() :: !(GetPiece(g, q).pieceType.King? && GetPiece(g, q).color == c)
  {
    if FindKing(g, c).None? {
      FindKingMissing(g, c);
    } else {
      FindKingFound(g, c);
    }
  }

  lemma FindKingFound(g: Grid, c: Color)
    requires FindKing(g, c).Some?
    ensures var p := FindKing(g, c).value;
      p.IsValid() && GetPiece(g, p).pieceType.King? && GetPiece(g, p).color == c &&
      forall q: Position | q.IsValid() && Cell(q.X(), q.Y()) < Cell(p.X(), p.Y()) ::
        !(GetPiece(g, q).pieceType.King? && GetPiece(g, q).color == c)
  {
    var j := FindKingInSound(g, c, 90);
    var p := PosOf(j);
    assert Cell(p.X(), p.Y()) == j && GetPiece(g, p) == g[j];
    forall q: Position | q.IsValid() && Cell(q.X(), q.Y()) < j
      ensures !(GetPiece(g, q).pieceType.King? && GetPiece(g, q).color == c)
    {
      assert !KingAt(g, c, Cell(q.X(), q.Y()));
    }
  }

  lemma FindKingMissing(g: Grid, c: Color)
    requires FindKing(g, c).None?
    ensures forall q: Position | q.IsValid() :: !(GetPiece(g, q).pieceType.King? && GetPiece(g, q).color == c)
  {
    var _ := FindKingInSound(g, c, 90);
    forall q: Position | q.IsValid()
      ensures !(GetPiece(g, q).pieceType.King? && GetPiece(g, q).color == c)
    {
      assert !KingAt(g, c, Cell(q.X(), q.Y()));
    }
  }

  /** The scan only sees where the kings of colour c stand. */
  lemma {:induction false} FindKingInAgree(g: Grid, h: Grid, c: Color, n: nat)
    requires n <= 90
    requires forall j | 0 <= j < n :: KingAt(g, c, j) == KingAt(h, c, j)
    ensures FindKingIn(g, c, n) == FindKingIn(h, c, n)
  {
    if n > 0 {
      FindKingInAgree(g, h, c, n - 1);
      assert KingAt(g, c, n - 1) == KingAt(h, c, n - 1);
    }
  }

  /** Writing non-kings over two non-king squares moves no king. */
  lemma NonKingWrites(g: Grid, from: Position, to: Position, p: Piece)
    requires from.IsValid() && to.IsValid()
    requires !GetPiece(g, from).pieceType.King? && !GetPiece(g, to).pieceType.King? && !p.pieceType.King?
    ensures forall c, j | 0 <= j < 90 :: KingAt(Place(Place(g, from, Default()), to, p), c, j) == KingAt(g, c, j)
  {
  }

  /** The cached king squares are the ones a fresh scan would find. */
  predicate KingsCached(s: BoardState)
  {
    s.redKing == FindKing(s.grid, Red) && s.blackKing == FindKing(s.grid, Black)
  }

  /** A move keeps the king cache right: it rescans when a king moves or is
      captured, and otherwise no king has changed square. */
  lemma AfterMoveKeepsKings(z: ZobristHash, s: BoardState, from: Position, to: Position)
    requires z.Valid() && from.IsValid() && to.IsValid()
    requires KingsCached(s)
    ensures KingsCached(AfterMove(z, s, from, to))
  {
    var moved, captured := GetPiece(s.grid, from), GetPiece(s.grid, to);
    if !moved.pieceType.King? && !captured.pieceType.King? {
      var g := AfterMove(z, s, from, to).grid;
      NonKingWrites(s.grid, from, to, moved);
      FindKingInAgree(g, s.grid, Red, 90);
      FindKingInAgree(g, s.grid, Black, 90);
    }
  }

  /** Check, stated over squares: the colour has a cached king, and some
      opponent piece on a square that has a bitboard bit can make a valid
      move onto it. Opponent pieces on squares without a bit (index 64 and
      above, most of ranks 7 to 9) never give check. */
  lemma InCheckMeaning(s: BoardState, c: Color)
    ensures InCheck(s, c) <==>
      !c.None? && KingOf(s, c).Some? &&
      exists p: Position :: p.IsValid() && PosToIndex(p) < 64 && IsMoveValid(s.grid, p, KingOf(s, c).value, Opponent(c))
  {
    if !c.None? && KingOf(s, c).Some? {
      var king, opp := KingOf(s, c).value, Opponent(c);
      if InCheck(s, c) {
        var i :| 0 <= i < 90 && Attacks(s.grid, i, king, opp);
        var p := PosOf(i);
        assert PosToIndex(p) < 64;
      }
      if exists p: Position :: p.IsValid() && PosToIndex(p) < 64 && IsMoveValid(s.grid, p, king, opp) {
        var p: Position :| p.IsValid() && PosToIndex(p) < 64 && IsMoveValid(s.grid, p, king, opp);
        var i := Cell(p.X(), p.Y());
        NewOfParts(p);
        assert PosOf(i) == p;
        MirrorHasColor(s.grid, p, opp);
        assert Attacks(s.grid, i, king, opp);
      }
    }
  }

  /** Legal moves, stated over squares: some valid move of colour c onto a
      square of the board leaves c out of check. */
  lemma HasLegalMovesMeaning(z: ZobristHash, s: BoardState, c: Color)
    requires z.Valid()
    ensures HasLegalMoves(z, s, c) <==>
      exists from: Position, to: Position :: from.IsValid() && to.IsValid() && MoveSafe(z, s, from, to, c)
  {
    if exists from: Position, to: Position :: from.IsValid() && to.IsValid() && MoveSafe(z, s, from, to, c) {
      var from: Position, to: Position :| from.IsValid() && to.IsValid() && MoveSafe(z, s, from, to, c);
      var i, j := Cell(from.X(), from.Y()), Cell(to.X(), to.Y());
      NewOfParts(from);
      NewOfParts(to);
      assert PosOf(i) == from && PosOf(j) == to;
      assert s.grid[i].color == c;
    }
  }

  /** Exactly one of: a legal move exists, checkmate, stalemate. */
  lemma EndConditionsExclusive(z: ZobristHash, s: BoardState, c: Color)
    requires z.Valid()
    ensures HasLegalMoves(z, s, c) || IsCheckmate(z, s, c) || IsStalemate(z, s, c)
    ensures !(HasLegalMoves(z, s, c) && IsCheckmate(z, s, c))
    ensures !(HasLegalMoves(z, s, c) && IsStalemate(z, s, c))
    ensures !(IsCheckmate(z, s, c) && IsStalemate(z, s, c))
  {
  }

  /** The opening layout as squares. */
  lemma InitialAt(x: nat, y: nat)
    requires x < 9 && y < 10
    ensures GetPiece(InitialGrid(), New(x, y)) == InitialPiece(x, y)
  {
    assert Cell(x, y) / 10 == x && Cell(x, y) % 10 == y;
  }

  /** The only kings of the opening layout are on cells 40 and 49. */
  lemma InitialKingCells(c: Color, k: nat)
    requires k < 90
    ensures KingAt(InitialGrid(), c, k) <==> (c.Red? && k == 40) || (c.Black? && k == 49)
  {
    var x, y := k / 10, k % 10;
    assert InitialGrid()[k] == InitialPiece(x, y);
    if KingAt(InitialGrid(), c, k) {
      assert y == 0 || y == 9;
      assert x == 4;
    }
  }

  /** The scan of the opening layout finds each king on its own cell. */
  lemma InitialKingFound(c: Color, i: nat)
    requires (c.Red? && i == 40) || (c.Black? && i == 49)
    ensures FindKing(InitialGrid(), c) == Some(PosOf(i))
  {
    var g := InitialGrid();
    InitialKingCells(c, i);
    var j := FindKingInSound(g, c, 90);
    if j < 90 {
      InitialKingCells(c, j);
    }
  }

  /** In the opening layout the kings stand on the middle file of the back ranks. */
  lemma InitialKings()
    ensures FindKing(InitialGrid(), Red) == Some(New(4, 0))
    ensures FindKing(InitialGrid(), Black) == Some(New(4, 9))
  {
    InitialKingFound(Red, 40);
    InitialKingFound(Black, 49);
  }

  /** Opening example: a corner chariot cannot jump its own pawn. */
  lemma InitialChariotBlocked(x: nat)
    requires x == 0 || x == 8
    ensures !IsMoveValid(InitialGrid(), New(x, 0), New(x, 4), Red)
  {
    InitialPawnScreens(x);
    var g, from, to := InitialGrid(), New(x, 0), New(x, 4);
    InitialAt(x, 0);
    InitialAt(x, 4);
    assert GetPiece(g, from) == Piece(Chariot, Red) && GetPiece(g, to) == Default();
    assert IsMoveValid(g, from, to, Red) == ChariotMoveValid(g, from, to);
    assert PathCount(g, from, to) == CountLine(g, true, x, 1, 4);
  }

  /** A Red pawn on an even file stands between ranks 0 and 4. */
  lemma InitialPawnScreens(x: nat)
    requires x < 9 && x % 2 == 0
    ensures CountLine(InitialGrid(), true, x, 1, 4) >= 1
  {
    var g := InitialGrid();
    InitialAt(x, 3);
    assert LineSquare(true, x, 3) == New(x, 3);
    assert CountLine(g, true, x, 1, 4) == CountLine(g, true, x, 1, 3) + 1;
  }

  /** Opening example: a horse steps out over an empty leg. */
  lemma InitialHorseMove()
    ensures IsMoveValid(InitialGrid(), New(1, 0), New(2, 2), Red)
  {
    InitialAt(1, 0);
    InitialAt(2, 2);
    InitialAt(1, 1);
  }

  /** Opening example: a cannon captures the horse behind the opposing
      cannon, its screen. */
  lemma InitialCannonCapture()
    ensures IsMoveValid(InitialGrid(), New(1, 2), New(1, 9), Red)
  {
    var g := InitialGrid();
    InitialAt(1, 2);
    InitialAt(1, 9);
    forall y | 3 <= y < 9 ensures GetPiece(g, New(1, y)) == InitialPiece(1, y) {
      InitialAt(1, y);
    }
    assert CountLine(g, true, 1, 3, 9) == 1;
  }
}
