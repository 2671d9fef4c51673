/** Properties of the board rules: what each piece rule admits, the blind
    spots of the bitboard, the effect of a move, and the end conditions. */
module RuleFacts {
  import opened Options
  import opened Pieces
  import opened Positions
  import opened Grids
  import opened Bitboards
  import opened Zobrist
  import opened Rules

  /** The common guard of every move: both squares on the board, a piece of
      the mover's colour on `from`, and no piece of that colour on `to`. */
  predicate Guard(g: Grid, from: Position, to: Position, c: Color)
  {
    from.IsValid() && to.IsValid() &&
    !GetPiece(g, from).pieceType.None? && GetPiece(g, from).color == c &&
    GetPiece(g, to).color != c
  }

  /** A valid move passes the guard; so a piece can never "move" onto its own square. */
  lemma MoveGuards(g: Grid, from: Position, to: Position, c: Color)
    ensures IsMoveValid(g, from, to, c) ==> Guard(g, from, to, c)
    ensures !IsMoveValid(g, from, from, c)
  {
  }

  /** A king moves one orthogonal step and an advisor one diagonal step, and
      only into the Red palace: the Black palace mask is empty, so Black kings
      and advisors never move. */
  lemma PalacePieces(g: Grid, from: Position, to: Position, c: Color)
    requires IsMoveValid(g, from, to, c)
    requires GetPiece(g, from).pieceType.King? || GetPiece(g, from).pieceType.Advisor?
    ensures c.Red? && 3 <= to.X() <= 5 && to.Y() <= 2
    ensures GetPiece(g, from).pieceType.King? ==> Dist(from.X(), to.X()) + Dist(from.Y(), to.Y()) == 1
    ensures GetPiece(g, from).pieceType.Advisor? ==> Dist(from.X(), to.X()) == 1 && Dist(from.Y(), to.Y()) == 1
  {
    PalaceExact(to);
  }

  /** Conversely, a Red king or advisor that passes the guard may make its
      step onto any square of the Red palace. */
  lemma RedPalaceStep(g: Grid, from: Position, to: Position)
    requires Guard(g, from, to, Red)
    requires 3 <= to.X() <= 5 && to.Y() <= 2
    ensures GetPiece(g, from).pieceType.King? && Dist(from.X(), to.X()) + Dist(from.Y(), to.Y()) == 1
      ==> IsMoveValid(g, from, to, Red)
    ensures GetPiece(g, from).pieceType.Advisor? && Dist(from.X(), to.X()) == 1 && Dist(from.Y(), to.Y()) == 1
      ==> IsMoveValid(g, from, to, Red)
  {
    PalaceExact(to);
  }

  /** An elephant moves two squares diagonally, over an empty eye (the square
      between), and stays on its own side of the river. */
  lemma ElephantRule(g: Grid, from: Position, to: Position, c: Color)
    requires Guard(g, from, to, c) && GetPiece(g, from).pieceType.Elephant?
    ensures IsMoveValid(g, from, to, c) <==>
      Dist(from.X(), to.X()) == 2 && Dist(from.Y(), to.Y()) == 2 &&
      GetPiece(g, New(Min(from.X(), to.X()) + 1, Min(from.Y(), to.Y()) + 1)).pieceType.None? &&
      ((c.Red? && to.Y() < 5) || (c.Black? && to.Y() >= 5))
  {
    assert IsMoveValid(g, from, to, c) == ElephantMoveValid(g, from, to);
    var fx, fy, tx, ty := from.X(), from.Y(), to.X(), to.Y();
    if Dist(fx, tx) == 2 && Dist(fy, ty) == 2 {
      Midpoint(fx, tx);
      Midpoint(fy, ty);
    }
  }

  /** Two coordinates two apart: their midpoint is the one after the smaller. */
  lemma Midpoint(a: nat, b: nat)
    requires Dist(a, b) == 2
    ensures (a + b) / 2 == Min(a, b) + 1
  {
  }

  /** A horse moves one square orthogonally and one diagonally outward, over
      an empty leg: the square next to `from` along the long side. */
  lemma HorseRule(g: Grid, from: Position, to: Position, c: Color)
    requires Guard(g, from, to, c) && GetPiece(g, from).pieceType.Horse?
    ensures IsMoveValid(g, from, to, c) <==>
      (Dist(from.X(), to.X()) == 2 && Dist(from.Y(), to.Y()) == 1 &&
       GetPiece(g, New(Min(from.X(), to.X()) + 1, from.Y())).pieceType.None?) ||
      (Dist(from.X(), to.X()) == 1 && Dist(from.Y(), to.Y()) == 2 &&
       GetPiece(g, New(from.X(), Min(from.Y(), to.Y()) + 1)).pieceType.None?)
  {
    assert IsMoveValid(g, from, to, c) == HorseMoveValid(g, from, to);
    var fx, fy, tx, ty := from.X(), from.Y(), to.X(), to.Y();
    if Dist(fx, tx) == 2 {
      Midpoint(fx, tx);
    } else if Dist(fy, ty) == 2 {
      Midpoint(fy, ty);
    }
  }

  /** A pawn moves exactly one rank forward (up the ranks for Red, down for
      Black). The sideways step that the river-crossing test admits is then
      refused by the forward-direction test, so no pawn ever moves sideways. */
  lemma PawnRule(g: Grid, from: Position, to: Position, c: Color)
    requires Guard(g, from, to, c) && GetPiece(g, from).pieceType.Pawn?
    ensures IsMoveValid(g, from, to, c) <==>
      from.X() == to.X() &&
      ((c.Red? && to.Y() == from.Y() + 1) || (c.Black? && to.Y() + 1 == from.Y()))
  {
    assert IsMoveValid(g, from, to, c) == PawnMoveValid(from, to, c);
  }

  /** q lies strictly between `from` and `to` on the line the path count scans:
      their common file if they share one, else their common rank. */
  predicate StrictlyBetween(from: Position, to: Position, q: Position)
  {
    if from.X() == to.X() then q.X() == from.X() && Min(from.Y(), to.Y()) < q.Y() < Max(from.Y(), to.Y())
    else if from.Y() == to.Y() then q.Y() == from.Y() && Min(from.X(), to.X()) < q.X() < Max(from.X(), to.X())
    else false
  }

  /** No piece strictly between. */
  ghost predicate NoneBetween(g: Grid, from: Position, to: Position)
  {
    forall q: Position :: q.IsValid() && StrictlyBetween(from, to, q) ==> GetPiece(g, q).pieceType.None?
  }

  /** Exactly one piece strictly between. */
  ghost predicate OneBetween(g: Grid, from: Position, to: Position)
  {
    exists q: Position :: q.IsValid() && StrictlyBetween(from, to, q) && !GetPiece(g, q).pieceType.None? &&
      forall r: Position :: r.IsValid() && StrictlyBetween(from, to, r) && !GetPiece(g, r).pieceType.None? ==> r == q
  }

  /** A line count is zero exactly when every square of the range is empty. */
  lemma {:induction false} CountLineZero(g: Grid, vertical: bool, fixed: nat, lo: nat, hi: nat)
    requires fixed < 16 && hi <= 16
    ensures CountLine(g, vertical, fixed, lo, hi) == 0 <==>
      forall k | lo <= k < hi :: GetPiece(g, LineSquare(vertical, fixed, k)).pieceType.None?
    decreases hi
  {
    if lo < hi {
      CountLineZero(g, vertical, fixed, lo, hi - 1);
      var top := GetPiece(g, LineSquare(vertical, fixed, hi - 1));
      assert CountLine(g, vertical, fixed, lo, hi) ==
        CountLine(g, vertical, fixed, lo, hi - 1) + if top.pieceType.None? then 0 else 1;
    }
  }

  /** A line count is one exactly when one square of the range is occupied. */
  lemma CountLineOne(g: Grid, vertical: bool, fixed: nat, lo: nat, hi: nat)
    requires fixed < 16 && hi <= 16
    ensures CountLine(g, vertical, fixed, lo, hi) == 1 <==>
      exists k | lo <= k < hi :: !GetPiece(g, LineSquare(vertical, fixed, k)).pieceType.None? &&
        forall j | lo <= j < hi && j != k :: GetPiece(g, LineSquare(vertical, fixed, j)).pieceType.None?
  {
    if CountLine(g, vertical, fixed, lo, hi) == 1 {
      var _ := CountLineOneWitness(g, vertical, fixed, lo, hi);
    }
    if exists k | lo <= k < hi :: !GetPiece(g, LineSquare(vertical, fixed, k)).pieceType.None? &&
        forall j | lo <= j < hi && j != k :: GetPiece(g, LineSquare(vertical, fixed, j)).pieceType.None? {
      var k :| lo <= k < hi && !GetPiece(g, LineSquare(vertical, fixed, k)).pieceType.None? &&
        forall j | lo <= j < hi && j != k :: GetPiece(g, LineSquare(vertical, fixed, j)).pieceType.None?;
      CountLineOnly(g, vertical, fixed, lo, hi, k);
    }
  }

  /** A count of one has a witness: the one occupied square k of the range. */
  lemma {:induction false} CountLineOneWitness(g: Grid, vertical: bool, fixed: nat, lo: nat, hi: nat) returns (k: nat)
    requires fixed < 16 && hi <= 16 && CountLine(g, vertical, fixed, lo, hi) == 1
    ensures lo <= k < hi && !GetPiece(g, LineSquare(vertical, fixed, k)).pieceType.None?
    ensures forall j | lo <= j < hi && j != k :: GetPiece(g, LineSquare(vertical, fixed, j)).pieceType.None?
    decreases hi
  {
    var top := hi - 1;
    var piece := GetPiece(g, LineSquare(vertical, fixed, top));
    assert CountLine(g, vertical, fixed, lo, hi) ==
      CountLine(g, vertical, fixed, lo, top) + if piece.pieceType.None? then 0 else 1;
    if piece.pieceType.None? {
      k := CountLineOneWitness(g, vertical, fixed, lo, top);
    } else {
      k := top;
      CountLineZero(g, vertical, fixed, lo, top);
    }
  }

  /** A range whose only occupied square is k counts one. */
  lemma {:induction false} CountLineOnly(g: Grid, vertical: bool, fixed: nat, lo: nat, hi: nat, k: nat)
    requires fixed < 16 && hi <= 16 && lo <= k < hi
    requires !GetPiece(g, LineSquare(vertical, fixed, k)).pieceType.None?
    requires forall j | lo <= j < hi && j != k :: GetPiece(g, LineSquare(vertical, fixed, j)).pieceType.None?
    ensures CountLine(g, vertical, fixed, lo, hi) == 1
    decreases hi
  {
    if k == hi - 1 {
      CountLineZero(g, vertical, fixed, lo, hi - 1);
    } else {
      CountLineOnly(g, vertical, fixed, lo, hi - 1, k);
    }
  }

  /** The coordinate of q along the line the path count scans. */
  function Along(vertical: bool, q: Position): nat
  {
    if vertical then q.Y() else q.X()
  }

  /** The line the path count scans between `from` and `to`: its direction,
      its fixed coordinate, and the range [lo, hi) along it. */
  predicate IsLine(from: Position, to: Position, vertical: bool, fixed: nat, lo: nat, hi: nat)
  {
    (vertical <==> from.X() == to.X()) && (vertical || from.Y() == to.Y()) &&
    fixed == (if vertical then from.X() else from.Y()) &&
    lo == Min(Along(vertical, from), Along(vertical, to)) + 1 &&
    hi == Max(Along(vertical, from), Along(vertical, to))
  }

  /** Every square the path count visits lies strictly between. */
  lemma LineIsBetween(from: Position, to: Position, vertical: bool, fixed: nat, lo: nat, hi: nat)
    requires from.IsValid() && to.IsValid() && IsLine(from, to, vertical, fixed, lo, hi)
    ensures fixed < 16 && hi <= 16
    ensures forall k | lo <= k < hi ::
      LineSquare(vertical, fixed, k).IsValid() && StrictlyBetween(from, to, LineSquare(vertical, fixed, k))
  {
  }

  /** Every square strictly between is visited by the path count. */
  lemma BetweenIsLine(from: Position, to: Position, vertical: bool, fixed: nat, lo: nat, hi: nat, q: Position)
    requires from.IsValid() && to.IsValid() && IsLine(from, to, vertical, fixed, lo, hi)
    requires q.IsValid() && StrictlyBetween(from, to, q)
    ensures fixed < 16 && lo <= Along(vertical, q) < hi && hi <= 16
    ensures q == LineSquare(vertical, fixed, Along(vertical, q))
  {
    NewOfParts(q);
  }

  /** The line the path count scans, and its range. */
  lemma PathLine(g: Grid, from: Position, to: Position) returns (vertical: bool, fixed: nat, lo: nat, hi: nat)
    requires from.IsValid() && to.IsValid() && (from.X() == to.X() || from.Y() == to.Y())
    ensures fixed < 16 && hi <= 16 && IsLine(from, to, vertical, fixed, lo, hi)
    ensures PathCount(g, from, to) == CountLine(g, vertical, fixed, lo, hi)
    ensures forall k | lo <= k < hi ::
      LineSquare(vertical, fixed, k).IsValid() && StrictlyBetween(from, to, LineSquare(vertical, fixed, k))
  {
    vertical := from.X() == to.X();
    fixed := if vertical then from.X() else from.Y();
    lo := Min(Along(vertical, from), Along(vertical, to)) + 1;
    hi := Max(Along(vertical, from), Along(vertical, to));
    LineIsBetween(from, to, vertical, fixed, lo, hi);
  }

  /** The path count is zero exactly when nothing stands between. */
  lemma PathZero(g: Grid, from: Position, to: Position)
    requires from.IsValid() && to.IsValid() && (from.X() == to.X() || from.Y() == to.Y())
    ensures PathCount(g, from, to) == 0 <==> NoneBetween(g, from, to)
  {
    var vertical, fixed, lo, hi := PathLine(g, from, to);
    CountLineZero(g, vertical, fixed, lo, hi);
    if CountLine(g, vertical, fixed, lo, hi) == 0 {
      forall q: Position | q.IsValid() && StrictlyBetween(from, to, q)
        ensures GetPiece(g, q).pieceType.None?
      {
        BetweenIsLine(from, to, vertical, fixed, lo, hi, q);
      }
    }
    if NoneBetween(g, from, to) {
      forall k | lo <= k < hi
        ensures GetPiece(g, LineSquare(vertical, fixed, k)).pieceType.None?
      {
        var q := LineSquare(vertical, fixed, k);
        assert q.IsValid() && StrictlyBetween(from, to, q);
      }
    }
  }

  /** The path count is one exactly when a single piece stands between. */
  lemma PathOne(g: Grid, from: Position, to: Position)
    requires from.IsValid() && to.IsValid() && (from.X() == to.X() || from.Y() == to.Y())
    ensures PathCount(g, from, to) == 1 <==> OneBetween(g, from, to)
  {
    if PathCount(g, from, to) == 1 {
      PathOneSound(g, from, to);
    }
    if OneBetween(g, from, to) {
      PathOneComplete(g, from, to);
    }
  }

  lemma PathOneSound(g: Grid, from: Position, to: Position)
    requires from.IsValid() && to.IsValid() && (from.X() == to.X() || from.Y() == to.Y())
    requires PathCount(g, from, to) == 1
    ensures OneBetween(g, from, to)
  {
    var vertical, fixed, lo, hi := PathLine(g, from, to);
    CountLineOne(g, vertical, fixed, lo, hi);
    var k :| lo <= k < hi && !GetPiece(g, LineSquare(vertical, fixed, k)).pieceType.None? &&
      forall j | lo <= j < hi && j != k :: GetPiece(g, LineSquare(vertical, fixed, j)).pieceType.None?;
    var q := LineSquare(vertical, fixed, k);
    assert q.IsValid() && StrictlyBetween(from, to, q);
    forall r: Position | r.IsValid() && StrictlyBetween(from, to, r) && !GetPiece(g, r).pieceType.None?
      ensures r == q
    {
      BetweenIsLine(from, to, vertical, fixed, lo, hi, r);
    }
  }

  lemma PathOneComplete(g: Grid, from: Position, to: Position)
    requires from.IsValid() && to.IsValid() && (from.X() == to.X() || from.Y() == to.Y())
    requires OneBetween(g, from, to)
    ensures PathCount(g, from, to) == 1
  {
    var vertical, fixed, lo, hi := PathLine(g, from, to);
    CountLineOne(g, vertical, fixed, lo, hi);
    var q: Position :| q.IsValid() && StrictlyBetween(from, to, q) && !GetPiece(g, q).pieceType.None? &&
      forall r: Position :: r.IsValid() && StrictlyBetween(from, to, r) && !GetPiece(g, r).pieceType.None? ==> r == q;
    BetweenIsLine(from, to, vertical, fixed, lo, hi, q);
    var k := Along(vertical, q);
    forall j | lo <= j < hi && j != k
      ensures GetPiece(g, LineSquare(vertical, fixed, j)).pieceType.None?
    {
      var r := LineSquare(vertical, fixed, j);
      assert r.IsValid() && StrictlyBetween(from, to, r);
      BetweenIsLine(from, to, vertical, fixed, lo, hi, r);
      assert Along(vertical, r) == j;
    }
    assert !GetPiece(g, LineSquare(vertical, fixed, k)).pieceType.None?;
  }

  /** A chariot moves along a file or a rank with nothing in between. */
  lemma ChariotRule(g: Grid, from: Position, to: Position, c: Color)
    requires Guard(g, from, to, c) && GetPiece(g, from).pieceType.Chariot?
    ensures IsMoveValid(g, from, to, c) <==>
      (from.X() == to.X() || from.Y() == to.Y()) && NoneBetween(g, from, to)
  {
    assert IsMoveValid(g, from, to, c) == ChariotMoveValid(g, from, to);
    if from.X() == to.X() || from.Y() == to.Y() {
      PathZero(g, from, to);
    }
  }

  /** A cannon moves along a file or a rank: onto an empty square with nothing
      in between, or onto an enemy piece over exactly one screen. */
  lemma CannonRule(g: Grid, from: Position, to: Position, c: Color)
    requires Guard(g, from, to, c) && GetPiece(g, from).pieceType.Cannon?
    ensures IsMoveValid(g, from, to, c) <==>
      (from.X() == to.X() || from.Y() == to.Y()) &&
      (if GetPiece(g, to).pieceType.None? then NoneBetween(g, from, to) else OneBetween(g, from, to))
  {
    assert IsMoveValid(g, from, to, c) == CannonMoveValid(g, from, to);
    if from.X() == to.X() || from.Y() == to.Y() {
      PathZero(g, from, to);
      PathOne(g, from, to);
    }
  }
}
