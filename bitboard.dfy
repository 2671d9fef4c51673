/** The bitboard: an auxiliary occupancy index over the grid, one 64-bit mask
    per piece kind, per colour and per palace. Square (x, y) is bit x + 9*y,
    so the squares whose index is 64 or more (most of ranks 7 to 9) have no
    bit at all: setting them is ignored and querying them answers false. */
module Bitboards {
  import opened Pieces
  import opened Positions
  import opened Grids

  /** A u64 mask, bit i standing for square index i. */
  type Mask = m: seq<bool> | |m| == 64 witness EmptyMask()

  function EmptyMask(): seq<bool>
  {
    seq(64, _ => false)
  }

  /** The square index of a position: file + 9 * rank (no overflow in a byte
      for nibble coordinates). */
  function PosToIndex(pos: Position): (i: nat)
    ensures pos.IsValid() ==> i < 90
  {
    pos.X() + pos.Y() * 9
  }

  /** Back from a square index to a position; the rank is cast to a byte. */
  function IndexToPos(index: nat): (p: Position)
    ensures index < 90 ==> p.IsValid() && p.X() == index % 9 && p.Y() == index / 9
  {
    New(index % 9, (index / 9) % 256)
  }

  lemma IndexToPosRoundTrip(p: Position)
    requires p.IsValid()
    ensures IndexToPos(PosToIndex(p)) == p
  {
    var i := PosToIndex(p);
    assert i % 9 == p.X() && i / 9 == p.Y();
  }

  /** Mask slot that the bitboard uses for a piece kind. */
  function KindSlot(t: PieceType): (k: nat)
    ensures k < 8
  {
    match t
    case King => 0
    case Advisor => 1
    case Elephant => 2
    case Horse => 3
    case Chariot => 4
    case Cannon => 5
    case Pawn => 6
    case None => 7
  }

  /** Mask slot that the bitboard uses for a colour. */
  function ColorSlot(c: Color): (k: nat)
    ensures k < 3
  {
    match c
    case Red => 1
    case Black => 2
    case None => 0
  }

  /** The bitboard's own slots agree with the piece module's index mappings. */
  lemma SlotsAgree(t: PieceType, c: Color)
    ensures KindSlot(t) == TypeIndex(t)
    ensures ColorSlot(c) == ColorIndex(c)
  {
  }

  /** Square index i of the board lies in the palace of slot k (0 Red, 1 Black). */
  predicate PalaceSquare(i: nat, k: nat)
  {
    3 <= i % 9 <= 5 && (if k == 0 then i / 9 <= 2 else 7 <= i / 9 <= 9)
  }

  /** No Black palace square has a bit: every one of them has index 66 or more. */
  lemma BlackPalaceHasNoBit(i: nat)
    requires i < 64
    ensures !PalaceSquare(i, 1)
  {
  }

  /** Clearing a bit and then writing it is writing it. */
  lemma UpdateTwice(m: Mask, i: nat, b: bool)
    requires i < 64
    ensures m[i := false][i := b] == m[i := b]
  {
  }

  class Bitboard {
    /** [King Advisor Elephant Horse Chariot Cannon Pawn None] */
    const pieces: array<Mask>
    /** [None Red Black] */
    const colors: array<Mask>
    /** [Red Black] */
    const palace: array<Mask>

    ghost predicate Valid()
    {
      pieces.Length == 8 && colors.Length == 3 && palace.Length == 2 &&
      pieces != colors && pieces != palace && colors != palace
    }

    /** All masks zero. */
    constructor ()
      ensures Valid() && fresh(pieces) && fresh(colors) && fresh(palace)
      ensures forall k | 0 <= k < 8 :: pieces[k] == EmptyMask()
      ensures forall k | 0 <= k < 3 :: colors[k] == EmptyMask()
      ensures forall k | 0 <= k < 2 :: palace[k] == EmptyMask()
    {
      pieces := new Mask[8](_ => EmptyMask());
      colors := new Mask[3](_ => EmptyMask());
      palace := new Mask[2](_ => EmptyMask());
    }

    /** A copy with masks of its own. */
    constructor Clone(other: Bitboard)
      requires other.Valid()
      ensures Valid() && fresh(pieces) && fresh(colors) && fresh(palace)
      ensures pieces[..] == other.pieces[..] && colors[..] == other.colors[..] && palace[..] == other.palace[..]
    {
      pieces := new Mask[8](k requires 0 <= k < 8 reads other.pieces => other.pieces[k]);
      colors := new Mask[3](k requires 0 <= k < 3 reads other.colors => other.colors[k]);
      palace := new Mask[2](k requires 0 <= k < 2 reads other.palace => other.palace[k]);
    }

    /** Back to the state of a fresh bitboard, in place. */
    method Reset()
      requires Valid()
      modifies pieces, colors, palace
      ensures forall k | 0 <= k < 8 :: pieces[k] == EmptyMask()
      ensures forall k | 0 <= k < 3 :: colors[k] == EmptyMask()
      ensures forall k | 0 <= k < 2 :: palace[k] == EmptyMask()
    {
      for k := 0 to 8
        invariant forall j | 0 <= j < k :: pieces[j] == EmptyMask()
      {
        pieces[k] := EmptyMask();
      }
      for k := 0 to 3
        invariant forall j | 0 <= j < 8 :: pieces[j] == EmptyMask()
        invariant forall j | 0 <= j < k :: colors[j] == EmptyMask()
      {
        colors[k] := EmptyMask();
      }
      palace[0] := EmptyMask();
      palace[1] := EmptyMask();
    }

    /** OR the palace squares that have a bit into the two palace masks:
        files 3 to 5, ranks 0 to 2 for Red and ranks 7 to 9 for Black. */
    method InitSpecialPositions()
      requires Valid()
      modifies palace
      ensures forall k, i | 0 <= k < 2 && 0 <= i < 64 ::
        palace[k][i] == (old(palace[k][i]) || PalaceSquare(i, k))
    {
      OrRectangle(0, 3, 5, 0, 2);
      OrRectangle(1, 3, 5, 7, 9);
      forall i | 0 <= i < 64 ensures PalaceSquare(i, 1) == (3 <= i % 9 <= 5 && 7 <= i / 9 <= 9) {
      }
    }

    /** The two nested loops of palace initialisation: for every square of the
        rectangle whose index is below 64, set its bit in palace mask k. */
    method OrRectangle(k: nat, x0: nat, x1: nat, y0: nat, y1: nat)
      requires Valid() && k < 2 && x0 <= x1 < 9 && y0 <= y1
      modifies palace
      ensures palace[1 - k] == old(palace[1 - k])
      ensures forall i | 0 <= i < 64 ::
        palace[k][i] == (old(palace[k][i]) || (x0 <= i % 9 <= x1 && y0 <= i / 9 <= y1))
    {
      ghost var before := palace[k];
      for x := x0 to x1 + 1
        invariant palace[1 - k] == old(palace[1 - k])
        invariant forall i | 0 <= i < 64 ::
          palace[k][i] == (before[i] || (x0 <= i % 9 < x && y0 <= i / 9 <= y1))
      {
        for y := y0 to y1 + 1
          invariant palace[1 - k] == old(palace[1 - k])
          invariant forall i | 0 <= i < 64 ::
            palace[k][i] == (before[i] || (x0 <= i % 9 < x && y0 <= i / 9 <= y1) || (i % 9 == x && y0 <= i / 9 < y))
        {
          var index := x + y * 9;
          if index < 64 {
            palace[k] := palace[k][index := true];
          }
        }
      }
    }

    /** Record `piece` on its square: clear the square's bit in every kind and
        colour mask, then, for a non-empty piece, set it in the piece's kind
        mask and colour mask. A square without a bit changes nothing. */
    method SetPiece(pos: Position, piece: Piece)
      requires Valid()
      modifies pieces, colors
      ensures pieces[..] == SetKind(old(pieces[..]), pos, piece)
      ensures colors[..] == SetColor(old(colors[..]), pos, piece)
    {
      var index := PosToIndex(pos);
      if index < 64 {
        for i := 0 to 8
          invariant forall k | 0 <= k < 8 :: pieces[k] == if k < i then old(pieces[k])[index := false] else old(pieces[k])
          invariant forall k | 0 <= k < 3 :: colors[k] == old(colors[k])
        {
          pieces[i] := pieces[i][index := false];
        }
        for i := 0 to 3
          invariant forall k | 0 <= k < 8 :: pieces[k] == old(pieces[k])[index := false]
          invariant forall k | 0 <= k < 3 :: colors[k] == if k < i then old(colors[k])[index := false] else old(colors[k])
        {
          colors[i] := colors[i][index := false];
        }
        if !piece.pieceType.None? {
          var pieceIndex := KindSlot(piece.pieceType);
          pieces[pieceIndex] := pieces[pieceIndex][index := true];
          var colorIndex := ColorSlot(piece.color);
          colors[colorIndex] := colors[colorIndex][index := true];
        }
      }
      forall k | 0 <= k < 8
        ensures pieces[k] == SetKind(old(pieces[..]), pos, piece)[k]
      {
        if index < 64 {
          UpdateTwice(old(pieces[k]), index, !piece.pieceType.None? && k == KindSlot(piece.pieceType));
        }
      }
      forall k | 0 <= k < 3
        ensures colors[k] == SetColor(old(colors[..]), pos, piece)[k]
      {
        if index < 64 {
          UpdateTwice(old(colors[k]), index, !piece.pieceType.None? && k == ColorSlot(piece.color));
        }
      }
    }

    /** The square holds a piece of kind t, as far as the masks know. */
    predicate HasPiece(pos: Position, t: PieceType)
      requires Valid()
      reads pieces
    {
      HasPieceIn(pieces[..], pos, t)
    }

    /** The square holds a piece of colour c, as far as the masks know. */
    predicate HasColor(pos: Position, c: Color)
      requires Valid()
      reads colors
    {
      HasColorIn(colors[..], pos, c)
    }

    /** The square lies in the palace of colour c, as far as the masks know. */
    predicate IsInPalace(pos: Position, c: Color)
      requires Valid()
      reads palace
    {
      InPalaceIn(palace[..], pos, c)
    }
  }

  /** The kind query on a set of kind masks: square bits beyond 63 read as false. */
  predicate HasPieceIn(pieces: seq<Mask>, pos: Position, t: PieceType)
    requires |pieces| == 8
  {
    var index := PosToIndex(pos);
    if index < 64 then pieces[KindSlot(t)][index] else false
  }

  /** The colour query on a set of colour masks. */
  predicate HasColorIn(colors: seq<Mask>, pos: Position, c: Color)
    requires |colors| == 3
  {
    var index := PosToIndex(pos);
    if index < 64 then colors[ColorSlot(c)][index] else false
  }

  /** The palace query on the two palace masks; an empty colour has no palace. */
  predicate InPalaceIn(palace: seq<Mask>, pos: Position, c: Color)
    requires |palace| == 2
  {
    var index := PosToIndex(pos);
    if index < 64 then
      match c
      case Red => palace[0][index]
      case Black => palace[1][index]
      case None => false
    else false
  }

  /** The grid cell of the square whose bit is i. */
  function SquareCell(i: nat): (c: nat)
    requires i < 64
    ensures c < 90
  {
    (i % 9) * 10 + i / 9
  }

  /** A square's bit and its grid cell agree for every square that has a bit. */
  lemma SquareCellOfPos(pos: Position)
    requires pos.IsValid() && PosToIndex(pos) < 64
    ensures SquareCell(PosToIndex(pos)) == Cell(pos.X(), pos.Y())
  {
    var i := PosToIndex(pos);
    assert i % 9 == pos.X() && i / 9 == pos.Y();
  }

  /** Bit i of kind mask k for grid g: the square holds a piece whose kind has slot k. */
  predicate KindBit(g: Grid, k: nat, i: nat)
    requires i < 64
  {
    var p := g[SquareCell(i)];
    !p.pieceType.None? && KindSlot(p.pieceType) == k
  }

  /** Bit i of colour mask k for grid g: the square holds a piece whose colour has slot k. */
  predicate ColorBit(g: Grid, k: nat, i: nat)
    requires i < 64
  {
    var p := g[SquareCell(i)];
    !p.pieceType.None? && ColorSlot(p.color) == k
  }

  /** The kind masks that describe grid g. */
  function KindMasks(g: Grid): (m: seq<Mask>)
    ensures |m| == 8
    ensures forall k, i | 0 <= k < 8 && 0 <= i < 64 :: m[k][i] == KindBit(g, k, i)
  {
    seq(8, k requires 0 <= k < 8 => seq(64, i requires 0 <= i < 64 => KindBit(g, k, i)))
  }

  /** The colour masks that describe grid g. */
  function ColorMasks(g: Grid): (m: seq<Mask>)
    ensures |m| == 3
    ensures forall k, i | 0 <= k < 3 && 0 <= i < 64 :: m[k][i] == ColorBit(g, k, i)
  {
    seq(3, k requires 0 <= k < 3 => seq(64, i requires 0 <= i < 64 => ColorBit(g, k, i)))
  }

  /** The palace masks once initialised: exactly the palace squares that have a bit. */
  function PalaceMasks(): (m: seq<Mask>)
    ensures |m| == 2
    ensures forall k, i | 0 <= k < 2 && 0 <= i < 64 :: m[k][i] == PalaceSquare(i, k)
  {
    seq(2, k requires 0 <= k < 2 => seq(64, i requires 0 <= i < 64 => PalaceSquare(i, k)))
  }

  /** On masks that describe the grid, the kind query at a square with a bit
      holds exactly when the square holds a piece of that kind; in particular
      it never holds for the empty kind. */
  lemma MirrorHasPiece(g: Grid, pos: Position, t: PieceType)
    requires pos.IsValid() && PosToIndex(pos) < 64
    ensures HasPieceIn(KindMasks(g), pos, t) <==>
      !GetPiece(g, pos).pieceType.None? && GetPiece(g, pos).pieceType == t
  {
    SquareCellOfPos(pos);
    SlotsAgree(t, Color.None);
    SlotsAgree(GetPiece(g, pos).pieceType, Color.None);
    TypeIndexInjective(t, GetPiece(g, pos).pieceType);
  }

  /** On masks that describe the grid, the colour query at a square with a bit
      holds exactly when the square holds a piece of that colour. */
  lemma MirrorHasColor(g: Grid, pos: Position, c: Color)
    requires pos.IsValid() && PosToIndex(pos) < 64
    ensures HasColorIn(ColorMasks(g), pos, c) <==>
      !GetPiece(g, pos).pieceType.None? && GetPiece(g, pos).color == c
  {
    SquareCellOfPos(pos);
    SlotsAgree(PieceType.None, c);
    SlotsAgree(PieceType.None, GetPiece(g, pos).color);
    ColorIndexInjective(c, GetPiece(g, pos).color);
  }

  /** Every query answers false at a square without a bit, whatever the masks hold. */
  lemma QueriesBeyondBits(pieces: seq<Mask>, colors: seq<Mask>, palace: seq<Mask>,
                          pos: Position, t: PieceType, c: Color)
    requires |pieces| == 8 && |colors| == 3 && |palace| == 2
    requires PosToIndex(pos) >= 64
    ensures !HasPieceIn(pieces, pos, t) && !HasColorIn(colors, pos, c) && !InPalaceIn(palace, pos, c)
  {
  }

  /** After initialisation the Red palace is exactly files 3 to 5 of ranks 0 to 2,
      and no square at all is in the Black palace or in the palace of no colour. */
  lemma PalaceExact(pos: Position)
    ensures pos.IsValid() ==>
      (InPalaceIn(PalaceMasks(), pos, Red) <==> 3 <= pos.X() <= 5 && pos.Y() <= 2)
    ensures !InPalaceIn(PalaceMasks(), pos, Black)
    ensures !InPalaceIn(PalaceMasks(), pos, Color.None)
  {
    var i := PosToIndex(pos);
    if i < 64 {
      BlackPalaceHasNoBit(i);
    }
    if pos.IsValid() {
      assert i % 9 == pos.X() && i / 9 == pos.Y();
    }
  }

  /** What set_piece does to the kind masks: the square's bit is cleared in
      every mask and, for a non-empty piece, set in its kind's mask; a square
      without a bit changes nothing. */
  function SetKind(m: seq<Mask>, pos: Position, p: Piece): (r: seq<Mask>)
    requires |m| == 8
    ensures |r| == 8
  {
    var index := PosToIndex(pos);
    if index < 64 then seq(8, k requires 0 <= k < 8 => m[k][index := !p.pieceType.None? && k == KindSlot(p.pieceType)])
    else m
  }

  /** The colour-mask counterpart of SetKind. */
  function SetColor(m: seq<Mask>, pos: Position, p: Piece): (r: seq<Mask>)
    requires |m| == 3
    ensures |r| == 3
  {
    var index := PosToIndex(pos);
    if index < 64 then seq(3, k requires 0 <= k < 3 => m[k][index := !p.pieceType.None? && k == ColorSlot(p.color)])
    else m
  }

  /** Writing one square of the grid changes the kind masks exactly as the
      bitboard's set_piece does. */
  lemma KindMasksPlace(g: Grid, pos: Position, p: Piece)
    requires pos.IsValid()
    ensures KindMasks(Place(g, pos, p)) == SetKind(KindMasks(g), pos, p)
  {
    var index := PosToIndex(pos);
    var g' := Place(g, pos, p);
    forall k | 0 <= k < 8
      ensures KindMasks(g')[k] == SetKind(KindMasks(g), pos, p)[k]
    {
      forall i | 0 <= i < 64
        ensures KindBit(g', k, i) == if i == index then !p.pieceType.None? && k == KindSlot(p.pieceType) else KindBit(g, k, i)
      {
        CellOfBit(pos, i);
      }
    }
  }

  /** The colour-mask counterpart of KindMasksPlace. */
  lemma ColorMasksPlace(g: Grid, pos: Position, p: Piece)
    requires pos.IsValid()
    ensures ColorMasks(Place(g, pos, p)) == SetColor(ColorMasks(g), pos, p)
  {
    var index := PosToIndex(pos);
    var g' := Place(g, pos, p);
    forall k | 0 <= k < 3
      ensures ColorMasks(g')[k] == SetColor(ColorMasks(g), pos, p)[k]
    {
      forall i | 0 <= i < 64
        ensures ColorBit(g', k, i) == if i == index then !p.pieceType.None? && k == ColorSlot(p.color) else ColorBit(g, k, i)
      {
        CellOfBit(pos, i);
      }
    }
  }

  /** Bit i belongs to the cell of pos exactly when i is pos's index. */
  lemma CellOfBit(pos: Position, i: nat)
    requires pos.IsValid() && i < 64
    ensures SquareCell(i) == Cell(pos.X(), pos.Y()) <==> i == PosToIndex(pos)
  {
    var x, y := pos.X(), pos.Y();
    if SquareCell(i) == Cell(x, y) {
      assert (i % 9) * 10 + i / 9 == x * 10 + y;
      assert i / 9 < 10;
      assert i % 9 == x && i / 9 == y;
    }
  }
}
