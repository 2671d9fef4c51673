/** Zobrist position hashing: a fixed table of 64-bit words indexed by
    (kind, colour, file, rank); the hash of a grid is the XOR of the entries of
    its occupied squares. The table's random contents are a parameter. */
module Zobrist {
  import opened Pieces
  import opened Positions
  import opened Grids

  /** A u64 hash value, as its 64 bits. */
  type Word = w: seq<bool> | |w| == 64 witness Zero()

  function Zero(): seq<bool>
  {
    seq(64, _ => false)
  }

  /** Bitwise exclusive or of two words. */
  function Xor(a: Word, b: Word): (r: Word)
    ensures forall k | 0 <= k < 64 :: r[k] == (a[k] != b[k])
  {
    seq(64, k requires 0 <= k < 64 => a[k] != b[k])
  }

  /** XOR with zero changes nothing. */
  lemma XorZero(a: Word)
    ensures Xor(a, Zero()) == a
  {
  }

  /** Two more terms XOR-ed on, in either order. */
  lemma XorSwap(a: Word, t: Word, b: Word, c: Word)
    ensures Xor(Xor(Xor(a, b), c), t) == Xor(Xor(Xor(a, t), b), c)
  {
  }

  /** A term XOR-ed on twice cancels out. */
  lemma XorCancel(a: Word, b: Word, c: Word)
    ensures Xor(a, c) == Xor(Xor(Xor(a, b), b), c)
  {
  }

  datatype ZobristHash = ZobristHash(table: seq<seq<seq<seq<Word>>>>) {

    /** The table has the shape [8][3][9][10]. */
    predicate Valid()
    {
      |table| == 8 &&
      forall pt | 0 <= pt < 8 :: |table[pt]| == 3 &&
        forall c | 0 <= c < 3 :: |table[pt][c]| == 9 &&
          forall x | 0 <= x < 9 :: |table[pt][c][x]| == 10
    }

    /** The table entry of a piece on square (x, y). */
    function Entry(p: Piece, x: nat, y: nat): Word
      requires Valid() && x < 9 && y < 10
    {
      table[TypeIndex(p.pieceType)][ColorIndex(p.color)][x][y]
    }
  }

  /** What cell i contributes to the hash: its entry if occupied, else nothing. */
  function Term(z: ZobristHash, g: Grid, i: nat): Word
    requires z.Valid() && i < 90
  {
    if g[i].pieceType.None? then Zero() else z.Entry(g[i], i / 10, i % 10)
  }

  /** XOR of the contributions of the first n cells. */
  function HashPrefix(z: ZobristHash, g: Grid, n: nat): Word
    requires z.Valid() && n <= 90
  {
    if n == 0 then Zero() else Xor(HashPrefix(z, g, n - 1), Term(z, g, n - 1))
  }

  /** The hash of a whole grid. */
  function Hash(z: ZobristHash, g: Grid): Word
    requires z.Valid()
  {
    HashPrefix(z, g, |g|)
  }

  /** Full recomputation: scan every square, XOR in the entry of each occupied one. */
  method Calculate(z: ZobristHash, g: Grid) returns (hash: Word)
    requires z.Valid()
    ensures hash == Hash(z, g)
  {
    hash := Zero();
    for x := 0 to 9
      invariant hash == HashPrefix(z, g, x * 10)
    {
      for y := 0 to 10
        invariant hash == HashPrefix(z, g, x * 10 + y)
      {
        var pos := New(x, y);
        var piece := GetPiece(g, pos);
        ScanStep(z, g, x, y);
        if !piece.pieceType.None? {
          var pt := TypeIndex(piece.pieceType);
          var c := ColorIndex(piece.color);
          hash := Xor(hash, z.table[pt][c][x][y]);
        } else {
          XorZero(hash);
        }
      }
    }
  }

  /** One square of the scan: the prefix grows by the square's contribution. */
  lemma ScanStep(z: ZobristHash, g: Grid, x: nat, y: nat)
    requires z.Valid() && x < 9 && y < 10
    ensures HashPrefix(z, g, x * 10 + y + 1) == Xor(HashPrefix(z, g, x * 10 + y), Term(z, g, x * 10 + y))
    ensures var p := GetPiece(g, New(x, y));
      Term(z, g, x * 10 + y) == if p.pieceType.None? then Zero() else z.Entry(p, x, y)
  {
    assert Cell(x, y) == x * 10 + y;
  }

  /** Incremental update for one move: XOR the mover out of `from` and into
      `to`, and XOR a captured piece out of `to`. The table is indexed by the
      raw coordinates, so both squares must be on the board. */
  function Update(z: ZobristHash, oldHash: Word, from: Position, to: Position,
                  moved: Piece, captured: Piece): Word
    requires z.Valid() && from.IsValid() && to.IsValid()
  {
    var h1 := Xor(oldHash, z.Entry(moved, from.X(), from.Y()));
    var h2 := if captured.pieceType.None? then h1 else Xor(h1, z.Entry(captured, to.X(), to.Y()));
    Xor(h2, z.Entry(moved, to.X(), to.Y()))
  }

  /** Applying the same update twice gives back the hash: the update undoes itself. */
  lemma UpdateSelfInverse(z: ZobristHash, h: Word, from: Position, to: Position, m: Piece, c: Piece)
    requires z.Valid() && from.IsValid() && to.IsValid()
    ensures Update(z, Update(z, h, from, to, m, c), from, to, m, c) == h
  {
    var h1 := Update(z, h, from, to, m, c);
    var h2 := Update(z, h1, from, to, m, c);
    forall k | 0 <= k < 64
      ensures h2[k] == h[k]
    {
    }
  }

  /** The grid with nothing on it hashes to 0. */
  lemma {:induction false} HashEmpty(z: ZobristHash, n: nat)
    requires z.Valid() && n <= 90
    ensures HashPrefix(z, EmptyGrid(), n) == Zero()
  {
    if n > 0 {
      HashEmpty(z, n - 1);
      XorZero(Zero());
    }
  }

  /** The hash sees only the occupied squares: grids with the same empties
      and the same pieces elsewhere hash alike. */
  lemma {:induction false} HashOnlyOccupied(z: ZobristHash, g: Grid, h: Grid, n: nat)
    requires z.Valid() && n <= 90
    requires forall i | 0 <= i < n :: g[i].pieceType.None? == h[i].pieceType.None?
    requires forall i | 0 <= i < n :: !g[i].pieceType.None? ==> g[i] == h[i]
    ensures HashPrefix(z, g, n) == HashPrefix(z, h, n)
  {
    if n > 0 {
      HashOnlyOccupied(z, g, h, n - 1);
    }
  }

  /** Writing one cell changes the hash by that cell's old and new contributions. */
  lemma {:induction false} HashPoint(z: ZobristHash, g: Grid, i: nat, p: Piece, n: nat)
    requires z.Valid() && i < n <= 90
    ensures HashPrefix(z, g[i := p], n) == Xor(Xor(HashPrefix(z, g, n), Term(z, g, i)), Term(z, g[i := p], i))
    decreases n, 1
  {
    if i < n - 1 {
      HashPointLater(z, g, i, p, n);
    } else {
      HashPointAt(z, g, i, p, n);
    }
  }

  /** A cell beyond the written one adds the same term to both hashes. */
  lemma {:induction false} HashPointLater(z: ZobristHash, g: Grid, i: nat, p: Piece, n: nat)
    requires z.Valid() && i < n - 1 && n <= 90
    ensures HashPrefix(z, g[i := p], n) == Xor(Xor(HashPrefix(z, g, n), Term(z, g, i)), Term(z, g[i := p], i))
    decreases n, 0
  {
    HashPoint(z, g, i, p, n - 1);
    var g' := g[i := p];
    assert Term(z, g', n - 1) == Term(z, g, n - 1);
    XorSwap(HashPrefix(z, g, n - 1), Term(z, g, n - 1), Term(z, g, i), Term(z, g', i));
  }

  /** The written cell is the last one of the prefix: its old term cancels. */
  lemma HashPointAt(z: ZobristHash, g: Grid, i: nat, p: Piece, n: nat)
    requires z.Valid() && i == n - 1 && n <= 90
    ensures HashPrefix(z, g[i := p], n) == Xor(Xor(HashPrefix(z, g, n), Term(z, g, i)), Term(z, g[i := p], i))
  {
    HashBeforePoint(z, g, i, p, n - 1);
    XorCancel(HashPrefix(z, g, n - 1), Term(z, g, i), Term(z, g[i := p], i));
  }

  /** Writing a cell at or beyond the prefix leaves the prefix's hash alone. */
  lemma {:induction false} HashBeforePoint(z: ZobristHash, g: Grid, i: nat, p: Piece, n: nat)
    requires z.Valid() && n <= i < 90
    ensures HashPrefix(z, g[i := p], n) == HashPrefix(z, g, n)
  {
    if n > 0 {
      HashBeforePoint(z, g, i, p, n - 1);
      assert Term(z, g[i := p], n - 1) == Term(z, g, n - 1);
    }
  }

  /** The incremental update agrees with full recomputation: moving a
      non-empty piece from `from` to a different square `to` (capturing
      whatever was there) changes the hash exactly as Update says. */
  lemma UpdateRefinesHash(z: ZobristHash, g: Grid, from: Position, to: Position)
    requires z.Valid() && from.IsValid() && to.IsValid() && from != to
    requires !GetPiece(g, from).pieceType.None?
    ensures Hash(z, Place(Place(g, from, Default()), to, GetPiece(g, from)))
         == Update(z, Hash(z, g), from, to, GetPiece(g, from), GetPiece(g, to))
  {
    var fi, ti := Cell(from.X(), from.Y()), Cell(to.X(), to.Y());
    var m, c := g[fi], g[ti];
    CellInjective(from, to);
    var g1 := g[fi := Default()];
    var g2 := g1[ti := m];
    assert Place(Place(g, from, Default()), to, m) == g2;
    HashPoint(z, g, fi, Default(), 90);
    HashPoint(z, g1, ti, m, 90);
    var a, d := z.Entry(m, from.X(), from.Y()), z.Entry(m, to.X(), to.Y());
    assert Term(z, g, fi) == a && Term(z, g1, fi) == Zero();
    assert Term(z, g1, ti) == Term(z, g, ti);
    assert Term(z, g2, ti) == d;
    XorZero(Xor(Hash(z, g), a));
    if c.pieceType.None? {
      assert Term(z, g, ti) == Zero();
      XorZero(Xor(Xor(Hash(z, g), a), Zero()));
    }
  }
}
