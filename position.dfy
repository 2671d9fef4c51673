/** A board coordinate packed into one unsigned byte: the file in the high
    nibble, the rank in the low nibble. */
module Positions {
  import opened UInts

  /** Bitwise OR of two naturals, bit by bit from the least significant end. */
  function BitOr(a: nat, b: nat): nat
    decreases a + b
  {
    if a == 0 then b
    else if b == 0 then a
    else 2 * BitOr(a / 2, b / 2) + (if a % 2 == 1 || b % 2 == 1 then 1 else 0)
  }

  function Pow2(n: nat): (r: nat)
    ensures r >= 1
  {
    if n == 0 then 1 else 2 * Pow2(n - 1)
  }

  /** OR-ing a value whose low n bits are zero with one below 2^n is addition. */
  lemma {:induction false} BitOrDisjoint(k: nat, y: nat, n: nat)
    requires y < Pow2(n)
    ensures BitOr(k * Pow2(n), y) == k * Pow2(n) + y
  {
    if n == 0 {
      assert y == 0;
    } else if k == 0 || y == 0 {
    } else {
      var a := k * Pow2(n);
      assert a / 2 == k * Pow2(n - 1) && a % 2 == 0;
      BitOrDisjoint(k, y / 2, n - 1);
    }
  }

  /** Bitwise OR never exceeds the bit width of its wider operand. */
  lemma {:induction false} BitOrBound(a: nat, b: nat, n: nat)
    requires a < Pow2(n) && b < Pow2(n)
    ensures BitOr(a, b) < Pow2(n)
    decreases a + b
  {
    if a != 0 && b != 0 {
      BitOrBound(a / 2, b / 2, n - 1);
    }
  }

  /** Bitwise OR commutes with dropping the lowest bit. */
  lemma {:induction false} BitOrHalf(a: nat, b: nat)
    ensures BitOr(a, b) / 2 == BitOr(a / 2, b / 2)
    ensures BitOr(a, b) % 2 == (if a % 2 == 1 || b % 2 == 1 then 1 else 0)
  {
    if a == 0 {
      assert BitOr(a / 2, b / 2) == b / 2;
    } else if b == 0 {
      assert BitOr(a / 2, b / 2) == a / 2;
    }
  }

  /** One bit of OR peeled off the bottom. */
  lemma BitOrStep(a: nat, b: nat)
    ensures BitOr(a, b) == 2 * BitOr(a / 2, b / 2) + (if a % 2 == 1 || b % 2 == 1 then 1 else 0)
  {
    BitOrHalf(a, b);
    var c := BitOr(a, b);
    assert c == 2 * (c / 2) + c % 2;
  }

  datatype Position = Position(data: u8) {

    /** The file: the high nibble. */
    function X(): (x: nat)
      ensures x < 16
    {
      data / 16
    }

    /** The rank: the low nibble. */
    function Y(): (y: nat)
      ensures y < 16
    {
      data % 16
    }

    /** On the 9 x 10 board. */
    predicate IsValid()
    {
      X() < 9 && Y() < 10
    }
  }

  /** Pack two byte-sized coordinates: `(x << 4) | y` in a byte, so the high
      bits of x are lost and any bits of y above the low nibble land in the
      file nibble. For coordinates below 16 the packing is exact, and the
      OR is then the sum, which is how it is computed here (NewIsOr). */
  function New(x: u8, y: u8): (p: Position)
    ensures x < 16 && y < 16 ==> p.data == 16 * x + y && p.X() == x && p.Y() == y
  {
    PackFacts(x, y);
    if y < 16 then Position(16 * (x % 16) + y) else Position(BitOr((x * 16) % 256, y))
  }

  /** Whatever the coordinates, the packed byte is `((x * 16) mod 256) | y`. */
  lemma NewIsOr(x: u8, y: u8)
    ensures New(x, y).data == BitOr((x * 16) % 256, y)
  {
    PackFacts(x, y);
  }

  lemma PackFacts(x: nat, y: nat)
    requires x < 256 && y < 256
    ensures BitOr((x * 16) % 256, y) < 256
    ensures y < 16 ==> BitOr((x * 16) % 256, y) == 16 * (x % 16) + y
  {
    var hi := (x * 16) % 256;
    assert Pow2(4) == 16 && Pow2(8) == 256;
    assert hi == (x % 16) * Pow2(4);
    BitOrBound(hi, y, 8);
    if y < 16 {
      BitOrDisjoint(x % 16, y, 4);
    }
  }

  /** New is injective on coordinates below 16: positions are equal exactly
      when their coordinates are. */
  lemma NewInjective(x1: nat, y1: nat, x2: nat, y2: nat)
    requires x1 < 16 && y1 < 16 && x2 < 16 && y2 < 16
    ensures New(x1, y1) == New(x2, y2) <==> x1 == x2 && y1 == y2
  {
  }

  /** Validity is exactly file below 9 and rank below 10, for packed coordinates. */
  lemma NewValid(x: nat, y: nat)
    requires x < 16 && y < 16
    ensures New(x, y).IsValid() <==> x < 9 && y < 10
  {
  }

  /** Every byte-sized position unpacks and repacks to itself. */
  lemma {:induction false} NewOfParts(p: Position)
    ensures New(p.X(), p.Y()) == p
  {
  }

  /** The high bits of a file at or above 16 are shifted out of the byte. */
  lemma {:induction false} NewDropsHighFileBits(x: u8, y: u8)
    ensures New(x, y) == New(x % 16, y)
  {
    assert (x * 16) % 256 == ((x % 16) * 16) % 256;
  }

  /** The bits of a rank at or above 16 fall into the file nibble. */
  lemma {:induction false} NewRankOverflow(x: u8, y: u8)
    requires x < 16
    ensures New(x, y).X() == BitOr(x, y / 16)
    ensures New(x, y).Y() == y % 16
  {
    var x16, x8, x4, x2 := x * 16, x * 8, x * 4, x * 2;
    var y2, y4, y8, y16 := y / 2, y / 4, y / 8, y / 16;
    assert x16 % 256 == x16;
    assert x16 / 2 == x8 && x8 / 2 == x4 && x4 / 2 == x2 && x2 / 2 == x;
    assert x16 % 2 == 0 && x8 % 2 == 0 && x4 % 2 == 0 && x2 % 2 == 0;
    assert y2 / 2 == y4 && y4 / 2 == y8 && y8 / 2 == y16;
    BitOrStep(x16, y);
    BitOrStep(x8, y2);
    BitOrStep(x4, y4);
    BitOrStep(x2, y8);
    var r := 8 * (y8 % 2) + 4 * (y4 % 2) + 2 * (y2 % 2) + y % 2;
    assert r == y % 16;
    var c := BitOr(x16, y);
    assert c == 16 * BitOr(x, y16) + r;
  }

  /** Example of the wrap-around: file 16 packs like file 0. */
  lemma FileSixteenWraps()
    ensures New(16, 0) == New(0, 0)
  {
    NewDropsHighFileBits(16, 0);
  }
}
