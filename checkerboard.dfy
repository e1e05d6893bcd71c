/** The pixels of a sprite's buffer: a two-colour checkerboard of 16 x 16
    tiles, written once, word by word, when the sprite is created. */
module Checkerboard {

  /** Bit 4 of a non-negative coordinate (`x & 0x10` is nonzero): set on
      the odd-numbered runs of 16. */
  predicate Bit4(x: nat) { (x / 16) % 2 == 1 }

  /** On a 32-bit coordinate the arithmetic test is the source's mask test. */
  lemma Bit4IsMask(x: nat)
    requires x < 0x1_0000_0000
    ensures Bit4(x) <==> (x as bv32) & 0x10 != 0
  {
  }

  /** The word stored for pixel (row, col): the colour times the exclusive
      or of "bit 4 of row is clear" and "bit 4 of col is clear". That factor
      is 0 or 1, so the product is written here as a choice between the
      colour and 0. On 32-bit coordinates this is the source's mask test. */
  function PixelValue(row: nat, col: nat, color: bv32): (v: bv32)
    ensures row < 0x1_0000_0000 && col < 0x1_0000_0000 ==>
      v == (if ((row as bv32) & 0x10 == 0) != ((col as bv32) & 0x10 == 0) then color else 0)
  {
    if (!Bit4(row)) != (!Bit4(col)) then color else 0
  }

  /** The pattern is a checkerboard of 16 x 16 tiles: pixels of one tile
      agree, the tile at the origin is blank, and stepping one tile along
      either axis swaps the colour and the blank. */
  lemma CheckerboardTiles(row: nat, col: nat, color: bv32)
    ensures forall r: nat, c: nat :: r / 16 == row / 16 && c / 16 == col / 16 ==>
      PixelValue(r, c, color) == PixelValue(row, col, color)
    ensures row < 16 && col < 16 ==> PixelValue(row, col, color) == 0
    ensures PixelValue(row + 16, col, color) == PixelValue(row, col + 16, color)
      == (if PixelValue(row, col, color) == 0 then color else 0)
  {
    assert (row + 16) / 16 == row / 16 + 1;
    assert (col + 16) / 16 == col / 16 + 1;
  }

  /** The words of one pass of the inner loop: the pixels of one row. */
  function RowWords(row: nat, height: nat, color: bv32): (r: seq<bv32>)
    ensures |r| == height
    ensures forall col :: 0 <= col < height ==> r[col] == PixelValue(row, col, color)
  {
    seq(height, col requires 0 <= col < height => PixelValue(row, col, color))
  }

  /** The words the nested loops write for the first `rows` rows, in the
      order the write pointer visits them. */
  function Pattern(rows: nat, height: nat, color: bv32): (r: seq<bv32>)
    ensures |r| == rows * height
  {
    if rows == 0 then [] else Pattern(rows - 1, height, color) + RowWords(rows - 1, height, color)
  }

  lemma {:induction false} MulMonotone(a: nat, b: nat, n: nat)
    requires a <= b
    ensures a * n <= b * n
    decreases b - a
  {
    if a < b {
      MulMonotone(a, b - 1, n);
      assert b * n == (b - 1) * n + n;
    }
  }

  /** Word `row * height + col` of the pattern is the pixel (row, col). */
  lemma {:induction false} PatternAt(rows: nat, height: nat, color: bv32, row: nat, col: nat)
    requires row < rows && col < height
    ensures row * height + col < rows * height
    ensures Pattern(rows, height, color)[row * height + col] == PixelValue(row, col, color)
    decreases rows
  {
    MulMonotone(row + 1, rows, height);
    assert (row + 1) * height == row * height + height;
    if row < rows - 1 {
      PatternAt(rows - 1, height, color, row, col);
    } else {
      assert Pattern(rows, height, color)[row * height + col] == RowWords(row, height, color)[col];
    }
  }

  /** `checkerboard_fill`: `bits` is the locked buffer, or null when locking
      failed (then nothing is written). The first width * height words
      become the pattern, row after row with `height` words per row; the
      rest of the buffer is left alone. */
  method CheckerboardFill(bits: array?<bv32>, width: int, height: int, color: bv32)
    requires bits != null && width > 0 && height > 0 ==> width * height <= bits.Length
    modifies bits
    ensures bits != null && width > 0 && height > 0 ==>
      bits[..width * height] == Pattern(width, height, color) &&
      bits[width * height..] == old(bits[width * height..])
    ensures bits != null && (width <= 0 || height <= 0) ==> bits[..] == old(bits[..])
  {
    if bits == null || width <= 0 || height <= 0 {
      return;
    }
    var p := 0;  // the running write pointer
    var row := 0;
    while row < width
      invariant 0 <= row <= width
      invariant p <= bits.Length
      invariant bits[..p] == Pattern(row, height, color)
      invariant bits[p..] == old(bits[..])[p..]
    {
      MulMonotone(row + 1, width, height);
      var col := 0;
      while col < height
        invariant 0 <= col <= height
        invariant p + height - col <= bits.Length
        invariant bits[..p] == Pattern(row, height, color) + RowWords(row, height, color)[..col]
        invariant bits[p..] == old(bits[..])[p..]
      {
        bits[p] := PixelValue(row, col, color);
        assert RowWords(row, height, color)[..col + 1]
          == RowWords(row, height, color)[..col] + [PixelValue(row, col, color)];
        assert bits[..p + 1] == bits[..p] + [bits[p]];
        p := p + 1;
        col := col + 1;
      }
      assert RowWords(row, height, color)[..col] == RowWords(row, height, color);
      row := row + 1;
    }
  }
}
