/** The values that cross between the application thread and the render thread. */
module ScreenModel {
  import opened Ints

  /** One grid cell: a glyph code and two opaque colour words. */
  datatype Glyph = Glyph(character: u32, background: u32, foreground: u32)

  /** A complete snapshot of the grid, row-major, `width` cells per row. */
  datatype Screen = Screen(glyphs: seq<Glyph>, width: u32)

  /** The normalised input events a backend reports. */
  datatype InputEvent =
    | Close
    | MouseDown(col: u32, row: u32)
    | MouseUp(col: u32, row: u32)
    | KeyDown(code: u32)
    | KeyUp(code: u32)
    | Size(cols: u32, rows: u32)

  /** The screen every backend starts with. */
  const EMPTY_SCREEN: Screen := Screen([], 0)

  /** A screen of whole rows: its length is a multiple of the width, and a width of 0 means no glyphs. */
  predicate WellFormed(s: Screen)
  {
    if s.width == 0 then s.glyphs == [] else |s.glyphs| % s.width == 0
  }

  /** The screen a render thread holds after receiving `received` in order, each one replacing the one before. */
  function AfterReceiving(current: Screen, received: seq<Screen>): (r: Screen)
    ensures r == current || r in received
    decreases |received|
  {
    if received == [] then current else AfterReceiving(received[0], received[1..])
  }

  /** Receiving screens one after another is last-write-wins: only the newest one is kept. */
  lemma {:induction false} LastWriteWins(current: Screen, received: seq<Screen>)
    ensures AfterReceiving(current, received) == if received == [] then current else received[|received| - 1]
    decreases |received|
  {
    if received != [] {
      LastWriteWins(received[0], received[1..]);
    }
  }

  /** Row-major placement of cell `k` in a grid `width` cells wide: `(column, row)`. */
  function CellOf(k: nat, width: nat): (nat, nat)
    requires width > 0
  {
    (k % width, k / width)
  }

  /** Placement is a bijection: cell `(c, r)` holds index `r * width + c`, and no two indices share a cell. */
  lemma CellOfRowMajor(r: nat, c: nat, width: nat)
    requires c < width
    ensures CellOf(r * width + c, width) == (c, r)
  {
    var k := r * width + c;
    assert k == width * r + c;
    assert k / width == r && k % width == c by {
      DivModUnique(k, width, r, c);
    }
  }

  lemma CellOfInjective(k1: nat, k2: nat, width: nat)
    requires width > 0 && CellOf(k1, width) == CellOf(k2, width)
    ensures k1 == k2
  {
    assert k1 == width * (k1 / width) + k1 % width;
    assert k2 == width * (k2 / width) + k2 % width;
  }

  /** Quotient and remainder are the only pair that rebuilds `k`. */
  lemma DivModUnique(k: nat, width: nat, q: nat, m: nat)
    requires m < width && k == width * q + m
    ensures k / width == q && k % width == m
  {
    var q', m' := k / width, k % width;
    assert k == width * q' + m';
    if q' < q {
      MulMonotone(width, q' + 1, q);
    } else if q < q' {
      MulMonotone(width, q + 1, q');
    }
  }

  lemma MulMonotone(w: nat, a: nat, b: nat)
    requires a <= b
    ensures w * a <= w * b
  {
    assert w * b == w * a + w * (b - a);
  }

  /** `n / d` on u32: truncating division finds the multiple of `d` at or below `n`. */
  function DivU32(n: u32, d: nat): (q: u32)
    requires d > 0
    ensures q * d <= n < (q + 1) * d
  {
    QuotientBounds(n, d);
    n / d
  }

  lemma QuotientBounds(n: nat, d: nat)
    requires d > 0
    ensures (n / d) * d <= n < (n / d + 1) * d
    ensures n / d <= n
  {
    var q := n / d;
    assert n == d * q + n % d;
    MulMonotone(q, 1, d);
    assert (q + 1) * d == q * d + d;
  }
}
