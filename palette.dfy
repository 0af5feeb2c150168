/**
 * The colour row of the colour-mixing game: the board configuration, the
 * colour of each tile, and the rounding arithmetic used to mix colours.
 *
 * Colours are integer RGB triples here. Where the game computes with
 * floating point (`lerp`, division by two) and then rounds, the model computes
 * the exact rational value and rounds it the way `Math.round` does:
 * `Math.round(x) == floor(x + 1/2)`.
 */
module Palette {

  /** An RGB colour with integer channels. */
  datatype Rgb = Rgb(r: int, g: int, b: int)

  /** `color(255)`, the grey-scale shorthand for white. */
  const White := Rgb(255, 255, 255)

  /** Every channel is a valid 8-bit colour value. */
  predicate InRange(c: Rgb) {
    0 <= c.r <= 255 && 0 <= c.g <= 255 && 0 <= c.b <= 255
  }

  /**
   * The row of tiles: `leftCount` red tiles, one central mix tile at index
   * `leftCount`, then `rightCount` blue tiles.
   */
  datatype Board = Board(leftCount: int, rightCount: int) {
    predicate Valid() { leftCount >= 1 && rightCount >= 1 }
    function MixIndex(): int { leftCount }
    function Tiles(): int { leftCount + 1 + rightCount }
    predicate IsRedTile(i: int) { 0 <= i < leftCount }
    predicate IsBlueTile(i: int) { MixIndex() < i < Tiles() }
  }

  /** The board the game is played on: seven red and seven blue tiles. */
  const DefaultBoard := Board(7, 7)

  /** `Math.max`. */
  function Max(a: int, b: int): int { if a >= b then a else b }

  /** `Math.min`. */
  function Min(a: int, b: int): int { if a <= b then a else b }

  /** p5's `constrain(n, low, high)`, which is `Math.max(Math.min(n, high), low)`. */
  function Constrain(n: int, low: int, high: int): (r: int)
    ensures low <= high ==> low <= r <= high
    ensures low <= n <= high ==> r == n
    ensures n < low ==> r == low
    ensures low <= high < n ==> r == high
  {
    Max(Min(n, high), low)
  }

  /**
   * `Math.round(p / q)` for a positive denominator: the integer nearest to
   * p/q, halves rounded up.
   */
  function RoundDiv(p: int, q: int): int
    requires q > 0
  {
    (2 * p + q) / (2 * q)
  }

  /** `RoundDiv(p, q)` is the integer r with r - 1/2 <= p/q < r + 1/2. */
  lemma RoundDivNearest(p: int, q: int)
    requires q > 0
    ensures var r := RoundDiv(p, q); q * (2 * r - 1) <= 2 * p < q * (2 * r + 1)
  {
    var r := (2 * p + q) / (2 * q);
    var m := (2 * p + q) % (2 * q);
    assert 2 * p + q == (2 * q) * r + m && 0 <= m < 2 * q;
    assert q * (2 * r - 1) == 2 * q * r - q;
    assert q * (2 * r + 1) == 2 * q * r + q;
  }

  /** Multiplying by a positive factor keeps order. */
  lemma MulLe(q: int, a: int, b: int)
    requires q > 0 && a <= b
    ensures q * a <= q * b
  {
    assert q * b - q * a == q * (b - a);
  }

  /** Multiplying by a factor keeps order when it is non-negative and reverses it when it is non-positive. */
  lemma MulMonotonic(w: int, a: int, b: int)
    requires a <= b
    ensures w >= 0 ==> w * a <= w * b
    ensures w <= 0 ==> w * a >= w * b
  {
    assert w * b - w * a == w * (b - a);
  }

  /** A value pinned between two products, rounded, stays between their factors. */
  lemma RoundBetween(p: int, q: int, lo: int, hi: int)
    requires q > 0 && q * lo <= p <= q * hi
    ensures lo <= RoundDiv(p, q) <= hi
  {
    var r := RoundDiv(p, q);
    RoundDivNearest(p, q);
    if r > hi {
      MulLe(q, 2 * hi + 1, 2 * r - 1);
      assert false;
    }
    if r < lo {
      MulLe(q, 2 * r + 1, 2 * lo - 1);
      assert false;
    }
  }

  /** A whole quotient rounds to itself. */
  lemma RoundExact(k: int, q: int)
    requires q > 0
    ensures RoundDiv(q * k, q) == k
  {
    RoundBetween(q * k, q, k, k);
  }

  /** Rounding is monotonic in the numerator. */
  lemma RoundMonotonic(p1: int, p2: int, q: int)
    requires q > 0 && p1 <= p2
    ensures RoundDiv(p1, q) <= RoundDiv(p2, q)
  {
    var r1, r2 := RoundDiv(p1, q), RoundDiv(p2, q);
    RoundDivNearest(p1, q);
    RoundDivNearest(p2, q);
    if r1 > r2 {
      MulLe(q, 2 * r2 + 1, 2 * r1 - 1);
      assert false;
    }
  }

  /** An interpolation parameter `t`, kept as the exact fraction num/den. */
  datatype Fraction = Fraction(num: int, den: int)

  /**
   * The parameter `t` of index `k` on a side of `count` tiles: 0 on a
   * one-tile side, otherwise `constrain(k / (count - 1), 0, 1)`, which is
   * `constrain(k, 0, count - 1) / (count - 1)`.
   */
  function Param(k: int, count: int): (t: Fraction)
    requires count >= 1
    ensures 0 < t.den && 0 <= t.num <= t.den
    ensures count == 1 || k <= 0 ==> t.num == 0
    ensures count > 1 && k >= count - 1 ==> t.num == t.den
    ensures count > 1 && 0 <= k <= count - 1 ==> t == Fraction(k, count - 1)
  {
    if count == 1 then Fraction(0, 1) else Fraction(Constrain(k, 0, count - 1), count - 1)
  }

  /**
   * `round(lerp(start, stop, t))`, where `lerp(start, stop, t)` is
   * `start + (stop - start) * t`: the integer within one half of that value,
   * halves rounded up; it lies between the two ends and is exactly `start`
   * at t = 0 and `stop` at t = 1.
   */
  function LerpRound(start: int, stop: int, t: Fraction): (r: int)
    requires 0 < t.den && 0 <= t.num <= t.den
    ensures t.den * (2 * r - 1) <= 2 * (start * t.den + (stop - start) * t.num) < t.den * (2 * r + 1)
    ensures Min(start, stop) <= r <= Max(start, stop)
    ensures t.num == 0 ==> r == start
    ensures t.num == t.den ==> r == stop
  {
    var p := start * t.den + (stop - start) * t.num;
    var lo, hi := Min(start, stop), Max(start, stop);
    assert t.den * lo <= p <= t.den * hi by {
      if start <= stop {
        assert 0 <= (stop - start) * t.num <= (stop - start) * t.den;
      } else {
        assert (stop - start) * t.den <= (stop - start) * t.num <= 0;
      }
    }
    RoundBetween(p, t.den, lo, hi);
    RoundExact(start, t.den);
    RoundExact(stop, t.den);
    assert t.num == 0 ==> p == t.den * start;
    assert t.num == t.den ==> p == t.den * stop;
    RoundDivNearest(p, t.den);
    RoundDiv(p, t.den)
  }

  /** A larger parameter moves the rounded interpolation towards `stop`. */
  lemma LerpRoundMonotonic(start: int, stop: int, t1: Fraction, t2: Fraction)
    requires 0 < t1.den && 0 <= t1.num <= t2.num <= t1.den && t2.den == t1.den
    ensures start <= stop ==> LerpRound(start, stop, t1) <= LerpRound(start, stop, t2)
    ensures start >= stop ==> LerpRound(start, stop, t1) >= LerpRound(start, stop, t2)
  {
    var d := t1.den;
    var p1 := start * d + (stop - start) * t1.num;
    var p2 := start * d + (stop - start) * t2.num;
    MulMonotonic(stop - start, t1.num, t2.num);
    if start <= stop {
      RoundMonotonic(p1, p2, d);
    } else {
      RoundMonotonic(p2, p1, d);
    }
  }

  /**
   * `colorForIndex(i)`: red tiles run from pure red towards pink, the mix tile
   * is white, blue tiles run from light blue to pure blue.
   */
  function ColorForIndex(board: Board, i: int): (c: Rgb)
    requires board.Valid()
    ensures InRange(c)
    ensures i == board.MixIndex() <==> c == White
    ensures i < board.leftCount ==> c.r == 255 && c.g == c.b && 0 <= c.g <= 150
    ensures i > board.MixIndex() ==> c.b == 255 && c.r == c.g && 0 <= c.r <= 120
  {
    if i < board.leftCount then
      var g := LerpRound(0, 150, Param(i, board.leftCount));
      Rgb(255, g, g)
    else if i == board.MixIndex() then
      White
    else
      var v := LerpRound(120, 0, Param(i - (board.leftCount + 1), board.rightCount));
      Rgb(v, v, 255)
  }

  /** The red side starts at pure red and, when it has two or more tiles, ends at (255,150,150). */
  lemma RedSideEnds(board: Board)
    requires board.Valid()
    ensures ColorForIndex(board, 0) == Rgb(255, 0, 0)
    ensures board.leftCount > 1 ==> ColorForIndex(board, board.leftCount - 1) == Rgb(255, 150, 150)
  {
  }

  /** The blue side starts at (120,120,255) and, when it has two or more tiles, ends at pure blue. */
  lemma BlueSideEnds(board: Board)
    requires board.Valid()
    ensures ColorForIndex(board, board.MixIndex() + 1) == Rgb(120, 120, 255)
    ensures board.rightCount > 1 ==> ColorForIndex(board, board.Tiles() - 1) == Rgb(0, 0, 255)
  {
  }

  /** Along the red side the tiles only grow lighter (green and blue never decrease). */
  lemma RedShadesLighten(board: Board, i: int, j: int)
    requires board.Valid() && 0 <= i <= j < board.leftCount
    ensures ColorForIndex(board, i).g <= ColorForIndex(board, j).g
  {
    LerpRoundMonotonic(0, 150, Param(i, board.leftCount), Param(j, board.leftCount));
  }

  /** Along the blue side the tiles only grow deeper (red and green never increase). */
  lemma BlueShadesDeepen(board: Board, i: int, j: int)
    requires board.Valid() && board.MixIndex() < i <= j < board.Tiles()
    ensures ColorForIndex(board, i).r >= ColorForIndex(board, j).r
  {
    var k := board.leftCount + 1;
    LerpRoundMonotonic(120, 0, Param(i - k, board.rightCount), Param(j - k, board.rightCount));
  }

  /** On the 7/7 board every tile colour is an exact multiple: 25 per red step, 20 per blue step. */
  lemma DefaultTileColors(i: int)
    requires 0 <= i < DefaultBoard.Tiles()
    ensures i < 7 ==> ColorForIndex(DefaultBoard, i) == Rgb(255, 25 * i, 25 * i)
    ensures i > 7 ==> ColorForIndex(DefaultBoard, i) == Rgb(20 * (14 - i), 20 * (14 - i), 255)
  {
    if i < 7 {
      var t := Param(i, 7);
      assert t == Fraction(i, 6);
      assert LerpRound(0, 150, t) == RoundDiv(6 * (25 * i), 6);
      RoundExact(25 * i, 6);
    } else if i > 7 {
      var t := Param(i - 8, 7);
      assert t == Fraction(i - 8, 6);
      assert LerpRound(120, 0, t) == RoundDiv(6 * (20 * (14 - i)), 6);
      RoundExact(20 * (14 - i), 6);
    }
  }

  /** `round((a + b) / 2)`: the midpoint of two integers, halves rounded up. */
  function Average(x: int, y: int): (r: int)
    ensures x + y == 2 * r || x + y == 2 * r - 1
    ensures Min(x, y) <= r <= Max(x, y)
  {
    RoundDivNearest(x + y, 2);
    RoundDiv(x + y, 2)
  }

  /** The per-channel rounded average of two colours. */
  function Mix(c1: Rgb, c2: Rgb): (m: Rgb)
    ensures InRange(c1) && InRange(c2) ==> InRange(m)
    ensures c1 == c2 ==> m == c1
  {
    Rgb(Average(c1.r, c2.r), Average(c1.g, c2.g), Average(c1.b, c2.b))
  }

  /** Mixing is symmetric: which selector holds which tile does not matter. */
  lemma MixCommutes(c1: Rgb, c2: Rgb)
    ensures Mix(c1, c2) == Mix(c2, c1)
  {
  }

  /** Pure red mixed with three blue shades: pure blue, (20,20,255) and (120,120,255). */
  lemma PureRedMixes()
    ensures Mix(Rgb(255, 0, 0), Rgb(0, 0, 255)) == Rgb(128, 0, 128)
    ensures Mix(Rgb(255, 0, 0), Rgb(20, 20, 255)) == Rgb(138, 10, 128)
    ensures Mix(Rgb(255, 0, 0), Rgb(120, 120, 255)) == Rgb(188, 60, 128)
  {
  }

  /**
   * `colorsEqual(a, b)`: channel-by-channel equality after rounding. The
   * channels are integers already, so rounding leaves them alone.
   */
  function ColorsEqual(a: Rgb, b: Rgb): (r: bool)
    ensures r <==> a == b
  {
    a.r == b.r && a.g == b.g && a.b == b.b
  }

  /**
   * On the 7/7 board two mixes of a red tile with a blue tile agree only when
   * they use the same two tiles: the blue channel identifies the red tile, the
   * red channel the blue tile.
   */
  lemma DefaultMixInjective(i: int, j: int, i2: int, j2: int)
    requires DefaultBoard.IsRedTile(i) && DefaultBoard.IsBlueTile(j)
    requires DefaultBoard.IsRedTile(i2) && DefaultBoard.IsBlueTile(j2)
    requires Mix(ColorForIndex(DefaultBoard, i), ColorForIndex(DefaultBoard, j))
          == Mix(ColorForIndex(DefaultBoard, i2), ColorForIndex(DefaultBoard, j2))
    ensures i == i2 && j == j2
  {
    DefaultTileColors(i);
    DefaultTileColors(j);
    DefaultTileColors(i2);
    DefaultTileColors(j2);
    assert Average(25 * i, 255) == Average(25 * i2, 255);
    assert Average(255, 20 * (14 - j)) == Average(255, 20 * (14 - j2));
  }

  /** Concrete colours on the 7/7 board: its two ends, the mix tile and blue tiles 8 and 13. */
  lemma DefaultBoardColors()
    ensures ColorForIndex(DefaultBoard, 0) == Rgb(255, 0, 0)
    ensures ColorForIndex(DefaultBoard, 7) == White
    ensures ColorForIndex(DefaultBoard, 8) == Rgb(120, 120, 255)
    ensures ColorForIndex(DefaultBoard, 13) == Rgb(20, 20, 255)
    ensures ColorForIndex(DefaultBoard, 14) == Rgb(0, 0, 255)
  {
    DefaultTileColors(0);
    DefaultTileColors(8);
    DefaultTileColors(13);
    DefaultTileColors(14);
  }

  /**
   * Concrete mixes on the 7/7 board: tile 0 with the last tile 14 gives
   * (128,0,128), with tile 13 (138,10,128), with tile 8 (188,60,128).
   */
  lemma DefaultBoardMixes()
    ensures Mix(ColorForIndex(DefaultBoard, 0), ColorForIndex(DefaultBoard, 14)) == Rgb(128, 0, 128)
    ensures Mix(ColorForIndex(DefaultBoard, 0), ColorForIndex(DefaultBoard, 13)) == Rgb(138, 10, 128)
    ensures Mix(ColorForIndex(DefaultBoard, 0), ColorForIndex(DefaultBoard, 8)) == Rgb(188, 60, 128)
  {
    DefaultBoardColors();
    PureRedMixes();
  }
}
