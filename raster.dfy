/**
 * The line rasteriser of the whiteboard, as pure definitions: the walk from one endpoint to the
 * other that Whiteboard.getPointsOnLine produces, and the thickening of that walk into the set of
 * grid cells that Whiteboard.addLine paints. Float arithmetic is taken as exact real arithmetic.
 */
module Raster {

  /** A grid position, x to the right and y downwards. */
  datatype Cell = Cell(x: int, y: int)

  function Abs(n: int): nat { if n < 0 then -n else n }

  function RealAbs(v: real): real { if v < 0.0 then -v else v }

  function Max(a: int, b: int): int { if a < b then b else a }

  function Min(a: int, b: int): int { if a < b then a else b }

  /** Math.round: the nearest integer, a half rounding up. */
  function Round(v: real): (n: int)
    ensures v - 0.5 < n as real <= v + 0.5
  {
    (v + 0.5).Floor
  }

  /** The (int) cast of a float: truncation toward zero. */
  function Trunc(v: real): (n: int)
    ensures RealAbs(n as real) <= RealAbs(v) < RealAbs(n as real) + 1.0
    ensures (n < 0 ==> v < 0.0) && (n > 0 ==> v > 0.0)
  {
    if v >= 0.0 then v.Floor else -((-v).Floor)
  }

  // ---------------------------------------------------------------- the walk

  /** The slope of a non-vertical segment. */
  function Slope(x1: int, y1: int, x2: int, y2: int): real
    requires x1 != x2
  {
    (y2 - y1) as real / (x2 - x1) as real
  }

  /** A segment is steep when its slope is at least 1 in magnitude. */
  predicate Steep(x1: int, y1: int, x2: int, y2: int)
    requires x1 != x2
  {
    RealAbs(Slope(x1, y1, x2, y2)) >= 1.0
  }

  /** The coordinate k unit steps from a in the direction of b (upwards when b == a). */
  function Toward(a: int, b: int, k: int): int
  {
    if b < a then a - k else a + k
  }

  /** The change of x per row on a steep segment, signed so that rows are walked toward y2. */
  function SteepStep(x1: int, y1: int, x2: int, y2: int): real
    requires y1 != y2
  {
    var inverse := (x2 - x1) as real / (y2 - y1) as real;
    if y2 < y1 then -inverse else inverse
  }

  /** The change of y per column on a shallow segment, signed so that columns are walked toward x2. */
  function ShallowStep(x1: int, y1: int, x2: int, y2: int): real
    requires x1 != x2
  {
    if x2 < x1 then -Slope(x1, y1, x2, y2) else Slope(x1, y1, x2, y2)
  }

  /** An accumulator that starts at start and grows by step k times, in exact arithmetic. */
  function Along(start: real, step: real, k: int): real
  {
    start + k as real * step
  }

  /** A vertical segment: one cell per row from y1 toward y2, y2 itself excluded. */
  function VerticalWalk(x: int, y1: int, y2: int): seq<Cell>
  {
    seq(Abs(y2 - y1), k => Cell(x, Toward(y1, y2, k)))
  }

  /** A steep segment: one cell per row, x advancing by the inverse slope and rounded to nearest. */
  function SteepWalk(x1: int, y1: int, x2: int, y2: int): seq<Cell>
    requires y1 != y2
  {
    seq(Abs(y2 - y1), k => Cell(Round(Along(x1 as real, SteepStep(x1, y1, x2, y2), k)), Toward(y1, y2, k)))
  }

  /** A shallow segment: one cell per column, y advancing by the slope and truncated toward zero. */
  function ShallowWalk(x1: int, y1: int, x2: int, y2: int): seq<Cell>
    requires x1 != x2
  {
    seq(Abs(x2 - x1), k => Cell(Toward(x1, x2, k), Trunc(Along(y1 as real, ShallowStep(x1, y1, x2, y2), k))))
  }

  lemma SteepRows(x1: int, y1: int, x2: int, y2: int)
    requires x1 != x2 && Steep(x1, y1, x2, y2)
    ensures y1 != y2
  {
  }

  /** The cells of the segment from (x1, y1) to (x2, y2), in walking order, the endpoint last. */
  function PointsOnLine(x1: int, y1: int, x2: int, y2: int): seq<Cell>
  {
    if x1 == x2 then VerticalWalk(x1, y1, y2) + [Cell(x2, y2)]
    else if Steep(x1, y1, x2, y2) then
      SteepRows(x1, y1, x2, y2);
      SteepWalk(x1, y1, x2, y2) + [Cell(x2, y2)]
    else ShallowWalk(x1, y1, x2, y2) + [Cell(x2, y2)]
  }

  /** A quotient by a positive number is at least 1 exactly when the dividend reaches the divisor. */
  lemma QuotientAtLeastOne(n: real, d: real)
    requires d > 0.0
    ensures n / d >= 1.0 <==> n >= d
  {
    var q := n / d;
    assert q * d == n;
    if q >= 1.0 {
      assert (q - 1.0) * d >= 0.0;
    } else {
      assert (1.0 - q) * d > 0.0;
    }
  }

  lemma AbsQuotient(n: real, d: real)
    requires d != 0.0
    ensures RealAbs(n / d) == RealAbs(n) / RealAbs(d)
  {
    var q := n / d;
    assert q * d == n;
    if d > 0.0 {
      assert n < 0.0 <==> q < 0.0;
      assert (-n) / d == -q;
    } else {
      assert n < 0.0 <==> q > 0.0;
      assert (-n) / (-d) == q;
      assert n / (-d) == -q;
    }
  }

  /** The exact-arithmetic slope test agrees with comparing the integer extents. */
  lemma SteepIffTaller(x1: int, y1: int, x2: int, y2: int)
    requires x1 != x2
    ensures Steep(x1, y1, x2, y2) <==> Abs(y2 - y1) >= Abs(x2 - x1)
  {
    var dx := (x2 - x1) as real;
    var dy := (y2 - y1) as real;
    AbsQuotient(dy, dx);
    QuotientAtLeastOne(RealAbs(dy), RealAbs(dx));
    assert RealAbs(dx) == Abs(x2 - x1) as real && RealAbs(dy) == Abs(y2 - y1) as real;
  }

  /**
   * The walk starts at (x1, y1), ends at (x2, y2), and has one cell per row of a vertical or
   * steep segment and one per column of a shallow segment, the endpoint included.
   */
  lemma WalkShape(x1: int, y1: int, x2: int, y2: int)
    ensures var w := PointsOnLine(x1, y1, x2, y2);
      |w| == (if x1 == x2 || Abs(y2 - y1) >= Abs(x2 - x1) then Abs(y2 - y1) else Abs(x2 - x1)) + 1
      && w[0] == Cell(x1, y1) && w[|w| - 1] == Cell(x2, y2)
  {
    var w := PointsOnLine(x1, y1, x2, y2);
    if x1 != x2 {
      SteepIffTaller(x1, y1, x2, y2);
      if Steep(x1, y1, x2, y2) {
        SteepRows(x1, y1, x2, y2);
        assert w[0] == SteepWalk(x1, y1, x2, y2)[0];
        assert Round(x1 as real) == x1;
      } else {
        assert w[0] == ShallowWalk(x1, y1, x2, y2)[0];
        assert Trunc(y1 as real) == y1;
      }
    }
  }

  /** The walks of the vertical and horizontal test segments. */
  lemma StraightWalks()
    ensures PointsOnLine(0, 0, 0, 3) == [Cell(0, 0), Cell(0, 1), Cell(0, 2), Cell(0, 3)]
    ensures PointsOnLine(4, 4, 4, 1) == [Cell(4, 4), Cell(4, 3), Cell(4, 2), Cell(4, 1)]
    ensures PointsOnLine(0, 0, 3, 0) == [Cell(0, 0), Cell(1, 0), Cell(2, 0), Cell(3, 0)]
  {
    assert !Steep(0, 0, 3, 0);
    var w := ShallowWalk(0, 0, 3, 0);
    assert w[1] == Cell(1, 0) && w[2] == Cell(2, 0);
  }

  /** A shallow walk truncates y: the diagonal test segment, walked in both directions. */
  lemma ShallowWalks()
    ensures PointsOnLine(0, 3, 4, 5) == [Cell(0, 3), Cell(1, 3), Cell(2, 4), Cell(3, 4), Cell(4, 5)]
    ensures PointsOnLine(4, 5, 0, 3) == [Cell(4, 5), Cell(3, 4), Cell(2, 4), Cell(1, 3), Cell(0, 3)]
  {
    assert Slope(0, 3, 4, 5) == 0.5 && !Steep(0, 3, 4, 5);
    var w := ShallowWalk(0, 3, 4, 5);
    assert w[1] == Cell(1, Trunc(3.5)) && Trunc(3.5) == 3;
    assert w[2] == Cell(2, Trunc(4.0)) && Trunc(4.0) == 4;
    assert w[3] == Cell(3, Trunc(4.5)) && Trunc(4.5) == 4;
    assert Slope(4, 5, 0, 3) == 0.5 && !Steep(4, 5, 0, 3);
    var v := ShallowWalk(4, 5, 0, 3);
    assert v[1] == Cell(3, Trunc(4.5));
    assert v[2] == Cell(2, Trunc(4.0));
    assert v[3] == Cell(1, Trunc(3.5));
  }

  /** A steep walk rounds x to nearest, halves upward: the steep test segment. */
  lemma SteepWalkExample()
    ensures PointsOnLine(1, 4, 0, 0) == [Cell(1, 4), Cell(1, 3), Cell(1, 2), Cell(0, 1), Cell(0, 0)]
  {
    assert Slope(1, 4, 0, 0) == 4.0 && Steep(1, 4, 0, 0);
    var w := SteepWalk(1, 4, 0, 0);
    assert w[1] == Cell(Round(0.75), 3) && Round(0.75) == 1;
    assert w[2] == Cell(Round(0.5), 2) && Round(0.5) == 1;
    assert w[3] == Cell(Round(0.25), 1) && Round(0.25) == 0;
  }

  // ---------------------------------------------------------------- thickening

  /** thickness / 2 with Java's integer division, which truncates toward zero. */
  function HalfWidth(thickness: int): (h: int)
    ensures thickness >= 0 ==> 2 * h <= thickness <= 2 * h + 1
    ensures thickness < 0 ==> 2 * h - 1 <= thickness <= 2 * h
  {
    if thickness >= 0 then thickness / 2 else -((-thickness) / 2)
  }

  predicate InGrid(c: Cell, width: int, height: int)
  {
    0 <= c.x < width && 0 <= c.y < height
  }

  /** c lies in the square of half-width hw centred on p. */
  predicate Near(c: Cell, p: Cell, hw: int)
  {
    p.x - hw <= c.x <= p.x + hw && p.y - hw <= c.y <= p.y + hw
  }

  /** Appending a cell unless it was already selected: the boolean-matrix test. */
  function Keep(acc: seq<Cell>, c: Cell): seq<Cell>
  {
    if c in acc then acc else acc + [c]
  }

  /** Offering the cells of column x, rows lo up to but excluding hi, in increasing row order. */
  function WithColumn(acc: seq<Cell>, x: int, lo: int, hi: int): seq<Cell>
    decreases hi - lo
  {
    if hi <= lo then acc else Keep(WithColumn(acc, x, lo, hi - 1), Cell(x, hi - 1))
  }

  /** Offering the columns xlo up to but excluding xhi, each from row ylo up to but excluding yhi. */
  function WithBlock(acc: seq<Cell>, xlo: int, xhi: int, ylo: int, yhi: int): seq<Cell>
    decreases xhi - xlo
  {
    if xhi <= xlo then acc else WithColumn(WithBlock(acc, xlo, xhi - 1, ylo, yhi), xhi - 1, ylo, yhi)
  }

  /** Offering the square of half-width hw around a walked point, clipped to the grid. */
  function WithSquare(acc: seq<Cell>, p: Cell, hw: int, width: int, height: int): seq<Cell>
  {
    WithBlock(acc, Max(0, p.x - hw), Min(width - 1, p.x + hw) + 1, Max(0, p.y - hw), Min(height - 1, p.y + hw) + 1)
  }

  /** The selected cells of a thick line: the squares of the walk, in order, without repeats. */
  function Thicken(walk: seq<Cell>, hw: int, width: int, height: int): seq<Cell>
  {
    if walk == [] then [] else WithSquare(Thicken(walk[..|walk| - 1], hw, width, height), walk[|walk| - 1], hw, width, height)
  }

  predicate NoDuplicates(s: seq<Cell>)
  {
    forall i, j :: 0 <= i < j < |s| ==> s[i] != s[j]
  }

  lemma KeepFacts(acc: seq<Cell>, c: Cell)
    ensures acc <= Keep(acc, c)
    ensures forall d :: d in Keep(acc, c) <==> d in acc || d == c
    ensures NoDuplicates(acc) ==> NoDuplicates(Keep(acc, c))
  {
  }

  /** Offering a column keeps what was selected, in order, and adds each of its cells once. */
  lemma {:induction false} WithColumnFacts(acc: seq<Cell>, x: int, lo: int, hi: int)
    ensures acc <= WithColumn(acc, x, lo, hi)
    ensures forall c :: c in WithColumn(acc, x, lo, hi) <==> c in acc || (c.x == x && lo <= c.y < hi)
    ensures NoDuplicates(acc) ==> NoDuplicates(WithColumn(acc, x, lo, hi))
    decreases hi - lo
  {
    if lo < hi {
      WithColumnFacts(acc, x, lo, hi - 1);
      KeepFacts(WithColumn(acc, x, lo, hi - 1), Cell(x, hi - 1));
    }
  }

  /** Offering a block keeps what was selected, in order, and adds each of its cells once. */
  lemma {:induction false} WithBlockFacts(acc: seq<Cell>, xlo: int, xhi: int, ylo: int, yhi: int)
    ensures acc <= WithBlock(acc, xlo, xhi, ylo, yhi)
    ensures forall c :: c in WithBlock(acc, xlo, xhi, ylo, yhi) <==> c in acc || (xlo <= c.x < xhi && ylo <= c.y < yhi)
    ensures NoDuplicates(acc) ==> NoDuplicates(WithBlock(acc, xlo, xhi, ylo, yhi))
    decreases xhi - xlo
  {
    if xlo < xhi {
      WithBlockFacts(acc, xlo, xhi - 1, ylo, yhi);
      WithColumnFacts(WithBlock(acc, xlo, xhi - 1, ylo, yhi), xhi - 1, ylo, yhi);
    }
  }

  /** A visited square adds exactly the grid cells near its walked point. */
  lemma WithSquareFacts(acc: seq<Cell>, p: Cell, hw: int, width: int, height: int)
    ensures acc <= WithSquare(acc, p, hw, width, height)
    ensures forall c :: c in WithSquare(acc, p, hw, width, height) <==> c in acc || (InGrid(c, width, height) && Near(c, p, hw))
    ensures NoDuplicates(acc) ==> NoDuplicates(WithSquare(acc, p, hw, width, height))
  {
    WithBlockFacts(acc, Max(0, p.x - hw), Min(width - 1, p.x + hw) + 1, Max(0, p.y - hw), Min(height - 1, p.y + hw) + 1);
  }

  /** An offered column whose end is clipped below its start adds nothing either way. */
  lemma ColumnClip(acc: seq<Cell>, x: int, lo: int, hi: int)
    ensures WithColumn(acc, x, lo, Max(lo, hi)) == WithColumn(acc, x, lo, hi)
  {
  }

  /** The same for a block whose last column lies left of its first. */
  lemma BlockClip(acc: seq<Cell>, xlo: int, xhi: int, ylo: int, yhi: int)
    ensures WithBlock(acc, xlo, Max(xlo, xhi), ylo, yhi) == WithBlock(acc, xlo, xhi, ylo, yhi)
  {
  }

  /** Thickening one more walked point offers that point's square. */
  lemma ThickenStep(walk: seq<Cell>, i: nat, hw: int, width: int, height: int)
    requires i < |walk|
    ensures Thicken(walk[..i + 1], hw, width, height) == WithSquare(Thicken(walk[..i], hw, width, height), walk[i], hw, width, height)
  {
    assert walk[..i + 1][..i] == walk[..i];
  }

  /**
   * The cells addLine selects are exactly the grid cells within half-width hw of some walked
   * point, and none is selected twice.
   */
  lemma {:induction false} ThickenCells(walk: seq<Cell>, hw: int, width: int, height: int)
    ensures NoDuplicates(Thicken(walk, hw, width, height))
    ensures forall c :: c in Thicken(walk, hw, width, height) <==>
      InGrid(c, width, height) && exists k :: 0 <= k < |walk| && Near(c, walk[k], hw)
  {
    if walk != [] {
      var init := walk[..|walk| - 1];
      var p := walk[|walk| - 1];
      ThickenCells(init, hw, width, height);
      WithSquareFacts(Thicken(init, hw, width, height), p, hw, width, height);
      forall c ensures c in Thicken(walk, hw, width, height) <==>
        InGrid(c, width, height) && exists k :: 0 <= k < |walk| && Near(c, walk[k], hw)
      {
        if InGrid(c, width, height) && exists k :: 0 <= k < |walk| && Near(c, walk[k], hw) {
          var k :| 0 <= k < |walk| && Near(c, walk[k], hw);
          if k < |walk| - 1 {
            assert init[k] == walk[k];
          }
        }
        if exists k :: 0 <= k < |init| && Near(c, init[k], hw) {
          var k :| 0 <= k < |init| && Near(c, init[k], hw);
          assert walk[k] == init[k];
        }
      }
    }
  }
}
