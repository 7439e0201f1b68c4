/**
 * The Whiteboard class: a named height-by-width grid of pixel colours, indexed [y, x], and the
 * ordered list of the usernames that have the board open. Lines are drawn by walking the
 * segment (Raster.PointsOnLine), thickening the walk into grid cells (Raster.Thicken) and
 * painting those cells; the board's text lists every non-white pixel in row-major order.
 */
module Boards {
  import opened Text
  import opened Lists
  import opened Points
  import opened Raster

  // ---------------------------------------------------------------- grids as values

  /** A grid of width columns and height rows. */
  predicate Shaped(g: seq<seq<Color>>, width: nat, height: nat)
  {
    |g| == height && forall y :: 0 <= y < height ==> |g[y]| == width
  }

  /** A freshly made board: every pixel white. */
  function Blank(width: nat, height: nat): (g: seq<seq<Color>>)
    ensures Shaped(g, width, height)
  {
    seq(height, y => seq(width, x => White))
  }

  /** The grid after the given cells are painted with c; cells outside the grid are ignored. */
  function Paint(g: seq<seq<Color>>, cells: seq<Cell>, c: Color): (h: seq<seq<Color>>)
    ensures |h| == |g| && forall y :: 0 <= y < |g| ==> |h[y]| == |g[y]|
  {
    seq(|g|, y requires 0 <= y < |g| => seq(|g[y]|, x requires 0 <= x < |g[y]| => if Cell(x, y) in cells then c else g[y][x]))
  }

  predicate AllWhite(g: seq<seq<Color>>)
  {
    forall y, x :: 0 <= y < |g| && 0 <= x < |g[y]| ==> g[y][x] == White
  }

  lemma GridsEqual(g: seq<seq<Color>>, h: seq<seq<Color>>)
    requires |g| == |h| && forall y :: 0 <= y < |g| ==> |g[y]| == |h[y]|
    requires forall y, x :: 0 <= y < |g| && 0 <= x < |g[y]| ==> g[y][x] == h[y][x]
    ensures g == h
  {
    forall y | 0 <= y < |g| ensures g[y] == h[y] {
      assert forall x :: 0 <= x < |g[y]| ==> g[y][x] == h[y][x];
    }
  }

  // ---------------------------------------------------------------- texts

  /** The text colorPoints answers: each cell's "x y r g b" followed by one space, in list order. */
  function Reply(cells: seq<Cell>, c: Color): string
  {
    if cells == [] then "" else Reply(cells[..|cells| - 1], c) + Encode(cells[|cells| - 1].x, cells[|cells| - 1].y, c) + " "
  }

  /** What the board text says about one pixel: nothing when it is white. */
  function CellText(x: int, y: int, c: Color): string
  {
    if c == White then "" else Encode(x, y, c) + " "
  }

  /** The text of the first n pixels of row y. */
  function RowText(row: seq<Color>, y: int, n: nat): string
    requires n <= |row|
  {
    if n == 0 then "" else RowText(row, y, n - 1) + CellText(n - 1, y, row[n - 1])
  }

  /** The text of the first m rows. */
  function RowsText(g: seq<seq<Color>>, m: nat): string
    requires m <= |g|
  {
    if m == 0 then "" else RowsText(g, m - 1) + RowText(g[m - 1], m - 1, |g[m - 1]|)
  }

  /** The board text: the non-white pixels, rows top to bottom and each row left to right. */
  function Snapshot(g: seq<seq<Color>>): string
  {
    RowsText(g, |g|)
  }

  lemma {:induction false} RowTextEmpty(row: seq<Color>, y: int, n: nat)
    requires n <= |row|
    ensures RowText(row, y, n) == "" <==> forall x :: 0 <= x < n ==> row[x] == White
  {
    if n > 0 {
      RowTextEmpty(row, y, n - 1);
      CellTextEmpty(n - 1, y, row[n - 1]);
    }
  }

  lemma CellTextEmpty(x: int, y: int, c: Color)
    ensures CellText(x, y, c) == "" <==> c == White
  {
    if c != White {
      assert |IntToString(x)| > 0;
      assert CellText(x, y, c)[0] == IntToString(x)[0];
    }
  }

  lemma {:induction false} RowsTextEmpty(g: seq<seq<Color>>, m: nat)
    requires m <= |g|
    ensures RowsText(g, m) == "" <==> forall y, x :: 0 <= y < m && 0 <= x < |g[y]| ==> g[y][x] == White
  {
    if m > 0 {
      RowsTextEmpty(g, m - 1);
      RowTextEmpty(g[m - 1], m - 1, |g[m - 1]|);
    }
  }

  /** The board text is empty exactly when every pixel is white. */
  lemma SnapshotEmpty(g: seq<seq<Color>>)
    ensures Snapshot(g) == "" <==> AllWhite(g)
  {
    RowsTextEmpty(g, |g|);
  }

  /** The cells selected for the blue diagonal from (0, 0) to (1, 1) drawn with thickness 1. */
  lemma DiagonalCells()
    ensures Thicken(PointsOnLine(0, 0, 1, 1), HalfWidth(1), 2, 2) == [Cell(0, 0), Cell(1, 1)]
  {
    assert Slope(0, 0, 1, 1) == 1.0 && Steep(0, 0, 1, 1);
    assert Round(0.0) == 0;
    var walk := PointsOnLine(0, 0, 1, 1);
    assert walk == [Cell(0, 0), Cell(1, 1)];
    assert walk[..1] == [Cell(0, 0)] && walk[..1][..0] == [];
    assert WithColumn([], 0, 0, 1) == [Cell(0, 0)];
    assert Thicken(walk[..1], 0, 2, 2) == [Cell(0, 0)] by {
      assert WithSquare([], Cell(0, 0), 0, 2, 2) == WithBlock([], 0, 1, 0, 1);
    }
    assert WithColumn([Cell(0, 0)], 1, 1, 2) == [Cell(0, 0), Cell(1, 1)];
    assert WithSquare([Cell(0, 0)], Cell(1, 1), 0, 2, 2) == WithBlock([Cell(0, 0)], 1, 2, 1, 2);
  }

  /** The reply addLine sends for that diagonal. */
  lemma DiagonalReply()
    ensures Reply([Cell(0, 0), Cell(1, 1)], Color(0, 0, 255)) == "0 0 0 0 255 " + "1 1 0 0 255 "
  {
    var blue := Color(0, 0, 255);
    assert [Cell(0, 0), Cell(1, 1)][..1] == [Cell(0, 0)];
    assert [Cell(0, 0)][..0] == [];
    BlueTexts();
  }

  /** The texts of the two blue pixels of the diagonal. */
  lemma BlueTexts()
    ensures Encode(0, 0, Color(0, 0, 255)) == "0 0 0 0 255"
    ensures Encode(1, 1, Color(0, 0, 255)) == "1 1 0 0 255"
  {
    DecimalTexts();
  }

  /** The decimal texts of the numbers in those pixels. */
  lemma DecimalTexts()
    ensures IntToString(0) == "0" && IntToString(1) == "1" && IntToString(255) == "255"
  {
    assert NatToString(25) == "25" by { assert NatToString(2) == "2"; }
  }

  /** The 2-by-2 board once that diagonal is painted on it. */
  lemma DiagonalGrid()
    ensures Paint(Blank(2, 2), [Cell(0, 0), Cell(1, 1)], Color(0, 0, 255))
      == [[Color(0, 0, 255), White], [White, Color(0, 0, 255)]]
  {
    var g := Paint(Blank(2, 2), [Cell(0, 0), Cell(1, 1)], Color(0, 0, 255));
    assert g[0] == [Color(0, 0, 255), White];
    assert g[1] == [White, Color(0, 0, 255)];
  }

  /** The text of the board's top row: its blue pixel at column 0. */
  lemma TopRowText()
    ensures RowText([Color(0, 0, 255), White], 0, 2) == "0 0 0 0 255 "
  {
    var row := [Color(0, 0, 255), White];
    BlueTexts();
    assert RowText(row, 0, 1) == CellText(0, 0, row[0]);
    assert CellText(1, 0, row[1]) == "";
  }

  /** The text of the board's bottom row: its blue pixel at column 1. */
  lemma BottomRowText()
    ensures RowText([White, Color(0, 0, 255)], 1, 2) == "1 1 0 0 255 "
  {
    var row := [White, Color(0, 0, 255)];
    BlueTexts();
    assert RowText(row, 1, 1) == CellText(0, 1, row[0]) == "";
  }

  /** The text of that board lists its two blue pixels in row-major order. */
  lemma DiagonalSnapshot()
    ensures Snapshot(Paint(Blank(2, 2), [Cell(0, 0), Cell(1, 1)], Color(0, 0, 255))) == "0 0 0 0 255 " + "1 1 0 0 255 "
  {
    var blue := Color(0, 0, 255);
    DiagonalGrid();
    var g := [[blue, White], [White, blue]];
    TopRowText();
    BottomRowText();
    assert RowsText(g, 1) == RowText(g[0], 0, 2);
  }

  /** One more step of an accumulated coordinate: the accumulator stays start + count * step. */
  lemma Accumulate(start: real, n: nat, step: real)
    ensures Along(start, step, n) + step == Along(start, step, n + 1)
  {
  }

  /** getPointsOnLine: walks the segment one row or one column at a time, then adds the endpoint. */
  method GetPointsOnLine(x1: int, y1: int, x2: int, y2: int) returns (walk: seq<Cell>)
    ensures walk == PointsOnLine(x1, y1, x2, y2)
  {
    walk := [];
    if x1 == x2 {
      var inc := if y2 < y1 then -1 else 1;
      var y := y1;
      while y != y2
        invariant |walk| <= Abs(y2 - y1) && y == Toward(y1, y2, |walk|)
        invariant forall k :: 0 <= k < |walk| ==> walk[k] == Cell(x1, Toward(y1, y2, k))
        decreases Abs(y2 - y)
      {
        walk := walk + [Cell(x1, y)];
        y := y + inc;
      }
      assert walk == VerticalWalk(x1, y1, y2);
    } else {
      var slope := Slope(x1, y1, x2, y2);
      if Steep(x1, y1, x2, y2) {
        SteepRows(x1, y1, x2, y2);
        var xc := x1 as real;
        var xinc := (x2 - x1) as real / (y2 - y1) as real;
        var yinc: int;
        if y2 < y1 {
          yinc := -1;
          xinc := -xinc;
        } else {
          yinc := 1;
        }
        assert xinc == SteepStep(x1, y1, x2, y2);
        var y := y1;
        while y != y2
          invariant |walk| <= Abs(y2 - y1) && y == Toward(y1, y2, |walk|)
          invariant xc == Along(x1 as real, xinc, |walk|)
          invariant forall k :: 0 <= k < |walk| ==> walk[k] == Cell(Round(Along(x1 as real, xinc, k)), Toward(y1, y2, k))
          decreases Abs(y2 - y)
        {
          Accumulate(x1 as real, |walk|, xinc);
          walk := walk + [Cell(Round(xc), y)];
          xc := xc + xinc;
          y := y + yinc;
        }
        assert walk == SteepWalk(x1, y1, x2, y2);
      } else {
        var yc := y1 as real;
        var yinc := slope;
        var xinc: int;
        if x2 < x1 {
          xinc := -1;
          yinc := -yinc;
        } else {
          xinc := 1;
        }
        assert yinc == ShallowStep(x1, y1, x2, y2);
        var x := x1;
        while x != x2
          invariant |walk| <= Abs(x2 - x1) && x == Toward(x1, x2, |walk|)
          invariant yc == Along(y1 as real, yinc, |walk|)
          invariant forall k :: 0 <= k < |walk| ==> walk[k] == Cell(Toward(x1, x2, k), Trunc(Along(y1 as real, yinc, k)))
          decreases Abs(x2 - x)
        {
          Accumulate(y1 as real, |walk|, yinc);
          walk := walk + [Cell(x, Trunc(yc))];
          yc := yc + yinc;
          x := x + xinc;
        }
        assert walk == ShallowWalk(x1, y1, x2, y2);
      }
    }
    walk := walk + [Cell(x2, y2)];
  }

  /** Painting one more listed cell appends its text to the reply. */
  lemma ReplyStep(points: seq<Cell>, i: nat, c: Color)
    requires i < |points|
    ensures Reply(points[..i + 1], c) == Reply(points[..i], c) + (Encode(points[i].x, points[i].y, c) + " ")
  {
    assert points[..i + 1][..i] == points[..i];
  }

  lemma PrefixStep(points: seq<Cell>, i: nat)
    requires i < |points|
    ensures forall q :: q in points[..i + 1] <==> q in points[..i] || q == points[i]
  {
    assert points[..i + 1] == points[..i] + [points[i]];
  }

  /** marked[x, y] is set exactly for the selected cells, all of which lie in the grid. */
  ghost predicate Marks(marked: array2<bool>, points: seq<Cell>)
    reads marked
  {
    (forall k :: 0 <= k < |points| ==> InGrid(points[k], marked.Length0, marked.Length1)) &&
    forall a, b {:trigger marked[a, b]} :: 0 <= a < marked.Length0 && 0 <= b < marked.Length1 ==> (marked[a, b] <==> Cell(a, b) in points)
  }

  /** The innermost loop of addLine: offers the cells of column x from row yMin to row yMax. */
  method MarkColumn(marked: array2<bool>, points: seq<Cell>, x: int, yMin: int, yMax: int) returns (res: seq<Cell>)
    requires Marks(marked, points)
    requires 0 <= x < marked.Length0 && 0 <= yMin && yMax < marked.Length1
    modifies marked
    ensures res == WithColumn(points, x, yMin, yMax + 1)
    ensures Marks(marked, res)
  {
    res := points;
    var y := yMin;
    while y <= yMax
      invariant yMin <= y <= Max(yMin, yMax + 1)
      invariant res == WithColumn(points, x, yMin, y)
      invariant Marks(marked, res)
    {
      if !marked[x, y] {
        res := res + [Cell(x, y)];
        marked[x, y] := true;
      }
      y := y + 1;
    }
    ColumnClip(points, x, yMin, yMax + 1);
  }

  /**
   * The middle loop of addLine: offers the square around p, clipped to the grid, column by
   * column, keeping each cell the boolean matrix has not seen yet.
   */
  method MarkSquare(marked: array2<bool>, points: seq<Cell>, p: Cell, hw: int) returns (res: seq<Cell>)
    requires Marks(marked, points)
    modifies marked
    ensures res == WithSquare(points, p, hw, marked.Length0, marked.Length1)
    ensures Marks(marked, res)
  {
    var width, height := marked.Length0, marked.Length1;
    var xMin, xMax := Max(0, p.x - hw), Min(width - 1, p.x + hw);
    var yMin, yMax := Max(0, p.y - hw), Min(height - 1, p.y + hw);
    res := points;
    var x := xMin;
    while x <= xMax
      invariant xMin <= x <= Max(xMin, xMax + 1)
      invariant res == WithBlock(points, xMin, x, yMin, yMax + 1)
      invariant Marks(marked, res)
    {
      res := MarkColumn(marked, res, x, yMin, yMax);
      x := x + 1;
    }
    BlockClip(points, xMin, xMax + 1, yMin, yMax + 1);
  }

  /** The thickening part of addLine: a fresh boolean matrix, then every walked point's square. */
  method SelectCells(walk: seq<Cell>, hw: int, width: nat, height: nat) returns (points: seq<Cell>)
    ensures points == Thicken(walk, hw, width, height)
  {
    points := [];
    var marked := new bool[width, height];
    var i := 0;
    while i < width
      invariant 0 <= i <= width
      invariant forall a, b :: 0 <= a < i && 0 <= b < height ==> !marked[a, b]
    {
      var y := 0;
      while y < height
        invariant 0 <= y <= height
        invariant forall a, b :: 0 <= a < i && 0 <= b < height ==> !marked[a, b]
        invariant forall b :: 0 <= b < y ==> !marked[i, b]
      {
        marked[i, y] := false;
        y := y + 1;
      }
      i := i + 1;
    }
    i := 0;
    while i < |walk|
      invariant 0 <= i <= |walk|
      invariant points == Thicken(walk[..i], hw, width, height)
      invariant Marks(marked, points)
    {
      points := MarkSquare(marked, points, walk[i], hw);
      ThickenStep(walk, i, hw, width, height);
      i := i + 1;
    }
    assert walk[..|walk|] == walk;
  }

  // ---------------------------------------------------------------- the board

  class Whiteboard {
    const name: string
    const width: nat
    const height: nat
    /** pixels[y, x] is the colour of the pixel in column x of row y. */
    const pixels: array2<Color>
    /** The users that have the board open, in the order they opened it. */
    var usernames: seq<string>

    ghost predicate Valid()
    {
      pixels.Length0 == height && pixels.Length1 == width
    }

    /** The pixel colours as rows of a grid value. */
    ghost function Grid(): (g: seq<seq<Color>>)
      requires Valid()
      reads pixels
      ensures Shaped(g, width, height)
    {
      seq(height, y requires 0 <= y < height reads pixels =>
        seq(width, x requires 0 <= x < width reads pixels => pixels[y, x]))
    }

    function GetName(): string { name }

    /** getWidth: the number of columns of the pixel array. */
    function GetWidth(): (w: nat)
      ensures Valid() ==> w == pixels.Length1
    {
      width
    }

    /** getHeight: the number of rows of the pixel array. */
    function GetHeight(): (h: nat)
      ensures Valid() ==> h == pixels.Length0
    {
      height
    }

    /** A board of the given size with every pixel white and nobody on it. */
    constructor (name: string, width: nat, height: nat)
      ensures Valid() && fresh(pixels)
      ensures GetName() == name && GetWidth() == width && GetHeight() == height
      ensures Grid() == Blank(width, height) && usernames == []
    {
      this.name := name;
      this.width := width;
      this.height := height;
      this.pixels := new Color[height, width];
      this.usernames := [];
      new;
      var x := 0;
      while x < width
        invariant 0 <= x <= width && usernames == []
        invariant forall j, i :: 0 <= j < height && 0 <= i < x ==> pixels[j, i] == White
      {
        var y := 0;
        while y < height
          invariant 0 <= y <= height && usernames == []
          invariant forall j, i :: 0 <= j < height && 0 <= i < x ==> pixels[j, i] == White
          invariant forall j :: 0 <= j < y ==> pixels[j, x] == White
        {
          pixels[y, x] := White;
          y := y + 1;
        }
        x := x + 1;
      }
      GridsEqual(Grid(), Blank(width, height));
    }

    // -------------------------------------------------------------- users

    /** The usernames separated by single spaces, without a trailing space. */
    method GetUsernames() returns (s: string)
      ensures s == Join(usernames)
    {
      s := "";
      var i := 0;
      while i < |usernames|
        invariant 0 <= i <= |usernames|
        invariant s == if i == 0 then "" else if i < |usernames| then Join(usernames[..i]) + " " else Join(usernames)
      {
        if i > 0 {
          JoinSnoc(usernames[..i], usernames[i]);
          assert usernames[..i] + [usernames[i]] == usernames[..i + 1];
        } else {
          assert usernames[..1] == [usernames[0]];
        }
        s := s + usernames[i];
        if i != |usernames| - 1 {
          s := s + " ";
        }
        i := i + 1;
        assert i == |usernames| ==> usernames[..i] == usernames;
      }
    }

    /** Adds a user at the end of the list, duplicates included, and answers the new list's text. */
    method AddUsername(username: string) returns (s: string)
      modifies this`usernames
      ensures usernames == old(usernames) + [username]
      ensures s == Join(usernames)
    {
      usernames := usernames + [username];
      s := GetUsernames();
    }

    /** Removes the first occurrence of a user, if any, and answers the new list's text. */
    method RemoveUsername(username: string) returns (s: string)
      modifies this`usernames
      ensures usernames == RemoveFirst(old(usernames), username)
      ensures s == Join(usernames)
    {
      usernames := RemoveFirst(usernames, username);
      s := GetUsernames();
    }

    /** Whether the user is on the board: exactly when removing the user would change the list. */
    function HasUsername(username: string): (r: bool)
      reads this
      ensures r <==> RemoveFirst(usernames, username) != usernames
    {
      RemoveFirstContents(usernames, username);
      RemoveFirstAt(usernames, username);
      username in usernames
    }

    // -------------------------------------------------------------- pixels

    function GetColor(x: int, y: int): (c: Color)
      requires Valid() && 0 <= x < width && 0 <= y < height
      reads pixels
      ensures c == Grid()[y][x]
    {
      pixels[y, x]
    }

    /** Repaints one pixel, every other pixel unchanged, and answers the pixel's text. */
    method SetColor(x: int, y: int, c: Color) returns (s: string)
      requires Valid() && 0 <= x < width && 0 <= y < height
      modifies pixels
      ensures GetColor(x, y) == c
      ensures forall j, i :: 0 <= j < height && 0 <= i < width && (j != y || i != x) ==> pixels[j, i] == old(pixels[j, i])
      ensures s == Encode(x, y, c)
    {
      pixels[y, x] := c;
      s := Encode(x, y, c);
    }

    /** colorPoints: paints the listed cells and answers their texts in list order. */
    method ColorPoints(points: seq<Cell>, c: Color) returns (s: string)
      requires Valid()
      requires forall k :: 0 <= k < |points| ==> InGrid(points[k], width, height)
      modifies pixels
      ensures forall y, x :: 0 <= y < height && 0 <= x < width ==>
        pixels[y, x] == if Cell(x, y) in points then c else old(pixels[y, x])
      ensures s == Reply(points, c)
    {
      s := "";
      var i := 0;
      while i < |points|
        invariant 0 <= i <= |points|
        invariant s == Reply(points[..i], c)
        invariant forall y, x :: 0 <= y < height && 0 <= x < width ==>
          pixels[y, x] == if Cell(x, y) in points[..i] then c else old(pixels[y, x])
      {
        var p := points[i];
        ReplyStep(points, i, c);
        PrefixStep(points, i);
        var t := SetColor(p.x, p.y, c);
        s := s + (t + " ");
        i := i + 1;
      }
      assert points[..|points|] == points;
    }

    /**
     * addLine: paints every grid cell within thickness / 2 of some cell of the walk from
     * (x1, y1) to (x2, y2), leaves every other pixel as it was, and answers the painted cells'
     * texts, each cell once, in the order the thickening visits them.
     */
    method AddLine(c: Color, x1: int, y1: int, x2: int, y2: int, thickness: int) returns (s: string)
      requires Valid()
      modifies pixels
      ensures var cells := Thicken(PointsOnLine(x1, y1, x2, y2), HalfWidth(thickness), width, height);
        s == Reply(cells, c) &&
        forall y, x :: 0 <= y < height && 0 <= x < width ==>
          pixels[y, x] == if Cell(x, y) in cells then c else old(pixels[y, x])
    {
      var walk := GetPointsOnLine(x1, y1, x2, y2);
      var points := SelectCells(walk, HalfWidth(thickness), width, height);
      ThickenCells(walk, HalfWidth(thickness), width, height);
      s := ColorPoints(points, c);
    }

    /** clearWhiteboard: every pixel white again; the board's text becomes empty. */
    method ClearWhiteboard()
      requires Valid()
      modifies pixels
      ensures Grid() == Blank(width, height)
      ensures Snapshot(Grid()) == ""
    {
      var x := 0;
      while x < width
        invariant 0 <= x <= width
        invariant forall j, i :: 0 <= j < height && 0 <= i < x ==> pixels[j, i] == White
      {
        var y := 0;
        while y < height
          invariant 0 <= y <= height
          invariant forall j, i :: 0 <= j < height && 0 <= i < x ==> pixels[j, i] == White
          invariant forall j :: 0 <= j < y ==> pixels[j, x] == White
        {
          pixels[y, x] := White;
          y := y + 1;
        }
        x := x + 1;
      }
      GridsEqual(Grid(), Blank(width, height));
      SnapshotEmpty(Grid());
    }

    /** toString: the board's text, every non-white pixel in row-major order. */
    method ToString() returns (s: string)
      requires Valid()
      ensures s == Snapshot(Grid())
    {
      s := "";
      var y := 0;
      while y < height
        invariant 0 <= y <= height
        invariant s == RowsText(Grid(), y)
      {
        var t := RowString(y);
        assert |Grid()[y]| == width;
        s := s + t;
        y := y + 1;
      }
    }

    /** One pass of toString's inner loop: the text of row y. */
    method RowString(y: int) returns (t: string)
      requires Valid() && 0 <= y < height
      ensures t == RowText(Grid()[y], y, width)
    {
      ghost var row := Grid()[y];
      t := "";
      var x := 0;
      while x < width
        invariant 0 <= x <= width
        invariant t == RowText(row, y, x)
      {
        var c := pixels[y, x];
        assert c == row[x];
        if c != White {
          t := t + (Encode(x, y, c) + " ");
        } else {
          assert t + CellText(x, y, c) == t;
        }
        x := x + 1;
      }
    }
  }
}
