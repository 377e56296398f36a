/** A board's geometry: cells numbered row by row, and the neighbour table they fix. */
module Grids {
  import opened Rules

  /** The cell one step from `c`, or NONE past the board's edge. */
  function Beside(width: nat, height: nat, c: Cell, d: nat): Cell
    requires width > 0
  {
    var x, y := c % width, c / width;
    if d == 0 then (if y >= 1 then (y - 1) * width + x else NONE)
    else if d == 1 then (if y + 1 < height then c + width else NONE)
    else if d == 2 then (if x >= 1 then c - 1 else NONE)
    else if d == 3 then (if x + 1 < width then c + 1 else NONE)
    else NONE
  }

  /** What the table holds: the cell beside, where neither it nor the cell itself is a wall. */
  function Entry(width: nat, height: nat, tiles: seq<nat>, c: Cell, d: nat): Cell
    requires width > 0 && |tiles| == width * height
  {
    var n := Beside(width, height, c, d);
    if c >= |tiles| || tiles[c] == WALL || n >= |tiles| || tiles[n] == WALL then NONE else n
  }

  /** The board's table is the one its geometry fixes. */
  ghost predicate Gridded(b: Board) {
    && b.width > 0 && |b.tiles| == b.width * b.height <= MAX_CELLS && |b.neighbors| == |b.tiles|
    && (forall c | 0 <= c < |b.neighbors| :: |b.neighbors[c]| == 4)
    && (forall c, d {:trigger b.neighbors[c][d]} | 0 <= c < |b.neighbors| && 0 <= d < 4 ::
      b.neighbors[c][d] == Entry(b.width, b.height, b.tiles, c, d))
  }

  lemma Scale(a: nat, b: nat, w: nat)
    ensures a <= b ==> a * w <= b * w
  {
  }

  /** Row and column name a cell and a cell names them. */
  lemma Numbered(width: nat, x: nat, y: nat)
    requires x < width
    ensures (y * width + x) % width == x && (y * width + x) / width == y
  {
    var c: nat := y * width + x;
    var q: nat := c / width;
    OneRow(width, x, y, q, c % width);
  }

  /** A cell has one row and one column. */
  lemma OneRow(width: nat, x: nat, y: nat, q: nat, r: nat)
    requires x < width && r < width && y * width + x == q * width + r
    ensures q == y && r == x
  {
    Scale(q + 1, y, width);
    Scale(y + 1, q, width);
    assert (q + 1) * width == q * width + width && (y + 1) * width == y * width + width;
  }

  lemma RowBound(width: nat, height: nat, x: nat, y: nat)
    requires x < width && y < height
    ensures y * width + x < width * height
  {
    Scale(y + 1, height, width);
    assert (y + 1) * width == y * width + width;
  }

  lemma RowOf(width: nat, height: nat, c: Cell)
    requires width > 0 && c < width * height
    ensures c / width < height && c == c / width * width + c % width
  {
    Scale(height, c / width, width);
  }

  /** A cell's column and row. */
  lemma Place(width: nat, height: nat, c: Cell) returns (x: nat, y: nat)
    requires width > 0 && c < width * height
    ensures x < width && y < height && c == y * width + x
  {
    RowOf(width, height, c);
    x, y := c % width, c / width;
  }

  /** The step in rows and columns. */
  lemma BesideAt(width: nat, height: nat, x: nat, y: nat, d: nat)
    requires x < width
    ensures Beside(width, height, y * width + x, d) ==
            if d == 0 && y >= 1 then (y - 1) * width + x
            else if d == 1 && y + 1 < height then (y + 1) * width + x
            else if d == 2 && x >= 1 then y * width + (x - 1)
            else if d == 3 && x + 1 < width then y * width + (x + 1)
            else NONE
  {
    Numbered(width, x, y);
    assert (y + 1) * width == y * width + width;
  }

  /** What a gridded board's table says of the cell in column `x` and row `y`: the cell beside it,
      where there is one and neither is a wall. */
  lemma NextMeans(b: Board, x: nat, y: nat, d: nat)
    requires Gridded(b) && x < b.width && y < b.height && d < 4
    ensures var c := y * b.width + x;
            var beside := if d == 0 then c - b.width else if d == 1 then c + b.width
                          else if d == 2 then c - 1 else c + 1;
            var inside := if d == 0 then y >= 1 else if d == 1 then y + 1 < b.height else if d == 2 then x >= 1
                          else x + 1 < b.width;
            && c < |b.tiles| && (inside ==> 0 <= beside < |b.tiles|)
            && b.Next(c, d) == if inside && b.tiles[c] != WALL && b.tiles[beside] != WALL then beside else NONE
  {
    BesideAt(b.width, b.height, x, y, d);
    RowBound(b.width, b.height, x, y);
    assert (y + 1) * b.width == y * b.width + b.width && (y - 1) * b.width == y * b.width - b.width;
    if d == 0 && y >= 1 { RowBound(b.width, b.height, x, y - 1); }
    if d == 1 && y + 1 < b.height { RowBound(b.width, b.height, x, y + 1); }
    if d == 2 && x >= 1 { RowBound(b.width, b.height, x - 1, y); }
    if d == 3 && x + 1 < b.width { RowBound(b.width, b.height, x + 1, y); }
    assert b.neighbors[y * b.width + x][d] == Entry(b.width, b.height, b.tiles, y * b.width + x, d);
  }

  /** A step stays on the board, and stepping back returns. */
  lemma BesideBack(width: nat, height: nat, c: Cell, d: nat)
    requires width > 0 && c < width * height <= MAX_CELLS && Beside(width, height, c, d) != NONE
    ensures d < 4 && Beside(width, height, c, d) < width * height
    ensures Beside(width, height, Beside(width, height, c, d), Opposite(d)) == c
  {
    var x, y := Place(width, height, c);
    StepBack(width, height, c, x, y, d);
  }

  lemma StepBack(width: nat, height: nat, c: Cell, x: nat, y: nat, d: nat)
    requires x < width && y < height && width * height <= MAX_CELLS && c == y * width + x
    requires Beside(width, height, c, d) != NONE
    ensures d < 4 && Beside(width, height, c, d) < width * height
    ensures Beside(width, height, Beside(width, height, c, d), Opposite(d)) == c
  {
    BesideAt(width, height, x, y, d);
    RowBound(width, height, x, y);
    var (x', y') :=
      if d == 0 then (x, y - 1) else if d == 1 then (x, y + 1) else if d == 2 then (x - 1, y) else (x + 1, y);
    RowBound(width, height, x', y');
    BesideAt(width, height, x', y', Opposite(d));
  }

  /** The geometry makes the table valid: neighbours are floor, and symmetric. */
  lemma GriddedIsValid(b: Board)
    requires Gridded(b)
    ensures b.ValidTable()
  {
    forall c: Cell, d: nat | b.Next(c, d) != NONE
      ensures d < 4 && b.Floor(c) && b.Floor(b.Next(c, d)) && b.Next(b.Next(c, d), Opposite(d)) == c
    {
      assert b.neighbors[c][d] == Entry(b.width, b.height, b.tiles, c, d);
      var n := Beside(b.width, b.height, c, d);
      BesideBack(b.width, b.height, c, d);
      assert b.neighbors[n][Opposite(d)] == Entry(b.width, b.height, b.tiles, n, Opposite(d));
    }
    forall c, d ensures b.Mirrored(c, d) {
    }
  }

  lemma NextIsEntry(b: Board, c: Cell, d: nat)
    requires Gridded(b) && c < |b.tiles|
    ensures b.Next(c, d) == (if d < 4 then Entry(b.width, b.height, b.tiles, c, d) else NONE)
  {
    if d < 4 { assert b.neighbors[c][d] == Entry(b.width, b.height, b.tiles, c, d); }
  }
}
