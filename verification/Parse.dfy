/** Puzzle text (board.rs): rows of symbols become tiles, boxes, goals and the neighbour table,
    or the rule the text breaks. A character stands for one byte. */
module Parsing {
  import opened Rules
  import opened Bfs
  import opened Grids

  datatype ParseError =
    | TooLarge
    | CarriageReturn
    | EmptyRow
    | TooManyCells
    | UnsupportedSymbol(row: nat, column: nat)
    | RobotCount
    | BoxCount
    | UnmatchedGoals

  datatype Parsed = Ok(board: Board) | Err(error: ParseError)

  datatype Symbol = Wall | Space | Robot | Goal(label_: Label) | Box(label_: Label) | Unsupported

  /** The cell a character stands for. A box has the lower case of its letter for goals, except
      that those of `X` are `S`; no goal is written `o`, `r`, `s` or `x`. */
  function Meaning(c: char): (s: Symbol)
    ensures s.Goal? || s.Box? ==> LABEL_A <= s.label_ <= LABEL_Z
  {
    if c == 'O' then Wall
    else if c == ' ' then Space
    else if c == 'R' then Robot
    else if c == 'S' then Goal('X' as nat)
    else if 'a' <= c <= 'z' && c !in "orsx" then Goal(c as nat - 'a' as nat + LABEL_A)
    else if 'A' <= c <= 'Z' then Box(c as nat)
    else Unsupported
  }

  /** What each symbol is written as, and by what alone. */
  lemma WrittenAs(c: char)
    ensures (Meaning(c).Wall? <==> c == 'O') && (Meaning(c).Space? <==> c == ' ') && (Meaning(c).Robot? <==> c == 'R')
    ensures forall l: Label :: Meaning(c) == Box(l) <==> LABEL_A <= l <= LABEL_Z && c as nat == l && c !in "ORS"
    ensures forall l: Label :: Meaning(c) == Goal(l) <==>
              (l == 88 && c == 'S') || (LABEL_A <= l <= LABEL_Z && l != 88 && c as nat == l + 32 && c !in "ors")
  {
  }

  /** A label has a box letter exactly when it has a goal letter, and never two of either. */
  lemma LettersPair(l: Label)
    ensures (exists c: char :: Meaning(c) == Box(l)) <==> (exists c: char :: Meaning(c) == Goal(l))
    ensures forall c, d: char :: Meaning(c) == Meaning(d) && (Meaning(c).Box? || Meaning(c).Goal?) ==> c == d
  {
    forall c, d: char | Meaning(c) == Meaning(d) && (Meaning(c).Box? || Meaning(c).Goal?) ensures c == d {
      WrittenAs(c);
      WrittenAs(d);
    }
    if c: char :| Meaning(c) == Box(l) {
      WrittenAs(c);
      var goal := if c == 'X' then 'S' else (l + 32) as char;
      WrittenAs(goal);
      assert Meaning(goal) == Goal(l);
    }
    if c: char :| Meaning(c) == Goal(l) {
      WrittenAs(c);
      WrittenAs(l as char);
      assert Meaning(l as char) == Box(l);
    }
  }

  function TileOf(s: Symbol): nat {
    if s.Wall? || s.Unsupported? then WALL else if s.Goal? then s.label_ else FLOOR
  }

  // ---------------------------------------------------------------- rows

  /** The text cut at each newline. */
  function Rows(text: string): (rows: seq<string>)
    ensures rows != []
  {
    if text == "" then [""]
    else
      var rows, last := Rows(text[..|text| - 1]), text[|text| - 1];
      if last == '\n' then rows + [""] else rows[..|rows| - 1] + [rows[|rows| - 1] + [last]]
  }

  /** One trailing newline is ignored. */
  function Stripped(text: string): string {
    if text != "" && text[|text| - 1] == '\n' then text[..|text| - 1] else text
  }

  lemma StrippedOnce(text: string)
    ensures Stripped(text + "\n") == text && ((text == "" || text[|text| - 1] != '\n') ==> Stripped(text) == text)
  {
  }

  /** The rows with a newline between each and the next. */
  function Joined(rows: seq<string>): string
    requires rows != []
    decreases |rows|
  {
    var last := rows[|rows| - 1];
    if |rows| == 1 then last else Joined(rows[..|rows| - 1]) + "\n" + last
  }

  ghost predicate NoNewlines(rows: seq<string>) {
    forall y | 0 <= y < |rows| :: '\n' !in rows[y]
  }

  /** Cutting loses nothing: joining the rows gives the text back, and no row holds a newline. */
  lemma {:induction false} RowsJoin(text: string)
    ensures Joined(Rows(text)) == text && NoNewlines(Rows(text))
    decreases |text|
  {
    if text != "" {
      var init, last := text[..|text| - 1], text[|text| - 1];
      RowsJoin(init);
      var rows := Rows(init);
      assert text == init + [last];
      if last == '\n' {
        assert (rows + [""])[..|rows|] == rows;
      } else {
        var longer := rows[..|rows| - 1] + [rows[|rows| - 1] + [last]];
        assert longer[..|rows| - 1] == rows[..|rows| - 1];
      }
    }
  }

  method SplitRows(text: string) returns (rows: seq<string>)
    ensures rows == Rows(text) && Joined(rows) == text && NoNewlines(rows)
  {
    RowsJoin(text);
    rows := [];
    var row := "";
    for i := 0 to |text|
      invariant rows + [row] == Rows(text[..i])
    {
      assert text[..i + 1][..i] == text[..i];
      if text[i] == '\n' {
        rows, row := rows + [row], "";
      } else {
        row := row + [text[i]];
      }
    }
    assert text[..|text|] == text;
    rows := rows + [row];
  }

  /** The longest row. */
  ghost predicate IsWidth(rows: seq<string>, width: nat) {
    (forall y | 0 <= y < |rows| :: |rows[y]| <= width) && exists y :: 0 <= y < |rows| && |rows[y]| == width
  }

  method Longest(rows: seq<string>) returns (width: nat)
    requires rows != []
    ensures IsWidth(rows, width)
  {
    width := |rows[0]|;
    for y := 1 to |rows|
      invariant forall i | 0 <= i < y :: |rows[i]| <= width
      invariant exists i :: 0 <= i < y && |rows[i]| == width
    {
      if |rows[y]| > width { width := |rows[y]|; }
    }
  }

  lemma WidthIsUnique(rows: seq<string>, a: nat, b: nat)
    requires IsWidth(rows, a) && IsWidth(rows, b)
    ensures a == b
  {
  }

  /** The symbol of a cell: short rows are padded with walls. */
  function At(rows: seq<string>, width: nat, c: Cell): Symbol
    requires width > 0
  {
    if c / width < |rows| && c % width < |rows[c / width]| then Meaning(rows[c / width][c % width]) else Wall
  }

  // ---------------------------------------------------------------- the rules a text may break

  ghost function Robots(rows: seq<string>, width: nat): set<Cell>
    requires width > 0
  {
    set c: Cell | 0 <= c < width * |rows| && At(rows, width, c).Robot?
  }

  ghost function Boxes(rows: seq<string>, width: nat): set<Cell>
    requires width > 0
  {
    set c: Cell | 0 <= c < width * |rows| && At(rows, width, c).Box?
  }

  ghost function BoxesOf(rows: seq<string>, width: nat, l: Label): set<Cell>
    requires width > 0
  {
    set c: Cell | 0 <= c < width * |rows| && At(rows, width, c) == Box(l)
  }

  ghost function GoalsOf(rows: seq<string>, width: nat, l: Label): set<Cell>
    requires width > 0
  {
    set c: Cell | 0 <= c < width * |rows| && At(rows, width, c) == Goal(l)
  }

  ghost predicate Matched(rows: seq<string>, width: nat, l: Label)
    requires width > 0
  {
    |BoxesOf(rows, width, l)| == |GoalsOf(rows, width, l)|
  }

  /** The rules on the symbols, once the rows make a rectangle of at most MAX_CELLS. */
  ghost predicate BreaksRule(rows: seq<string>, width: nat, e: ParseError)
    requires width > 0
  {
    match e
    case UnsupportedSymbol(row, column) =>
      1 <= row <= |rows| && 1 <= column <= |rows[row - 1]| && Meaning(rows[row - 1][column - 1]).Unsupported?
    case RobotCount => |Robots(rows, width)| != 1
    case BoxCount => Boxes(rows, width) == {} || |Boxes(rows, width)| > MAX_BOXES
    case UnmatchedGoals => exists l :: LABEL_A <= l <= LABEL_Z && !Matched(rows, width, l)
    case _ => false
  }

  /** The text breaks the rule `e` names. */
  ghost predicate Breaks(text: string, e: ParseError) {
    var rows := Rows(Stripped(text));
    match e
    case TooLarge => |text| > 2 * MAX_CELLS
    case CarriageReturn => '\r' in text
    case EmptyRow => "" in rows
    case TooManyCells => exists width: nat :: IsWidth(rows, width) && width * |rows| > MAX_CELLS
    case _ => exists width: nat :: IsWidth(rows, width) && width > 0 && BreaksRule(rows, width, e)
  }

  /** The order the rules are checked in; the scan meets a bad symbol or a second robot in
      reading order. */
  function Rank(e: ParseError): nat {
    match e
    case TooLarge => 0
    case CarriageReturn => 1
    case EmptyRow => 2
    case TooManyCells => 3
    case UnsupportedSymbol(_, _) => 4
    case RobotCount => 4
    case BoxCount => 5
    case UnmatchedGoals => 6
  }

  // ---------------------------------------------------------------- the scan

  type Placed = (Label, Cell)

  /** What has been read so far: tiles, the robot's cell, boxes and goals in reading order, and
      boxes less goals of each label. */
  datatype Scan = Scan(tiles: seq<nat>, player: Option<Cell>, boxes: seq<Placed>, goals: seq<(Cell, Label)>,
    counts: seq<int>)

  function LabelsOf(boxes: seq<Placed>): seq<Label> {
    seq(|boxes|, i requires 0 <= i < |boxes| => boxes[i].0)
  }

  function GoalLabels(goals: seq<(Cell, Label)>): seq<Label> {
    seq(|goals|, i requires 0 <= i < |goals| => goals[i].1)
  }

  ghost predicate TilesRead(rows: seq<string>, width: nat, k: nat, tiles: seq<nat>)
    requires width > 0
  {
    && |tiles| == width * |rows| && k <= |tiles|
    && forall c | 0 <= c < |tiles| :: tiles[c] == if c < k then TileOf(At(rows, width, c)) else WALL
  }

  ghost predicate RobotRead(rows: seq<string>, width: nat, k: nat, player: Option<Cell>)
    requires width > 0
  {
    && (player.Some? ==> player.value < k && At(rows, width, player.value).Robot?)
    && (forall c | 0 <= c < k && At(rows, width, c).Robot? :: player == Some(c))
  }

  ghost predicate BoxesRead(rows: seq<string>, width: nat, k: nat, boxes: seq<Placed>)
    requires width > 0
  {
    && (forall i | 0 <= i < |boxes| :: boxes[i].1 < k && At(rows, width, boxes[i].1) == Box(boxes[i].0))
    && (forall i, j | 0 <= i < j < |boxes| :: boxes[i].1 < boxes[j].1)
    && (forall c: Cell | 0 <= c < k && At(rows, width, c).Box? :: (At(rows, width, c).label_, c) in boxes)
  }

  ghost predicate GoalsRead(rows: seq<string>, width: nat, k: nat, goals: seq<(Cell, Label)>)
    requires width > 0
  {
    && (forall i | 0 <= i < |goals| :: goals[i].0 < k && At(rows, width, goals[i].0) == Goal(goals[i].1))
    && (forall i, j | 0 <= i < j < |goals| :: goals[i].0 < goals[j].0)
    && (forall c: Cell | 0 <= c < k && At(rows, width, c).Goal? :: (c, At(rows, width, c).label_) in goals)
  }

  ghost predicate CountsRead(boxes: seq<Placed>, goals: seq<(Cell, Label)>, counts: seq<int>) {
    |counts| == 26 && forall l: Label {:trigger Balanced(boxes, goals, counts, l)} | LABEL_A <= l <= LABEL_Z ::
      Balanced(boxes, goals, counts, l)
  }

  ghost predicate Balanced(boxes: seq<Placed>, goals: seq<(Cell, Label)>, counts: seq<int>, l: Label)
    requires |counts| == 26 && LABEL_A <= l <= LABEL_Z
  {
    counts[l - LABEL_A] + multiset(GoalLabels(goals))[l] == multiset(LabelsOf(boxes))[l]
  }

  /** The first `k` cells have been read. */
  ghost predicate Read(rows: seq<string>, width: nat, k: nat, s: Scan)
    requires width > 0
  {
    && TilesRead(rows, width, k, s.tiles) && RobotRead(rows, width, k, s.player)
    && BoxesRead(rows, width, k, s.boxes) && GoalsRead(rows, width, k, s.goals) &&
      CountsRead(s.boxes, s.goals, s.counts)
    && forall c | 0 <= c < k :: !At(rows, width, c).Unsupported?
  }

  /** Reading one cell. */
  function ReadOne(s: Scan, c: Cell, symbol: Symbol): Scan
    requires c < |s.tiles| && |s.counts| == 26 && (symbol.Goal? || symbol.Box? ==> LABEL_A <= symbol.label_ <= LABEL_Z)
  {
    var t := s.(tiles := s.tiles[c := TileOf(symbol)]);
    match symbol
    case Robot => t.(player := Some(c))
    case Goal(l) => t.(goals := s.goals + [(c, l)], counts := s.counts[l - LABEL_A := s.counts[l - LABEL_A] - 1])
    case Box(l) => t.(boxes := s.boxes + [(l, c)], counts := s.counts[l - LABEL_A := s.counts[l - LABEL_A] + 1])
    case _ => t
  }

  lemma ReadOneReads(rows: seq<string>, width: nat, k: nat, s: Scan)
    requires width > 0 && Read(rows, width, k, s) && k < width * |rows|
    requires var symbol := At(rows, width, k); !symbol.Unsupported? && (symbol.Robot? ==> s.player.None?)
    ensures Read(rows, width, k + 1, ReadOne(s, k, At(rows, width, k)))
  {
    var symbol := At(rows, width, k);
    var t := ReadOne(s, k, symbol);
    CountOneMore(s, k, symbol);
    TileOneMore(rows, width, k, s.tiles);
    RobotOneMore(rows, width, k, s.player);
    if symbol.Goal? { GoalOneMore(rows, width, k, s.goals); }
    if symbol.Box? { BoxOneMore(rows, width, k, s.boxes); }
  }

  lemma CountOneMore(s: Scan, k: nat, symbol: Symbol)
    requires k < |s.tiles| && CountsRead(s.boxes, s.goals, s.counts)
    requires symbol.Goal? || symbol.Box? ==> LABEL_A <= symbol.label_ <= LABEL_Z
    ensures var t := ReadOne(s, k, symbol); CountsRead(t.boxes, t.goals, t.counts)
  {
    var t := ReadOne(s, k, symbol);
    if symbol.Goal? { assert GoalLabels(t.goals) == GoalLabels(s.goals) + [symbol.label_]; }
    if symbol.Box? { assert LabelsOf(t.boxes) == LabelsOf(s.boxes) + [symbol.label_]; }
    forall l: Label | LABEL_A <= l <= LABEL_Z ensures Balanced(t.boxes, t.goals, t.counts, l) {
      assert Balanced(s.boxes, s.goals, s.counts, l);
    }
  }

  lemma TileOneMore(rows: seq<string>, width: nat, k: nat, tiles: seq<nat>)
    requires width > 0 && TilesRead(rows, width, k, tiles) && k < |tiles|
    ensures TilesRead(rows, width, k + 1, tiles[k := TileOf(At(rows, width, k))])
  {
  }

  lemma RobotOneMore(rows: seq<string>, width: nat, k: nat, player: Option<Cell>)
    requires width > 0 && RobotRead(rows, width, k, player) && (At(rows, width, k).Robot? ==> player.None?)
    ensures RobotRead(rows, width, k + 1, if At(rows, width, k).Robot? then Some(k) else player)
  {
  }

  lemma GoalOneMore(rows: seq<string>, width: nat, k: nat, goals: seq<(Cell, Label)>)
    requires width > 0 && GoalsRead(rows, width, k, goals) && At(rows, width, k).Goal?
    ensures GoalsRead(rows, width, k + 1, goals + [(k, At(rows, width, k).label_)])
  {
  }

  lemma BoxOneMore(rows: seq<string>, width: nat, k: nat, boxes: seq<Placed>)
    requires width > 0 && BoxesRead(rows, width, k, boxes) && At(rows, width, k).Box?
    ensures BoxesRead(rows, width, k + 1, boxes + [(At(rows, width, k).label_, k)])
  {
  }

  /** Padding reads as walls. */
  lemma PaddingReads(rows: seq<string>, width: nat, k: nat, end: nat, s: Scan)
    requires width > 0 && Read(rows, width, k, s) && k <= end <= width * |rows|
    requires forall c | k <= c < end :: At(rows, width, c) == Wall
    ensures Read(rows, width, end, s)
  {
  }

  lemma NothingRead(rows: seq<string>, width: nat, s: Scan)
    requires width > 0 && s == Scan(seq(width * |rows|, _ => WALL), None, [], [], seq(26, _ => 0))
    ensures Read(rows, width, 0, s)
  {
    assert LabelsOf([]) == [] && GoalLabels([]) == [];
  }

  lemma SymbolAt(rows: seq<string>, width: nat, x: nat, y: nat)
    requires y < |rows| && x < |rows[y]| <= width
    ensures At(rows, width, y * width + x) == Meaning(rows[y][x]) && y * width + x < width * |rows|
  {
    Numbered(width, x, y);
    RowBound(width, |rows|, x, y);
  }

  lemma PaddingAt(rows: seq<string>, width: nat, y: nat, c: Cell)
    requires y < |rows| && |rows[y]| <= width && width > 0 && y * width + |rows[y]| <= c < (y + 1) * width
    ensures At(rows, width, c) == Wall
  {
    var x: nat := c - y * width;
    assert (y + 1) * width == y * width + width;
    Numbered(width, x, y);
    assert c == y * width + x;
  }

  /** Reads one row's symbols. */
  method ReadRow(rows: seq<string>, width: nat, y: nat, s0: Scan) returns (s: Scan, error: Option<ParseError>)
    requires IsWidth(rows, width) && width > 0 && y < |rows| && Read(rows, width, y * width, s0)
    ensures error.None? ==> Read(rows, width, (y + 1) * width, s)
    ensures error.Some? ==> BreaksRule(rows, width, error.value) && Rank(error.value) == 4
  {
    s := s0;
    for x := 0 to |rows[y]|
      invariant Read(rows, width, y * width + x, s)
    {
      var cell: Cell := y * width + x;
      var symbol := Meaning(rows[y][x]);
      SymbolAt(rows, width, x, y);
      if symbol.Unsupported? { return s, Some(UnsupportedSymbol(y + 1, x + 1)); }
      if symbol.Robot? && s.player.Some? {
        TwoRobots(rows, width, s.player.value, cell);
        return s, Some(RobotCount);
      }
      ReadOneReads(rows, width, cell, s);
      s := ReadOne(s, cell, symbol);
    }
    forall c | y * width + |rows[y]| <= c < (y + 1) * width ensures At(rows, width, c) == Wall {
      PaddingAt(rows, width, y, c);
    }
    RowEnd(width, |rows|, y, |rows[y]|);
    PaddingReads(rows, width, y * width + |rows[y]|, (y + 1) * width, s);
    error := None;
  }

  lemma RowEnd(width: nat, height: nat, y: nat, x: nat)
    requires y < height && x <= width
    ensures y * width + x <= (y + 1) * width <= width * height
  {
    assert (y + 1) * width == y * width + width;
    assert (y + 1) * width <= height * width;
  }

  lemma TwoRobots(rows: seq<string>, width: nat, a: Cell, b: Cell)
    requires width > 0 && a < b < width * |rows| && At(rows, width, a).Robot? && At(rows, width, b).Robot?
    ensures |Robots(rows, width)| != 1
  {
    SubsetSize({a, b}, Robots(rows, width));
  }

  /** Reads every cell in row-major order. */
  method ReadAll(rows: seq<string>, width: nat) returns (s: Scan, error: Option<ParseError>)
    requires IsWidth(rows, width) && width > 0
    ensures error.None? ==> Read(rows, width, width * |rows|, s)
    ensures error.Some? ==> BreaksRule(rows, width, error.value) && Rank(error.value) == 4
  {
    s := Scan(seq(width * |rows|, _ => WALL), None, [], [], seq(26, _ => 0));
    NothingRead(rows, width, s);
    for y := 0 to |rows|
      invariant Read(rows, width, y * width, s)
    {
      s, error := ReadRow(rows, width, y, s);
      if error.Some? { return; }
    }
    assert |rows| * width == width * |rows|;
    error := None;
  }

  // ---------------------------------------------------------------- counting

  /** The cells a list places label `l` on. */
  ghost function CellsWith(boxes: seq<Placed>, l: Label): set<Cell> {
    set p | p in boxes && p.0 == l :: p.1
  }

  lemma CellsWithOneMore(init: seq<Placed>, last: Placed, l: Label)
    ensures CellsWith(init + [last], l) == CellsWith(init, l) + (if last.0 == l then {last.1} else {})
  {
    var boxes := init + [last];
    forall c | c in CellsWith(init, l) + (if last.0 == l then {last.1} else {}) ensures c in CellsWith(boxes, l) {
      assert (l, c) in init || (l, c) == last;
      assert (l, c) in boxes;
    }
  }

  lemma {:induction false} LabelCells(boxes: seq<Placed>, l: Label)
    requires forall i, j | 0 <= i < j < |boxes| :: boxes[i].1 != boxes[j].1
    ensures |CellsWith(boxes, l)| == multiset(LabelsOf(boxes))[l]
    decreases |boxes|
  {
    if boxes == [] {
      assert LabelsOf(boxes) == [];
      assert CellsWith(boxes, l) == {};
    } else {
      var init, last := boxes[..|boxes| - 1], boxes[|boxes| - 1];
      LabelCells(init, l);
      assert boxes == init + [last];
      CellsWithOneMore(init, last, l);
      assert LabelsOf(boxes) == LabelsOf(init) + [last.0];
      assert last.1 !in CellsWith(init, l);
    }
  }

  ghost function SlotsWith(labels: seq<Label>, l: Label): set<nat> {
    set i: nat | 0 <= i < |labels| && labels[i] == l
  }

  lemma {:induction false} SlotCount(labels: seq<Label>, l: Label)
    ensures |SlotsWith(labels, l)| == multiset(labels)[l]
    decreases |labels|
  {
    if labels == [] {
      assert SlotsWith(labels, l) == {};
    } else {
      var init, last := labels[..|labels| - 1], labels[|labels| - 1];
      SlotCount(init, l);
      assert labels == init + [last];
      assert SlotsWith(labels, l) == if last == l then SlotsWith(init, l) + {|init|} else SlotsWith(init, l);
    }
  }

  function Flipped(goals: seq<(Cell, Label)>): seq<Placed> {
    seq(|goals|, i requires 0 <= i < |goals| => (goals[i].1, goals[i].0))
  }

  /** The symbols of a label, counted by the lists that hold them. */
  lemma CountedCells(rows: seq<string>, width: nat, s: Scan, l: Label)
    requires width > 0 && Read(rows, width, width * |rows|, s)
    ensures |BoxesOf(rows, width, l)| == multiset(LabelsOf(s.boxes))[l]
    ensures |GoalsOf(rows, width, l)| == multiset(GoalLabels(s.goals))[l]
  {
    LabelCells(s.boxes, l);
    BoxCellsOf(rows, width, s, l);
    var flipped := Flipped(s.goals);
    assert LabelsOf(flipped) == GoalLabels(s.goals);
    LabelCells(flipped, l);
    GoalCellsOf(rows, width, s, l);
  }

  lemma BoxCellsOf(rows: seq<string>, width: nat, s: Scan, l: Label)
    requires width > 0 && Read(rows, width, width * |rows|, s)
    ensures BoxesOf(rows, width, l) == CellsWith(s.boxes, l)
  {
    forall c | c in BoxesOf(rows, width, l) ensures c in CellsWith(s.boxes, l) {
      assert (At(rows, width, c).label_, c) in s.boxes;
    }
    forall c | c in CellsWith(s.boxes, l) ensures c in BoxesOf(rows, width, l) {
      var i :| 0 <= i < |s.boxes| && s.boxes[i] == (l, c);
    }
  }

  lemma GoalCellsOf(rows: seq<string>, width: nat, s: Scan, l: Label)
    requires width > 0 && Read(rows, width, width * |rows|, s)
    ensures GoalsOf(rows, width, l) == CellsWith(Flipped(s.goals), l)
  {
    var flipped := Flipped(s.goals);
    forall c | c in GoalsOf(rows, width, l) ensures (l, c) in flipped {
      assert (c, At(rows, width, c).label_) in s.goals;
      var i :| 0 <= i < |s.goals| && s.goals[i] == (c, l);
      assert flipped[i] == (l, c);
    }
    forall p | p in flipped && p.0 == l ensures p.1 in GoalsOf(rows, width, l) {
      var i :| 0 <= i < |flipped| && flipped[i] == p;
      assert s.goals[i] == (p.1, l);
    }
  }

  lemma AllBoxes(rows: seq<string>, width: nat, s: Scan)
    requires width > 0 && Read(rows, width, width * |rows|, s)
    ensures |Boxes(rows, width)| == |s.boxes|
  {
    var cells: seq<Cell> := seq(|s.boxes|, i requires 0 <= i < |s.boxes| => s.boxes[i].1);
    DistinctSize(cells);
    forall c | c in Boxes(rows, width) ensures c in cells {
      assert (At(rows, width, c).label_, c) in s.boxes;
      var i :| 0 <= i < |s.boxes| && s.boxes[i] == (At(rows, width, c).label_, c);
      assert cells[i] == c;
    }
    assert Boxes(rows, width) == CellSet(cells);
  }

  lemma OneRobot(rows: seq<string>, width: nat, s: Scan)
    requires width > 0 && Read(rows, width, width * |rows|, s)
    ensures |Robots(rows, width)| == 1 <==> s.player.Some?
  {
    if s.player.Some? {
      assert Robots(rows, width) == {s.player.value};
    } else {
      assert Robots(rows, width) == {};
    }
  }

  // ---------------------------------------------------------------- box slots

  predicate Before(a: Placed, b: Placed) {
    a.0 < b.0 || (a.0 == b.0 && a.1 <= b.1)
  }

  predicate Sorted(boxes: seq<Placed>) {
    forall i, j | 0 <= i < j < |boxes| :: Before(boxes[i], boxes[j])
  }

  /** Box slots in label order, a label's in cell order. */
  method SortBoxes(boxes: seq<Placed>) returns (r: seq<Placed>)
    ensures Sorted(r) && multiset(r) == multiset(boxes) && multiset(LabelsOf(r)) == multiset(LabelsOf(boxes))
  {
    r := [];
    assert LabelsOf(r) == [] && LabelsOf(boxes[..0]) == [];
    for k := 0 to |boxes|
      invariant Sorted(r) && multiset(r) == multiset(boxes[..k])
      invariant multiset(LabelsOf(r)) == multiset(LabelsOf(boxes[..k]))
    {
      assert boxes[..k + 1] == boxes[..k] + [boxes[k]];
      assert LabelsOf(boxes[..k + 1]) == LabelsOf(boxes[..k]) + [boxes[k].0];
      r := InsertBox(r, boxes[k]);
    }
    assert boxes[..|boxes|] == boxes;
  }

  method InsertBox(sorted: seq<Placed>, x: Placed) returns (r: seq<Placed>)
    requires Sorted(sorted)
    ensures Sorted(r) && multiset(r) == multiset(sorted) + multiset{x}
    ensures multiset(LabelsOf(r)) == multiset(LabelsOf(sorted)) + multiset{x.0}
  {
    var p := |sorted|;
    while p > 0 && !Before(sorted[p - 1], x)
      invariant 0 <= p <= |sorted| && forall i | p <= i < |sorted| :: Before(x, sorted[i])
    {
      p := p - 1;
    }
    r := sorted[..p] + [x] + sorted[p..];
    InsertedLabels(sorted, x, p);
    InsertedSorted(sorted, x, p);
    assert sorted == sorted[..p] + sorted[p..];
  }

  lemma InsertedLabels(sorted: seq<Placed>, x: Placed, p: nat)
    requires p <= |sorted|
    ensures multiset(LabelsOf(sorted[..p] + [x] + sorted[p..])) == multiset(LabelsOf(sorted)) + multiset{x.0}
  {
    var head, tail := LabelsOf(sorted[..p]), LabelsOf(sorted[p..]);
    assert LabelsOf(sorted[..p] + [x] + sorted[p..]) == head + [x.0] + tail;
    assert LabelsOf(sorted) == head + tail;
  }

  lemma InsertedSorted(sorted: seq<Placed>, x: Placed, p: nat)
    requires Sorted(sorted) && p <= |sorted| && (p > 0 ==> Before(sorted[p - 1], x))
    requires forall i | p <= i < |sorted| :: Before(x, sorted[i])
    ensures Sorted(sorted[..p] + [x] + sorted[p..])
  {
    var r := sorted[..p] + [x] + sorted[p..];
    forall i, j | 0 <= i < j < |r| ensures Before(r[i], r[j]) {
      if i < p && j == p && i < p - 1 { assert Before(sorted[i], sorted[p - 1]); }
      assert i < p ==> r[i] == sorted[i];
      assert i > p ==> r[i] == sorted[i - 1];
      assert j < p ==> r[j] == sorted[j];
      assert j > p ==> r[j] == sorted[j - 1];
    }
  }

  // ---------------------------------------------------------------- the table

  /** One cell's row of the table: its neighbours that are no wall. */
  function TableRow(width: nat, height: nat, tiles: seq<nat>, c: Cell): seq<Cell>
    requires width > 0 && |tiles| == width * height
  {
    if c < |tiles| && tiles[c] == WALL then [NONE, NONE, NONE, NONE]
    else [Entry(width, height, tiles, c, 0), Entry(width, height, tiles, c, 1), Entry(width, height, tiles, c, 2),
      Entry(width, height, tiles, c, 3)]
  }

  method BuildTable(width: nat, height: nat, tiles: seq<nat>) returns (table: seq<seq<Cell>>)
    requires width > 0 && |tiles| == width * height
    ensures |table| == |tiles|
    ensures forall c | 0 <= c < |table| :: table[c] == TableRow(width, height, tiles, c)
  {
    table := [];
    for c := 0 to |tiles|
      invariant |table| == c && forall i | 0 <= i < c :: table[i] == TableRow(width, height, tiles, i)
    {
      table := table + [TableRow(width, height, tiles, c)];
    }
  }

  // ---------------------------------------------------------------- the board

  /** The board says what its text says: every tile its cell's symbol, the robot and each box on
      their own, the boxes of one label and the goals in reading order. */
  ghost predicate Depicts(b: Board, rows: seq<string>, width: nat)
    requires width > 0
  {
    && b.width == width && b.height == |rows| && |b.tiles| == width * |rows|
    && (forall c | 0 <= c < |b.tiles| :: b.tiles[c] == TileOf(At(rows, width, c)))
    && b.initial.player < |b.tiles| && At(rows, width, b.initial.player).Robot?
    && |b.initial.boxes| == |b.labels|
    && (forall i | 0 <= i < |b.labels| ::
      b.initial.boxes[i] < |b.tiles| && At(rows, width, b.initial.boxes[i]) == Box(b.labels[i]))
    && (forall c: Cell | 0 <= c < |b.tiles| && At(rows, width, c).Box? :: c in b.initial.boxes)
    && (forall i, j | 0 <= i < j < |b.labels| && b.labels[i] == b.labels[j] :: b.initial.boxes[i] < b.initial.boxes[j])
    && (forall i, j | 0 <= i < j < |b.goals| :: b.goals[i].0 < b.goals[j].0)
  }

  function BoardOf(width: nat, height: nat, s: Scan, boxes: seq<Placed>, table: seq<seq<Cell>>, player: Cell): Board {
    Board(width, height, table, s.tiles, LabelsOf(boxes), s.goals,
      State(player, seq(|boxes|, i requires 0 <= i < |boxes| => boxes[i].1)))
  }

  lemma MatchedCounts(rows: seq<string>, width: nat, s: Scan, l: Label)
    requires width > 0 && Read(rows, width, width * |rows|, s) && LABEL_A <= l <= LABEL_Z
    ensures s.counts[l - LABEL_A] == 0 <==> Matched(rows, width, l)
  {
    CountedCells(rows, width, s, l);
    assert Balanced(s.boxes, s.goals, s.counts, l);
  }

  lemma SortedBoxes(rows: seq<string>, width: nat, s: Scan, boxes: seq<Placed>)
    requires width > 0 && Read(rows, width, width * |rows|, s) && multiset(boxes) == multiset(s.boxes)
    ensures forall i | 0 <= i < |boxes| :: boxes[i] in s.boxes
    ensures forall p | p in s.boxes :: p in boxes
    ensures forall i, j | 0 <= i < j < |boxes| :: boxes[i].1 != boxes[j].1
    ensures |boxes| == |s.boxes|
  {
    assert |boxes| == |multiset(boxes)| == |s.boxes|;
    forall i | 0 <= i < |boxes| ensures boxes[i] in s.boxes { assert boxes[i] in multiset(boxes); }
    forall p | p in s.boxes ensures p in boxes { assert p in multiset(s.boxes); }
    forall i, j | 0 <= i < j < |boxes| ensures boxes[i].1 != boxes[j].1 {
      assert boxes[i] in s.boxes && boxes[j] in s.boxes;
      if boxes[i].1 == boxes[j].1 {
        assert boxes[i] == boxes[j];
        TwiceIn(boxes, i, j);
        OnceIn(s.boxes, boxes[i]);
      }
    }
  }

  lemma TwiceIn(boxes: seq<Placed>, i: nat, j: nat)
    requires i < j < |boxes| && boxes[i] == boxes[j]
    ensures multiset(boxes)[boxes[i]] >= 2
  {
    assert boxes == boxes[..j] + boxes[j..];
    assert boxes[i] in boxes[..j] && boxes[j] in boxes[j..];
    assert multiset(boxes)[boxes[i]] == multiset(boxes[..j])[boxes[i]] + multiset(boxes[j..])[boxes[i]];
  }

  lemma {:induction false} OnceIn(boxes: seq<Placed>, p: Placed)
    requires forall i, j | 0 <= i < j < |boxes| :: boxes[i].1 != boxes[j].1
    ensures multiset(boxes)[p] <= 1
    decreases |boxes|
  {
    if boxes != [] {
      var init, last := boxes[..|boxes| - 1], boxes[|boxes| - 1];
      assert boxes == init + [last];
      OnceIn(init, p);
      assert last !in init;
    }
  }

  lemma BoardIsValid(rows: seq<string>, width: nat, s: Scan, boxes: seq<Placed>, table: seq<seq<Cell>>)
    requires width > 0 && Read(rows, width, width * |rows|, s) && width * |rows| <= MAX_CELLS && s.player.Some?
    requires multiset(boxes) == multiset(s.boxes) && multiset(LabelsOf(boxes)) == multiset(LabelsOf(s.boxes))
    requires Sorted(boxes)
    requires 1 <= |boxes| <= MAX_BOXES && forall r | 0 <= r < 26 :: s.counts[r] == 0
    requires |table| == |s.tiles| && forall c | 0 <= c < |table| :: table[c] == TableRow(width, |rows|, s.tiles, c)
    ensures var b := BoardOf(width, |rows|, s, boxes, table, s.player.value);
            Gridded(b) && b.Valid() && ValidState(b, b.initial) && Depicts(b, rows, width)
  {
    var b := BoardOf(width, |rows|, s, boxes, table, s.player.value);
    SortedBoxes(rows, width, s, boxes);
    TableIsGridded(rows, width, s, boxes, table);
    GriddedIsValid(b);
    BoardDepicts(rows, width, s, boxes, table);
    LabelsMatch(rows, width, s, boxes, table);
    GoalsListed(rows, width, s, b);
  }

  lemma TableIsGridded(rows: seq<string>, width: nat, s: Scan, boxes: seq<Placed>, table: seq<seq<Cell>>)
    requires width > 0 && |s.tiles| == width * |rows| <= MAX_CELLS && s.player.Some?
    requires |table| == |s.tiles| && forall c | 0 <= c < |table| :: table[c] == TableRow(width, |rows|, s.tiles, c)
    ensures Gridded(BoardOf(width, |rows|, s, boxes, table, s.player.value))
  {
  }

  lemma BoardDepicts(rows: seq<string>, width: nat, s: Scan, boxes: seq<Placed>, table: seq<seq<Cell>>)
    requires width > 0 && Read(rows, width, width * |rows|, s) && s.player.Some?
    requires forall i | 0 <= i < |boxes| :: boxes[i] in s.boxes
    requires forall p | p in s.boxes :: p in boxes
    requires Sorted(boxes) && forall i, j | 0 <= i < j < |boxes| :: boxes[i].1 != boxes[j].1
    ensures var b := BoardOf(width, |rows|, s, boxes, table, s.player.value);
            Depicts(b, rows, width) && ValidState(b, b.initial)
  {
    var b := BoardOf(width, |rows|, s, boxes, table, s.player.value);
    BoxesDepicted(rows, width, s, boxes);
    BoxesOrdered(boxes, b);
    forall c: Cell | 0 <= c < |b.tiles| && At(rows, width, c).Box? ensures c in b.initial.boxes {
      BoxIsRead(rows, width, s, boxes, b, c);
    }
  }

  lemma BoxesDepicted(rows: seq<string>, width: nat, s: Scan, boxes: seq<Placed>)
    requires width > 0 && Read(rows, width, width * |rows|, s)
    requires forall i | 0 <= i < |boxes| :: boxes[i] in s.boxes
    ensures forall i | 0 <= i < |boxes| ::
              boxes[i].1 < width * |rows| && At(rows, width, boxes[i].1) == Box(boxes[i].0)
  {
    forall i | 0 <= i < |boxes|
      ensures boxes[i].1 < width * |rows| && At(rows, width, boxes[i].1) == Box(boxes[i].0)
    {
      var j :| 0 <= j < |s.boxes| && s.boxes[j] == boxes[i];
    }
  }

  lemma BoxesOrdered(boxes: seq<Placed>, b: Board)
    requires Sorted(boxes) && b.labels == LabelsOf(boxes) && |b.initial.boxes| == |boxes|
    requires forall i | 0 <= i < |boxes| :: b.initial.boxes[i] == boxes[i].1
    requires forall i, j | 0 <= i < j < |boxes| :: boxes[i].1 != boxes[j].1
    ensures forall i, j | 0 <= i < j < |b.labels| && b.labels[i] == b.labels[j] ::
              b.initial.boxes[i] < b.initial.boxes[j]
  {
    forall i, j | 0 <= i < j < |b.labels| && b.labels[i] == b.labels[j]
      ensures b.initial.boxes[i] < b.initial.boxes[j]
    {
      assert Before(boxes[i], boxes[j]);
    }
  }

  lemma BoxIsRead(rows: seq<string>, width: nat, s: Scan, boxes: seq<Placed>, b: Board, c: Cell)
    requires width > 0 && Read(rows, width, width * |rows|, s) && c < width * |rows| && At(rows, width, c).Box?
    requires forall p | p in s.boxes :: p in boxes
    requires |b.initial.boxes| == |boxes| && forall i | 0 <= i < |boxes| :: b.initial.boxes[i] == boxes[i].1
    ensures c in b.initial.boxes
  {
    var p := (At(rows, width, c).label_, c);
    assert p in s.boxes;
    var i :| 0 <= i < |boxes| && boxes[i] == p;
    assert b.initial.boxes[i] == c;
  }

  lemma LabelsMatch(rows: seq<string>, width: nat, s: Scan, boxes: seq<Placed>, table: seq<seq<Cell>>)
    requires width > 0 && Read(rows, width, width * |rows|, s) && s.player.Some?
    requires multiset(LabelsOf(boxes)) == multiset(LabelsOf(s.boxes)) && Sorted(boxes)
    requires forall i | 0 <= i < |boxes| :: boxes[i] in s.boxes
    requires 1 <= |boxes| <= MAX_BOXES && forall r | 0 <= r < 26 :: s.counts[r] == 0
    ensures BoardOf(width, |rows|, s, boxes, table, s.player.value).ValidLabels()
  {
    var b := BoardOf(width, |rows|, s, boxes, table, s.player.value);
    forall l | LABEL_A <= l <= LABEL_Z ensures |b.Goals(l)| == |b.Slots(l)| {
      GoalsMatchSlots(rows, width, s, b, l);
    }
    forall i | 0 <= i < |b.labels| ensures LABEL_A <= b.labels[i] <= LABEL_Z {
      var j :| 0 <= j < |s.boxes| && s.boxes[j] == boxes[i];
      assert At(rows, width, boxes[i].1) == Box(boxes[i].0);
      LabelInRange(rows, width, boxes[i].1);
    }
    forall i, j | 0 <= i <= j < |b.labels| ensures b.labels[i] <= b.labels[j] {
      if i < j { assert Before(boxes[i], boxes[j]); }
    }
    forall c | 0 <= c < |b.tiles| ensures b.tiles[c] == FLOOR || b.tiles[c] == WALL ||
      LABEL_A <= b.tiles[c] <= LABEL_Z {
      LabelInRange(rows, width, c);
    }
  }

  lemma GoalsMatchSlots(rows: seq<string>, width: nat, s: Scan, b: Board, l: Label)
    requires width > 0 && Read(rows, width, width * |rows|, s) && LABEL_A <= l <= LABEL_Z
    requires s.counts[l - LABEL_A] == 0 && b.tiles == s.tiles && multiset(b.labels) == multiset(LabelsOf(s.boxes))
    ensures |b.Goals(l)| == |b.Slots(l)|
  {
    CountedCells(rows, width, s, l);
    MatchedCounts(rows, width, s, l);
    SlotCount(b.labels, l);
    assert b.Slots(l) == SlotsWith(b.labels, l);
    GoalTiles(rows, width, s, b, l);
  }

  lemma GoalTiles(rows: seq<string>, width: nat, s: Scan, b: Board, l: Label)
    requires width > 0 && Read(rows, width, width * |rows|, s) && LABEL_A <= l <= LABEL_Z && b.tiles == s.tiles
    ensures b.Goals(l) == GoalsOf(rows, width, l)
  {
  }

  lemma LabelInRange(rows: seq<string>, width: nat, c: Cell)
    requires width > 0
    ensures At(rows, width, c).Goal? || At(rows, width, c).Box? ==> LABEL_A <= At(rows, width, c).label_ <= LABEL_Z
  {
  }

  lemma GoalsListed(rows: seq<string>, width: nat, s: Scan, b: Board)
    requires width > 0 && Read(rows, width, width * |rows|, s) && b.tiles == s.tiles && b.goals == s.goals
    ensures b.ValidGoals()
  {
    forall k | 0 <= k < |b.goals|
      ensures b.goals[k].0 < |b.tiles| && b.tiles[b.goals[k].0] == b.goals[k].1 && LABEL_A <= b.goals[k].1 <= LABEL_Z
    {
      LabelInRange(rows, width, b.goals[k].0);
    }
    forall c: Cell | 0 <= c < |b.tiles| && LABEL_A <= b.tiles[c] <= LABEL_Z ensures (c, b.tiles[c]) in b.goals {
      assert At(rows, width, c).Goal?;
    }
  }

  /** The board of rows that make a rectangle, or the first rule their symbols break. */
  method ParseRows(rows: seq<string>, width: nat) returns (r: Parsed)
    requires IsWidth(rows, width) && width > 0 && width * |rows| <= MAX_CELLS
    ensures r.Ok? ==> Gridded(r.board) && r.board.Valid() && ValidState(r.board, r.board.initial)
    ensures r.Ok? ==> Depicts(r.board, rows, width)
    ensures r.Ok? ==> forall e :: !BreaksRule(rows, width, e)
    ensures r.Err? ==> BreaksRule(rows, width, r.error)
    ensures r.Err? ==> Rank(r.error) >= 4 && forall e | Rank(e) < Rank(r.error) :: !BreaksRule(rows, width, e)
  {
    var s, error := ReadAll(rows, width);
    if error.Some? { return Err(error.value); }
    OneRobot(rows, width, s);
    AllBoxes(rows, width, s);
    NoBadSymbol(rows, width, s);
    if s.player.None? { return Err(RobotCount); }
    if |s.boxes| == 0 || |s.boxes| > MAX_BOXES { return Err(BoxCount); }
    var matched := AllMatched(rows, width, s);
    if !matched { return Err(UnmatchedGoals); }
    r := Assemble(rows, width, s);
    NoRuleBroken(rows, width, s);
  }

  /** Whether every label's count came out even. */
  method AllMatched(rows: seq<string>, width: nat, s: Scan) returns (matched: bool)
    requires width > 0 && Read(rows, width, width * |rows|, s)
    ensures matched ==> forall r | 0 <= r < 26 :: s.counts[r] == 0
    ensures !matched ==> BreaksRule(rows, width, UnmatchedGoals)
  {
    for k := 0 to 26
      invariant forall i | 0 <= i < k :: s.counts[i] == 0
    {
      if s.counts[k] != 0 {
        MatchedCounts(rows, width, s, k + LABEL_A);
        return false;
      }
    }
    matched := true;
  }

  /** The board a clean scan makes. */
  method Assemble(rows: seq<string>, width: nat, s: Scan) returns (r: Parsed)
    requires width > 0 && Read(rows, width, width * |rows|, s) && width * |rows| <= MAX_CELLS && s.player.Some?
    requires 1 <= |s.boxes| <= MAX_BOXES && forall r | 0 <= r < 26 :: s.counts[r] == 0
    ensures r.Ok? && Gridded(r.board) && r.board.Valid() && ValidState(r.board, r.board.initial)
    ensures Depicts(r.board, rows, width)
  {
    var boxes := SortBoxes(s.boxes);
    var table := BuildTable(width, |rows|, s.tiles);
    assert |boxes| == |multiset(boxes)| == |s.boxes|;
    BoardIsValid(rows, width, s, boxes, table);
    r := Ok(BoardOf(width, |rows|, s, boxes, table, s.player.value));
  }

  lemma NoRuleBroken(rows: seq<string>, width: nat, s: Scan)
    requires IsWidth(rows, width) && width > 0 && Read(rows, width, width * |rows|, s) && s.player.Some?
    requires 1 <= |s.boxes| <= MAX_BOXES && forall r | 0 <= r < 26 :: s.counts[r] == 0
    ensures forall e :: !BreaksRule(rows, width, e)
  {
    OneRobot(rows, width, s);
    AllBoxes(rows, width, s);
    NoBadSymbol(rows, width, s);
    forall l | LABEL_A <= l <= LABEL_Z ensures Matched(rows, width, l) {
      MatchedCounts(rows, width, s, l);
    }
  }

  lemma NoBadSymbol(rows: seq<string>, width: nat, s: Scan)
    requires IsWidth(rows, width) && width > 0 && Read(rows, width, width * |rows|, s)
    ensures forall row, column :: !BreaksRule(rows, width, UnsupportedSymbol(row, column))
  {
    forall y: nat, x: nat | y < |rows| && x < |rows[y]| ensures !Meaning(rows[y][x]).Unsupported? {
      SymbolAt(rows, width, x, y);
    }
  }

  /** Parses puzzle text. A board it returns is valid and says what the text says, and the text
      breaks no rule; an error names a rule the text breaks, and none checked before it is
      broken. */
  method Parse(text: string) returns (r: Parsed)
    ensures r.Ok? ==> r.board.Valid() && Gridded(r.board) && ValidState(r.board, r.board.initial)
    ensures r.Ok? ==> r.board.width > 0 && IsWidth(Rows(Stripped(text)), r.board.width)
    ensures r.Ok? ==> Depicts(r.board, Rows(Stripped(text)), r.board.width)
    ensures r.Ok? ==> forall e :: !Breaks(text, e)
    ensures r.Err? ==> Breaks(text, r.error) && forall e | Rank(e) < Rank(r.error) :: !Breaks(text, e)
    ensures r == Err(TooLarge) <==> |text| > 8192
    ensures r == Err(CarriageReturn) <==> |text| <= 8192 && '\r' in text
    ensures r == Err(EmptyRow) <==> |text| <= 8192 && '\r' !in text && "" in Rows(Stripped(text))
    ensures r == Err(TooManyCells) <==>
              |text| <= 8192 && '\r' !in text && "" !in Rows(Stripped(text)) &&
              exists y :: 0 <= y < |Rows(Stripped(text))| &&
                |Rows(Stripped(text))[y]| * |Rows(Stripped(text))| > 4096
  {
    if |text| > 2 * MAX_CELLS { return Err(TooLarge); }
    if '\r' in text { return Err(CarriageReturn); }
    var rows := SplitRows(Stripped(text));
    if "" in rows { return Err(EmptyRow); }
    var width := Longest(rows);
    WidestCounts(rows, width);
    if width * |rows| > MAX_CELLS { return Err(TooManyCells); }
    assert width > 0 by {
      assert rows[0] != "";
    }
    NothingBroken(text, rows, width);
    r := ParseRows(rows, width);
  }

  lemma WidestCounts(rows: seq<string>, width: nat)
    requires IsWidth(rows, width)
    ensures width * |rows| > MAX_CELLS <==> exists y :: 0 <= y < |rows| && |rows[y]| * |rows| > MAX_CELLS
  {
    forall y | 0 <= y < |rows| ensures |rows[y]| * |rows| <= width * |rows| { Scale(|rows[y]|, width, |rows|); }
  }

  lemma NothingBroken(text: string, rows: seq<string>, width: nat)
    requires rows == Rows(Stripped(text)) && IsWidth(rows, width) && width > 0
    requires |text| <= 2 * MAX_CELLS && '\r' !in text && "" !in rows && width * |rows| <= MAX_CELLS
    ensures forall e :: Breaks(text, e) <==> BreaksRule(rows, width, e)
  {
    forall w: nat | IsWidth(rows, w) ensures w == width {
      WidthIsUnique(rows, w, width);
    }
  }

  // ---------------------------------------------------------------- checking a state

  datatype StateError =
    | PlayerOutOfBounds(cell: Cell)
    | PlayerOnWall(cell: Cell)
    | BoxOutOfBounds(index: nat, cell: Cell)
    | BoxOnWall(index: nat, cell: Cell)
    | PlayerOnBox(index: nat, cell: Cell)
    | OverlappingBoxes(first: nat, second: nat, cell: Cell)
    | InactiveBox(index: nat, cell: Cell)

  /** The state breaks the rule `e` names, at the cells and slots it names. */
  ghost predicate Faults(b: Board, player: Cell, slots: seq<Cell>, e: StateError)
    requires |b.labels| <= |slots|
  {
    match e
    case PlayerOutOfBounds(cell) => cell == player && |b.tiles| <= player
    case PlayerOnWall(cell) => cell == player < |b.tiles| && b.tiles[player] == WALL
    case BoxOutOfBounds(index, cell) => index < |b.labels| && slots[index] == cell && |b.tiles| <= cell
    case BoxOnWall(index, cell) => index < |b.labels| && slots[index] == cell < |b.tiles| && b.tiles[cell] == WALL
    case PlayerOnBox(index, cell) => index < |b.labels| && slots[index] == cell == player
    case OverlappingBoxes(first, second, cell) =>
      first < second < |b.labels| && slots[first] == cell == slots[second] && cell !in slots[..first]
    case InactiveBox(index, cell) => |b.labels| <= index < |slots| && slots[index] == cell != NONE
  }

  /** The order the rules are checked in: the player's, then slot by slot. */
  function Stage(e: StateError): nat {
    match e
    case PlayerOutOfBounds(_) => 0
    case PlayerOnWall(_) => 1
    case BoxOutOfBounds(index, _) => 4 * index + 2
    case BoxOnWall(index, _) => 4 * index + 3
    case PlayerOnBox(index, _) => 4 * index + 4
    case OverlappingBoxes(_, second, _) => 4 * second + 5
    case InactiveBox(index, _) => 4 * index + 2
  }

  /** Nothing is wrong with the player and the slots before `i`. */
  ghost predicate SoundBefore(b: Board, player: Cell, slots: seq<Cell>, i: nat)
    requires |b.labels| <= |slots|
  {
    && b.Floor(player) && i <= |slots|
    && (forall j | 0 <= j < i && j < |b.labels| :: b.Floor(slots[j]) && slots[j] != player)
    && (forall j, k | 0 <= j < k < i && k < |b.labels| :: slots[j] != slots[k])
    && (forall j | |b.labels| <= j < i :: slots[j] == NONE)
  }

  lemma NothingEarlier(b: Board, player: Cell, slots: seq<Cell>, i: nat, e: StateError)
    requires |b.labels| <= |slots| && SoundBefore(b, player, slots, i) && Faults(b, player, slots, e)
    ensures Stage(e) >= 4 * i + 2
  {
  }

  /** The first broken rule of a state whose slots past its boxes should be empty; None exactly
      when the state is valid. */
  method ValidateState(b: Board, player: Cell, slots: seq<Cell>) returns (e: Option<StateError>)
    requires |b.labels| <= |slots| == MAX_BOXES
    ensures e.None? <==>
              ValidState(b, State(player, slots[..|b.labels|])) && forall i | |b.labels| <= i < |slots| ::
                slots[i] == NONE
    ensures e.Some? ==> Faults(b, player, slots, e.value)
    ensures e.Some? ==> forall f | Faults(b, player, slots, f) :: Stage(e.value) <= Stage(f)
  {
    if player >= |b.tiles| { return Some(PlayerOutOfBounds(player)); }
    if b.tiles[player] == WALL { return Some(PlayerOnWall(player)); }
    for i := 0 to |slots|
      invariant SoundBefore(b, player, slots, i)
    {
      e := CheckSlot(b, player, slots, i);
      if e.Some? { return; }
    }
    e := None;
  }

  /** The checks of one slot. */
  method CheckSlot(b: Board, player: Cell, slots: seq<Cell>, i: nat) returns (e: Option<StateError>)
    requires |b.labels| <= |slots| && i < |slots| && SoundBefore(b, player, slots, i)
    ensures e.None? ==> SoundBefore(b, player, slots, i + 1)
    ensures e.Some? ==> Faults(b, player, slots, e.value)
    ensures e.Some? ==> forall f | Faults(b, player, slots, f) :: Stage(e.value) <= Stage(f)
  {
    forall f | Faults(b, player, slots, f) ensures Stage(f) >= 4 * i + 2 { NothingEarlier(b, player, slots, i, f); }
    var cell := slots[i];
    if i >= |b.labels| { return if cell != NONE then Some(InactiveBox(i, cell)) else None; }
    if cell >= |b.tiles| { return Some(BoxOutOfBounds(i, cell)); }
    if b.tiles[cell] == WALL { return Some(BoxOnWall(i, cell)); }
    if cell == player { return Some(PlayerOnBox(i, cell)); }
    if cell in slots[..i] {
      var first := IndexOf(slots[..i], cell);
      assert slots[..i][..first] == slots[..first];
      return Some(OverlappingBoxes(first, i, cell));
    }
    forall j | 0 <= j < i ensures slots[j] != slots[i] {
      assert slots[j] in slots[..i];
    }
    e := None;
  }
}
