/** Dead cells: where a lone box of a label can no longer be pushed to any goal of the label,
    wherever the keeper may stand. The table comes from one reverse-push flood per goal. */
module DeadCells {
  import opened Rules
  import opened Bfs

  /** A lone box on `c` can be pushed in direction `d`: floor ahead to land on, floor behind
      for the keeper to stand on. */
  predicate LonePush(b: Board, c: Cell, d: nat) {
    d < 4 && b.Next(c, d) != NONE && b.Next(c, Opposite(d)) != NONE
  }

  /** A lone push is what the rules allow with no other box on the board, the keeper standing
      wherever suits it. */
  lemma LonePushIsStep(b: Board, c: Cell, d: nat)
    requires b.ValidTable() && d < 4
    ensures LonePush(b, c, d) && b.Next(c, d) != c <==> exists at: Cell {:trigger Step(b, State(at, [c]), d)} ::
              Step(b, State(at, [c]), d) == Some(Stepped(State(c, [b.Next(c, d)]), Push(0)))
  {
    if LonePush(b, c, d) && b.Next(c, d) != c {
      var at := b.Next(c, Opposite(d));
      MirrorOf(b, c, Opposite(d));
      OppositeTwice(d);
      assert b.Next(at, d) == c && IndexOf([c], c) == 0;
      assert [c][0 := b.Next(c, d)] == [b.Next(c, d)];
      assert Step(b, State(at, [c]), d) == Some(Stepped(State(c, [b.Next(c, d)]), Push(0)));
    }
    if at: Cell :| Step(b, State(at, [c]), d) == Some(Stepped(State(c, [b.Next(c, d)]), Push(0))) {
      assert b.Next(at, d) == c != NONE && c in [c];
      MirrorOf(b, at, d);
    }
  }

  /** `dirs` pushes a lone box from `c` to `g`. */
  ghost predicate PushChain(b: Board, c: Cell, dirs: seq<nat>, g: Cell)
    decreases |dirs|
  {
    if dirs == [] then c == g
    else LonePush(b, c, dirs[0]) && PushChain(b, b.Next(c, dirs[0]), dirs[1..], g)
  }

  ghost predicate IsGoal(b: Board, l: Label, g: Cell) {
    LABEL_A <= l <= LABEL_Z && g < |b.tiles| && b.tiles[g] == l
  }

  ghost predicate Live(b: Board, l: Label, c: Cell) {
    exists g: Cell, dirs :: PushChain(b, c, dirs, g) && IsGoal(b, l, g)
  }

  /** A box alone goes from one cell to the next in one push, floor behind it. */
  ghost predicate OnePush(b: Board, from: Cell, to: Cell) {
    exists d: nat :: d < 4 && b.Next(from, d) == to && to != NONE && b.Next(from, Opposite(d)) != NONE
  }

  ghost predicate PushedAlong(b: Board, cells: seq<Cell>) {
    forall k: nat | k + 1 < |cells| :: OnePush(b, cells[k], cells[k + 1])
  }

  /** A cell is live exactly when some line of single pushes leads from it to a goal tile. */
  lemma LiveIsPushed(b: Board, l: Label, c: Cell)
    requires LABEL_A <= l <= LABEL_Z
    ensures Live(b, l, c) <==> exists cells {:trigger PushedAlong(b, cells)} :: PushedAlong(b, cells) &&
                                 |cells| > 0 && cells[0] == c && (b.Goals(l) * {cells[|cells| - 1]} != {})
  {
    if Live(b, l, c) {
      var g: Cell, dirs :| PushChain(b, c, dirs, g) && IsGoal(b, l, g);
      var cells := CellsOfChain(b, c, dirs, g);
      assert g in b.Goals(l) * {g};
    }
    if cells :| PushedAlong(b, cells) && |cells| > 0 && cells[0] == c && b.Goals(l) * {cells[|cells| - 1]} != {} {
      var g :| g in b.Goals(l) * {cells[|cells| - 1]};
      var dirs := ChainOfCells(b, cells);
      assert PushChain(b, c, dirs, g) && IsGoal(b, l, g);
    }
  }

  lemma {:induction false} CellsOfChain(b: Board, c: Cell, dirs: seq<nat>, g: Cell) returns (cells: seq<Cell>)
    requires PushChain(b, c, dirs, g)
    ensures PushedAlong(b, cells) && |cells| > 0 && cells[0] == c && cells[|cells| - 1] == g
    decreases |dirs|
  {
    if dirs == [] { return [c]; }
    var rest := CellsOfChain(b, b.Next(c, dirs[0]), dirs[1..], g);
    cells := [c] + rest;
    assert OnePush(b, c, rest[0]);
    forall k: nat | k + 1 < |cells| ensures OnePush(b, cells[k], cells[k + 1]) {
      if k > 0 { assert OnePush(b, rest[k - 1], rest[k - 1 + 1]); }
    }
  }

  lemma {:induction false} ChainOfCells(b: Board, cells: seq<Cell>) returns (dirs: seq<nat>)
    requires PushedAlong(b, cells) && |cells| > 0
    ensures PushChain(b, cells[0], dirs, cells[|cells| - 1])
    decreases |cells|
  {
    if |cells| == 1 { return []; }
    var rest := cells[1..];
    forall k: nat | k + 1 < |rest| ensures OnePush(b, rest[k], rest[k + 1]) {
      assert OnePush(b, cells[k + 1], cells[k + 1 + 1]);
    }
    var tail := ChainOfCells(b, rest);
    assert OnePush(b, cells[0], cells[0 + 1]);
    var d: nat :| d < 4 && b.Next(cells[0], d) == cells[1] && cells[1] != NONE && b.Next(cells[0], Opposite(d)) != NONE;
    dirs := [d] + tail;
    assert dirs[1..] == tail;
  }

  /** A goal is live for its label. */
  lemma GoalIsLive(b: Board, l: Label, c: Cell)
    requires IsGoal(b, l, c)
    ensures Live(b, l, c)
  {
    assert PushChain(b, c, [], c);
  }

  /** A cell pushed onto a live cell is live, so a push off a dead cell lands on a dead cell. */
  lemma LiveBeforePush(b: Board, l: Label, c: Cell, d: nat)
    requires LonePush(b, c, d) && Live(b, l, b.Next(c, d))
    ensures Live(b, l, c)
  {
    var g: Cell, dirs :| PushChain(b, b.Next(c, d), dirs, g) && IsGoal(b, l, g);
    assert ([d] + dirs)[1..] == dirs;
    assert PushChain(b, c, [d] + dirs, g);
  }

  /** A live cell that is no goal has a push onto a live cell. */
  lemma LiveHasLivePush(b: Board, l: Label, c: Cell)
    requires Live(b, l, c) && !IsGoal(b, l, c)
    ensures exists d: nat :: d < 4 && LonePush(b, c, d) && Live(b, l, b.Next(c, d))
  {
    var g: Cell, dirs :| PushChain(b, c, dirs, g) && IsGoal(b, l, g);
    assert PushChain(b, b.Next(c, dirs[0]), dirs[1..], g);
    assert LonePush(b, c, dirs[0]) && Live(b, l, b.Next(c, dirs[0]));
  }

  /** A reverse-push path is a push sequence read backward. */
  lemma {:induction false} PullIsPush(b: Board, g: Cell, dirs: seq<nat>, c: Cell)
    requires b.ValidTable() && Path(Pull(b), g, dirs, c)
    ensures PushChain(b, c, Reversed(dirs), g)
    decreases |dirs|
  {
    if dirs != [] {
      var m := Pull(b).To(g, dirs[0]);
      PullIsPush(b, m, dirs[1..], c);
      MirrorOf(b, g, dirs[0]);
      OppositeTwice(dirs[0]);
      PushChainExtend(b, c, Reversed(dirs[1..]), m, Opposite(dirs[0]));
    }
  }

  lemma {:induction false} PushChainExtend(b: Board, c: Cell, dirs: seq<nat>, m: Cell, d: nat)
    requires PushChain(b, c, dirs, m) && LonePush(b, m, d)
    ensures PushChain(b, c, dirs + [d], b.Next(m, d))
    decreases |dirs|
  {
    if dirs == [] {
      assert (dirs + [d])[1..] == [];
      assert PushChain(b, b.Next(m, d), [], b.Next(m, d));
    } else {
      assert (dirs + [d])[1..] == dirs[1..] + [d];
      PushChainExtend(b, b.Next(c, dirs[0]), dirs[1..], m, d);
    }
  }

  lemma {:induction false} PushIsPull(b: Board, c: Cell, dirs: seq<nat>, g: Cell)
    requires b.ValidTable() && PushChain(b, c, dirs, g)
    ensures Path(Pull(b), g, Reversed(dirs), c)
    decreases |dirs|
  {
    if dirs != [] {
      var m := b.Next(c, dirs[0]);
      PushIsPull(b, m, dirs[1..], g);
      MirrorOf(b, c, dirs[0]);
      PathExtend(Pull(b), g, Reversed(dirs[1..]), m, Opposite(dirs[0]));
    }
  }

  /** The sentinel of an unreachable push distance. */
  const FAR: nat := 0xFFFF_FFFF

  /** `table[c]` is the length of a shortest push chain from `c` to `goal` with no other box about,
      and FAR exactly when there is no chain at all. */
  ghost predicate PushDistances(b: Board, goal: Cell, table: seq<nat>) {
    && |table| == |b.tiles|
    && (forall c: Cell | c < |table| && table[c] != FAR :: exists dirs {:trigger PushChain(b, c, dirs, goal)} ::
      PushChain(b, c, dirs, goal) && |dirs| == table[c])
    && (forall c: Cell, dirs | c < |table| && PushChain(b, c, dirs, goal) :: table[c] != FAR && table[c] <= |dirs|)
  }

  /** Searches breadth-first over pulls away from `goal`, which gives the push distances to it. */
  method PullDistances(b: Board, goal: Cell) returns (table: seq<nat>)
    requires b.ValidTable() && goal < |b.tiles|
    ensures PushDistances(b, goal, table)
  {
    var f := BreadthFirst(Pull(b), |b.tiles|, goal, FAR);
    table := f.distance;
    forall c: Cell | c < |table| && table[c] != FAR
      ensures exists dirs {:trigger PushChain(b, c, dirs, goal)} :: PushChain(b, c, dirs, goal) && |dirs| == table[c]
    {
      assert f.Reached(c);
      var dirs :| Path(Pull(b), goal, dirs, c) && |dirs| == f.distance[c];
      PullIsPush(b, goal, dirs, c);
      assert PushChain(b, c, Reversed(dirs), goal) && |Reversed(dirs)| == table[c];
    }
    forall c: Cell, dirs | c < |table| && PushChain(b, c, dirs, goal)
      ensures table[c] != FAR && table[c] <= |dirs|
    {
      PushIsPull(b, c, dirs, goal);
      assert Path(Pull(b), goal, Reversed(dirs), c);
    }
  }

  /** Each label's live cells, `live[l - 'A'][c]`. */
  datatype Heuristic = Heuristic(live: seq<seq<bool>>)
  {
    /** Whether a box of label `l` on `c` reaches no goal of its label. */
    predicate Dead(l: Label, c: Cell) {
      LABEL_A <= l <= LABEL_Z && l - LABEL_A < |live| && c < |live[l - LABEL_A]| && !live[l - LABEL_A][c]
    }
  }

  /** The table is the reverse-push reachability from the label's goals, nothing more or less. */
  ghost predicate Exact(b: Board, h: Heuristic) {
    && |h.live| == LABEL_Z - LABEL_A + 1
    && (forall r | 0 <= r < |h.live| :: |h.live[r]| == |b.tiles|)
    && (forall l: Label, c: Cell {:trigger h.Dead(l, c)} :: LABEL_A <= l <= LABEL_Z && c < |b.tiles| ==>
      (h.Dead(l, c) <==> !Live(b, l, c)))
  }

  /** Entry `c` of label `l` is set when some goal up to the `k`-th reaches it. */
  ghost predicate LiveUpTo(b: Board, k: nat, l: Label, c: Cell) {
    exists j: nat, dirs :: j < k && j < |b.goals| && b.goals[j].1 == l && PushChain(b, c, dirs, b.goals[j].0)
  }

  ghost predicate TableUpTo(b: Board, live: seq<seq<bool>>, k: nat) {
    && |live| == LABEL_Z - LABEL_A + 1
    && (forall r | 0 <= r < |live| :: |live[r]| == |b.tiles|)
    && (forall r: nat, c: nat | r < |live| && c < |live[r]| :: live[r][c] <==> LiveUpTo(b, k, r + LABEL_A, c))
  }

  /** A cell is live for a label exactly when the table of one of its goals reaches the cell. */
  method LiveCells(b: Board) returns (h: Heuristic)
    requires b.Valid()
    ensures Exact(b, h)
  {
    var live: seq<seq<bool>> := seq(LABEL_Z - LABEL_A + 1, _ => seq(|b.tiles|, _ => false));
    for k := 0 to |b.goals|
      invariant TableUpTo(b, live, k)
    {
      var (goal, label_) := b.goals[k];
      var table := PullDistances(b, goal);
      var row := live[label_ - LABEL_A];
      ghost var live0 := live;
      live := live[label_ - LABEL_A := seq(|row|, c requires 0 <= c < |row| && |row| == |table| => row[c] ||
        table[c] != FAR)];
      forall r: nat, c: nat | r < |live| && c < |live[r]|
        ensures live[r][c] <==> LiveUpTo(b, k + 1, r + LABEL_A, c)
      {
        AddGoal(b, k, table, r + LABEL_A, c);
        assert live0[r][c] <==> LiveUpTo(b, k, r + LABEL_A, c);
      }
    }
    h := Heuristic(live);
    AllGoalsExact(b, h);
  }

  lemma AllGoalsExact(b: Board, h: Heuristic)
    requires b.Valid() && TableUpTo(b, h.live, |b.goals|)
    ensures Exact(b, h)
  {
    forall l: Label, c: Cell | LABEL_A <= l <= LABEL_Z && c < |b.tiles|
      ensures h.Dead(l, c) <==> !Live(b, l, c)
    {
      assert h.live[l - LABEL_A][c] <==> LiveUpTo(b, |b.goals|, l - LABEL_A + LABEL_A, c);
      if Live(b, l, c) {
        var g: Cell, dirs :| PushChain(b, c, dirs, g) && IsGoal(b, l, g);
        assert (g, b.tiles[g]) in b.goals;
        var j: nat :| j < |b.goals| && b.goals[j] == (g, b.tiles[g]);
        assert PushChain(b, c, dirs, b.goals[j].0);
      }
    }
  }

  lemma AddGoal(b: Board, k: nat, table: seq<nat>, l: Label, c: Cell)
    requires b.Valid() && k < |b.goals| && PushDistances(b, b.goals[k].0, table) && c < |table|
    ensures LiveUpTo(b, k + 1, l, c) <==> LiveUpTo(b, k, l, c) || (l == b.goals[k].1 && table[c] != FAR)
  {
    if l == b.goals[k].1 && table[c] != FAR {
      var dirs :| PushChain(b, c, dirs, b.goals[k].0) && |dirs| == table[c];
      assert LiveUpTo(b, k + 1, l, c);
    }
  }
}
