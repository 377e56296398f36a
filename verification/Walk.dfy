/** The page's walk routes (walk.ts): a shortest walk to a tile clicked, found breadth-first by way
    of a map from each cell to the one before it. */
module Walks {
  import opened Rules
  import opened Bfs
  import opened Reach
  import opened Grids

  /** The queue's cells are exactly the map's, and each but the first was entered from an
      earlier one: `paths` are the routes the map traces. */
  ghost predicate Traces(queue: seq<Cell>, paths: seq<seq<nat>>, cameFrom: map<Cell, Cell>, edge: Edge) {
    && |paths| == |queue| > 0 && paths[0] == []
    && (forall i | 0 <= i < |queue| :: queue[i] in cameFrom)
    && (forall i | 0 < i < |queue| :: Entered(queue, paths, cameFrom, edge, i))
  }

  ghost predicate Entered(queue: seq<Cell>, paths: seq<seq<nat>>, cameFrom: map<Cell, Cell>, edge: Edge, i: nat)
    requires |paths| == |queue| && i < |queue| && queue[i] in cameFrom
  {
    exists j: nat, d: nat ::
      j < i && d < 4 && cameFrom[queue[i]] == queue[j] && edge.To(queue[j], d) == queue[i] && paths[i] == paths[j] + [d]
  }

  /** The arithmetic of one step: the cell `step` leads to from `cell`, when it stays on the
      board and in its row. */
  function StepFrom(width: nat, size: nat, cell: Cell, step: nat): Option<Cell>
    requires width > 0 && step < 4
  {
    var next :=
      if step == 0 then cell - width else if step == 1 then cell + width else if step == 2 then cell - 1 else cell + 1;
    if next < 0 || next >= size then None
    else if step >= 2 && next / width != cell / width then None
    else Some(next)
  }

  /** The step's arithmetic is the board's geometry. */
  lemma StepIsBeside(width: nat, height: nat, cell: Cell, step: nat)
    requires width > 0 && step < 4 && cell < width * height <= MAX_CELLS
    ensures StepFrom(width, width * height, cell, step) ==
            if Beside(width, height, cell, step) == NONE then None else Some(Beside(width, height, cell, step))
  {
    RowOf(width, height, cell);
    if step < 2 {
      StepUpOrDown(width, height, cell % width, cell / width, step);
    } else if step == 2 {
      StepLeft(width, height, cell % width, cell / width);
    } else {
      StepRight(width, height, cell % width, cell / width);
    }
  }

  lemma StepUpOrDown(width: nat, height: nat, x: nat, y: nat, step: nat)
    requires x < width && y < height && width * height <= MAX_CELLS && step < 2
    ensures var beside := Beside(width, height, y * width + x, step);
            StepFrom(width, width * height, y * width + x, step) == if beside == NONE then None else Some(beside)
  {
    BesideAt(width, height, x, y, step);
    assert (y + 1) * width == y * width + width && (y - 1) * width == y * width - width;
    if step == 0 {
      if y >= 1 { RowBound(width, height, x, y - 1); assert (y - 1) * width >= 0; } else { assert y * width == 0; }
    } else if y + 1 < height {
      RowBound(width, height, x, y + 1);
    } else {
      assert y + 1 == height;
    }
  }

  lemma StepLeft(width: nat, height: nat, x: nat, y: nat)
    requires x < width && y < height && width * height <= MAX_CELLS
    ensures var beside := Beside(width, height, y * width + x, 2);
            StepFrom(width, width * height, y * width + x, 2) == if beside == NONE then None else Some(beside)
  {
    BesideAt(width, height, x, y, 2);
    Numbered(width, x, y);
    if x >= 1 {
      Numbered(width, x - 1, y);
      RowBound(width, height, x - 1, y);
    } else if y >= 1 {
      Numbered(width, width - 1, y - 1);
      assert (y - 1) * width + (width - 1) == y * width - 1;
    } else {
      assert y * width == 0;
    }
  }

  lemma StepRight(width: nat, height: nat, x: nat, y: nat)
    requires x < width && y < height && width * height <= MAX_CELLS
    ensures var beside := Beside(width, height, y * width + x, 3);
            StepFrom(width, width * height, y * width + x, 3) == if beside == NONE then None else Some(beside)
  {
    BesideAt(width, height, x, y, 3);
    Numbered(width, x, y);
    if x + 1 < width {
      Numbered(width, x + 1, y);
      RowBound(width, height, x + 1, y);
    } else {
      Numbered(width, 0, y + 1);
      assert (y + 1) * width + 0 == y * width + x + 1;
    }
  }

  /** Which direction leads from a cell to its neighbour. */
  function Direction(from: Cell, to: Cell, width: nat): nat {
    var delta: int := to - from;
    if delta == 0 - width then 0 else if delta == width then 1 else if delta == -1 then 2 else 3
  }

  lemma DirectionOf(b: Board, blocked: set<Cell>, from: Cell, d: nat)
    requires Gridded(b) && from < |b.tiles| && d < 4 && Free(b, blocked).To(from, d) != NONE
    ensures Direction(from, Free(b, blocked).To(from, d), b.width) == d
  {
    NextIsEntry(b, from, d);
    StepIsBeside(b.width, b.height, from, d);
  }

  /** Follows the map back from the target; read forward, the directions are the recorded path. */
  method Retrace(b: Board, blocked: set<Cell>, cameFrom: map<Cell, Cell>, player: Cell, target: Cell,
                 ghost queue: seq<Cell>, ghost paths: seq<seq<nat>>, ghost at: nat) returns (route: seq<nat>)
    requires Gridded(b) && Traces(queue, paths, cameFrom, Free(b, blocked)) && queue[0] == player
    requires forall i, j | 0 <= i < j < |queue| :: queue[i] != queue[j]
    requires at < |queue| && queue[at] == target && forall i | 0 <= i < |queue| :: queue[i] < |b.tiles|
    ensures route == paths[at]
  {
    route := [];
    var cell := target;
    ghost var i: nat := at;
    while cell != player
      invariant i < |queue| && queue[i] == cell && paths[i] + route == paths[at]
      decreases i
    {
      assert Entered(queue, paths, cameFrom, Free(b, blocked), i);
      ghost var j: nat, d: nat :| j < i && d < 4 && cameFrom[queue[i]] == queue[j] &&
        Free(b, blocked).To(queue[j], d) == queue[i] && paths[i] == paths[j] + [d];
      DirectionOf(b, blocked, queue[j], d);
      assert paths[j] + ([d] + route) == paths[at];
      route := [Direction(cameFrom[cell], cell, b.width)] + route;
      cell := cameFrom[cell];
      i := j;
    }
    assert i == 0;
  }

  /** What the search holds at the head: the breadth-first labels and the traced map. */
  ghost predicate Exploring(edge: Edge, n: nat, start: Cell, target: Cell, distance: seq<nat>, queue: seq<Cell>,
                            paths: seq<seq<nat>>, head: nat, cameFrom: map<Cell, Cell>) {
    && Within(edge, n) && |distance| == n && Labelled(edge, start, NONE, distance, queue, paths)
    && Ordered(paths, head) && Processed(edge, distance, NONE, queue, head)
    && Traces(queue, paths, cameFrom, edge) && cameFrom.Keys == CellSet(queue) && target !in queue
  }

  /** Everything nearer than the head is expanded. */
  lemma NearerIsClosed(edge: Edge, start: Cell, distance: seq<nat>, queue: seq<Cell>, paths: seq<seq<nat>>, head: nat,
                       k: nat)
    requires Labelled(edge, start, NONE, distance, queue, paths) && Ordered(paths, head)
    requires Processed(edge, distance, NONE, queue, head)
    requires Within(edge, |distance|) && (head < |queue| ==> k == |paths[head]|)
    ensures LevelsClosed(edge, distance, NONE, k)
  {
    forall u: Cell, d: nat | u < |distance| && distance[u] < k && distance[u] != NONE && edge.To(u, d) != NONE
      ensures edge.To(u, d) < |distance| && distance[edge.To(u, d)] != NONE
      ensures distance[edge.To(u, d)] <= distance[u] + 1
    {
      var i := NearerIsProcessed(edge, start, distance, queue, paths, head, u);
      assert Expanded(edge, distance, NONE, queue[i], 4);
    }
  }

  lemma NearerIsProcessed(edge: Edge, start: Cell, distance: seq<nat>, queue: seq<Cell>, paths: seq<seq<nat>>,
                          head: nat, u: Cell) returns (i: nat)
    requires Labelled(edge, start, NONE, distance, queue, paths) && Ordered(paths, head)
    requires u < |distance| && distance[u] != NONE && (head < |queue| ==> distance[u] < |paths[head]|)
    ensures i < head <= |queue| && queue[i] == u
  {
    assert u in queue;
    i :| 0 <= i < |queue| && queue[i] == u;
    assert forall j | head <= j < |queue| :: |paths[head]| <= |paths[j]|;
  }

  /** A cell not yet seen is past the head's level. */
  lemma UnseenIsFar(edge: Edge, n: nat, start: Cell, target: Cell, distance: seq<nat>, queue: seq<Cell>,
                    paths: seq<seq<nat>>, head: nat, cameFrom: map<Cell, Cell>, dirs: seq<nat>)
    requires Exploring(edge, n, start, target, distance, queue, paths, head, cameFrom)
    requires Path(edge, start, dirs, target)
    ensures head < |queue| && |paths[head]| < |dirs|
  {
    if head == |queue| || |dirs| <= |paths[head]| {
      var k := if head < |queue| then |paths[head]| else |dirs|;
      NearerIsClosed(edge, start, distance, queue, paths, head, k);
      StartLabel(edge, start, distance, queue, paths);
      LevelsBoundPaths(edge, distance, NONE, k, start, dirs, target);
    }
  }

  lemma StartLabel(edge: Edge, start: Cell, distance: seq<nat>, queue: seq<Cell>, paths: seq<seq<nat>>)
    requires Labelled(edge, start, NONE, distance, queue, paths)
    ensures start < |distance| && distance[start] == 0
  {
    assert distance[queue[0]] <= 0;
  }

  lemma TraceOne(edge: Edge, queue: seq<Cell>, paths: seq<seq<nat>>, cameFrom: map<Cell, Cell>, head: nat, d: nat)
    requires Traces(queue, paths, cameFrom, edge) && head < |queue| && d < 4 && edge.To(queue[head], d) !in queue
    requires cameFrom.Keys == CellSet(queue)
    ensures Traces(queue + [edge.To(queue[head], d)], paths + [paths[head] + [d]],
              cameFrom[edge.To(queue[head], d) := queue[head]], edge)
  {
    var next := edge.To(queue[head], d);
    var queue', paths', cameFrom' := queue + [next], paths + [paths[head] + [d]], cameFrom[next := queue[head]];
    forall i | 0 < i < |queue'|
      ensures Entered(queue', paths', cameFrom', edge, i)
    {
      if i < |queue| {
        assert Entered(queue, paths, cameFrom, edge, i);
        var j: nat, e: nat :| j < i && e < 4 && cameFrom[queue[i]] == queue[j] && edge.To(queue[j], e) == queue[i] &&
          paths[i] == paths[j] + [e];
        assert queue'[j] == queue[j] && paths'[j] == paths[j];
      } else {
        assert queue'[head] == queue[head] && paths'[head] == paths[head];
      }
    }
  }

  /** Whether the tiles and boxes let the keeper step to `next`, as the page tests it. */
  predicate Steppable(b: Board, blocked: set<Cell>, cell: Cell, step: nat)
    requires b.width > 0 && step < 4
  {
    var next := StepFrom(b.width, |b.tiles|, cell, step);
    next.Some? && b.tiles[next.value] != WALL && next.value !in blocked
  }

  lemma SteppableIsEdge(b: Board, blocked: set<Cell>, cell: Cell, step: nat)
    requires Gridded(b) && step < 4 && b.Floor(cell)
    ensures Steppable(b, blocked, cell, step) <==> Free(b, blocked).To(cell, step) != NONE
    ensures Steppable(b, blocked, cell, step) ==>
              StepFrom(b.width, |b.tiles|, cell, step) == Some(Free(b, blocked).To(cell, step))
  {
    NextIsEntry(b, cell, step);
    StepIsBeside(b.width, b.height, cell, step);
  }

  /** The route of a click: a walk as short as any around the boxes, and none exactly when there is
      none or the player is there. */
  method WalkRoute(b: Board, s: State, target: Cell) returns (r: Option<seq<nat>>)
    requires Gridded(b) && ValidState(b, s)
    ensures r.None? <==> target == s.player || !Connected(b, CellSet(s.boxes), s.player, target)
    ensures r.Some? ==> IsWalk(b, CellSet(s.boxes), s.player, r.value, target)
    ensures r.Some? ==> forall dirs {:trigger IsWalk(b, CellSet(s.boxes), s.player, dirs, target)} ::
              IsWalk(b, CellSet(s.boxes), s.player, dirs, target) ==> |r.value| <= |dirs|
    ensures r.Some? ==> Play(b, s, r.value) == Some(State(target, s.boxes))
  {
    GriddedIsValid(b);
    var blocked := CellSet(s.boxes);
    if target == s.player { return None; }
    if (target < |b.tiles| && b.tiles[target] == WALL) || target in blocked {
      forall dirs ensures !IsWalk(b, blocked, s.player, dirs, target) {
        if IsWalk(b, blocked, s.player, dirs, target) { WalkStaysFree(b, blocked, s.player, dirs, target); }
      }
      return None;
    }
    r := Explore(b, s, blocked, target);
    if r.Some? { WalkPlays(b, s, r.value, target); }
  }

  method Explore(b: Board, s: State, blocked: set<Cell>, target: Cell) returns (r: Option<seq<nat>>)
    requires Gridded(b) && b.ValidTable() && ValidState(b, s) && blocked == CellSet(s.boxes) && target != s.player
    ensures r.None? ==> !Connected(b, blocked, s.player, target)
    ensures r.Some? ==> IsWalk(b, blocked, s.player, r.value, target)
    ensures r.Some? ==> forall dirs {:trigger IsWalk(b, blocked, s.player, dirs, target)} ::
              IsWalk(b, blocked, s.player, dirs, target) ==> |r.value| <= |dirs|
  {
    ghost var edge, n := Free(b, blocked), |b.tiles|;
    FreeWithin(b, blocked);
    var cameFrom: map<Cell, Cell> := map[s.player := s.player];
    var queue := [s.player];
    ghost var distance: seq<nat> := seq(n, _ => NONE);
    distance := distance[s.player := 0];
    ghost var paths: seq<seq<nat>> := [[]];
    var head := 0;
    while head < |queue|
      invariant Exploring(edge, n, s.player, target, distance, queue, paths, head, cameFrom)
      decreases n - head
    {
      r, queue, cameFrom, distance, paths := ExploreHead(b, s, blocked, target, queue, cameFrom, head, distance, paths);
      if r.Some? { return; }
      head := head + 1;
      DistinctCellsFit(queue, n);
    }
    forall dirs ensures !IsWalk(b, blocked, s.player, dirs, target) {
      if Path(edge, s.player, dirs, target) {
        UnseenIsFar(edge, n, s.player, target, distance, queue, paths, head, cameFrom, dirs);
      }
    }
    r := None;
  }

  /** The head cell's four steps: new cells are queued, and the target ends the search. */
  method ExploreHead(b: Board, s: State, blocked: set<Cell>, target: Cell, queue0: seq<Cell>,
                     cameFrom0: map<Cell, Cell>, head: nat,
                     ghost distance0: seq<nat>, ghost paths0: seq<seq<nat>>)
    returns (r: Option<seq<nat>>, queue: seq<Cell>, cameFrom: map<Cell, Cell>, ghost distance: seq<nat>,
      ghost paths: seq<seq<nat>>)
    requires Gridded(b) && b.ValidTable() && ValidState(b, s) && head < |queue0|
    requires Exploring(Free(b, blocked), |b.tiles|, s.player, target, distance0, queue0, paths0, head, cameFrom0)
    ensures r.None? ==>
              Exploring(Free(b, blocked), |b.tiles|, s.player, target, distance, queue, paths, head + 1, cameFrom)
    ensures r.Some? ==> IsWalk(b, blocked, s.player, r.value, target)
    ensures r.Some? ==> forall dirs {:trigger IsWalk(b, blocked, s.player, dirs, target)} ::
              IsWalk(b, blocked, s.player, dirs, target) ==> |r.value| <= |dirs|
  {
    ghost var edge := Free(b, blocked);
    queue, cameFrom, distance, paths := queue0, cameFrom0, distance0, paths0;
    var cell := queue[head];
    HeadIsFloor(b, s, blocked, queue, paths, head);
    for step := 0 to 4
      invariant head < |queue| && cell == queue[head]
      invariant Exploring(edge, |b.tiles|, s.player, target, distance, queue, paths, head, cameFrom)
      invariant Expanded(edge, distance, NONE, cell, step)
    {
      SteppableIsEdge(b, blocked, cell, step);
      if Steppable(b, blocked, cell, step) && StepFrom(b.width, |b.tiles|, cell, step).value !in cameFrom {
        var next := StepFrom(b.width, |b.tiles|, cell, step).value;
        if next == target {
          r := Arrive(b, s, blocked, target, queue, cameFrom, head, distance, paths, step);
          return;
        }
        ExploreOne(edge, |b.tiles|, s.player, target, distance, queue, paths, head, cameFrom, step);
        cameFrom := cameFrom[next := cell];
        distance := distance[next := distance[cell] + 1];
        queue, paths := queue + [next], paths + [paths[head] + [step]];
      } else {
        SeenIsLabelled(edge, s.player, distance, queue, paths, head, step, cameFrom);
        SeenIsNear(edge, s.player, NONE, distance, queue, paths, head, step);
      }
    }
    AdvanceHead(edge, distance, NONE, queue, paths, head);
    r := None;
  }

  lemma HeadIsFloor(b: Board, s: State, blocked: set<Cell>, queue: seq<Cell>, paths: seq<seq<nat>>, head: nat)
    requires b.ValidTable() && ValidState(b, s) && |paths| == |queue| && head < |queue|
    requires Path(Free(b, blocked), s.player, paths[head], queue[head])
    ensures b.Floor(queue[head])
  {
    assert IsWalk(b, blocked, s.player, paths[head], queue[head]);
    WalkStaysFree(b, blocked, s.player, paths[head], queue[head]);
  }

  /** A new cell other than the target is queued. */
  lemma ExploreOne(edge: Edge, n: nat, start: Cell, target: Cell, distance: seq<nat>, queue: seq<Cell>,
                   paths: seq<seq<nat>>, head: nat, cameFrom: map<Cell, Cell>, d: nat)
    requires Exploring(edge, n, start, target, distance, queue, paths, head, cameFrom) && head < |queue| && d < 4
    requires Expanded(edge, distance, NONE, queue[head], d)
    requires var next := edge.To(queue[head], d); next != NONE && next !in queue && next != target
    ensures var next := edge.To(queue[head], d);
            && Exploring(edge, n, start, target, distance[next := distance[queue[head]] + 1], queue + [next],
              paths + [paths[head] + [d]], head, cameFrom[next := queue[head]])
            && Expanded(edge, distance[next := distance[queue[head]] + 1], NONE, queue[head], d + 1)
  {
    NextIsUnseen(edge, start, distance, queue, paths, edge.To(queue[head], d));
    Discover(edge, start, NONE, distance, queue, paths, head, d);
    TraceOne(edge, queue, paths, cameFrom, head, d);
  }

  lemma NextIsUnseen(edge: Edge, start: Cell, distance: seq<nat>, queue: seq<Cell>, paths: seq<seq<nat>>, next: Cell)
    requires Labelled(edge, start, NONE, distance, queue, paths) && next < |distance| && next !in queue
    ensures distance[next] == NONE
  {
  }

  lemma SeenIsLabelled(edge: Edge, start: Cell, distance: seq<nat>, queue: seq<Cell>, paths: seq<seq<nat>>, head: nat,
                       d: nat, cameFrom: map<Cell, Cell>)
    requires Labelled(edge, start, NONE, distance, queue, paths) && cameFrom.Keys == CellSet(queue) && head < |queue|
    requires edge.To(queue[head], d) != NONE ==> edge.To(queue[head], d) in cameFrom
    ensures edge.To(queue[head], d) != NONE ==> edge.To(queue[head], d) < |distance|
    ensures edge.To(queue[head], d) != NONE ==> distance[edge.To(queue[head], d)] != NONE
  {
    if edge.To(queue[head], d) != NONE {
      var i :| 0 <= i < |queue| && queue[i] == edge.To(queue[head], d);
      assert distance[queue[i]] <= i;
    }
  }

  /** The target met from the head: one step past the head's shortest route. */
  method Arrive(b: Board, s: State, blocked: set<Cell>, target: Cell, queue: seq<Cell>, cameFrom: map<Cell, Cell>,
                head: nat,
                ghost distance: seq<nat>, ghost paths: seq<seq<nat>>, step: nat) returns (r: Option<seq<nat>>)
    requires Gridded(b) && b.ValidTable() && ValidState(b, s) && head < |queue| && step < 4
    requires Exploring(Free(b, blocked), |b.tiles|, s.player, target, distance, queue, paths, head, cameFrom)
    requires Free(b, blocked).To(queue[head], step) == target != NONE
    ensures r.Some? && IsWalk(b, blocked, s.player, r.value, target)
    ensures forall dirs {:trigger IsWalk(b, blocked, s.player, dirs, target)} ::
              IsWalk(b, blocked, s.player, dirs, target) ==> |r.value| <= |dirs|
  {
    ghost var edge := Free(b, blocked);
    TraceOne(edge, queue, paths, cameFrom, head, step);
    var route := Retrace(b, blocked, cameFrom[target := queue[head]], s.player, target, queue + [target],
      paths + [paths[head] + [step]], |queue|);
    PathExtend(edge, s.player, paths[head], queue[head], step);
    forall dirs | IsWalk(b, blocked, s.player, dirs, target) ensures |route| <= |dirs| {
      UnseenIsFar(edge, |b.tiles|, s.player, target, distance, queue, paths, head, cameFrom, dirs);
    }
    r := Some(route);
  }
}
