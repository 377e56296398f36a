/** Breadth-first search over an edge function, shared by the keeper's flood and the
    reverse-push tables: exactly the reachable cells, each with its shortest path length. */
module Bfs {
  import opened Rules

  /** What a search follows on a board: the keeper's steps around `blocked` cells, or a lone
      box's pushes taken backward. */
  datatype Edge = Free(b: Board, blocked: set<Cell>) | Pull(b: Board)
  {
    /** The cell direction `d` leads to from `c`, or NONE. A pull moves the box from `c` to the
        cell it was pushed from, which needs floor past that cell for the keeper's stand. */
    function To(c: Cell, d: nat): Cell {
      var next := b.Next(c, d);
      match this
      case Free(_, blocked) => if next in blocked then NONE else next
      case Pull(_) => if next == NONE || b.Next(next, d) == NONE then NONE else next
    }
  }

  function CellSet(cells: seq<Cell>): (s: set<Cell>)
    ensures forall c :: c in s <==> c in cells
  {
    set c | c in cells
  }

  /** Edges stay among the first `n` cells and leave in the four directions only. */
  ghost predicate Within(edge: Edge, n: nat) {
    forall u: Cell, d: nat {:trigger edge.To(u, d)} :: edge.To(u, d) != NONE ==> u < n && edge.To(u, d) < n && d < 4
  }

  ghost predicate Path(edge: Edge, a: Cell, dirs: seq<nat>, c: Cell)
    decreases |dirs|
  {
    if dirs == [] then a == c
    else edge.To(a, dirs[0]) != NONE && Path(edge, edge.To(a, dirs[0]), dirs[1..], c)
  }

  lemma {:induction false} PathConcat(edge: Edge, a: Cell, first: seq<nat>, m: Cell, rest: seq<nat>, c: Cell)
    requires Path(edge, a, first, m) && Path(edge, m, rest, c)
    ensures Path(edge, a, first + rest, c)
    decreases |first|
  {
    if first == [] {
      assert first + rest == rest;
    } else {
      assert (first + rest)[1..] == first[1..] + rest;
      PathConcat(edge, edge.To(a, first[0]), first[1..], m, rest, c);
    }
  }

  lemma PathExtend(edge: Edge, a: Cell, dirs: seq<nat>, c: Cell, d: nat)
    requires Path(edge, a, dirs, c) && edge.To(c, d) != NONE
    ensures Path(edge, a, dirs + [d], edge.To(c, d))
  {
    assert [d][1..] == [];
    assert Path(edge, c, [d], edge.To(c, d));
    PathConcat(edge, a, dirs, c, [d], edge.To(c, d));
  }

  /** The directions of a path taken backward. */
  function Reversed(dirs: seq<nat>): (r: seq<nat>)
    ensures |r| == |dirs|
  {
    if dirs == [] then [] else Reversed(dirs[1..]) + [Opposite(dirs[0])]
  }

  /** Labels that grow by at most one along every edge out of a level below `k`. */
  ghost predicate LevelsClosed(edge: Edge, distance: seq<nat>, far: nat, k: nat) {
    forall u: Cell, d: nat {:trigger edge.To(u, d)} ::
      u < |distance| && distance[u] < k && distance[u] != far && edge.To(u, d) != NONE ==>
      edge.To(u, d) < |distance| && distance[edge.To(u, d)] != far && distance[edge.To(u, d)] <= distance[u] + 1
  }

  /** No path is shorter than a label. */
  lemma {:induction false} LevelsBoundPaths(edge: Edge, distance: seq<nat>, far: nat, k: nat, u: Cell, dirs: seq<nat>,
                                            c: Cell)
    requires LevelsClosed(edge, distance, far, k)
    requires u < |distance| && distance[u] != far && Path(edge, u, dirs, c) && distance[u] + |dirs| <= k
    ensures c < |distance| && distance[c] != far && distance[c] <= distance[u] + |dirs|
    decreases |dirs|
  {
    if dirs != [] {
      LevelsBoundPaths(edge, distance, far, k, edge.To(u, dirs[0]), dirs[1..], c);
    }
  }

  /** Each cell's distance, `far` where no path leads, and the reached cells in discovery
      order. */
  datatype Flood = Flood(distance: seq<nat>, cells: seq<Cell>, far: nat)
  {
    predicate Reached(c: Cell) { c < |distance| && distance[c] != far }
  }

  ghost predicate IsFlood(edge: Edge, n: nat, start: Cell, f: Flood) {
    && |f.distance| == n
    && (forall c: Cell | f.Reached(c) :: exists dirs :: Path(edge, start, dirs, c) && |dirs| == f.distance[c])
    && (forall c: Cell, dirs | Path(edge, start, dirs, c) :: f.Reached(c) && f.distance[c] <= |dirs|)
    && (forall c: Cell :: c in f.cells <==> f.Reached(c))
    && (forall i, j | 0 <= i < j < |f.cells| :: f.cells[i] != f.cells[j])
  }

  /** The queue holds each labelled cell once, `paths[i]` leads to `queue[i]` and is as long as
      its label. */
  ghost predicate Labelled(edge: Edge, start: Cell, far: nat, distance: seq<nat>, queue: seq<Cell>,
                           paths: seq<seq<nat>>) {
    && |paths| == |queue| <= |distance| <= far
    && queue != [] && queue[0] == start
    && (forall i | 0 <= i < |queue| :: queue[i] < |distance| && |paths[i]| == distance[queue[i]] <= i)
    && (forall i | 0 <= i < |queue| :: Path(edge, start, paths[i], queue[i]))
    && (forall i, j | 0 <= i < j < |queue| :: queue[i] != queue[j])
    && (forall c | 0 <= c < |distance| && distance[c] != far :: c in queue)
  }

  /** Labels never fall along the queue, and span two levels past the head. */
  ghost predicate Ordered(paths: seq<seq<nat>>, head: nat) {
    && head <= |paths|
    && (forall i, j | 0 <= i < j < |paths| :: |paths[i]| <= |paths[j]|)
    && (forall i | head <= i < |paths| :: |paths[i]| <= |paths[head]| + 1)
  }

  /** The first `d` edges out of `u` lead at most one level on. */
  ghost predicate Expanded(edge: Edge, distance: seq<nat>, far: nat, u: Cell, d: nat) {
    forall e: nat {:trigger edge.To(u, e)} :: e < d && edge.To(u, e) != NONE && u < |distance| ==>
      edge.To(u, e) < |distance| && distance[edge.To(u, e)] != far && distance[edge.To(u, e)] <= distance[u] + 1
  }

  ghost predicate Processed(edge: Edge, distance: seq<nat>, far: nat, queue: seq<Cell>, head: nat) {
    head <= |queue| && forall i | 0 <= i < head :: Expanded(edge, distance, far, queue[i], 4)
  }

  /** A new label appends its cell and its path. */
  lemma DiscoverLabel(edge: Edge, start: Cell, far: nat, distance: seq<nat>, queue: seq<Cell>, paths: seq<seq<nat>>,
                      head: nat, d: nat)
    requires Within(edge, |distance|) && Labelled(edge, start, far, distance, queue, paths) && head < |queue|
    requires edge.To(queue[head], d) != NONE && distance[edge.To(queue[head], d)] == far
    ensures var next := edge.To(queue[head], d);
            Labelled(edge, start, far, distance[next := distance[queue[head]] + 1], queue + [next],
              paths + [paths[head] + [d]])
  {
    var next := edge.To(queue[head], d);
    PathExtend(edge, start, paths[head], queue[head], d);
    DistinctCellsFit(queue + [next], |distance|);
  }

  /** What was expanded stays expanded under a new label. */
  lemma DiscoverKeeps(edge: Edge, far: nat, distance: seq<nat>, queue: seq<Cell>, head: nat, next: Cell, level: nat)
    requires next < |distance| && next !in queue && distance[next] == far != level
    requires Processed(edge, distance, far, queue, head)
    ensures Processed(edge, distance[next := level], far, queue + [next], head)
  {
    forall i | 0 <= i < head
      ensures Expanded(edge, distance[next := level], far, (queue + [next])[i], 4)
    {
      assert Expanded(edge, distance, far, queue[i], 4);
    }
  }

  lemma DiscoverExpands(edge: Edge, far: nat, distance: seq<nat>, u: Cell, d: nat, level: nat)
    requires Within(edge, |distance|) && u < |distance| && level == distance[u] + 1 < far
    requires Expanded(edge, distance, far, u, d) && edge.To(u, d) != NONE && edge.To(u, d) != u
    requires distance[edge.To(u, d)] == far
    ensures Expanded(edge, distance[edge.To(u, d) := level], far, u, d + 1)
  {
  }

  lemma DiscoverOnward(edge: Edge, far: nat, distance: seq<nat>, queue: seq<Cell>, head: nat, d: nat)
    requires Within(edge, |distance|) && head < |queue| && Processed(edge, distance, far, queue, head)
    requires queue[head] < |distance| && Expanded(edge, distance, far, queue[head], d)
    requires edge.To(queue[head], d) != NONE && distance[edge.To(queue[head], d)] == far
    requires edge.To(queue[head], d) !in queue && distance[queue[head]] + 1 < far
    ensures var distance' := distance[edge.To(queue[head], d) := distance[queue[head]] + 1];
            && Processed(edge, distance', far, queue + [edge.To(queue[head], d)], head)
            && Expanded(edge, distance', far, queue[head], d + 1)
  {
    var next, level := edge.To(queue[head], d), distance[queue[head]] + 1;
    DiscoverKeeps(edge, far, distance, queue, head, next, level);
    DiscoverExpands(edge, far, distance, queue[head], d, level);
  }

  /** Discovering a new cell one level past the head. */
  lemma Discover(edge: Edge, start: Cell, far: nat, distance: seq<nat>, queue: seq<Cell>, paths: seq<seq<nat>>,
                 head: nat, d: nat)
    requires Within(edge, |distance|) && Labelled(edge, start, far, distance, queue, paths) && Ordered(paths, head)
    requires Processed(edge, distance, far, queue, head) && head < |queue|
    requires Expanded(edge, distance, far, queue[head], d)
    requires edge.To(queue[head], d) != NONE && distance[edge.To(queue[head], d)] == far
    ensures var next := edge.To(queue[head], d);
            var distance' := distance[next := distance[queue[head]] + 1];
            && Labelled(edge, start, far, distance', queue + [next], paths + [paths[head] + [d]])
            && Ordered(paths + [paths[head] + [d]], head)
            && Processed(edge, distance', far, queue + [next], head)
            && Expanded(edge, distance', far, queue[head], d + 1)
  {
    DiscoverLabel(edge, start, far, distance, queue, paths, head, d);
    OrderedGrows(paths, head, d);
    NewIsBeyond(edge, start, far, distance, queue, paths, head, edge.To(queue[head], d));
    DiscoverOnward(edge, far, distance, queue, head, d);
  }

  /** An unlabelled cell is not queued, and a label is free for it. */
  lemma NewIsBeyond(edge: Edge, start: Cell, far: nat, distance: seq<nat>, queue: seq<Cell>, paths: seq<seq<nat>>,
                    head: nat, next: Cell)
    requires Labelled(edge, start, far, distance, queue, paths) && head < |queue|
    requires next < |distance| && distance[next] == far
    ensures next !in queue && distance[queue[head]] + 1 < far
  {
    DistinctCellsFit(queue + [next], |distance|);
    assert distance[queue[head]] <= head;
  }

  lemma OrderedGrows(paths: seq<seq<nat>>, head: nat, d: nat)
    requires Ordered(paths, head) && head < |paths|
    ensures Ordered(paths + [paths[head] + [d]], head)
  {
  }

  lemma AdvanceHead(edge: Edge, distance: seq<nat>, far: nat, queue: seq<Cell>, paths: seq<seq<nat>>, head: nat)
    requires Ordered(paths, head) && Processed(edge, distance, far, queue, head) && head < |queue| == |paths|
    requires Expanded(edge, distance, far, queue[head], 4)
    ensures Ordered(paths, head + 1) && Processed(edge, distance, far, queue, head + 1)
  {
    if head + 1 < |paths| { assert |paths[head]| <= |paths[head + 1]|; }
  }

  /** A cell already labelled when the head meets it is at most one level on. */
  lemma SeenIsNear(edge: Edge, start: Cell, far: nat, distance: seq<nat>, queue: seq<Cell>, paths: seq<seq<nat>>,
                   head: nat, d: nat)
    requires Labelled(edge, start, far, distance, queue, paths) && Ordered(paths, head) && head < |queue|
    requires Expanded(edge, distance, far, queue[head], d)
    requires edge.To(queue[head], d) != NONE ==>
      edge.To(queue[head], d) < |distance| && distance[edge.To(queue[head], d)] != far
    ensures Expanded(edge, distance, far, queue[head], d + 1)
  {
    var c := edge.To(queue[head], d);
    if c != NONE {
      var i :| 0 <= i < |queue| && queue[i] == c;
      if i < head { assert |paths[i]| <= |paths[head]|; }
    }
  }

  /** One head cell's edges: labels and queues each new cell they lead to. */
  method ExpandHead(edge: Edge, ghost start: Cell, far: nat, distance0: seq<nat>, queue0: seq<Cell>, head: nat,
                    ghost paths0: seq<seq<nat>>)
    returns (distance: seq<nat>, queue: seq<Cell>, ghost paths: seq<seq<nat>>)
    requires Within(edge, |distance0|) && Labelled(edge, start, far, distance0, queue0, paths0)
    requires Ordered(paths0, head) && Processed(edge, distance0, far, queue0, head) && head < |queue0|
    ensures |distance| == |distance0| && Labelled(edge, start, far, distance, queue, paths)
    ensures Ordered(paths, head + 1) && Processed(edge, distance, far, queue, head + 1)
  {
    distance, queue, paths := distance0, queue0, paths0;
    var cell := queue[head];
    for d := 0 to 4
      invariant |distance| == |distance0| && head < |queue| && cell == queue[head]
      invariant Labelled(edge, start, far, distance, queue, paths)
      invariant Ordered(paths, head) && Processed(edge, distance, far, queue, head)
      invariant Expanded(edge, distance, far, cell, d)
    {
      var next := edge.To(cell, d);
      if next != NONE && distance[next] == far {
        Discover(edge, start, far, distance, queue, paths, head, d);
        distance := distance[next := distance[cell] + 1];
        queue, paths := queue + [next], paths + [paths[head] + [d]];
      } else {
        SeenIsNear(edge, start, far, distance, queue, paths, head, d);
      }
    }
    AdvanceHead(edge, distance, far, queue, paths, head);
  }

  /** Floods every cell a path leads to from `start`. */
  method BreadthFirst(edge: Edge, n: nat, start: Cell, far: nat) returns (f: Flood)
    requires Within(edge, n) && start < n <= far
    ensures IsFlood(edge, n, start, f) && f.far == far
  {
    var distance: seq<nat> := seq(n, _ => far);
    distance := distance[start := 0];
    var queue := [start];
    var head := 0;
    ghost var paths: seq<seq<nat>> := [[]];
    while head < |queue|
      invariant |distance| == n && Labelled(edge, start, far, distance, queue, paths)
      invariant Ordered(paths, head) && Processed(edge, distance, far, queue, head)
      decreases n - head
    {
      distance, queue, paths := ExpandHead(edge, start, far, distance, queue, head, paths);
      head := head + 1;
    }
    f := Flood(distance, queue, far);
    FloodDone(edge, start, f, paths);
  }

  lemma FloodDone(edge: Edge, start: Cell, f: Flood, paths: seq<seq<nat>>)
    requires Within(edge, |f.distance|) && Labelled(edge, start, f.far, f.distance, f.cells, paths)
    requires Processed(edge, f.distance, f.far, f.cells, |f.cells|)
    ensures IsFlood(edge, |f.distance|, start, f)
  {
    QueueIsReached(edge, start, f, paths);
    forall c: Cell, dirs | Path(edge, start, dirs, c) ensures f.Reached(c) && f.distance[c] <= |dirs| {
      PathsAreLevelled(edge, start, f, paths, dirs, c);
    }
  }

  lemma QueueIsReached(edge: Edge, start: Cell, f: Flood, paths: seq<seq<nat>>)
    requires Labelled(edge, start, f.far, f.distance, f.cells, paths)
    ensures forall c: Cell :: f.Reached(c) <==> c in f.cells
    ensures forall c: Cell | f.Reached(c) :: exists dirs :: Path(edge, start, dirs, c) && |dirs| == f.distance[c]
  {
    forall c: Cell ensures f.Reached(c) <==> c in f.cells {
      if c in f.cells {
        var i :| 0 <= i < |f.cells| && f.cells[i] == c;
        assert f.distance[f.cells[i]] <= i;
      }
    }
    forall c: Cell | f.Reached(c)
      ensures exists dirs :: Path(edge, start, dirs, c) && |dirs| == f.distance[c]
    {
      var i :| 0 <= i < |f.cells| && f.cells[i] == c;
      assert Path(edge, start, paths[i], c) && |paths[i]| == f.distance[c];
    }
  }

  lemma PathsAreLevelled(edge: Edge, start: Cell, f: Flood, paths: seq<seq<nat>>, dirs: seq<nat>, c: Cell)
    requires Within(edge, |f.distance|) && Labelled(edge, start, f.far, f.distance, f.cells, paths)
    requires Processed(edge, f.distance, f.far, f.cells, |f.cells|) && Path(edge, start, dirs, c)
    ensures f.Reached(c) && f.distance[c] <= |dirs|
  {
    forall u: Cell, d: nat | f.Reached(u) && edge.To(u, d) != NONE
      ensures edge.To(u, d) < |f.distance| && f.distance[edge.To(u, d)] != f.far
      ensures f.distance[edge.To(u, d)] <= f.distance[u] + 1
    {
      var i :| 0 <= i < |f.cells| && f.cells[i] == u;
      assert Expanded(edge, f.distance, f.far, f.cells[i], 4);
    }
    assert f.distance[f.cells[0]] == 0;
    LevelsBoundPaths(edge, f.distance, f.far, |dirs|, start, dirs, c);
  }

  // ---------------------------------------------------------------- counting cells

  ghost function Below(n: nat): (s: set<nat>)
    ensures |s| == n && forall x: nat :: x in s <==> x < n
  {
    if n == 0 then {} else Below(n - 1) + {n - 1}
  }

  lemma {:induction false} DistinctSize(cells: seq<Cell>)
    requires forall i, j | 0 <= i < j < |cells| :: cells[i] != cells[j]
    ensures |CellSet(cells)| == |cells|
  {
    if cells != [] {
      var init, last := cells[..|cells| - 1], cells[|cells| - 1];
      DistinctSize(init);
      assert cells == init + [last];
      assert CellSet(cells) == CellSet(init) + {last};
    }
  }

  /** Distinct cells below `n` number at most `n`. */
  lemma DistinctCellsFit(cells: seq<Cell>, n: nat)
    requires forall i | 0 <= i < |cells| :: cells[i] < n
    requires forall i, j | 0 <= i < j < |cells| :: cells[i] != cells[j]
    ensures |cells| <= n
  {
    DistinctSize(cells);
    SubsetSize(CellSet(cells), Below(n));
  }
}
