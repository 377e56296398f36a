/** Keeper reachability: the walks that push nothing. */
module Reach {
  import opened Rules
  import opened Bfs

  /** `dirs` leads from `a` to `c` through cells not in `blocked`. */
  ghost predicate IsWalk(b: Board, blocked: set<Cell>, a: Cell, dirs: seq<nat>, c: Cell) {
    Path(Free(b, blocked), a, dirs, c)
  }

  ghost predicate Connected(b: Board, blocked: set<Cell>, a: Cell, c: Cell) {
    exists dirs :: IsWalk(b, blocked, a, dirs, c)
  }

  lemma FreeWithin(b: Board, blocked: set<Cell>)
    requires b.ValidTable()
    ensures Within(Free(b, blocked), |b.tiles|)
  {
  }

  /** Every walk can be walked back. */
  lemma {:induction false} WalkBack(b: Board, blocked: set<Cell>, a: Cell, dirs: seq<nat>, c: Cell)
    requires b.ValidTable() && a !in blocked && IsWalk(b, blocked, a, dirs, c)
    ensures IsWalk(b, blocked, c, Reversed(dirs), a)
    decreases |dirs|
  {
    if dirs != [] {
      var n := b.Next(a, dirs[0]);
      WalkBack(b, blocked, n, dirs[1..], c);
      MirrorOf(b, a, dirs[0]);
      assert b.Floor(a);
      PathExtend(Free(b, blocked), c, Reversed(dirs[1..]), n, Opposite(dirs[0]));
    }
  }

  lemma {:induction false} WalkStaysFree(b: Board, blocked: set<Cell>, a: Cell, dirs: seq<nat>, c: Cell)
    requires b.ValidTable() && IsWalk(b, blocked, a, dirs, c)
    ensures c == a || (c !in blocked && b.Floor(c))
    decreases |dirs|
  {
    if dirs != [] {
      WalkStaysFree(b, blocked, b.Next(a, dirs[0]), dirs[1..], c);
    }
  }

  /** Fewer blocked cells leave every walk. */
  lemma {:induction false} WalkWithFewerBlocked(b: Board, blocked: set<Cell>, fewer: set<Cell>, a: Cell, dirs: seq<nat>,
                                                c: Cell)
    requires fewer <= blocked && IsWalk(b, blocked, a, dirs, c)
    ensures IsWalk(b, fewer, a, dirs, c)
    decreases |dirs|
  {
    if dirs != [] {
      WalkWithFewerBlocked(b, blocked, fewer, b.Next(a, dirs[0]), dirs[1..], c);
    }
  }

  lemma ConnectedTransitive(b: Board, blocked: set<Cell>, a: Cell, m: Cell, c: Cell)
    requires Connected(b, blocked, a, m) && Connected(b, blocked, m, c)
    ensures Connected(b, blocked, a, c)
  {
    var first :| IsWalk(b, blocked, a, first, m);
    var rest :| IsWalk(b, blocked, m, rest, c);
    PathConcat(Free(b, blocked), a, first, m, rest, c);
    assert IsWalk(b, blocked, a, first + rest, c);
  }

  lemma ConnectedSymmetric(b: Board, blocked: set<Cell>, a: Cell, c: Cell)
    requires b.ValidTable() && a !in blocked && Connected(b, blocked, a, c)
    ensures Connected(b, blocked, c, a)
  {
    var dirs :| IsWalk(b, blocked, a, dirs, c);
    WalkBack(b, blocked, a, dirs, c);
  }

  lemma ConnectedStep(b: Board, blocked: set<Cell>, a: Cell, c: Cell, d: nat)
    requires Connected(b, blocked, a, c) && b.Next(c, d) != NONE && b.Next(c, d) !in blocked
    ensures Connected(b, blocked, a, b.Next(c, d))
  {
    var dirs :| IsWalk(b, blocked, a, dirs, c);
    PathExtend(Free(b, blocked), a, dirs, c, d);
    assert IsWalk(b, blocked, a, dirs + [d], b.Next(c, d));
  }

  lemma ConnectedSelf(b: Board, blocked: set<Cell>, a: Cell)
    ensures Connected(b, blocked, a, a)
  {
    assert IsWalk(b, blocked, a, [], a);
  }

  /** Walking is stepping: a walk around the boxes is a run that moves the keeper alone. */
  lemma {:induction false} WalkPlays(b: Board, s: State, dirs: seq<nat>, c: Cell)
    requires b.ValidTable() && ValidState(b, s)
    requires IsWalk(b, CellSet(s.boxes), s.player, dirs, c)
    ensures Play(b, s, dirs) == Some(State(c, s.boxes)) && ValidState(b, State(c, s.boxes))
    decreases |dirs|
  {
    if dirs != [] {
      var n := b.Next(s.player, dirs[0]);
      assert Step(b, s, dirs[0]) == Some(Stepped(State(n, s.boxes), Move.Walk));
      WalkPlays(b, State(n, s.boxes), dirs[1..], c);
    }
  }

  /** `f` holds exactly the cells the keeper reaches from `start` around `blocked`, with its
      walking distances. */
  ghost predicate IsFill(b: Board, blocked: set<Cell>, start: Cell, f: Flood) {
    && IsFlood(Free(b, blocked), |b.tiles|, start, f)
    && f.far == NONE
    && forall c: Cell :: f.Reached(c) <==> Connected(b, blocked, start, c)
  }

  /** All that `start` reaches around `blocked`, with the walking distances. */
  method FillFrom(b: Board, start: Cell, blocked: seq<Cell>) returns (f: Flood)
    requires b.ValidTable() && start < |b.tiles|
    ensures IsFill(b, CellSet(blocked), start, f)
  {
    FreeWithin(b, CellSet(blocked));
    f := BreadthFirst(Free(b, CellSet(blocked)), |b.tiles|, start, NONE);
    ghost var walls := CellSet(blocked);
    forall c: Cell
      ensures f.Reached(c) <==> Connected(b, walls, start, c)
    {
      if f.Reached(c) {
        var dirs :| Path(Free(b, walls), start, dirs, c) && |dirs| == f.distance[c];
        assert IsWalk(b, walls, start, dirs, c);
      }
      if Connected(b, walls, start, c) {
        var dirs :| IsWalk(b, walls, start, dirs, c);
      }
    }
  }
}
