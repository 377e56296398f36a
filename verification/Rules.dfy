/** The Sokoban rules of crates/core: a parsed board, a position on it, and the one legal
    primitive step. Everything the other modules call dead, optimal or reachable is a
    statement about runs of `Step`. */
module Rules {

  datatype Option<+T> = None | Some(value: T)

  type Cell = nat
  type Label = nat

  /** No cell: a missing neighbour. Every board cell is below MAX_CELLS, so it stays free. */
  const NONE: Cell := 65535
  const MAX_BOXES: nat := 32
  const MAX_CELLS: nat := 4096
  /** Tile values: floor, wall, or a goal's label, 'A'..'Z'. */
  const FLOOR: nat := 0
  const WALL: nat := 255
  const LABEL_A: Label := 65
  const LABEL_Z: Label := 90

  /** Directions count up, down, left, right from 0; each pair undo each other. */
  function Opposite(d: nat): (o: nat)
    ensures d < 4 ==> o < 4 && o != d
  {
    if d == 0 then 1 else if d == 1 then 0 else if d == 2 then 3 else 2
  }

  /** The keeper's cell and each box's cell in slot order; slot `i` carries `board.labels[i]`. */
  datatype State = State(player: Cell, boxes: seq<Cell>)

  datatype Move = Walk | Push(slot: nat)

  /** What a legal step leads to. */
  datatype Stepped = Stepped(state: State, move: Move)

  datatype Board = Board(width: nat, height: nat, neighbors: seq<seq<Cell>>, tiles: seq<nat>,
                         labels: seq<Label>, goals: seq<(Cell, Label)>, initial: State)
  {
    /** The neighbour of `c` in direction `d`, or NONE at a wall or an edge. */
    function Next(c: Cell, d: nat): Cell {
      if c < |neighbors| && d < |neighbors[c]| then neighbors[c][d] else NONE
    }

    predicate Floor(c: Cell) {
      c < |tiles| && tiles[c] != WALL
    }

    /** Cell `c` is a goal for box `i`. */
    predicate OnGoal(i: nat, c: Cell) {
      i < |labels| && c < |tiles| && tiles[c] == labels[i]
    }

    /** A neighbour is entered from the opposite side. Kept behind a name so that the
        verifier unfolds it only where a proof mentions it. */
    predicate Mirrored(c: Cell, d: nat) {
      d < 4 && Next(c, d) != NONE ==> Next(Next(c, d), Opposite(d)) == c
    }

    ghost predicate ValidTable() {
      && |neighbors| == |tiles| <= MAX_CELLS
      && (forall c | 0 <= c < |neighbors| :: |neighbors[c]| == 4)
      && (forall c, d {:trigger Next(c, d)} :: Next(c, d) != NONE ==> d < 4 && Floor(c) && Floor(Next(c, d)))
      && (forall c, d {:trigger Mirrored(c, d)} :: Mirrored(c, d))
    }

    ghost predicate ValidLabels() {
      && 1 <= |labels| <= MAX_BOXES
      && (forall i | 0 <= i < |labels| :: LABEL_A <= labels[i] <= LABEL_Z)
      && (forall i, j | 0 <= i <= j < |labels| :: labels[i] <= labels[j])
      && (forall c | 0 <= c < |tiles| :: tiles[c] == FLOOR || tiles[c] == WALL || LABEL_A <= tiles[c] <= LABEL_Z)
      && (forall l | LABEL_A <= l <= LABEL_Z :: |Goals(l)| == |Slots(l)|)
    }

    /** `goals` lists exactly the goal tiles. */
    ghost predicate ValidGoals() {
      && (forall k | 0 <= k < |goals| ::
            goals[k].0 < |tiles| && tiles[goals[k].0] == goals[k].1 && LABEL_A <= goals[k].1 <= LABEL_Z)
      && (forall c | 0 <= c < |tiles| && LABEL_A <= tiles[c] <= LABEL_Z :: (c, tiles[c]) in goals)
    }

    /** What `Parse` establishes and every other operation relies on. */
    ghost predicate Valid() {
      ValidTable() && ValidLabels() && ValidGoals()
    }

    /** The cells that are goals of label `l`. */
    ghost function Goals(l: Label): set<Cell> {
      set c: Cell | 0 <= c < |tiles| && tiles[c] == l
    }

    /** The box slots that carry label `l`. */
    ghost function Slots(l: Label): set<nat> {
      set i: nat | 0 <= i < |labels| && labels[i] == l
    }
  }

  /** The invariants `Board::validate_state` checks. */
  ghost predicate ValidState(b: Board, s: State) {
    && |s.boxes| == |b.labels|
    && b.Floor(s.player)
    && s.player !in s.boxes
    && (forall i | 0 <= i < |s.boxes| :: b.Floor(s.boxes[i]))
    && (forall i, j | 0 <= i < j < |s.boxes| :: s.boxes[i] != s.boxes[j])
  }

  predicate Solved(b: Board, s: State) {
    |s.boxes| == |b.labels| && forall i | 0 <= i < |s.boxes| :: b.OnGoal(i, s.boxes[i])
  }

  /** The first index of `x`, as `position` finds it. */
  function IndexOf(xs: seq<Cell>, x: Cell): (i: nat)
    requires x in xs
    ensures i < |xs| && xs[i] == x && x !in xs[..i]
  {
    if xs[0] == x then 0
    else
      assert xs == [xs[0]] + xs[1..];
      var k := IndexOf(xs[1..], x);
      assert xs[..k + 1] == [xs[0]] + xs[1..][..k];
      k + 1
  }

  /** The step relation of the puzzle, as a function: a move, a push, or nothing at all for a step
      the rules refuse. */
  function Step(b: Board, s: State, d: nat): Option<Stepped> {
    if d >= 4 then None
    else
      var next := b.Next(s.player, d);
      if next == NONE then None
      else if next in s.boxes then
        var i := IndexOf(s.boxes, next);
        var target := b.Next(next, d);
        if target == NONE || target in s.boxes then None
        else Some(Stepped(State(next, s.boxes[i := target]), Push(i)))
      else Some(Stepped(State(next, s.boxes), Walk))
  }

  /** The state a sequence of steps leads to, or None once one is refused. */
  function Play(b: Board, s: State, moves: seq<nat>): Option<State>
    decreases |moves|
  {
    if moves == [] then Some(s)
    else
      match Step(b, s, moves[0])
      case None => None
      case Some(t) => Play(b, t.state, moves[1..])
  }

  /** `moves` is a run of legal steps that ends solved. */
  ghost predicate Solution(b: Board, s: State, moves: seq<nat>) {
    var end := Play(b, s, moves);
    end.Some? && Solved(b, end.value)
  }

  /** Some finite run of steps reaches a solved state. */
  ghost predicate Solvable(b: Board, s: State) {
    exists moves :: Solution(b, s, moves)
  }

  // ---------------------------------------------------------------- steps keep the rules

  lemma MirrorOf(b: Board, c: Cell, d: nat)
    requires b.ValidTable() && b.Next(c, d) != NONE
    ensures b.Next(b.Next(c, d), Opposite(d)) == c
  {
    assert b.Mirrored(c, d);
  }

  lemma OppositeTwice(d: nat)
    requires d < 4
    ensures Opposite(Opposite(d)) == d
  {
  }

  /** Every legal step keeps the state valid, moves the keeper to its neighbour, and changes
      at most the one box it pushed, by one cell in the same direction. */
  lemma StepKeepsState(b: Board, s: State, d: nat)
    requires b.ValidTable() && ValidState(b, s) && Step(b, s, d).Some?
    ensures var t := Step(b, s, d).value;
            && ValidState(b, t.state)
            && t.state.player == b.Next(s.player, d) != NONE
            && (t.move.Walk? ==> t.state.boxes == s.boxes && t.state.player !in s.boxes)
            && (t.move.Push? ==>
                  && t.move.slot < |s.boxes|
                  && s.boxes[t.move.slot] == t.state.player
                  && var to := b.Next(t.state.player, d);
                     && to != NONE && to !in s.boxes
                     && t.state.boxes == s.boxes[t.move.slot := to])
  {
    var t := Step(b, s, d).value;
    if t.move.Push? {
      var next := b.Next(s.player, d);
      var to := b.Next(next, d);
      MirrorOf(b, s.player, d);
      MirrorOf(b, next, d);
      var i := t.move.slot;
      forall j, k | 0 <= j < k < |t.state.boxes|
        ensures t.state.boxes[j] != t.state.boxes[k]
      {
        if j == i { assert s.boxes[k] in s.boxes; }
        if k == i { assert s.boxes[j] in s.boxes; }
      }
    }
  }

  lemma {:induction false} PlayKeepsState(b: Board, s: State, moves: seq<nat>)
    requires b.ValidTable() && ValidState(b, s) && Play(b, s, moves).Some?
    ensures ValidState(b, Play(b, s, moves).value)
    decreases |moves|
  {
    if moves != [] {
      StepKeepsState(b, s, moves[0]);
      PlayKeepsState(b, Step(b, s, moves[0]).value.state, moves[1..]);
    }
  }

  lemma {:induction false} PlayConcat(b: Board, s: State, first: seq<nat>, rest: seq<nat>)
    ensures Play(b, s, first + rest) ==
            if Play(b, s, first).None? then None else Play(b, Play(b, s, first).value, rest)
    decreases |first|
  {
    if first == [] {
      assert first + rest == rest;
    } else {
      assert (first + rest)[0] == first[0];
      assert (first + rest)[1..] == first[1..] + rest;
      match Step(b, s, first[0])
      case None =>
      case Some(t) => PlayConcat(b, t.state, first[1..], rest);
    }
  }

  // ---------------------------------------------------------------- goals and boxes match

  lemma {:induction false} InjectiveImageSize(f: map<nat, nat>, dom: set<nat>)
    requires dom <= f.Keys
    requires forall x, y | x in dom && y in dom && x != y :: f[x] != f[y]
    ensures |set x | x in dom :: f[x]| == |dom|
    decreases dom
  {
    if dom != {} {
      var x :| x in dom;
      InjectiveImageSize(f, dom - {x});
      assert (set y | y in dom :: f[y]) == (set y | y in dom - {x} :: f[y]) + {f[x]};
    }
  }

  lemma SubsetOfEqualSize(small: set<nat>, large: set<nat>)
    requires small <= large && |small| == |large|
    ensures small == large
  {
    if small != large {
      var x :| x in large && x !in small;
      assert small <= large - {x};
      SubsetSize(small, large - {x});
    }
  }

  lemma {:induction false} SubsetSize<T>(small: set<T>, large: set<T>)
    requires small <= large
    ensures |small| <= |large|
    decreases small
  {
    if small != {} {
      var x :| x in small;
      SubsetSize(small - {x}, large - {x});
    }
  }

  /** Each label has as many boxes as goals, so a solved state fills every goal. */
  lemma SolvedFillsGoals(b: Board, s: State, g: Cell)
    requires b.Valid() && Solved(b, s) && forall i, j | 0 <= i < j < |s.boxes| :: s.boxes[i] != s.boxes[j]
    requires g < |b.tiles| && b.tiles[g] != FLOOR && b.tiles[g] != WALL
    ensures g in s.boxes
  {
    var l := b.tiles[g];
    var f := map i: nat | 0 <= i < |s.boxes| :: s.boxes[i];
    var dom := b.Slots(l);
    forall x, y | x in dom && y in dom && x != y
      ensures f[x] != f[y]
    {
      if x < y { assert s.boxes[x] != s.boxes[y]; } else { assert s.boxes[y] != s.boxes[x]; }
    }
    InjectiveImageSize(f, dom);
    var image := set x | x in dom :: f[x];
    forall c | c in image
      ensures c in b.Goals(l)
    {
      var i :| i in dom && f[i] == c;
      assert b.OnGoal(i, s.boxes[i]);
    }
    SubsetOfEqualSize(image, b.Goals(l));
    assert g in image;
  }

  // ---------------------------------------------------------------- interchangeable boxes

  /** The boxes as (label, cell) pairs: what is left of a state when boxes of one label are
      interchangeable. */
  ghost function Pairs(b: Board, s: State): set<(Label, Cell)>
    requires |s.boxes| == |b.labels|
  {
    set i: nat | 0 <= i < |s.boxes| :: (b.labels[i], s.boxes[i])
  }

  /** Equal up to swapping boxes of one label. */
  ghost predicate SamePosition(b: Board, s: State, t: State) {
    && |s.boxes| == |b.labels| == |t.boxes|
    && s.player == t.player
    && Pairs(b, s) == Pairs(b, t)
  }

  lemma PairsCells(b: Board, s: State, t: State, c: Cell)
    requires SamePosition(b, s, t) && c in s.boxes
    ensures c in t.boxes
  {
    var i :| 0 <= i < |s.boxes| && s.boxes[i] == c;
    assert (b.labels[i], c) in Pairs(b, s);
    var j: nat :| 0 <= j < |t.boxes| && (b.labels[j], t.boxes[j]) == (b.labels[i], c);
  }

  /** The same step is legal in both, and leads to the same position again. */
  lemma StepSamePosition(b: Board, s: State, t: State, d: nat)
    requires b.ValidTable() && ValidState(b, s) && ValidState(b, t) && SamePosition(b, s, t)
    requires Step(b, s, d).Some?
    ensures Step(b, t, d).Some?
    ensures SamePosition(b, Step(b, s, d).value.state, Step(b, t, d).value.state)
  {
    var next := b.Next(s.player, d);
    var to := b.Next(next, d);
    if next in t.boxes { PairsCells(b, t, s, next); }
    if next in s.boxes {
      PairsCells(b, s, t, next);
      if to in t.boxes { PairsCells(b, t, s, to); }
      PushPairs(b, s, IndexOf(s.boxes, next), to);
      PushPairs(b, t, IndexOf(t.boxes, next), to);
      var i, j := IndexOf(s.boxes, next), IndexOf(t.boxes, next);
      assert b.labels[i] == b.labels[j] by {
        assert (b.labels[i], next) in Pairs(b, t);
        var k: nat :| 0 <= k < |t.boxes| && (b.labels[k], t.boxes[k]) == (b.labels[i], next);
        assert k == j;
      }
    }
  }

  /** Pushing slot `i` to `to` replaces its pair and no other. */
  lemma PushPairs(b: Board, s: State, i: nat, to: Cell)
    requires |s.boxes| == |b.labels| && i < |s.boxes|
    requires forall j, k | 0 <= j < k < |s.boxes| :: s.boxes[j] != s.boxes[k]
    ensures Pairs(b, State(s.player, s.boxes[i := to])) ==
            Pairs(b, s) - {(b.labels[i], s.boxes[i])} + {(b.labels[i], to)}
  {
    var t := State(s.player, s.boxes[i := to]);
    forall p | p in Pairs(b, s) - {(b.labels[i], s.boxes[i])} + {(b.labels[i], to)}
      ensures p in Pairs(b, t)
    {
      if p == (b.labels[i], to) {
        assert (b.labels[i], t.boxes[i]) == p;
      } else {
        var j: nat :| 0 <= j < |s.boxes| && p == (b.labels[j], s.boxes[j]);
        assert (b.labels[j], t.boxes[j]) == p;
      }
    }
    forall p | p in Pairs(b, t)
      ensures p in Pairs(b, s) - {(b.labels[i], s.boxes[i])} + {(b.labels[i], to)}
    {
      var j: nat :| 0 <= j < |t.boxes| && p == (b.labels[j], t.boxes[j]);
    }
  }

  lemma SolvedSamePosition(b: Board, s: State, t: State)
    requires SamePosition(b, s, t) && Solved(b, s)
    ensures Solved(b, t)
  {
    forall i | 0 <= i < |t.boxes|
      ensures b.OnGoal(i, t.boxes[i])
    {
      assert (b.labels[i], t.boxes[i]) in Pairs(b, t);
      var j: nat :| 0 <= j < |s.boxes| && (b.labels[j], s.boxes[j]) == (b.labels[i], t.boxes[i]);
      assert b.OnGoal(j, s.boxes[j]);
    }
  }

  /** Swapping boxes of one label changes no solution, move for move. */
  lemma {:induction false} SolutionSamePosition(b: Board, s: State, t: State, moves: seq<nat>)
    requires b.ValidTable() && ValidState(b, s) && ValidState(b, t) && SamePosition(b, s, t)
    requires Solution(b, s, moves)
    ensures Solution(b, t, moves)
    decreases |moves|
  {
    if moves == [] {
      SolvedSamePosition(b, s, t);
    } else {
      StepSamePosition(b, s, t, moves[0]);
      StepKeepsState(b, s, moves[0]);
      StepKeepsState(b, t, moves[0]);
      var s', t' := Step(b, s, moves[0]).value.state, Step(b, t, moves[0]).value.state;
      assert Solution(b, s', moves[1..]);
      SolutionSamePosition(b, s', t', moves[1..]);
      assert Solution(b, t', moves[1..]);
    }
  }
}
