/** The freeze rule: the greatest set of boxes that hold each other in place, and why no run solves
    a state in which one of them is off goal. */
module Freeze {
  import opened Rules
  import opened DeadCells

  /** A box of some label on a cell: all the freeze rule knows of it. */
  type Placed = (Label, Cell)

  /** Neighbours `a` and `c` keep a box from being pushed along their axis: either is no cell or
      blocked, or both are dead for the label. */
  predicate AxisHeld(h: Heuristic, l: Label, a: Cell, c: Cell, blockedA: bool, blockedC: bool) {
    a == NONE || c == NONE || blockedA || blockedC || (h.Dead(l, a) && h.Dead(l, c))
  }

  /** Held along both axes of `cell`. */
  predicate Held(b: Board, h: Heuristic, l: Label, cell: Cell, blocked: set<Cell>) {
    && AxisHeld(h, l, b.Next(cell, 0), b.Next(cell, 1), b.Next(cell, 0) in blocked, b.Next(cell, 1) in blocked)
    && AxisHeld(h, l, b.Next(cell, 2), b.Next(cell, 3), b.Next(cell, 2) in blocked, b.Next(cell, 3) in blocked)
  }

  function CellsOf(f: set<Placed>): (s: set<Cell>)
    ensures forall p | p in f :: p.1 in s
  {
    set p | p in f :: p.1
  }

  /** Every box of `f` is held by walls, dead cells and boxes of `f`: a post-fixpoint of the
      release rule. */
  ghost predicate SelfHeld(b: Board, h: Heuristic, f: set<Placed>) {
    forall p | p in f :: Held(b, h, p.0, p.1, CellsOf(f))
  }

  predicate OffGoal(b: Board, p: Placed) {
    p.1 < |b.tiles| && b.tiles[p.1] != p.0
  }

  /** A box of `all` is frozen when some self-held subset contains it. */
  ghost predicate Frozen(b: Board, h: Heuristic, all: set<Placed>, p: Placed) {
    exists f: set<Placed> :: f <= all && SelfHeld(b, h, f) && p in f
  }

  /** The frozen boxes of `all`: the greatest fixpoint. */
  ghost function Greatest(b: Board, h: Heuristic, all: set<Placed>): set<Placed> {
    set p | p in all && Frozen(b, h, all, p)
  }

  /** Blocking more cells holds no less. */
  lemma HeldMonotone(b: Board, h: Heuristic, l: Label, cell: Cell, few: set<Cell>, many: set<Cell>)
    requires few <= many && Held(b, h, l, cell, few)
    ensures Held(b, h, l, cell, many)
  {
  }

  /** The frozen boxes hold each other, so they are themselves the largest self-held set. */
  lemma GreatestIsSelfHeld(b: Board, h: Heuristic, all: set<Placed>)
    ensures SelfHeld(b, h, Greatest(b, h, all))
    ensures forall f: set<Placed> | f <= all && SelfHeld(b, h, f) :: f <= Greatest(b, h, all)
  {
    var g := Greatest(b, h, all);
    forall p | p in g
      ensures Held(b, h, p.0, p.1, CellsOf(g))
    {
      var f: set<Placed> :| f <= all && SelfHeld(b, h, f) && p in f;
      assert f <= g;
      assert CellsOf(f) <= CellsOf(g);
      HeldMonotone(b, h, p.0, p.1, CellsOf(f), CellsOf(g));
    }
  }

  /** The greatest self-held set grows with the boxes it is taken among. */
  lemma GreatestMonotone(b: Board, h: Heuristic, few: set<Placed>, many: set<Placed>)
    requires few <= many
    ensures Greatest(b, h, few) <= Greatest(b, h, many)
  {
    GreatestIsSelfHeld(b, h, few);
    GreatestIsSelfHeld(b, h, many);
  }

  // ---------------------------------------------------------------- what holds a box

  /** Boxes that keep each other in place are frozen: along each axis every one of them lacks a
      neighbour, has one of them beside it, or could only be pushed onto cells dead for it. */
  lemma HeldTogether(b: Board, h: Heuristic, all: set<Placed>, f: set<Placed>)
    requires f <= all
    requires forall p: Placed, d: nat {:trigger b.Next(p.1, d)} | p in f && d < 4 ::
               || b.Next(p.1, d) == NONE || b.Next(p.1, Opposite(d)) == NONE
               || (exists q :: q in f && (q.1 == b.Next(p.1, d) || q.1 == b.Next(p.1, Opposite(d))))
               || (h.Dead(p.0, b.Next(p.1, d)) && h.Dead(p.0, b.Next(p.1, Opposite(d))))
    ensures f <= Greatest(b, h, all)
  {
    forall p: Placed | p in f ensures Held(b, h, p.0, p.1, CellsOf(f)) {
      assert b.Next(p.1, 0) == b.Next(p.1, 0) && b.Next(p.1, 2) == b.Next(p.1, 2);
    }
    assert SelfHeld(b, h, f);
  }

  /** Box `p` can be taken off along an axis: two neighbours, neither under a box of `left`, and
      not both dead for it. */
  ghost predicate Loose(b: Board, h: Heuristic, left: set<Placed>, p: Placed) {
    exists d: nat {:trigger b.Next(p.1, d)} ::
      && d < 4 && b.Next(p.1, d) != NONE && b.Next(p.1, Opposite(d)) != NONE
      && (forall q | q in left :: q.1 != b.Next(p.1, d) && q.1 != b.Next(p.1, Opposite(d)))
      && !(h.Dead(p.0, b.Next(p.1, d)) && h.Dead(p.0, b.Next(p.1, Opposite(d))))
  }

  /** Taking the boxes of `order` off `all` one at a time, each loose among those left then,
      leaves `left`. */
  ghost predicate TakesOff(b: Board, h: Heuristic, all: set<Placed>, order: seq<Placed>, left: set<Placed>)
    decreases |order|
  {
    if order == [] then left == all
    else order[0] in all && Loose(b, h, all, order[0]) && TakesOff(b, h, all - {order[0]}, order[1..], left)
  }

  /** The boxes that are not frozen can be taken off, and the frozen ones stay. */
  lemma {:induction false} TakenOff(b: Board, h: Heuristic, all: set<Placed>) returns (order: seq<Placed>)
    ensures TakesOff(b, h, all, order, Greatest(b, h, all))
    decreases all
  {
    if SelfHeld(b, h, all) {
      GreatestIsSelfHeld(b, h, all);
      return [];
    }
    var p :| p in all && !Held(b, h, p.0, p.1, CellsOf(all));
    GreatestWithout(b, h, all, p);
    NotHeldIsLoose(b, h, all, p);
    var rest := TakenOff(b, h, all - {p});
    order := [p] + rest;
    assert order[0] == p && order[1..] == rest;
  }

  /** However boxes are taken off, the frozen ones stay. */
  lemma {:induction false} FrozenStay(b: Board, h: Heuristic, all: set<Placed>, order: seq<Placed>, left: set<Placed>)
    requires TakesOff(b, h, all, order, left)
    ensures Greatest(b, h, all) <= left
    decreases |order|
  {
    if order == [] {
      return;
    }
    if Held(b, h, order[0].0, order[0].1, CellsOf(all)) { HeldIsNotLoose(b, h, all, order[0]); }
    GreatestWithout(b, h, all, order[0]);
    FrozenStay(b, h, all - {order[0]}, order[1..], left);
  }

  /** No way of taking boxes off `all` takes `p`. */
  ghost predicate Fast(b: Board, h: Heuristic, all: set<Placed>, p: Placed) {
    p in all && forall order, left | TakesOff(b, h, all, order, left) :: p in left
  }

  /** A box is frozen exactly when no way of taking boxes off takes it. */
  lemma FrozenIsFast(b: Board, h: Heuristic, all: set<Placed>, p: Placed)
    ensures p in Greatest(b, h, all) <==> Fast(b, h, all, p)
  {
    if p in Greatest(b, h, all) {
      forall order, left | TakesOff(b, h, all, order, left) ensures p in left {
        FrozenStay(b, h, all, order, left);
      }
      assert Fast(b, h, all, p);
    }
    if Fast(b, h, all, p) {
      var order := TakenOff(b, h, all);
      assert TakesOff(b, h, all, order, Greatest(b, h, all));
    }
  }

  lemma HeldIsNotLoose(b: Board, h: Heuristic, left: set<Placed>, p: Placed)
    requires Held(b, h, p.0, p.1, CellsOf(left))
    ensures !Loose(b, h, left, p)
  {
    forall d: nat | d < 4 && b.Next(p.1, d) in CellsOf(left)
      ensures exists q :: q in left && q.1 == b.Next(p.1, d)
    {
    }
  }

  lemma NotHeldIsLoose(b: Board, h: Heuristic, left: set<Placed>, p: Placed)
    requires !Held(b, h, p.0, p.1, CellsOf(left))
    ensures Loose(b, h, left, p)
  {
    var d := if AxisHeld(h, p.0, b.Next(p.1, 0), b.Next(p.1, 1), b.Next(p.1, 0) in CellsOf(left),
                         b.Next(p.1, 1) in CellsOf(left)) then 2 else 0;
    assert b.Next(p.1, d) != NONE && b.Next(p.1, Opposite(d)) != NONE;
  }

  /** A box the others do not hold is not frozen, and no other box is frozen by it. */
  lemma GreatestWithout(b: Board, h: Heuristic, all: set<Placed>, p: Placed)
    requires p in all && !Held(b, h, p.0, p.1, CellsOf(all))
    ensures Greatest(b, h, all) == Greatest(b, h, all - {p})
  {
    var g := Greatest(b, h, all);
    GreatestIsSelfHeld(b, h, all);
    assert CellsOf(g) <= CellsOf(all);
    if p in g { HeldMonotone(b, h, p.0, p.1, CellsOf(g), CellsOf(all)); }
    assert g <= all - {p};
    GreatestIsSelfHeld(b, h, all - {p});
    GreatestMonotone(b, h, all - {p}, all);
  }

  /** A position is solved exactly when no box is off goal. */
  lemma SolvedIsHome(b: Board, s: State)
    requires |s.boxes| == |b.labels| && forall i | 0 <= i < |s.boxes| :: s.boxes[i] < |b.tiles|
    ensures Solved(b, s) <==> forall p | p in Pairs(b, s) :: !OffGoal(b, p)
  {
    if Solved(b, s) {
      forall p | p in Pairs(b, s) ensures !OffGoal(b, p) { SolvedPairOnGoal(b, s, p); }
    }
    if forall p | p in Pairs(b, s) :: !OffGoal(b, p) {
      forall i | 0 <= i < |s.boxes| ensures b.OnGoal(i, s.boxes[i]) {
        assert (b.labels[i], s.boxes[i]) in Pairs(b, s);
      }
    }
  }

  // ---------------------------------------------------------------- soundness over runs

  /** What every run keeps: the frozen boxes stand where they stood, or one box is stranded. */
  ghost predicate Stuck(b: Board, h: Heuristic, f: set<Placed>, s: State)
    requires |s.boxes| == |b.labels|
  {
    || f <= Pairs(b, s)
    || Stranded(b, h, s)
  }

  /** A box stands where its label is dead. */
  ghost predicate Stranded(b: Board, h: Heuristic, s: State)
    requires |s.boxes| == |b.labels|
  {
    exists i | 0 <= i < |s.boxes| :: h.Dead(b.labels[i], s.boxes[i])
  }

  lemma PairCell(b: Board, s: State, p: Placed)
    requires |s.boxes| == |b.labels| && p in Pairs(b, s)
    ensures p.1 in s.boxes
  {
    var i: nat :| 0 <= i < |s.boxes| && (b.labels[i], s.boxes[i]) == p;
  }

  lemma SolvedPairOnGoal(b: Board, s: State, p: Placed)
    requires Solved(b, s) && p in Pairs(b, s)
    ensures !OffGoal(b, p)
  {
    var i: nat :| 0 <= i < |s.boxes| && (b.labels[i], s.boxes[i]) == p;
    assert b.OnGoal(i, s.boxes[i]);
  }

  /** A push lands a box of a dead cell on a dead cell again. */
  lemma StrandedStays(b: Board, h: Heuristic, s: State, d: nat)
    requires b.Valid() && Exact(b, h) && ValidState(b, s) && Step(b, s, d).Some?
    requires Stranded(b, h, s)
    ensures Stranded(b, h, Step(b, s, d).value.state)
  {
    StepKeepsState(b, s, d);
    var t := Step(b, s, d).value;
    var i :| 0 <= i < |s.boxes| && h.Dead(b.labels[i], s.boxes[i]);
    if t.move.Push? && t.move.slot == i {
      MirrorOf(b, s.player, d);
      if Live(b, b.labels[i], t.state.boxes[i]) {
        LiveBeforePush(b, b.labels[i], s.boxes[i], d);
      }
    }
    assert h.Dead(b.labels[i], t.state.boxes[i]);
  }

  /** Pushing a box of a self-held set lands it on a dead cell. */
  lemma PushOfFrozenStrands(b: Board, h: Heuristic, f: set<Placed>, s: State, d: nat)
    requires b.Valid() && ValidState(b, s) && Step(b, s, d).Some? && Step(b, s, d).value.move.Push?
    requires SelfHeld(b, h, f) && f <= Pairs(b, s)
    requires var i := Step(b, s, d).value.move.slot; i < |s.boxes| && (b.labels[i], s.boxes[i]) in f
    ensures Stranded(b, h, Step(b, s, d).value.state)
  {
    StepKeepsState(b, s, d);
    var t := Step(b, s, d).value;
    var i := t.move.slot;
    var l, c, to := b.labels[i], s.boxes[i], t.state.boxes[i];
    MirrorOf(b, s.player, d);
    assert b.Next(c, d) == to && b.Next(c, Opposite(d)) == s.player;
    assert Held(b, h, l, c, CellsOf(f));
    forall x | x in CellsOf(f)
      ensures x in s.boxes
    {
      var p :| p in f && p.1 == x;
      PairCell(b, s, p);
    }
    assert to !in CellsOf(f) && s.player !in CellsOf(f);
    assert h.Dead(l, to);
    assert h.Dead(b.labels[i], t.state.boxes[i]);
  }

  lemma StuckStays(b: Board, h: Heuristic, f: set<Placed>, s: State, d: nat)
    requires b.Valid() && Exact(b, h) && ValidState(b, s) && Step(b, s, d).Some?
    requires SelfHeld(b, h, f) && Stuck(b, h, f, s)
    ensures ValidState(b, Step(b, s, d).value.state) && Stuck(b, h, f, Step(b, s, d).value.state)
  {
    StepKeepsState(b, s, d);
    var t := Step(b, s, d).value;
    if Stranded(b, h, s) {
      StrandedStays(b, h, s, d);
    } else if t.move.Push? {
      var i := t.move.slot;
      if (b.labels[i], s.boxes[i]) in f {
        PushOfFrozenStrands(b, h, f, s, d);
      } else {
        PushPairs(b, s, i, t.state.boxes[i]);
        assert Pairs(b, t.state) == Pairs(b, State(s.player, t.state.boxes));
      }
    } else {
      assert Pairs(b, t.state) == Pairs(b, s);
    }
  }

  lemma {:induction false} StuckNeverSolves(b: Board, h: Heuristic, f: set<Placed>, p: Placed, s: State,
                                            moves: seq<nat>)
    requires b.Valid() && Exact(b, h) && ValidState(b, s)
    requires SelfHeld(b, h, f) && Stuck(b, h, f, s) && p in f && OffGoal(b, p)
    ensures !Solution(b, s, moves)
    decreases |moves|
  {
    if moves == [] {
      if Solved(b, s) {
        if Stranded(b, h, s) {
          var i :| 0 <= i < |s.boxes| && h.Dead(b.labels[i], s.boxes[i]);
          assert b.OnGoal(i, s.boxes[i]);
          GoalIsLive(b, b.labels[i], s.boxes[i]);
        } else {
          SolvedPairOnGoal(b, s, p);
        }
      }
    } else if Step(b, s, moves[0]).Some? {
      StuckStays(b, h, f, s, moves[0]);
      StuckNeverSolves(b, h, f, p, Step(b, s, moves[0]).value.state, moves[1..]);
    }
  }

  /** With a box of the greatest self-held set off goal, no run of any state that has those boxes in
      place solves it. */
  lemma FrozenOffGoalIsDead(b: Board, h: Heuristic, all: set<Placed>, p: Placed, s: State)
    requires b.Valid() && Exact(b, h) && ValidState(b, s)
    requires all <= Pairs(b, s) && Frozen(b, h, all, p) && OffGoal(b, p)
    ensures !Solvable(b, s)
  {
    var f: set<Placed> :| f <= all && SelfHeld(b, h, f) && p in f;
    forall moves ensures !Solution(b, s, moves) {
      StuckNeverSolves(b, h, f, p, s, moves);
    }
  }

  /** A state with a stranded box has no solution. */
  lemma StrandedIsDead(b: Board, h: Heuristic, s: State)
    requires b.Valid() && Exact(b, h) && ValidState(b, s) && Stranded(b, h, s)
    ensures !Solvable(b, s)
  {
    forall moves ensures !Solution(b, s, moves) {
      StrandedNeverSolves(b, h, s, moves);
    }
  }

  lemma {:induction false} StrandedNeverSolves(b: Board, h: Heuristic, s: State, moves: seq<nat>)
    requires b.Valid() && Exact(b, h) && ValidState(b, s) && Stranded(b, h, s)
    ensures !Solution(b, s, moves)
    decreases |moves|
  {
    if moves == [] {
      var i :| 0 <= i < |s.boxes| && h.Dead(b.labels[i], s.boxes[i]);
      if b.OnGoal(i, s.boxes[i]) { GoalIsLive(b, b.labels[i], s.boxes[i]); }
    } else if Step(b, s, moves[0]).Some? {
      StrandedStays(b, h, s, moves[0]);
      StepKeepsState(b, s, moves[0]);
      StrandedNeverSolves(b, h, Step(b, s, moves[0]).value.state, moves[1..]);
    }
  }
}
