/** Child building (push.rs): the canonical order of boxes, the contract of the estimates, and what
    can be said of a child's f before it is built. */
module Pushes {
  import opened Rules
  import opened Bfs
  import opened Reach
  import opened PushGraph
  import opened Frontiers
  import opened PocketTheory
  import Pockets

  // ---------------------------------------------------------------- canonical order

  /** Every box slot, in order. */
  function AllSlots(n: nat): seq<nat> {
    seq(n, i => i)
  }

  /** Boxes of one label stand in ascending cells. */
  ghost predicate CanonicalState(b: Board, s: State) {
    |s.boxes| == |b.labels| && Canonical(b, AllSlots(|b.labels|), s.boxes)
  }

  lemma PairsAreEntries(b: Board, s: State)
    requires |s.boxes| == |b.labels|
    ensures Pairs(b, s) == EntryPairs(b, AllSlots(|b.labels|), s.boxes)
  {
    var slots := AllSlots(|b.labels|);
    forall p | p in Pairs(b, s) ensures p in EntryPairs(b, slots, s.boxes) {
      var i: nat :| i < |s.boxes| && p == (b.labels[i], s.boxes[i]);
      assert p == (b.labels[slots[i]], s.boxes[i]);
    }
  }

  /** Reordering the boxes within their labels gives the same position. */
  lemma ReorderedIsSame(b: Board, s: State, cells: seq<Cell>)
    requires ValidState(b, s) && Reordered(b, AllSlots(|b.labels|), cells, s.boxes)
    ensures ValidState(b, State(s.player, cells)) && SamePosition(b, s, State(s.player, cells))
  {
    Pockets.ReorderedDistinct(cells, s.boxes);
    PairsAreEntries(b, s);
    PairsAreEntries(b, State(s.player, cells));
    forall i | 0 <= i < |cells|
      ensures b.Floor(cells[i]) && cells[i] != s.player
    {
      Pockets.ReorderedMembers(cells, s.boxes, cells[i]);
      var j: nat :| j < |s.boxes| && s.boxes[j] == cells[i];
    }
  }

  /** Restores the canonical order after box `i` alone moved. */
  method SettleBox(b: Board, s: State, i: nat) returns (r: State)
    requires b.Valid() && ValidState(b, s) && i < |s.boxes|
    requires SortedBut(b, AllSlots(|b.labels|), s.boxes, i)
    ensures ValidState(b, r) && CanonicalState(b, r) && SamePosition(b, s, r) && r.player == s.player
  {
    var cells := Settle(b, AllSlots(|b.labels|), s.boxes, i);
    ReorderedIsSame(b, s, cells);
    r := State(s.player, cells);
  }

  /** Sorts interchangeable boxes so that states compare canonically. */
  method Canonicalize(b: Board, s: State) returns (r: State)
    requires b.Valid() && ValidState(b, s)
    ensures ValidState(b, r) && CanonicalState(b, r) && SamePosition(b, s, r)
  {
    var n := |s.boxes|;
    var cells := s.boxes;
    for k := 0 to n
      invariant Reordered(b, AllSlots(n), cells, s.boxes)
      invariant SortedUpTo(b, cells, k)
    {
      cells := SettlePrefix(b, s, cells, k);
    }
    ReorderedIsSame(b, s, cells);
    r := State(s.player, cells);
  }

  /** The first `k` boxes are in canonical order. */
  ghost predicate SortedUpTo(b: Board, cells: seq<Cell>, k: nat)
    requires |cells| == |b.labels|
  {
    k <= |cells| && Canonical(b, AllSlots(|cells|)[..k], cells[..k])
  }

  method SettlePrefix(b: Board, s: State, cells: seq<Cell>, k: nat) returns (r: seq<Cell>)
    requires b.Valid() && ValidState(b, s) && k < |cells| == |b.labels| && SortedUpTo(b, cells, k)
    requires Reordered(b, AllSlots(|b.labels|), cells, s.boxes)
    ensures Reordered(b, AllSlots(|b.labels|), r, s.boxes) && SortedUpTo(b, r, k + 1)
  {
    var n := |cells|;
    var slots := AllSlots(n);
    var some, here := slots[..k + 1], cells[..k + 1];
    assert some[..k] == slots[..k] && here[..k] == cells[..k];
    forall i: nat, j: nat | i < j < k + 1 && i != k && j != k && SameLabel(b, some, i, j)
      ensures here[i] <= here[j]
    {
      assert SameLabel(b, slots[..k], i, j);
      assert cells[..k][i] <= cells[..k][j];
    }
    var head := Settle(b, some, here, k);
    r := head + cells[k + 1..];
    PrefixReordered(b, cells, head, k + 1);
    assert r[..k + 1] == head;
  }

  /** Reordering a prefix reorders the whole. */
  lemma PrefixReordered(b: Board, cells: seq<Cell>, head: seq<Cell>, k: nat)
    requires |cells| == |b.labels| && k <= |cells|
    requires Reordered(b, AllSlots(|cells|)[..k], head, cells[..k])
    ensures Reordered(b, AllSlots(|cells|), head + cells[k..], cells)
  {
    var slots, r := AllSlots(|cells|), head + cells[k..];
    assert cells == cells[..k] + cells[k..];
    forall p | p in EntryPairs(b, slots, r) ensures p in EntryPairs(b, slots, cells) {
      var i :| 0 <= i < |r| && p == (b.labels[slots[i]], r[i]);
      PrefixPair(b, cells[..k], head, cells[k..], k, i);
    }
    forall p | p in EntryPairs(b, slots, cells) ensures p in EntryPairs(b, slots, r) {
      var i :| 0 <= i < |cells| && p == (b.labels[slots[i]], cells[i]);
      PrefixPair(b, head, cells[..k], cells[k..], k, i);
    }
  }

  lemma PrefixPair(b: Board, to: seq<Cell>, head: seq<Cell>, tail: seq<Cell>, k: nat, i: nat)
    requires |to| == |head| == k && k + |tail| == |b.labels| && i < k + |tail|
    requires EntryPairs(b, AllSlots(|b.labels|)[..k], head) == EntryPairs(b, AllSlots(|b.labels|)[..k], to)
    ensures (b.labels[i], (head + tail)[i]) in EntryPairs(b, AllSlots(|b.labels|), to + tail)
  {
    var slots := AllSlots(|b.labels|);
    var p := (b.labels[i], (head + tail)[i]);
    if i < k {
      assert p == (b.labels[slots[..k][i]], head[i]);
      assert p in EntryPairs(b, slots[..k], head);
      var j :| 0 <= j < |to| && p == (b.labels[slots[..k][j]], to[j]);
      assert p == (b.labels[slots[j]], (to + tail)[j]);
    } else {
      assert p == (b.labels[slots[i]], (to + tail)[i]);
    }
  }

  /** A position has one canonical state. */
  lemma CanonicalStateIsUnique(b: Board, s: State, t: State)
    requires b.Valid() && ValidState(b, s) && ValidState(b, t) && CanonicalState(b, s) && CanonicalState(b, t)
    requires SamePosition(b, s, t)
    ensures s == t
  {
    PairsAreEntries(b, s);
    PairsAreEntries(b, t);
    CanonicalIsUnique(b, AllSlots(|b.labels|), s.boxes, t.boxes);
  }

  // ---------------------------------------------------------------- costs

  /** The start reaches the position in exactly `n` moves. */
  ghost predicate ReachedIn(b: Board, start: State, s: State, n: nat) {
    exists moves {:trigger Play(b, start, moves)} ::
      |moves| == n && Play(b, start, moves).Some? && SamePosition(b, Play(b, start, moves).value, s)
  }

  ghost predicate FromStart(b: Board, start: State, s: State) {
    exists n: nat :: ReachedIn(b, start, s, n)
  }

  /** `g` is the length of a run from the start, saturated. */
  ghost predicate CostOf(b: Board, start: State, s: State, g: nat) {
    exists n: nat :: ReachedIn(b, start, s, n) && g == Min(n, G_SAT)
  }

  lemma ChildReached(b: Board, start: State, s: State, n: nat, i: nat, d: nat, dirs: seq<nat>, next: State)
    requires b.ValidTable() && ValidState(b, start) && ValidState(b, s) && ReachedIn(b, start, s, n)
    requires WalkToPush(b, s, i, d, dirs) && SamePosition(b, Child(b, s, i, d), next)
    ensures ReachedIn(b, start, next, n + |dirs| + 1)
  {
    var moves :| |moves| == n && Play(b, start, moves).Some? && SamePosition(b, Play(b, start, moves).value, s);
    var t := Play(b, start, moves).value;
    PlayKeepsState(b, start, moves);
    PushPlays(b, s, i, d, dirs);
    PlaySamePosition(b, s, t, dirs + [d]);
    PlayConcat(b, start, moves, dirs + [d]);
    assert |moves + (dirs + [d])| == n + |dirs| + 1;
    assert SamePosition(b, Play(b, start, moves + (dirs + [d])).value, next);
  }

  lemma ChildCost(b: Board, start: State, s: State, g: nat, i: nat, d: nat, dirs: seq<nat>, next: State)
    requires b.ValidTable() && ValidState(b, start) && ValidState(b, s) && CostOf(b, start, s, g)
    requires WalkToPush(b, s, i, d, dirs) && SamePosition(b, Child(b, s, i, d), next)
    ensures CostOf(b, start, next, PushG(g, |dirs|)) && FromStart(b, start, next)
  {
    var n: nat :| ReachedIn(b, start, s, n) && g == Min(n, G_SAT);
    ChildReached(b, start, s, n, i, d, dirs, next);
  }

  /** A solved position's exact cost is the length of a solution of the start. */
  lemma SolvedCost(b: Board, start: State, s: State, g: nat)
    requires CostOf(b, start, s, g) && Solved(b, s) && g < G_SAT
    ensures SolvesIn(b, start, g)
  {
    var n: nat :| ReachedIn(b, start, s, n) && g == Min(n, G_SAT);
    var moves :| |moves| == n && Play(b, start, moves).Some? && SamePosition(b, Play(b, start, moves).value, s);
    SolvedSamePosition(b, s, Play(b, start, moves).value);
    assert Solution(b, start, moves);
  }

  lemma StartCost(b: Board, start: State)
    requires |start.boxes| == |b.labels|
    ensures CostOf(b, start, start, 0) && FromStart(b, start, start)
  {
    assert Play(b, start, []) == Some(start) && SamePosition(b, start, start);
    assert ReachedIn(b, start, start, 0);
  }

  // ---------------------------------------------------------------- estimates

  /** The heuristic's answers: the assignment's cost, the keeper's charge on a cell, whether a
      push leaves its box dead, the root's estimate, and the walk to a child's first push that
      the assignment leaves uncounted. */
  datatype Estimates = Estimates(estimate: State -> Option<nat>, charge: Cell -> nat,
    deadAfter: (nat, Cell, nat) -> bool,
                                 rootEstimate: State -> nat, standWalk: State -> nat)

  /** No solution of `s` is shorter than `h`. */
  ghost predicate Admissible(b: Board, s: State, h: nat) {
    forall n: nat | SolvesIn(b, s, n) :: h <= n
  }

  /** What heuristic.rs promises about a state on its own: less the keeper's charge the estimate
      is admissible, with the stand walk added too, and a missing one means no solution. */
  ghost predicate AdmissibleAt(b: Board, e: Estimates, s: State) {
    && (Solvable(b, s) ==> e.estimate(s).Some?)
    && (e.estimate(s).Some? ==> forall n: nat | SolvesIn(b, s, n) :: e.estimate(s).value <= n + e.charge(s.player))
    && (e.estimate(s).Some? && !Solved(b, s) ==>
          forall n: nat | SolvesIn(b, s, n) :: e.estimate(s).value + e.standWalk(s) <= n + e.charge(s.player))
    && (e.estimate(s).Some? ==> forall i | 0 <= i < |s.boxes| :: e.charge(s.boxes[i]) == 0)
  }

  /** And about a state and its children: one push takes at most a move and the charge of its stand
      off the estimate. */
  ghost predicate SoundAt(b: Board, e: Estimates, s: State) {
    && AdmissibleAt(b, e, s)
    && (forall i, d, dirs {:trigger WalkToPush(b, s, i, d, dirs)} | WalkToPush(b, s, i, d, dirs) ::
      PushSound(b, e, s, i, d))
  }

  ghost predicate PushSound(b: Board, e: Estimates, s: State, i: nat, d: nat)
    requires i < |s.boxes|
  {
    && (e.estimate(s).Some? && e.estimate(Child(b, s, i, d)).Some? ==>
          e.estimate(s).value <= e.estimate(Child(b, s, i, d)).value + 1 + e.charge(Stand(b, s, i, d)))
    && (e.deadAfter(i, b.Next(s.boxes[i], d), d) ==> e.estimate(Child(b, s, i, d)).None?)
  }

  /** The contract of the heuristic, over every position the start can reach. */
  ghost predicate Sound(b: Board, start: State, e: Estimates) {
    && Admissible(b, start, e.rootEstimate(start))
    && (forall c: Cell, d: nat {:trigger b.Next(c, d)} | b.Next(c, d) != NONE ::
      e.charge(b.Next(c, d)) <= e.charge(c) + 1)
    && (forall s {:trigger SoundAt(b, e, s)} | FromStart(b, start, s) && ValidState(b, s) :: SoundAt(b, e, s))
  }

  /** The room bound's projection prices every position no higher than its shortest solution. */
  ghost predicate RoomsSound(b: Board, start: State, rooms: State -> Option<nat>) {
    forall s {:trigger rooms(s)} | FromStart(b, start, s) && ValidState(b, s) ::
      (Solvable(b, s) ==> rooms(s).Some?) && (rooms(s).Some? ==> Admissible(b, s, rooms(s).value))
  }

  lemma SolvesInSolvable(b: Board, s: State, n: nat)
    requires SolvesIn(b, s, n)
    ensures Solvable(b, s)
  {
    var moves :| Solution(b, s, moves) && |moves| == n;
  }

  /** Along a walk the charge rises no faster than the moves are spent. */
  lemma {:induction false} ChargeAlongWalk(b: Board, e: Estimates, blocked: set<Cell>, a: Cell, dirs: seq<nat>, c: Cell)
    requires forall c: Cell, d: nat {:trigger b.Next(c, d)} | b.Next(c, d) != NONE ::
               e.charge(b.Next(c, d)) <= e.charge(c) + 1
    requires IsWalk(b, blocked, a, dirs, c)
    ensures e.charge(c) <= e.charge(a) + |dirs|
    decreases |dirs|
  {
    if dirs != [] {
      ChargeAlongWalk(b, e, blocked, b.Next(a, dirs[0]), dirs[1..], c);
    }
  }

  /** With the parent's g + h and no charge at the keeper, a lower bound on how much the f of the
      child exceeds it. There is none while the child might be solved. */
  function Excess(e: Estimates, stand: Cell, walk: nat, parentH: nat): Option<nat> {
    var charge := e.charge(stand);
    if parentH > 1 + charge then Some(if walk >= charge then walk - charge else 0) else None
  }

  /** The excess never passes what a solution through the push costs. */
  lemma ExcessIsAdmissible(b: Board, start: State, e: Estimates, s: State, i: nat, d: nat, walk: nat, dirs: seq<nat>,
                           rest: nat)
    requires b.ValidTable() && ValidState(b, start) && ValidState(b, s) && FromStart(b, start, s) && Sound(b, start, e)
    requires e.estimate(s).Some? && e.charge(s.player) == 0
    requires WalkToPush(b, s, i, d, dirs) && walk <= |dirs| && SolvesIn(b, Child(b, s, i, d), rest)
    requires exists dirs' {:trigger WalkToPush(b, s, i, d, dirs')} :: WalkToPush(b, s, i, d, dirs') && |dirs'| == walk
    requires Excess(e, Stand(b, s, i, d), walk, e.estimate(s).value).Some?
    ensures e.estimate(s).value + Excess(e, Stand(b, s, i, d), walk, e.estimate(s).value).value <= |dirs| + 1 + rest
  {
    var child := Child(b, s, i, d);
    var dirs' :| WalkToPush(b, s, i, d, dirs') && |dirs'| == walk;
    ChargeAlongWalk(b, e, CellSet(s.boxes), s.player, dirs', Stand(b, s, i, d));
    PushPlays(b, s, i, d, dirs);
    var n: nat :| ReachedIn(b, start, s, n);
    ChildReached(b, start, s, n, i, d, dirs, child);
    SolvesInSolvable(b, child, rest);
    assert SoundAt(b, e, s) && SoundAt(b, e, child);
    assert PushSound(b, e, s, i, d);
  }

  /** An unsolved child's solutions are longer than its own assignment: nothing is left out. */
  lemma EstimateIsAdmissible(b: Board, start: State, e: Estimates, s: State)
    requires Sound(b, start, e) && FromStart(b, start, s) && ValidState(b, s)
    requires e.estimate(s).Some? && e.charge(s.player) == 0
    ensures Admissible(b, s, e.estimate(s).value)
    ensures !Solved(b, s) ==> Admissible(b, s, e.estimate(s).value + e.standWalk(s))
  {
    assert SoundAt(b, e, s);
  }

  /** Estimates that know nothing. */
  const BLIND: Estimates := Estimates(_ => Some(0), _ => 0, (i, c, d) => false, _ => 0, _ => 0)

  /** The promises can be kept on every board: knowing nothing keeps them. */
  lemma BlindIsSound(b: Board, start: State)
    ensures Sound(b, start, BLIND)
  {
    forall s ensures SoundAt(b, BLIND, s) {
    }
  }

  // ---------------------------------------------------------------- why the walk bound needs more

  /** A corridor of five cells: the keeper on the first, a box on the third, its goal on the
      last. */
  const CORRIDOR: Board := Board(5, 1, [
    [NONE, NONE, NONE, 1], [NONE, NONE, 0, 2], [NONE, NONE, 1, 3], [NONE, NONE, 2, 4], [NONE, NONE, 3, NONE]],
    [FLOOR, FLOOR, FLOOR, FLOOR, LABEL_A], [LABEL_A], [(4, LABEL_A)], State(0, [2]))

  /** Right at the start and knowing nothing elsewhere: admissible, yet one push lowers it by
      more than the push costs. */
  const UNEVEN: Estimates := 
    Estimates(s => Some(if s == CORRIDOR.initial then 3 else 0), _ => 0, (i, c, d) => false, _ => 3, _ => 0)

  lemma CorridorIsValid()
    ensures CORRIDOR.Valid() && ValidState(CORRIDOR, CORRIDOR.initial)
  {
    var b := CORRIDOR;
    forall c, d ensures b.Mirrored(c, d) {
    }
    forall l | LABEL_A <= l <= LABEL_Z ensures |b.Goals(l)| == |b.Slots(l)| {
      assert b.Goals(l) == if l == LABEL_A then {4} else {};
      assert b.Slots(l) == if l == LABEL_A then {0} else {};
    }
    assert b.goals[0] == (4, LABEL_A);
  }

  lemma CorridorSteps(d: nat)
    ensures Step(CORRIDOR, CORRIDOR.initial, d).Some? ==>
              Step(CORRIDOR, CORRIDOR.initial, d).value.state == State(1, [2])
    ensures var r := Step(CORRIDOR, State(1, [2]), d);
            r.Some? ==> r.value.state == State(0, [2]) || r.value.state == State(2, [3])
  {
    assert CORRIDOR.Next(1, 0) == NONE && CORRIDOR.Next(1, 1) == NONE && CORRIDOR.Next(1, 2) == 0 &&
      CORRIDOR.Next(1, 3) == 2;
    assert CORRIDOR.Next(0, 0) == NONE && CORRIDOR.Next(0, 1) == NONE && CORRIDOR.Next(0, 2) == NONE &&
      CORRIDOR.Next(0, 3) == 1;
    assert IndexOf([2], 2) == 0;
  }

  lemma CorridorUnsolved(s: State)
    requires s == State(0, [2]) || s == State(1, [2]) || s == State(2, [3])
    ensures !Solved(CORRIDOR, s)
  {
    assert !CORRIDOR.OnGoal(0, s.boxes[0]);
  }

  lemma OneStepUnsolved(rest: seq<nat>)
    requires |rest| <= 1
    ensures !Solution(CORRIDOR, State(1, [2]), rest)
  {
    var b, s := CORRIDOR, State(1, [2]);
    CorridorUnsolved(s);
    if |rest| == 1 {
      CorridorSteps(rest[0]);
      CorridorUnsolved(State(0, [2]));
      CorridorUnsolved(State(2, [3]));
      assert rest[1..] == [];
      assert Play(b, s, rest) == match Step(b, s, rest[0]) case None => None case Some(t) => Play(b, t.state, []);
    }
  }

  /** The keeper has one step to take and the box two to go: no run shorter than three solves. */
  lemma CorridorTakesThree(moves: seq<nat>)
    requires |moves| < 3
    ensures !Solution(CORRIDOR, CORRIDOR.initial, moves)
  {
    CorridorUnsolved(CORRIDOR.initial);
    if moves != [] {
      CorridorSteps(moves[0]);
      OneStepUnsolved(moves[1..]);
    }
  }

  /** Without the promise about a push the walk bound is wrong: on the corridor an estimate that
      keeps every other promise puts the only push past what its solution costs. */
  lemma ExcessNeedsPushSound()
    ensures CORRIDOR.Valid() && ValidState(CORRIDOR, CORRIDOR.initial) && Sound(CORRIDOR, CORRIDOR.initial, BLIND)
    ensures Admissible(CORRIDOR, CORRIDOR.initial, UNEVEN.rootEstimate(CORRIDOR.initial))
    ensures forall s :: AdmissibleAt(CORRIDOR, UNEVEN, s)
    ensures forall c: Cell, d: nat {:trigger CORRIDOR.Next(c, d)} | CORRIDOR.Next(c, d) != NONE ::
              UNEVEN.charge(CORRIDOR.Next(c, d)) <= UNEVEN.charge(c) + 1
    ensures var s := CORRIDOR.initial;
            && WalkToPush(CORRIDOR, s, 0, 3, [3]) && (forall dirs | WalkToPush(CORRIDOR, s, 0, 3, dirs) :: 1 <= |dirs|)
            && SolvesIn(CORRIDOR, Child(CORRIDOR, s, 0, 3), 1)
            && Excess(UNEVEN, Stand(CORRIDOR, s, 0, 3), 1, UNEVEN.estimate(s).value) == Some(1)
            && UNEVEN.estimate(s).value + 1 > |[3]| + 1 + 1
  {
    var b, s := CORRIDOR, CORRIDOR.initial;
    CorridorIsValid();
    BlindIsSound(b, s);
    forall n: nat | SolvesIn(b, s, n) ensures 3 <= n {
      var moves :| Solution(b, s, moves) && |moves| == n;
      if n < 3 { CorridorTakesThree(moves); }
    }
    assert b.Next(0, 3) == 1 && [3][1..] == [];
    assert Path(Free(b, CellSet(s.boxes)), 1, [], 1);
    var child := Child(b, s, 0, 3);
    assert child == State(2, [3]);
    assert Step(b, child, 3).value.state == State(3, [4]);
    assert Play(b, State(3, [4]), []) == Some(State(3, [4]));
    assert Play(b, child, [3]) == Some(State(3, [4]));
    assert Solution(b, child, [3]);
  }
}
