/** Sealed corrals (corral.rs): a corral is what the keeper's region leaves over around a box. One
    with something left to do, and no push into which is safe, proves the state dead. */
module Corrals {
  import opened Rules
  import opened Bfs
  import opened Reach
  import opened DeadCells
  import opened Freeze
  import opened Deadlocks

  /** A corral with more potential pushes than this is not judged. */
  const CAP: nat := 6
  const U32_MAX: nat := 0xFFFF_FFFF

  /** Box `i` shoved one cell, `from` to `to`. */
  datatype Shove = Shove(i: nat, from: Cell, to: Cell)

  // ---------------------------------------------------------------- what a corral is

  /** `c` is joined to `seed` through cells outside `reached`. */
  ghost predicate InCorral(b: Board, reached: set<Cell>, seed: Cell, c: Cell) {
    c < |b.tiles| && Connected(b, reached, seed, c)
  }

  ghost function CorralCells(b: Board, reached: set<Cell>, seed: Cell): set<Cell> {
    set c: Cell | 0 <= c < |b.tiles| && InCorral(b, reached, seed, c)
  }

  ghost function MembersOf(boxes: seq<Cell>, corral: set<Cell>): set<nat> {
    set j: nat | 0 <= j < |boxes| && boxes[j] in corral
  }

  /** In the state as it is, the keeper can get behind box `j`, and direction `d` has a box-free
      floor cell for it. */
  ghost predicate Potential(b: Board, boxes: seq<Cell>, reached: set<Cell>, j: nat, d: nat) {
    && j < |boxes| && d < 4
    && b.Next(boxes[j], d) != NONE && b.Next(boxes[j], Opposite(d)) != NONE
    && b.Next(boxes[j], d) !in boxes && b.Next(boxes[j], Opposite(d)) in reached
  }

  ghost function PotentialPushes(b: Board, boxes: seq<Cell>, reached: set<Cell>, members: set<nat>): set<(nat, nat)> {
    set j, d | j in members && d in {0, 1, 2, 3} && Potential(b, boxes, reached, j, d) :: (j, d)
  }

  /** The push lands on a dead cell, or freezes a member off its goal with the members alone. */
  ghost predicate Fatal(b: Board, h: Heuristic, boxes: seq<Cell>, members: set<nat>, j: nat, to: Cell)
    requires |boxes| == |b.labels|
  {
    j < |boxes| && (h.Dead(b.labels[j], to) || DeadAfterPush(b, h, boxes[j := to], members, j))
  }

  /** A box of the corral is off its goal, or a goal in it is empty. */
  ghost predicate GoalOpen(b: Board, boxes: seq<Cell>, corral: set<Cell>) {
    || (exists j: nat :: j in MembersOf(boxes, corral) && !b.OnGoal(j, boxes[j]))
    || (exists c :: c in corral && c < |b.tiles| && b.tiles[c] != FLOOR && c !in boxes)
  }

  ghost predicate AllFatal(b: Board, h: Heuristic, boxes: seq<Cell>, reached: set<Cell>, members: set<nat>)
    requires |boxes| == |b.labels|
  {
    forall j: nat, d: nat | j in members && Potential(b, boxes, reached, j, d) ::
      Fatal(b, h, boxes, members, j, b.Next(boxes[j], d))
  }

  /** What the detector flags: an empty cell, something left to do, few pushes, all fatal. */
  ghost predicate DeadCorral(b: Board, h: Heuristic, boxes: seq<Cell>, reached: set<Cell>, corral: set<Cell>)
    requires |boxes| == |b.labels|
  {
    var members := MembersOf(boxes, corral);
    && |corral| != |members|
    && GoalOpen(b, boxes, corral)
    && |PotentialPushes(b, boxes, reached, members)| <= CAP
    && AllFatal(b, h, boxes, reached, members)
  }

  // ---------------------------------------------------------------- soundness over runs

  /** `corral` is sealed off from the cells `reached` in the state `s0`. */
  ghost predicate Sealed(b: Board, s0: State, reached: set<Cell>, corral: set<Cell>) {
    && (forall c: Cell :: c in reached <==> Connected(b, CellSet(s0.boxes), s0.player, c))
    && corral !! reached
    && (forall c | c in corral :: b.Floor(c))
    && (forall c, d: nat {:trigger b.Next(c, d)} | c in corral && b.Next(c, d) != NONE && b.Next(c, d) !in reached ::
      b.Next(c, d) in corral)
  }

  /** Until a member moves: members stand where they stood, nobody else is inside. */
  ghost predicate Quiet(b: Board, s0: State, corral: set<Cell>, s: State) {
    && ValidState(b, s) && |s.boxes| == |s0.boxes|
    && s.player !in corral
    && (forall j | 0 <= j < |s.boxes| && s0.boxes[j] in corral :: s.boxes[j] == s0.boxes[j])
    && (forall j | 0 <= j < |s.boxes| && s0.boxes[j] !in corral :: s.boxes[j] !in corral)
  }

  /** A cell outside the corral next to one inside is reached, and the inner one holds a box. */
  lemma BorderIsBox(b: Board, s0: State, reached: set<Cell>, corral: set<Cell>, x: Cell, d: nat)
    requires b.Valid() && ValidState(b, s0) && Sealed(b, s0, reached, corral)
    requires b.Next(x, d) in corral && x !in corral && b.Next(x, d) != NONE
    ensures x in reached && b.Next(x, d) in s0.boxes
  {
    var c := b.Next(x, d);
    MirrorOf(b, x, d);
    assert b.Next(c, Opposite(d)) == x;
    if c !in s0.boxes {
      ConnectedStep(b, CellSet(s0.boxes), s0.player, x, d);
    }
  }

  /** A box of the initial state that stands inside stands there still. */
  lemma InsideBoxStays(b: Board, s0: State, corral: set<Cell>, s: State, c: Cell)
    requires Quiet(b, s0, corral, s) && c in corral && c in s0.boxes
    ensures c in s.boxes
  {
    var j :| 0 <= j < |s0.boxes| && s0.boxes[j] == c;
    assert s.boxes[j] == c;
  }

  lemma ReachedHoldsNoBox(b: Board, s0: State, reached: set<Cell>, corral: set<Cell>, c: Cell)
    requires b.Valid() && ValidState(b, s0) && Sealed(b, s0, reached, corral) && c in reached
    ensures c !in s0.boxes
  {
    var dirs :| IsWalk(b, CellSet(s0.boxes), s0.player, dirs, c);
    WalkStaysFree(b, CellSet(s0.boxes), s0.player, dirs, c);
  }

  /** A step that moves no member keeps the corral quiet. */
  lemma QuietStays(b: Board, s0: State, reached: set<Cell>, corral: set<Cell>, s: State, d: nat)
    requires b.Valid() && ValidState(b, s0) && Sealed(b, s0, reached, corral) && Quiet(b, s0, corral, s)
    requires Step(b, s, d).Some?
    requires Step(b, s, d).value.move.Push? ==>
      Step(b, s, d).value.move.slot < |s0.boxes| && s0.boxes[Step(b, s, d).value.move.slot] !in corral
    ensures Quiet(b, s0, corral, Step(b, s, d).value.state)
  {
    StepKeepsState(b, s, d);
    var t := Step(b, s, d).value;
    var next := t.state.player;
    if t.move.Walk? {
      if next in corral {
        BorderIsBox(b, s0, reached, corral, s.player, d);
        InsideBoxStays(b, s0, corral, s, next);
      }
    } else {
      var to := b.Next(next, d);
      if to in corral {
        BorderIsBox(b, s0, reached, corral, next, d);
        InsideBoxStays(b, s0, corral, s, to);
      }
    }
  }

  /** The first push of a member is a potential push of the initial state. */
  lemma FirstPushIsPotential(b: Board, s0: State, reached: set<Cell>, corral: set<Cell>, s: State, d: nat)
    requires b.Valid() && ValidState(b, s0) && Sealed(b, s0, reached, corral) && Quiet(b, s0, corral, s)
    requires Step(b, s, d).Some? && Step(b, s, d).value.move.Push?
    requires var i := Step(b, s, d).value.move.slot; i < |s0.boxes| && s0.boxes[i] in corral
    ensures Potential(b, s0.boxes, reached, Step(b, s, d).value.move.slot, d)
  {
    StepKeepsState(b, s, d);
    var t := Step(b, s, d).value;
    var i := t.move.slot;
    var n, to := t.state.player, b.Next(t.state.player, d);
    assert s0.boxes[i] == s.boxes[i] == n;
    MirrorOf(b, s.player, d);
    BorderIsBox(b, s0, reached, corral, s.player, d);
    if to in s0.boxes {
      if to in corral {
        InsideBoxStays(b, s0, corral, s, to);
      } else {
        assert to in reached;
        ReachedHoldsNoBox(b, s0, reached, corral, to);
      }
    }
  }

  /** A fatal first push leaves no solution, wherever the other boxes went before it. */
  lemma FatalPushIsDead(b: Board, h: Heuristic, s0: State, corral: set<Cell>, s: State, d: nat)
    requires b.Valid() && Exact(b, h) && ValidState(b, s0) && Quiet(b, s0, corral, s)
    requires Step(b, s, d).Some? && Step(b, s, d).value.move.Push?
    requires var i := Step(b, s, d).value.move.slot;
             && i in MembersOf(s0.boxes, corral)
             && Fatal(b, h, s0.boxes, MembersOf(s0.boxes, corral), i, b.Next(s0.boxes[i], d))
    ensures !Solvable(b, Step(b, s, d).value.state)
  {
    StepKeepsState(b, s, d);
    var t := Step(b, s, d).value;
    var i := t.move.slot;
    var to := b.Next(s0.boxes[i], d);
    var members := MembersOf(s0.boxes, corral);
    assert t.state.boxes[i] == to;
    if h.Dead(b.labels[i], to) {
      assert Stranded(b, h, t.state);
      StrandedIsDead(b, h, t.state);
    } else {
      var after := s0.boxes[i := to];
      forall p | p in PlacedAmong(b, after, members)
        ensures p in Pairs(b, t.state)
      {
        var j :| j in members && j < |after| && p == (b.labels[j], after[j]);
        assert t.state.boxes[j] == after[j];
      }
      DeadAfterPushIsSound(b, h, after, members, i, t.state);
    }
  }

  /** With a goal open and every member where it stood, no quiet state is solved. */
  lemma QuietIsUnsolved(b: Board, s0: State, corral: set<Cell>, s: State)
    requires b.Valid() && ValidState(b, s0) && Quiet(b, s0, corral, s)
    requires forall c | c in corral :: b.Floor(c)
    requires GoalOpen(b, s0.boxes, corral)
    ensures !Solved(b, s)
  {
    if j: nat :| j in MembersOf(s0.boxes, corral) && !b.OnGoal(j, s0.boxes[j]) {
      assert !b.OnGoal(j, s.boxes[j]);
    } else {
      var c: Cell :| c in corral && c < |b.tiles| && b.tiles[c] != FLOOR && c !in s0.boxes;
      assert c !in s.boxes;
      if Solved(b, s) { SolvedFillsGoals(b, s, c); }
    }
  }

  lemma {:induction false} QuietNeverSolves(b: Board, h: Heuristic, s0: State, reached: set<Cell>, corral: set<Cell>,
                                            s: State, moves: seq<nat>)
    requires b.Valid() && Exact(b, h) && ValidState(b, s0) && Sealed(b, s0, reached, corral) && Quiet(b, s0, corral, s)
    requires GoalOpen(b, s0.boxes, corral) && AllFatal(b, h, s0.boxes, reached, MembersOf(s0.boxes, corral))
    ensures !Solution(b, s, moves)
    decreases |moves|
  {
    if moves == [] {
      QuietIsUnsolved(b, s0, corral, s);
    } else if Step(b, s, moves[0]).Some? {
      StepKeepsState(b, s, moves[0]);
      var t := Step(b, s, moves[0]).value;
      if t.move.Push? && s0.boxes[t.move.slot] in corral {
        FirstPushIsPotential(b, s0, reached, corral, s, moves[0]);
        FatalPushIsDead(b, h, s0, corral, s, moves[0]);
        assert !Solution(b, t.state, moves[1..]);
      } else {
        QuietStays(b, s0, reached, corral, s, moves[0]);
        QuietNeverSolves(b, h, s0, reached, corral, t.state, moves[1..]);
      }
    }
  }

  /** The corral flooded from an unreached cell is sealed. */
  lemma CorralIsSealed(b: Board, s0: State, reached: set<Cell>, seed: Cell)
    requires b.Valid() && ValidState(b, s0) && b.Floor(seed) && seed !in reached
    requires forall c: Cell :: c in reached <==> Connected(b, CellSet(s0.boxes), s0.player, c)
    ensures Sealed(b, s0, reached, CorralCells(b, reached, seed))
    ensures Quiet(b, s0, CorralCells(b, reached, seed), s0)
  {
    var corral := CorralCells(b, reached, seed);
    forall c | c in corral
      ensures c !in reached && b.Floor(c)
    {
      var dirs :| IsWalk(b, reached, seed, dirs, c);
      WalkStaysFree(b, reached, seed, dirs, c);
    }
    forall c, d: nat | c in corral && b.Next(c, d) != NONE && b.Next(c, d) !in reached
      ensures b.Next(c, d) in corral
    {
      ConnectedStep(b, reached, seed, c, d);
    }
    ConnectedSelf(b, CellSet(s0.boxes), s0.player);
  }

  /** Corral soundness: a flagged corral leaves no solution. */
  lemma DeadCorralIsDead(b: Board, h: Heuristic, s0: State, reached: set<Cell>, seed: Cell)
    requires b.Valid() && Exact(b, h) && ValidState(b, s0) && b.Floor(seed) && seed !in reached
    requires forall c: Cell :: c in reached <==> Connected(b, CellSet(s0.boxes), s0.player, c)
    requires DeadCorral(b, h, s0.boxes, reached, CorralCells(b, reached, seed))
    ensures !Solvable(b, s0)
  {
    CorralIsSealed(b, s0, reached, seed);
    forall moves ensures !Solution(b, s0, moves) {
      QuietNeverSolves(b, h, s0, reached, CorralCells(b, reached, seed), s0, moves);
    }
  }

  // ---------------------------------------------------------------- what a verdict means

  /** A solved placement of the boxes that leaves a corral alone: its boxes stand where they
      stood, and no other box is in it. */
  ghost predicate LeftAlone(b: Board, boxes: seq<Cell>, corral: set<Cell>, cells: seq<Cell>) {
    && |cells| == |boxes| && Solved(b, State(0, cells))
    && (forall i, j | 0 <= i < j < |cells| :: cells[i] != cells[j])
    && (forall j | 0 <= j < |cells| :: if boxes[j] in corral then cells[j] == boxes[j] else cells[j] !in corral)
  }

  /** A corral has something left to do exactly when no solved placement leaves it alone. */
  lemma OpenIsNotLeftAlone(b: Board, boxes: seq<Cell>, corral: set<Cell>)
    requires b.Valid() && |boxes| == |b.labels| && forall i, j | 0 <= i < j < |boxes| :: boxes[i] != boxes[j]
    requires forall c | c in corral :: b.Floor(c)
    ensures GoalOpen(b, boxes, corral) <==> forall cells :: !LeftAlone(b, boxes, corral, cells)
  {
    if GoalOpen(b, boxes, corral) {
      forall cells ensures !LeftAlone(b, boxes, corral, cells) {
        if LeftAlone(b, boxes, corral, cells) { LeftAloneIsShut(b, boxes, corral, cells); }
      }
    } else {
      var cells := PlacedAround(b, boxes, corral, |boxes|);
      assert LeftAlone(b, boxes, corral, cells);
    }
  }

  lemma LeftAloneIsShut(b: Board, boxes: seq<Cell>, corral: set<Cell>, cells: seq<Cell>)
    requires b.Valid() && |boxes| == |b.labels| && LeftAlone(b, boxes, corral, cells)
    requires forall c | c in corral :: b.Floor(c)
    ensures !GoalOpen(b, boxes, corral)
  {
    forall j | j in MembersOf(boxes, corral) ensures b.OnGoal(j, boxes[j]) {
      assert b.OnGoal(j, State(0, cells).boxes[j]);
    }
    forall c | c in corral && c < |b.tiles| && b.tiles[c] != FLOOR ensures c in boxes {
      SolvedFillsGoals(b, State(0, cells), c);
      var j :| 0 <= j < |cells| && cells[j] == c;
      assert boxes[j] == c;
    }
  }

  /** The first `k` boxes placed: a member where it stands, another box on a goal outside. */
  ghost predicate Around(b: Board, boxes: seq<Cell>, corral: set<Cell>, cells: seq<Cell>, k: nat) {
    && |cells| == k <= |boxes|
    && (forall j | 0 <= j < k :: b.OnGoal(j, cells[j]))
    && (forall i, j | 0 <= i < j < k :: cells[i] != cells[j])
    && (forall j | 0 <= j < k :: if boxes[j] in corral then cells[j] == boxes[j] else cells[j] !in corral)
  }

  lemma {:induction false} PlacedAround(b: Board, boxes: seq<Cell>, corral: set<Cell>, k: nat)
    returns (cells: seq<Cell>)
    requires b.Valid() && |boxes| == |b.labels| && forall i, j | 0 <= i < j < |boxes| :: boxes[i] != boxes[j]
    requires !GoalOpen(b, boxes, corral) && k <= |boxes|
    ensures Around(b, boxes, corral, cells, k)
    decreases k
  {
    if k == 0 { return []; }
    var init := PlacedAround(b, boxes, corral, k - 1);
    var i := k - 1;
    if boxes[i] in corral {
      assert i in MembersOf(boxes, corral);
      cells := init + [boxes[i]];
    } else {
      var g := FreeGoal(b, boxes, corral, init, i);
      cells := init + [g];
    }
  }

  /** Slots of a label that have a cell already: inside they keep theirs, outside they come before
      slot `i`. */
  ghost function Provided(b: Board, boxes: seq<Cell>, corral: set<Cell>, l: Label, i: nat): set<nat> {
    set j: nat | j in b.Slots(l) && j < |boxes| && (boxes[j] in corral || j < i)
  }

  function CellNow(boxes: seq<Cell>, init: seq<Cell>, j: nat): Cell
    requires j < |boxes|
  {
    if j < |init| then init[j] else boxes[j]
  }

  /** A box outside has a goal outside that no earlier one took: there are as many goals of its
      label as boxes, and those inside are under boxes of the label. */
  lemma FreeGoal(b: Board, boxes: seq<Cell>, corral: set<Cell>, init: seq<Cell>, i: nat) returns (g: Cell)
    requires b.Valid() && |boxes| == |b.labels| && forall i, j | 0 <= i < j < |boxes| :: boxes[i] != boxes[j]
    requires !GoalOpen(b, boxes, corral) && Around(b, boxes, corral, init, i) && i < |boxes| && boxes[i] !in corral
    ensures g in b.Goals(b.labels[i]) && g !in corral && g !in init
  {
    g := GoalToSpare(b, boxes, corral, init, i);
    if g in corral || g in init { var j := GoalProvided(b, boxes, corral, init, i, g); }
  }

  /** A goal of the label inside, or given out already, is under a slot that has its cell. */
  lemma GoalProvided(b: Board, boxes: seq<Cell>, corral: set<Cell>, init: seq<Cell>, i: nat, g: Cell) returns (j: nat)
    requires b.Valid() && |boxes| == |b.labels| && !GoalOpen(b, boxes, corral) && Around(b, boxes, corral, init, i)
    requires i < |boxes| && g in b.Goals(b.labels[i]) && (g in corral || g in init)
    ensures j in Provided(b, boxes, corral, b.labels[i], i) && CellNow(boxes, init, j) == g
  {
    if g in init {
      j :| 0 <= j < |init| && init[j] == g;
      assert b.OnGoal(j, init[j]);
    } else {
      assert b.tiles[g] != FLOOR && g in boxes;
      j :| 0 <= j < |boxes| && boxes[j] == g;
      assert j in MembersOf(boxes, corral) && b.OnGoal(j, boxes[j]);
    }
  }

  lemma GoalToSpare(b: Board, boxes: seq<Cell>, corral: set<Cell>, init: seq<Cell>, i: nat) returns (g: Cell)
    requires b.Valid() && |boxes| == |b.labels| && forall i, j | 0 <= i < j < |boxes| :: boxes[i] != boxes[j]
    requires Around(b, boxes, corral, init, i) && i < |boxes| && boxes[i] !in corral
    ensures g in b.Goals(b.labels[i])
    ensures forall j | j in Provided(b, boxes, corral, b.labels[i], i) :: g != CellNow(boxes, init, j)
  {
    var l := b.labels[i];
    var goals, slots, have := b.Goals(l), b.Slots(l), Provided(b, boxes, corral, l, i);
    var f: map<nat, nat> := map j: nat | 0 <= j < |boxes| :: CellNow(boxes, init, j);
    forall x, y | x in have && y in have && x != y ensures f[x] != f[y] {
      NowApart(b, boxes, corral, init, i, x, y);
    }
    InjectiveImageSize(f, have);
    var used: set<nat> := set x | x in have :: f[x];
    assert used == (set x | x in have :: f[x]);
    assert i in slots && i !in have;
    SubsetSize(have, slots - {i});
    assert |used| == |have|;
    assert |slots - {i}| == |slots| - 1;
    assert |slots| == |goals|;
    assert !(goals <= used) by {
      if goals <= used { SubsetSize(goals, used); }
    }
    g :| g in goals && g !in used;
    forall j | j in have ensures g != CellNow(boxes, init, j) {
      assert f[j] in used;
    }
  }

  lemma NowApart(b: Board, boxes: seq<Cell>, corral: set<Cell>, init: seq<Cell>, i: nat, x: nat, y: nat)
    requires forall i, j | 0 <= i < j < |boxes| :: boxes[i] != boxes[j]
    requires Around(b, boxes, corral, init, i) && x < |boxes| && y < |boxes| && x != y
    requires (boxes[x] in corral || x < i) && (boxes[y] in corral || y < i)
    ensures CellNow(boxes, init, x) != CellNow(boxes, init, y)
  {
    if x < y { assert boxes[x] != boxes[y]; } else { assert boxes[y] != boxes[x]; }
    if x < i && y < i {
      if x < y { assert init[x] != init[y]; } else { assert init[y] != init[x]; }
    }
  }

  /** The rules allow the keeper to push box `j` in direction `d` from some cell of `reached`. */
  ghost predicate Shovable(b: Board, boxes: seq<Cell>, reached: set<Cell>, j: nat, d: nat) {
    exists at: Cell {:trigger Step(b, State(at, boxes), d)} ::
      && at in reached && Step(b, State(at, boxes), d).Some?
      && Step(b, State(at, boxes), d).value.move == Push(j)
  }

  lemma PotentialIsStep(b: Board, boxes: seq<Cell>, reached: set<Cell>, j: nat, d: nat)
    requires b.ValidTable() && forall i, j | 0 <= i < j < |boxes| :: boxes[i] != boxes[j]
    requires forall c | c in reached :: c != NONE
    ensures Potential(b, boxes, reached, j, d) <==> Shovable(b, boxes, reached, j, d)
  {
    if Potential(b, boxes, reached, j, d) {
      var at := b.Next(boxes[j], Opposite(d));
      MirrorOf(b, boxes[j], Opposite(d));
      OppositeTwice(d);
      assert b.Next(at, d) == boxes[j] && IndexOf(boxes, boxes[j]) == j;
      assert Step(b, State(at, boxes), d).value.move == Push(j);
    }
    if Shovable(b, boxes, reached, j, d) {
      var at: Cell :| at in reached && Step(b, State(at, boxes), d).Some? &&
        Step(b, State(at, boxes), d).value.move == Push(j);
      MirrorOf(b, at, d);
    }
  }

  /** The cells joined to `seed` by walking outside `reached`. */
  ghost predicate IsCorral(b: Board, reached: set<Cell>, seed: Cell, corral: set<Cell>) {
    forall c: Cell :: c in corral <==> exists dirs :: IsWalk(b, reached, seed, dirs, c)
  }

  ghost function ShovesInto(b: Board, boxes: seq<Cell>, reached: set<Cell>, corral: set<Cell>): set<(nat, nat)> {
    set j, d | 0 <= j < |boxes| && boxes[j] in corral && d in {0, 1, 2, 3} && Shovable(b, boxes, reached, j, d) ::
      (j, d)
  }

  /** A push onto a dead cell, or into a freeze among the boxes of the corral. */
  ghost predicate Ruinous(b: Board, h: Heuristic, boxes: seq<Cell>, corral: set<Cell>, j: nat, d: nat)
    requires j < |boxes| == |b.labels|
  {
    var to := b.Next(boxes[j], d);
    h.Dead(b.labels[j], to) ||
    DeadAfterPush(b, h, boxes[j := to], (set k: nat | k < |boxes| && boxes[k] in corral), j)
  }

  /** A corral with a cell to spare and no solved placement that leaves it alone, and few pushes
      into it, each ruinous. */
  ghost predicate NoWayOn(b: Board, h: Heuristic, boxes: seq<Cell>, reached: set<Cell>, corral: set<Cell>)
    requires |boxes| == |b.labels|
  {
    && (exists c :: c in corral && c !in boxes)
    && (forall cells :: !LeftAlone(b, boxes, corral, cells))
    && |ShovesInto(b, boxes, reached, corral)| <= CAP
    && (forall j: nat, d: nat | j < |boxes| && boxes[j] in corral && Shovable(b, boxes, reached, j, d) ::
          Ruinous(b, h, boxes, corral, j, d))
  }

  /** The check's verdict on a corral. */
  lemma DeadCorralMeans(b: Board, h: Heuristic, boxes: seq<Cell>, reached: set<Cell>, corral: set<Cell>)
    requires b.Valid() && |boxes| == |b.labels| && forall i, j | 0 <= i < j < |boxes| :: boxes[i] != boxes[j]
    requires (forall c | c in corral :: b.Floor(c)) && forall c | c in reached :: c != NONE
    ensures DeadCorral(b, h, boxes, reached, corral) <==> NoWayOn(b, h, boxes, reached, corral)
  {
    OpenIsNotLeftAlone(b, boxes, corral);
    EmptyCellIsSpare(boxes, corral);
    SamePushes(b, boxes, reached, corral);
    FatalIsRuinous(b, h, boxes, reached, corral);
  }

  lemma SamePushes(b: Board, boxes: seq<Cell>, reached: set<Cell>, corral: set<Cell>)
    requires b.ValidTable() && (forall i, j | 0 <= i < j < |boxes| :: boxes[i] != boxes[j])
    requires forall c | c in reached :: c != NONE
    ensures PotentialPushes(b, boxes, reached, MembersOf(boxes, corral)) == ShovesInto(b, boxes, reached, corral)
  {
    forall j, d ensures Potential(b, boxes, reached, j, d) <==> Shovable(b, boxes, reached, j, d) {
      PotentialIsStep(b, boxes, reached, j, d);
    }
  }

  lemma FatalIsRuinous(b: Board, h: Heuristic, boxes: seq<Cell>, reached: set<Cell>, corral: set<Cell>)
    requires b.ValidTable() && |boxes| == |b.labels| && (forall i, j | 0 <= i < j < |boxes| :: boxes[i] != boxes[j])
    requires forall c | c in reached :: c != NONE
    ensures AllFatal(b, h, boxes, reached, MembersOf(boxes, corral)) <==>
            forall j: nat, d: nat | j < |boxes| && boxes[j] in corral && Shovable(b, boxes, reached, j, d) ::
              Ruinous(b, h, boxes, corral, j, d)
  {
    assert MembersOf(boxes, corral) == (set k: nat | k < |boxes| && boxes[k] in corral);
    forall j, d ensures Potential(b, boxes, reached, j, d) <==> Shovable(b, boxes, reached, j, d) {
      PotentialIsStep(b, boxes, reached, j, d);
    }
    forall j: nat, d: nat | j < |boxes| && boxes[j] in corral
      ensures Fatal(b, h, boxes, MembersOf(boxes, corral), j, b.Next(boxes[j], d)) <==>
              Ruinous(b, h, boxes, corral, j, d)
    {
    }
  }

  /** The corrals judged are the ones walks outside the keeper's region join to a box. */
  lemma VerdictMeans(b: Board, h: Heuristic, s0: State, reached: set<Cell>)
    requires b.Valid() && ValidState(b, s0) && forall j | 0 <= j < |s0.boxes| :: s0.boxes[j] !in reached
    requires forall c | c in reached :: c != NONE
    ensures (exists i :: 0 <= i < |s0.boxes| &&
               DeadCorral(b, h, s0.boxes, reached, CorralCells(b, reached, s0.boxes[i]))) <==>
            exists i: nat, corral {:trigger IsCorral(b, reached, s0.boxes[i], corral)} ::
              i < |s0.boxes| && IsCorral(b, reached, s0.boxes[i], corral) && NoWayOn(b, h, s0.boxes, reached, corral)
  {
    forall i: nat | i < |s0.boxes|
      ensures IsCorral(b, reached, s0.boxes[i], CorralCells(b, reached, s0.boxes[i]))
      ensures forall c | c in CorralCells(b, reached, s0.boxes[i]) :: b.Floor(c)
      ensures DeadCorral(b, h, s0.boxes, reached, CorralCells(b, reached, s0.boxes[i])) <==>
              NoWayOn(b, h, s0.boxes, reached, CorralCells(b, reached, s0.boxes[i]))
    {
      WalkedIsCorral(b, reached, s0.boxes[i]);
      DeadCorralMeans(b, h, s0.boxes, reached, CorralCells(b, reached, s0.boxes[i]));
    }
    forall i: nat, corral | i < |s0.boxes| && IsCorral(b, reached, s0.boxes[i], corral)
      ensures corral == CorralCells(b, reached, s0.boxes[i])
    {
      OneCorral(b, reached, s0.boxes[i], corral, CorralCells(b, reached, s0.boxes[i]));
    }
  }

  lemma FloodVerdict(b: Board, h: Heuristic, s0: State, reach: Flood)
    requires b.Valid() && ValidState(b, s0) && IsFill(b, CellSet(s0.boxes), s0.player, reach)
    ensures (exists i :: 0 <= i < |s0.boxes| && DeadCorral(b, h, s0.boxes, CellSet(reach.cells),
               CorralCells(b, CellSet(reach.cells), s0.boxes[i]))) <==>
            exists i: nat, corral {:trigger IsCorral(b, CellSet(reach.cells), s0.boxes[i], corral)} ::
              i < |s0.boxes| && IsCorral(b, CellSet(reach.cells), s0.boxes[i], corral) &&
              NoWayOn(b, h, s0.boxes, CellSet(reach.cells), corral)
  {
    forall j | 0 <= j < |s0.boxes| ensures s0.boxes[j] !in CellSet(reach.cells) { BoxIsUnreached(b, s0, reach, j); }
    forall c | c in CellSet(reach.cells) ensures c != NONE { assert reach.Reached(c); }
    VerdictMeans(b, h, s0, CellSet(reach.cells));
  }

  lemma OneCorral(b: Board, reached: set<Cell>, seed: Cell, corral: set<Cell>, other: set<Cell>)
    requires IsCorral(b, reached, seed, corral) && IsCorral(b, reached, seed, other)
    ensures corral == other
  {
  }

  lemma WalkedIsCorral(b: Board, reached: set<Cell>, seed: Cell)
    requires b.ValidTable() && b.Floor(seed) && seed !in reached
    ensures IsCorral(b, reached, seed, CorralCells(b, reached, seed))
    ensures forall c | c in CorralCells(b, reached, seed) :: b.Floor(c)
  {
    forall c: Cell, dirs | IsWalk(b, reached, seed, dirs, c) ensures b.Floor(c) {
      WalkStaysFree(b, reached, seed, dirs, c);
    }
    forall c: Cell ensures c in CorralCells(b, reached, seed) <==> exists dirs :: IsWalk(b, reached, seed, dirs, c) {
    }
  }

  lemma EmptyCellIsSpare(boxes: seq<Cell>, corral: set<Cell>)
    requires forall i, j | 0 <= i < j < |boxes| :: boxes[i] != boxes[j]
    ensures |corral| != |MembersOf(boxes, corral)| <==> exists c :: c in corral && c !in boxes
  {
    var members := MembersOf(boxes, corral);
    var f: map<nat, nat> := map j: nat | 0 <= j < |boxes| :: boxes[j];
    forall x, y | x in members && y in members && x != y ensures f[x] != f[y] {
      if x < y { assert boxes[x] != boxes[y]; } else { assert boxes[y] != boxes[x]; }
    }
    InjectiveImageSize(f, members);
    var held: set<nat> := set x | x in members :: f[x];
    assert held == (set x | x in members :: f[x]);
    assert held <= corral;
    if |corral| == |members| { SubsetOfEqualSize(held, corral); }
    forall c | c in corral && c in boxes ensures c in held {
      var j :| 0 <= j < |boxes| && boxes[j] == c;
      assert j in members;
    }
    if forall c | c in corral :: c in boxes { assert corral == held; }
  }

  // ---------------------------------------------------------------- the flood

  /** A flood around `blocked` under way: distinct cells joined to the seed, the first `head`
      of them with all their free neighbours. */
  ghost predicate Spreading(b: Board, blocked: set<Cell>, seed: Cell, queue: seq<Cell>, head: nat) {
    && head <= |queue| && queue != [] && queue[0] == seed
    && (forall c: Cell | c in queue :: InCorral(b, blocked, seed, c))
    && (forall i, j | 0 <= i < j < |queue| :: queue[i] != queue[j])
    && (forall i | 0 <= i < head :: Bounded(b, blocked, queue, queue[i], 4))
  }

  /** The first `d` neighbours of `c` are walls, blocked or queued. */
  ghost predicate Bounded(b: Board, blocked: set<Cell>, queue: seq<Cell>, c: Cell, d: nat) {
    forall e: nat {:trigger b.Next(c, e)} | e < d && b.Next(c, e) != NONE && b.Next(c, e) !in blocked ::
      b.Next(c, e) in queue
  }

  lemma SpreadOne(b: Board, blocked: set<Cell>, seed: Cell, queue: seq<Cell>, head: nat, d: nat)
    requires b.ValidTable() && Spreading(b, blocked, seed, queue, head) && head < |queue|
    requires b.Next(queue[head], d) != NONE && b.Next(queue[head], d) !in blocked && b.Next(queue[head], d) !in queue
    ensures Spreading(b, blocked, seed, queue + [b.Next(queue[head], d)], head)
  {
    assert queue[head] in queue;
    ConnectedStep(b, blocked, seed, queue[head], d);
    var grown := queue + [b.Next(queue[head], d)];
    forall i | 0 <= i < head
      ensures Bounded(b, blocked, grown, grown[i], 4)
    {
      assert Bounded(b, blocked, queue, queue[i], 4);
    }
  }

  lemma SpreadFits(b: Board, blocked: set<Cell>, seed: Cell, queue: seq<Cell>, head: nat)
    requires Spreading(b, blocked, seed, queue, head)
    ensures |queue| <= |b.tiles|
  {
    forall i | 0 <= i < |queue| ensures queue[i] < |b.tiles| {
      assert queue[i] in queue;
    }
    DistinctCellsFit(queue, |b.tiles|);
  }

  lemma {:induction false} SpreadReaches(b: Board, blocked: set<Cell>, seed: Cell, queue: seq<Cell>, a: Cell,
                                         dirs: seq<nat>, c: Cell)
    requires b.ValidTable() && Spreading(b, blocked, seed, queue, |queue|) && a in queue
    requires IsWalk(b, blocked, a, dirs, c)
    ensures c in queue
    decreases |dirs|
  {
    if dirs != [] {
      var i :| 0 <= i < |queue| && queue[i] == a;
      assert Bounded(b, blocked, queue, queue[i], 4);
      SpreadReaches(b, blocked, seed, queue, b.Next(a, dirs[0]), dirs[1..], c);
    }
  }

  /** A finished flood holds exactly the component of its seed. */
  lemma SpreadDone(b: Board, blocked: set<Cell>, seed: Cell, queue: seq<Cell>)
    requires b.ValidTable() && Spreading(b, blocked, seed, queue, |queue|)
    ensures CellSet(queue) == CorralCells(b, blocked, seed)
  {
    assert queue[0] in queue;
    forall c: Cell | c in CorralCells(b, blocked, seed)
      ensures c in queue
    {
      var dirs :| IsWalk(b, blocked, seed, dirs, c);
      SpreadReaches(b, blocked, seed, queue, seed, dirs, c);
    }
  }

  // ---------------------------------------------------------------- the detector

  ghost function FloorCells(b: Board): set<Cell> {
    set c: Cell | 0 <= c < |b.tiles| && b.tiles[c] != WALL
  }

  /** Every corral of a state whose reached cells and boxes cover the floor has no empty cell,
      so none is flagged. */
  lemma FullFloorHasNoEmptyCorral(b: Board, s0: State, reach: Flood, seed: Cell)
    requires b.Valid() && ValidState(b, s0) && seed in s0.boxes
    requires IsFill(b, CellSet(s0.boxes), s0.player, reach)
    requires |reach.cells| + |s0.boxes| == |FloorCells(b)|
    ensures var corral := CorralCells(b, CellSet(reach.cells), seed);
            |corral| == |MembersOf(s0.boxes, corral)|
  {
    var reached, corral := CellSet(reach.cells), CorralCells(b, CellSet(reach.cells), seed);
    var i :| 0 <= i < |s0.boxes| && s0.boxes[i] == seed;
    ReachedMeansConnected(b, s0, reach);
    FloorIsFull(b, s0, reach);
    assert b.Floor(seed) && seed !in reached;
    CorralIsSealed(b, s0, reached, seed);
    forall c | c in corral ensures c in CellSet(s0.boxes) {
      assert c in FloorCells(b) && c !in reached;
    }
    CorralOfBoxes(b, s0, corral);
  }

  lemma FloorIsFull(b: Board, s0: State, reach: Flood)
    requires b.Valid() && ValidState(b, s0) && IsFill(b, CellSet(s0.boxes), s0.player, reach)
    requires |reach.cells| + |s0.boxes| == |FloorCells(b)|
    ensures CellSet(reach.cells) + CellSet(s0.boxes) == FloorCells(b) && CellSet(reach.cells) !! CellSet(s0.boxes)
  {
    var reached, boxed := CellSet(reach.cells), CellSet(s0.boxes);
    forall c | c in reached ensures c !in boxed && b.Floor(c) {
      var dirs :| IsWalk(b, boxed, s0.player, dirs, c);
      WalkStaysFree(b, boxed, s0.player, dirs, c);
    }
    DistinctSize(reach.cells);
    DistinctSize(s0.boxes);
    assert |reached + boxed| == |reached| + |boxed| by { assert reached !! boxed; }
    SubsetOfEqualSize(reached + boxed, FloorCells(b));
  }

  lemma ReachedMeansConnected(b: Board, s0: State, reach: Flood)
    requires IsFill(b, CellSet(s0.boxes), s0.player, reach)
    ensures forall c: Cell :: c in CellSet(reach.cells) <==> Connected(b, CellSet(s0.boxes), s0.player, c)
  {
  }

  lemma CorralOfBoxes(b: Board, s0: State, corral: set<Cell>)
    requires ValidState(b, s0) && corral <= CellSet(s0.boxes)
    ensures |corral| == |MembersOf(s0.boxes, corral)|
  {
    var members := MembersOf(s0.boxes, corral);
    var f := map j: nat | 0 <= j < |s0.boxes| :: s0.boxes[j];
    forall x, y | x in members && y in members && x != y ensures f[x] != f[y] {
      if x < y { assert s0.boxes[x] != s0.boxes[y]; } else { assert s0.boxes[y] != s0.boxes[x]; }
    }
    InjectiveImageSize(f, members);
    forall c | c in corral ensures c in (set x | x in members :: f[x]) {
      var j :| 0 <= j < |s0.boxes| && s0.boxes[j] == c;
      assert j in members;
    }
    assert (set x | x in members :: f[x]) == corral;
  }

  /** Boxes of one corral flood the same corral. */
  lemma SameCorral(b: Board, reached: set<Cell>, seed: Cell, other: Cell)
    requires b.ValidTable() && seed !in reached && other in CorralCells(b, reached, seed)
    ensures CorralCells(b, reached, other) == CorralCells(b, reached, seed)
  {
    ConnectedSymmetric(b, reached, seed, other);
    forall c: Cell
      ensures Connected(b, reached, seed, c) <==> Connected(b, reached, other, c)
    {
      if Connected(b, reached, seed, c) { ConnectedTransitive(b, reached, other, seed, c); }
      if Connected(b, reached, other, c) { ConnectedTransitive(b, reached, seed, other, c); }
    }
  }

  lemma LoneMember(boxes: seq<Cell>, i: nat, queue: seq<Cell>)
    requires i < |boxes| && |queue| == 1 && queue[0] == boxes[i]
    requires forall j, k | 0 <= j < k < |boxes| :: boxes[j] != boxes[k]
    ensures MembersOf(boxes, CellSet(queue)) == {i}
  {
    assert boxes[i] in queue;
  }

  /** `keys` lists, once each, the potential pushes before box `i`'s `d`-th direction, and
      `shoves` spells them out. */
  ghost predicate Enumerated(b: Board, boxes: seq<Cell>, reached: set<Cell>, members: set<nat>, keys: seq<(nat, nat)>,
                             shoves: seq<Shove>, i: nat, d: nat) {
    && |keys| == |shoves|
    && (forall j, k | 0 <= j < k < |keys| :: keys[j] != keys[k])
    && (forall key: (nat, nat) :: key in keys <==>
      Before(key, i, d) && key.0 in members && Potential(b, boxes, reached, key.0, key.1))
    && (forall k | 0 <= k < |keys| ::
      keys[k].0 < |boxes| && shoves[k] == Shove(keys[k].0, boxes[keys[k].0], b.Next(boxes[keys[k].0], keys[k].1)))
  }

  predicate Before(key: (nat, nat), i: nat, d: nat) {
    key.0 < i || (key.0 == i && key.1 < d)
  }

  lemma {:induction false} KeysSize(keys: seq<(nat, nat)>)
    requires forall j, k | 0 <= j < k < |keys| :: keys[j] != keys[k]
    ensures |(set key | key in keys)| == |keys|
  {
    if keys != [] {
      var init, last := keys[..|keys| - 1], keys[|keys| - 1];
      KeysSize(init);
      assert keys == init + [last];
      assert (set key | key in keys) == (set key | key in init) + {last};
    }
  }

  lemma KeysArePotential(b: Board, boxes: seq<Cell>, reached: set<Cell>, members: set<nat>, keys: seq<(nat, nat)>)
    requires forall j, k | 0 <= j < k < |keys| :: keys[j] != keys[k]
    requires forall key: (nat, nat) | key in keys :: key.0 in members && Potential(b, boxes, reached, key.0, key.1)
    ensures |keys| <= |PotentialPushes(b, boxes, reached, members)|
  {
    KeysSize(keys);
    forall key: (nat, nat) | key in keys ensures key in PotentialPushes(b, boxes, reached, members) {
      assert key.1 in {0, 1, 2, 3};
    }
    SubsetSize((set key | key in keys), PotentialPushes(b, boxes, reached, members));
  }

  lemma AllKeys(b: Board, boxes: seq<Cell>, reached: set<Cell>, members: set<nat>, keys: seq<(nat, nat)>,
                shoves: seq<Shove>)
    requires Enumerated(b, boxes, reached, members, keys, shoves, |boxes|, 0)
    ensures |keys| == |PotentialPushes(b, boxes, reached, members)|
  {
    KeysSize(keys);
    assert (set key | key in keys) == PotentialPushes(b, boxes, reached, members);
  }

  lemma EnumerateOne(b: Board, boxes: seq<Cell>, reached: set<Cell>, members: set<nat>, keys: seq<(nat, nat)>,
                     shoves: seq<Shove>, i: nat, d: nat)
    requires Enumerated(b, boxes, reached, members, keys, shoves, i, d)
    requires i in members && Potential(b, boxes, reached, i, d)
    ensures Enumerated(b, boxes, reached, members, keys + [(i, d)], shoves + [Shove(i, boxes[i], b.Next(boxes[i], d))],
              i, d + 1)
  {
    assert (i, d) !in keys;
  }

  /** Lists the members' potential pushes by box, then direction, each once; a list longer than CAP
      is given up. */
  method Pushes(b: Board, boxes: seq<Cell>, reach: Flood, members: set<nat>)
    returns (r: Option<seq<Shove>>, ghost keys: seq<(nat, nat)>)
    requires b.Valid() && |reach.distance| == |b.tiles| && forall c: Cell :: c in reach.cells <==> reach.Reached(c)
    requires forall j | j in members :: j < |boxes|
    ensures r.Some? <==> |PotentialPushes(b, boxes, CellSet(reach.cells), members)| <= CAP
    ensures r.Some? ==> Enumerated(b, boxes, CellSet(reach.cells), members, keys, r.value, |boxes|, 0)
  {
    var shoves := [];
    keys := [];
    ghost var reached := CellSet(reach.cells);
    for i := 0 to |boxes|
      invariant Enumerated(b, boxes, reached, members, keys, shoves, i, 0) && |shoves| <= CAP
    {
      if i in members {
        for d := 0 to 4
          invariant Enumerated(b, boxes, reached, members, keys, shoves, i, d) && |shoves| <= CAP
        {
          var to, stand := b.Next(boxes[i], d), b.Next(boxes[i], Opposite(d));
          if to != NONE && stand != NONE && to !in boxes && reach.Reached(stand) {
            EnumerateOne(b, boxes, reached, members, keys, shoves, i, d);
            if |shoves| == CAP {
              KeysArePotential(b, boxes, reached, members, keys + [(i, d)]);
              return None, keys;
            }
            keys, shoves := keys + [(i, d)], shoves + [Shove(i, boxes[i], to)];
          }
        }
      }
    }
    AllKeys(b, boxes, reached, members, keys, shoves);
    r := Some(shoves);
  }

  /** Every listed push is fatal exactly when every potential push is. */
  lemma ListedAllFatal(b: Board, h: Heuristic, boxes: seq<Cell>, reached: set<Cell>, members: set<nat>,
                       keys: seq<(nat, nat)>, shoves: seq<Shove>)
    requires |boxes| == |b.labels| && Enumerated(b, boxes, reached, members, keys, shoves, |boxes|, 0)
    ensures AllFatal(b, h, boxes, reached, members) <==>
            forall k | 0 <= k < |shoves| :: Fatal(b, h, boxes, members, shoves[k].i, shoves[k].to)
  {
    if forall k | 0 <= k < |shoves| :: Fatal(b, h, boxes, members, shoves[k].i, shoves[k].to) {
      forall j: nat, d: nat | j in members && Potential(b, boxes, reached, j, d)
        ensures Fatal(b, h, boxes, members, j, b.Next(boxes[j], d))
      {
        assert (j, d) in keys;
        var k :| 0 <= k < |keys| && keys[k] == (j, d);
        assert Fatal(b, h, boxes, members, shoves[k].i, shoves[k].to);
      }
    }
    if AllFatal(b, h, boxes, reached, members) {
      forall k | 0 <= k < |shoves|
        ensures Fatal(b, h, boxes, members, shoves[k].i, shoves[k].to)
      {
        assert keys[k] in keys;
      }
    }
  }

  /** The check's own buffers: a cell is stamped in a flood when it holds that flood's epoch, so a
      fresh epoch unstamps them all. */
  class Corral {
    /** By cell, the latest flood that took it in. */
    const stamps: array<nat>
    var epoch: nat
    /** What the latest flood took in. */
    var queue: seq<Cell>
    /** How many cells are floor. */
    var floor: nat

    ghost predicate Valid(b: Board)
      reads this, stamps
    {
      && stamps.Length == |b.tiles| && epoch <= U32_MAX && floor == |FloorCells(b)|
      && forall c | 0 <= c < stamps.Length :: stamps[c] <= epoch
    }

    constructor (b: Board)
      ensures Valid(b) && fresh(stamps) && queue == [] && epoch == 0
    {
      stamps := new nat[|b.tiles|](_ => 0);
      epoch := 0;
      queue := [];
      floor := |set c: Cell | 0 <= c < |b.tiles| && b.tiles[c] != WALL|;
    }

    /** The stamps are those before the flood, but for the queued cells, which carry the
        current epoch and no other cell does. */
    twostate predicate Stamped(b: Board)
      reads this, stamps
    {
      && stamps.Length == |b.tiles| && StampsQueue()
      && forall c | 0 <= c < stamps.Length && c !in queue :: stamps[c] == old(stamps[c])
    }

    /** Spreads from `seed` past everything but `blocked`; queue and stamps hold what it came to. */
    method Spread(b: Board, blocked: set<Cell>, seed: Cell)
      requires b.Valid() && Valid(b) && epoch < U32_MAX && seed < |b.tiles|
      modifies this, stamps
      ensures Valid(b) && epoch == old(epoch) + 1 && Stamped(b)
      ensures Spreading(b, blocked, seed, queue, |queue|)
    {
      epoch := epoch + 1;
      queue := [seed];
      stamps[seed] := epoch;
      ConnectedSelf(b, blocked, seed);
      var head := 0;
      while head < |queue|
        invariant Valid(b) && epoch == old(epoch) + 1 && Stamped(b)
        invariant Spreading(b, blocked, seed, queue, head)
        decreases |b.tiles| - head
      {
        SpreadFits(b, blocked, seed, queue, head);
        SpreadCell(b, blocked, seed, head);
        head := head + 1;
      }
    }

    /** A cell carries the current epoch exactly when it is queued. */
    ghost predicate StampsQueue()
      reads this, stamps
    {
      forall c | 0 <= c < stamps.Length :: stamps[c] == epoch <==> c in queue
    }

    /** Queues and stamps the free neighbours of the `head`-th cell. */
    method SpreadCell(b: Board, blocked: set<Cell>, ghost seed: Cell, head: nat)
      requires b.Valid() && Valid(b) && Spreading(b, blocked, seed, queue, head) && head < |queue| && StampsQueue()
      modifies this`queue, stamps
      ensures Valid(b) && Spreading(b, blocked, seed, queue, head + 1) && old(queue) <= queue && StampsQueue()
      ensures forall c | 0 <= c < stamps.Length && c !in queue :: stamps[c] == old(stamps[c])
    {
      for d := 0 to 4
        invariant head < |queue| && old(queue) <= queue && Valid(b) && StampsQueue()
        invariant forall c | 0 <= c < stamps.Length && c !in queue :: stamps[c] == old(stamps[c])
        invariant Spreading(b, blocked, seed, queue, head) && Bounded(b, blocked, queue, queue[head], d)
      {
        SpreadNeighbour(b, blocked, seed, head, d);
      }
    }

    /** Queues and stamps one neighbour of the `head`-th cell, if it is free and new. */
    method SpreadNeighbour(b: Board, blocked: set<Cell>, ghost seed: Cell, head: nat, d: nat)
      requires b.Valid() && Valid(b) && Spreading(b, blocked, seed, queue, head) && head < |queue| && StampsQueue()
      requires Bounded(b, blocked, queue, queue[head], d)
      modifies this`queue, stamps
      ensures Valid(b) && Spreading(b, blocked, seed, queue, head) && old(queue) <= queue && StampsQueue()
      ensures forall c | 0 <= c < stamps.Length && c !in queue :: stamps[c] == old(stamps[c])
      ensures Bounded(b, blocked, queue, queue[head], d + 1)
    {
      var next := b.Next(queue[head], d);
      if next != NONE && next !in blocked && stamps[next] != epoch {
        SpreadOne(b, blocked, seed, queue, head, d);
        stamps[next] := epoch;
        queue := queue + [next];
      }
    }

    /** The members of box `i`'s corral, which queue and stamps then hold. They are looked for from
        `i` on: `i` is in no corral flooded earlier, and an earlier box in this one would have had
        the same corral. */
    method FloodCorral(b: Board, boxes: seq<Cell>, reach: Flood, i: nat) returns (members: set<nat>)
      requires b.Valid() && Valid(b) && epoch < U32_MAX && i < |boxes|
      requires forall j | 0 <= j < |boxes| :: boxes[j] < |b.tiles|
      requires forall j, k | 0 <= j < k < |boxes| :: boxes[j] != boxes[k]
      requires forall j | 0 <= j < i :: boxes[j] !in CorralCells(b, CellSet(reach.cells), boxes[i])
      modifies this, stamps
      ensures Valid(b) && epoch == old(epoch) + 1 && Stamped(b)
      ensures |queue| == |CellSet(queue)| && CellSet(queue) == CorralCells(b, CellSet(reach.cells), boxes[i])
      ensures members == MembersOf(boxes, CellSet(queue))
    {
      Spread(b, CellSet(reach.cells), boxes[i]);
      SpreadDone(b, CellSet(reach.cells), boxes[i], queue);
      DistinctSize(queue);
      if |queue| == 1 {
        // With no other cell in the queue, box `i` is the only member.
        LoneMember(boxes, i, queue);
        return {i};
      }
      members := StampedFrom(b, boxes, i);
    }

    /** The boxes from `i` on whose cell the current flood stamped. */
    method StampedFrom(b: Board, boxes: seq<Cell>, i: nat) returns (members: set<nat>)
      requires stamps.Length == |b.tiles| && i <= |boxes| && forall j | 0 <= j < |boxes| :: boxes[j] < |b.tiles|
      ensures members == set k: nat | i <= k < |boxes| && stamps[boxes[k]] == epoch
    {
      members := {};
      for j := i to |boxes|
        invariant members == set k: nat | i <= k < j && stamps[boxes[k]] == epoch
      {
        if stamps[boxes[j]] == epoch { members := members + {j}; }
      }
    }

    /** Exact: some member is off goal, or some goal in the corral lacks a box of its label. */
    method IsGoalOpen(b: Board, boxes: seq<Cell>, members: set<nat>) returns (open: bool)
      requires b.Valid() && |boxes| == |b.labels| && members == MembersOf(boxes, CellSet(queue))
      requires forall c | c in queue :: c < |b.tiles|
      ensures open <==> GoalOpen(b, boxes, CellSet(queue))
      ensures (forall i, j | 0 <= i < j < |boxes| :: boxes[i] != boxes[j]) && (forall c | c in queue :: b.Floor(c)) ==>
                (open <==> forall cells :: !LeftAlone(b, boxes, CellSet(queue), cells))
    {
      if (forall i, j | 0 <= i < j < |boxes| :: boxes[i] != boxes[j]) && (forall c | c in queue :: b.Floor(c)) {
        OpenIsNotLeftAlone(b, boxes, CellSet(queue));
      }
      for j := 0 to |boxes|
        invariant forall k | 0 <= k < j && k in members :: b.OnGoal(k, boxes[k])
      {
        if j in members && !b.OnGoal(j, boxes[j]) { return true; }
      }
      for k := 0 to |queue|
        invariant forall c: Cell | c in queue[..k] && c < |b.tiles| :: b.tiles[c] == FLOOR || c in boxes
      {
        assert queue[k] in queue && queue[..k + 1] == queue[..k] + [queue[k]];
        if b.tiles[queue[k]] != FLOOR && queue[k] !in boxes { return true; }
      }
      assert queue[..|queue|] == queue;
      return false;
    }

    /** Whether one push is fatal with the members alone. */
    method IsFatal(b: Board, h: Heuristic, boxes: seq<Cell>, deadlock: Deadlock, members: set<nat>, shove: Shove)
      returns (fatal: bool)
      requires b.Valid() && Exact(b, h) && |boxes| == |b.labels| && deadlock.Holds(b, boxes)
      requires forall j | 0 <= j < |boxes| :: b.Floor(boxes[j])
      requires forall j | j in members :: j < |boxes|
      requires shove.i in members && shove.from == boxes[shove.i] && shove.to !in boxes && b.Floor(shove.to)
      ensures fatal == Fatal(b, h, boxes, members, shove.i, shove.to)
    {
      fatal := h.Dead(b.labels[shove.i], shove.to);
      if !fatal {
        fatal := deadlock.IsDeadAfterPush(b, h, members, shove.from, shove.to);
        assert IndexOf(boxes, shove.from) == shove.i;
        assert deadlock.Who(members, shove.i) == members;
      }
    }

    /** Whether every listed push is fatal. */
    method AllPushesFatal(b: Board, h: Heuristic, boxes: seq<Cell>, deadlock: Deadlock, members: set<nat>,
                          shoves: seq<Shove>) returns (all: bool)
      requires b.Valid() && Exact(b, h) && |boxes| == |b.labels| && deadlock.Holds(b, boxes)
      requires forall j | 0 <= j < |boxes| :: b.Floor(boxes[j])
      requires forall j | j in members :: j < |boxes|
      requires forall k | 0 <= k < |shoves| :: ShoveOf(b, boxes, members, shoves[k])
      ensures all <==> forall k | 0 <= k < |shoves| :: Fatal(b, h, boxes, members, shoves[k].i, shoves[k].to)
    {
      for k := 0 to |shoves|
        invariant forall j | 0 <= j < k :: Fatal(b, h, boxes, members, shoves[j].i, shoves[j].to)
      {
        assert ShoveOf(b, boxes, members, shoves[k]);
        var fatal := IsFatal(b, h, boxes, deadlock, members, shoves[k]);
        if !fatal { return false; }
      }
      return true;
    }

    /** Whether the corral of box `i` is dead, its flood stamped under a fresh epoch. */
    method CorralIsDead(b: Board, h: Heuristic, boxes: seq<Cell>, reach: Flood, deadlock: Deadlock, i: nat)
      returns (dead: bool)
      requires b.Valid() && Exact(b, h) && Valid(b) && epoch < U32_MAX && i < |boxes| == |b.labels|
      requires deadlock.Holds(b, boxes) && stamps as object != deadlock.occupancy
      requires forall j | 0 <= j < |boxes| :: b.Floor(boxes[j])
      requires forall j, k | 0 <= j < k < |boxes| :: boxes[j] != boxes[k]
      requires |reach.distance| == |b.tiles| && forall c: Cell :: c in reach.cells <==> reach.Reached(c)
      requires forall j | 0 <= j < i :: boxes[j] !in CorralCells(b, CellSet(reach.cells), boxes[i])
      modifies this, stamps
      ensures Valid(b) && epoch == old(epoch) + 1 && Stamped(b)
      ensures CellSet(queue) == CorralCells(b, CellSet(reach.cells), boxes[i])
      ensures dead <==> DeadCorral(b, h, boxes, CellSet(reach.cells), CellSet(queue))
    {
      var members := FloodCorral(b, boxes, reach, i);
      if |queue| == |members| { return false; }
      var open := IsGoalOpen(b, boxes, members);
      if !open { return false; }
      var shoves, keys := Pushes(b, boxes, reach, members);
      if shoves.None? { return false; }
      EnumeratedShoves(b, boxes, CellSet(reach.cells), members, keys, shoves.value);
      dead := AllPushesFatal(b, h, boxes, deadlock, members, shoves.value);
      ListedAllFatal(b, h, boxes, CellSet(reach.cells), members, keys, shoves.value);
    }

    /** `reach` holds the state's flood and `deadlock` its refresh. */
    ghost predicate Ready(b: Board, s0: State, reach: Flood, deadlock: Deadlock)
      reads this, deadlock, deadlock.occupancy
    {
      && b.Valid() && ValidState(b, s0) && IsFill(b, CellSet(s0.boxes), s0.player, reach)
      && deadlock.Holds(b, s0.boxes) && stamps as object != deadlock.occupancy
    }

    /** Box `i`'s turn: skipped when an earlier corral covers it, judged otherwise. */
    method JudgeBox(b: Board, h: Heuristic, ghost s0: State, boxes: seq<Cell>, reach: Flood, deadlock: Deadlock,
                    first: nat, i: nat) returns (dead: bool)
      requires Exact(b, h) && Valid(b) && boxes == s0.boxes && Ready(b, s0, reach, deadlock)
      requires i < |boxes| && first <= epoch + 1 <= U32_MAX
      requires Covers(b, boxes, CellSet(reach.cells), stamps[..], first, i)
      requires NoneDead(b, h, boxes, CellSet(reach.cells), i)
      modifies this, stamps
      ensures Valid(b) && epoch <= old(epoch) + 1 && first <= epoch + 1
      ensures Covers(b, boxes, CellSet(reach.cells), stamps[..], first, i + 1)
      ensures dead <==> DeadCorral(b, h, boxes, CellSet(reach.cells), CorralCells(b, CellSet(reach.cells), boxes[i]))
    {
      ghost var reached := CellSet(reach.cells);
      ghost var before := stamps[..];
      forall j | 0 <= j <= i ensures boxes[j] !in reached { BoxIsUnreached(b, s0, reach, j); }
      if stamps[boxes[i]] >= first {
        CoveredIsSame(b, boxes, reached, i);
        CoversCovered(b, boxes, reached, before, first, i);
        CoveredIsAlive(b, h, boxes, reached, i);
        return false;
      }
      NotCovered(b, boxes, reached, i);
      dead := CorralIsDead(b, h, boxes, reach, deadlock, i);
      CoversFlooded(b, boxes, reached, before, stamps[..], CellSet(queue), first, i);
    }

    /** Exact over the corrals of all boxes; a true answer rules out every run. */
    method IsDead(b: Board, h: Heuristic, ghost player: Cell, boxes: seq<Cell>, reach: Flood, deadlock: Deadlock)
      returns (dead: bool)
      requires Exact(b, h) && Valid(b) && Ready(b, State(player, boxes), reach, deadlock)
      modifies this, stamps
      ensures Valid(b)
      ensures dead <==> exists i ::
                0 <= i < |boxes| && DeadCorral(b, h, boxes, CellSet(reach.cells),
                  CorralCells(b, CellSet(reach.cells), boxes[i]))
      ensures dead <==> exists i: nat, corral {:trigger IsCorral(b, CellSet(reach.cells), boxes[i], corral)} ::
                i < |boxes| && IsCorral(b, CellSet(reach.cells), boxes[i], corral) &&
                NoWayOn(b, h, boxes, CellSet(reach.cells), corral)
      ensures dead ==> !Solvable(b, State(player, boxes))
    {
      ghost var s0 := State(player, boxes);
      FloodVerdict(b, h, s0, reach);
      if |reach.cells| + |boxes| == floor {
        NoDeadCorralOnFullFloor(b, h, s0, reach);
        return false;
      }
      ResetBefore(b, MAX_BOXES);
      var first := epoch + 1;
      for i := 0 to |boxes|
        invariant Valid(b)
        invariant first <= epoch + 1 <= first + i && first + MAX_BOXES <= U32_MAX + 1
        invariant Covers(b, boxes, CellSet(reach.cells), stamps[..], first, i)
        invariant NoneDead(b, h, boxes, CellSet(reach.cells), i)
      {
        dead := JudgeBox(b, h, s0, boxes, reach, deadlock, first, i);
        if dead {
          FlaggedStateIsDead(b, h, s0, reach, i);
          return true;
        }
        NoneDeadNext(b, h, boxes, CellSet(reach.cells), i);
      }
      return false;
    }

    /** Zeroes the stamps whenever fewer than `needed` epochs are left, which keeps the epoch
        from wrapping inside a check. */
    method ResetBefore(b: Board, needed: nat)
      requires Valid(b) && needed <= U32_MAX
      modifies this`epoch, stamps
      ensures Valid(b) && epoch + needed <= U32_MAX
      ensures old(epoch) + needed <= U32_MAX ==> epoch == old(epoch) && stamps[..] == old(stamps[..])
    {
      if epoch > U32_MAX - needed {
        for c := 0 to stamps.Length
          invariant stamps.Length == |b.tiles| && forall k | 0 <= k < c :: stamps[k] == 0
          invariant forall k | 0 <= k < stamps.Length :: stamps[k] <= epoch
          invariant epoch == old(epoch)
        {
          stamps[c] := 0;
        }
        epoch := 0;
      }
    }
  }

  ghost predicate ShoveOf(b: Board, boxes: seq<Cell>, members: set<nat>, shove: Shove) {
    && shove.i in members && shove.i < |boxes| && shove.from == boxes[shove.i]
    && shove.to !in boxes && b.Floor(shove.to)
  }

  lemma EnumeratedShoves(b: Board, boxes: seq<Cell>, reached: set<Cell>, members: set<nat>, keys: seq<(nat, nat)>,
                         shoves: seq<Shove>)
    requires b.Valid() && Enumerated(b, boxes, reached, members, keys, shoves, |boxes|, 0)
    ensures forall k | 0 <= k < |shoves| :: ShoveOf(b, boxes, members, shoves[k])
  {
    forall k | 0 <= k < |shoves| ensures ShoveOf(b, boxes, members, shoves[k]) {
      assert keys[k] in keys;
    }
  }

  /** None of the first `i` boxes' corrals is dead. */
  ghost predicate NoneDead(b: Board, h: Heuristic, boxes: seq<Cell>, reached: set<Cell>, i: nat)
    requires |boxes| == |b.labels|
  {
    forall j | 0 <= j < i && j < |boxes| :: !DeadCorral(b, h, boxes, reached, CorralCells(b, reached, boxes[j]))
  }

  ghost predicate CoveredBefore(b: Board, boxes: seq<Cell>, reached: set<Cell>, i: nat, c: Cell) {
    exists j :: 0 <= j < i && j < |boxes| && c in CorralCells(b, reached, boxes[j])
  }

  /** The stamps from `first` on cover exactly the corrals of the boxes before `i`. */
  ghost predicate Covers(b: Board, boxes: seq<Cell>, reached: set<Cell>, stamps: seq<nat>, first: nat, i: nat) {
    && |stamps| == |b.tiles| && i <= |boxes|
    && forall c: Cell | c < |stamps| :: stamps[c] >= first <==> CoveredBefore(b, boxes, reached, i, c)
  }

  lemma NoneDeadNext(b: Board, h: Heuristic, boxes: seq<Cell>, reached: set<Cell>, i: nat)
    requires i < |boxes| == |b.labels| && NoneDead(b, h, boxes, reached, i)
    requires !DeadCorral(b, h, boxes, reached, CorralCells(b, reached, boxes[i]))
    ensures NoneDead(b, h, boxes, reached, i + 1)
  {
    forall j | 0 <= j < i + 1 && j < |boxes|
      ensures !DeadCorral(b, h, boxes, reached, CorralCells(b, reached, boxes[j]))
    {
      if j == i {}
    }
  }

  lemma CoveredIsAlive(b: Board, h: Heuristic, boxes: seq<Cell>, reached: set<Cell>, i: nat)
    requires i < |boxes| == |b.labels| && NoneDead(b, h, boxes, reached, i)
    requires exists j :: 0 <= j < i && CorralCells(b, reached, boxes[i]) == CorralCells(b, reached, boxes[j])
    ensures !DeadCorral(b, h, boxes, reached, CorralCells(b, reached, boxes[i]))
  {
    var j :| 0 <= j < i && CorralCells(b, reached, boxes[i]) == CorralCells(b, reached, boxes[j]);
    assert !DeadCorral(b, h, boxes, reached, CorralCells(b, reached, boxes[j]));
  }

  lemma CoversCovered(b: Board, boxes: seq<Cell>, reached: set<Cell>, stamps: seq<nat>, first: nat, i: nat)
    requires i < |boxes| && Covers(b, boxes, reached, stamps, first, i)
    requires exists j :: 0 <= j < i && CorralCells(b, reached, boxes[i]) == CorralCells(b, reached, boxes[j])
    ensures Covers(b, boxes, reached, stamps, first, i + 1)
  {
    var k :| 0 <= k < i && CorralCells(b, reached, boxes[i]) == CorralCells(b, reached, boxes[k]);
    forall c: Cell
      ensures CoveredBefore(b, boxes, reached, i + 1, c) <==> CoveredBefore(b, boxes, reached, i, c)
    {
      if CoveredBefore(b, boxes, reached, i + 1, c) {
        var j :| 0 <= j < i + 1 && c in CorralCells(b, reached, boxes[j]);
        assert c in CorralCells(b, reached, boxes[if j == i then k else j]);
      }
    }
  }

  lemma CoversFlooded(b: Board, boxes: seq<Cell>, reached: set<Cell>, before: seq<nat>, after: seq<nat>,
                      corral: set<Cell>, first: nat, i: nat)
    requires i < |boxes| && Covers(b, boxes, reached, before, first, i) && |after| == |before|
    requires corral == CorralCells(b, reached, boxes[i])
    requires forall c | 0 <= c < |after| :: if c in corral then after[c] >= first else after[c] == before[c]
    ensures Covers(b, boxes, reached, after, first, i + 1)
  {
    forall c: Cell
      ensures CoveredBefore(b, boxes, reached, i + 1, c) <==> CoveredBefore(b, boxes, reached, i, c) || c in corral
    {
    }
  }

  lemma BoxIsUnreached(b: Board, s0: State, reach: Flood, i: nat)
    requires b.Valid() && ValidState(b, s0) && IsFill(b, CellSet(s0.boxes), s0.player, reach) && i < |s0.boxes|
    ensures s0.boxes[i] !in CellSet(reach.cells)
  {
    if s0.boxes[i] in reach.cells {
      var dirs :| IsWalk(b, CellSet(s0.boxes), s0.player, dirs, s0.boxes[i]);
      WalkStaysFree(b, CellSet(s0.boxes), s0.player, dirs, s0.boxes[i]);
    }
  }

  /** A box an earlier corral covers has that corral. */
  lemma CoveredIsSame(b: Board, boxes: seq<Cell>, reached: set<Cell>, i: nat)
    requires b.ValidTable() && i < |boxes| && CoveredBefore(b, boxes, reached, i, boxes[i])
    requires forall j | 0 <= j < i :: boxes[j] !in reached
    ensures exists j :: 0 <= j < i && CorralCells(b, reached, boxes[i]) == CorralCells(b, reached, boxes[j])
  {
    var j :| 0 <= j < i && j < |boxes| && boxes[i] in CorralCells(b, reached, boxes[j]);
    SameCorral(b, reached, boxes[j], boxes[i]);
  }

  /** A box no earlier corral covers has no earlier box in its corral. */
  lemma NotCovered(b: Board, boxes: seq<Cell>, reached: set<Cell>, i: nat)
    requires b.ValidTable() && i < |boxes| && !CoveredBefore(b, boxes, reached, i, boxes[i])
    requires boxes[i] !in reached && boxes[i] < |b.tiles|
    ensures forall j | 0 <= j < i :: boxes[j] !in CorralCells(b, reached, boxes[i])
  {
    forall j | 0 <= j < i ensures boxes[j] !in CorralCells(b, reached, boxes[i]) {
      if boxes[j] in CorralCells(b, reached, boxes[i]) {
        ConnectedSymmetric(b, reached, boxes[i], boxes[j]);
      }
    }
  }

  lemma NoDeadCorralOnFullFloor(b: Board, h: Heuristic, s0: State, reach: Flood)
    requires b.Valid() && ValidState(b, s0) && IsFill(b, CellSet(s0.boxes), s0.player, reach)
    requires |reach.cells| + |s0.boxes| == |FloorCells(b)|
    ensures NoneDead(b, h, s0.boxes, CellSet(reach.cells), |s0.boxes|)
  {
    forall i | 0 <= i < |s0.boxes|
      ensures !DeadCorral(b, h, s0.boxes, CellSet(reach.cells), CorralCells(b, CellSet(reach.cells), s0.boxes[i]))
    {
      FullFloorHasNoEmptyCorral(b, s0, reach, s0.boxes[i]);
    }
  }

  lemma FlaggedStateIsDead(b: Board, h: Heuristic, s0: State, reach: Flood, i: nat)
    requires b.Valid() && Exact(b, h) && ValidState(b, s0) && i < |s0.boxes|
    requires IsFill(b, CellSet(s0.boxes), s0.player, reach)
    requires DeadCorral(b, h, s0.boxes, CellSet(reach.cells), CorralCells(b, CellSet(reach.cells), s0.boxes[i]))
    ensures !Solvable(b, s0)
  {
    ReachedMeansConnected(b, s0, reach);
    BoxIsUnreached(b, s0, reach, i);
    DeadCorralIsDead(b, h, s0, CellSet(reach.cells), s0.boxes[i]);
  }
}
