/** Post-push freeze detection (deadlock.rs): the release loop over a list of boxes, the
    occupancy map behind it, the pushed box's component and the lone-box shortcut. */
module Deadlocks {
  import opened Rules
  import opened Bfs
  import opened Reach
  import opened DeadCells
  import opened Freeze

  /** Two ways to look up which box is on a cell: in a list, or in the map of the position with the
      push of `index` applied to it and boxes outside `members` passed over. */
  datatype Occupant =
    | Listed(members: seq<(nat, Cell)>)
    | AfterPush(occupancy: seq<Option<nat>>, boxesIn: set<nat>, from: Cell, to: Cell, index: nat)
  {
    function At(c: Cell): Option<nat> {
      match this
      case Listed(members) => FindCell(members, c)
      case AfterPush(occupancy, boxesIn, from, to, index) =>
        if c == to then Some(index)
        else if c == from || c >= |occupancy| then None
        else if occupancy[c].Some? && occupancy[c].value in boxesIn then occupancy[c] else None
    }
  }

  function FindCell(members: seq<(nat, Cell)>, c: Cell): (r: Option<nat>)
    ensures r.Some? ==> (r.value, c) in members
    ensures r.None? ==> forall m | m in members :: m.1 != c
  {
    if members == [] then None
    else if members[0].1 == c then Some(members[0].0)
    else FindCell(members[1..], c)
  }

  /** The boxes of a list, as placed labels. */
  ghost function PlacedOf(b: Board, members: seq<(nat, Cell)>): set<Placed>
    requires forall m | m in members :: m.0 < |b.labels|
  {
    set m | m in members :: (b.labels[m.0], m.1)
  }

  /** Distinct slots on distinct floor cells, each named by `occupant` and no other box named
      on a member's cell. */
  ghost predicate Listing(b: Board, members: seq<(nat, Cell)>, occupant: Occupant) {
    && (forall m | m in members :: m.0 < |b.labels| && m.0 < MAX_BOXES && b.Floor(m.1))
    && (forall i, j | 0 <= i < j < |members| :: members[i].0 != members[j].0 && members[i].1 != members[j].1)
    && (forall m | m in members :: occupant.At(m.1) == Some(m.0))
    && (forall m, c: Cell | m in members && occupant.At(c) == Some(m.0) :: m.1 == c)
  }

  /** The members whose flag is still up. */
  ghost function StillFrozen(b: Board, members: seq<(nat, Cell)>, frozen: seq<bool>): set<Placed>
    requires forall m | m in members :: m.0 < |b.labels| && m.0 < |frozen|
  {
    set m | m in members && frozen[m.0] :: (b.labels[m.0], m.1)
  }

  ghost function Released(members: seq<(nat, Cell)>, frozen: seq<bool>): set<(nat, Cell)>
    requires forall m | m in members :: m.0 < |frozen|
  {
    set m | m in members && frozen[m.0]
  }

  predicate FrozenBox(occupant: Occupant, frozen: seq<bool>, c: Cell) {
    c != NONE && occupant.At(c).Some? && occupant.At(c).value < |frozen| && frozen[occupant.At(c).value]
  }

  /** A flag on a cell is up exactly when a still-frozen member stands there. */
  lemma FrozenBoxIsMember(b: Board, members: seq<(nat, Cell)>, occupant: Occupant, frozen: seq<bool>, c: Cell)
    requires b.ValidTable() && Listing(b, members, occupant) && |frozen| == MAX_BOXES
    requires forall i | 0 <= i < |frozen| && frozen[i] :: exists m :: m in members && m.0 == i
    ensures FrozenBox(occupant, frozen, c) <==> c in CellsOf(StillFrozen(b, members, frozen))
  {
    if FrozenBox(occupant, frozen, c) {
      var m :| m in members && m.0 == occupant.At(c).value;
      assert m.1 == c;
      assert (b.labels[m.0], m.1) in StillFrozen(b, members, frozen);
    }
    if c in CellsOf(StillFrozen(b, members, frozen)) {
      var p :| p in StillFrozen(b, members, frozen) && p.1 == c;
      var m :| m in members && frozen[m.0] && (b.labels[m.0], m.1) == p;
      assert occupant.At(m.1) == Some(m.0);
    }
  }

  /** What the release loop keeps: flags belong to members, and no self-held set loses a box. */
  ghost predicate Releasing(b: Board, h: Heuristic, members: seq<(nat, Cell)>, frozen: seq<bool>)
    requires forall m | m in members :: m.0 < |b.labels| && m.0 < MAX_BOXES
  {
    && |frozen| == MAX_BOXES
    && (forall i | 0 <= i < |frozen| && frozen[i] :: exists m :: m in members && m.0 == i)
    && (forall f: set<Placed> | f <= PlacedOf(b, members) && SelfHeld(b, h, f) :: f <= StillFrozen(b, members, frozen))
  }

  /** Releasing a box that is not held keeps every self-held set. */
  lemma ReleaseOne(b: Board, h: Heuristic, members: seq<(nat, Cell)>, frozen: seq<bool>, m: (nat, Cell))
    requires forall m | m in members :: m.0 < |b.labels| && m.0 < MAX_BOXES
    requires forall i, j | 0 <= i < j < |members| :: members[i].0 != members[j].0 && members[i].1 != members[j].1
    requires Releasing(b, h, members, frozen) && m in members
    requires !Held(b, h, b.labels[m.0], m.1, CellsOf(StillFrozen(b, members, frozen)))
    ensures Releasing(b, h, members, frozen[m.0 := false])
  {
    var still := StillFrozen(b, members, frozen);
    var next := frozen[m.0 := false];
    forall f: set<Placed> | f <= PlacedOf(b, members) && SelfHeld(b, h, f)
      ensures f <= StillFrozen(b, members, next)
    {
      assert f <= still;
      forall p | p in f
        ensures p in StillFrozen(b, members, next)
      {
        var q :| q in members && frozen[q.0] && (b.labels[q.0], q.1) == p;
        if q.0 == m.0 {
          assert q == m;
          assert CellsOf(f) <= CellsOf(still);
          HeldMonotone(b, h, p.0, p.1, CellsOf(f), CellsOf(still));
        }
      }
    }
  }

  /** Every member starts frozen. */
  method RaiseFlags(b: Board, h: Heuristic, members: seq<(nat, Cell)>, frozen: array<bool>)
    requires forall m | m in members :: m.0 < |b.labels| && m.0 < MAX_BOXES
    requires frozen.Length == MAX_BOXES && forall i | 0 <= i < MAX_BOXES :: !frozen[i]
    modifies frozen
    ensures Releasing(b, h, members, frozen[..])
  {
    for k := 0 to |members|
      invariant forall i | 0 <= i < MAX_BOXES && frozen[i] :: exists m :: m in members && m.0 == i
      invariant forall j | 0 <= j < k :: frozen[members[j].0]
    {
      assert members[k] in members;
      frozen[members[k].0] := true;
    }
    AllRaised(b, h, members, frozen[..]);
  }

  lemma AllRaised(b: Board, h: Heuristic, members: seq<(nat, Cell)>, frozen: seq<bool>)
    requires forall m | m in members :: m.0 < |b.labels| && m.0 < MAX_BOXES
    requires |frozen| == MAX_BOXES && forall i | 0 <= i < |frozen| && frozen[i] :: exists m :: m in members && m.0 == i
    requires forall j | 0 <= j < |members| :: frozen[members[j].0]
    ensures Releasing(b, h, members, frozen)
  {
    forall p | p in PlacedOf(b, members)
      ensures p in StillFrozen(b, members, frozen)
    {
      var m :| m in members && p == (b.labels[m.0], m.1);
      var j :| 0 <= j < |members| && members[j] == m;
      assert frozen[members[j].0];
    }
  }

  /** Releases boxes until every box still frozen is held. */
  method ReleaseAll(b: Board, h: Heuristic, members: seq<(nat, Cell)>, occupant: Occupant, frozen: array<bool>)
    requires b.Valid() && Listing(b, members, occupant) && frozen.Length == MAX_BOXES
    requires Releasing(b, h, members, frozen[..])
    modifies frozen
    ensures Releasing(b, h, members, frozen[..])
    ensures StillFrozen(b, members, frozen[..]) == Greatest(b, h, PlacedOf(b, members))
  {
    var changed := true;
    while changed
      invariant Releasing(b, h, members, frozen[..])
      invariant !changed ==> AllHeld(b, h, members, frozen[..])
      decreases |Released(members, frozen[..])|, changed
    {
      ghost var before := Released(members, frozen[..]);
      changed := ReleasePass(b, h, members, occupant, frozen);
      if changed { SubsetStrict(Released(members, frozen[..]), before); }
    }
    ReleasedIsGreatest(b, h, members, frozen[..]);
  }

  /** Whether a still-frozen member is off its goal. */
  method AnyOffGoal(b: Board, members: seq<(nat, Cell)>, frozen: array<bool>) returns (dead: bool)
    requires forall m | m in members :: m.0 < |b.labels| && m.0 < frozen.Length && m.1 < |b.tiles|
    ensures dead <==> exists p :: p in StillFrozen(b, members, frozen[..]) && OffGoal(b, p)
  {
    dead := false;
    for k := 0 to |members|
      invariant dead <==> exists j ::
                  0 <= j < k && frozen[members[j].0] && OffGoal(b, (b.labels[members[j].0], members[j].1))
    {
      assert members[k] in members;
      var (i, cell) := members[k];
      if frozen[i] && b.tiles[cell] != b.labels[i] { dead := true; }
    }
    OffGoalInList(b, members, frozen[..]);
  }

  /** Releases members that are not held until a pass releases none. What stays frozen is the
      greatest self-held set, so the answer does not depend on the order of the list. */
  method FrozenOffGoalAmong(b: Board, h: Heuristic, members: seq<(nat, Cell)>, occupant: Occupant)
    returns (dead: bool, ghost left: set<Placed>)
    requires b.Valid() && Listing(b, members, occupant)
    ensures left == Greatest(b, h, PlacedOf(b, members))
    ensures dead <==> exists p :: p in Greatest(b, h, PlacedOf(b, members)) && OffGoal(b, p)
  {
    var frozen := new bool[MAX_BOXES](_ => false);
    RaiseFlags(b, h, members, frozen);
    ReleaseAll(b, h, members, occupant, frozen);
    left := StillFrozen(b, members, frozen[..]);
    dead := AnyOffGoal(b, members, frozen);
  }

  lemma SubsetStrict(small: set<(nat, Cell)>, large: set<(nat, Cell)>)
    requires small < large
    ensures |small| < |large|
  {
    var x :| x in large && x !in small;
    assert |small + (large - small)| == |small| + |large - small|;
    assert small + (large - small) == large;
    assert x in large - small;
  }

  lemma OffGoalInList(b: Board, members: seq<(nat, Cell)>, frozen: seq<bool>)
    requires forall m | m in members :: m.0 < |b.labels| && m.0 < |frozen| && m.1 < |b.tiles|
    ensures (exists j :: 0 <= j < |members| && frozen[members[j].0] &&
              OffGoal(b, (b.labels[members[j].0], members[j].1)))
            <==> exists p :: p in StillFrozen(b, members, frozen) && OffGoal(b, p)
  {
    if j :| 0 <= j < |members| && frozen[members[j].0] && OffGoal(b, (b.labels[members[j].0], members[j].1)) {
      assert members[j] in members;
      assert (b.labels[members[j].0], members[j].1) in StillFrozen(b, members, frozen);
    }
    if p :| p in StillFrozen(b, members, frozen) && OffGoal(b, p) {
      var m :| m in members && frozen[m.0] && (b.labels[m.0], m.1) == p;
      var j :| 0 <= j < |members| && members[j] == m;
    }
  }

  /** Every box still frozen is held by the others. */
  ghost predicate AllHeld(b: Board, h: Heuristic, members: seq<(nat, Cell)>, frozen: seq<bool>)
    requires forall m | m in members :: m.0 < |b.labels| && m.0 < |frozen|
  {
    forall m | m in members && frozen[m.0] :: Held(b, h, b.labels[m.0], m.1, CellsOf(StillFrozen(b, members, frozen)))
  }

  lemma ReleasedIsGreatest(b: Board, h: Heuristic, members: seq<(nat, Cell)>, frozen: seq<bool>)
    requires forall m | m in members :: m.0 < |b.labels| && m.0 < MAX_BOXES
    requires Releasing(b, h, members, frozen)
    requires AllHeld(b, h, members, frozen)
    ensures StillFrozen(b, members, frozen) == Greatest(b, h, PlacedOf(b, members))
  {
    var still, all := StillFrozen(b, members, frozen), PlacedOf(b, members);
    assert still <= all;
    assert SelfHeld(b, h, still);
    GreatestIsSelfHeld(b, h, all);
  }

  /** The first `k` members, where still frozen, are held. */
  ghost predicate HeldUpTo(b: Board, h: Heuristic, members: seq<(nat, Cell)>, frozen: seq<bool>, k: nat)
    requires forall m | m in members :: m.0 < |b.labels| && m.0 < |frozen|
  {
    k <= |members| && forall j | 0 <= j < k && frozen[members[j].0] ::
      Held(b, h, b.labels[members[j].0], members[j].1, CellsOf(StillFrozen(b, members, frozen)))
  }

  /** One pass of the release loop over the list, in place. */
  method ReleasePass(b: Board, h: Heuristic, members: seq<(nat, Cell)>, occupant: Occupant, frozen: array<bool>)
    returns (changed: bool)
    requires b.Valid() && Listing(b, members, occupant) && frozen.Length == MAX_BOXES
    requires Releasing(b, h, members, frozen[..])
    modifies frozen
    ensures Releasing(b, h, members, frozen[..])
    ensures changed ==> Released(members, frozen[..]) < old(Released(members, frozen[..]))
    ensures !changed ==> frozen[..] == old(frozen[..]) && AllHeld(b, h, members, frozen[..])
  {
    changed := false;
    for k := 0 to |members|
      invariant Releasing(b, h, members, frozen[..])
      invariant changed ==> Released(members, frozen[..]) < old(Released(members, frozen[..]))
      invariant !changed ==> frozen[..] == old(frozen[..]) && HeldUpTo(b, h, members, frozen[..], k)
    {
      var released := ReleaseIfFree(b, h, members, occupant, frozen, k);
      assert members[k] in members;
      changed := changed || released;
    }
    if !changed { HeldUpToAll(b, h, members, frozen[..]); }
  }

  lemma HeldUpToAll(b: Board, h: Heuristic, members: seq<(nat, Cell)>, frozen: seq<bool>)
    requires forall m | m in members :: m.0 < |b.labels| && m.0 < |frozen|
    requires HeldUpTo(b, h, members, frozen, |members|)
    ensures AllHeld(b, h, members, frozen)
  {
    forall m | m in members && frozen[m.0]
      ensures Held(b, h, b.labels[m.0], m.1, CellsOf(StillFrozen(b, members, frozen)))
    {
      var j :| 0 <= j < |members| && members[j] == m;
    }
  }

  lemma ReleaseShrinks(members: seq<(nat, Cell)>, frozen: seq<bool>, m: (nat, Cell))
    requires forall m | m in members :: m.0 < |frozen|
    requires m in members && frozen[m.0]
    ensures Released(members, frozen[m.0 := false]) < Released(members, frozen)
  {
    assert m in Released(members, frozen) && m !in Released(members, frozen[m.0 := false]);
  }

  /** Releases the `k`-th member when it is frozen but not held. */
  method ReleaseIfFree(b: Board, h: Heuristic, members: seq<(nat, Cell)>, occupant: Occupant, frozen: array<bool>,
                       k: nat)
    returns (released: bool)
    requires b.Valid() && Listing(b, members, occupant) && frozen.Length == MAX_BOXES
    requires Releasing(b, h, members, frozen[..]) && k < |members|
    modifies frozen
    ensures Releasing(b, h, members, frozen[..])
    ensures released ==> Released(members, frozen[..]) < old(Released(members, frozen[..]))
    ensures !released ==> frozen[..] == old(frozen[..])
    ensures !released && frozen[members[k].0] ==>
              Held(b, h, b.labels[members[k].0], members[k].1, CellsOf(StillFrozen(b, members, frozen[..])))
  {
    released := false;
    assert members[k] in members;
    var (i, cell) := members[k];
    if frozen[i] {
      var held := HeldNow(b, h, members, occupant, frozen, i, cell);
      if !held {
        ReleaseOne(b, h, members, frozen[..], members[k]);
        ReleaseShrinks(members, frozen[..], members[k]);
        ghost var after := frozen[..][i := false];
        frozen[i] := false;
        assert frozen[..] == after;
        released := true;
      }
    }
  }

  /** `held`, its blocked cells read off the flags. */
  method HeldNow(b: Board, h: Heuristic, members: seq<(nat, Cell)>, occupant: Occupant, frozen: array<bool>, i: nat,
                 cell: Cell)
    returns (held: bool)
    requires b.Valid() && Listing(b, members, occupant) && frozen.Length == MAX_BOXES
    requires Releasing(b, h, members, frozen[..]) && i < |b.labels|
    ensures held == Held(b, h, b.labels[i], cell, CellsOf(StillFrozen(b, members, frozen[..])))
  {
    var l := b.labels[i];
    var flags := frozen[..];
    var (up, down, left, right) := (b.Next(cell, 0), b.Next(cell, 1), b.Next(cell, 2), b.Next(cell, 3));
    held := AxisHeld(h, l, up, down, FrozenBox(occupant, flags, up), FrozenBox(occupant, flags, down))
         && AxisHeld(h, l, left, right, FrozenBox(occupant, flags, left), FrozenBox(occupant, flags, right));
    FrozenBoxIsMember(b, members, occupant, flags, up);
    FrozenBoxIsMember(b, members, occupant, flags, down);
    FrozenBoxIsMember(b, members, occupant, flags, left);
    FrozenBoxIsMember(b, members, occupant, flags, right);
  }

  /** The same answer for boxes given as a list, looked up in the list itself. */
  method FrozenOffGoal(b: Board, h: Heuristic, members: seq<(nat, Cell)>) returns (dead: bool)
    requires b.Valid()
    requires forall m | m in members :: m.0 < |b.labels| && m.0 < MAX_BOXES && b.Floor(m.1)
    requires forall i, j | 0 <= i < j < |members| :: members[i].0 != members[j].0 && members[i].1 != members[j].1
    ensures dead <==> exists p :: p in Greatest(b, h, PlacedOf(b, members)) && OffGoal(b, p)
  {
    assert Listing(b, members, Listed(members));
    ghost var left;
    dead, left := FrozenOffGoalAmong(b, h, members, Listed(members));
  }

  // ---------------------------------------------------------------- after a push

  /** `occupant` names box `j` on `c` exactly when `j` takes part and stands there. */
  ghost predicate Names(occupant: Occupant, after: seq<Cell>, who: set<nat>) {
    && (forall j | j in who :: j < |after|)
    && (forall c: Cell, j: nat :: occupant.At(c) == Some(j) <==> j in who && j < |after| && after[j] == c)
  }

  /** The boxes that take part, as placed labels. */
  ghost function PlacedAmong(b: Board, after: seq<Cell>, who: set<nat>): set<Placed>
    requires |after| == |b.labels|
  {
    set j | j in who && j < |after| :: (b.labels[j], after[j])
  }

  ghost function Standing(after: seq<Cell>, who: set<nat>): set<Cell> {
    set j | j in who && j < |after| :: after[j]
  }

  /** The board's cells without a box that takes part. */
  ghost function Outside(b: Board, after: seq<Cell>, who: set<nat>): set<Cell> {
    Below(|b.tiles|) - Standing(after, who)
  }

  /** Box `j` takes part and is joined to box `index` through side-by-side boxes. */
  ghost predicate InComponent(b: Board, after: seq<Cell>, who: set<nat>, index: nat, j: nat)
    requires index < |after|
  {
    j in who && j < |after| && Connected(b, Outside(b, after, who), after[index], after[j])
  }

  /** The question `is_dead_after_push` answers: the freeze fixpoint over every box that takes
      part leaves a box of the pushed box's component off its goal. */
  ghost predicate DeadAfterPush(b: Board, h: Heuristic, after: seq<Cell>, who: set<nat>, index: nat)
    requires |after| == |b.labels| && index < |after|
  {
    FlaggedIn(b, after, who, index, Greatest(b, h, PlacedAmong(b, after, who)))
  }

  /** A box of the pushed box's component is among `frozen`, off its goal. */
  ghost predicate FlaggedIn(b: Board, after: seq<Cell>, who: set<nat>, index: nat, frozen: set<Placed>)
    requires |after| == |b.labels| && index < |after|
  {
    exists j: nat :: InComponent(b, after, who, index, j) && (b.labels[j], after[j]) in frozen &&
      OffGoal(b, (b.labels[j], after[j]))
  }

  /** A flag holds in every state that has the boxes that took part where the push left them,
      wherever the keeper and the other boxes are. */
  lemma DeadAfterPushIsSound(b: Board, h: Heuristic, after: seq<Cell>, who: set<nat>, index: nat, s: State)
    requires b.Valid() && Exact(b, h) && ValidState(b, s) && |after| == |b.labels| && index < |after|
    requires DeadAfterPush(b, h, after, who, index)
    requires PlacedAmong(b, after, who) <= Pairs(b, s)
    ensures !Solvable(b, s)
  {
    var j: nat :| InComponent(b, after, who, index, j)
             && (b.labels[j], after[j]) in Greatest(b, h, PlacedAmong(b, after, who))
             && OffGoal(b, (b.labels[j], after[j]));
    FrozenOffGoalIsDead(b, h, PlacedAmong(b, after, who), (b.labels[j], after[j]), s);
  }

  /** The flag is monotone in the boxes taking part: more of them never clear it. */
  lemma DeadAfterPushMonotone(b: Board, h: Heuristic, after: seq<Cell>, few: set<nat>, many: set<nat>, index: nat)
    requires |after| == |b.labels| && index < |after| && few <= many
    requires DeadAfterPush(b, h, after, few, index)
    ensures DeadAfterPush(b, h, after, many, index)
  {
    var j: nat :| InComponent(b, after, few, index, j)
             && (b.labels[j], after[j]) in Greatest(b, h, PlacedAmong(b, after, few))
             && OffGoal(b, (b.labels[j], after[j]));
    GreatestMonotone(b, h, PlacedAmong(b, after, few), PlacedAmong(b, after, many));
    var dirs :| IsWalk(b, Outside(b, after, few), after[index], dirs, after[j]);
    WalkWithFewerBlocked(b, Outside(b, after, few), Outside(b, after, many), after[index], dirs, after[j]);
    assert InComponent(b, after, many, index, j);
  }

  // ---------------------------------------------------------------- what a flag means

  /** Two boxes on neighbouring cells. */
  ghost predicate Touch(b: Board, after: seq<Cell>, i: nat, j: nat) {
    i < |after| && j < |after| && exists d: nat :: d < 4 && b.Next(after[i], d) == after[j]
  }

  /** A line of boxes from `i` to `j`, each touching the next, those past the first taking part. */
  ghost predicate Line(b: Board, after: seq<Cell>, who: set<nat>, i: nat, line: seq<nat>, j: nat)
    decreases |line|
  {
    if line == [] then i == j
    else line[0] in who && Touch(b, after, i, line[0]) && Line(b, after, who, line[0], line[1..], j)
  }

  /** Some line leads from `i` to `j`. */
  ghost predicate InLine(b: Board, after: seq<Cell>, who: set<nat>, i: nat, j: nat) {
    exists line :: Line(b, after, who, i, line, j)
  }

  /** A box that takes part, in a line from the pushed one, is off goal, and no way of taking
      boxes off takes it. */
  ghost predicate Jammed(b: Board, h: Heuristic, after: seq<Cell>, who: set<nat>, index: nat)
    requires |after| == |b.labels|
  {
    exists j: nat {:trigger InLine(b, after, who, index, j)} ::
      && j in who && j < |after| && InLine(b, after, who, index, j)
      && after[j] < |b.tiles| && b.tiles[after[j]] != b.labels[j]
      && Fast(b, h, PlacedAmong(b, after, who), (b.labels[j], after[j]))
  }

  lemma DeadAfterPushMeans(b: Board, h: Heuristic, after: seq<Cell>, who: set<nat>, index: nat)
    requires b.ValidTable() && |after| == |b.labels| && index < |after|
    requires forall i, j | 0 <= i < j < |after| :: after[i] != after[j]
    requires forall i | 0 <= i < |after| :: b.Floor(after[i])
    ensures DeadAfterPush(b, h, after, who, index) <==> Jammed(b, h, after, who, index)
  {
    var all := PlacedAmong(b, after, who);
    forall j: nat | j in who && j < |after|
      ensures InComponent(b, after, who, index, j) <==> InLine(b, after, who, index, j)
      ensures (b.labels[j], after[j]) in Greatest(b, h, all) <==> Fast(b, h, all, (b.labels[j], after[j]))
    {
      ComponentIsLine(b, after, who, index, j);
      FrozenIsFast(b, h, all, (b.labels[j], after[j]));
    }
  }

  lemma ComponentIsLine(b: Board, after: seq<Cell>, who: set<nat>, index: nat, j: nat)
    requires b.ValidTable() && index < |after| && j in who && j < |after|
    requires forall i, j | 0 <= i < j < |after| :: after[i] != after[j]
    requires forall i | 0 <= i < |after| :: b.Floor(after[i])
    ensures InComponent(b, after, who, index, j) <==> InLine(b, after, who, index, j)
  {
    if InComponent(b, after, who, index, j) {
      var dirs :| IsWalk(b, Outside(b, after, who), after[index], dirs, after[j]);
      var line := LineOfWalk(b, after, who, index, dirs, j);
      assert InLine(b, after, who, index, j);
    }
    if InLine(b, after, who, index, j) {
      var line :| Line(b, after, who, index, line, j);
      LineIsWalk(b, after, who, index, line, j);
      assert InComponent(b, after, who, index, j);
    }
  }

  lemma {:induction false} LineOfWalk(b: Board, after: seq<Cell>, who: set<nat>, i: nat, dirs: seq<nat>, j: nat)
    returns (line: seq<nat>)
    requires b.ValidTable() && i < |after| && j < |after|
    requires forall i, j | 0 <= i < j < |after| :: after[i] != after[j]
    requires IsWalk(b, Outside(b, after, who), after[i], dirs, after[j])
    ensures Line(b, after, who, i, line, j)
    decreases |dirs|
  {
    if dirs == [] { return []; }
    var n := b.Next(after[i], dirs[0]);
    assert b.Floor(n) && n in Standing(after, who);
    var k :| k in who && k < |after| && after[k] == n;
    assert Touch(b, after, i, k);
    var rest := LineOfWalk(b, after, who, k, dirs[1..], j);
    line := [k] + rest;
    assert line[1..] == rest;
  }

  lemma {:induction false} LineIsWalk(b: Board, after: seq<Cell>, who: set<nat>, i: nat, line: seq<nat>, j: nat)
    requires b.ValidTable() && Line(b, after, who, i, line, j) && i < |after|
    requires forall i | 0 <= i < |after| :: b.Floor(after[i])
    ensures j < |after| && Connected(b, Outside(b, after, who), after[i], after[j])
    decreases |line|
  {
    ConnectedSelf(b, Outside(b, after, who), after[i]);
    if line != [] {
      var d: nat :| d < 4 && b.Next(after[i], d) == after[line[0]];
      assert after[line[0]] in Standing(after, who) && b.Floor(after[line[0]]);
      ConnectedStep(b, Outside(b, after, who), after[i], after[i], d);
      LineIsWalk(b, after, who, line[0], line[1..], j);
      ConnectedTransitive(b, Outside(b, after, who), after[i], after[line[0]], after[j]);
    }
  }

  /** A set of boxes that no other box that takes part borders. */
  ghost predicate Isolated(b: Board, after: seq<Cell>, who: set<nat>, part: set<nat>) {
    && part <= who
    && forall j, k, d: nat |
      j in part && k in who && j < |after| && k < |after| && d < 4 && b.Next(after[j], d) == after[k] :: k in part
  }

  /** The fixpoint over an isolated part freezes the same boxes of it as the fixpoint over
      everything. */
  lemma IsolatedFixpoint(b: Board, h: Heuristic, after: seq<Cell>, who: set<nat>, part: set<nat>)
    requires |after| == |b.labels| && Isolated(b, after, who, part)
    requires forall i, j | 0 <= i < j < |after| :: after[i] != after[j]
    requires forall j | j in who :: j < |after|
    ensures Greatest(b, h, PlacedAmong(b, after, part)) ==
            Greatest(b, h, PlacedAmong(b, after, who)) * PlacedAmong(b, after, part)
  {
    var some, all := PlacedAmong(b, after, part), PlacedAmong(b, after, who);
    assert some <= all;
    GreatestMonotone(b, h, some, all);
    GreatestIsSelfHeld(b, h, all);
    GreatestIsSelfHeld(b, h, some);
    var g := Greatest(b, h, all);
    var f := g * some;
    forall p: Placed | p in f
      ensures Held(b, h, p.0, p.1, CellsOf(f))
    {
      assert Held(b, h, p.0, p.1, CellsOf(g));
      forall d: nat | d < 4 && b.Next(p.1, d) in CellsOf(g)
        ensures b.Next(p.1, d) in CellsOf(f)
      {
        IsolatedNeighbour(b, after, who, part, p, g, d);
      }
    }
    assert SelfHeld(b, h, f);
  }

  lemma IsolatedNeighbour(b: Board, after: seq<Cell>, who: set<nat>, part: set<nat>, p: Placed, g: set<Placed>, d: nat)
    requires |after| == |b.labels| && Isolated(b, after, who, part) && d < 4
    requires g <= PlacedAmong(b, after, who) && p in PlacedAmong(b, after, part)
    requires b.Next(p.1, d) in CellsOf(g)
    ensures b.Next(p.1, d) in CellsOf(g * PlacedAmong(b, after, part))
  {
    var q :| q in g && q.1 == b.Next(p.1, d);
    var k :| k in who && k < |after| && (b.labels[k], after[k]) == q;
    var j :| j in part && j < |after| && (b.labels[j], after[j]) == p;
    assert k in part;
    assert q in PlacedAmong(b, after, part);
  }

  // ---------------------------------------------------------------- the lone box

  /** A box with no other box beside it is held off its goal exactly on a dead cell. */
  lemma LoneHeldIsDead(b: Board, h: Heuristic, l: Label, c: Cell)
    requires b.Valid() && Exact(b, h) && LABEL_A <= l <= LABEL_Z && b.Floor(c)
    ensures Held(b, h, l, c, {}) && OffGoal(b, (l, c)) <==> h.Dead(l, c)
  {
    if h.Dead(l, c) {
      if b.tiles[c] == l { GoalIsLive(b, l, c); }
      forall d: nat | d < 4 && LonePush(b, c, d)
        ensures h.Dead(l, b.Next(c, d))
      {
        if Live(b, l, b.Next(c, d)) { LiveBeforePush(b, l, c, d); }
      }
      assert LonePush(b, c, 0) <==> LonePush(b, c, 1);
      assert LonePush(b, c, 2) <==> LonePush(b, c, 3);
    } else if OffGoal(b, (l, c)) {
      LiveHasLivePush(b, l, c);
      var d: nat :| d < 4 && LonePush(b, c, d) && Live(b, l, b.Next(c, d));
      assert !h.Dead(l, b.Next(c, d));
      assert b.Next(c, d) !in {} && b.Next(c, Opposite(d)) !in {};
    }
  }

  /** A box no participant borders is its whole component. */
  lemma LoneComponent(b: Board, after: seq<Cell>, who: set<nat>, index: nat, j: nat)
    requires b.ValidTable() && index < |after|
    requires forall i, k | 0 <= i < k < |after| :: after[i] != after[k]
    requires forall k, d: nat | k in who && k < |after| && d < 4 :: b.Next(after[index], d) != after[k]
    requires InComponent(b, after, who, index, j)
    ensures j == index
  {
    var dirs :| IsWalk(b, Outside(b, after, who), after[index], dirs, after[j]);
    if dirs != [] {
      var n := b.Next(after[index], dirs[0]);
      assert n !in Outside(b, after, who) && b.Floor(n);
    }
  }

  /** No participant borders box `index`. */
  ghost predicate Alone(b: Board, after: seq<Cell>, who: set<nat>, index: nat)
    requires index < |after|
  {
    forall k, d: nat | k in who && k < |after| && d < 4 :: b.Next(after[index], d) != after[k]
  }

  lemma FlaggedAloneIsDead(b: Board, h: Heuristic, after: seq<Cell>, who: set<nat>, index: nat)
    requires b.Valid() && Exact(b, h) && |after| == |b.labels| && index in who && index < |after|
    requires forall i, k | 0 <= i < k < |after| :: after[i] != after[k]
    requires b.Floor(after[index]) && Alone(b, after, who, index)
    requires DeadAfterPush(b, h, after, who, index)
    ensures h.Dead(b.labels[index], after[index])
  {
    var l, c := b.labels[index], after[index];
    var all := PlacedAmong(b, after, who);
    var j: nat :| InComponent(b, after, who, index, j) && (b.labels[j], after[j]) in Greatest(b, h, all)
             && OffGoal(b, (b.labels[j], after[j]));
    LoneComponent(b, after, who, index, j);
    var f: set<Placed> :| f <= all && SelfHeld(b, h, f) && (l, c) in f;
    forall d: nat | d < 4
      ensures b.Next(c, d) !in CellsOf(f)
    {
      if b.Next(c, d) in CellsOf(f) { NoNeighbourHolds(b, after, who, index, f, d); }
    }
    assert Held(b, h, (l, c).0, (l, c).1, CellsOf(f));
    LoneHeldIsDead(b, h, l, c);
  }

  lemma DeadAloneIsFlagged(b: Board, h: Heuristic, after: seq<Cell>, who: set<nat>, index: nat)
    requires b.Valid() && Exact(b, h) && |after| == |b.labels| && index in who && index < |after|
    requires b.Floor(after[index]) && h.Dead(b.labels[index], after[index])
    ensures DeadAfterPush(b, h, after, who, index)
  {
    var p: Placed := (b.labels[index], after[index]);
    LoneHeldIsDead(b, h, p.0, p.1);
    HeldMonotone(b, h, p.0, p.1, {}, CellsOf({p}));
    assert SelfHeld(b, h, {p});
    assert p in PlacedAmong(b, after, who);
    assert Frozen(b, h, PlacedAmong(b, after, who), p);
    ConnectedSelf(b, Outside(b, after, who), p.1);
    assert InComponent(b, after, who, index, index);
  }

  /** The dead-cell table gives the fixpoint's answer for a box that lands beside no other. */
  lemma LoneAnswerIsExact(b: Board, h: Heuristic, after: seq<Cell>, who: set<nat>, index: nat)
    requires b.Valid() && Exact(b, h) && |after| == |b.labels| && index in who && index < |after|
    requires forall i, k | 0 <= i < k < |after| :: after[i] != after[k]
    requires b.Floor(after[index]) && Alone(b, after, who, index)
    ensures DeadAfterPush(b, h, after, who, index) <==> h.Dead(b.labels[index], after[index])
  {
    if DeadAfterPush(b, h, after, who, index) { FlaggedAloneIsDead(b, h, after, who, index); }
    if h.Dead(b.labels[index], after[index]) { DeadAloneIsFlagged(b, h, after, who, index); }
  }

  lemma NoNeighbourHolds(b: Board, after: seq<Cell>, who: set<nat>, index: nat, f: set<Placed>, d: nat)
    requires |after| == |b.labels| && index < |after| && d < 4 && f <= PlacedAmong(b, after, who)
    requires b.Next(after[index], d) in CellsOf(f)
    ensures exists k :: k in who && k < |after| && b.Next(after[index], d) == after[k]
  {
    var q :| q in f && q.1 == b.Next(after[index], d);
    var k :| k in who && k < |after| && (b.labels[k], after[k]) == q;
  }

  // ---------------------------------------------------------------- the component

  /** What the component flood keeps: a listing of joined boxes, the pushed one first. */
  ghost predicate Joined(b: Board, after: seq<Cell>, who: set<nat>, index: nat, component: seq<(nat, Cell)>)
    requires index < |after|
  {
    && component != [] && component[0] == (index, after[index])
    && (forall m | m in component :: InComponent(b, after, who, index, m.0) && m.1 == after[m.0])
    && (forall i, j | 0 <= i < j < |component| :: component[i].0 != component[j].0)
  }

  /** The first `d` neighbours of box `j` that hold a participant are listed. */
  ghost predicate Bordered(b: Board, after: seq<Cell>, who: set<nat>, component: seq<(nat, Cell)>, j: nat, d: nat)
    requires j < |after|
  {
    forall k, e: nat | k in who && k < |after| && e < d && b.Next(after[j], e) == after[k] :: (k, after[k]) in component
  }

  lemma JoinOne(b: Board, after: seq<Cell>, who: set<nat>, index: nat, component: seq<(nat, Cell)>, m: (nat, Cell),
                d: nat, k: nat)
    requires b.ValidTable() && index < |after| && Joined(b, after, who, index, component) && m in component && d < 4
    requires forall m | m in component :: m.0 != k
    requires k in who && k < |after| && b.Next(m.1, d) == after[k] && after[k] < |b.tiles|
    ensures Joined(b, after, who, index, component + [(k, after[k])])
  {
    assert after[k] in Standing(after, who);
    assert after[k] < MAX_CELLS;
    ConnectedStep(b, Outside(b, after, who), after[index], m.1, d);
    var grown := component + [(k, after[k])];
    forall q | q in grown
      ensures InComponent(b, after, who, index, q.0) && q.1 == after[q.0]
    {
      if q !in component { assert q == (k, after[k]); }
    }
  }

  /** A listing that lists all its neighbours lists the whole component. */
  lemma {:induction false} JoinedReaches(b: Board, after: seq<Cell>, who: set<nat>, component: seq<(nat, Cell)>, j: nat,
                                         dirs: seq<nat>, c: Cell)
    requires b.ValidTable() && j < |after| && (j, after[j]) in component
    requires forall m | m in component ::
               m.0 < |after| && m.1 == after[m.0] && Bordered(b, after, who, component, m.0, 4)
    requires IsWalk(b, Outside(b, after, who), after[j], dirs, c)
    ensures exists k: nat :: k < |after| && after[k] == c && (k, c) in component
    decreases |dirs|
  {
    if dirs != [] {
      var n := b.Next(after[j], dirs[0]);
      assert b.Floor(n) && n in Standing(after, who);
      var k :| k in who && k < |after| && after[k] == n;
      assert Bordered(b, after, who, component, (j, after[j]).0, 4);
      JoinedReaches(b, after, who, component, k, dirs[1..], c);
    }
  }

  /** The finished listing is the component, and isolates it. */
  lemma ComponentDone(b: Board, after: seq<Cell>, who: set<nat>, index: nat, component: seq<(nat, Cell)>)
    requires b.ValidTable() && index < |after| == |b.labels| && Joined(b, after, who, index, component)
    requires forall i, j | 0 <= i < j < |after| :: after[i] != after[j]
    requires forall j | j in who :: j < |after|
    requires forall m | m in component :: Bordered(b, after, who, component, m.0, 4)
    ensures var part := set m | m in component :: m.0;
            && (forall j: nat :: j in part <==> InComponent(b, after, who, index, j))
            && Isolated(b, after, who, part)
            && PlacedOf(b, component) == PlacedAmong(b, after, part)
  {
    var part := set m | m in component :: m.0;
    forall j: nat
      ensures j in part <==> InComponent(b, after, who, index, j)
    {
      if InComponent(b, after, who, index, j) {
        var dirs :| IsWalk(b, Outside(b, after, who), after[index], dirs, after[j]);
        assert component[0] in component;
        JoinedReaches(b, after, who, component, index, dirs, after[j]);
        var k: nat :| k < |after| && after[k] == after[j] && (k, after[j]) in component;
        assert k == j;
      }
    }
    forall j, k, d: nat |
      j in part && k in who && j < |after| && k < |after| && d < 4 && b.Next(after[j], d) == after[k]
      ensures k in part
    {
      var m :| m in component && m.0 == j;
      assert (k, after[k]) in component;
    }
    forall p | p in PlacedOf(b, component)
      ensures p in PlacedAmong(b, after, part)
    {
      var m :| m in component && p == (b.labels[m.0], m.1);
      assert m.0 in part;
    }
  }

  // ---------------------------------------------------------------- the detector

  /** The occupancy map of one state, refreshed once per expansion. */
  class Deadlock {
    /** Cell -> the box on it. */
    const occupancy: array<Option<nat>>
    /** Where the last refresh put boxes; all other entries are empty. */
    var placed: seq<Cell>

    ghost predicate Valid(b: Board)
      reads this, occupancy
    {
      && occupancy.Length == |b.tiles|
      && (forall k | 0 <= k < |placed| :: placed[k] < occupancy.Length)
      && (forall i, j | 0 <= i < j < |placed| :: placed[i] != placed[j])
      && (forall c: nat, j: nat | c < occupancy.Length :: occupancy[c] == Some(j) <==> j < |placed| && placed[j] == c)
    }

    /** The map was last refreshed to `boxes`. */
    ghost predicate Holds(b: Board, boxes: seq<Cell>)
      reads this, occupancy
    {
      Valid(b) && placed == boxes
    }

    constructor (b: Board)
      ensures Holds(b, []) && fresh(occupancy)
    {
      occupancy := new Option<nat>[|b.tiles|](_ => None);
      placed := [];
    }

    /** Rebuilds occupancy for a state, resetting only the cells the last refresh wrote. */
    method Refresh(b: Board, boxes: seq<Cell>)
      requires Valid(b)
      requires forall k | 0 <= k < |boxes| :: boxes[k] < |b.tiles|
      requires forall i, j | 0 <= i < j < |boxes| :: boxes[i] != boxes[j]
      modifies this, occupancy
      ensures Holds(b, boxes)
    {
      for k := 0 to |placed|
        invariant placed == old(placed)
        invariant forall c: nat | c < occupancy.Length && c !in placed[k..] :: occupancy[c].None?
      {
        assert placed[k..] == [placed[k]] + placed[k + 1..];
        occupancy[placed[k]] := None;
      }
      for i := 0 to |boxes|
        invariant forall c: nat, j: nat | c < occupancy.Length :: occupancy[c] == Some(j) <==> j < i && boxes[j] == c
      {
        occupancy[boxes[i]] := Some(i);
      }
      placed := boxes;
    }

    /** The index of the refreshed position's box on `cell`, if there is one; NONE never has one. */
    method At(b: Board, cell: Cell) returns (r: Option<nat>)
      requires Valid(b) && (cell == NONE || cell < |b.tiles|) && |b.tiles| <= MAX_CELLS
      ensures r.Some? <==> cell in placed
      ensures r.Some? ==> r.value < |placed| && placed[r.value] == cell
    {
      if cell == NONE { return None; }
      r := occupancy[cell];
      if cell in placed {
        var j: nat :| j < |placed| && placed[j] == cell;
        assert occupancy[cell] == Some(j);
      }
    }

    /** The boxes after the push of `index` to `to`, those of `members` and the pushed one
        taking part. */
    ghost predicate AfterPushOf(b: Board, members: set<nat>, index: nat, to: Cell)
      reads this, occupancy
    {
      && Valid(b) && b.Valid() && |placed| == |b.labels| && index < |placed|
      && b.Floor(to) && to !in placed
      && (forall i | 0 <= i < |placed| :: b.Floor(placed[i]))
    }

    ghost function Who(members: set<nat>, index: nat): set<nat>
      reads this
    {
      (set j | j in members && j < |placed|) + {index}
    }

    lemma AfterNames(b: Board, members: set<nat>, index: nat, to: Cell)
      requires AfterPushOf(b, members, index, to)
      ensures Names(AfterPush(occupancy[..], members, placed[index], to, index), placed[index := to],
                Who(members, index))
    {
      var occupant := AfterPush(occupancy[..], members, placed[index], to, index);
      var after := placed[index := to];
      forall c: Cell, j: nat
        ensures occupant.At(c) == Some(j) <==> j in Who(members, index) && j < |after| && after[j] == c
      {
        if c < |b.tiles| {
          assert occupancy[c] == Some(j) <==> j < |placed| && placed[j] == c;
          assert occupancy[..][c] == occupancy[c];
        }
      }
    }

    /** Exact: the push is flagged when, among the pushed box and `members`, the fixpoint after it
        leaves a box of the pushed one's component off goal. */
    method IsDeadAfterPush(b: Board, h: Heuristic, members: set<nat>, from: Cell, to: Cell) returns (dead: bool)
      requires b.Valid() && Exact(b, h) && Valid(b) && |placed| == |b.labels|
      requires from in placed && to !in placed && b.Floor(to)
      requires forall i | 0 <= i < |placed| :: b.Floor(placed[i])
      ensures var index := IndexOf(placed, from);
              dead <==> DeadAfterPush(b, h, placed[index := to], Who(members, index), index)
      ensures var index := IndexOf(placed, from);
              dead <==> Jammed(b, h, placed[index := to], Who(members, index), index)
    {
      var found := At(b, from);
      var i := found.value;
      assert i == IndexOf(placed, from);
      DeadAfterPushMeans(b, h, placed[i := to], Who(members, i), i);
      var lone := LoneAnswer(b, h, members, i, from, to);
      if lone.Some? {
        dead := lone.value;
      } else {
        dead := FrozenComponent(b, h, members, i, from, to);
      }
    }

    /** The dead-cell table's answer when no participant borders `to`, else None. */
    method LoneAnswer(b: Board, h: Heuristic, members: set<nat>, index: nat, from: Cell, to: Cell)
      returns (r: Option<bool>)
      requires AfterPushOf(b, members, index, to) && Exact(b, h) && from == placed[index]
      ensures r.Some? ==> (r.value <==> DeadAfterPush(b, h, placed[index := to], Who(members, index), index))
      ensures r.Some? <==> Alone(b, placed[index := to], Who(members, index), index)
    {
      var occupant := AfterPush(occupancy[..], members, from, to, index);
      AfterNames(b, members, index, to);
      for d := 0 to 4
        invariant forall e: nat | e < d && b.Next(to, e) != NONE :: occupant.At(b.Next(to, e)).None?
      {
        var n := b.Next(to, d);
        if n != NONE && occupant.At(n).Some? { return None; }
      }
      ghost var after, who := placed[index := to], Who(members, index);
      forall k, d: nat | k in who && k < |after| && d < 4
        ensures b.Next(after[index], d) != after[k]
      {
        var n := b.Next(after[index], d);
        assert n != NONE ==> occupant.At(n).None?;
      }
      LoneAnswerIsExact(b, h, after, who, index);
      return Some(h.Dead(b.labels[index], to));
    }

    /** Answers for every box taking part by looking only at the pushed one's component. */
    method FrozenComponent(b: Board, h: Heuristic, members: set<nat>, index: nat, from: Cell, to: Cell)
      returns (dead: bool)
      requires AfterPushOf(b, members, index, to) && Exact(b, h) && from == placed[index]
      ensures dead <==> DeadAfterPush(b, h, placed[index := to], Who(members, index), index)
    {
      var occupant := AfterPush(occupancy[..], members, from, to, index);
      AfterNames(b, members, index, to);
      ghost var after, who := placed[index := to], Who(members, index);
      var component := CollectComponent(b, occupant, after, who, index, to);
      ComponentDone(b, after, who, index, component);
      ghost var part := set m | m in component :: m.0;
      ComponentListing(b, occupant, after, who, index, component);
      ghost var left;
      dead, left := FrozenOffGoalAmong(b, h, component, occupant);
      IsolatedFixpoint(b, h, after, who, part);
      ComponentAnswer(b, after, who, index, part, Greatest(b, h, PlacedAmong(b, after, who)), left);
    }
  }

  /** Asking the component alone is asking every participant about the component. */
  lemma ComponentAnswer(b: Board, after: seq<Cell>, who: set<nat>, index: nat, part: set<nat>, all: set<Placed>,
                        some: set<Placed>)
    requires |after| == |b.labels| && index < |after|
    requires forall j: nat :: j in part <==> InComponent(b, after, who, index, j)
    requires some == all * PlacedAmong(b, after, part)
    ensures FlaggedIn(b, after, who, index, all) <==> exists p :: p in some && OffGoal(b, p)
  {
    if FlaggedIn(b, after, who, index, all) {
      var j: nat :| InComponent(b, after, who, index, j) && (b.labels[j], after[j]) in all &&
        OffGoal(b, (b.labels[j], after[j]));
      assert (b.labels[j], after[j]) in some;
    }
    if p :| p in some && OffGoal(b, p) {
      var j: nat :| j in part && j < |after| && (b.labels[j], after[j]) == p;
    }
  }

  lemma ComponentListing(b: Board, occupant: Occupant, after: seq<Cell>, who: set<nat>, index: nat,
                          component: seq<(nat, Cell)>)
    requires b.Valid() && |after| == |b.labels| && index < |after|
    requires Names(occupant, after, who) && Joined(b, after, who, index, component)
    requires forall i, j | 0 <= i < j < |after| :: after[i] != after[j]
    requires forall i | 0 <= i < |after| :: b.Floor(after[i])
    ensures Listing(b, component, occupant)
  {
    forall i, j | 0 <= i < j < |component|
      ensures component[i].0 != component[j].0 && component[i].1 != component[j].1
    {
      assert component[i] in component && component[j] in component;
    }
  }

  /** Floods the boxes joined to box `index`, (box, cell) pairs in discovery order. */
  method CollectComponent(b: Board, occupant: Occupant, ghost after: seq<Cell>, ghost who: set<nat>, index: nat,
                          to: Cell)
    returns (component: seq<(nat, Cell)>)
    requires b.Valid() && |after| == |b.labels| && index < |after| && after[index] == to && index in who
    requires Names(occupant, after, who)
    requires forall i, j | 0 <= i < j < |after| :: after[i] != after[j]
    requires forall i | 0 <= i < |after| :: b.Floor(after[i])
    ensures Joined(b, after, who, index, component)
    ensures forall m | m in component :: Bordered(b, after, who, component, m.0, 4)
  {
    ConnectedSelf(b, Outside(b, after, who), to);
    component := [(index, to)];
    var head := 0;
    while head < |component|
      invariant Joined(b, after, who, index, component) && head <= |component|
      invariant forall i | 0 <= i < head :: Bordered(b, after, who, component, component[i].0, 4)
      decreases |after| - head
    {
      SlotsFit(component, |after|);
      component := JoinNeighbours(b, occupant, after, who, index, component, head);
      head := head + 1;
    }
  }

  lemma SlotsFit(component: seq<(nat, Cell)>, n: nat)
    requires forall m | m in component :: m.0 < n
    requires forall i, j | 0 <= i < j < |component| :: component[i].0 != component[j].0
    ensures |component| <= n
  {
    var slots := seq(|component|, i requires 0 <= i < |component| => component[i].0);
    forall i | 0 <= i < |slots| ensures slots[i] < n {
      assert component[i] in component;
    }
    DistinctCellsFit(slots, n);
  }

  /** Lists the participants beside the `head`-th listed box that are not listed yet. */
  method JoinNeighbours(b: Board, occupant: Occupant, ghost after: seq<Cell>, ghost who: set<nat>, ghost index: nat,
                        component0: seq<(nat, Cell)>, head: nat)
    returns (component: seq<(nat, Cell)>)
    requires b.Valid() && |after| == |b.labels| && index < |after| && Names(occupant, after, who)
    requires forall i | 0 <= i < |after| :: b.Floor(after[i])
    requires Joined(b, after, who, index, component0) && head < |component0|
    requires forall i | 0 <= i < head :: Bordered(b, after, who, component0, component0[i].0, 4)
    ensures Joined(b, after, who, index, component) && |component0| <= |component|
    ensures forall i | 0 <= i <= head :: Bordered(b, after, who, component, component[i].0, 4)
  {
    component := component0;
    var slot := component[head].0;
    assert component[head] in component;
    for d := 0 to 4
      invariant Joined(b, after, who, index, component) && component0 <= component
      invariant Bordered(b, after, who, component, slot, d)
    {
      component := JoinNeighbour(b, occupant, after, who, index, component, head, d);
    }
    BorderedStays(b, after, who, component0, component, head);
  }

  method JoinNeighbour(b: Board, occupant: Occupant, ghost after: seq<Cell>, ghost who: set<nat>, ghost index: nat,
                       component0: seq<(nat, Cell)>, head: nat, d: nat)
    returns (component: seq<(nat, Cell)>)
    requires b.Valid() && |after| == |b.labels| && index < |after| && Names(occupant, after, who) && d < 4
    requires forall i | 0 <= i < |after| :: b.Floor(after[i])
    requires Joined(b, after, who, index, component0) && head < |component0| && component0[head].0 < |after|
    requires Bordered(b, after, who, component0, component0[head].0, d)
    ensures Joined(b, after, who, index, component) && component0 <= component
    ensures Bordered(b, after, who, component, component0[head].0, d + 1)
  {
    component := component0;
    var adjacent := b.Next(component[head].1, d);
    assert component[head] in component;
    if adjacent != NONE && occupant.At(adjacent).Some? {
      var j := occupant.At(adjacent).value;
      if Lists(component, j) {
        ListedAlready(b, after, who, index, component, j);
      } else {
        NotListed(component, j);
        JoinOne(b, after, who, index, component, component[head], d, j);
        component := component + [(j, adjacent)];
      }
    }
  }

  lemma NotListed(component: seq<(nat, Cell)>, j: nat)
    requires !Lists(component, j)
    ensures forall m | m in component :: m.0 != j
  {
  }

  lemma ListedAlready(b: Board, after: seq<Cell>, who: set<nat>, index: nat, component: seq<(nat, Cell)>, j: nat)
    requires index < |after| && j < |after| && Joined(b, after, who, index, component) && Lists(component, j)
    ensures (j, after[j]) in component
  {
    var i :| 0 <= i < |component| && component[i].0 == j;
    assert component[i] in component;
  }

  /** A longer listing still lists every neighbour it listed. */
  lemma BorderedStays(b: Board, after: seq<Cell>, who: set<nat>, component: seq<(nat, Cell)>, grown: seq<(nat, Cell)>,
                      head: nat)
    requires component <= grown && head <= |component| && forall i | 0 <= i < head :: component[i].0 < |after|
    requires forall i | 0 <= i < head :: Bordered(b, after, who, component, component[i].0, 4)
    ensures forall i | 0 <= i < head :: Bordered(b, after, who, grown, grown[i].0, 4)
  {
    forall i | 0 <= i < head
      ensures Bordered(b, after, who, grown, grown[i].0, 4)
    {
      assert Bordered(b, after, who, component, component[i].0, 4);
    }
  }

  /** The `in_component` flag of box `j`. */
  predicate Lists(component: seq<(nat, Cell)>, j: nat) {
    exists i :: 0 <= i < |component| && component[i].0 == j
  }
}
