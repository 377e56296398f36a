/** The pocket check (corral.rs): a bounded search of the world of a pocket's members alone.
    Every run of the whole puzzle projects to a run of that world, so a search that runs out
    without settling the members leaves no solution. */
module PocketTheory {
  import opened Rules
  import opened Bfs
  import opened Reach
  import opened DeadCells
  import opened Freeze

  /** A state of the members alone. `at` is a cell of the keeper's region, its least one from the
      pop on; `slot` is where the table has its key. */
  datatype Entry = Entry(cells: seq<Cell>, at: Cell, slot: Option<nat>)

  // ---------------------------------------------------------------- canonical order

  /** The boxes an entry stands for: slot `slots[k]`'s label on `cells[k]`. */
  ghost function EntryPairs(b: Board, slots: seq<nat>, cells: seq<Cell>): set<Placed>
    requires |slots| == |cells| && forall k | 0 <= k < |slots| :: slots[k] < |b.labels|
  {
    set k | 0 <= k < |cells| :: (b.labels[slots[k]], cells[k])
  }

  predicate SameLabel(b: Board, slots: seq<nat>, i: nat, j: nat)
    requires i < |slots| && j < |slots| && slots[i] < |b.labels| && slots[j] < |b.labels|
  {
    b.labels[slots[i]] == b.labels[slots[j]]
  }

  /** Ascending slots, so labels come in runs. */
  ghost predicate Slotted(b: Board, slots: seq<nat>) {
    && (forall k | 0 <= k < |slots| :: slots[k] < |b.labels|)
    && (forall i, j | 0 <= i < j < |slots| :: slots[i] < slots[j])
  }

  /** Each label's run is sorted by cell, leaving out position `k`. */
  ghost predicate SortedBut(b: Board, slots: seq<nat>, cells: seq<Cell>, k: int)
    requires |slots| == |cells| && Slotted(b, slots)
  {
    forall i: nat, j: nat | i < j < |cells| && i != k && j != k && SameLabel(b, slots, i, j) :: cells[i] <= cells[j]
  }

  ghost predicate Canonical(b: Board, slots: seq<nat>, cells: seq<Cell>)
    requires |slots| == |cells| && Slotted(b, slots)
  {
    SortedBut(b, slots, cells, -1)
  }

  function Swap(cells: seq<Cell>, i: nat, j: nat): (r: seq<Cell>)
    requires i < |cells| && j < |cells|
    ensures |r| == |cells| && multiset(r) == multiset(cells)
  {
    cells[i := cells[j]][j := cells[i]]
  }

  lemma SwapSubset(b: Board, slots: seq<nat>, cells: seq<Cell>, i: nat, j: nat)
    requires |slots| == |cells| && Slotted(b, slots) && i < |cells| && j < |cells| && SameLabel(b, slots, i, j)
    ensures EntryPairs(b, slots, Swap(cells, i, j)) <= EntryPairs(b, slots, cells)
  {
    var swapped := Swap(cells, i, j);
    forall p | p in EntryPairs(b, slots, swapped)
      ensures p in EntryPairs(b, slots, cells)
    {
      var k :| 0 <= k < |swapped| && p == (b.labels[slots[k]], swapped[k]);
      var m := if k == i then j else if k == j then i else k;
      assert p == (b.labels[slots[m]], cells[m]);
    }
  }

  /** Swapping two boxes of one label changes nothing but the order. */
  lemma SwapKeepsPairs(b: Board, slots: seq<nat>, cells: seq<Cell>, i: nat, j: nat)
    requires |slots| == |cells| && Slotted(b, slots) && i < |cells| && j < |cells| && SameLabel(b, slots, i, j)
    ensures EntryPairs(b, slots, Swap(cells, i, j)) == EntryPairs(b, slots, cells)
  {
    SwapSubset(b, slots, cells, i, j);
    SwapSubset(b, slots, Swap(cells, i, j), i, j);
    assert Swap(Swap(cells, i, j), i, j) == cells;
  }

  /** Position `k` is at least every earlier cell of its label. */
  ghost predicate AboveEarlier(b: Board, slots: seq<nat>, cells: seq<Cell>, k: nat)
    requires |slots| == |cells| && Slotted(b, slots) && k < |cells|
  {
    forall i: nat | i < k && SameLabel(b, slots, i, k) :: cells[i] <= cells[k]
  }

  lemma RunsAreContiguous(b: Board, slots: seq<nat>, i: nat, j: nat, k: nat)
    requires b.ValidLabels() && Slotted(b, slots) && i <= j <= k < |slots| && SameLabel(b, slots, i, k)
    ensures SameLabel(b, slots, i, j)
  {
    assert slots[i] <= slots[j] <= slots[k];
  }

  /** Same boxes, in another order. */
  ghost predicate Reordered(b: Board, slots: seq<nat>, cells: seq<Cell>, cells0: seq<Cell>)
    requires Slotted(b, slots)
  {
    && |cells| == |cells0| == |slots| && multiset(cells) == multiset(cells0)
    && EntryPairs(b, slots, cells) == EntryPairs(b, slots, cells0)
  }

  method SettleLeft(b: Board, slots: seq<nat>, cells0: seq<Cell>, k0: nat) returns (cells: seq<Cell>, k: nat)
    requires b.ValidLabels() && |slots| == |cells0| && Slotted(b, slots) && k0 < |cells0|
    requires SortedBut(b, slots, cells0, k0)
    ensures Reordered(b, slots, cells, cells0) && k < |cells|
    ensures SortedBut(b, slots, cells, k) && AboveEarlier(b, slots, cells, k)
  {
    cells, k := cells0, k0;
    while k > 0 && SameLabel(b, slots, k - 1, k) && cells[k - 1] > cells[k]
      invariant k <= k0 && Reordered(b, slots, cells, cells0)
      invariant SortedBut(b, slots, cells, k)
    {
      SwapKeepsPairs(b, slots, cells, k - 1, k);
      SwapLeft(b, slots, cells, k);
      cells := Swap(cells, k - 1, k);
      k := k - 1;
    }
    LeftStop(b, slots, cells, k);
  }

  /** Sorts one misplaced cell back among those of its label, shifting the cells between over by
      one. */
  method Settle(b: Board, slots: seq<nat>, cells0: seq<Cell>, k0: nat) returns (cells: seq<Cell>)
    requires b.ValidLabels() && |slots| == |cells0| && Slotted(b, slots) && k0 < |cells0|
    requires SortedBut(b, slots, cells0, k0)
    ensures Reordered(b, slots, cells, cells0) && Canonical(b, slots, cells)
  {
    var k;
    cells, k := SettleLeft(b, slots, cells0, k0);
    while k + 1 < |cells| && SameLabel(b, slots, k, k + 1) && cells[k + 1] < cells[k]
      invariant k < |cells| && Reordered(b, slots, cells, cells0)
      invariant SortedBut(b, slots, cells, k) && AboveEarlier(b, slots, cells, k)
    {
      SwapKeepsPairs(b, slots, cells, k, k + 1);
      SwapRight(b, slots, cells, k);
      cells := Swap(cells, k, k + 1);
      k := k + 1;
    }
    RightStop(b, slots, cells, k);
  }

  lemma SwapLeft(b: Board, slots: seq<nat>, cells: seq<Cell>, k: nat)
    requires b.ValidLabels() && |slots| == |cells| && Slotted(b, slots) && 0 < k < |cells|
    requires SortedBut(b, slots, cells, k) && SameLabel(b, slots, k - 1, k) && cells[k - 1] > cells[k]
    ensures SortedBut(b, slots, Swap(cells, k - 1, k), k - 1)
  {
    var r := Swap(cells, k - 1, k);
    forall i: nat, j: nat | i < j < |r| && i != k - 1 && j != k - 1 && SameLabel(b, slots, i, j)
      ensures r[i] <= r[j]
    {
      if j == k { assert cells[i] <= cells[k - 1]; }
      else if i == k { assert cells[k - 1] <= cells[j]; }
    }
  }

  lemma LeftStop(b: Board, slots: seq<nat>, cells: seq<Cell>, k: nat)
    requires b.ValidLabels() && |slots| == |cells| && Slotted(b, slots) && k < |cells|
    requires SortedBut(b, slots, cells, k)
    requires k == 0 || !SameLabel(b, slots, k - 1, k) || cells[k - 1] <= cells[k]
    ensures AboveEarlier(b, slots, cells, k)
  {
    forall i: nat | i < k && SameLabel(b, slots, i, k)
      ensures cells[i] <= cells[k]
    {
      RunsAreContiguous(b, slots, i, k - 1, k);
      if i < k - 1 { assert cells[i] <= cells[k - 1]; }
    }
  }

  lemma SwapRight(b: Board, slots: seq<nat>, cells: seq<Cell>, k: nat)
    requires b.ValidLabels() && |slots| == |cells| && Slotted(b, slots) && k + 1 < |cells|
    requires SortedBut(b, slots, cells, k) && SameLabel(b, slots, k, k + 1) && cells[k + 1] < cells[k]
    ensures SortedBut(b, slots, Swap(cells, k, k + 1), k + 1) && AboveEarlier(b, slots, Swap(cells, k, k + 1), k + 1)
  {
    var r := Swap(cells, k, k + 1);
    forall i: nat | i < k + 1 && SameLabel(b, slots, i, k + 1)
      ensures r[i] <= r[k + 1]
    {
      if i < k { assert cells[i] <= cells[k + 1]; }
    }
    forall i: nat, j: nat | i < j < |r| && i != k + 1 && j != k + 1 && SameLabel(b, slots, i, j)
      ensures r[i] <= r[j]
    {
      if j == k { assert cells[i] <= cells[k + 1]; }
      else if i == k { assert cells[k + 1] <= cells[j]; }
    }
  }

  lemma RightStop(b: Board, slots: seq<nat>, cells: seq<Cell>, k: nat)
    requires b.ValidLabels() && |slots| == |cells| && Slotted(b, slots) && k < |cells|
    requires SortedBut(b, slots, cells, k) && AboveEarlier(b, slots, cells, k)
    requires k + 1 >= |cells| || !SameLabel(b, slots, k, k + 1) || cells[k] <= cells[k + 1]
    ensures Canonical(b, slots, cells)
  {
    forall i: nat, j: nat | i < j < |cells| && SameLabel(b, slots, i, j)
      ensures cells[i] <= cells[j]
    {
      if i == k {
        RunsAreContiguous(b, slots, k, k + 1, j);
        if k + 1 < j { assert cells[k + 1] <= cells[j]; }
      }
    }
  }

  /** One list puts the same boxes in canonical order. */
  lemma CanonicalIsUnique(b: Board, slots: seq<nat>, x: seq<Cell>, y: seq<Cell>)
    requires |slots| == |x| == |y| && Slotted(b, slots) && Canonical(b, slots, x) && Canonical(b, slots, y)
    requires EntryPairs(b, slots, x) == EntryPairs(b, slots, y)
    requires forall i, j | 0 <= i < j < |x| :: x[i] != x[j] && y[i] != y[j]
    ensures x == y
  {
    CanonicalAgree(b, slots, x, y, |x|);
  }

  lemma {:induction false} CanonicalAgree(b: Board, slots: seq<nat>, x: seq<Cell>, y: seq<Cell>, n: nat)
    requires |slots| == |x| == |y| && Slotted(b, slots) && Canonical(b, slots, x) && Canonical(b, slots, y)
    requires EntryPairs(b, slots, x) == EntryPairs(b, slots, y)
    requires forall i, j | 0 <= i < j < |x| :: x[i] != x[j] && y[i] != y[j]
    requires n <= |x|
    ensures forall i | 0 <= i < n :: x[i] == y[i]
    decreases n
  {
    if n > 0 {
      CanonicalAgree(b, slots, x, y, n - 1);
      NoneBelow(b, slots, x, y, n - 1);
      NoneBelow(b, slots, y, x, n - 1);
    }
  }

  lemma NoneBelow(b: Board, slots: seq<nat>, x: seq<Cell>, y: seq<Cell>, i: nat)
    requires |slots| == |x| == |y| && Slotted(b, slots) && Canonical(b, slots, y)
    requires EntryPairs(b, slots, x) == EntryPairs(b, slots, y)
    requires forall j, k | 0 <= j < k < |x| :: x[j] != x[k]
    requires i < |x| && forall j | 0 <= j < i :: x[j] == y[j]
    ensures y[i] <= x[i]
  {
    var p := (b.labels[slots[i]], x[i]);
    assert p in EntryPairs(b, slots, x);
    PairAt(b, slots, y, p);
    var k: nat :| k < |y| && (b.labels[slots[k]], y[k]) == p;
    if k > i { assert SameLabel(b, slots, i, k); }
  }

  // ---------------------------------------------------------------- the projection

  /** The members of a state, as placed labels. */
  ghost function MemberPairs(b: Board, slots: seq<nat>, s: State): set<Placed>
    requires |s.boxes| == |b.labels| && Slotted(b, slots)
  {
    set k | 0 <= k < |slots| :: (b.labels[slots[k]], s.boxes[slots[k]])
  }

  ghost predicate ValidEntry(b: Board, slots: seq<nat>, e: Entry) {
    && |e.cells| == |slots| && e.at < |b.tiles| && b.Floor(e.at) && e.at !in e.cells
    && (forall k | 0 <= k < |e.cells| :: b.Floor(e.cells[k]))
    && (forall i, j | 0 <= i < j < |e.cells| :: e.cells[i] != e.cells[j])
  }

  /** The entry stands for the state's members, its keeper in the same members-only region. */
  ghost predicate Tracks(b: Board, slots: seq<nat>, e: Entry, s: State)
    requires |s.boxes| == |b.labels| && Slotted(b, slots)
  {
    && ValidEntry(b, slots, e)
    && EntryPairs(b, slots, e.cells) == MemberPairs(b, slots, s)
    && Connected(b, CellSet(e.cells), e.at, s.player)
  }

  /** Pushing member `j` in direction `d` is open to the entry's keeper. */
  ghost predicate CanPush(b: Board, e: Entry, j: nat, d: nat) {
    && j < |e.cells| && d < 4
    && b.Next(e.cells[j], d) != NONE && b.Next(e.cells[j], Opposite(d)) != NONE
    && b.Next(e.cells[j], d) !in e.cells
    && Connected(b, CellSet(e.cells), e.at, b.Next(e.cells[j], Opposite(d)))
  }

  /** The members after the push, before they are put in order. */
  ghost function Pushed(b: Board, slots: seq<nat>, e: Entry, j: nat, to: Cell): set<Placed>
    requires |e.cells| == |slots| && Slotted(b, slots) && j < |slots|
  {
    EntryPairs(b, slots, e.cells[j := to])
  }

  /** The search may drop a push: it strands the member or freezes one off its goal. */
  ghost predicate Hopeless(b: Board, h: Heuristic, slots: seq<nat>, e: Entry, j: nat, to: Cell)
    requires |e.cells| == |slots| && Slotted(b, slots) && j < |slots|
  {
    || h.Dead(b.labels[slots[j]], to)
    || exists p :: p in Greatest(b, h, Pushed(b, slots, e, j, to)) && OffGoal(b, p)
  }

  /** `q` is the entry a push of `e` leads to. */
  ghost predicate Follows(b: Board, slots: seq<nat>, e: Entry, j: nat, to: Cell, q: Entry)
    requires |e.cells| == |slots| && Slotted(b, slots) && j < |slots|
  {
    && ValidEntry(b, slots, q)
    && EntryPairs(b, slots, q.cells) == Pushed(b, slots, e, j, to)
    && Connected(b, CellSet(q.cells), q.at, e.cells[j])
  }

  /** One push of an expanded entry has been dealt with. */
  ghost predicate Handled(b: Board, h: Heuristic, slots: seq<nat>, fifo: seq<Entry>, e: Entry, j: nat, d: nat)
    requires |e.cells| == |slots| && Slotted(b, slots) && j < |slots|
  {
    CanPush(b, e, j, d) ==>
      || Hopeless(b, h, slots, e, j, b.Next(e.cells[j], d))
      || exists q :: q in fifo && Follows(b, slots, e, j, b.Next(e.cells[j], d), q)
  }

  predicate Settled(b: Board, slots: seq<nat>, e: Entry)
    requires |e.cells| == |slots|
  {
    forall k | 0 <= k < |slots| :: b.OnGoal(slots[k], e.cells[k])
  }

  /** Settled is every member home, whichever slot has which cell of its label. */
  lemma SettledIsHome(b: Board, slots: seq<nat>, e: Entry)
    requires Slotted(b, slots) && |e.cells| == |slots| && forall k | 0 <= k < |e.cells| :: e.cells[k] < |b.tiles|
    ensures Settled(b, slots, e) <==> forall p | p in EntryPairs(b, slots, e.cells) :: !OffGoal(b, p)
  {
    if forall p | p in EntryPairs(b, slots, e.cells) :: !OffGoal(b, p) {
      forall k | 0 <= k < |slots| ensures b.OnGoal(slots[k], e.cells[k]) {
        assert (b.labels[slots[k]], e.cells[k]) in EntryPairs(b, slots, e.cells);
      }
    }
  }

  /** A push is open to the entry's keeper exactly when the rules allow it with the members alone
      on the board, from a cell the keeper walks to. */
  lemma CanPushIsStep(b: Board, e: Entry, j: nat, d: nat)
    requires b.ValidTable() && e.at < |b.tiles| && e.at !in e.cells
    requires forall i, k | 0 <= i < k < |e.cells| :: e.cells[i] != e.cells[k]
    ensures CanPush(b, e, j, d) <==>
            exists at: Cell {:trigger Step(b, State(at, e.cells), d)} ::
              && Connected(b, CellSet(e.cells), e.at, at) && Step(b, State(at, e.cells), d).Some?
              && Step(b, State(at, e.cells), d).value.move == Push(j)
  {
    if CanPush(b, e, j, d) {
      var at := b.Next(e.cells[j], Opposite(d));
      MirrorOf(b, e.cells[j], Opposite(d));
      OppositeTwice(d);
      assert b.Next(at, d) == e.cells[j] && IndexOf(e.cells, e.cells[j]) == j;
      assert Step(b, State(at, e.cells), d).value.move == Push(j);
    }
    if exists at: Cell {:trigger Step(b, State(at, e.cells), d)} ::
         && Connected(b, CellSet(e.cells), e.at, at) && Step(b, State(at, e.cells), d).Some?
         && Step(b, State(at, e.cells), d).value.move == Push(j)
    {
      var at: Cell :| Connected(b, CellSet(e.cells), e.at, at) && Step(b, State(at, e.cells), d).Some? &&
        Step(b, State(at, e.cells), d).value.move == Push(j);
      MirrorOf(b, at, d);
      assert b.Next(e.cells[j], Opposite(d)) == at;
    }
  }

  /** A push is dropped exactly when it lands on a dead cell or puts an off-goal member where no way
      of taking members off takes it. */
  lemma HopelessMeans(b: Board, h: Heuristic, slots: seq<nat>, e: Entry, j: nat, to: Cell)
    requires Slotted(b, slots) && |e.cells| == |slots| && j < |slots|
    ensures Hopeless(b, h, slots, e, j, to) <==>
            || h.Dead(b.labels[slots[j]], to)
            || exists p: Placed :: Fast(b, h, EntryPairs(b, slots, e.cells[j := to]), p) &&
                 p.1 < |b.tiles| && b.tiles[p.1] != p.0
  {
    var all := EntryPairs(b, slots, e.cells[j := to]);
    assert all == Pushed(b, slots, e, j, to);
    forall p: Placed ensures p in Greatest(b, h, all) <==> Fast(b, h, all, p) {
      FrozenIsFast(b, h, all, p);
    }
    if exists p :: p in Greatest(b, h, all) && OffGoal(b, p) {
      var p :| p in Greatest(b, h, all) && OffGoal(b, p);
      assert Fast(b, h, all, p);
    }
    if exists p: Placed :: Fast(b, h, all, p) && p.1 < |b.tiles| && b.tiles[p.1] != p.0 {
      var p: Placed :| Fast(b, h, all, p) && p.1 < |b.tiles| && b.tiles[p.1] != p.0;
      assert p in Greatest(b, h, all) && OffGoal(b, p);
    }
  }

  /** The entry is not settled and every push of it has been dealt with. */
  ghost predicate ExpandedEntry(b: Board, h: Heuristic, slots: seq<nat>, fifo: seq<Entry>, e: Entry)
    requires Slotted(b, slots)
  {
    && ValidEntry(b, slots, e) && !Settled(b, slots, e)
    && forall j: nat, d: nat | j < |slots| && d < 4 :: Handled(b, h, slots, fifo, e, j, d)
  }

  /** Every queued entry's key belongs to an expanded entry: nothing is left to explore. */
  ghost predicate Exhausted(b: Board, h: Heuristic, slots: seq<nat>, fifo: seq<Entry>)
    requires Slotted(b, slots)
  {
    forall e {:trigger HasTwin(b, h, slots, fifo, e)} :: e in fifo ==> HasTwin(b, h, slots, fifo, e)
  }

  /** Some expanded entry has the key of `e`. */
  ghost predicate HasTwin(b: Board, h: Heuristic, slots: seq<nat>, fifo: seq<Entry>, e: Entry)
    requires Slotted(b, slots)
  {
    exists x :: x in fifo && x.cells == e.cells && x.at == e.at && ExpandedEntry(b, h, slots, fifo, x)
  }

  lemma PairAt(b: Board, slots: seq<nat>, cells: seq<Cell>, p: Placed)
    requires |slots| == |cells| && Slotted(b, slots) && p in EntryPairs(b, slots, cells)
    ensures exists k: nat :: k < |cells| && (b.labels[slots[k]], cells[k]) == p
  {
    var k :| 0 <= k < |cells| && (b.labels[slots[k]], cells[k]) == p;
  }

  /** The entry's cells are boxes of members. */
  lemma TrackedCellsAreBoxes(b: Board, slots: seq<nat>, e: Entry, s: State)
    requires ValidState(b, s) && Slotted(b, slots) && Tracks(b, slots, e, s)
    ensures forall c: Cell | c in e.cells :: c in s.boxes
    ensures forall i: nat | i < |s.boxes| && i !in slots :: s.boxes[i] !in e.cells
  {
    forall c: Cell | c in e.cells
      ensures exists k: nat :: k < |slots| && s.boxes[slots[k]] == c
    {
      var i :| 0 <= i < |e.cells| && e.cells[i] == c;
      assert (b.labels[slots[i]], c) in EntryPairs(b, slots, e.cells);
      var k :| 0 <= k < |slots| && (b.labels[slots[k]], s.boxes[slots[k]]) == (b.labels[slots[i]], c);
    }
    forall i: nat | i < |s.boxes| && s.boxes[i] in e.cells
      ensures i in slots
    {
      var k: nat :| k < |slots| && s.boxes[slots[k]] == s.boxes[i];
      assert slots[k] == i;
    }
  }

  /** A walk, or a push of a box that is no member, is a walk in the members-only world. */
  lemma TrackWalk(b: Board, slots: seq<nat>, e: Entry, s: State, d: nat)
    requires b.Valid() && ValidState(b, s) && Slotted(b, slots) && Tracks(b, slots, e, s)
    requires Step(b, s, d).Some?
    requires Step(b, s, d).value.move.Push? ==> Step(b, s, d).value.move.slot !in slots
    ensures Tracks(b, slots, e, Step(b, s, d).value.state)
  {
    StepKeepsState(b, s, d);
    var t := Step(b, s, d).value;
    TrackedCellsAreBoxes(b, slots, e, s);
    ConnectedStep(b, CellSet(e.cells), e.at, s.player, d);
    MembersUnmoved(b, slots, s, t.state);
  }

  lemma MembersUnmoved(b: Board, slots: seq<nat>, s: State, t: State)
    requires |s.boxes| == |b.labels| == |t.boxes| && Slotted(b, slots)
    requires forall i: nat | i < |s.boxes| && i in slots :: t.boxes[i] == s.boxes[i]
    ensures MemberPairs(b, slots, t) == MemberPairs(b, slots, s)
  {
    assert forall k | 0 <= k < |slots| :: slots[k] in slots && t.boxes[slots[k]] == s.boxes[slots[k]];
  }

  /** Replacing one entry cell replaces one pair. */
  lemma PushedPairs(b: Board, slots: seq<nat>, cells: seq<Cell>, j: nat, to: Cell)
    requires |slots| == |cells| && Slotted(b, slots) && j < |cells|
    requires forall i, k | 0 <= i < k < |cells| :: cells[i] != cells[k]
    ensures EntryPairs(b, slots, cells[j := to]) ==
            EntryPairs(b, slots, cells) - {(b.labels[slots[j]], cells[j])} + {(b.labels[slots[j]], to)}
  {
    var next := cells[j := to];
    forall p | p in EntryPairs(b, slots, cells) - {(b.labels[slots[j]], cells[j])}
      ensures p in EntryPairs(b, slots, next)
    {
      var k :| 0 <= k < |cells| && (b.labels[slots[k]], cells[k]) == p;
      assert (b.labels[slots[k]], next[k]) == p;
    }
    assert (b.labels[slots[j]], next[j]) in EntryPairs(b, slots, next);
  }

  /** Pushing member slot `slots[k]` replaces its pair. */
  lemma MemberPushed(b: Board, slots: seq<nat>, s: State, t: State, k: nat, to: Cell)
    requires ValidState(b, s) && Slotted(b, slots) && k < |slots|
    requires t.boxes == s.boxes[slots[k] := to]
    ensures MemberPairs(b, slots, t) ==
            MemberPairs(b, slots, s) - {(b.labels[slots[k]], s.boxes[slots[k]])} + {(b.labels[slots[k]], to)}
  {
    var boxes := seq(|slots|, i requires 0 <= i < |slots| && slots[i] < |s.boxes| => s.boxes[slots[i]]);
    var after := seq(|slots|, i requires 0 <= i < |slots| && slots[i] < |t.boxes| => t.boxes[slots[i]]);
    assert MemberPairs(b, slots, s) == EntryPairs(b, slots, boxes);
    assert MemberPairs(b, slots, t) == EntryPairs(b, slots, after);
    forall x, y | 0 <= x < y < |boxes| ensures boxes[x] != boxes[y] {
      assert s.boxes[slots[x]] != s.boxes[slots[y]];
    }
    PushedPairs(b, slots, boxes, k, to);
    assert after == boxes[k := to];
  }

  /** A push of a member is a push of the entry, of the box of that label on that cell. */
  lemma TrackPush(b: Board, slots: seq<nat>, e: Entry, s: State, d: nat) returns (j: nat)
    requires b.Valid() && ValidState(b, s) && Slotted(b, slots) && Tracks(b, slots, e, s)
    requires Step(b, s, d).Some? && Step(b, s, d).value.move.Push? && Step(b, s, d).value.move.slot in slots
    ensures var t := Step(b, s, d).value;
            && ValidState(b, t.state) && t.move.slot < |b.labels|
            && j < |slots| && CanPush(b, e, j, d) && e.cells[j] == t.state.player
            && b.labels[slots[j]] == b.labels[t.move.slot]
            && t.state.boxes[t.move.slot] == b.Next(e.cells[j], d)
            && Pushed(b, slots, e, j, b.Next(e.cells[j], d)) == MemberPairs(b, slots, t.state)
  {
    StepKeepsState(b, s, d);
    MirrorOf(b, s.player, d);
    var t := Step(b, s, d).value;
    var to := b.Next(t.state.player, d);
    var k :| 0 <= k < |slots| && slots[k] == t.move.slot;
    var p := (b.labels[slots[k]], s.boxes[slots[k]]);
    assert p in MemberPairs(b, slots, s);
    PairAt(b, slots, e.cells, p);
    j :| j < |e.cells| && (b.labels[slots[j]], e.cells[j]) == p;
    TrackedCellsAreBoxes(b, slots, e, s);
    MemberPushed(b, slots, s, t.state, k, to);
    PushedPairs(b, slots, e.cells, j, to);
  }

  lemma MembersAreBoxes(b: Board, slots: seq<nat>, s: State)
    requires |s.boxes| == |b.labels| && Slotted(b, slots)
    ensures MemberPairs(b, slots, s) <= Pairs(b, s)
  {
  }

  /** A push the search drops leaves no solution of the whole puzzle. */
  lemma HopelessPushIsDead(b: Board, h: Heuristic, slots: seq<nat>, e: Entry, s: State, d: nat, j: nat)
    requires b.Valid() && Exact(b, h) && ValidState(b, s) && Slotted(b, slots) && Tracks(b, slots, e, s)
    requires Step(b, s, d).Some? && ValidState(b, Step(b, s, d).value.state)
    requires Step(b, s, d).value.move.Push? && Step(b, s, d).value.move.slot < |b.labels|
    requires j < |slots| && Hopeless(b, h, slots, e, j, b.Next(e.cells[j], d))
    requires Pushed(b, slots, e, j, b.Next(e.cells[j], d)) == MemberPairs(b, slots, Step(b, s, d).value.state)
    requires b.labels[slots[j]] == b.labels[Step(b, s, d).value.move.slot]
    requires Step(b, s, d).value.state.boxes[Step(b, s, d).value.move.slot] == b.Next(e.cells[j], d)
    ensures !Solvable(b, Step(b, s, d).value.state)
  {
    var t := Step(b, s, d).value;
    var to := b.Next(e.cells[j], d);
    MembersAreBoxes(b, slots, t.state);
    if h.Dead(b.labels[slots[j]], to) {
      assert h.Dead(b.labels[t.move.slot], t.state.boxes[t.move.slot]);
      StrandedIsDead(b, h, t.state);
    } else {
      var all := Pushed(b, slots, e, j, to);
      var p :| p in Greatest(b, h, all) && OffGoal(b, p);
      FrozenOffGoalIsDead(b, h, all, p, t.state);
    }
  }

  /** A tracked state is not solved while no entry of its key is settled. */
  lemma TrackedIsUnsolved(b: Board, slots: seq<nat>, e: Entry, s: State)
    requires ValidState(b, s) && Slotted(b, slots) && Tracks(b, slots, e, s) && !Settled(b, slots, e)
    ensures !Solved(b, s)
  {
    var k :| 0 <= k < |slots| && !b.OnGoal(slots[k], e.cells[k]);
    var p := (b.labels[slots[k]], e.cells[k]);
    assert p in EntryPairs(b, slots, e.cells);
    MembersAreBoxes(b, slots, s);
    if Solved(b, s) { SolvedPairOnGoal(b, s, p); }
  }

  /** One step of the whole puzzle from a tracked state: it leaves no solution, or an entry
      tracks where it leads. */
  lemma TrackStep(b: Board, h: Heuristic, slots: seq<nat>, fifo: seq<Entry>, x: Entry, s: State, d: nat)
    returns (q: Entry)
    requires b.Valid() && Exact(b, h) && ValidState(b, s) && Slotted(b, slots)
    requires x in fifo && Tracks(b, slots, x, s) && ExpandedEntry(b, h, slots, fifo, x)
    requires Step(b, s, d).Some? && d < 4
    ensures ValidState(b, Step(b, s, d).value.state)
    ensures Solvable(b, Step(b, s, d).value.state) ==> q in fifo && Tracks(b, slots, q, Step(b, s, d).value.state)
  {
    var t := Step(b, s, d).value;
    StepKeepsState(b, s, d);
    q := x;
    if t.move.Push? && t.move.slot in slots {
      var j := TrackPush(b, slots, x, s, d);
      assert Handled(b, h, slots, fifo, x, j, d);
      var to := b.Next(x.cells[j], d);
      if Hopeless(b, h, slots, x, j, to) {
        HopelessPushIsDead(b, h, slots, x, s, d, j);
      } else {
        q :| q in fifo && Follows(b, slots, x, j, to, q);
      }
    } else {
      TrackWalk(b, slots, x, s, d);
    }
  }

  /** An exhausted search tracks every run: no run from a tracked state is solved. */
  lemma {:induction false} ExhaustedNeverSolves(b: Board, h: Heuristic, slots: seq<nat>, fifo: seq<Entry>, e: Entry,
                                                s: State, moves: seq<nat>)
    requires b.Valid() && Exact(b, h) && ValidState(b, s) && Slotted(b, slots) && Exhausted(b, h, slots, fifo)
    requires e in fifo && Tracks(b, slots, e, s)
    ensures !Solution(b, s, moves)
    decreases |moves|
  {
    var x := ExpandedTwin(b, h, slots, fifo, e, s);
    if moves == [] {
      TrackedIsUnsolved(b, slots, x, s);
    } else if Step(b, s, moves[0]).Some? {
      var t := Step(b, s, moves[0]).value.state;
      var q := TrackStep(b, h, slots, fifo, x, s, moves[0]);
      if Solvable(b, t) {
        ExhaustedNeverSolves(b, h, slots, fifo, q, t, moves[1..]);
      } else {
        assert !Solution(b, t, moves[1..]);
      }
    }
  }

  /** The expanded entry of a queued entry's key tracks the same states. */
  lemma ExpandedTwin(b: Board, h: Heuristic, slots: seq<nat>, fifo: seq<Entry>, e: Entry, s: State) returns (x: Entry)
    requires |s.boxes| == |b.labels| && Slotted(b, slots) && Exhausted(b, h, slots, fifo) && e in fifo
    requires Tracks(b, slots, e, s)
    ensures x in fifo && ExpandedEntry(b, h, slots, fifo, x) && Tracks(b, slots, x, s) && !Settled(b, slots, x)
  {
    assert HasTwin(b, h, slots, fifo, e);
    x :| x in fifo && x.cells == e.cells && x.at == e.at && ExpandedEntry(b, h, slots, fifo, x);
  }

  /** Pocket soundness: a search that ran out without settling its members, started from the
      state's own, leaves no solution of the whole puzzle. */
  lemma ExhaustedIsDead(b: Board, h: Heuristic, slots: seq<nat>, fifo: seq<Entry>, e: Entry, s: State)
    requires b.Valid() && Exact(b, h) && ValidState(b, s) && Slotted(b, slots) && Exhausted(b, h, slots, fifo)
    requires e in fifo && Tracks(b, slots, e, s)
    ensures !Solvable(b, s)
  {
    forall moves ensures !Solution(b, s, moves) {
      ExhaustedNeverSolves(b, h, slots, fifo, e, s, moves);
    }
  }
}
