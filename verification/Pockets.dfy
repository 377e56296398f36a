/** The pocket search itself: its FIFO, its seen table and the unit-by-unit check. */
module Pockets {
  import opened Rules
  import opened Bfs
  import opened Reach
  import opened DeadCells
  import opened Freeze
  import opened Deadlocks
  import opened Corrals
  import opened PocketTheory
  import opened PocketKeys
  import opened Probing

  /** A pocket with more boxes about it is taken for alive. */
  const POCKET_BOXES: nat := 8
  /** A pocket whose search would queue more than this is taken for alive. */
  const POCKET_NODES: nat := 512
  /** Slots of the table of keys, which stays half empty. */
  const TABLE: nat := 1024

  // ---------------------------------------------------------------- queueing one push

  ghost predicate DistinctCells(cells: seq<Cell>) {
    forall i, j | 0 <= i < j < |cells| :: cells[i] != cells[j]
  }

  lemma {:induction false} DistinctCounts(cells: seq<Cell>, c: Cell)
    requires DistinctCells(cells)
    ensures multiset(cells)[c] <= 1
    decreases |cells|
  {
    if cells != [] {
      var init, last := cells[..|cells| - 1], cells[|cells| - 1];
      assert cells == init + [last];
      DistinctCounts(init, c);
      assert last !in init;
    }
  }

  lemma ReorderedDistinct(cells: seq<Cell>, cells0: seq<Cell>)
    requires DistinctCells(cells0) && multiset(cells) == multiset(cells0)
    ensures DistinctCells(cells)
  {
    forall i, j | 0 <= i < j < |cells|
      ensures cells[i] != cells[j]
    {
      DistinctCounts(cells0, cells[i]);
      assert cells == cells[..j] + cells[j..];
      assert cells[i] in cells[..j] && cells[j] in cells[j..];
      assert multiset(cells)[cells[i]] == multiset(cells[..j])[cells[i]] + multiset(cells[j..])[cells[i]];
    }
  }

  lemma ReorderedMembers(cells: seq<Cell>, cells0: seq<Cell>, c: Cell)
    requires multiset(cells) == multiset(cells0)
    ensures c in cells <==> c in cells0
  {
    assert c in cells <==> c in multiset(cells);
    assert c in cells0 <==> c in multiset(cells0);
  }

  /** The entry a push leads to is valid, canonical and follows it. */
  lemma PushedEntry(b: Board, slots: seq<nat>, x: Entry, j: nat, to: Cell, next: seq<Cell>)
    requires b.Valid() && GoodEntry(b, slots, x) && j < |slots| && b.Floor(to) && to !in x.cells
    requires Reordered(b, slots, next, x.cells[j := to]) && Canonical(b, slots, next)
    ensures GoodEntry(b, slots, Entry(next, x.cells[j], None))
    ensures Follows(b, slots, x, j, to, Entry(next, x.cells[j], None))
  {
    var moved := x.cells[j := to];
    ReorderedDistinct(next, moved);
    forall c: Cell ensures c in next <==> c in moved { ReorderedMembers(next, moved, c); }
    forall k | 0 <= k < |next| ensures b.Floor(next[k]) { assert next[k] in moved; }
    ConnectedSelf(b, CellSet(next), x.cells[j]);
    assert x.cells[j] !in moved;
  }

  /** The list the freeze check reads: each member's slot and its cell after the push. */
  lemma PushedListing(b: Board, slots: seq<nat>, next: seq<Cell>, pairs: seq<(nat, Cell)>)
    requires Slotted(b, slots) && |next| == |slots| == |pairs| && |b.labels| <= MAX_BOXES
    requires DistinctCells(next) && forall k | 0 <= k < |next| :: b.Floor(next[k])
    requires forall k | 0 <= k < |pairs| :: pairs[k] == (slots[k], next[k])
    ensures forall m | m in pairs :: m.0 < |b.labels| && m.0 < MAX_BOXES && b.Floor(m.1)
    ensures forall i, j | 0 <= i < j < |pairs| :: pairs[i].0 != pairs[j].0 && pairs[i].1 != pairs[j].1
    ensures PlacedOf(b, pairs) == EntryPairs(b, slots, next)
  {
    forall p | p in EntryPairs(b, slots, next) ensures p in PlacedOf(b, pairs) {
      var k :| 0 <= k < |next| && p == (b.labels[slots[k]], next[k]);
      assert pairs[k] in pairs;
    }
  }

  /** Settles the moved member and asks whether the push freezes one off its goal. */
  method PushMember(b: Board, h: Heuristic, slots: seq<nat>, x: Entry, j: nat, to: Cell)
    returns (frozen: bool, q: Entry)
    requires b.Valid() && GoodEntry(b, slots, x) && j < |slots| && b.Floor(to) && to !in x.cells
    ensures frozen <==> exists p :: p in Greatest(b, h, Pushed(b, slots, x, j, to)) && OffGoal(b, p)
    ensures GoodEntry(b, slots, q) && q.slot.None? && q.at == x.cells[j] && Follows(b, slots, x, j, to, q)
  {
    assert SortedBut(b, slots, x.cells[j := to], j);
    var next := Settle(b, slots, x.cells[j := to], j);
    PushedEntry(b, slots, x, j, to, next);
    q := Entry(next, x.cells[j], None);
    var pairs := seq(|slots|, k requires 0 <= k < |slots| && |next| == |slots| => (slots[k], next[k]));
    PushedListing(b, slots, next, pairs);
    frozen := FrozenOffGoal(b, h, pairs);
  }

  /** The region of an expanded entry, as its flood found it. */
  ghost predicate RegionOf(b: Board, x: Entry, reach: Flood) {
    forall c: Cell :: reach.Reached(c) <==> Connected(b, CellSet(x.cells), x.at, c)
  }

  ghost predicate GoodFifo(b: Board, slots: seq<nat>, fifo: seq<Entry>) {
    |fifo| <= POCKET_NODES && forall i {:trigger GoodEntry(b, slots, fifo[i])} | 0 <= i < |fifo| ::
      GoodEntry(b, slots, fifo[i])
  }

  lemma HandledStays(b: Board, h: Heuristic, slots: seq<nat>, fifo: seq<Entry>, grown: seq<Entry>, x: Entry, j: nat,
                     d: nat)
    requires |x.cells| == |slots| && Slotted(b, slots) && j < |slots| && fifo <= grown
    requires Handled(b, h, slots, fifo, x, j, d)
    ensures Handled(b, h, slots, grown, x, j, d)
  {
    if CanPush(b, x, j, d) && !Hopeless(b, h, slots, x, j, b.Next(x.cells[j], d)) {
      var q :| q in fifo && Follows(b, slots, x, j, b.Next(x.cells[j], d), q);
      assert q in grown;
    }
  }

  /** Queues the push of member `j` in direction `d` when it is admitted; `full` when the FIFO
      cannot take it. */
  method QueuePush(b: Board, h: Heuristic, slots: seq<nat>, fifo0: seq<Entry>, x: Entry, reach: Flood, j: nat, d: nat)
    returns (fifo: seq<Entry>, full: bool)
    requires b.Valid() && GoodEntry(b, slots, x) && RegionOf(b, x, reach) && j < |slots| && d < 4
    requires GoodFifo(b, slots, fifo0)
    ensures GoodFifo(b, slots, fifo)
    ensures full <==> Admits(b, h, slots, Nudge(KeyOf(x), j, d)) && |fifo0| == POCKET_NODES
    ensures full || !Admits(b, h, slots, Nudge(KeyOf(x), j, d)) ==> fifo == fifo0
    ensures !full && Admits(b, h, slots, Nudge(KeyOf(x), j, d)) ==>
              exists q :: fifo == fifo0 + [q] && Leads(b, slots, Nudge(KeyOf(x), j, d), q) && GoodEntry(b, slots, q) &&
                q.slot.None?
  {
    fifo, full := fifo0, false;
    var to, stand := b.Next(x.cells[j], d), b.Next(x.cells[j], Opposite(d));
    ghost var n := Nudge(KeyOf(x), j, d);
    AdmitsOf(b, h, slots, x, j, d);
    if to == NONE || stand == NONE || !reach.Reached(stand) || to in x.cells || h.Dead(b.labels[slots[j]], to) {
      return;
    }
    var frozen, q := PushMember(b, h, slots, x, j, to);
    if frozen { return; }
    if |fifo| == POCKET_NODES {
      full := true;
      return;
    }
    fifo := fifo + [q];
    assert Leads(b, slots, n, q);
  }

  /** An entry admits what its key does. */
  lemma AdmitsOf(b: Board, h: Heuristic, slots: seq<nat>, x: Entry, j: nat, d: nat)
    requires GoodEntry(b, slots, x) && j < |slots|
    ensures Admits(b, h, slots, Nudge(KeyOf(x), j, d)) <==>
              CanPush(b, x, j, d) && !h.Dead(b.labels[slots[j]], b.Next(x.cells[j], d))
              && !(exists p :: p in Greatest(b, h, Pushed(b, slots, x, j, b.Next(x.cells[j], d))) && OffGoal(b, p))
  {
  }

  /** One push more has been looked at. */
  lemma QueuedNext(b: Board, h: Heuristic, slots: seq<nat>, x: Entry, fifo0: seq<Entry>, fifo: seq<Entry>,
                   edges: seq<Nudge>, j: nat, d: nat, after: seq<Entry>)
    returns (grown: seq<Nudge>)
    requires Queued(b, h, slots, x, fifo0, fifo, edges, j, d)
    requires var n := Nudge(KeyOf(x), j, d);
             if Admits(b, h, slots, n)
             then exists q :: after == fifo + [q] && Leads(b, slots, n, q) && GoodEntry(b, slots, q) && q.slot.None?
             else after == fifo
    ensures Queued(b, h, slots, x, fifo0, after, grown, j, d + 1)
  {
    var n := Nudge(KeyOf(x), j, d);
    grown := edges;
    if Admits(b, h, slots, n) {
      grown := edges + [n];
      forall i: nat, k: nat | i < k < |grown| ensures Apart(grown, i, k) {
        if k < |edges| { assert Apart(edges, i, k); }
      }
    }
    forall m: Nudge | m.key == KeyOf(x) && Admits(b, h, slots, m) && Sooner(m.j, m.d, j, d + 1) ensures m in grown {
      if !Sooner(m.j, m.d, j, d) { assert m == n; }
    }
  }

  /** All four directions of a member have been looked at. */
  lemma QueuedMember(b: Board, h: Heuristic, slots: seq<nat>, x: Entry, fifo0: seq<Entry>, fifo: seq<Entry>,
                     edges: seq<Nudge>, j: nat)
    requires Queued(b, h, slots, x, fifo0, fifo, edges, j, 4)
    ensures Queued(b, h, slots, x, fifo0, fifo, edges, j + 1, 0)
  {
  }

  /** Every push queued is every push dealt with. */
  lemma QueuedExpands(b: Board, h: Heuristic, slots: seq<nat>, x: Entry, fifo0: seq<Entry>, fifo: seq<Entry>,
                      edges: seq<Nudge>)
    requires GoodEntry(b, slots, x) && !Settled(b, slots, x) && Queued(b, h, slots, x, fifo0, fifo, edges, |slots|, 0)
    ensures ExpandedEntry(b, h, slots, fifo, x)
  {
    forall j: nat, d: nat | j < |slots| && d < 4 ensures Handled(b, h, slots, fifo, x, j, d) {
      var n := Nudge(KeyOf(x), j, d);
      if Admits(b, h, slots, n) {
        var i :| 0 <= i < |edges| && edges[i] == n;
        assert fifo[|fifo0| + i] in fifo;
        assert edges[|fifo0| + i - |fifo0|] == n;
      }
    }
  }

  /** Queues every push of an entry that is admitted; stops with `full` on the first the FIFO
      cannot take. */
  method QueuePushes(b: Board, h: Heuristic, slots: seq<nat>, fifo0: seq<Entry>, x: Entry, reach: Flood)
    returns (fifo: seq<Entry>, full: bool, ghost edges: seq<Nudge>, ghost extra: Nudge)
    requires b.Valid() && GoodEntry(b, slots, x) && RegionOf(b, x, reach)
    requires GoodFifo(b, slots, fifo0)
    ensures GoodFifo(b, slots, fifo)
    ensures !full ==> Queued(b, h, slots, x, fifo0, fifo, edges, |slots|, 0)
    ensures full ==> |fifo| == POCKET_NODES && Queued(b, h, slots, x, fifo0, fifo, edges, extra.j, extra.d)
    ensures full ==> extra.key == KeyOf(x) && Admits(b, h, slots, extra)
  {
    fifo, full, edges, extra := fifo0, false, [], Nudge(KeyOf(x), 0, 0);
    for j := 0 to |slots|
      invariant GoodFifo(b, slots, fifo) && !full && Queued(b, h, slots, x, fifo0, fifo, edges, j, 0)
    {
      for d := 0 to 4
        invariant GoodFifo(b, slots, fifo) && !full && Queued(b, h, slots, x, fifo0, fifo, edges, j, d)
      {
        ghost var before := fifo;
        fifo, full := QueuePush(b, h, slots, fifo, x, reach, j, d);
        if full {
          extra := Nudge(KeyOf(x), j, d);
          return;
        }
        edges := QueuedNext(b, h, slots, x, fifo0, before, edges, j, d, fifo);
      }
      QueuedMember(b, h, slots, x, fifo0, fifo, edges, j);
    }
  }

  // ---------------------------------------------------------------- the search's state

  /** `to` has every entry of `from`, keepers perhaps moved within their region. */
  ghost predicate SameEntries(b: Board, from: seq<Entry>, to: seq<Entry>) {
    && |from| == |to|
    && forall i | 0 <= i < |from| ::
      to[i].cells == from[i].cells &&
        (to[i].at == from[i].at || Connected(b, CellSet(from[i].cells), to[i].at, from[i].at))
  }

  lemma FollowsStays(b: Board, slots: seq<nat>, x: Entry, j: nat, to: Cell, q: Entry, r: Entry)
    requires |x.cells| == |slots| && Slotted(b, slots) && j < |slots| && Follows(b, slots, x, j, to, q)
    requires r.cells == q.cells && ValidEntry(b, slots, r)
    requires r.at == q.at || Connected(b, CellSet(q.cells), r.at, q.at)
    ensures Follows(b, slots, x, j, to, r)
  {
    if r.at != q.at { ConnectedTransitive(b, CellSet(q.cells), r.at, q.at, x.cells[j]); }
  }

  /** Renaming keepers within their regions keeps an expanded entry expanded. */
  lemma ExpandedStays(b: Board, h: Heuristic, slots: seq<nat>, from: seq<Entry>, to: seq<Entry>, x: Entry)
    requires Slotted(b, slots) && ExpandedEntry(b, h, slots, from, x) && SameEntries(b, from, to)
    requires forall i {:trigger ValidEntry(b, slots, to[i])} | 0 <= i < |to| :: ValidEntry(b, slots, to[i])
    ensures ExpandedEntry(b, h, slots, to, x)
  {
    forall j: nat, d: nat | j < |slots| && d < 4
      ensures Handled(b, h, slots, to, x, j, d)
    {
      assert Handled(b, h, slots, from, x, j, d);
      if CanPush(b, x, j, d) && !Hopeless(b, h, slots, x, j, b.Next(x.cells[j], d)) {
        var q :| q in from && Follows(b, slots, x, j, b.Next(x.cells[j], d), q);
        var i :| 0 <= i < |from| && from[i] == q;
        assert ValidEntry(b, slots, to[i]);
        FollowsStays(b, slots, x, j, b.Next(x.cells[j], d), q, to[i]);
      }
    }
  }

  lemma AllExpandedStay(b: Board, h: Heuristic, slots: seq<nat>, from: seq<Entry>, to: seq<Entry>)
    requires Slotted(b, slots) && SameEntries(b, from, to)
    requires forall i {:trigger ValidEntry(b, slots, to[i])} | 0 <= i < |to| :: ValidEntry(b, slots, to[i])
    requires forall i | 0 <= i < |from| && from[i].slot.Some? :: ExpandedEntry(b, h, slots, from, from[i])
    requires forall i | 0 <= i < |to| && to[i].slot.Some? :: to[i] == from[i]
    ensures forall i | 0 <= i < |to| && to[i].slot.Some? :: ExpandedEntry(b, h, slots, to, to[i])
  {
    forall i | 0 <= i < |to| && to[i].slot.Some? ensures ExpandedEntry(b, h, slots, to, to[i]) {
      ExpandedStays(b, h, slots, from, to, from[i]);
    }
  }

  lemma ExpandedGrows(b: Board, h: Heuristic, slots: seq<nat>, from: seq<Entry>, to: seq<Entry>, x: Entry)
    requires Slotted(b, slots) && ExpandedEntry(b, h, slots, from, x) && from <= to
    ensures ExpandedEntry(b, h, slots, to, x)
  {
    forall j: nat, d: nat | j < |slots| && d < 4
      ensures Handled(b, h, slots, to, x, j, d)
    {
      assert Handled(b, h, slots, from, x, j, d);
      HandledStays(b, h, slots, from, to, x, j, d);
    }
  }

  /** Some entry whose key is in the table has the key of entry `i`. */
  ghost predicate Seen(fifo: seq<Entry>, i: nat)
    requires i < |fifo|
  {
    exists x :: 0 <= x < |fifo| && fifo[x].slot.Some? && fifo[x].cells == fifo[i].cells && fifo[x].at == fifo[i].at
  }

  /** What the search keeps while it pops: entries are valid, each popped key is in the table
      once, each entry in the table is expanded, and one entry tracks the initial state. */
  ghost predicate Searching(b: Board, h: Heuristic, slots: seq<nat>, fifo: seq<Entry>, head: nat, s0: State) {
    && Slotted(b, slots) && |s0.boxes| == |b.labels| && head <= |fifo| && GoodFifo(b, slots, fifo)
    && (forall i | head <= i < |fifo| :: fifo[i].slot.None?)
    && (forall i {:trigger Seen(fifo, i)} | 0 <= i < head :: Seen(fifo, i))
    && (forall i | 0 <= i < |fifo| && fifo[i].slot.Some? :: ExpandedEntry(b, h, slots, fifo, fifo[i]))
    && (exists i :: 0 <= i < |fifo| && Tracks(b, slots, fifo[i], s0))
  }

  /** A search whose FIFO ran out is exhausted, so its state has no solution. */
  lemma RanOutIsDead(b: Board, h: Heuristic, slots: seq<nat>, fifo: seq<Entry>, s0: State)
    requires b.Valid() && Exact(b, h) && ValidState(b, s0) && Searching(b, h, slots, fifo, |fifo|, s0)
    ensures !Solvable(b, s0)
  {
    forall e | e in fifo
      ensures HasTwin(b, h, slots, fifo, e)
    {
      var i :| 0 <= i < |fifo| && fifo[i] == e;
      assert Seen(fifo, i);
      var x :| 0 <= x < |fifo| && fifo[x].slot.Some? && fifo[x].cells == fifo[i].cells && fifo[x].at == fifo[i].at;
      assert fifo[x] in fifo;
    }
    var i :| 0 <= i < |fifo| && Tracks(b, slots, fifo[i], s0);
    ExhaustedIsDead(b, h, slots, fifo, fifo[i], s0);
  }

  lemma RegionKeepsSeen(fifo: seq<Entry>, head: nat, region: Cell, i: nat)
    requires i < head < |fifo| && Seen(fifo, i) && fifo[head].slot.None?
    ensures Seen(fifo[head := fifo[head].(at := region)], i)
  {
    var x :| 0 <= x < |fifo| && fifo[x].slot.Some? && fifo[x].cells == fifo[i].cells && fifo[x].at == fifo[i].at;
    var to := fifo[head := fifo[head].(at := region)];
    assert to[x] == fifo[x] && to[i] == fifo[i];
  }

  lemma RegionKeepsTracked(b: Board, slots: seq<nat>, fifo: seq<Entry>, head: nat, s0: State, region: Cell)
    requires Slotted(b, slots) && |s0.boxes| == |b.labels| && head < |fifo|
    requires exists i :: 0 <= i < |fifo| && Tracks(b, slots, fifo[i], s0)
    requires ValidEntry(b, slots, fifo[head].(at := region))
    requires Connected(b, CellSet(fifo[head].cells), region, fifo[head].at)
    ensures var to := fifo[head := fifo[head].(at := region)]; exists i :: 0 <= i < |to| && Tracks(b, slots, to[i], s0)
  {
    var to := fifo[head := fifo[head].(at := region)];
    var i :| 0 <= i < |fifo| && Tracks(b, slots, fifo[i], s0);
    if i == head { ConnectedTransitive(b, CellSet(fifo[head].cells), region, fifo[head].at, s0.player); }
    assert Tracks(b, slots, to[i], s0);
  }

  lemma GoodAreValid(b: Board, slots: seq<nat>, to: seq<Entry>)
    requires GoodFifo(b, slots, to)
    ensures forall i {:trigger ValidEntry(b, slots, to[i])} | 0 <= i < |to| :: ValidEntry(b, slots, to[i])
  {
    forall i | 0 <= i < |to| ensures ValidEntry(b, slots, to[i]) { assert GoodEntry(b, slots, to[i]); }
  }

  lemma RegionKeepsGood(b: Board, slots: seq<nat>, fifo: seq<Entry>, head: nat, region: Cell)
    requires b.Valid() && GoodFifo(b, slots, fifo) && head < |fifo|
    requires Connected(b, CellSet(fifo[head].cells), fifo[head].at, region)
    ensures GoodFifo(b, slots, fifo[head := fifo[head].(at := region)])
    ensures GoodEntry(b, slots, fifo[head].(at := region))
    ensures Connected(b, CellSet(fifo[head].cells), region, fifo[head].at)
    ensures forall c: Cell :: Connected(b, CellSet(fifo[head].cells), fifo[head].at, c) <==>
              Connected(b, CellSet(fifo[head].cells), region, c)
    ensures SameEntries(b, fifo, fifo[head := fifo[head].(at := region)])
  {
    var r := fifo[head].(at := region);
    assert GoodEntry(b, slots, fifo[head]);
    RegionEntry(b, slots, fifo[head], region);
    var to := fifo[head := r];
    forall i | 0 <= i < |to| ensures GoodEntry(b, slots, to[i]) {
      if i != head { assert GoodEntry(b, slots, fifo[i]); }
    }
  }

  /** Naming the next entry's region by its least cell keeps the search. */
  lemma RegionKeepsSearch(b: Board, h: Heuristic, slots: seq<nat>, fifo: seq<Entry>, head: nat, s0: State, region: Cell)
    requires b.Valid() && Searching(b, h, slots, fifo, head, s0) && head < |fifo|
    requires Connected(b, CellSet(fifo[head].cells), fifo[head].at, region)
    ensures Searching(b, h, slots, fifo[head := fifo[head].(at := region)], head, s0)
    ensures GoodEntry(b, slots, fifo[head].(at := region))
    ensures forall c: Cell :: Connected(b, CellSet(fifo[head].cells), fifo[head].at, c) <==>
              Connected(b, CellSet(fifo[head].cells), region, c)
  {
    var r := fifo[head].(at := region);
    var to := fifo[head := r];
    RegionKeepsGood(b, slots, fifo, head, region);
    GoodAreValid(b, slots, to);
    forall i | 0 <= i < head ensures Seen(to, i) {
      assert Seen(fifo, i);
      RegionKeepsSeen(fifo, head, region, i);
    }
    AllExpandedStay(b, h, slots, fifo, to);
    RegionKeepsTracked(b, slots, fifo, head, s0, region);
  }

  lemma RegionEntry(b: Board, slots: seq<nat>, e: Entry, region: Cell)
    requires b.Valid() && GoodEntry(b, slots, e) && Connected(b, CellSet(e.cells), e.at, region)
    ensures GoodEntry(b, slots, e.(at := region))
    ensures Connected(b, CellSet(e.cells), region, e.at)
    ensures forall c: Cell :: Connected(b, CellSet(e.cells), e.at, c) <==> Connected(b, CellSet(e.cells), region, c)
  {
    var walls := CellSet(e.cells);
    var dirs :| IsWalk(b, walls, e.at, dirs, region);
    WalkStaysFree(b, walls, e.at, dirs, region);
    ConnectedSymmetric(b, walls, e.at, region);
    forall c: Cell
      ensures Connected(b, walls, e.at, c) <==> Connected(b, walls, region, c)
    {
      if Connected(b, walls, e.at, c) { ConnectedTransitive(b, walls, region, e.at, c); }
      if Connected(b, walls, region, c) { ConnectedTransitive(b, walls, e.at, region, c); }
    }
  }

  /** A key popped before needs nothing more. */
  lemma DuplicateKeepsSearch(b: Board, h: Heuristic, slots: seq<nat>, fifo: seq<Entry>, head: nat, s0: State)
    requires Searching(b, h, slots, fifo, head, s0) && head < |fifo| && Seen(fifo, head)
    ensures Searching(b, h, slots, fifo, head + 1, s0)
  {
  }

  /** An entry put in the table and expanded keeps the search. */
  lemma ExpansionKeepsSearch(b: Board, h: Heuristic, slots: seq<nat>, fifo: seq<Entry>, head: nat, s0: State, slot: nat,
                             grown: seq<Entry>)
    requires Searching(b, h, slots, fifo, head, s0) && head < |fifo| && GoodFifo(b, slots, grown)
    requires var named := fifo[head := fifo[head].(slot := Some(slot))];
             named <= grown && ExpandedEntry(b, h, slots, grown, named[head])
    requires forall i | |fifo| <= i < |grown| :: grown[i].slot.None?
    ensures Searching(b, h, slots, grown, head + 1, s0)
  {
    var named := fifo[head := fifo[head].(slot := Some(slot))];
    assert forall i | 0 <= i < |fifo| :: grown[i] == named[i];
    forall i | 0 <= i < head + 1 ensures Seen(grown, i) {
      if i < head {
        assert Seen(fifo, i);
        var x :| 0 <= x < |fifo| && fifo[x].slot.Some? && fifo[x].cells == fifo[i].cells && fifo[x].at == fifo[i].at;
        assert x != head && grown[x] == fifo[x] && grown[i] == fifo[i];
      } else {
        assert grown[head].slot.Some?;
      }
    }
    forall i | 0 <= i < |grown| && grown[i].slot.Some?
      ensures ExpandedEntry(b, h, slots, grown, grown[i])
    {
      if i != head {
        assert grown[i] == fifo[i];
        assert SameEntries(b, fifo, named);
        forall k | 0 <= k < |named| ensures ValidEntry(b, slots, named[k]) { assert GoodEntry(b, slots, grown[k]); }
        ExpandedStays(b, h, slots, fifo, named, fifo[i]);
        ExpandedGrows(b, h, slots, named, grown, fifo[i]);
      }
    }
    var i :| 0 <= i < |fifo| && Tracks(b, slots, fifo[i], s0);
    assert Tracks(b, slots, grown[i], s0);
  }

  /** The key a search starts from: the members' own cells and the keeper's region. */
  ghost predicate IsStart(b: Board, slots: seq<nat>, s0: State, k: PocketKey) {
    |s0.boxes| == |b.labels| && IsKey(b, slots, k) && Tracks(b, slots, AsEntry(k), s0)
  }

  lemma StartIsUnique(b: Board, slots: seq<nat>, s0: State, x: PocketKey, y: PocketKey)
    requires b.Valid() && IsStart(b, slots, s0, x) && IsStart(b, slots, s0, y)
    ensures x == y
  {
    if x.cells == y.cells {
      ConnectedSymmetric(b, CellSet(x.cells), y.at, s0.player);
      ConnectedTransitive(b, CellSet(x.cells), x.at, s0.player, y.at);
    }
    KeyIsUnique(b, slots, x, y);
  }

  /** The least cell of a region. */
  lemma {:induction false} LeastOfRegion(b: Board, walls: set<Cell>, at: Cell, c: Cell) returns (least: Cell)
    requires c <= at && forall x: Cell | x < c :: !Connected(b, walls, at, x)
    ensures Connected(b, walls, at, least) && forall x: Cell | Connected(b, walls, at, x) :: least <= x
    decreases at - c
  {
    if Connected(b, walls, at, c) {
      least := c;
    } else {
      ConnectedSelf(b, walls, at);
      least := LeastOfRegion(b, walls, at, c + 1);
    }
  }

  lemma StartKey(b: Board, slots: seq<nat>, cells: seq<Cell>, s0: State) returns (root: PocketKey)
    requires b.Valid() && |s0.boxes| == |b.labels| && GoodEntry(b, slots, Entry(cells, s0.player, None))
    requires Tracks(b, slots, Entry(cells, s0.player, None), s0)
    ensures root.cells == cells && IsStart(b, slots, s0, root) && Connected(b, CellSet(cells), s0.player, root.at)
  {
    var least := LeastOfRegion(b, CellSet(cells), s0.player, 0);
    RegionEntry(b, slots, Entry(cells, s0.player, None), least);
    root := PocketKey(cells, least);
  }

  /** A search started, and what it was started for. */
  lemma StartTraced(w: World, s0: State, cells: seq<Cell>)
    requires w.Valid() && IsStart(w.b, w.slots, s0, w.root) && w.root.cells == cells
    requires GoodEntry(w.b, w.slots, Entry(cells, s0.player, None))
    requires Connected(w.b, CellSet(cells), s0.player, w.root.at)
    ensures Traced(w, Hunt([Entry(cells, s0.player, None)], 0, []))
  {
  }

  /** Naming a region keeps the trace. */
  lemma RegionTraced(w: World, fifo: seq<Entry>, head: nat, origin: seq<Nudge>, region: Cell)
    requires w.Valid() && Traced(w, Hunt(fifo, head, origin)) && head < |fifo| && fifo[head].slot.None?
    requires Connected(w.b, CellSet(fifo[head].cells), fifo[head].at, region)
    ensures Traced(w, Hunt(fifo[head := fifo[head].(at := region)], head, origin))
  {
    assert GoodEntry(w.b, w.slots, fifo[head]);
    RegionEntry(w.b, w.slots, fifo[head], region);
    NamingTraced(w, Hunt(fifo, head, origin), region);
  }

  lemma SeenHasKey(fifo: seq<Entry>, i: nat)
    requires i < |fifo| && Seen(fifo, i)
    ensures HasKey(fifo, KeyOf(fifo[i]))
  {
    var x :| 0 <= x < |fifo| && fifo[x].slot.Some? && fifo[x].cells == fifo[i].cells && fifo[x].at == fifo[i].at;
  }

  /** The search of a pocket in the state `s0`: everything it keeps between pops. */
  ghost predicate Hunted(w: World, s0: State, s: Hunt) {
    Searching(w.b, w.h, w.slots, s.fifo, s.head, s0) && Traced(w, s)
  }

  /** What a search was started for, which it never changes. */
  ghost predicate Founded(b: Board, h: Heuristic, w: World, s0: State, slots: seq<nat>) {
    w.b == b && w.h == h && w.slots == slots && b.Valid() && IsStart(b, slots, s0, w.root)
  }

  /** A search whose FIFO ran out proves its pocket dead, exactly. */
  lemma RanOutIsDeadPocket(w: World, s0: State, s: Hunt)
    requires w.Valid() && Hunted(w, s0, s) && s.head == |s.fifo|
    ensures PocketDead(w, POCKET_NODES)
  {
    forall i | 0 <= i < |s.fifo| ensures HasKey(s.fifo, KeyOf(s.fifo[i])) {
      assert Seen(s.fifo, i);
      SeenHasKey(s.fifo, i);
    }
    RanOutIsExact(w, s, POCKET_NODES);
  }

  /** Naming the next entry's region keeps the search. */
  lemma NameKeeps(w: World, s0: State, s: Hunt, region: Cell)
    requires w.Valid() && Hunted(w, s0, s) && s.head < |s.fifo|
    requires Connected(w.b, CellSet(s.fifo[s.head].cells), s.fifo[s.head].at, region)
    requires forall c: Cell | Connected(w.b, CellSet(s.fifo[s.head].cells), s.fifo[s.head].at, c) :: region <= c
    ensures Hunted(w, s0, s.(fifo := s.fifo[s.head := s.fifo[s.head].(at := region)]))
  {
    RegionKeepsSearch(w.b, w.h, w.slots, s.fifo, s.head, s0, region);
    RegionTraced(w, s.fifo, s.head, s.origin, region);
  }

  /** Skipping a key popped before keeps it too. */
  lemma SkipKeeps(w: World, s0: State, s: Hunt)
    requires w.Valid() && Hunted(w, s0, s) && s.head < |s.fifo| && Seen(s.fifo, s.head)
    requires LeastIn(w.b, s.fifo[s.head].cells, s.fifo[s.head].at)
    ensures Hunted(w, s0, s.(head := s.head + 1))
  {
    DuplicateKeepsSearch(w.b, w.h, w.slots, s.fifo, s.head, s0);
    SkipTraced(w, s);
  }

  /** A new key that does not end the search, put in the table with all its pushes queued. */
  lemma ExpandKeeps(w: World, s0: State, s: Hunt, named: seq<Entry>, fifo: seq<Entry>, edges: seq<Nudge>)
    requires w.Valid() && Hunted(w, s0, s) && s.head < |s.fifo| == |named| && s.fifo[s.head].slot.None?
    requires GoodFifo(w.b, w.slots, fifo)
    requires named[s.head].slot.Some? && named == s.fifo[s.head := s.fifo[s.head].(slot := named[s.head].slot)]
    requires !HasKey(s.fifo, KeyOf(s.fifo[s.head])) && LeastIn(w.b, s.fifo[s.head].cells, s.fifo[s.head].at)
    requires !Ends(w, KeyOf(s.fifo[s.head]))
    requires Queued(w.b, w.h, w.slots, named[s.head], named, fifo, edges, |w.slots|, 0)
    ensures Hunted(w, s0, Hunt(fifo, s.head + 1, s.origin + edges))
  {
    assert named == s.fifo[s.head := s.fifo[s.head].(slot := Some(named[s.head].slot.value))];
    assert GoodEntry(w.b, w.slots, s.fifo[s.head]);
    assert !Settled(w.b, w.slots, named[s.head]) by {
      assert !Settled(w.b, w.slots, AsEntry(KeyOf(s.fifo[s.head])));
    }
    QueuedExpands(w.b, w.h, w.slots, named[s.head], named, fifo, edges);
    ExpansionKeepsSearch(w.b, w.h, w.slots, s.fifo, s.head, s0, named[s.head].slot.value, fifo);
    ExpansionTraced(w, s, named[s.head].slot.value, fifo, edges);
  }

  /** The first entry past a settled or opened key, or past a full FIFO, leaves the pocket alive. */
  lemma EndKeepsAlive(w: World, s0: State, s: Hunt)
    requires w.Valid() && Hunted(w, s0, s) && s.head < |s.fifo| && LeastIn(w.b, s.fifo[s.head].cells, s.fifo[s.head].at)
    requires Ends(w, KeyOf(s.fifo[s.head]))
    ensures !PocketDead(w, POCKET_NODES)
  {
    EntryReached(w, s, s.head);
    EndIsAlive(w, KeyOf(s.fifo[s.head]), POCKET_NODES);
  }

  // ---------------------------------------------------------------- the seen table

  /** What the check does next. */
  datatype Unit = Scan | Rescan | Pop

  /** What one unit found. */
  datatype PocketStep = Dead | Alive | More

  /** The least of some cells. */
  method Least(cells: seq<Cell>) returns (least: Cell)
    requires cells != []
    ensures least in cells && forall c | c in cells :: least <= c
  {
    least := cells[0];
    for k := 1 to |cells|
      invariant least in cells && forall i | 0 <= i < k :: least <= cells[i]
    {
      if cells[k] < least { least := cells[k]; }
    }
  }

  function SameKey(x: Entry, y: Entry): bool {
    x.cells == y.cells && x.at == y.at
  }

  /** The table binds exactly the entries that recorded a slot, each reachable from its home
      by linear probing. */
  ghost predicate TableHolds(table: seq<Slot>, fifo: seq<Entry>, homes: seq<nat>) {
    && |table| == TABLE && |homes| <= |fifo| <= POCKET_NODES
    && (forall s: nat | s < |table| && table[s].Bound? :: table[s].id < |homes| && fifo[table[s].id].slot == Some(s))
    && (forall i: nat | i < |fifo| && fifo[i].slot.Some? ::
          i < |homes| && fifo[i].slot.value < |table| && table[fifo[i].slot.value].Bound? &&
            table[fifo[i].slot.value].id == i)
    && Chains(table, homes)
  }

  lemma TableHasNil(table: seq<Slot>, fifo: seq<Entry>, homes: seq<nat>)
    requires TableHolds(table, fifo, homes)
    ensures exists z: nat :: z < |table| && table[z].Nil?
  {
    NilExists(table, |homes|);
  }

  lemma BindInTable(table: seq<Slot>, fifo: seq<Entry>, homes: seq<nat>, home: nat, k: nat)
    requires TableHolds(table, fifo, homes) && |homes| < |fifo| && fifo[|homes|].slot.None?
    requires home < TABLE && k < TABLE && Filled(table, home, k) && table[After(home, k, TABLE)].Nil?
    ensures var i, s := |homes|, After(home, k, TABLE);
            TableHolds(table[s := Bound(i, 0)], fifo[i := fifo[i].(slot := Some(s))], homes + [home])
  {
    MoreHomes(table, homes, home);
    BindKeepsChains(table, homes + [home], home, k, Bound(|homes|, 0));
  }

  /** The homes are the hashes of the keys in the table. */
  ghost predicate HomesOf(hash: (Cell, seq<Cell>) -> nat, fifo: seq<Entry>, homes: seq<nat>) {
    |homes| <= |fifo| && forall i | 0 <= i < |homes| && fifo[i].slot.Some? ::
      homes[i] == hash(fifo[i].at, fifo[i].cells) % TABLE
  }

  /** A probe that reaches an empty slot without meeting a key means no entry in the table has
      it. */
  lemma UnseenKey(hash: (Cell, seq<Cell>) -> nat, table: seq<Slot>, fifo: seq<Entry>, homes: seq<nat>, e: Entry,
                  home: nat, k: nat, x: nat)
    requires TableHolds(table, fifo, homes) && HomesOf(hash, fifo, homes)
    requires home == hash(e.at, e.cells) % TABLE && k < TABLE && table[After(home, k, TABLE)].Nil?
    requires forall j: nat {:trigger After(home, j, TABLE)} | j < k ::
      table[After(home, j, TABLE)].Bound? && !SameKey(fifo[table[After(home, j, TABLE)].id], e)
    requires x < |fifo| && fifo[x].slot.Some?
    ensures !SameKey(fifo[x], e)
  {
    var s := fifo[x].slot.value;
    if homes[x] == home {
      BoundBeforeNil(table, homes, home, k, s);
      AfterGap(home, s, TABLE);
    }
  }

  /** The flood of an entry's keeper with the members alone in its way. */
  ghost predicate Flooded(b: Board, x: Entry, reach: Flood) {
    && RegionOf(b, x, reach) && |reach.distance| == |b.tiles|
    && forall c: Cell :: c in reach.cells <==> reach.Reached(c)
  }

  /** The keeper gets into the pocket when its flood meets a cell of it. */
  lemma KeeperIn(w: World, x: Entry, reach: Flood, keeperIn: bool)
    requires Flooded(w.b, x, reach) && |x.cells| == |w.slots|
    requires keeperIn <==> exists c: Cell :: c in reach.cells && c in w.pocket
    ensures Ends(w, KeyOf(x)) <==> keeperIn || Settled(w.b, w.slots, x)
  {
    if keeperIn {
      var c: Cell :| c in reach.cells && c in w.pocket;
      assert Connected(w.b, CellSet(x.cells), x.at, c);
    }
    if exists c: Cell :: c in w.pocket && Connected(w.b, CellSet(x.cells), x.at, c) {
      var c: Cell :| c in w.pocket && Connected(w.b, CellSet(x.cells), x.at, c);
      assert reach.Reached(c);
    }
    assert Settled(w.b, w.slots, AsEntry(KeyOf(x))) <==> Settled(w.b, w.slots, x);
  }

  /** A full FIFO that another admitted push does not fit. */
  lemma OverflowedIsAlive(w: World, s: Hunt, x: Entry, fifo: seq<Entry>, grown: seq<Entry>, edges: seq<Nudge>,
                          extra: Nudge)
    requires w.Valid() && Traced(w, s) && s.head < |s.fifo| && !HasKey(s.fifo, KeyOf(s.fifo[s.head]))
    requires LeastIn(w.b, s.fifo[s.head].cells, s.fifo[s.head].at) && KeyOf(x) == KeyOf(s.fifo[s.head])
    requires |fifo| == |s.fifo| && |grown| == POCKET_NODES
    requires Queued(w.b, w.h, w.slots, x, fifo, grown, edges, extra.j, extra.d)
    requires extra.key == KeyOf(x) && Admits(w.b, w.h, w.slots, extra)
    ensures !PocketDead(w, POCKET_NODES)
  {
    FullIsAlive(w, s, edges, extra, POCKET_NODES);
  }

  /** The flood of an entry's keeper and its least cell, whose own flood is the same. */
  method FloodRegion(b: Board, slots: seq<nat>, x: Entry) returns (reach: Flood, region: Cell)
    requires b.Valid() && GoodEntry(b, slots, x)
    ensures Connected(b, CellSet(x.cells), x.at, region) && LeastIn(b, x.cells, region)
    ensures forall c: Cell | Connected(b, CellSet(x.cells), x.at, c) :: region <= c
    ensures Flooded(b, x.(at := region), reach)
  {
    reach := FillFrom(b, x.at, x.cells);
    ConnectedSelf(b, CellSet(x.cells), x.at);
    assert reach.Reached(x.at);
    region := Least(reach.cells);
    assert Connected(b, CellSet(x.cells), x.at, region);
    RegionEntry(b, slots, x, region);
  }

  /** The pocket search's own state. The scan's flood is `reach`, and the marks of pocket cells
      are the corral's stamps. */
  class PocketCheck {
    const hash: (Cell, seq<Cell>) -> nat
    var fifo: seq<Entry>
    /** The keys popped so far, each bound to the FIFO index it was first met at. */
    var table: array<Slot>
    var head: nat
    /** All cells below it have been scanned. */
    var cursor: nat
    /** The check's first corral epoch. */
    var first: nat
    var slots: seq<nat>
    var unit: Unit
    var reach: Flood
    /** Each popped entry's home slot. */
    ghost var homes: seq<nat>
    /** The pocket searched, and how far its search has come. */
    ghost var world: World
    ghost var hunt: Hunt

    ghost predicate TableOk()
      reads this, table
    {
      table.Length == TABLE && TableHolds(table[..], fifo, homes) && HomesOf(hash, fifo, homes)
    }

    /** The search of the pocket, in the state `s0`. */
    ghost predicate Hunting(s0: State)
      reads this`fifo, this`head, this`world, this`hunt
    {
      hunt.fifo == fifo && hunt.head == head && Hunted(world, s0, hunt)
    }

    constructor (hash: (Cell, seq<Cell>) -> nat)
      ensures TableOk() && this.hash == hash && fifo == [] && unit.Scan? && cursor == 0 && fresh(table)
    {
      this.hash := hash;
      fifo, slots, homes := [], [], [];
      table := new Slot[TABLE](_ => Nil);
      head, cursor, first := 0, 0, 0;
      unit := Unit.Scan;
      reach := Flood([], [], NONE);
    }

    /** Adds the key of entry `index` to the table unless it is there, and says whether it was new;
        a new key's slot is noted in the entry. */
    method Insert(index: nat) returns (fresh_: bool)
      requires TableOk() && index == |homes| < |fifo| && fifo[index].slot.None?
      modifies this`fifo, this`homes, table
      ensures TableOk() && |homes| == index + 1
      ensures !fresh_ ==> fifo == old(fifo) && Seen(fifo, index)
      ensures fresh_ ==> fifo[index].slot.Some?
      ensures fresh_ ==> fifo == old(fifo)[index := old(fifo)[index].(slot := fifo[index].slot)]
      ensures fresh_ <==> forall x | 0 <= x < |fifo| && x != index && fifo[x].slot.Some? ::
                !SameKey(fifo[x], fifo[index])
    {
      var entry := fifo[index];
      var home := hash(entry.at, entry.cells) % TABLE;
      ghost var t := table[..];
      TableHasNil(t, fifo, homes);
      ghost var z: nat :| z < TABLE && t[z].Nil?;
      var k, slot := 0, home;
      while true
        invariant k < TABLE && slot == After(home, k, TABLE) && table[..] == t
        invariant fifo == old(fifo) && homes == old(homes)
        invariant Filled(t, home, k)
        invariant forall j: nat {:trigger After(home, j, TABLE)} | j < k ::
                    !SameKey(fifo[t[After(home, j, TABLE)].id], entry)
        decreases TABLE - k
      {
        var held := table[slot];
        assert t[slot] == held;
        if held.Nil? {
          forall x: nat | x < |fifo| && fifo[x].slot.Some?
            ensures !SameKey(fifo[x], entry)
          {
            UnseenKey(hash, t, fifo, homes, entry, home, k, x);
          }
          BindInTable(t, fifo, homes, home, k);
          table[slot] := Bound(index, 0);
          assert table[..] == t[slot := Bound(index, 0)];
          fifo := fifo[index := entry.(slot := Some(slot))];
          homes := homes + [home];
          return true;
        }
        if SameKey(fifo[held.id], entry) {
          MoreHomes(t, homes, home);
          homes := homes + [home];
          return false;
        }
        ProbeShortOfNil(t, home, k + 1, z);
        NextAfter(home, k, TABLE);
        k, slot := k + 1, Next(slot, TABLE);
      }
    }

    /** Writes Nil back to the slots the last pocket's entries recorded, which empties the
        table without filling all of it. */
    method ResetTable()
      requires TableOk()
      modifies this`fifo, this`homes, table
      ensures TableOk() && fifo == [] && homes == []
    {
      ghost var t := table[..];
      for i := 0 to |fifo|
        invariant table.Length == TABLE && fifo == old(fifo) && homes == old(homes)
        invariant forall s: nat | s < TABLE :: table[s] == t[s] || table[s].Nil?
        invariant forall s: nat | s < TABLE && table[s].Bound? :: table[s].id >= i
      {
        if fifo[i].slot.Some? { table[fifo[i].slot.value] := Nil; }
      }
      assert forall s: nat | s < TABLE && t[s].Bound? :: t[s].id < |fifo|;
      fifo, homes := [], [];
    }

    /** Sets up the search of a pocket bordered by `members`: no key in the table, one entry in the
        FIFO, the state as it is. */
    method Start(b: Board, h: Heuristic, s0: State, members: set<nat>, ghost pocket: set<Cell>)
      requires b.Valid() && ValidState(b, s0) && TableOk() && forall j | j in members :: j < |s0.boxes|
      modifies this`fifo, this`homes, this`head, this`slots, this`unit, this`world, this`hunt, table
      ensures TableOk() && unit.Pop? && head == |homes| == 0 < |fifo|
      ensures Founded(b, h, world, s0, slots) && Hunting(s0) && slots == SlotsOf(members, |s0.boxes|)
      ensures world.pocket == pocket
    {
      ResetTable();
      head := 0;
      var cells;
      slots, cells := MembersInOrder(b, s0, members);
      StartTracks(b, slots, cells, s0);
      fifo := [Entry(cells, s0.player, None)];
      ghost var root := StartKey(b, slots, cells, s0);
      world, hunt := World(b, h, slots, root, pocket), Hunt(fifo, 0, []);
      StartTraced(world, s0, cells);
      unit := Unit.Pop;
    }

    /** One pop of the pocket search. It completes the entry's key; a new one either ends the pocket
        alive or has its pushes queued. Dead is the exact verdict, given when no entry is left. */
    method PopEntry(b: Board, h: Heuristic, stamps: array<nat>, epoch: nat, ghost s0: State) returns (step: PocketStep)
      requires Founded(b, h, world, s0, slots) && Exact(b, h) && ValidState(b, s0) && TableOk()
      requires unit.Pop? && head == |homes| < |fifo| && Hunting(s0)
      requires Marked(b, stamps, epoch)
      modifies this`fifo, this`homes, this`head, this`unit, this`reach, this`hunt, table
      ensures TableOk() && head == old(head) + 1 && !step.Alive?
      ensures step.Dead? ==> PocketDead(world, POCKET_NODES) && !Solvable(b, s0)
      ensures !unit.Scan? && (unit.Rescan? ==> !PocketDead(world, POCKET_NODES))
      ensures step.More? && unit.Pop? ==> head == |homes| < |fifo| && Hunting(s0)
    {
      NameRegion(b, h, s0);
      PopKey(b, h, stamps, epoch, s0);
      step := PocketStep.More;
      if unit.Pop? && head == |fifo| {
        RanOutIsDead(b, h, slots, fifo, s0);
        RanOutIsDeadPocket(world, s0, hunt);
        step := PocketStep.Dead;
      }
    }

    /** The pocket's cells are the ones that carry the stamp. */
    ghost predicate Marked(b: Board, stamps: array<nat>, epoch: nat)
      reads this`world, stamps
    {
      && stamps.Length == |b.tiles|
      && (forall c: Cell | c < stamps.Length :: stamps[c] == epoch <==> c in world.pocket)
      && (forall c: Cell | c in world.pocket :: c < stamps.Length)
    }

    /** Inserts the next entry's completed key, and expands the entry if the key is new. */
    method PopKey(b: Board, h: Heuristic, stamps: array<nat>, epoch: nat, ghost s0: State)
      requires Founded(b, h, world, s0, slots) && TableOk() && unit.Pop? && head == |homes| < |fifo| && Hunting(s0)
      requires Marked(b, stamps, epoch) && fifo[head].slot.None? && Flooded(b, fifo[head], reach)
      requires LeastIn(b, fifo[head].cells, fifo[head].at)
      modifies this`fifo, this`homes, this`head, this`unit, this`hunt, table
      ensures TableOk() && head == old(head) + 1 == |homes|
      ensures !unit.Scan? && (unit.Rescan? ==> !PocketDead(world, POCKET_NODES))
      ensures unit.Pop? ==> Hunting(s0)
    {
      PopHead(b, h, stamps, epoch, s0);
      head := head + 1;
    }

    /** The same with the head still on the entry. */
    method PopHead(b: Board, h: Heuristic, stamps: array<nat>, epoch: nat, ghost s0: State)
      requires Founded(b, h, world, s0, slots) && TableOk() && unit.Pop? && head == |homes| < |fifo| && Hunting(s0)
      requires Marked(b, stamps, epoch) && fifo[head].slot.None? && Flooded(b, fifo[head], reach)
      requires LeastIn(b, fifo[head].cells, fifo[head].at)
      modifies this`fifo, this`homes, this`unit, this`hunt, table
      ensures TableOk() && |homes| == head + 1 && !unit.Scan?
      ensures unit.Rescan? ==> !PocketDead(world, POCKET_NODES)
      ensures unit.Pop? ==> hunt.fifo == fifo && hunt.head == head + 1 && Hunted(world, s0, hunt)
    {
      var inserted := InsertNext(s0);
      if inserted { ExpandPopped(b, h, stamps, epoch, s0); } else { Skip(s0); }
    }

    /** Puts the next entry's key in the table if it is new. */
    method InsertNext(ghost s0: State) returns (inserted: bool)
      requires TableOk() && head == |homes| < |fifo| && fifo[head].slot.None? && Hunting(s0)
      modifies this`fifo, this`homes, table
      ensures TableOk() && |homes| == head + 1 && hunt.head == head && Hunted(world, s0, hunt)
      ensures inserted ==> JustNamed(s0)
      ensures !inserted ==> hunt.fifo == fifo && Seen(hunt.fifo, head)
    {
      inserted := Insert(head);
      if inserted { InsertedIsNew(hunt.fifo, fifo, head); }
    }

    /** A key popped before needs nothing more. */
    ghost method Skip(s0: State)
      requires world.Valid() && hunt.fifo == fifo && hunt.head == head < |fifo| && Hunted(world, s0, hunt)
      requires Seen(hunt.fifo, head) && LeastIn(world.b, hunt.fifo[head].cells, hunt.fifo[head].at)
      modifies this`hunt
      ensures hunt.fifo == fifo && hunt.head == head + 1 && Hunted(world, s0, hunt)
    {
      SkipKeeps(world, s0, hunt);
      hunt := hunt.(head := head + 1);
    }

    /** Moves the next entry's keeper to the least cell it reaches among the members. */
    method NameRegion(b: Board, h: Heuristic, ghost s0: State)
      requires Founded(b, h, world, s0, slots) && TableOk() && head == |homes| < |fifo| && Hunting(s0)
      modifies this`fifo, this`reach, this`hunt
      ensures TableOk() && |fifo| == old(|fifo|) && fifo[head].slot.None? && Hunting(s0)
      ensures Flooded(b, fifo[head], reach) && LeastIn(b, fifo[head].cells, fifo[head].at)
    {
      var entry := fifo[head];
      assert GoodEntry(b, slots, entry);
      var flood, region := FloodRegion(b, slots, entry);
      NameKeeps(world, s0, hunt, region);
      RegionKeepsTable(table[..], hash, fifo, homes, head, region);
      reach, fifo := flood, fifo[head := entry.(at := region)];
      hunt := hunt.(fifo := fifo);
    }

    /** The entry at the head was just put in the table, its key new. */
    ghost predicate JustNamed(s0: State)
      reads this`fifo, this`head, this`world, this`hunt
    {
      && Hunted(world, s0, hunt) && hunt.head == head < |fifo| == |hunt.fifo| &&
        !HasKey(hunt.fifo, KeyOf(hunt.fifo[head]))
      && hunt.fifo[head].slot.None? && fifo[head].slot.Some?
      && fifo == hunt.fifo[head := hunt.fifo[head].(slot := fifo[head].slot)]
    }

    /** Judges and expands the entry just put in the table. */
    method ExpandPopped(b: Board, h: Heuristic, stamps: array<nat>, epoch: nat, ghost s0: State)
      requires Founded(b, h, world, s0, slots) && TableOk() && unit.Pop? && |homes| == head + 1 && JustNamed(s0)
      requires Marked(b, stamps, epoch) && Flooded(b, hunt.fifo[head], reach)
      requires LeastIn(b, hunt.fifo[head].cells, hunt.fifo[head].at)
      modifies this`fifo, this`unit, this`hunt
      ensures TableOk() && !unit.Scan? && (unit.Rescan? ==> !PocketDead(world, POCKET_NODES))
      ensures unit.Pop? ==> hunt.fifo == fifo && hunt.head == head + 1 && Hunted(world, s0, hunt)
    {
      var x := fifo[head];
      InsertedIsGood(b, slots, hunt.fifo, fifo, head);
      var keeperIn := AnyStamped(b, stamps, epoch, reach.cells);
      KeeperIn(world, hunt.fifo[head], reach, keeperIn);
      if keeperIn || Settled(b, slots, x) {
        EndKeepsAlive(world, s0, hunt);
        unit := Unit.Rescan;
      } else {
        var full := QueueAll(b, h, s0);
        if full { unit := Unit.Rescan; }
      }
    }

    /** Queues the pushes of the entry just put in the table, which does not end the search; none
        when they do not all fit. */
    method QueueAll(b: Board, h: Heuristic, ghost s0: State) returns (full: bool)
      requires Founded(b, h, world, s0, slots) && TableOk() && |homes| == head + 1 && JustNamed(s0)
      requires GoodFifo(b, slots, fifo) && GoodEntry(b, slots, fifo[head]) && RegionOf(b, fifo[head], reach)
      requires LeastIn(b, hunt.fifo[head].cells, hunt.fifo[head].at) && !Ends(world, KeyOf(hunt.fifo[head]))
      modifies this`fifo, this`hunt
      ensures TableOk()
      ensures full ==> !PocketDead(world, POCKET_NODES)
      ensures !full ==> hunt.fifo == fifo && hunt.head == head + 1 && Hunted(world, s0, hunt)
    {
      var grown, spilled, edges, extra := QueuePushes(b, h, slots, fifo, fifo[head], reach);
      full := spilled;
      if full {
        OverflowedIsAlive(world, hunt, fifo[head], fifo, grown, edges, extra);
      } else {
        Take(grown, edges, s0);
      }
    }

    /** Takes the pushes of the entry just expanded into the queue. */
    method Take(grown: seq<Entry>, ghost edges: seq<Nudge>, ghost s0: State)
      requires world.Valid() && TableOk() && JustNamed(s0) && GoodFifo(world.b, world.slots, grown)
      requires LeastIn(world.b, hunt.fifo[head].cells, hunt.fifo[head].at) && !Ends(world, KeyOf(hunt.fifo[head]))
      requires Queued(world.b, world.h, world.slots, fifo[head], fifo, grown, edges, |world.slots|, 0)
      modifies this`fifo, this`hunt
      ensures TableOk() && hunt.fifo == fifo && hunt.head == head + 1 && Hunted(world, s0, hunt)
    {
      ExpandKeeps(world, s0, hunt, fifo, grown, edges);
      hunt := Hunt(grown, hunt.head + 1, hunt.origin + edges);
      Grow(grown);
    }

    /** Queues new entries, none in the table yet. */
    method Grow(grown: seq<Entry>)
      requires TableOk() && fifo <= grown && |grown| <= POCKET_NODES
      requires forall i | |fifo| <= i < |grown| :: grown[i].slot.None?
      modifies this`fifo
      ensures TableOk() && fifo == grown
    {
      GrownKeepsTable(table[..], hash, fifo, grown, homes);
      fifo := grown;
    }

    /** What a check keeps that no pop of a pocket's search touches. */
    ghost predicate Posed(b: Board, h: Heuristic, s0: State, corral: Corral, deadlock: Deadlock)
      reads this`cursor, this`first, corral, corral.stamps, deadlock, deadlock.occupancy
    {
      && b.Valid() && Exact(b, h) && ValidState(b, s0) && corral.Valid(b) && deadlock.Holds(b, s0.boxes)
      && cursor <= |b.tiles| && corral.epoch < first + cursor && first + |b.tiles| <= U32_MAX + 1
    }

    /** Where the check stands: pockets before the cursor are judged, and the one being searched,
        if any, is the pending one. */
    ghost predicate Standing(b: Board, h: Heuristic, s0: State, corral: Corral)
      reads this, table, corral, corral.stamps
    {
      && TableOk()
      && Judged(b, h, s0, corral.stamps[..], first, cursor, if unit.Pop? then world.pocket else {})
      && (unit.Scan? ==> IsFill(b, CellSet(s0.boxes), s0.player, reach))
      && (unit.Pop? ==> head == |homes| < |fifo| && Hunting(s0) && Marked(b, corral.stamps, corral.epoch))
    }

    /** The pocket being searched is one of the state's. */
    ghost predicate Pending(b: Board, h: Heuristic, s0: State)
      reads this`world, this`slots
    {
      Founded(b, h, world, s0, slots) && Telling(b, h, s0, world)
    }

    /** What holds between two units of a check of the state `s0`. */
    ghost predicate Checking(b: Board, h: Heuristic, s0: State, corral: Corral, deadlock: Deadlock)
      reads this, table, corral, corral.stamps, deadlock, deadlock.occupancy
    {
      Posed(b, h, s0, corral, deadlock) && Standing(b, h, s0, corral) && (unit.Pop? ==> Pending(b, h, s0))
    }

    /** Begins a check: nothing scanned, no stamp of this check on any cell, and the keeper's region
        known. */
    method Begin(b: Board, h: Heuristic, s0: State, corral: Corral, deadlock: Deadlock)
      requires b.Valid() && Exact(b, h) && ValidState(b, s0) && TableOk()
      requires corral.Valid(b) && deadlock.Holds(b, s0.boxes)
      modifies this`reach, this`first, this`cursor, this`unit, corral`epoch, corral.stamps
      ensures Checking(b, h, s0, corral, deadlock) && cursor == 0 && unit.Scan?
    {
      reach := FillFrom(b, s0.player, s0.boxes);
      corral.ResetBefore(b, |b.tiles|);
      first := corral.epoch + 1;
      cursor := 0;
      unit := Unit.Scan;
    }

    /** Scans for the next pocket: the cells passed over are walls, boxed, reached or flooded before
        in this check. */
    method FindPocket(b: Board, s0: State, corral: Corral, deadlock: Deadlock) returns (start: nat)
      requires b.Valid() && corral.Valid(b) && deadlock.Holds(b, s0.boxes) && cursor <= |b.tiles|
      requires IsFill(b, CellSet(s0.boxes), s0.player, reach)
      ensures cursor <= start <= |b.tiles|
      ensures start < |b.tiles| ==> Unreached(b, s0, start) && corral.stamps[start] < first
      ensures forall c: Cell | cursor <= c < start :: !Unreached(b, s0, c) || corral.stamps[c] >= first
    {
      start := cursor;
      while start < |b.tiles|
        invariant cursor <= start <= |b.tiles|
        invariant forall c: Cell | cursor <= c < start :: !Unreached(b, s0, c) || corral.stamps[c] >= first
      {
        var box := deadlock.At(b, start);
        if b.tiles[start] != WALL && corral.stamps[start] < first && !reach.Reached(start) && box.None? { return; }
        start := start + 1;
      }
    }

    /** Stamps the pocket `start` is in, and lists the boxes that border it. */
    method FloodPocket(b: Board, boxes: seq<Cell>, corral: Corral, deadlock: Deadlock, start: Cell)
      returns (members: set<nat>)
      requires b.Valid() && corral.Valid(b) && corral.epoch < U32_MAX && start < |b.tiles|
      requires deadlock.Holds(b, boxes)
      requires forall j | 0 <= j < |boxes| :: boxes[j] < |b.tiles|
      modifies corral, corral.stamps
      ensures corral.Valid(b) && corral.epoch == old(corral.epoch) + 1
      ensures var pocket := CorralCells(b, CellSet(boxes), start);
              && members == Bordering(b, boxes, pocket)
              && (forall c: Cell | c < corral.stamps.Length :: corral.stamps[c] == corral.epoch <==> c in pocket)
              && (forall c: Cell | c < corral.stamps.Length && c !in pocket ::
                corral.stamps[c] == old(corral.stamps[c]))
    {
      corral.Spread(b, CellSet(boxes), start);
      SpreadDone(b, CellSet(boxes), start, corral.queue);
      members := BorderingBoxes(b, boxes, deadlock, corral.queue);
    }

    /** Scans up to the next pocket, or to the end, where the check finds the state alive. */
    method ScanOn(b: Board, h: Heuristic, s0: State, corral: Corral, deadlock: Deadlock) returns (step: PocketStep)
      requires Checking(b, h, s0, corral, deadlock) && unit.Scan?
      modifies this`fifo, this`homes, this`head, this`slots, this`unit, this`cursor, this`world, this`hunt
      modifies table, corral, corral.stamps
      ensures !step.Dead? && (step.More? ==> Checking(b, h, s0, corral, deadlock) && cursor > old(cursor))
      ensures step.Alive? ==> !HasDeadPocket(b, h, s0)
    {
      var start := FindPocket(b, s0, corral, deadlock);
      JudgedOn(b, h, s0, corral.stamps[..], first, cursor, start);
      if start == |b.tiles| {
        NothingLeft(b, h, s0, corral.stamps[..], first);
        cursor := |b.tiles|;
        return PocketStep.Alive;
      }
      EnterPocket(b, h, s0, corral, deadlock, start);
      return PocketStep.More;
    }

    /** Takes up the pocket of `start`; its search begins if it is small enough for one. */
    method EnterPocket(b: Board, h: Heuristic, s0: State, corral: Corral, deadlock: Deadlock, start: Cell)
      requires Checking(b, h, s0, corral, deadlock) && unit.Scan? && cursor <= start < |b.tiles|
      requires Unreached(b, s0, start) && Judged(b, h, s0, corral.stamps[..], first, start, {})
      modifies this`fifo, this`homes, this`head, this`slots, this`unit, this`cursor, this`world, this`hunt
      modifies table, corral, corral.stamps
      ensures Checking(b, h, s0, corral, deadlock) && cursor == start + 1
    {
      ghost var before, pocket := corral.stamps[..], CorralCells(b, CellSet(s0.boxes), start);
      cursor := start + 1;
      var members := FloodPocket(b, s0.boxes, corral, deadlock, start);
      StartInPocket(b, s0, start);
      JudgedEntering(b, h, s0, before, corral.stamps[..], first, start, pocket);
      StartOn(b, h, s0, corral, start, members);
    }

    /** Starts searching the pocket just flooded, if it has one to POCKET_BOXES members. */
    method StartOn(b: Board, h: Heuristic, s0: State, corral: Corral, start: Cell, members: set<nat>)
      requires b.Valid() && ValidState(b, s0) && TableOk() && unit.Scan? && Unreached(b, s0, start)
      requires corral.stamps.Length == |b.tiles|
      requires var pocket := CorralCells(b, CellSet(s0.boxes), start);
               && members == Bordering(b, s0.boxes, pocket) &&
                 Judged(b, h, s0, corral.stamps[..], first, start + 1, pocket)
               && forall c: Cell | c < corral.stamps.Length :: corral.stamps[c] == corral.epoch <==> c in pocket
      modifies this`fifo, this`homes, this`head, this`slots, this`unit, this`world, this`hunt, table
      ensures TableOk() && !unit.Rescan?
      ensures Judged(b, h, s0, corral.stamps[..], first, start + 1, if unit.Pop? then world.pocket else {})
      ensures unit.Pop? ==> Pending(b, h, s0)
      ensures unit.Pop? ==> head == |homes| < |fifo| && Hunting(s0)
      ensures unit.Pop? ==> Marked(b, corral.stamps, corral.epoch)
    {
      ghost var stamps, pocket := corral.stamps[..], CorralCells(b, CellSet(s0.boxes), start);
      if members != {} && |members| <= POCKET_BOXES {
        Start(b, h, s0, members, pocket);
        SearchVerdict(b, h, s0, world, start);
      } else {
        UnsearchedIsAlive(b, h, s0, stamps, first, start);
      }
      assert corral.stamps[..] == stamps;
    }

    /** A step of the check, whichever is due; its verdict, if it gives one, is exact. */
    method CheckUnit(b: Board, h: Heuristic, s0: State, corral: Corral, deadlock: Deadlock) returns (step: PocketStep)
      requires Checking(b, h, s0, corral, deadlock)
      modifies this, table, corral, corral.stamps
      ensures table == old(table)
      ensures step.Dead? ==> HasDeadPocket(b, h, s0) && !Solvable(b, s0)
      ensures step.Alive? ==> !HasDeadPocket(b, h, s0)
      ensures step.More? ==> Checking(b, h, s0, corral, deadlock)
      ensures step.More? ==> cursor > old(cursor) || (cursor == old(cursor) && old(unit.Pop?) && head > old(head))
    {
      if unit.Pop? {
        step := PopPocket(b, h, s0, corral, deadlock);
      } else {
        step := ScanUnit(b, h, s0, corral, deadlock);
      }
    }

    /** A scan on, from a fresh flood after a pocket's search. */
    method ScanUnit(b: Board, h: Heuristic, s0: State, corral: Corral, deadlock: Deadlock) returns (step: PocketStep)
      requires Checking(b, h, s0, corral, deadlock) && !unit.Pop?
      modifies this, table, corral, corral.stamps
      ensures table == old(table)
      ensures !step.Dead? && (step.More? ==> Checking(b, h, s0, corral, deadlock) && cursor > old(cursor))
      ensures step.Alive? ==> !HasDeadPocket(b, h, s0)
    {
      if unit.Rescan? { Rescan(b, h, s0, corral); }
      step := ScanOn(b, h, s0, corral, deadlock);
    }

    /** Floods the state again after a pocket's search, with every box blocked. */
    method Rescan(b: Board, h: Heuristic, s0: State, corral: Corral)
      requires b.Valid() && ValidState(b, s0) && Standing(b, h, s0, corral) && unit.Rescan?
      modifies this`reach, this`unit
      ensures Standing(b, h, s0, corral) && unit.Scan?
    {
      reach := FillFrom(b, s0.player, s0.boxes);
      unit := Unit.Scan;
    }

    /** A pop of the pocket being searched, which leaves the check's own bearings alone. */
    method PopPocket(b: Board, h: Heuristic, s0: State, corral: Corral, deadlock: Deadlock) returns (step: PocketStep)
      requires Checking(b, h, s0, corral, deadlock) && unit.Pop?
      modifies this`fifo, this`homes, this`head, this`unit, this`reach, this`hunt, table
      ensures head > old(head) && !step.Alive?
      ensures step.Dead? ==> HasDeadPocket(b, h, s0) && !Solvable(b, s0)
      ensures step.More? ==> Checking(b, h, s0, corral, deadlock)
    {
      step := PopPending(b, h, s0, corral);
    }

    /** A pop of the pending pocket's search. */
    method PopPending(b: Board, h: Heuristic, s0: State, corral: Corral) returns (step: PocketStep)
      requires b.Valid() && Exact(b, h) && ValidState(b, s0) && corral.stamps.Length == |b.tiles|
      requires Pending(b, h, s0) && Standing(b, h, s0, corral) && unit.Pop?
      modifies this`fifo, this`homes, this`head, this`unit, this`reach, this`hunt, table
      ensures head > old(head) && !step.Alive?
      ensures step.Dead? ==> HasDeadPocket(b, h, s0) && !Solvable(b, s0)
      ensures step.More? ==> Standing(b, h, s0, corral)
    {
      JudgedLeaving(b, h, s0, corral.stamps[..], first, cursor, world);
      step := PopUnit(b, h, s0, corral);
    }

    /** A pop under the assumption that an alive pocket leaves the scanned cells judged. */
    method PopUnit(b: Board, h: Heuristic, s0: State, corral: Corral) returns (step: PocketStep)
      requires Exact(b, h) && ValidState(b, s0) && corral.stamps.Length == |b.tiles|
      requires Founded(b, h, world, s0, slots) && Standing(b, h, s0, corral) && unit.Pop?
      requires !PocketDead(world, POCKET_NODES) ==> Judged(b, h, s0, corral.stamps[..], first, cursor, {})
      modifies this`fifo, this`homes, this`head, this`unit, this`reach, this`hunt, table
      ensures head > old(head) && !step.Alive?
      ensures step.Dead? ==> PocketDead(world, POCKET_NODES) && !Solvable(b, s0)
      ensures step.More? ==> Standing(b, h, s0, corral)
    {
      ghost var stamps := corral.stamps[..];
      step := PopEntry(b, h, corral.stamps, corral.epoch, s0);
      assert corral.stamps[..] == stamps;
    }

    /** The whole check, unit by unit: it ends, and its verdict is exactly whether some pocket is
        dead; then no run solves the state. */
    method Check(b: Board, h: Heuristic, s0: State, corral: Corral, deadlock: Deadlock) returns (dead: bool)
      requires b.Valid() && Exact(b, h) && ValidState(b, s0) && TableOk()
      requires corral.Valid(b) && deadlock.Holds(b, s0.boxes)
      modifies this, table, corral, corral.stamps
      ensures dead <==> HasDeadPocket(b, h, s0)
      ensures dead <==> exists c: Cell :: Shut(b, h, s0, c)
      ensures dead ==> !Solvable(b, s0)
    {
      PocketVerdictMeans(b, h, s0);
      Begin(b, h, s0, corral, deadlock);
      var step := PocketStep.More;
      while step.More?
        invariant table == old(table)
        invariant step.More? ==> Checking(b, h, s0, corral, deadlock)
        invariant step.Dead? ==> HasDeadPocket(b, h, s0) && !Solvable(b, s0)
        invariant step.Alive? ==> !HasDeadPocket(b, h, s0)
        decreases step.More?, |b.tiles| - cursor, if unit.Pop? then 1 + POCKET_NODES - head else 0
      {
        step := CheckUnit(b, h, s0, corral, deadlock);
      }
      return step.Dead?;
    }
  }

  // ---------------------------------------------------------------- which pockets are dead

  /** An empty cell the keeper does not reach. */
  ghost predicate Unreached(b: Board, s0: State, c: Cell) {
    b.Floor(c) && c !in s0.boxes && !Connected(b, CellSet(s0.boxes), s0.player, c)
  }

  ghost predicate NextTo(b: Board, c: Cell, pocket: set<Cell>) {
    exists x: Cell, d: nat :: x in pocket && d < 4 && b.Next(x, d) == c
  }

  /** The boxes next to a pocket. */
  ghost function Bordering(b: Board, boxes: seq<Cell>, pocket: set<Cell>): set<nat> {
    set j: nat | 0 <= j < |boxes| && NextTo(b, boxes[j], pocket)
  }

  /** The members below slot `n`, ascending. */
  ghost function SlotsOf(members: set<nat>, n: nat): seq<nat> {
    if n == 0 then []
    else SlotsOf(members, n - 1) + if n - 1 in members then [n - 1] else []
  }

  /** The pocket of an empty cell is one a search looks at, and finds dead. */
  ghost predicate DeadPocketAt(b: Board, h: Heuristic, s0: State, c: Cell) {
    var pocket := CorralCells(b, CellSet(s0.boxes), c);
    var members := Bordering(b, s0.boxes, pocket);
    var slots := SlotsOf(members, |s0.boxes|);
    && members != {} && |members| <= POCKET_BOXES
    && exists root {:trigger IsStart(b, slots, s0, root)} ::
         IsStart(b, slots, s0, root) && PocketDead(World(b, h, slots, root, pocket), POCKET_NODES)
  }

  /** The check's verdict. */
  ghost predicate HasDeadPocket(b: Board, h: Heuristic, s0: State) {
    exists c: Cell :: Unreached(b, s0, c) && DeadPocketAt(b, h, s0, c)
  }

  /** `w` is the search of the pocket around `c`: the cells walked to from `c` around the boxes,
      the one to POCKET_BOXES boxes beside them, as they stand, and the keeper's region. */
  ghost predicate Encloses(b: Board, h: Heuristic, s0: State, c: Cell, w: World) {
    && w.b == b && w.h == h && Slotted(b, w.slots) && 1 <= |w.slots| <= POCKET_BOXES
    && (forall x: Cell :: x in w.pocket <==> exists dirs :: IsWalk(b, CellSet(s0.boxes), c, dirs, x))
    && (forall j: nat :: j in w.slots <==>
          j < |s0.boxes| && exists x: Cell, d: nat :: x in w.pocket && d < 4 && b.Next(x, d) == s0.boxes[j])
    && |s0.boxes| == |b.labels| && IsKey(b, w.slots, w.root)
    && EntryPairs(b, w.slots, w.root.cells) == MemberPairs(b, w.slots, s0)
    && exists dirs :: IsWalk(b, CellSet(w.root.cells), w.root.at, dirs, s0.player)
  }

  /** The pocket of an empty cell that the keeper cannot walk to stays shut. */
  ghost predicate Shut(b: Board, h: Heuristic, s0: State, c: Cell) {
    && b.Floor(c) && c !in s0.boxes
    && (forall dirs :: !IsWalk(b, CellSet(s0.boxes), s0.player, dirs, c))
    && exists w {:trigger Encloses(b, h, s0, c, w)} :: Encloses(b, h, s0, c, w) && ShutForGood(w, POCKET_NODES)
  }

  /** The check's verdict, spelled out. */
  lemma PocketVerdictMeans(b: Board, h: Heuristic, s0: State)
    requires b.Valid() && ValidState(b, s0)
    ensures HasDeadPocket(b, h, s0) <==> exists c: Cell :: Shut(b, h, s0, c)
  {
    forall c: Cell | Unreached(b, s0, c) ensures DeadPocketAt(b, h, s0, c) <==> Shut(b, h, s0, c) {
      DeadPocketMeans(b, h, s0, c);
    }
    forall c: Cell | Shut(b, h, s0, c) ensures Unreached(b, s0, c) {
    }
    if HasDeadPocket(b, h, s0) {
      var c: Cell :| Unreached(b, s0, c) && DeadPocketAt(b, h, s0, c);
      assert Shut(b, h, s0, c);
    }
  }

  lemma DeadPocketMeans(b: Board, h: Heuristic, s0: State, c: Cell)
    requires b.Valid() && ValidState(b, s0) && Unreached(b, s0, c)
    ensures DeadPocketAt(b, h, s0, c) <==> Shut(b, h, s0, c)
  {
    if DeadPocketAt(b, h, s0, c) {
      var w := SearchedEncloses(b, h, s0, c);
      PocketDeadMeans(w, POCKET_NODES);
      assert Encloses(b, h, s0, c, w);
    }
    if Shut(b, h, s0, c) {
      var w :| Encloses(b, h, s0, c, w) && ShutForGood(w, POCKET_NODES);
      EnclosedIsSearched(b, h, s0, c, w);
      PocketDeadMeans(w, POCKET_NODES);
      assert World(b, h, w.slots, w.root, w.pocket) == w;
    }
  }

  lemma SearchedEncloses(b: Board, h: Heuristic, s0: State, c: Cell) returns (w: World)
    requires b.Valid() && ValidState(b, s0) && Unreached(b, s0, c) && DeadPocketAt(b, h, s0, c)
    ensures w.Valid() && Encloses(b, h, s0, c, w) && PocketDead(w, POCKET_NODES)
  {
    var pocket := CorralCells(b, CellSet(s0.boxes), c);
    var members := Bordering(b, s0.boxes, pocket);
    var slots := SlotsOf(members, |s0.boxes|);
    var root :| IsStart(b, slots, s0, root) && PocketDead(World(b, h, slots, root, pocket), POCKET_NODES);
    w := World(b, h, slots, root, pocket);
    WalkedIsCorral(b, CellSet(s0.boxes), c);
    SlotsAreMembers(members, |s0.boxes|);
    SlotsSize(members, |s0.boxes|);
    BorderingMeans(b, s0.boxes, pocket);
  }

  lemma BorderingMeans(b: Board, boxes: seq<Cell>, pocket: set<Cell>)
    ensures forall j: nat :: j in Bordering(b, boxes, pocket) <==>
              j < |boxes| && exists x: Cell, d: nat :: x in pocket && d < 4 && b.Next(x, d) == boxes[j]
  {
  }

  lemma EnclosedIsSearched(b: Board, h: Heuristic, s0: State, c: Cell, w: World)
    requires b.Valid() && ValidState(b, s0) && Unreached(b, s0, c) && Encloses(b, h, s0, c, w)
    ensures var pocket := CorralCells(b, CellSet(s0.boxes), c);
            var members := Bordering(b, s0.boxes, pocket);
            && w.pocket == pocket && w.slots == SlotsOf(members, |s0.boxes|)
            && members != {} && |members| == |w.slots|
    ensures w.Valid() && IsStart(b, w.slots, s0, w.root)
  {
    var pocket := CorralCells(b, CellSet(s0.boxes), c);
    WalkedIsCorral(b, CellSet(s0.boxes), c);
    OneCorral(b, CellSet(s0.boxes), c, pocket, w.pocket);
    BorderingMeans(b, s0.boxes, pocket);
    EnclosedSlots(w.slots, Bordering(b, s0.boxes, pocket), |s0.boxes|);
    assert w.slots[0] in Bordering(b, s0.boxes, pocket);
  }

  lemma EnclosedSlots(slots: seq<nat>, members: set<nat>, n: nat)
    requires forall i, j | 0 <= i < j < |slots| :: slots[i] < slots[j]
    requires (forall j :: j in slots <==> j in members) && forall j | j in members :: j < n
    ensures slots == SlotsOf(members, n) && |members| == |slots|
  {
    SlotsAreMembers(members, n);
    SlotsSize(members, n);
    AscendingIsUnique(slots, SlotsOf(members, n));
  }

  lemma {:induction false} SlotsAreMembers(members: set<nat>, n: nat)
    ensures forall j :: j in SlotsOf(members, n) <==> j in members && j < n
    ensures forall i, j | 0 <= i < j < |SlotsOf(members, n)| :: SlotsOf(members, n)[i] < SlotsOf(members, n)[j]
  {
    if n > 0 {
      SlotsAreMembers(members, n - 1);
      var init := SlotsOf(members, n - 1);
      forall j ensures j in SlotsOf(members, n) <==> j in init || (j == n - 1 && n - 1 in members) {
      }
      forall i | 0 <= i < |init| ensures init[i] < n - 1 { assert init[i] in init; }
    }
  }

  lemma SlotsSize(members: set<nat>, n: nat)
    requires forall j | j in members :: j < n
    ensures |SlotsOf(members, n)| == |members|
  {
    SlotsAreMembers(members, n);
    DistinctSize(SlotsOf(members, n));
    assert CellSet(SlotsOf(members, n)) == members;
  }

  lemma SomeIn(xs: seq<nat>)
    requires |xs| > 0
    ensures exists x :: x in xs
  {
    assert xs[0] in xs;
  }

  lemma {:induction false} AscendingIsUnique(xs: seq<nat>, ys: seq<nat>)
    requires forall i, j | 0 <= i < j < |xs| :: xs[i] < xs[j]
    requires forall i, j | 0 <= i < j < |ys| :: ys[i] < ys[j]
    requires forall x :: x in xs <==> x in ys
    ensures xs == ys
    decreases |xs|
  {
    if xs == [] || ys == [] {
      if |xs| > 0 { SomeIn(xs); }
      if |ys| > 0 { SomeIn(ys); }
    } else {
      var x, y := xs[|xs| - 1], ys[|ys| - 1];
      assert x in ys && y in xs;
      var init, last := xs[..|xs| - 1], ys[..|ys| - 1];
      assert xs == init + [x] && ys == last + [y];
      forall z ensures z in init <==> z in last {
        assert z in xs <==> z in init || z == x;
        assert z in ys <==> z in last || z == y;
      }
      AscendingIsUnique(init, last);
    }
  }

  /** No empty unreached cell the scan passed, or a flood of this check covered, is in a dead
      pocket, but for the pocket being searched. */
  ghost predicate Judged(b: Board, h: Heuristic, s0: State, stamps: seq<nat>, first: nat, cursor: nat,
                         pending: set<Cell>) {
    forall c: Cell {:trigger DeadPocketAt(b, h, s0, c)} |
      c < |stamps| && (c < cursor || stamps[c] >= first) && Unreached(b, s0, c) && c !in pending ::
        !DeadPocketAt(b, h, s0, c)
  }

  lemma JudgedOn(b: Board, h: Heuristic, s0: State, stamps: seq<nat>, first: nat, cursor: nat, start: nat)
    requires Judged(b, h, s0, stamps, first, cursor, {}) && cursor <= start <= |stamps|
    requires forall c: Cell | cursor <= c < start :: !Unreached(b, s0, c) || stamps[c] >= first
    ensures Judged(b, h, s0, stamps, first, start, {})
  {
  }

  lemma NothingLeft(b: Board, h: Heuristic, s0: State, stamps: seq<nat>, first: nat)
    requires |stamps| == |b.tiles| && Judged(b, h, s0, stamps, first, |b.tiles|, {})
    ensures !HasDeadPocket(b, h, s0)
  {
  }

  lemma StartInPocket(b: Board, s0: State, start: Cell)
    requires Unreached(b, s0, start)
    ensures start in CorralCells(b, CellSet(s0.boxes), start)
  {
    ConnectedSelf(b, CellSet(s0.boxes), start);
  }

  /** A pocket just flooded is the one pending. */
  lemma JudgedEntering(b: Board, h: Heuristic, s0: State, before: seq<nat>, after: seq<nat>, first: nat, start: nat,
                       pocket: set<Cell>)
    requires Judged(b, h, s0, before, first, start, {}) && |after| == |before| && start in pocket
    requires forall c: Cell | c < |after| && c !in pocket :: after[c] == before[c]
    ensures Judged(b, h, s0, after, first, start + 1, pocket)
  {
  }

  /** A pocket with no member, or too many, is not searched and not dead. */
  lemma UnsearchedIsAlive(b: Board, h: Heuristic, s0: State, stamps: seq<nat>, first: nat, start: nat)
    requires b.Valid() && Unreached(b, s0, start)
    requires var pocket := CorralCells(b, CellSet(s0.boxes), start); var members := Bordering(b, s0.boxes, pocket);
             Judged(b, h, s0, stamps, first, start + 1, pocket) && (members == {} || |members| > POCKET_BOXES)
    ensures Judged(b, h, s0, stamps, first, start + 1, {})
  {
    var pocket := CorralCells(b, CellSet(s0.boxes), start);
    forall c: Cell | c in pocket ensures !DeadPocketAt(b, h, s0, c) {
      SameCorral(b, CellSet(s0.boxes), start, c);
    }
  }

  /** The search is of the pocket of `seed`, which has members to search. */
  ghost predicate SearchedFrom(s0: State, w: World, seed: Cell) {
    && w.pocket == CorralCells(w.b, CellSet(s0.boxes), seed)
    && var members := Bordering(w.b, s0.boxes, w.pocket);
       members != {} && |members| <= POCKET_BOXES && w.slots == SlotsOf(members, |s0.boxes|)
  }

  /** The search's verdict is that of every cell of its pocket. */
  ghost predicate Telling(b: Board, h: Heuristic, s0: State, w: World) {
    && (PocketDead(w, POCKET_NODES) ==> HasDeadPocket(b, h, s0))
    && (!PocketDead(w, POCKET_NODES) ==>
          forall c: Cell {:trigger DeadPocketAt(b, h, s0, c)} | c in w.pocket :: !DeadPocketAt(b, h, s0, c))
  }

  lemma SearchVerdict(b: Board, h: Heuristic, s0: State, w: World, seed: Cell)
    requires b.Valid() && IsStart(b, w.slots, s0, w.root) && w.b == b && w.h == h
    requires Unreached(b, s0, seed) && SearchedFrom(s0, w, seed)
    ensures Telling(b, h, s0, w)
  {
    if PocketDead(w, POCKET_NODES) {
      assert World(b, h, w.slots, w.root, w.pocket) == w;
      assert DeadPocketAt(b, h, s0, seed);
    } else {
      forall c: Cell | c in w.pocket ensures !DeadPocketAt(b, h, s0, c) {
        SameCorral(b, CellSet(s0.boxes), seed, c);
        forall root | IsStart(b, w.slots, s0, root) ensures World(b, h, w.slots, root, w.pocket) == w {
          StartIsUnique(b, w.slots, s0, root, w.root);
        }
      }
    }
  }

  /** A search that ends dead shows a dead pocket; one that ends alive judges its pocket. */
  lemma JudgedLeaving(b: Board, h: Heuristic, s0: State, stamps: seq<nat>, first: nat, cursor: nat, w: World)
    requires Telling(b, h, s0, w) && Judged(b, h, s0, stamps, first, cursor, w.pocket)
    ensures PocketDead(w, POCKET_NODES) ==> HasDeadPocket(b, h, s0)
    ensures !PocketDead(w, POCKET_NODES) ==> Judged(b, h, s0, stamps, first, cursor, {})
  {
  }

  lemma InsertedIsNew(named: seq<Entry>, fifo: seq<Entry>, index: nat)
    requires index < |named| == |fifo| && named[index].slot.None?
    requires fifo == named[index := named[index].(slot := fifo[index].slot)]
    requires forall x | 0 <= x < |fifo| && x != index && fifo[x].slot.Some? :: !SameKey(fifo[x], fifo[index])
    ensures !HasKey(named, KeyOf(named[index]))
  {
    forall x: nat | x < |named| && named[x].slot.Some? ensures KeyOf(named[x]) != KeyOf(named[index]) {
      assert fifo[x] == named[x];
    }
  }

  lemma InsertedIsGood(b: Board, slots: seq<nat>, named: seq<Entry>, fifo: seq<Entry>, index: nat)
    requires GoodFifo(b, slots, named) && index < |named| == |fifo|
    requires fifo == named[index := named[index].(slot := fifo[index].slot)]
    ensures GoodFifo(b, slots, fifo) && GoodEntry(b, slots, fifo[index])
  {
    assert GoodEntry(b, slots, named[index]);
    forall i | 0 <= i < |fifo| ensures GoodEntry(b, slots, fifo[i]) {
      if i != index { assert GoodEntry(b, slots, named[i]); }
    }
  }

  lemma RegionKeepsTable(table: seq<Slot>, hash: (Cell, seq<Cell>) -> nat, fifo: seq<Entry>, homes: seq<nat>,
                         index: nat, region: Cell)
    requires TableHolds(table, fifo, homes) && HomesOf(hash, fifo, homes) && index == |homes| < |fifo|
    ensures TableHolds(table, fifo[index := fifo[index].(at := region)], homes)
    ensures HomesOf(hash, fifo[index := fifo[index].(at := region)], homes)
  {
  }

  lemma GrownKeepsTable(table: seq<Slot>, hash: (Cell, seq<Cell>) -> nat, fifo: seq<Entry>, grown: seq<Entry>,
                        homes: seq<nat>)
    requires TableHolds(table, fifo, homes) && HomesOf(hash, fifo, homes) && fifo <= grown && |grown| <= POCKET_NODES
    requires forall i | |fifo| <= i < |grown| :: grown[i].slot.None?
    ensures TableHolds(table, grown, homes) && HomesOf(hash, grown, homes)
  {
  }

  /** Whether a cell of `cells` carries the stamp `epoch`. */
  method AnyStamped(b: Board, stamps: array<nat>, epoch: nat, cells: seq<Cell>) returns (any: bool)
    requires stamps.Length == |b.tiles| && forall c | c in cells :: c < |b.tiles|
    ensures any <==> exists c :: c in cells && stamps[c] == epoch
  {
    for k := 0 to |cells|
      invariant forall c: Cell | c in cells[..k] && c < stamps.Length :: stamps[c] != epoch
    {
      assert cells[k] in cells && cells[..k + 1] == cells[..k] + [cells[k]];
      if stamps[cells[k]] == epoch { return true; }
    }
    assert cells[..|cells|] == cells;
    return false;
  }

  /** The members below slot `j`, listed in order with their cells settled. */
  ghost predicate ListedMembers(b: Board, s0: State, members: set<nat>, slots: seq<nat>, cells: seq<Cell>, j: nat) {
    && Slotted(b, slots) && |slots| == |cells| && |s0.boxes| == |b.labels| && slots == SlotsOf(members, j)
    && (forall i: nat :: i in slots <==> i in members && i < j)
    && EntryPairs(b, slots, cells) == MemberPairs(b, slots, s0)
    && Canonical(b, slots, cells)
    && (forall c: Cell | c in cells :: exists i :: 0 <= i < j && i < |s0.boxes| && s0.boxes[i] == c)
    && DistinctCells(cells)
  }

  lemma EntryPairsAppend(b: Board, slots: seq<nat>, cells: seq<Cell>, j: nat, c: Cell)
    requires j < |b.labels| && Slotted(b, slots + [j]) && Slotted(b, slots) && |slots| == |cells|
    ensures EntryPairs(b, slots + [j], cells + [c]) == EntryPairs(b, slots, cells) + {(b.labels[j], c)}
  {
    var slots', cells' := slots + [j], cells + [c];
    forall p | p in EntryPairs(b, slots, cells) ensures p in EntryPairs(b, slots', cells') {
      var k :| 0 <= k < |cells| && p == (b.labels[slots[k]], cells[k]);
      assert p == (b.labels[slots'[k]], cells'[k]);
    }
    assert (b.labels[slots'[|slots|]], cells'[|slots|]) in EntryPairs(b, slots', cells');
  }

  lemma MemberPairsAppend(b: Board, slots: seq<nat>, s0: State, j: nat)
    requires j < |b.labels| && Slotted(b, slots + [j]) && Slotted(b, slots) && |s0.boxes| == |b.labels|
    ensures MemberPairs(b, slots + [j], s0) == MemberPairs(b, slots, s0) + {(b.labels[j], s0.boxes[j])}
  {
    var slots' := slots + [j];
    forall p | p in MemberPairs(b, slots, s0) ensures p in MemberPairs(b, slots', s0) {
      var k :| 0 <= k < |slots| && p == (b.labels[slots[k]], s0.boxes[slots[k]]);
      assert p == (b.labels[slots'[k]], s0.boxes[slots'[k]]);
    }
    assert (b.labels[slots'[|slots|]], s0.boxes[slots'[|slots|]]) in MemberPairs(b, slots', s0);
  }

  lemma AppendMember(b: Board, s0: State, members: set<nat>, slots: seq<nat>, cells: seq<Cell>, j: nat)
    requires b.Valid() && ValidState(b, s0) && j < |s0.boxes| && j in members
    requires ListedMembers(b, s0, members, slots, cells, j)
    ensures Slotted(b, slots + [j]) && SortedBut(b, slots + [j], cells + [s0.boxes[j]], |cells|)
    ensures EntryPairs(b, slots + [j], cells + [s0.boxes[j]]) == MemberPairs(b, slots + [j], s0)
    ensures DistinctCells(cells + [s0.boxes[j]])
  {
    var slots', cells' := slots + [j], cells + [s0.boxes[j]];
    forall x, y | 0 <= x < y < |slots'| ensures slots'[x] < slots'[y] {
      if y == |slots| { assert slots[x] in slots; }
    }
    EntryPairsAppend(b, slots, cells, j, s0.boxes[j]);
    MemberPairsAppend(b, slots, s0, j);
    assert s0.boxes[j] !in cells;
  }

  lemma SettledMember(b: Board, s0: State, members: set<nat>, slots: seq<nat>, cells: seq<Cell>, j: nat,
                      settled: seq<Cell>)
    requires b.Valid() && ValidState(b, s0) && j < |s0.boxes| && j in members
    requires ListedMembers(b, s0, members, slots, cells, j)
    requires Slotted(b, slots + [j]) && Reordered(b, slots + [j], settled, cells + [s0.boxes[j]])
    requires Canonical(b, slots + [j], settled)
    ensures ListedMembers(b, s0, members, slots + [j], settled, j + 1)
  {
    AppendMember(b, s0, members, slots, cells, j);
    ReorderedDistinct(settled, cells + [s0.boxes[j]]);
    forall c: Cell | c in settled
      ensures exists i :: 0 <= i < j + 1 && i < |s0.boxes| && s0.boxes[i] == c
    {
      ReorderedMembers(settled, cells + [s0.boxes[j]], c);
      if c in cells {
        var i :| 0 <= i < j && i < |s0.boxes| && s0.boxes[i] == c;
        assert s0.boxes[i] == c;
      } else {
        assert s0.boxes[j] == c;
      }
    }
  }

  /** Lists the members in slot order, settling each cell into its label's run. */
  method MembersInOrder(b: Board, s0: State, members: set<nat>) returns (slots: seq<nat>, cells: seq<Cell>)
    requires b.Valid() && ValidState(b, s0)
    ensures ListedMembers(b, s0, members, slots, cells, |s0.boxes|)
  {
    slots, cells := [], [];
    for j := 0 to |s0.boxes|
      invariant ListedMembers(b, s0, members, slots, cells, j)
    {
      if j in members {
        AppendMember(b, s0, members, slots, cells, j);
        var settled := Settle(b, slots + [j], cells + [s0.boxes[j]], |cells|);
        SettledMember(b, s0, members, slots, cells, j, settled);
        slots, cells := slots + [j], settled;
      }
    }
  }

  lemma StartTracks(b: Board, slots: seq<nat>, cells: seq<Cell>, s0: State)
    requires b.Valid() && ValidState(b, s0) && Slotted(b, slots) && |slots| == |cells|
    requires EntryPairs(b, slots, cells) == MemberPairs(b, slots, s0) && Canonical(b, slots, cells)
    requires DistinctCells(cells)
    requires forall c: Cell | c in cells :: exists i :: 0 <= i < |s0.boxes| && s0.boxes[i] == c
    ensures GoodEntry(b, slots, Entry(cells, s0.player, None)) && Tracks(b, slots, Entry(cells, s0.player, None), s0)
  {
    ConnectedSelf(b, CellSet(cells), s0.player);
    forall k | 0 <= k < |cells| ensures b.Floor(cells[k]) && cells[k] != s0.player {
      assert cells[k] in cells;
      var i :| 0 <= i < |s0.boxes| && s0.boxes[i] == cells[k];
      assert s0.boxes[i] in s0.boxes;
    }
  }

  // ---------------------------------------------------------------- the whole check

  /** A neighbour of `c` in the first `d` directions holds box `j`. */
  ghost predicate Beside(b: Board, boxes: seq<Cell>, c: Cell, d: nat, j: nat) {
    j < |boxes| && exists e: nat :: e < d && b.Next(c, e) == boxes[j]
  }

  /** The boxes that border a cell of `cells`. */
  ghost predicate Borders(b: Board, boxes: seq<Cell>, cells: seq<Cell>, j: nat) {
    exists k: nat {:trigger Beside(b, boxes, cells[k], 4, j)} :: k < |cells| && Beside(b, boxes, cells[k], 4, j)
  }

  /** The boxes next to the flooded cells, as a members set. */
  method BorderingBoxes(b: Board, boxes: seq<Cell>, deadlock: Deadlock, cells: seq<Cell>) returns (members: set<nat>)
    requires b.Valid() && deadlock.Holds(b, boxes)
    requires forall j | 0 <= j < |boxes| :: boxes[j] < |b.tiles|
    ensures members == Bordering(b, boxes, CellSet(cells))
  {
    members := {};
    for k := 0 to |cells|
      invariant forall j: nat :: j in members <==> Borders(b, boxes, cells[..k], j)
    {
      var here := BesideCell(b, boxes, deadlock, cells[k]);
      BordersNext(b, boxes, cells, k);
      members := members + here;
    }
    assert cells[..|cells|] == cells;
    BorderingIs(b, boxes, cells);
  }

  method BesideCell(b: Board, boxes: seq<Cell>, deadlock: Deadlock, c: Cell) returns (here: set<nat>)
    requires b.Valid() && deadlock.Holds(b, boxes)
    requires forall j | 0 <= j < |boxes| :: boxes[j] < |b.tiles|
    ensures forall j: nat :: j in here <==> Beside(b, boxes, c, 4, j)
  {
    here := {};
    for d := 0 to 4
      invariant forall j: nat :: j in here <==> Beside(b, boxes, c, d, j)
    {
      var found := deadlock.At(b, b.Next(c, d));
      if found.Some? { here := here + {found.value}; }
    }
  }

  lemma BordersNext(b: Board, boxes: seq<Cell>, cells: seq<Cell>, k: nat)
    requires k < |cells|
    ensures forall j: nat :: Borders(b, boxes, cells[..k + 1], j) <==>
              Borders(b, boxes, cells[..k], j) || Beside(b, boxes, cells[k], 4, j)
  {
    var head, next := cells[..k], cells[..k + 1];
    forall j: nat ensures Borders(b, boxes, next, j) <==>
      Borders(b, boxes, head, j) || Beside(b, boxes, cells[k], 4, j) {
      if Borders(b, boxes, next, j) {
        var i: nat :| i < |next| && Beside(b, boxes, next[i], 4, j);
        if i < k { assert head[i] == next[i]; }
      }
      if Borders(b, boxes, head, j) {
        var i: nat :| i < |head| && Beside(b, boxes, head[i], 4, j);
        assert next[i] == head[i];
      }
      assert next[k] == cells[k];
    }
  }

  lemma BorderingIs(b: Board, boxes: seq<Cell>, cells: seq<Cell>)
    ensures forall j: nat :: j in Bordering(b, boxes, CellSet(cells)) <==> Borders(b, boxes, cells, j)
  {
    forall j: nat ensures j in Bordering(b, boxes, CellSet(cells)) <==> Borders(b, boxes, cells, j) {
      if j in Bordering(b, boxes, CellSet(cells)) {
        var x: Cell, d: nat :| x in CellSet(cells) && d < 4 && b.Next(x, d) == boxes[j];
        var k: nat :| k < |cells| && cells[k] == x;
        assert Beside(b, boxes, cells[k], 4, j);
      }
      if Borders(b, boxes, cells, j) {
        var k: nat :| k < |cells| && Beside(b, boxes, cells[k], 4, j);
        assert cells[k] in CellSet(cells);
      }
    }
  }
}
