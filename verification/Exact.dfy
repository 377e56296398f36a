/** The exact search (engine.rs under its exact policy, exact.rs): A* over pushes with re-opened
    duplicates, an incumbent, partial expansion and interruption by limits. */
module ExactTheory {
  import opened Rules
  import opened Bfs
  import opened Reach
  import opened PushGraph
  import opened Arenas
  import opened Frontiers
  import opened Pushes

  const U32_MAX: nat := 0xFFFF_FFFF
  datatype Proof = Optimal(moves: nat) | Between(lower: nat, upper: nat) | Unsolvable

  /** An admitted child: the node to store, the h to queue it with, and where a find left off. */
  datatype Admitted = Admitted(node: Node, h: nat, index: nat, found: Option<nat>)

  // ---------------------------------------------------------------- what every record keeps

  /** A stored node: canonical, reached at its cost, its estimate kept, and the keeper at
      charge 0 everywhere but at the start. */
  ghost predicate GoodNode(b: Board, start: State, e: Estimates, n: Node) {
    && ValidState(b, n.state) && CanonicalState(b, n.state)
    && CostOf(b, start, n.state, n.g) && FromStart(b, start, n.state)
    && n.h == StoredH(e.estimate(n.state))
    && (n.g > 0 ==> e.charge(n.state.player) == 0)
  }

  ghost predicate GoodRecords(b: Board, start: State, e: Estimates, records: seq<Record>) {
    forall i: nat {:trigger GoodNode(b, start, e, records[i].node)} | i < |records| ::
      GoodNode(b, start, e, records[i].node)
  }

  ghost predicate Estimated(e: Estimates, k: Known) {
    forall key {:trigger KeyEstimated(e, k.records, key)} | key in k.queue :: KeyEstimated(e, k.records, key)
  }

  ghost predicate KeyEstimated(e: Estimates, records: seq<Record>, key: Key) {
    key.id < |records| && e.estimate(records[key.id].node.state).Some?
  }

  /** The first record is the start at no cost, never superseded: nothing is cheaper. */
  ghost predicate HoldsRoot(start: State, records: seq<Record>) {
    records != [] && records[0].node.state == start && records[0].node.g == 0 && !records[0].superseded
  }

  /** Everything but the coverage: sound records, fitting keys, and the start at no cost. */
  ghost predicate Consistent(b: Board, start: State, e: Estimates, k: Known) {
    GoodRecords(b, start, e, k.records) && KeysFit(b, k) && Estimated(e, k) && HoldsRoot(start, k.records)
  }

  lemma GoodAreValid(b: Board, start: State, e: Estimates, records: seq<Record>)
    requires GoodRecords(b, start, e, records)
    ensures ValidRecords(b, records)
  {
    forall r | r in records ensures ValidState(b, r.node.state) {
      var i: nat :| i < |records| && records[i] == r;
      assert GoodNode(b, start, e, records[i].node);
    }
  }

  lemma AppendGood(b: Board, start: State, e: Estimates, records: seq<Record>, found: Option<nat>, node: Node)
    requires GoodRecords(b, start, e, records) && GoodNode(b, start, e, node)
    requires found.Some? ==> found.value < |records|
    ensures GoodRecords(b, start, e, Appended(records, found, node))
  {
    var after := Appended(records, found, node);
    forall i: nat | i < |after| ensures GoodNode(b, start, e, after[i].node) {
      if i < |records| { assert GoodNode(b, start, e, records[i].node); }
    }
  }

  /** Keys that fit a new record. */
  ghost predicate KeysOfNew(b: Board, e: Estimates, node: Node, id: nat, keys: multiset<Key>) {
    forall key | key in keys ::
      && key.id == id && key.h <= MAX_QUEUED_H && key.f == Min(node.g + key.h, F_SAT)
      && (Solved(b, node.state) ==> key.h == 0) && e.estimate(node.state).Some?
  }

  lemma AppendKeys(b: Board, e: Estimates, k: Known, after: Known, found: Option<nat>, node: Node, keys: multiset<Key>)
    requires KeysFit(b, k) && Estimated(e, k) && KeysOfNew(b, e, node, |k.records|, keys)
    requires found.Some? ==> found.value < |k.records|
    requires after.records == Appended(k.records, found, node) && after.queue == k.queue + keys
    ensures KeysFit(b, after) && Estimated(e, after)
  {
    forall key | key in after.queue
      ensures KeyFits(b, after.records, key) && KeyEstimated(e, after.records, key)
    {
      if key in k.queue { assert KeyFits(b, k.records, key) && KeyEstimated(e, k.records, key); }
      if key !in k.queue { assert key in keys; }
    }
  }

  lemma AppendConsistent(b: Board, start: State, e: Estimates, k: Known, found: Option<nat>, node: Node,
                         keys: multiset<Key>, best: Option<nat>)
    requires Consistent(b, start, e, k) && Improves(k.records, found, node) && GoodNode(b, start, e, node)
    requires k.best.Some? ==> best.Some? && best.value <= k.best.value
    requires KeysOfNew(b, e, node, |k.records|, keys)
    ensures Consistent(b, start, e, Known(Appended(k.records, found, node), k.queue + keys, best, k.interrupted))
  {
    var after := Known(Appended(k.records, found, node), k.queue + keys, best, k.interrupted);
    AppendGood(b, start, e, k.records, found, node);
    AppendKeys(b, e, k, after, found, node, keys);
    AppendCarries(k, found, node, k.queue + keys, best);
  }

  /** Records that differ in the closed flag alone. */
  ghost predicate SameButClosed(before: seq<Record>, after: seq<Record>) {
    |before| == |after| && forall i | 0 <= i < |before| ::
      after[i].node == before[i].node && after[i].superseded == before[i].superseded
  }

  lemma ClosedCarries(k: Known, records: seq<Record>)
    requires SameButClosed(k.records, records)
    ensures Carried(k, k.(records := records))
  {
    var after := k.(records := records);
    forall q: nat | q < |k.records| && !k.records[q].superseded ensures Replaced(k, after, q) {
      assert !after.records[q].superseded;
    }
  }

  lemma ClosedGood(b: Board, start: State, e: Estimates, before: seq<Record>, records: seq<Record>)
    requires GoodRecords(b, start, e, before) && SameButClosed(before, records)
    ensures GoodRecords(b, start, e, records)
  {
    forall i: nat | i < |records| ensures GoodNode(b, start, e, records[i].node) {
      assert GoodNode(b, start, e, before[i].node);
    }
  }

  lemma ClosedCovering(b: Board, k: Known, records: seq<Record>)
    requires Covering(b, k) && SameButClosed(k.records, records)
    ensures Covering(b, k.(records := records))
  {
    var after := k.(records := records);
    ClosedCarries(k, records);
    forall id: nat | id < |records| && !records[id].superseded ensures Covered(b, after, id) {
      assert Covered(b, k, id);
      KeptWait(b, k, after, id);
      CoveredCarries(b, k, after, id);
    }
  }

  lemma ClosedKeys(b: Board, e: Estimates, k: Known, records: seq<Record>)
    requires KeysFit(b, k) && Estimated(e, k) && SameButClosed(k.records, records)
    ensures KeysFit(b, k.(records := records)) && Estimated(e, k.(records := records))
  {
    forall key | key in k.queue
      ensures KeyFits(b, records, key) && KeyEstimated(e, records, key)
    {
      assert KeyFits(b, k.records, key) && KeyEstimated(e, k.records, key);
    }
  }

  lemma ClosedKeeps(b: Board, start: State, e: Estimates, k: Known, records: seq<Record>)
    requires Consistent(b, start, e, k) && Covering(b, k) && SameButClosed(k.records, records)
    ensures Consistent(b, start, e, k.(records := records)) && Covering(b, k.(records := records))
  {
    var after := k.(records := records);
    ClosedCarries(k, records);
    ClosedGood(b, start, e, k.records, records);
    ClosedCovering(b, k, records);
    ClosedKeys(b, e, k, records);
  }

  /** Dropping a popped entry whose record is stale or covered without it. */
  lemma Drop(b: Board, start: State, e: Estimates, k: Known, key: Key)
    requires Consistent(b, start, e, Requeued(k, key)) && Covering(b, Requeued(k, key)) && key.id < |k.records|
    requires k.records[key.id].superseded || Covered(b, k, key.id)
    ensures Consistent(b, start, e, k) && Covering(b, k)
  {
    SameCarries(Requeued(k, key), k);
    DropCovers(b, k, key);
    DropKeys(b, e, k, key);
  }

  lemma DropKeys(b: Board, e: Estimates, k: Known, key: Key)
    requires KeysFit(b, Requeued(k, key)) && Estimated(e, Requeued(k, key))
    ensures KeysFit(b, k) && Estimated(e, k)
  {
    assert forall x | x in k.queue :: x in Requeued(k, key).queue;
  }

  /** A better incumbent keeps everything covered. */
  lemma BetterBest(b: Board, start: State, e: Estimates, k: Known, best: nat)
    requires Consistent(b, start, e, k) && Covering(b, k) && (k.best.Some? ==> best <= k.best.value)
    ensures Consistent(b, start, e, k.(best := Some(best))) && Covering(b, k.(best := Some(best)))
  {
    var after := k.(best := Some(best));
    SameCarries(k, after);
    BetterCovering(b, k, best);
    BetterKeys(b, e, k, after);
  }

  lemma BetterKeys(b: Board, e: Estimates, k: Known, after: Known)
    requires KeysFit(b, k) && Estimated(e, k) && after.records == k.records && after.queue == k.queue
    ensures KeysFit(b, after) && Estimated(e, after)
  {
  }

  lemma BetterCovering(b: Board, k: Known, best: nat)
    requires Covering(b, k) && (k.best.Some? ==> best <= k.best.value)
    ensures Covering(b, k.(best := Some(best)))
  {
    var after := k.(best := Some(best));
    SameCarries(k, after);
    forall id: nat | id < |k.records| && !k.records[id].superseded ensures Covered(b, after, id) {
      assert Covered(b, k, id);
      KeptWait(b, k, after, id);
      CoveredCarries(b, k, after, id);
    }
  }

  /** An expansion cut short by a limit. */
  lemma Interrupt(b: Board, start: State, e: Estimates, k: Known, key: Key, f: nat)
    requires Consistent(b, start, e, Requeued(k, key)) && Covering(b, Requeued(k, key)) && key.id < |k.records|
    requires k.interrupted.None?
    requires f == k.records[key.id].node.g + (if key.h == 0 then 1 else key.h)
    requires !Solved(b, k.records[key.id].node.state)
    ensures Consistent(b, start, e, k.(interrupted := Some(f))) && Covering(b, k.(interrupted := Some(f)))
  {
    var after := k.(interrupted := Some(f));
    InterruptCovers(b, k, key, f);
    DropKeys(b, e, k, key);
    BetterKeys(b, e, k, after);
    SameCarries(Requeued(k, key), after);
  }

  /** Storing and queueing an admitted child, which becomes the incumbent when `goal`. */
  lemma InsertKeeps(b: Board, start: State, e: Estimates, k: Known, key: Key, found: Option<nat>, node: Node, h: nat,
                    goal: bool)
    requires b.Valid() && Consistent(b, start, e, Requeued(k, key)) && Covering(b, Requeued(k, key))
    requires Improves(k.records, found, node) && GoodNode(b, start, e, node) && e.estimate(node.state).Some?
    requires Admissible(b, node.state, h) && (goal && k.best.Some? ==> node.g <= k.best.value)
    ensures var after := Known(Appended(k.records, found, node), k.queue + multiset{KeyFor(node.g, h, |k.records|)},
              if goal then Some(node.g) else k.best, k.interrupted);
            && Consistent(b, start, e, Requeued(after, key)) && Covering(b, Requeued(after, key))
            && Carried(k, after) && Stored(b, after, node.state, node.g)
  {
    var fresh_ := KeyFor(node.g, h, |k.records|);
    var best := if goal then Some(node.g) else k.best;
    var before := Requeued(k, key);
    var after := Known(Appended(k.records, found, node), k.queue + multiset{fresh_}, best, k.interrupted);
    assert before.queue + multiset{fresh_} == Requeued(after, key).queue;
    InsertConsistent(b, start, e, before, found, node, h, best);
    InsertCovers(b, before, found, node, h, best);
    AppendCarries(k, found, node, after.queue, best);
    assert StoredAt(b, after, node.state, node.g, |k.records|);
  }

  lemma InsertConsistent(b: Board, start: State, e: Estimates, k: Known, found: Option<nat>, node: Node, h: nat,
                         best: Option<nat>)
    requires b.Valid() && Consistent(b, start, e, k) && Improves(k.records, found, node)
    requires GoodNode(b, start, e, node) && e.estimate(node.state).Some? && Admissible(b, node.state, h)
    requires best == k.best || (best == Some(node.g) && (k.best.Some? ==> node.g <= k.best.value))
    ensures Consistent(b, start, e, Known(Appended(k.records, found, node),
              k.queue + multiset{KeyFor(node.g, h, |k.records|)}, best, k.interrupted))
  {
    SolvedAtZero(b, node.state, h);
    AppendConsistent(b, start, e, k, found, node, multiset{KeyFor(node.g, h, |k.records|)}, best);
  }

  /** Keeping a solved child in the spare slot, unqueued. */
  lemma SpareKeeps(b: Board, start: State, e: Estimates, k: Known, key: Key, found: Option<nat>, node: Node)
    requires Consistent(b, start, e, Requeued(k, key)) && Covering(b, Requeued(k, key))
    requires Improves(k.records, found, node) && GoodNode(b, start, e, node)
    requires k.best.Some? ==> node.g <= k.best.value
    ensures var after := Known(Appended(k.records, found, node), k.queue, Some(node.g), k.interrupted);
            Consistent(b, start, e, Requeued(after, key)) && Covering(b, Requeued(after, key))
  {
    var before := Requeued(k, key);
    AppendConsistent(b, start, e, before, found, node, multiset{}, Some(node.g));
    assert before.queue + multiset{} == before.queue;
    SpareCovers(b, before, found, node);
  }

  lemma SolvedAtZero(b: Board, s: State, h: nat)
    requires Admissible(b, s, h)
    ensures Solved(b, s) ==> h == 0
  {
    assert Play(b, s, []) == Some(s);
    if Solved(b, s) {
      assert Solution(b, s, []);
      assert SolvesIn(b, s, 0);
    }
  }

  // ---------------------------------------------------------------- children a prune may drop

  /** No solution through the child at cost `g` is lost by dropping it. */
  ghost predicate Dismissed(b: Board, k: Known, child: State, g: nat) {
    forall rest {:trigger SolvesIn(b, child, rest)} | SolvesIn(b, child, rest) ::
      Excused(k, g + rest) || Stored(b, k, child, g)
  }

  lemma UnsolvableDismissed(b: Board, k: Known, child: State, g: nat)
    requires !Solvable(b, child)
    ensures Dismissed(b, k, child, g)
  {
    forall rest ensures !SolvesIn(b, child, rest) {
      if SolvesIn(b, child, rest) { SolvesInSolvable(b, child, rest); }
    }
  }

  lemma BoundDismissed(b: Board, k: Known, child: State, g: nat, h: nat)
    requires Admissible(b, child, h) && k.best.Some? && k.best.value <= g + h
    ensures Dismissed(b, k, child, g)
  {
  }

  lemma DuplicateDismissed(b: Board, k: Known, child: State, g: nat, q: nat)
    requires StoredAt(b, k, child, g, q)
    ensures Dismissed(b, k, child, g)
  {
  }

  /** A settled child has its unsettled form's solutions. */
  lemma TwinAdmissible(b: Board, child: State, next: State, h: nat)
    requires b.ValidTable() && ValidState(b, child) && ValidState(b, next) && SamePosition(b, child, next)
    requires Admissible(b, next, h)
    ensures Admissible(b, child, h)
  {
    forall n: nat | SolvesIn(b, child, n) ensures h <= n {
      SolvesInSamePosition(b, child, next, n);
    }
  }

  lemma TwinUnsolvable(b: Board, child: State, next: State)
    requires b.ValidTable() && ValidState(b, child) && ValidState(b, next) && SamePosition(b, child, next)
    requires !Solvable(b, next)
    ensures !Solvable(b, child)
  {
    if Solvable(b, child) {
      var moves :| Solution(b, child, moves);
      SolutionSamePosition(b, child, next, moves);
    }
  }

  lemma TwinDismissed(b: Board, k: Known, child: State, next: State, g: nat)
    requires b.ValidTable() && ValidState(b, child) && ValidState(b, next) && SamePosition(b, child, next)
    requires Dismissed(b, k, next, g)
    ensures Dismissed(b, k, child, g)
  {
    forall rest | SolvesIn(b, child, rest) ensures Excused(k, g + rest) || Stored(b, k, child, g) {
      SolvesInSamePosition(b, child, next, rest);
      if !Excused(k, g + rest) {
        var q: nat :| StoredAt(b, k, next, g, q);
        assert StoredAt(b, k, child, g, q);
      }
    }
  }

  /** `walk` is the fewest moves to the stand. */
  ghost predicate NearestStand(b: Board, s: State, i: nat, d: nat, walk: nat) {
    && Pushable(b, s, i, d)
    && (exists dirs {:trigger WalkToPush(b, s, i, d, dirs)} :: WalkToPush(b, s, i, d, dirs) && |dirs| == walk)
    && (forall dirs {:trigger WalkToPush(b, s, i, d, dirs)} | WalkToPush(b, s, i, d, dirs) :: walk <= |dirs|)
  }

  lemma FloodedStand(b: Board, s: State, i: nat, d: nat, reach: Flood)
    requires Pushable(b, s, i, d) && IsFill(b, CellSet(s.boxes), s.player, reach)
    ensures reach.Reached(Stand(b, s, i, d)) ==> NearestStand(b, s, i, d, reach.distance[Stand(b, s, i, d)])
    ensures !reach.Reached(Stand(b, s, i, d)) ==> forall dirs :: !WalkToPush(b, s, i, d, dirs)
  {
    var stand := Stand(b, s, i, d);
    if reach.Reached(stand) {
      var dirs :| Path(Free(b, CellSet(s.boxes)), s.player, dirs, stand) && |dirs| == reach.distance[stand];
      assert WalkToPush(b, s, i, d, dirs);
      forall dirs | WalkToPush(b, s, i, d, dirs) ensures reach.distance[stand] <= |dirs| {
        assert IsWalk(b, CellSet(s.boxes), s.player, dirs, stand);
      }
    }
    forall dirs | WalkToPush(b, s, i, d, dirs) ensures reach.Reached(stand) {
      assert IsWalk(b, CellSet(s.boxes), s.player, dirs, stand);
    }
  }

  lemma IllegalFollowed(b: Board, k: Known, id: nat, i: nat, d: nat, deferred: Option<nat>)
    requires id < |k.records| && forall dirs :: !WalkToPush(b, k.records[id].node.state, i, d, dirs)
    ensures FollowedUpTo(b, k, id, i, d, deferred)
  {
  }

  /** Dismissing the child at the cost of the nearest stand follows the push. */
  lemma DismissedFollowed(b: Board, k: Known, id: nat, i: nat, d: nat, walk: nat, deferred: Option<nat>)
    requires id < |k.records| && NearestStand(b, k.records[id].node.state, i, d, walk)
    requires Dismissed(b, k, Child(b, k.records[id].node.state, i, d), PushG(k.records[id].node.g, walk))
    ensures FollowedUpTo(b, k, id, i, d, deferred)
  {
    var r := k.records[id].node;
    var child, g := Child(b, r.state, i, d), PushG(r.g, walk);
    forall dirs, rest | WalkToPush(b, r.state, i, d, dirs) && SolvesIn(b, child, rest)
      ensures FollowedOrDeferred(b, k, id, i, d, |dirs|, rest, deferred)
    {
      if !Excused(k, g + rest) {
        var q: nat :| StoredAt(b, k, child, g, q);
        assert StoredAt(b, k, child, r.g + |dirs| + 1, q);
      }
    }
  }

  /** Leaving a child out is paid for by the least f left out. */
  lemma DeferredFollowed(b: Board, k: Known, id: nat, i: nat, d: nat, f: nat, deferred: nat)
    requires id < |k.records| && deferred <= f
    requires forall dirs, rest | WalkToPush(b, k.records[id].node.state, i, d, dirs) &&
               SolvesIn(b, Child(b, k.records[id].node.state, i, d), rest) ::
               f <= k.records[id].node.g + |dirs| + 1 + rest
    ensures FollowedUpTo(b, k, id, i, d, Some(deferred))
  {
  }

  lemma ExcessDefers(b: Board, start: State, e: Estimates, k: Known, id: nat, i: nat, d: nat, walk: nat, excess: nat,
                     deferred: nat)
    requires b.ValidTable() && ValidState(b, start) && Sound(b, start, e)
    requires id < |k.records| && GoodNode(b, start, e, k.records[id].node) && k.records[id].node.g > 0
    requires NearestStand(b, k.records[id].node.state, i, d, walk)
    requires var s := k.records[id].node.state;
             e.estimate(s).Some? && Excess(e, Stand(b, s, i, d), walk, e.estimate(s).value) == Some(excess)
             && deferred <= k.records[id].node.g + e.estimate(s).value + excess
    ensures FollowedUpTo(b, k, id, i, d, Some(deferred))
  {
    var r := k.records[id].node;
    var s := r.state;
    forall dirs, rest | WalkToPush(b, s, i, d, dirs) && SolvesIn(b, Child(b, s, i, d), rest)
      ensures r.g + e.estimate(s).value + excess <= r.g + |dirs| + 1 + rest
    {
      ExcessIsAdmissible(b, start, e, s, i, d, walk, dirs, rest);
    }
    DeferredFollowed(b, k, id, i, d, r.g + e.estimate(s).value + excess, deferred);
  }

  lemma ChildDefers(b: Board, k: Known, id: nat, i: nat, d: nat, walk: nat, next: State, h: nat, deferred: nat)
    requires b.ValidTable() && id < |k.records| && NearestStand(b, k.records[id].node.state, i, d, walk)
    requires ValidState(b, Child(b, k.records[id].node.state, i, d)) && ValidState(b, next)
    requires SamePosition(b, Child(b, k.records[id].node.state, i, d), next)
    requires Admissible(b, next, h) && deferred <= PushG(k.records[id].node.g, walk) + h
    ensures FollowedUpTo(b, k, id, i, d, Some(deferred))
  {
    TwinAdmissible(b, Child(b, k.records[id].node.state, i, d), next, h);
    DeferredFollowed(b, k, id, i, d, PushG(k.records[id].node.g, walk) + h, deferred);
  }

  /** Pushes before box `i`, and box `i`'s before direction `d`, are followed. */
  ghost predicate AllFollowed(b: Board, k: Known, id: nat, i: nat, d: nat, deferred: Option<nat>)
    requires id < |k.records|
  {
    forall j: nat, c: nat {:trigger FollowedUpTo(b, k, id, j, c, deferred)} |
      j < |k.records[id].node.state.boxes| && c < 4 && (j < i || (j == i && c < d)) ::
        FollowedUpTo(b, k, id, j, c, deferred)
  }

  lemma AllFollowedNext(b: Board, k: Known, after: Known, id: nat, i: nat, d: nat, deferred: Option<nat>,
                        later: Option<nat>)
    requires id < |k.records| && AllFollowed(b, k, id, i, d, deferred) && Carried(k, after)
    requires deferred.Some? ==> later.Some? && later.value <= deferred.value
    requires FollowedUpTo(b, after, id, i, d, later)
    ensures AllFollowed(b, after, id, i, d + 1, later)
  {
    forall j: nat, c: nat | j < |k.records[id].node.state.boxes| && c < 4 && (j < i || (j == i && c < d + 1))
      ensures FollowedUpTo(b, after, id, j, c, later)
    {
      if j < i || c < d {
        FollowedCarries(b, k, after, id, j, c, deferred, later);
      }
    }
  }

  /** A stored child follows its push. */
  lemma StoredFollowed(b: Board, k: Known, id: nat, i: nat, d: nat, walk: nat, next: State, deferred: Option<nat>)
    requires b.ValidTable() && id < |k.records| && NearestStand(b, k.records[id].node.state, i, d, walk)
    requires ValidState(b, Child(b, k.records[id].node.state, i, d)) && ValidState(b, next)
    requires SamePosition(b, Child(b, k.records[id].node.state, i, d), next)
    requires Stored(b, k, next, PushG(k.records[id].node.g, walk))
    ensures FollowedUpTo(b, k, id, i, d, deferred)
  {
    var child, g := Child(b, k.records[id].node.state, i, d), PushG(k.records[id].node.g, walk);
    assert Dismissed(b, k, next, g);
    TwinDismissed(b, k, child, next, g);
    DismissedFollowed(b, k, id, i, d, walk, deferred);
  }

  /** The same, of a record stored since. */
  lemma InsertFollows(b: Board, k: Known, after: Known, id: nat, i: nat, d: nat, walk: nat, next: State,
                      deferred: Option<nat>)
    requires b.ValidTable() && id < |k.records| && NearestStand(b, k.records[id].node.state, i, d, walk)
    requires Carried(k, after)
    requires ValidState(b, Child(b, k.records[id].node.state, i, d)) && ValidState(b, next)
    requires SamePosition(b, Child(b, k.records[id].node.state, i, d), next)
    requires Stored(b, after, next, PushG(k.records[id].node.g, walk))
    ensures FollowedUpTo(b, after, id, i, d, deferred)
  {
    StoredFollowed(b, after, id, i, d, walk, next, deferred);
  }

  /** A completed expansion that left nothing out drops its entry. */
  lemma FinishKeeps(b: Board, start: State, e: Estimates, k: Known, key: Key)
    requires b.Valid() && Consistent(b, start, e, Requeued(k, key)) && Covering(b, Requeued(k, key))
    requires key.id < |k.records|
    requires !Solved(b, k.records[key.id].node.state)
    requires AllFollowed(b, k, key.id, |k.records[key.id].node.state.boxes|, 0, None)
    ensures Consistent(b, start, e, k) && Covering(b, k)
  {
    ChildrenCover(b, start, e, k, key.id);
    Drop(b, start, e, k, key);
  }

  lemma ChildrenCover(b: Board, start: State, e: Estimates, k: Known, id: nat)
    requires GoodRecords(b, start, e, k.records) && id < |k.records| && !Solved(b, k.records[id].node.state)
    requires AllFollowed(b, k, id, |k.records[id].node.state.boxes|, 0, None)
    ensures Covered(b, k, id)
  {
    SameCarries(k, k);
    GoodAreValid(b, start, e, k.records);
    ExpandedCovers(b, k, id, None, k);
  }

  /** One that left children out queues its record again at the least f among them. */
  lemma FinishRequeues(b: Board, start: State, e: Estimates, k: Known, key: Key, deferred: nat, again: Key)
    requires b.Valid() && Consistent(b, start, e, Requeued(k, key)) && Covering(b, Requeued(k, key))
    requires key.id < |k.records|
    requires !Solved(b, k.records[key.id].node.state) && KeyEstimated(e, k.records, key)
    requires AllFollowed(b, k, key.id, |k.records[key.id].node.state.boxes|, 0, Some(deferred))
    requires k.records[key.id].node.g <= deferred
    requires again == KeyFor(k.records[key.id].node.g, deferred - k.records[key.id].node.g, key.id)
    ensures Consistent(b, start, e, Requeued(k, again)) && Covering(b, Requeued(k, again))
  {
    var after := Requeued(k, again);
    FinishCovered(b, start, e, k, key, deferred, again);
    RequeueKeeps(b, start, e, Requeued(k, key), again);
    assert Requeued(Requeued(k, key), again).queue == Requeued(after, key).queue;
    Drop(b, start, e, after, key);
  }

  lemma FinishCovered(b: Board, start: State, e: Estimates, k: Known, key: Key, deferred: nat, again: Key)
    requires b.Valid() && GoodRecords(b, start, e, k.records) && key.id < |k.records|
    requires !Solved(b, k.records[key.id].node.state)
    requires AllFollowed(b, k, key.id, |k.records[key.id].node.state.boxes|, 0, Some(deferred))
    requires k.records[key.id].node.g <= deferred
    requires again == KeyFor(k.records[key.id].node.g, deferred - k.records[key.id].node.g, key.id)
    ensures Covered(b, Requeued(k, again), key.id)
  {
    SameCarries(k, Requeued(k, again));
    GoodAreValid(b, start, e, k.records);
    assert again in Requeued(k, again).queue;
    ExpandedCovers(b, k, key.id, Some(deferred), Requeued(k, again));
  }

  lemma RequeueKeeps(b: Board, start: State, e: Estimates, k: Known, again: Key)
    requires Consistent(b, start, e, k) && Covering(b, k) && KeyFits(b, k.records, again)
    requires KeyEstimated(e, k.records, again)
    ensures Consistent(b, start, e, Requeued(k, again)) && Covering(b, Requeued(k, again))
  {
    var after := Requeued(k, again);
    SameCarries(k, after);
    forall id: nat | id < |k.records| && !k.records[id].superseded ensures Covered(b, after, id) {
      KeptWait(b, k, after, id);
      CoveredCarries(b, k, after, id);
    }
  }

  // ---------------------------------------------------------------- termination

  /** How far a queued entry's h can still rise, and itself. */
  function Weight(key: Key): nat {
    if key.h <= MAX_QUEUED_H then MAX_QUEUED_H + 1 - key.h else 0
  }

  /** The weight of the whole queue. */
  ghost function Measure(queue: multiset<Key>): nat
    decreases |queue|
  {
    if queue == multiset{} then 0
    else
      var key :| key in queue;
      Weight(key) + Measure(queue - multiset{key})
  }

  lemma {:induction false} MeasureWithout(queue: multiset<Key>, key: Key)
    requires key in queue
    ensures Measure(queue) == Weight(key) + Measure(queue - multiset{key})
    decreases |queue|
  {
    var first :| first in queue && Measure(queue) == Weight(first) + Measure(queue - multiset{first});
    if first != key {
      var rest := queue - multiset{first};
      MeasureWithout(rest, key);
      MeasureWithout(queue - multiset{key}, first);
      assert rest - multiset{key} == queue - multiset{key} - multiset{first};
    }
  }

  // ---------------------------------------------------------------- least keys

  lemma {:induction false} LeastExists(queue: multiset<Key>) returns (least: Key)
    requires queue != multiset{}
    ensures least in queue && forall x | x in queue :: !Precedes(x, least)
    decreases |queue|
  {
    var key :| key in queue;
    var rest := queue - multiset{key};
    assert queue == rest + multiset{key};
    if rest == multiset{} {
      least := key;
    } else {
      least := LeastExists(rest);
      if Precedes(key, least) { least := key; }
    }
  }

  /** The queue's contract: a least key. */
  method Least(queue: multiset<Key>) returns (least: Key)
    requires queue != multiset{}
    ensures least in queue && forall x | x in queue :: !Precedes(x, least)
  {
    ghost var witness_ := LeastExists(queue);
    least :| least in queue && forall x | x in queue :: !Precedes(x, least);
  }

  // ---------------------------------------------------------------- certificates

  /** What an end shows of the start, given the shortest route and the bound known then. */
  function Certify(status: Status, best: Option<nat>, lower: Option<nat>): Option<Proof> {
    if status.Running? then None
    else if status.Exhausted? && best.None? then Some(Unsolvable)
    else if best.None? || best.value >= G_SAT || lower.None? then None
    else if lower.value >= best.value then Some(Optimal(best.value))
    else Some(Between(lower.value, best.value))
  }

  /** What a proof says of the start. */
  ghost predicate Proves(b: Board, start: State, proof: Proof) {
    match proof
    case Optimal(moves) => SolvesIn(b, start, moves) && Admissible(b, start, moves)
    case Between(lower, upper) => Admissible(b, start, lower) && SolvesIn(b, start, upper) && lower < upper
    case Unsolvable => !Solvable(b, start)
  }

  /** No solution of the start is shorter than the least of the frontier and the incumbent. */
  lemma StartBounded(b: Board, start: State, e: Estimates, k: Known, n: nat)
    requires b.Valid() && ValidState(b, start) && Consistent(b, start, e, k) && Covering(b, k) && SolvesIn(b, start, n)
    ensures Bounded(k, n)
  {
    GoodAreValid(b, start, e, k.records);
    FrontierBounds(b, k, 0, n);
  }
  lemma AdmissibleForTwin(b: Board, s: State, t: State, h: nat)
    requires b.ValidTable() && ValidState(b, s) && ValidState(b, t) && SamePosition(b, s, t) && Admissible(b, s, h)
    ensures Admissible(b, t, h)
  {
    forall n: nat | SolvesIn(b, t, n) ensures h <= n {
      SolvesInSamePosition(b, t, s, n);
    }
  }

  /** A proof about the canonical start is one about the position it was made from. */
  lemma ProvesGiven(b: Board, given: State, start: State, proof: Proof)
    requires b.ValidTable() && ValidState(b, given) && ValidState(b, start) && SamePosition(b, given, start)
    requires Proves(b, start, proof)
    ensures Proves(b, given, proof)
  {
    match proof
    case Optimal(moves) =>
      SolvesInSamePosition(b, start, given, moves);
      AdmissibleForTwin(b, start, given, moves);
    case Between(lower, upper) =>
      SolvesInSamePosition(b, start, given, upper);
      AdmissibleForTwin(b, start, given, lower);
    case Unsolvable =>
      TwinUnsolvable(b, given, start);
  }
}
