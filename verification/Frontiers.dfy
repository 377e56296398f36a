/** What an exact search has covered: every first push of every live record is still waiting in
    the queue, followed by a record at no greater cost, or excused by a bound. From that local
    fact alone the queue, the incumbent and an interrupted expansion bound every solution. */
module Frontiers {
  import opened Rules
  import opened PushGraph
  import opened Arenas

  /** The largest cost a record holds and the largest f and h a queue key holds. */
  const G_SAT: nat := 0xFFFF_FFFE
  const F_SAT: nat := 0xF_FFFF
  const MAX_QUEUED_H: nat := 0xFFFF
  /** What a record stores for an estimate too large for it. */
  const UNKNOWN_H: nat := 0xFFFF

  datatype Status = Running | SolvedStop | Exhausted | StateLimit | MemoryLimit | Cancelled | TimeLimit

  /** A queue entry, ordered by f, then h, then age. */
  datatype Key = Key(f: nat, h: nat, id: nat)

  function Min(a: nat, b: nat): nat {
    if a < b then a else b
  }

  /** The smaller of two counts, either of which may be missing. */
  function Lesser(a: Option<nat>, f: nat): Option<nat> {
    if a.Some? && a.value <= f then a else Some(f)
  }

  function StoreH(h: nat): nat {
    Min(h, UNKNOWN_H)
  }

  function StoredH(estimate: Option<nat>): nat {
    if estimate.Some? then StoreH(estimate.value) else UNKNOWN_H
  }

  function KnownH(h: nat): Option<nat> {
    if h < UNKNOWN_H then Some(h) else None
  }

  /** A child's cost: the parent's, a walk and the push, saturated. */
  function PushG(g: nat, walk: nat): nat {
    Min(g + walk + 1, G_SAT)
  }

  /** The f of an expansion that a limit ends: its node is unsolved, so a move is left. */
  function LimitF(g: nat, h: nat): nat {
    g + if h == 0 then 1 else h
  }

  predicate Precedes(x: Key, y: Key) {
    x.f < y.f || (x.f == y.f && (x.h < y.h || (x.h == y.h && x.id < y.id)))
  }

  /** Key of a node at cost `g` queued with `h`, saturated. */
  function KeyFor(g: nat, h: nat, id: nat): Key {
    Key(Min(g + Min(h, MAX_QUEUED_H), F_SAT), Min(h, MAX_QUEUED_H), id)
  }

  /** The records, the queued keys, the incumbent's cost and the f of an expansion that a limit
      cut short. */
  datatype Known = Known(records: seq<Record>, queue: multiset<Key>, best: Option<nat>, interrupted: Option<nat>)

  /** A route of `cost` moves would not improve on a bound already held. */
  ghost predicate Excused(k: Known, cost: nat) {
    (k.best.Some? && k.best.value <= cost) || (k.interrupted.Some? && k.interrupted.value <= cost)
  }

  /** Record `id` is queued at no more than `cost`. */
  ghost predicate Waiting(k: Known, id: nat, cost: nat) {
    exists key :: key in k.queue && key.id == id && id < |k.records| && k.records[id].node.g + key.h <= cost
  }

  ghost predicate StoredAt(b: Board, k: Known, s: State, g: nat, q: nat) {
    && q < |k.records| && !k.records[q].superseded
    && SamePosition(b, s, k.records[q].node.state) && k.records[q].node.g <= g
  }

  /** A live record holds the position at cost at most `g`. */
  ghost predicate Stored(b: Board, k: Known, s: State, g: nat) {
    exists q: nat :: StoredAt(b, k, s, g, q)
  }

  /** Nothing is missed by not looking further at the solutions that walk `walk` moves, push box `i`
      in direction `d` and take `rest` moves more. */
  ghost predicate Followed(b: Board, k: Known, id: nat, i: nat, d: nat, walk: nat, rest: nat)
    requires id < |k.records| && i < |k.records[id].node.state.boxes|
  {
    var r := k.records[id].node;
    || Waiting(k, id, r.g + walk + 1 + rest)
    || Excused(k, r.g + walk + 1 + rest)
    || Stored(b, k, Child(b, r.state, i, d), r.g + walk + 1)
  }

  ghost predicate Covered(b: Board, k: Known, id: nat)
    requires id < |k.records|
  {
    var r := k.records[id].node;
    && (Solved(b, r.state) ==> Waiting(k, id, r.g) || Excused(k, r.g))
    && (forall i, d, dirs, rest
      {:trigger WalkToPush(b, r.state, i, d, dirs), SolvesIn(b, Child(b, r.state, i, d), rest)} ::
          WalkToPush(b, r.state, i, d, dirs) && SolvesIn(b, Child(b, r.state, i, d), rest) ==>
            Followed(b, k, id, i, d, |dirs|, rest))
  }

  ghost predicate Covering(b: Board, k: Known) {
    forall id: nat {:trigger Covered(b, k, id)} | id < |k.records| && !k.records[id].superseded :: Covered(b, k, id)
  }

  /** Every key is its record's at the queued h, saturated, and a solved record waits at h 0. */
  ghost predicate KeysFit(b: Board, k: Known) {
    forall key {:trigger KeyFits(b, k.records, key)} | key in k.queue :: KeyFits(b, k.records, key)
  }

  ghost predicate KeyFits(b: Board, records: seq<Record>, key: Key) {
    && key.id < |records| && key.h <= MAX_QUEUED_H
    && key.f == Min(records[key.id].node.g + key.h, F_SAT)
    && (Solved(b, records[key.id].node.state) ==> key.h == 0)
  }

  ghost predicate ValidRecords(b: Board, records: seq<Record>) {
    forall r | r in records :: ValidState(b, r.node.state)
  }

  /** A queued key or a bound already held is at most `cost`. */
  ghost predicate Bounded(k: Known, cost: nat) {
    Excused(k, cost) || exists key :: key in k.queue && key.f <= cost
  }

  /** The frontier never passes a solution: through any live record, at its cost plus any
      number of moves that solve it. */
  lemma {:induction false} FrontierBounds(b: Board, k: Known, id: nat, n: nat)
    requires b.ValidTable() && Covering(b, k) && KeysFit(b, k) && ValidRecords(b, k.records)
    requires id < |k.records| && !k.records[id].superseded && SolvesIn(b, k.records[id].node.state, n)
    ensures Bounded(k, k.records[id].node.g + n)
    decreases n
  {
    assert Covered(b, k, id);
    var r, cost := k.records[id].node, k.records[id].node.g + n;
    if Solved(b, r.state) {
      if Waiting(k, id, r.g) { WaitingBounds(b, k, id, r.g, cost); }
    } else {
      var i, d, walk, rest := FirstPush(b, k, id, n);
      if Stored(b, k, Child(b, r.state, i, d), r.g + walk + 1) {
        var q := StoredSolves(b, k, Child(b, r.state, i, d), r.g + walk + 1, rest);
        FrontierBounds(b, k, q, rest);
        BoundedAbove(k, k.records[q].node.g + rest, cost);
      } else if Waiting(k, id, cost) {
        WaitingBounds(b, k, id, cost, cost);
      }
    }
  }

  /** A solution of a covered record starts with a push that is accounted for. */
  lemma FirstPush(b: Board, k: Known, id: nat, n: nat) returns (i: nat, d: nat, walk: nat, rest: nat)
    requires b.ValidTable() && id < |k.records| && Covered(b, k, id) && ValidState(b, k.records[id].node.state)
    requires SolvesIn(b, k.records[id].node.state, n) && !Solved(b, k.records[id].node.state)
    ensures walk + 1 + rest == n && i < |k.records[id].node.state.boxes|
    ensures Followed(b, k, id, i, d, walk, rest)
    ensures var child := Child(b, k.records[id].node.state, i, d); ValidState(b, child) && SolvesIn(b, child, rest)
  {
    var r := k.records[id].node;
    var moves :| Solution(b, r.state, moves) && |moves| == n;
    var dirs, tail;
    i, d, dirs, tail := SolutionSplits(b, r.state, moves);
    walk, rest := |dirs|, |tail|;
    assert SolvesIn(b, Child(b, r.state, i, d), rest);
  }

  lemma StoredSolves(b: Board, k: Known, s: State, g: nat, n: nat) returns (q: nat)
    requires b.ValidTable() && ValidRecords(b, k.records) && ValidState(b, s) && Stored(b, k, s, g) && SolvesIn(b, s, n)
    ensures q < |k.records| && !k.records[q].superseded && SolvesIn(b, k.records[q].node.state, n)
    ensures k.records[q].node.g <= g
  {
    q :| StoredAt(b, k, s, g, q);
    assert k.records[q] in k.records;
    SolvesInSamePosition(b, s, k.records[q].node.state, n);
  }

  lemma WaitingBounds(b: Board, k: Known, id: nat, low: nat, cost: nat)
    requires KeysFit(b, k) && Waiting(k, id, low) && low <= cost
    ensures Bounded(k, cost)
  {
    var key :| key in k.queue && key.id == id && id < |k.records| && k.records[id].node.g + key.h <= low;
    assert KeyFits(b, k.records, key);
    assert key.f <= cost;
  }

  lemma BoundedAbove(k: Known, low: nat, cost: nat)
    requires Bounded(k, low) && low <= cost
    ensures Bounded(k, cost)
  {
    if !Excused(k, low) {
      var key :| key in k.queue && key.f <= low;
      assert key.f <= cost;
    }
  }

  // ---------------------------------------------------------------- what a step must carry over

  /** Nothing is lost from `k` to `after` but what waits in the queue: records keep their node,
      each live position stays live at no greater cost, and bounds only tighten. */
  ghost predicate Carried(k: Known, after: Known) {
    && |k.records| <= |after.records|
    && (forall q: nat | q < |k.records| :: after.records[q].node == k.records[q].node)
    && (forall q: nat | q < |k.records| && !k.records[q].superseded :: Replaced(k, after, q))
    && (forall q: nat | q < |k.records| && k.records[q].superseded :: after.records[q].superseded)
    && (k.best.Some? ==> after.best.Some? && after.best.value <= k.best.value)
    && (k.interrupted.Some? ==> after.interrupted == k.interrupted)
  }

  ghost predicate Replaced(k: Known, after: Known, q: nat)
    requires q < |k.records|
  {
    exists q': nat :: q' < |after.records| && !after.records[q'].superseded
                      && after.records[q'].node.state == k.records[q].node.state &&
                        after.records[q'].node.g <= k.records[q].node.g
  }

  lemma StoredCarries(b: Board, k: Known, after: Known, s: State, g: nat)
    requires Carried(k, after) && Stored(b, k, s, g)
    ensures Stored(b, after, s, g)
  {
    var q: nat :| StoredAt(b, k, s, g, q);
    assert Replaced(k, after, q);
    var q': nat :| q' < |after.records| && !after.records[q'].superseded
                   && after.records[q'].node.state == k.records[q].node.state &&
                     after.records[q'].node.g <= k.records[q].node.g;
    assert StoredAt(b, after, s, g, q');
  }

  /** What waited for record `id` still waits, or is excused. */
  ghost predicate WaitCarries(b: Board, k: Known, after: Known, id: nat)
    requires id < |k.records|
  {
    forall cost: nat {:trigger Waiting(k, id, cost)} ::
      Waiting(k, id, cost) && (cost > k.records[id].node.g || Solved(b, k.records[id].node.state)) ==>
        Waiting(after, id, cost) || Excused(after, cost)
  }

  lemma CoveredCarries(b: Board, k: Known, after: Known, id: nat)
    requires Carried(k, after) && id < |k.records| && Covered(b, k, id) && WaitCarries(b, k, after, id)
    ensures Covered(b, after, id)
  {
    var r := k.records[id].node;
    forall i, d, dirs, rest | WalkToPush(b, r.state, i, d, dirs) && SolvesIn(b, Child(b, r.state, i, d), rest)
      ensures Followed(b, after, id, i, d, |dirs|, rest)
    {
      assert Followed(b, k, id, i, d, |dirs|, rest);
      if Stored(b, k, Child(b, r.state, i, d), r.g + |dirs| + 1) {
        StoredCarries(b, k, after, Child(b, r.state, i, d), r.g + |dirs| + 1);
      }
    }
  }

  lemma KeptWait(b: Board, k: Known, after: Known, id: nat)
    requires Carried(k, after) && id < |k.records|
    requires forall key | key in k.queue && key.id == id :: key in after.queue
    ensures WaitCarries(b, k, after, id)
  {
    forall cost: nat | Waiting(k, id, cost)
      ensures Waiting(after, id, cost)
    {
      var key :| key in k.queue && key.id == id && id < |k.records| && k.records[id].node.g + key.h <= cost;
      assert key in after.queue;
    }
  }

  // ---------------------------------------------------------------- the steps of a search

  /** The record list gains `node`, superseding `found`, a dearer version of its state. */
  ghost predicate Improves(records: seq<Record>, found: Option<nat>, node: Node) {
    found.Some? ==>
      && found.value < |records| && !records[found.value].superseded
      && records[found.value].node.state == node.state && node.g < records[found.value].node.g
  }

  lemma AppendCarries(k: Known, found: Option<nat>, node: Node, queue: multiset<Key>, best: Option<nat>)
    requires Improves(k.records, found, node)
    requires k.best.Some? ==> best.Some? && best.value <= k.best.value
    ensures Carried(k, Known(Appended(k.records, found, node), queue, best, k.interrupted))
  {
    var after := Known(Appended(k.records, found, node), queue, best, k.interrupted);
    forall q: nat | q < |k.records| && !k.records[q].superseded
      ensures Replaced(k, after, q)
    {
      var q' := if found == Some(q) then |k.records| else q;
      assert !after.records[q'].superseded;
    }
  }

  /** A record that waits at an admissible h is covered. */
  lemma AdmissibleCovers(b: Board, k: Known, id: nat, key: Key)
    requires b.ValidTable() && id < |k.records| && ValidState(b, k.records[id].node.state)
    requires key in k.queue && key.id == id
    requires forall n | SolvesIn(b, k.records[id].node.state, n) :: key.h <= n
    ensures Covered(b, k, id)
  {
    var r := k.records[id].node;
    if Solved(b, r.state) {
      assert Solution(b, r.state, []);
      assert SolvesIn(b, r.state, 0);
      assert Waiting(k, id, r.g);
    }
    forall i, d, dirs, rest | WalkToPush(b, r.state, i, d, dirs) && SolvesIn(b, Child(b, r.state, i, d), rest)
      ensures Followed(b, k, id, i, d, |dirs|, rest)
    {
      ChildSolutionExtends(b, r.state, i, d, dirs, rest);
      assert key.h <= |dirs| + 1 + rest;
    }
  }

  /** Storing and queueing an improving child at an admissible h keeps everything covered. */
  lemma InsertCovers(b: Board, k: Known, found: Option<nat>, node: Node, h: nat, best: Option<nat>)
    requires b.ValidTable() && Covering(b, k) && Improves(k.records, found, node) && ValidState(b, node.state)
    requires forall n | SolvesIn(b, node.state, n) :: h <= n
    requires k.best.Some? ==> best.Some? && best.value <= k.best.value
    ensures var queue := k.queue + multiset{KeyFor(node.g, h, |k.records|)};
            Covering(b, Known(Appended(k.records, found, node), queue, best, k.interrupted))
  {
    var key := KeyFor(node.g, h, |k.records|);
    var after := Known(Appended(k.records, found, node), k.queue + multiset{key}, best, k.interrupted);
    AppendCarries(k, found, node, after.queue, best);
    forall id: nat | id < |after.records| && !after.records[id].superseded
      ensures Covered(b, after, id)
    {
      if id < |k.records| {
        KeptWait(b, k, after, id);
        CoveredCarries(b, k, after, id);
      } else {
        AdmissibleCovers(b, after, id, key);
      }
    }
  }

  /** A solved record kept in the spare slot, unqueued, is covered by being the incumbent. */
  lemma SpareCovers(b: Board, k: Known, found: Option<nat>, node: Node)
    requires Covering(b, k) && Improves(k.records, found, node)
    requires k.best.Some? ==> node.g <= k.best.value
    ensures Covering(b, Known(Appended(k.records, found, node), k.queue, Some(node.g), k.interrupted))
  {
    var after := Known(Appended(k.records, found, node), k.queue, Some(node.g), k.interrupted);
    AppendCarries(k, found, node, k.queue, Some(node.g));
    forall id: nat | id < |after.records| && !after.records[id].superseded
      ensures Covered(b, after, id)
    {
      if id < |k.records| {
        KeptWait(b, k, after, id);
        CoveredCarries(b, k, after, id);
      } else {
        BestCovers(b, after, id);
      }
    }
  }

  /** Nothing through a record at or past the incumbent's cost improves on it. */
  lemma BestCovers(b: Board, k: Known, id: nat)
    requires id < |k.records| && k.best.Some? && k.best.value <= k.records[id].node.g
    ensures Covered(b, k, id)
  {
  }

  /** The first pushes of `id` are accounted for without its own queue entry, those whose child
      a partial expansion left out by `deferred`. */
  ghost predicate FollowedUpTo(b: Board, k: Known, id: nat, i: nat, d: nat, deferred: Option<nat>)
    requires id < |k.records|
  {
    var r := k.records[id].node;
    forall dirs, rest {:trigger WalkToPush(b, r.state, i, d, dirs), SolvesIn(b, Child(b, r.state, i, d), rest)} ::
      WalkToPush(b, r.state, i, d, dirs) && SolvesIn(b, Child(b, r.state, i, d), rest) ==>
        FollowedOrDeferred(b, k, id, i, d, |dirs|, rest, deferred)
  }

  ghost predicate FollowedOrDeferred(b: Board, k: Known, id: nat, i: nat, d: nat, walk: nat, rest: nat,
                                     deferred: Option<nat>)
    requires id < |k.records| && i < |k.records[id].node.state.boxes|
  {
    var r := k.records[id].node;
    || (deferred.Some? && deferred.value <= r.g + walk + 1 + rest)
    || Excused(k, r.g + walk + 1 + rest)
    || Stored(b, k, Child(b, r.state, i, d), r.g + walk + 1)
  }

  lemma FollowedCarries(b: Board, k: Known, after: Known, id: nat, i: nat, d: nat, deferred: Option<nat>,
                        later: Option<nat>)
    requires Carried(k, after) && id < |k.records| && FollowedUpTo(b, k, id, i, d, deferred)
    requires deferred.Some? ==> later.Some? && later.value <= deferred.value
    ensures FollowedUpTo(b, after, id, i, d, later)
  {
    var r := k.records[id].node;
    forall dirs, rest | WalkToPush(b, r.state, i, d, dirs) && SolvesIn(b, Child(b, r.state, i, d), rest)
      ensures FollowedOrDeferred(b, after, id, i, d, |dirs|, rest, later)
    {
      assert FollowedOrDeferred(b, k, id, i, d, |dirs|, rest, deferred);
      if Stored(b, k, Child(b, r.state, i, d), r.g + |dirs| + 1) {
        StoredCarries(b, k, after, Child(b, r.state, i, d), r.g + |dirs| + 1);
      }
    }
  }

  /** The queue without one entry, and with one more. */
  function Without(k: Known, key: Key): Known {
    k.(queue := k.queue - multiset{key})
  }

  function Requeued(k: Known, key: Key): Known {
    k.(queue := k.queue + multiset{key})
  }

  /** Dropping a popped entry costs nothing when its record is stale or covered without it. */
  lemma DropCovers(b: Board, k: Known, key: Key)
    requires Covering(b, Requeued(k, key)) && key.id < |k.records|
    requires k.records[key.id].superseded || Covered(b, k, key.id)
    ensures Covering(b, k)
  {
    forall id: nat | id < |k.records| && !k.records[id].superseded
      ensures Covered(b, k, id)
    {
      if id != key.id {
        KeptWait(b, Requeued(k, key), k, id);
        assert Carried(Requeued(k, key), k) by { SameCarries(Requeued(k, key), k); }
        CoveredCarries(b, Requeued(k, key), k, id);
      }
    }
  }

  lemma SameCarries(k: Known, after: Known)
    requires after.records == k.records && (k.best.Some? ==> after.best.Some? && after.best.value <= k.best.value)
    requires k.interrupted.Some? ==> after.interrupted == k.interrupted
    ensures Carried(k, after)
  {
    forall q: nat | q < |k.records| && !k.records[q].superseded
      ensures Replaced(k, after, q)
    {
      assert !after.records[q].superseded;
    }
  }

  /** After an expansion the record needs no entry of its own, but for one at or below whatever was
      postponed: each solution through it starts with a push that was followed or postponed. */
  lemma ExpandedCovers(b: Board, k: Known, id: nat, deferred: Option<nat>, after: Known)
    requires ValidRecords(b, k.records)
    requires id < |k.records| && !Solved(b, k.records[id].node.state)
    requires forall i: nat, d: nat {:trigger FollowedUpTo(b, k, id, i, d, deferred)} ::
               i < |k.records[id].node.state.boxes| && d < 4 ==> FollowedUpTo(b, k, id, i, d, deferred)
    requires Carried(k, after)
    requires deferred.Some? ==> deferred.value >= k.records[id].node.g
    requires deferred.Some? ==> KeyFor(k.records[id].node.g, deferred.value - k.records[id].node.g, id) in after.queue
    ensures Covered(b, after, id)
  {
    var r := k.records[id].node;
    forall i, d, dirs, rest | WalkToPush(b, r.state, i, d, dirs) && SolvesIn(b, Child(b, r.state, i, d), rest)
      ensures Followed(b, after, id, i, d, |dirs|, rest)
    {
      assert FollowedUpTo(b, k, id, i, d, deferred);
      assert FollowedOrDeferred(b, k, id, i, d, |dirs|, rest, deferred);
      if deferred.Some? && deferred.value <= r.g + |dirs| + 1 + rest {
        var again := KeyFor(r.g, deferred.value - r.g, id);
        assert again in after.queue && again.id == id && r.g + again.h <= deferred.value;
      } else if !Excused(k, r.g + |dirs| + 1 + rest) {
        StoredCarries(b, k, after, Child(b, r.state, i, d), r.g + |dirs| + 1);
      }
    }
  }

  /** An expansion cut short is covered by the f it was popped at, at least one move more than
      its cost. */
  lemma InterruptCovers(b: Board, k: Known, key: Key, f: nat)
    requires Covering(b, Requeued(k, key)) && key.id < |k.records| && k.interrupted.None?
    requires f == k.records[key.id].node.g + (if key.h == 0 then 1 else key.h)
    requires !Solved(b, k.records[key.id].node.state)
    ensures Covering(b, k.(interrupted := Some(f)))
  {
    var before, after := Requeued(k, key), k.(interrupted := Some(f));
    SameCarries(before, after);
    forall id: nat | id < |k.records| && !k.records[id].superseded
      ensures Covered(b, after, id)
    {
      if id != key.id {
        KeptWait(b, before, after, id);
        CoveredCarries(b, before, after, id);
      } else {
        InterruptedEdges(b, k, key, f);
      }
    }
  }

  lemma InterruptedWait(k: Known, key: Key, f: nat, cost: nat)
    requires key.id < |k.records| && Waiting(Requeued(k, key), key.id, cost) && k.records[key.id].node.g < cost
    requires f == k.records[key.id].node.g + (if key.h == 0 then 1 else key.h)
    ensures Waiting(k.(interrupted := Some(f)), key.id, cost) || Excused(k.(interrupted := Some(f)), cost)
  {
    var x :| x in Requeued(k, key).queue && x.id == key.id && k.records[key.id].node.g + x.h <= cost;
    if x != key { assert x in k.(interrupted := Some(f)).queue; }
  }

  lemma InterruptedEdges(b: Board, k: Known, key: Key, f: nat)
    requires key.id < |k.records| && Covered(b, Requeued(k, key), key.id) && k.interrupted.None?
    requires f == k.records[key.id].node.g + (if key.h == 0 then 1 else key.h)
    requires !Solved(b, k.records[key.id].node.state)
    ensures Covered(b, k.(interrupted := Some(f)), key.id)
  {
    var before, after := Requeued(k, key), k.(interrupted := Some(f));
    SameCarries(before, after);
    forall cost: nat | Waiting(before, key.id, cost) && cost > k.records[key.id].node.g
      ensures Waiting(after, key.id, cost) || Excused(after, cost)
    {
      InterruptedWait(k, key, f, cost);
    }
    CoveredCarries(b, before, after, key.id);
  }

  /** A record without a solution is covered by nothing. */
  lemma UnsolvableCovers(b: Board, k: Known, id: nat)
    requires b.ValidTable() && id < |k.records| && ValidState(b, k.records[id].node.state)
    requires !Solvable(b, k.records[id].node.state)
    ensures Covered(b, k, id)
  {
    var r := k.records[id].node;
    assert Play(b, r.state, []) == Some(r.state);
    assert Solution(b, r.state, []) <==> Solved(b, r.state);
    forall i, d, dirs, rest | WalkToPush(b, r.state, i, d, dirs)
      ensures !SolvesIn(b, Child(b, r.state, i, d), rest)
    {
      if SolvesIn(b, Child(b, r.state, i, d), rest) { ChildSolutionExtends(b, r.state, i, d, dirs, rest); }
    }
  }
}
