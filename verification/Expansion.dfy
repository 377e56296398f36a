/** What a pop and an expansion do to what an exact search knows (engine.rs, push.rs), on values:
    the entry taken out, the pushes dropped, the children left out or inserted, and what each of
    these keeps. */
module Expansions {
  import opened Rules
  import opened Bfs
  import opened Reach
  import opened DeadCells
  import opened Deadlocks
  import opened PushGraph
  import opened Arenas
  import opened Frontiers
  import opened Pushes
  import opened ExactTheory
  import Corrals

  /** A missing frontier: nothing is left to expand. */
  const NO_FRONTIER: nat := 0xFFFF_FFFF_FFFF_FFFF

  /** All that stays fixed while a node is expanded; `rooms` prices states once the room bound is
      attached. */
  datatype Setting = Setting(b: Board, start: State, e: Estimates, h: Heuristic, rooms: State -> Option<nat>,
                             limit: nat, partialAt: nat)
  {
    ghost predicate Valid() {
      && b.Valid() && Exact(b, h) && ValidState(b, start)
      && Sound(b, start, e) && RoomsSound(b, start, rooms)
    }
  }

  /** One expansion: the entry popped, its node, the keeper's flood and whether it is partial. */
  datatype Task = Task(key: Key, node: Node, reach: Flood, partial: bool)

  /** Where an expansion stands: what the search knows, the least f left out so far, and
      whether a limit ended the search. */
  datatype Effect = Effect(k: Known, deferred: Option<nat>, stopped: bool)

  /** Until there is a room bound, every price is zero. */
  function NoRooms(s: State): Option<nat> {
    Some(0)
  }

  /** The incumbent's cost. */
  function BestOf(records: seq<Record>, incumbent: Option<nat>): Option<nat> {
    if incumbent.Some? && incumbent.value < |records| then Some(records[incumbent.value].node.g) else None
  }

  /** The incumbent is a stored solved record. */
  ghost predicate HoldsIncumbent(b: Board, records: seq<Record>, incumbent: Option<nat>) {
    incumbent.Some? ==> incumbent.value < |records| && Solved(b, records[incumbent.value].node.state)
  }

  lemma IncumbentKept(b: Board, records: seq<Record>, after: seq<Record>, incumbent: Option<nat>)
    requires HoldsIncumbent(b, records, incumbent) && |records| <= |after|
    requires forall i | 0 <= i < |records| :: after[i].node == records[i].node
    ensures HoldsIncumbent(b, after, incumbent) && BestOf(after, incumbent) == BestOf(records, incumbent)
  {
  }

  // ---------------------------------------------------------------- what a search keeps

  /** Sound, and every solution accounted for. */
  ghost predicate Kept(x: Setting, k: Known) {
    Consistent(x.b, x.start, x.e, k) && Covering(x.b, k)
  }

  /** What each status promises. */
  ghost predicate Promises(x: Setting, k: Known, status: Status, starved: bool) {
    && (status.Running? ==> k.interrupted.None? && !starved && |k.records| <= x.limit)
    && (status.SolvedStop? ==>
          k.interrupted.None? && k.best.Some? && forall key | key in k.queue :: Min(k.best.value, F_SAT) <= key.f)
    && (status.Exhausted? ==> k.interrupted.None? && k.best.None? && k.queue == multiset{})
  }

  /** Everything is accounted for with `key`, now taken out, still queued. */
  ghost predicate Held(x: Setting, k: Known, key: Key) {
    && Kept(x, Requeued(k, key)) && key.id < |k.records| && k.interrupted.None?
    && KeyFits(x.b, k.records, key)
  }

  /** In the middle of expanding the record `key` names. */
  ghost predicate Midway(x: Setting, k: Known, key: Key) {
    Held(x, k, key) && !Solved(x.b, k.records[key.id].node.state)
  }

  /** The record under expansion is sound. */
  lemma NodeIsGood(x: Setting, k: Known, key: Key)
    requires Held(x, k, key)
    ensures GoodNode(x.b, x.start, x.e, k.records[key.id].node)
    ensures x.e.estimate(k.records[key.id].node.state).Some?
  {
    assert key in Requeued(k, key).queue;
    assert KeyEstimated(x.e, Requeued(k, key).records, key);
    assert GoodNode(x.b, x.start, x.e, Requeued(k, key).records[key.id].node);
  }

  // ---------------------------------------------------------------- the start

  /** The arena holds the start alone, at no cost. */
  ghost predicate HoldsStart(x: Setting, records: seq<Record>) {
    && |records| == 1 && !records[0].superseded && records[0].node.state == x.start && records[0].node.g == 0
    && GoodNode(x.b, x.start, x.e, records[0].node)
  }

  /** The start queued at an admissible h. */
  lemma SeedQueued(x: Setting, k: Known, h: nat)
    requires x.Valid() && Admissible(x.b, x.start, h) && x.e.estimate(x.start).Some?
    requires HoldsStart(x, k.records) && k.queue == multiset{KeyFor(0, h, 0)}
    ensures Kept(x, k)
  {
    AdmissibleCovers(x.b, k, 0, KeyFor(0, h, 0));
    SolvedAtZero(x.b, x.start, h);
  }

  /** The start alone, with no solution and nothing queued. */
  lemma SeedUnsolvable(x: Setting, k: Known)
    requires x.Valid() && !Solvable(x.b, x.start)
    requires HoldsStart(x, k.records) && k.queue == multiset{}
    ensures Kept(x, k)
  {
    UnsolvableCovers(x.b, k, 0);
  }

  // ---------------------------------------------------------------- pops

  /** What a popped entry asks for. */
  datatype Verdict = Stale | Goal | Dominated | Expandable

  /** An entry of a superseded record is stale, a solved one ends the search, and one that
      costs the incumbent's moves or more is skipped. */
  function VerdictOf(b: Board, k: Known, key: Key): Verdict
    requires key.id < |k.records|
  {
    var record := k.records[key.id];
    if record.superseded then Stale
    else if key.h == 0 && Solved(b, record.node.state) then Goal
    else if k.best.Some? && record.node.g >= k.best.value then Dominated
    else Expandable
  }

  /** A least entry of the queue. */
  ghost predicate IsLeast(queue: multiset<Key>, key: Key) {
    key in queue && forall other | other in queue :: !Precedes(other, key)
  }

  /** What judging an entry leaves: the shorter of its cost and the incumbent's when it is a
      goal, everything as it was otherwise. */
  function Judged(b: Board, k: Known, key: Key): Known
    requires key.id < |k.records|
  {
    if VerdictOf(b, k, key).Goal? then k.(best := Lesser(k.best, k.records[key.id].node.g)) else k
  }

  /** `taken` left the queue of `k`, and its verdict followed: `after` is what the search then
      knows, and `key` the entry to expand. */
  ghost predicate PopOf(b: Board, k: Known, taken: Key, after: Known, status: Status, key: Option<Key>) {
    && IsLeast(k.queue, taken) && taken.h <= MAX_QUEUED_H && taken.id < |k.records|
    && var verdict := VerdictOf(b, Without(k, taken), taken);
       && after == Judged(b, Without(k, taken), taken)
       && status == (if verdict.Goal? then SolvedStop else Running)
       && key == if verdict.Expandable? then Some(taken) else None
  }

  lemma TakenOut(x: Setting, k: Known, key: Key)
    requires Kept(x, k) && k.interrupted.None? && IsLeast(k.queue, key)
    ensures Held(x, Without(k, key), key) && key.h <= MAX_QUEUED_H
    ensures forall other | other in Without(k, key).queue :: !Precedes(other, key)
  {
    assert KeyFits(x.b, k.records, key);
    assert Requeued(Without(k, key), key) == k;
  }

  /** A stale or dominated entry may go, a goal ends the search, and the rest are expanded. */
  lemma JudgedKeeps(x: Setting, k: Known, key: Key)
    requires Held(x, k, key) && forall other | other in k.queue :: !Precedes(other, key)
    ensures VerdictOf(x.b, k, key).Expandable? ==> Midway(x, k, key)
    ensures !VerdictOf(x.b, k, key).Expandable? ==> Kept(x, Judged(x.b, k, key))
    ensures VerdictOf(x.b, k, key).Goal? ==> Promises(x, Judged(x.b, k, key), SolvedStop, false)
  {
    match VerdictOf(x.b, k, key)
    case Stale => Drop(x.b, x.start, x.e, k, key);
    case Goal => GoalTaken(x, k, key);
    case Dominated =>
      BestCovers(x.b, k, key.id);
      Drop(x.b, x.start, x.e, k, key);
    case Expandable =>
  }

  /** Taking a popped solved record as the incumbent, unless there is one no longer. */
  lemma GoalTaken(x: Setting, k: Known, key: Key)
    requires Held(x, k, key) && forall other | other in k.queue :: !Precedes(other, key)
    requires key.h == 0
    ensures var after := k.(best := Lesser(k.best, k.records[key.id].node.g));
            Kept(x, after) && Promises(x, after, SolvedStop, false)
  {
    var best := Lesser(k.best, k.records[key.id].node.g).value;
    BetterBest(x.b, x.start, x.e, Requeued(k, key), best);
    assert Requeued(k, key).(best := Some(best)) == Requeued(k.(best := Some(best)), key);
    BestCovers(x.b, k.(best := Some(best)), key.id);
    Drop(x.b, x.start, x.e, k.(best := Some(best)), key);
  }

  /** A pop keeps every solution accounted for. */
  lemma PopKeeps(x: Setting, k: Known, taken: Key, after: Known, status: Status, key: Option<Key>)
    requires Kept(x, k) && k.interrupted.None? && |k.records| <= x.limit && PopOf(x.b, k, taken, after, status, key)
    ensures key.Some? ==> Midway(x, after, key.value)
    ensures key.None? ==> Kept(x, after) && Promises(x, after, status, false)
  {
    TakenOut(x, k, taken);
    JudgedKeeps(x, Without(k, taken), taken);
  }

  // ---------------------------------------------------------------- prunes

  /** Some box's corral is dead. */
  ghost predicate HasDeadCorral(x: Setting, boxes: seq<Cell>, reach: Flood)
    requires |boxes| == |x.b.labels|
  {
    exists i :: 0 <= i < |boxes| &&
      Corrals.DeadCorral(x.b, x.h, boxes, CellSet(reach.cells),
        Corrals.CorralCells(x.b, CellSet(reach.cells), boxes[i]))
  }

  /** The dead cells or the incumbent rule a push out before its child is built. */
  predicate RuledOut(x: Setting, best: Option<nat>, node: Node, i: nat, d: nat, walk: nat)
    requires i < |node.state.boxes|
  {
    || x.e.deadAfter(i, x.b.Next(node.state.boxes[i], d), d)
    || (best.Some? && PushG(node.g, walk) >= best.value)
  }

  /** The push freezes a box of its component off its goal, every box taking part. */
  ghost predicate Frozen(x: Setting, node: Node, i: nat, d: nat)
    requires i < |node.state.boxes| == |x.b.labels|
  {
    DeadAfterPush(x.b, x.h, Child(x.b, node.state, i, d).boxes, Below(|x.b.labels|), i)
  }

  /** What drops a push before its child is built. */
  ghost predicate Screened(x: Setting, best: Option<nat>, node: Node, i: nat, d: nat, walk: nat)
    requires i < |node.state.boxes| == |x.b.labels|
  {
    RuledOut(x, best, node, i, d, walk) || Frozen(x, node, i, d)
  }

  /** The latest version of the state costs no more than `g`. */
  ghost predicate Duplicated(records: seq<Record>, next: State, g: nat) {
    exists id: nat :: IsLatest(records, 0, next, id) && records[id].node.g <= g
  }

  /** The h to queue a child with, or None when it cannot beat the incumbent. */
  function Price(x: Setting, next: State, g: nat, estimate: Option<nat>, best: Option<nat>): Option<nat> {
    if estimate.None? then None
    else
      var m := estimate.value;
      if best.Some? && g + m >= best.value then None
      else if m > 0 && best.Some? && x.e.standWalk(next) >= best.value - g - m then None
      else
        var s := x.rooms(next);
        if s.None? then None
        else if s.value <= m then Some(m)
        else if best.Some? && g + s.value >= best.value then None
        else Some(Min(s.value, MAX_QUEUED_H))
  }

  /** `next` is the child with its boxes in canonical order. */
  ghost predicate Settles(b: Board, child: State, next: State) {
    ValidState(b, next) && CanonicalState(b, next) && SamePosition(b, child, next)
  }

  /** What drops a built child: a duplicate no dearer, or no price that beats the incumbent. */
  ghost predicate Barred(x: Setting, k: Known, child: State, g: nat) {
    exists next :: Settles(x.b, child, next) &&
      (Duplicated(k.records, next, g) || Price(x, next, g, x.e.estimate(next), k.best).None?)
  }

  /** The child as it is stored: settled, at `g` under the parent, at its price. */
  ghost predicate Priced(x: Setting, k: Known, id: nat, c: Admitted, child: State, g: nat, d: nat) {
    && Settles(x.b, child, c.node.state)
    && c.node == Node(c.node.state, g, Some(id), d, StoredH(x.e.estimate(c.node.state)))
    && !Duplicated(k.records, c.node.state, g)
    && Price(x, c.node.state, g, x.e.estimate(c.node.state), k.best) == Some(c.h)
    && (c.found.Some? ==> IsLatest(k.records, 0, c.node.state, c.found.value))
    && (c.found.None? ==> Absent(k.records, 0, c.node.state))
  }

  /** A child is either dropped or stored: it settles in one way only. */
  lemma PricedIsNotBarred(x: Setting, k: Known, id: nat, c: Admitted, child: State, g: nat, d: nat)
    requires x.b.Valid() && Priced(x, k, id, c, child, g, d)
    ensures !Barred(x, k, child, g)
  {
    forall next | Settles(x.b, child, next) ensures next == c.node.state {
      CanonicalStateIsUnique(x.b, next, c.node.state);
    }
  }

  /** A child that may be stored: sound, able to beat the incumbent, and cheaper than any
      version of its state. */
  ghost predicate Storable(x: Setting, k: Known, c: Admitted) {
    && GoodNode(x.b, x.start, x.e, c.node) && x.e.estimate(c.node.state).Some?
    && Admissible(x.b, c.node.state, c.h) && (k.best.Some? ==> c.node.g + c.h < k.best.value)
    && Improves(k.records, c.found, c.node)
  }

  /** A push the freeze check flags leads nowhere. */
  lemma FreezeDismisses(b: Board, h: Heuristic, s: State, i: nat, d: nat, who: set<nat>)
    requires b.Valid() && Exact(b, h) && ValidState(b, s) && Pushable(b, s, i, d) && ValidState(b, Child(b, s, i, d))
    requires DeadAfterPush(b, h, s.boxes[i := b.Next(s.boxes[i], d)], who, i)
    ensures !Solvable(b, Child(b, s, i, d))
  {
    var child := Child(b, s, i, d);
    forall p | p in PlacedAmong(b, child.boxes, who) ensures p in Pairs(b, child) {
      var j: nat :| j in who && j < |child.boxes| && p == (b.labels[j], child.boxes[j]);
    }
    DeadAfterPushIsSound(b, h, child.boxes, who, i, child);
  }

  /** A push the dead cells rule out leads nowhere. */
  lemma DeadCellDismisses(x: Setting, s: State, i: nat, d: nat, dirs: seq<nat>)
    requires x.Valid() && ValidState(x.b, s) && FromStart(x.b, x.start, s)
    requires WalkToPush(x.b, s, i, d, dirs) && x.e.deadAfter(i, x.b.Next(s.boxes[i], d), d)
    ensures !Solvable(x.b, Child(x.b, s, i, d))
  {
    PushPlays(x.b, s, i, d, dirs);
    var n: nat :| ReachedIn(x.b, x.start, s, n);
    ChildReached(x.b, x.start, s, n, i, d, dirs, Child(x.b, s, i, d));
    assert SoundAt(x.b, x.e, s) && SoundAt(x.b, x.e, Child(x.b, s, i, d));
    assert PushSound(x.b, x.e, s, i, d);
  }

  lemma ChildIsValid(b: Board, s: State, i: nat, d: nat, walk: nat)
    requires b.ValidTable() && ValidState(b, s) && NearestStand(b, s, i, d, walk)
    ensures ValidState(b, Child(b, s, i, d))
  {
    var dirs :| WalkToPush(b, s, i, d, dirs) && |dirs| == walk;
    PushPlays(b, s, i, d, dirs);
  }

  /** A settled child, reached at the nearest stand's cost with charge 0. */
  lemma SettledChild(x: Setting, node: Node, i: nat, d: nat, walk: nat, next: State)
    requires x.Valid() && GoodNode(x.b, x.start, x.e, node) && x.e.estimate(node.state).Some?
    requires NearestStand(x.b, node.state, i, d, walk) && Settles(x.b, Child(x.b, node.state, i, d), next)
    ensures CostOf(x.b, x.start, next, PushG(node.g, walk)) && FromStart(x.b, x.start, next)
    ensures x.e.charge(next.player) == 0
  {
    var dirs :| WalkToPush(x.b, node.state, i, d, dirs) && |dirs| == walk;
    ChildCost(x.b, x.start, node.state, node.g, i, d, dirs, next);
    assert SoundAt(x.b, x.e, node.state);
  }

  /** Refusing a price loses no solution, and a price is admissible and beats the incumbent. */
  lemma PriceIsFair(x: Setting, next: State, g: nat, k: Known)
    requires x.Valid() && ValidState(x.b, next) && FromStart(x.b, x.start, next) && x.e.charge(next.player) == 0
    ensures var r := Price(x, next, g, x.e.estimate(next), k.best);
            && (r.None? ==> Dismissed(x.b, k, next, g))
            && (r.Some? ==> x.e.estimate(next).Some? && Admissible(x.b, next, r.value))
            && (r.Some? && k.best.Some? ==> g + r.value < k.best.value)
  {
    assert SoundAt(x.b, x.e, next);
    if x.e.estimate(next).None? {
      UnsolvableDismissed(x.b, k, next, g);
    } else {
      var m := x.e.estimate(next).value;
      EstimateIsAdmissible(x.b, x.start, x.e, next);
      SolvedAtZero(x.b, next, m);
      if k.best.Some? && g + m >= k.best.value {
        BoundDismissed(x.b, k, next, g, m);
      } else if m > 0 && k.best.Some? && x.e.standWalk(next) >= k.best.value - g - m {
        BoundDismissed(x.b, k, next, g, m + x.e.standWalk(next));
      } else if x.rooms(next).None? {
        UnsolvableDismissed(x.b, k, next, g);
      } else if k.best.Some? && g + x.rooms(next).value >= k.best.value {
        BoundDismissed(x.b, k, next, g, x.rooms(next).value);
      }
    }
  }

  // ---------------------------------------------------------------- one push

  /** The static check: floor ahead that no box blocks, and a stand the keeper reaches. */
  predicate Legal(b: Board, t: Task, i: nat, d: nat)
    requires i < |t.node.state.boxes|
  {
    var to, stand := b.Next(t.node.state.boxes[i], d), Stand(b, t.node.state, i, d);
    to != NONE && stand != NONE && to !in t.node.state.boxes && t.reach.Reached(stand)
  }

  function WalkOf(b: Board, t: Task, i: nat, d: nat): nat
    requires i < |t.node.state.boxes| && Legal(b, t, i, d)
  {
    t.reach.distance[Stand(b, t.node.state, i, d)]
  }

  /** A legal push's walk is the shortest to its stand; no walk leads to any other's. */
  ghost predicate StandKnown(b: Board, t: Task, i: nat, d: nat)
    requires i < |t.node.state.boxes|
  {
    && (Legal(b, t, i, d) ==> NearestStand(b, t.node.state, i, d, WalkOf(b, t, i, d)))
    && (!Legal(b, t, i, d) ==> forall dirs :: !WalkToPush(b, t.node.state, i, d, dirs))
  }

  /** The flood tells for every push whether its stand is reached, and how far it is. */
  ghost predicate Surveyed(b: Board, t: Task) {
    forall i: nat, d: nat {:trigger StandKnown(b, t, i, d)} | i < |t.node.state.boxes| && d < 4 ::
      StandKnown(b, t, i, d)
  }

  lemma FloodSurveys(b: Board, t: Task)
    requires b.Valid() && ValidState(b, t.node.state)
    requires IsFill(b, CellSet(t.node.state.boxes), t.node.state.player, t.reach)
    ensures Surveyed(b, t)
  {
    forall i: nat, d: nat | i < |t.node.state.boxes| && d < 4 ensures StandKnown(b, t, i, d) {
      if Pushable(b, t.node.state, i, d) { FloodedStand(b, t.node.state, i, d, t.reach); }
    }
  }

  /** The expansion under way: its node read, its keeper flooded. */
  ghost predicate Working(x: Setting, k: Known, t: Task) {
    && Midway(x, k, t.key) && t.node == k.records[t.key.id].node
    && |t.node.state.boxes| == |x.b.labels| && Surveyed(x.b, t)
    && (t.partial ==> t.node.g > 0 && t.key.h < MAX_QUEUED_H)
  }

  /** An expansion about to make its pushes. */
  ghost predicate Begun(x: Setting, k: Known, t: Task) {
    x.Valid() && Versions(k.records, 0) && Working(x, k, t)
  }

  /** The f a partial expansion leaves a push out at before building its child. */
  function LeftOut(x: Setting, t: Task, i: nat, d: nat, walk: nat): (r: Option<nat>)
    requires i < |t.node.state.boxes|
    ensures r.Some? ==> t.partial && t.node.g + t.key.h < r.value
  {
    var parentH := x.e.estimate(t.node.state);
    if !t.partial || parentH.None? then None
    else
      var excess := Excess(x.e, Stand(x.b, t.node.state, i, d), walk, parentH.value);
      if excess.Some? && t.node.g + parentH.value + excess.value > t.node.g + t.key.h
      then Some(t.node.g + parentH.value + excess.value)
      else None
  }

  /** A full arena keeps a solved child alone, in its spare slot, and the search stops at `f`. */
  function InsertedFull(k: Known, f: nat, c: Admitted, goal: bool): Known
    requires c.found.Some? ==> c.found.value < |k.records|
  {
    Known(if goal then Appended(k.records, c.found, c.node) else k.records, k.queue,
          if goal then Some(c.node.g) else k.best, Some(f))
  }

  /** Below the limit the child is stored, queued and, solved, the incumbent; the search stops
      at `f` when the arena then starves. */
  function InsertedBelow(k: Known, f: nat, c: Admitted, goal: bool, stopped: bool): Known
    requires c.found.Some? ==> c.found.value < |k.records|
  {
    Known(Appended(k.records, c.found, c.node), k.queue + multiset{KeyFor(c.node.g, c.h, |k.records|)},
          if goal then Some(c.node.g) else k.best, if stopped then Some(f) else k.interrupted)
  }

  /** What inserting an admitted child leaves. */
  ghost predicate Inserted(x: Setting, t: Task, k: Known, c: Admitted, after: Known, stopped: bool) {
    && (c.found.Some? ==> c.found.value < |k.records|)
    && var goal, f := c.h == 0 && Solved(x.b, c.node.state), LimitF(t.node.g, t.key.h);
       if |k.records| >= x.limit then stopped && after == InsertedFull(k, f, c, goal)
       else after == InsertedBelow(k, f, c, goal, stopped)
  }

  /** The children a partial expansion postpones: not solved, and costlier than the entry popped. */
  predicate PastF(t: Task, c: Admitted) {
    t.partial && c.h > 0 && c.node.g + c.h > t.node.g + t.key.h
  }

  /** What an admitted child leaves: the least f left out lowered, or an insert. */
  ghost predicate ChildOutcome(x: Setting, t: Task, before: Effect, c: Admitted, after: Effect) {
    if PastF(t, c) then after == before.(deferred := Lesser(before.deferred, c.node.g + c.h))
    else after.deferred == before.deferred && Inserted(x, t, before.k, c, after.k, after.stopped)
  }

  /** A child some prune drops changes nothing; any other is stored or left out at its price. */
  ghost predicate Tried(x: Setting, t: Task, before: Effect, i: nat, d: nat, walk: nat, after: Effect)
    requires i < |t.node.state.boxes| == |x.b.labels|
  {
    var child, g := Child(x.b, t.node.state, i, d), PushG(t.node.g, walk);
    if Screened(x, before.k.best, t.node, i, d, walk) || Barred(x, before.k, child, g) then after == before
    else exists c :: Priced(x, before.k, t.key.id, c, child, g, d) && ChildOutcome(x, t, before, c, after)
  }

  /** What one push of an expansion leaves. */
  ghost predicate Pushed(x: Setting, t: Task, before: Effect, i: nat, d: nat, after: Effect)
    requires i < |t.node.state.boxes| == |x.b.labels|
  {
    if Legal(x.b, t, i, d) then PushedLegal(x, t, before, i, d, WalkOf(x.b, t, i, d), after) else after == before
  }

  /** A legal push may be left out before its child is built. */
  ghost predicate PushedLegal(x: Setting, t: Task, before: Effect, i: nat, d: nat, walk: nat, after: Effect)
    requires i < |t.node.state.boxes| == |x.b.labels|
  {
    var out := LeftOut(x, t, i, d, walk);
    if out.Some? then after == before.(deferred := Lesser(before.deferred, out.value))
    else Tried(x, t, before, i, d, walk, after)
  }

  /** Pushes before box `i`, and box `i`'s before direction `d`, are followed or left out. */
  ghost predicate UnderWay(x: Setting, t: Task, now: Effect, i: nat, d: nat) {
    && Working(x, now.k, t) && !now.stopped && AllFollowed(x.b, now.k, t.key.id, i, d, now.deferred)
    && (now.deferred.Some? ==> t.partial && t.node.g + t.key.h < now.deferred.value)
  }

  /** A push that goes on: nothing is lost, and the push itself is followed or left out. */
  ghost predicate Onward(x: Setting, t: Task, before: Effect, i: nat, d: nat, after: Effect)
    requires t.key.id < |after.k.records|
  {
    && Working(x, after.k, t) && !after.stopped && Carried(before.k, after.k)
    && FollowedUpTo(x.b, after.k, t.key.id, i, d, after.deferred)
    && (before.deferred.Some? ==> after.deferred.Some? && after.deferred.value <= before.deferred.value)
    && (after.deferred.Some? ==> t.partial && t.node.g + t.key.h < after.deferred.value)
  }

  /** An illegal push, or one left out unbuilt, goes on. */
  lemma UnbuiltGoesOn(x: Setting, t: Task, before: Effect, i: nat, d: nat, after: Effect)
    requires x.Valid() && UnderWay(x, t, before, i, d) && i < |x.b.labels| && d < 4
    requires Pushed(x, t, before, i, d, after)
    requires Legal(x.b, t, i, d) ==> LeftOut(x, t, i, d, WalkOf(x.b, t, i, d)).Some?
    ensures Onward(x, t, before, i, d, after)
  {
    assert StandKnown(x.b, t, i, d);
    SameCarries(before.k, before.k);
    if Legal(x.b, t, i, d) {
      NodeIsGood(x, before.k, t.key);
      var walk := WalkOf(x.b, t, i, d);
      var excess := Excess(x.e, Stand(x.b, t.node.state, i, d), walk, x.e.estimate(t.node.state).value);
      ExcessDefers(x.b, x.start, x.e, before.k, t.key.id, i, d, walk, excess.value, after.deferred.value);
    } else {
      IllegalFollowed(x.b, before.k, t.key.id, i, d, after.deferred);
    }
  }

  /** Dropping a push before its child is built loses no solution. */
  lemma ScreenedIsFair(x: Setting, k: Known, t: Task, i: nat, d: nat, walk: nat)
    requires x.Valid() && Working(x, k, t) && NearestStand(x.b, t.node.state, i, d, walk)
    requires Screened(x, k.best, t.node, i, d, walk)
    ensures Dismissed(x.b, k, Child(x.b, t.node.state, i, d), PushG(t.node.g, walk))
  {
    NodeIsGood(x, k, t.key);
    var s, child := t.node.state, Child(x.b, t.node.state, i, d);
    if x.e.deadAfter(i, x.b.Next(s.boxes[i], d), d) {
      var dirs :| WalkToPush(x.b, s, i, d, dirs) && |dirs| == walk;
      DeadCellDismisses(x, s, i, d, dirs);
      UnsolvableDismissed(x.b, k, child, PushG(t.node.g, walk));
    } else if Frozen(x, t.node, i, d) {
      ChildIsValid(x.b, s, i, d, walk);
      FreezeDismisses(x.b, x.h, s, i, d, Below(|x.b.labels|));
      UnsolvableDismissed(x.b, k, child, PushG(t.node.g, walk));
    } else {
      BoundDismissed(x.b, k, child, PushG(t.node.g, walk), 0);
    }
  }

  /** Dropping a built child loses no solution. */
  lemma BarredIsFair(x: Setting, k: Known, t: Task, i: nat, d: nat, walk: nat)
    requires x.Valid() && Working(x, k, t) && NearestStand(x.b, t.node.state, i, d, walk) && Versions(k.records, 0)
    requires Barred(x, k, Child(x.b, t.node.state, i, d), PushG(t.node.g, walk))
    ensures Dismissed(x.b, k, Child(x.b, t.node.state, i, d), PushG(t.node.g, walk))
  {
    NodeIsGood(x, k, t.key);
    ChildIsValid(x.b, t.node.state, i, d, walk);
    var child, g := Child(x.b, t.node.state, i, d), PushG(t.node.g, walk);
    var next :| Settles(x.b, child, next) &&
      (Duplicated(k.records, next, g) || Price(x, next, g, x.e.estimate(next), k.best).None?);
    SettledChild(x, t.node, i, d, walk, next);
    if Duplicated(k.records, next, g) {
      var id: nat :| IsLatest(k.records, 0, next, id) && k.records[id].node.g <= g;
      LatestIsLive(k.records, 0, next, id);
      assert SamePosition(x.b, next, next);
      DuplicateDismissed(x.b, k, next, g, id);
    } else {
      PriceIsFair(x, next, g, k);
    }
    TwinDismissed(x.b, k, child, next, g);
  }

  /** A priced child may be stored. */
  lemma PricedIsStorable(x: Setting, k: Known, t: Task, c: Admitted, i: nat, d: nat, walk: nat)
    requires x.Valid() && Working(x, k, t) && NearestStand(x.b, t.node.state, i, d, walk) && Versions(k.records, 0)
    requires Priced(x, k, t.key.id, c, Child(x.b, t.node.state, i, d), PushG(t.node.g, walk), d)
    ensures Storable(x, k, c)
  {
    NodeIsGood(x, k, t.key);
    SettledChild(x, t.node, i, d, walk, c.node.state);
    PriceIsFair(x, c.node.state, c.node.g, k);
    if c.found.Some? { LatestIsLive(k.records, 0, c.node.state, c.found.value); }
  }

  // ---------------------------------------------------------------- inserts

  /** A child stored and queued while the expansion goes on. */
  lemma InsertGoesOn(x: Setting, k: Known, key: Key, f: nat, c: Admitted)
    requires x.Valid() && Midway(x, k, key) && Storable(x, k, c)
    ensures var after := InsertedBelow(k, f, c, c.h == 0 && Solved(x.b, c.node.state), false);
            Midway(x, after, key) && Carried(k, after) && Stored(x.b, after, c.node.state, c.node.g)
  {
    var goal := c.h == 0 && Solved(x.b, c.node.state);
    InsertKeeps(x.b, x.start, x.e, k, key, c.found, c.node, c.h, goal);
  }

  /** A solved child kept in the spare slot. */
  lemma SpareGoesOn(x: Setting, k: Known, key: Key, c: Admitted)
    requires x.Valid() && Midway(x, k, key) && Storable(x, k, c) && Solved(x.b, c.node.state)
    ensures Midway(x, Known(Appended(k.records, c.found, c.node), k.queue, Some(c.node.g), k.interrupted), key)
  {
    SpareKeeps(x.b, x.start, x.e, k, key, c.found, c.node);
  }

  /** The limit's end: the parent's expansion counts as cut short at its own f. */
  lemma StopKeeps(x: Setting, k: Known, key: Key)
    requires Midway(x, k, key)
    ensures Kept(x, k.(interrupted := Some(LimitF(k.records[key.id].node.g, key.h))))
  {
    Interrupt(x.b, x.start, x.e, k, key, LimitF(k.records[key.id].node.g, key.h));
  }

  /** An insert that stops the search keeps every solution accounted for. */
  lemma InsertStops(x: Setting, k: Known, t: Task, c: Admitted, after: Known)
    requires x.Valid() && Working(x, k, t) && Storable(x, k, c) && Inserted(x, t, k, c, after, true)
    ensures Kept(x, after)
  {
    var goal, f := c.h == 0 && Solved(x.b, c.node.state), LimitF(t.node.g, t.key.h);
    if |k.records| < x.limit {
      InsertGoesOn(x, k, t.key, f, c);
      StopKeeps(x, InsertedBelow(k, f, c, goal, false), t.key);
    } else if goal {
      SpareGoesOn(x, k, t.key, c);
      StopKeeps(x, Known(Appended(k.records, c.found, c.node), k.queue, Some(c.node.g), k.interrupted), t.key);
    } else {
      StopKeeps(x, k, t.key);
    }
  }

  /** A dropped child's push goes on. */
  lemma DroppedGoesOn(x: Setting, t: Task, before: Effect, i: nat, d: nat, walk: nat)
    requires x.Valid() && UnderWay(x, t, before, i, d) && NearestStand(x.b, t.node.state, i, d, walk)
    requires Versions(before.k.records, 0)
    requires Screened(x, before.k.best, t.node, i, d, walk)
          || Barred(x, before.k, Child(x.b, t.node.state, i, d), PushG(t.node.g, walk))
    ensures Onward(x, t, before, i, d, before)
  {
    if Screened(x, before.k.best, t.node, i, d, walk) {
      ScreenedIsFair(x, before.k, t, i, d, walk);
    } else {
      BarredIsFair(x, before.k, t, i, d, walk);
    }
    DismissedFollowed(x.b, before.k, t.key.id, i, d, walk, before.deferred);
    SameCarries(before.k, before.k);
  }

  /** An admitted child left out, or stored while the search goes on, follows its push. */
  lemma StoredGoesOn(x: Setting, t: Task, before: Effect, c: Admitted, i: nat, d: nat, walk: nat, after: Effect)
    requires x.Valid() && UnderWay(x, t, before, i, d) && NearestStand(x.b, t.node.state, i, d, walk)
    requires Storable(x, before.k, c) && ValidState(x.b, Child(x.b, t.node.state, i, d))
    requires Settles(x.b, Child(x.b, t.node.state, i, d), c.node.state) && c.node.g == PushG(t.node.g, walk)
    requires ChildOutcome(x, t, before, c, after) && !after.stopped
    ensures Onward(x, t, before, i, d, after)
  {
    if PastF(t, c) {
      SameCarries(before.k, before.k);
      ChildDefers(x.b, before.k, t.key.id, i, d, walk, c.node.state, c.h, after.deferred.value);
    } else {
      InsertGoesOn(x, before.k, t.key, LimitF(t.node.g, t.key.h), c);
      InsertFollows(x.b, before.k, after.k, t.key.id, i, d, walk, c.node.state, after.deferred);
    }
  }

  /** A priced child's push goes on unless the search stops, which keeps everything too. */
  lemma PricedGoesOn(x: Setting, t: Task, before: Effect, c: Admitted, i: nat, d: nat, walk: nat, after: Effect)
    requires x.Valid() && UnderWay(x, t, before, i, d) && NearestStand(x.b, t.node.state, i, d, walk)
    requires Versions(before.k.records, 0) && ChildOutcome(x, t, before, c, after)
    requires Priced(x, before.k, t.key.id, c, Child(x.b, t.node.state, i, d), PushG(t.node.g, walk), d)
    ensures after.stopped ==> Kept(x, after.k)
    ensures !after.stopped ==> Onward(x, t, before, i, d, after)
  {
    NodeIsGood(x, before.k, t.key);
    ChildIsValid(x.b, t.node.state, i, d, walk);
    PricedIsStorable(x, before.k, t, c, i, d, walk);
    if after.stopped {
      InsertStops(x, before.k, t, c, after.k);
    } else {
      StoredGoesOn(x, t, before, c, i, d, walk, after);
    }
  }

  /** One push of an expansion keeps every solution accounted for. */
  lemma PushedKeeps(x: Setting, t: Task, before: Effect, i: nat, d: nat, after: Effect)
    requires x.Valid() && UnderWay(x, t, before, i, d) && i < |x.b.labels| && d < 4
    requires Versions(before.k.records, 0) && Pushed(x, t, before, i, d, after)
    ensures after.stopped ==> Kept(x, after.k)
    ensures !after.stopped ==> UnderWay(x, t, after, i, d + 1)
  {
    if !Legal(x.b, t, i, d) || LeftOut(x, t, i, d, WalkOf(x.b, t, i, d)).Some? {
      UnbuiltGoesOn(x, t, before, i, d, after);
    } else {
      var walk := WalkOf(x.b, t, i, d);
      assert StandKnown(x.b, t, i, d);
      var child, g := Child(x.b, t.node.state, i, d), PushG(t.node.g, walk);
      if Screened(x, before.k.best, t.node, i, d, walk) || Barred(x, before.k, child, g) {
        DroppedGoesOn(x, t, before, i, d, walk);
      } else {
        var c :| Priced(x, before.k, t.key.id, c, child, g, d) && ChildOutcome(x, t, before, c, after);
        PricedGoesOn(x, t, before, c, i, d, walk, after);
      }
    }
    if !after.stopped {
      AllFollowedNext(x.b, before.k, after.k, t.key.id, i, d, before.deferred, after.deferred);
    }
  }

  // ---------------------------------------------------------------- a push, spelled out

  /** A push the rules allow after a shortest walk of `walk` moves, and its child in canonical
      order. */
  ghost predicate AtHand(b: Board, s: State, i: nat, d: nat, walk: nat, next: State) {
    && ValidState(b, s) && i < |b.labels| && d < 4 && NearestStand(b, s, i, d, walk)
    && ValidState(b, next) && CanonicalState(b, next)
    && SamePosition(b, State(s.boxes[i], s.boxes[i := b.Next(s.boxes[i], d)]), next)
  }

  /** Moves any solution of a state takes, by its estimate with the walk to a stand, and by the
      room bound. */
  function Needed(x: Setting, next: State): nat
    requires x.e.estimate(next).Some? && x.rooms(next).Some?
  {
    var m, s := x.e.estimate(next).value, x.rooms(next).value;
    var walked := if m > 0 then m + x.e.standWalk(next) else 0;
    if s > walked then s else walked
  }

  /** What turns a push away: a dead landing, a jam, a live record of the child's state no dearer,
      no assignment, or an incumbent that the moves made and those needed reach. */
  ghost predicate TurnedAway(x: Setting, k: Known, s: State, i: nat, d: nat, g: nat, next: State)
    requires i < |s.boxes| == |x.b.labels|
  {
    var to := x.b.Next(s.boxes[i], d);
    || x.e.deadAfter(i, to, d)
    || Jammed(x.b, x.h, s.boxes[i := to], Below(|x.b.labels|), i)
    || (exists id: nat :: id < |k.records| && !k.records[id].superseded &&
          k.records[id].node.state == next && k.records[id].node.g <= g)
    || x.e.estimate(next).None? || x.rooms(next).None?
    || (k.best.Some? && k.best.value <= g + Needed(x, next))
  }

  /** The h a child is queued with: the larger of its two bounds, the room bound's as far as a key
      holds it. */
  ghost predicate QueuedH(x: Setting, next: State, h: nat)
    requires x.e.estimate(next).Some? && x.rooms(next).Some?
  {
    var m, s := x.e.estimate(next).value, x.rooms(next).value;
    if s <= m then h == m else h == if s < 0xFFFF then s else 0xFFFF
  }

  /** A push is dropped, before or after its child is built, exactly when something turns it away. */
  lemma DroppedMeans(x: Setting, node: Node, k: Known, i: nat, d: nat, walk: nat, next: State)
    requires x.b.Valid() && Versions(k.records, 0) && AtHand(x.b, node.state, i, d, walk, next)
    ensures Screened(x, k.best, node, i, d, walk) ||
            Barred(x, k, Child(x.b, node.state, i, d), PushG(node.g, walk)) <==>
            TurnedAway(x, k, node.state, i, d, if node.g + walk + 1 < G_SAT then node.g + walk + 1 else G_SAT, next)
  {
    var s, g := node.state, PushG(node.g, walk);
    var child := Child(x.b, s, i, d);
    ChildIsValid(x.b, s, i, d, walk);
    DeadAfterPushMeans(x.b, x.h, child.boxes, Below(|x.b.labels|), i);
    LiveIsDuplicate(k.records, next, g);
    BarredMeans(x, k, child, g, next);
    PriceMeans(x, k, g, next);
  }

  lemma LiveIsDuplicate(records: seq<Record>, next: State, g: nat)
    requires Versions(records, 0)
    ensures Duplicated(records, next, g) <==>
            exists id: nat :: id < |records| && !records[id].superseded && records[id].node.state == next &&
              records[id].node.g <= g
  {
    forall id: nat | id < |records| && !records[id].superseded && records[id].node.state == next
      ensures IsLatest(records, 0, next, id)
    {
      LiveIsLatest(records, 0, id);
    }
    forall id: nat | IsLatest(records, 0, next, id) ensures !records[id].superseded {
      LatestIsLive(records, 0, next, id);
    }
  }

  /** The canonical child is the only one there is. */
  lemma BarredMeans(x: Setting, k: Known, child: State, g: nat, next: State)
    requires x.b.Valid() && Settles(x.b, child, next)
    ensures Barred(x, k, child, g) <==>
            Duplicated(k.records, next, g) || Price(x, next, g, x.e.estimate(next), k.best).None?
  {
    forall other | Settles(x.b, child, other) ensures other == next {
      CanonicalStateIsUnique(x.b, other, next);
    }
  }

  /** A price is refused exactly when a bound is missing or the incumbent reaches the needed moves,
      and is otherwise the larger bound. */
  lemma PriceMeans(x: Setting, k: Known, g: nat, next: State)
    ensures var r := Price(x, next, g, x.e.estimate(next), k.best);
            && (r.None? <==>
                  || x.e.estimate(next).None? || x.rooms(next).None?
                  || (k.best.Some? && k.best.value <= g + Needed(x, next)))
            && (r.Some? ==> QueuedH(x, next, r.value))
  {
  }

  /** No push, no effect. */
  lemma ImpossiblePush(x: Setting, t: Task, before: Effect, i: nat, d: nat, after: Effect)
    requires x.Valid() && Working(x, before.k, t) && i < |x.b.labels| && d < 4 && Pushed(x, t, before, i, d, after)
    requires forall dirs :: !WalkToPush(x.b, t.node.state, i, d, dirs)
    ensures after == before
  {
    assert StandKnown(x.b, t, i, d);
    assert !Legal(x.b, t, i, d);
  }

  /** The larger f an unbuilt child is sure to have, when its parent's estimate is more than a push
      from this stand can take off it. */
  function SureF(x: Setting, t: Task, i: nat, d: nat, walk: nat): Option<nat>
    requires i < |t.node.state.boxes| && x.e.estimate(t.node.state).Some?
  {
    var m := x.e.estimate(t.node.state).value;
    var charge := x.e.charge(x.b.Next(t.node.state.boxes[i], Opposite(d)));
    if m <= 1 + charge then None
    else Some(t.node.g + m + if walk < charge then 0 else walk - charge)
  }

  /** The least f left out, once `f` is too. */
  ghost predicate Postponed(before: Effect, f: nat, after: Effect) {
    && after.k == before.k && after.stopped == before.stopped && after.deferred.Some?
    && after.deferred.value <= f && (before.deferred.Some? ==> after.deferred.value <= before.deferred.value)
    && (after.deferred == Some(f) || after.deferred == before.deferred)
  }

  /** A partial expansion leaves a push out unbuilt exactly when its child is sure to be dearer than
      the entry popped. */
  lemma LeftOutUnbuilt(x: Setting, t: Task, before: Effect, i: nat, d: nat, walk: nat, after: Effect)
    requires x.Valid() && Working(x, before.k, t) && i < |x.b.labels| && d < 4
    requires NearestStand(x.b, t.node.state, i, d, walk) && Pushed(x, t, before, i, d, after)
    ensures x.e.estimate(t.node.state).Some?
    ensures var sure := SureF(x, t, i, d, walk);
            if t.partial && sure.Some? && sure.value > t.node.g + t.key.h then Postponed(before, sure.value, after)
            else Tried(x, t, before, i, d, walk, after)
  {
    NodeIsGood(x, before.k, t.key);
    WalkIsKnown(x, t, i, d, walk);
    LeftOutMeans(x, t, i, d, walk);
    LegalLeaves(x, t, before, i, d, walk, after);
  }

  lemma LeftOutMeans(x: Setting, t: Task, i: nat, d: nat, walk: nat)
    requires i < |t.node.state.boxes| && x.e.estimate(t.node.state).Some?
    ensures var sure := SureF(x, t, i, d, walk);
            LeftOut(x, t, i, d, walk) ==
            if t.partial && sure.Some? && sure.value > t.node.g + t.key.h then sure else None
  {
  }

  lemma LegalLeaves(x: Setting, t: Task, before: Effect, i: nat, d: nat, walk: nat, after: Effect)
    requires i < |t.node.state.boxes| == |x.b.labels| && Pushed(x, t, before, i, d, after)
    requires Legal(x.b, t, i, d) && WalkOf(x.b, t, i, d) == walk
    ensures var out := LeftOut(x, t, i, d, walk);
            if out.Some? then Postponed(before, out.value, after) else Tried(x, t, before, i, d, walk, after)
  {
  }

  lemma WalkIsKnown(x: Setting, t: Task, i: nat, d: nat, walk: nat)
    requires Surveyed(x.b, t) && i < |t.node.state.boxes| && d < 4 && NearestStand(x.b, t.node.state, i, d, walk)
    ensures Legal(x.b, t, i, d) && WalkOf(x.b, t, i, d) == walk
  {
    assert StandKnown(x.b, t, i, d);
    var dirs :| WalkToPush(x.b, t.node.state, i, d, dirs) && |dirs| == walk;
    SameWalk(x.b, t.node.state, i, d, walk, WalkOf(x.b, t, i, d));
  }

  lemma SameWalk(b: Board, s: State, i: nat, d: nat, walk: nat, other: nat)
    requires NearestStand(b, s, i, d, walk) && NearestStand(b, s, i, d, other)
    ensures walk == other
  {
    var dirs :| WalkToPush(b, s, i, d, dirs) && |dirs| == walk;
    var dirs' :| WalkToPush(b, s, i, d, dirs') && |dirs'| == other;
  }

  /** A new record, open and live under the node, in place of any dearer version of its state. */
  ghost predicate NewRecord(before: seq<Record>, t: Task, d: nat, g: nat, m: nat, next: State, after: seq<Record>) {
    && |after| == |before| + 1
    && after[|before|] == Record(Node(next, g, Some(t.key.id), d, if m < 0xFFFF then m else 0xFFFF), false, false)
    && (forall id | 0 <= id < |before| ::
          && after[id].node == before[id].node && after[id].closed == before[id].closed
          && (after[id].superseded <==> before[id].superseded || before[id].node.state == next))
  }

  /** The entry of record `id` at its g + h. */
  function EntryOf(g: nat, h: nat, id: nat): Key {
    var held := if h < 0xFFFF then h else 0xFFFF;
    Key(if g + held < 0xF_FFFF then g + held else 0xF_FFFF, held, id)
  }

  /** What a child not turned away leaves: it is postponed if dearer than the entry popped; stored,
      queued and, solved, the incumbent; or, in a full arena, the end, stored only if solved. */
  ghost predicate Stays(x: Setting, t: Task, before: Effect, d: nat, g: nat, h: nat, next: State, after: Effect)
    requires x.e.estimate(next).Some?
  {
    var k, m, cut := before.k, x.e.estimate(next).value, Some(t.node.g + if t.key.h > 0 then t.key.h else 1);
    if t.partial && h > 0 && g + h > t.node.g + t.key.h then Postponed(before, g + h, after)
    else
      && after.deferred == before.deferred
      && after.k.best == (if Solved(x.b, next) then Some(g) else k.best)
      && after.k.interrupted == (if after.stopped then cut else k.interrupted)
      && if |k.records| < x.limit then
           NewRecord(k.records, t, d, g, m, next, after.k.records) &&
           after.k.queue == k.queue + multiset{EntryOf(g, h, |k.records|)}
         else
           && after.stopped && after.k.queue == k.queue
           && if Solved(x.b, next) then NewRecord(k.records, t, d, g, m, next, after.k.records)
              else after.k.records == k.records
  }

  /** A push turned away leaves everything as it was. */
  lemma TurnedAwayMeans(x: Setting, t: Task, before: Effect, i: nat, d: nat, walk: nat, g: nat, next: State,
                        after: Effect)
    requires x.Valid() && Working(x, before.k, t) && Versions(before.k.records, 0)
    requires AtHand(x.b, t.node.state, i, d, walk, next) && Tried(x, t, before, i, d, walk, after)
    requires g == (if t.node.g + walk + 1 < G_SAT then t.node.g + walk + 1 else G_SAT)
    requires TurnedAway(x, before.k, t.node.state, i, d, g, next)
    ensures after == before
  {
    DroppedMeans(x, t.node, before.k, i, d, walk, next);
  }

  /** Any other push's child stays, at the larger of its two bounds. */
  lemma StaysMeans(x: Setting, t: Task, before: Effect, i: nat, d: nat, walk: nat, g: nat, next: State, after: Effect)
    returns (h: nat)
    requires x.Valid() && Working(x, before.k, t) && Versions(before.k.records, 0) && !before.stopped
    requires AtHand(x.b, t.node.state, i, d, walk, next) && Tried(x, t, before, i, d, walk, after)
    requires g == (if t.node.g + walk + 1 < G_SAT then t.node.g + walk + 1 else G_SAT)
    requires !TurnedAway(x, before.k, t.node.state, i, d, g, next)
    ensures x.e.estimate(next).Some? && x.rooms(next).Some? && QueuedH(x, next, h)
    ensures Stays(x, t, before, d, g, h, next, after)
  {
    DroppedMeans(x, t.node, before.k, i, d, walk, next);
    h := KeptStays(x, t, before, i, d, walk, next, after);
  }

  lemma KeptStays(x: Setting, t: Task, before: Effect, i: nat, d: nat, walk: nat, next: State, after: Effect)
    returns (h: nat)
    requires x.Valid() && Working(x, before.k, t) && Versions(before.k.records, 0)
    requires AtHand(x.b, t.node.state, i, d, walk, next) && !before.stopped && Tried(x, t, before, i, d, walk, after)
    requires !Screened(x, before.k.best, t.node, i, d, walk)
    requires !Barred(x, before.k, Child(x.b, t.node.state, i, d), PushG(t.node.g, walk))
    ensures x.e.estimate(next).Some? && x.rooms(next).Some? && QueuedH(x, next, h)
    ensures Stays(x, t, before, d, PushG(t.node.g, walk), h, next, after)
  {
    var child, g := Child(x.b, t.node.state, i, d), PushG(t.node.g, walk);
    var c :| Priced(x, before.k, t.key.id, c, child, g, d) && ChildOutcome(x, t, before, c, after);
    CanonicalStateIsUnique(x.b, c.node.state, next);
    PriceMeans(x, before.k, g, next);
    PricedIsStorable(x, before.k, t, c, i, d, walk);
    PricedStays(x, t, before, c, d, after);
    h := c.h;
  }

  lemma PricedStays(x: Setting, t: Task, before: Effect, c: Admitted, d: nat, after: Effect)
    requires x.Valid() && Versions(before.k.records, 0) && Storable(x, before.k, c)
    requires c.node.parent == Some(t.key.id) && c.node.direction == d
    requires c.node.h == StoredH(x.e.estimate(c.node.state))
    requires c.found.Some? ==> IsLatest(before.k.records, 0, c.node.state, c.found.value)
    requires c.found.None? ==> Absent(before.k.records, 0, c.node.state)
    requires ChildOutcome(x, t, before, c, after) && !before.stopped
    ensures Stays(x, t, before, d, c.node.g, c.h, c.node.state, after)
  {
    SolvedAtZero(x.b, c.node.state, c.h);
    AppendedMeans(before.k.records, 0, c.found, c.node);
  }

  /** A corral with no way on, seen from the keeper's region. */
  ghost predicate SealedDead(x: Setting, boxes: seq<Cell>, reach: Flood)
    requires |boxes| == |x.b.labels|
  {
    exists i: nat, corral {:trigger Corrals.IsCorral(x.b, CellSet(reach.cells), boxes[i], corral)} ::
      i < |boxes| && Corrals.IsCorral(x.b, CellSet(reach.cells), boxes[i], corral) &&
      Corrals.NoWayOn(x.b, x.h, boxes, CellSet(reach.cells), corral)
  }

  lemma HasDeadCorralMeans(x: Setting, s: State, reach: Flood)
    requires x.b.Valid() && ValidState(x.b, s) && IsFill(x.b, CellSet(s.boxes), s.player, reach)
    ensures HasDeadCorral(x, s.boxes, reach) <==> SealedDead(x, s.boxes, reach)
  {
    Corrals.FloodVerdict(x.b, x.h, s, reach);
  }

  /** What a pop does: a least entry leaves the queue; one of a live record is the route when it is
      home, and otherwise expanded if the record's cost is below the incumbent's. */
  lemma PopMeans(b: Board, k: Known, taken: Key, after: Known, status: Status, key: Option<Key>)
    requires PopOf(b, k, taken, after, status, key)
    ensures taken in k.queue && after.queue == k.queue - multiset{taken}
    ensures forall other | other in k.queue ::
              || taken.f < other.f
              || (taken.f == other.f && (taken.h < other.h || (taken.h == other.h && taken.id <= other.id)))
    ensures var record := k.records[taken.id];
            var home := taken.h == 0 && Solved(b, record.node.state);
            && (status.SolvedStop? <==> !record.superseded && home) && (!status.SolvedStop? ==> status.Running?)
            && (key.Some? <==> !record.superseded && !home && (k.best.Some? ==> record.node.g < k.best.value))
            && (key.Some? ==> key == Some(taken))
            && (status.Running? ==> after.best == k.best)
            && (status.SolvedStop? ==>
                  after.best == if k.best.Some? && k.best.value <= record.node.g then k.best else Some(record.node.g))
    ensures after.records == k.records && after.interrupted == k.interrupted
  {
  }

  /** A finished node waits at the least f it left out, and not at all without one. */
  lemma FinishedMeans(k: Known, t: Task, deferred: Option<nat>)
    requires deferred.Some? ==> t.node.g <= deferred.value
    ensures var after := Finished(k, t, deferred);
            && after == k.(queue := after.queue)
            && after.queue == if deferred.None? then k.queue
                              else k.queue + multiset{EntryOf(t.node.g, deferred.value - t.node.g, t.key.id)}
  {
  }

  // ---------------------------------------------------------------- a whole expansion

  /** A step of a trace: one more push, in box and direction order. */
  ghost predicate StepAt(x: Setting, t: Task, trace: seq<Effect>, j: nat)
    requires |t.node.state.boxes| == |x.b.labels| && j + 1 < |trace| && j < 4 * |x.b.labels|
  {
    !trace[j].stopped && Pushed(x, t, trace[j], j / 4, j % 4, trace[j + 1])
  }

  ghost predicate IsTrace(x: Setting, t: Task, k: Known, trace: seq<Effect>)
    requires |t.node.state.boxes| == |x.b.labels|
  {
    && 0 < |trace| <= 4 * |x.b.labels| + 1 && trace[0] == Effect(k, None, false)
    && forall j: nat {:trigger StepAt(x, t, trace, j)} | j + 1 < |trace| :: StepAt(x, t, trace, j)
  }

  /** `after` is what the first `m` pushes leave, box by box and direction by direction. */
  ghost predicate Ran(x: Setting, t: Task, k: Known, m: nat, after: Effect)
    requires |t.node.state.boxes| == |x.b.labels|
  {
    exists trace {:trigger Traced(x, t, k, trace, m, after)} :: Traced(x, t, k, trace, m, after)
  }

  /** The same, every push of the boxes before `i` and the first `d` of box `i`. */
  ghost predicate RanTo(x: Setting, t: Task, k: Known, i: nat, d: nat, after: Effect)
    requires |t.node.state.boxes| == |x.b.labels|
  {
    Ran(x, t, k, 4 * i + d, after)
  }

  /** The trace stands at `now` after `m` pushes. */
  ghost predicate Traced(x: Setting, t: Task, k: Known, trace: seq<Effect>, m: nat, now: Effect)
    requires |t.node.state.boxes| == |x.b.labels|
  {
    IsTrace(x, t, k, trace) && |trace| == m + 1 && trace[m] == now
  }

  /** What every push left, and that the last was made from what the ones before it leave. */
  lemma TraceOf(x: Setting, t: Task, k: Known, m: nat, after: Effect) returns (trace: seq<Effect>)
    requires |t.node.state.boxes| == |x.b.labels| && 0 < m && Ran(x, t, k, m, after)
    ensures IsTrace(x, t, k, trace) && |trace| == m + 1 && trace[m] == after
    ensures Ran(x, t, k, m - 1, trace[m - 1]) && !trace[m - 1].stopped
  {
    trace :| Traced(x, t, k, trace, m, after);
    assert StepAt(x, t, trace, m - 1);
    forall j: nat | j + 1 < m ensures StepAt(x, t, trace[..m], j) {
      assert StepAt(x, t, trace, j);
    }
    assert Traced(x, t, k, trace[..m], m - 1, trace[m - 1]);
  }

  /** An expansion before its first push. */
  lemma RanFrom(x: Setting, t: Task, k: Known)
    requires |t.node.state.boxes| == |x.b.labels|
    ensures RanTo(x, t, k, 0, 0, Effect(k, None, false))
  {
    assert Traced(x, t, k, [Effect(k, None, false)], 0, Effect(k, None, false));
  }

  /** One more push of an expansion. */
  lemma RanNext(x: Setting, t: Task, k: Known, i: nat, d: nat, now: Effect, after: Effect)
    requires |t.node.state.boxes| == |x.b.labels| && i < |x.b.labels| && d < 4
    requires RanTo(x, t, k, i, d, now) && !now.stopped && Pushed(x, t, now, i, d, after)
    ensures RanTo(x, t, k, i, d + 1, after)
  {
    var m := 4 * i + d;
    assert m / 4 == i && m % 4 == d;
    var trace :| Traced(x, t, k, trace, m, now);
    var longer := trace + [after];
    forall j: nat | j + 1 < |longer| ensures StepAt(x, t, longer, j) {
      if j < m { assert StepAt(x, t, trace, j); }
    }
    assert Traced(x, t, k, longer, m + 1, after);
  }

  /** On to the next box, once the four pushes of one are tried. */
  lemma RanOn(x: Setting, t: Task, k: Known, i: nat, after: Effect)
    requires |t.node.state.boxes| == |x.b.labels| && RanTo(x, t, k, i, 4, after)
    ensures RanTo(x, t, k, i + 1, 0, after)
  {
    assert 4 * i + 4 == 4 * (i + 1);
  }

  /** The pushes are over once one stopped the search, or all were tried. */
  lemma RanOver(x: Setting, t: Task, k: Known, i: nat, d: nat, after: Effect)
    requires |t.node.state.boxes| == |x.b.labels| && RanTo(x, t, k, i, d, after)
    requires after.stopped || (i == |x.b.labels| && d == 0)
    ensures RanToEnd(x, t, k, after)
  {
    assert Ran(x, t, k, 4 * i + d, after);
  }

  /** What finishing leaves: the node queued again at the least f left out, if any. */
  function Finished(k: Known, t: Task, deferred: Option<nat>): Known {
    if deferred.None? || deferred.value < t.node.g then k
    else Requeued(k, KeyFor(t.node.g, deferred.value - t.node.g, t.key.id))
  }

  function ClosedAt(k: Known, id: nat): Known
    requires id < |k.records|
  {
    k.(records := k.records[id := k.records[id].(closed := true)])
  }

  /** What an expansion leaves: a node with a dead corral is dropped; otherwise its pushes are
      made in order, until a limit ends the search or the node is finished. */
  ghost predicate ExpansionOf(x: Setting, k: Known, key: Key, after: Known, stopped: bool) {
    && key.id < |k.records|
    && exists t: Task, end: Effect ::
         && Expanding(x, k, key, t, end)
         && stopped == end.stopped && after == if stopped then end.k else Finished(end.k, t, end.deferred)
  }

  /** The expansion of `key`, partial once the arena is past its fill, and what its pushes leave. */
  ghost predicate Expanding(x: Setting, k: Known, key: Key, t: Task, end: Effect)
    requires key.id < |k.records|
  {
    && t.key == key && t.node == k.records[key.id].node && |t.node.state.boxes| == |x.b.labels|
    && IsFill(x.b, CellSet(t.node.state.boxes), t.node.state.player, t.reach)
    && t.partial == (|k.records| >= x.partialAt && t.node.g > 0 && key.h < MAX_QUEUED_H)
    && ExpansionEnds(x, ClosedAt(k, key.id), t, end)
  }

  ghost predicate ExpansionEnds(x: Setting, k: Known, t: Task, end: Effect)
    requires |t.node.state.boxes| == |x.b.labels|
  {
    if HasDeadCorral(x, t.node.state.boxes, t.reach) then end == Effect(k, None, false)
    else RanToEnd(x, t, k, end)
  }

  /** Every push was made, or a limit ended the search before. */
  ghost predicate RanToEnd(x: Setting, t: Task, k: Known, end: Effect)
    requires |t.node.state.boxes| == |x.b.labels|
  {
    exists m: nat :: Ran(x, t, k, m, end) && (end.stopped || m == 4 * |x.b.labels|)
  }

  lemma ExpansionIs(x: Setting, k: Known, key: Key, t: Task, end: Effect, after: Known)
    requires key.id < |k.records| && t.key == key && t.node == k.records[key.id].node
    requires |t.node.state.boxes| == |x.b.labels|
    requires IsFill(x.b, CellSet(t.node.state.boxes), t.node.state.player, t.reach)
    requires t.partial == (|k.records| >= x.partialAt && t.node.g > 0 && key.h < MAX_QUEUED_H)
    requires ExpansionEnds(x, ClosedAt(k, key.id), t, end)
    requires after == if end.stopped then end.k else Finished(end.k, t, end.deferred)
    ensures ExpansionOf(x, k, key, after, end.stopped)
  {
    assert Expanding(x, k, key, t, end);
  }

  /** A pop of a running search, which ends with nothing queued. */
  ghost predicate Popped(b: Board, k: Known, after: Known, status: Status, key: Option<Key>) {
    if k.queue == multiset{} then key.None? && after == k && status == if k.best.Some? then SolvedStop else Exhausted
    else exists taken :: PopOf(b, k, taken, after, status, key)
  }

  /** One turn: a pop and, of an entry that asks for it, the expansion. */
  ghost predicate TurnOf(x: Setting, k: Known, after: Known, status: Status) {
    exists popped, judged, key :: Popped(x.b, k, popped, judged, key) &&
      if key.None? then after == popped && status == judged
      else
        && ExpansionOf(x, popped, key.value, after, !status.Running?)
        && (status.Running? || status.StateLimit? || status.MemoryLimit?)
  }

  datatype Moment = Moment(k: Known, status: Status)

  /** A run of a search: at every moment but the last it is running, and a turn leads on. */
  ghost predicate IsRun(x: Setting, run: seq<Moment>) {
    0 < |run| && forall j: nat {:trigger GoesOn(x, run, j)} | j + 1 < |run| :: GoesOn(x, run, j)
  }

  ghost predicate GoesOn(x: Setting, run: seq<Moment>, j: nat)
    requires j + 1 < |run|
  {
    run[j].status.Running? && TurnOf(x, run[j].k, run[j + 1].k, run[j + 1].status)
  }

  /** One more turn. */
  lemma RunNext(x: Setting, run: seq<Moment>, k: Known, after: Known, status: Status)
    requires IsRun(x, run) && run[|run| - 1] == Moment(k, Running) && TurnOf(x, k, after, status)
    ensures IsRun(x, run + [Moment(after, status)])
  {
    var longer := run + [Moment(after, status)];
    forall j: nat | j + 1 < |longer| ensures GoesOn(x, longer, j) {
      if j + 1 < |run| { assert GoesOn(x, run, j); }
    }
  }

  /** A new record was stored, or the queue gained at most one entry, lighter than `key`. */
  ghost predicate Progressed(k: Known, key: Key, after: Known) {
    && |k.records| <= |after.records|
    && (|after.records| == |k.records| ==>
          after.queue == k.queue || exists again ::
            after.queue == k.queue + multiset{again} && Weight(again) < Weight(key))
  }

  lemma PushedGrows(x: Setting, t: Task, before: Effect, i: nat, d: nat, after: Effect)
    requires i < |t.node.state.boxes| == |x.b.labels| && Pushed(x, t, before, i, d, after)
    ensures |before.k.records| <= |after.k.records|
    ensures |after.k.records| == |before.k.records| ==> after.k.queue == before.k.queue
  {
  }

  lemma {:induction false} RanVersions(x: Setting, t: Task, k: Known, m: nat, after: Effect)
    requires |t.node.state.boxes| == |x.b.labels| && Ran(x, t, k, m, after) && Versions(k.records, 0)
    ensures Versions(after.k.records, 0)
    decreases m
  {
    if m > 0 {
      var trace := TraceOf(x, t, k, m, after);
      RanVersions(x, t, k, m - 1, trace[m - 1]);
      assert StepAt(x, t, trace, m - 1);
      PushedKeepsVersions(x, t, trace[m - 1], (m - 1) / 4, (m - 1) % 4, after);
    }
  }

  /** An expansion's pushes keep every solution accounted for. */
  lemma {:induction false} RanKeeps(x: Setting, t: Task, k: Known, m: nat, after: Effect)
    requires Begun(x, k, t)
    requires Ran(x, t, k, m, after) && !after.stopped
    ensures UnderWay(x, t, after, m / 4, m % 4)
    decreases m
  {
    if m > 0 {
      var trace := TraceOf(x, t, k, m, after);
      RanKeeps(x, t, k, m - 1, trace[m - 1]);
      RanVersions(x, t, k, m - 1, trace[m - 1]);
      NextKeeps(x, t, k, trace, m);
    }
  }

  lemma NextKeeps(x: Setting, t: Task, k: Known, trace: seq<Effect>, m: nat)
    requires x.Valid() && |t.node.state.boxes| == |x.b.labels| && IsTrace(x, t, k, trace) && 0 < m < |trace|
    requires UnderWay(x, t, trace[m - 1], (m - 1) / 4, (m - 1) % 4) && Versions(trace[m - 1].k.records, 0)
    ensures trace[m].stopped ==> Kept(x, trace[m].k)
    ensures !trace[m].stopped ==> UnderWay(x, t, trace[m], m / 4, m % 4)
  {
    assert StepAt(x, t, trace, m - 1);
    PushedKeeps(x, t, trace[m - 1], (m - 1) / 4, (m - 1) % 4, trace[m]);
    if !trace[m].stopped { BoxDone(x, t, trace[m], m); }
  }

  /** While the arena has not reached its fill, and at the root, no push is postponed: the node an
      expansion finishes is not queued again. */
  lemma BelowFillIsWhole(x: Setting, k: Known, key: Key, after: Known, stopped: bool)
    requires ExpansionOf(x, k, key, after, stopped)
    requires |k.records| < x.partialAt || k.records[key.id].node.g == 0 || key.h >= 0xFFFF
    ensures forall other: Key | other.id < |k.records| :: after.queue[other] == k.queue[other]
  {
    var t: Task, end: Effect :| Expanding(x, k, key, t, end) && stopped == end.stopped &&
      after == if stopped then end.k else Finished(end.k, t, end.deferred);
    EndIsPartial(x, ClosedAt(k, key.id), t, end);
  }

  /** Past it no child is queued that is dearer than the entry popped, but for the solved. */
  lemma PastFillIsPartial(x: Setting, k: Known, key: Key, after: Known, stopped: bool)
    requires ExpansionOf(x, k, key, after, stopped)
    requires |k.records| >= x.partialAt && k.records[key.id].node.g > 0 && key.h < 0xFFFF
    ensures forall child | child in after.queue && child.id >= |k.records| ::
              child in k.queue || child.h == 0 || child.f <= k.records[key.id].node.g + key.h
  {
    var t: Task, end: Effect :| Expanding(x, k, key, t, end) && stopped == end.stopped &&
      after == if stopped then end.k else Finished(end.k, t, end.deferred);
    EndIsPartial(x, ClosedAt(k, key.id), t, end);
  }

  /** What is queued beside what was: new records' entries, none of them dearer than the entry
      popped if the expansion is partial. */
  ghost predicate QueuedNear(k: Known, t: Task, now: Effect) {
    && |k.records| <= |now.k.records|
    && (forall key: Key | key.id < |k.records| :: now.k.queue[key] == k.queue[key])
    && (forall key | key in now.k.queue && key.id >= |k.records| ::
          key in k.queue || !t.partial || key.h == 0 || key.f <= t.node.g + t.key.h)
    && (!t.partial ==> now.deferred.None?)
  }

  lemma EndIsPartial(x: Setting, k: Known, t: Task, end: Effect)
    requires |t.node.state.boxes| == |x.b.labels| && ExpansionEnds(x, k, t, end)
    ensures QueuedNear(k, t, end)
  {
    if !HasDeadCorral(x, t.node.state.boxes, t.reach) {
      var m: nat :| Ran(x, t, k, m, end) && (end.stopped || m == 4 * |x.b.labels|);
      RanIsPartial(x, t, k, m, end);
    }
  }

  lemma {:induction false} RanIsPartial(x: Setting, t: Task, k: Known, m: nat, after: Effect)
    requires |t.node.state.boxes| == |x.b.labels| && Ran(x, t, k, m, after)
    ensures QueuedNear(k, t, after)
    decreases m
  {
    if m > 0 {
      var trace := TraceOf(x, t, k, m, after);
      RanIsPartial(x, t, k, m - 1, trace[m - 1]);
      assert StepAt(x, t, trace, m - 1);
      PushedIsPartial(x, t, k, trace[m - 1], (m - 1) / 4, (m - 1) % 4, after);
    }
  }

  lemma PushedIsPartial(x: Setting, t: Task, k: Known, before: Effect, i: nat, d: nat, after: Effect)
    requires i < |t.node.state.boxes| == |x.b.labels| && Pushed(x, t, before, i, d, after)
    requires QueuedNear(k, t, before)
    ensures QueuedNear(k, t, after)
  {
    if after.k != before.k {
      var walk := WalkOf(x.b, t, i, d);
      var child, g := Child(x.b, t.node.state, i, d), PushG(t.node.g, walk);
      var c :| Priced(x, before.k, t.key.id, c, child, g, d) && ChildOutcome(x, t, before, c, after);
      ChildIsPartial(x, t, k, before, c, after);
    }
  }

  lemma ChildIsPartial(x: Setting, t: Task, k: Known, before: Effect, c: Admitted, after: Effect)
    requires ChildOutcome(x, t, before, c, after) && QueuedNear(k, t, before)
    ensures QueuedNear(k, t, after)
  {
  }

  /** A limit's stop keeps every solution accounted for. */
  lemma RanStopKeeps(x: Setting, t: Task, k: Known, m: nat, end: Effect)
    requires Begun(x, k, t)
    requires Ran(x, t, k, m, end) && end.stopped && m > 0
    ensures Kept(x, end.k)
  {
    var trace := TraceOf(x, t, k, m, end);
    RanKeeps(x, t, k, m - 1, trace[m - 1]);
    RanVersions(x, t, k, m - 1, trace[m - 1]);
    NextKeeps(x, t, k, trace, m);
  }

  /** Four directions tried are a box done. */
  lemma BoxDone(x: Setting, t: Task, now: Effect, m: nat)
    requires m > 0 && UnderWay(x, t, now, (m - 1) / 4, (m - 1) % 4 + 1)
    ensures UnderWay(x, t, now, m / 4, m % 4)
  {
    if m % 4 == 0 { assert m / 4 == (m - 1) / 4 + 1; } else { assert m / 4 == (m - 1) / 4; }
  }

  lemma PushedKeepsVersions(x: Setting, t: Task, before: Effect, i: nat, d: nat, after: Effect)
    requires i < |t.node.state.boxes| == |x.b.labels| && Pushed(x, t, before, i, d, after)
    requires Versions(before.k.records, 0)
    ensures Versions(after.k.records, 0)
  {
    if after.k != before.k {
      var walk := WalkOf(x.b, t, i, d);
      var child, g := Child(x.b, t.node.state, i, d), PushG(t.node.g, walk);
      var c :| Priced(x, before.k, t.key.id, c, child, g, d) && ChildOutcome(x, t, before, c, after);
      AppendKeepsVersions(before.k.records, 0, c.found, c.node);
    }
  }

  /** Pushes store records, or leave the queue as it is. */
  lemma {:induction false} RanGrows(x: Setting, t: Task, k: Known, m: nat, after: Effect)
    requires |t.node.state.boxes| == |x.b.labels| && Ran(x, t, k, m, after)
    ensures |k.records| <= |after.k.records|
    ensures |after.k.records| == |k.records| ==> after.k.queue == k.queue
    decreases m
  {
    if m > 0 {
      var trace := TraceOf(x, t, k, m, after);
      RanGrows(x, t, k, m - 1, trace[m - 1]);
      assert StepAt(x, t, trace, m - 1);
      PushedGrows(x, t, trace[m - 1], (m - 1) / 4, (m - 1) % 4, after);
    }
  }

  lemma RanToEndKeeps(x: Setting, t: Task, k: Known, end: Effect)
    requires Begun(x, k, t) && RanToEnd(x, t, k, end)
    ensures |k.records| <= |end.k.records| && (|end.k.records| == |k.records| ==> end.k.queue == k.queue)
    ensures end.stopped ==> Kept(x, end.k)
    ensures !end.stopped ==> UnderWay(x, t, end, |x.b.labels|, 0)
  {
    var m: nat :| Ran(x, t, k, m, end) && (end.stopped || m == 4 * |x.b.labels|);
    RanGrows(x, t, k, m, end);
    if end.stopped {
      StopsLater(x, t, k, m, end);
      RanStopKeeps(x, t, k, m, end);
    } else {
      RanKeeps(x, t, k, m, end);
    }
  }

  lemma StopsLater(x: Setting, t: Task, k: Known, m: nat, end: Effect)
    requires |t.node.state.boxes| == |x.b.labels| && Ran(x, t, k, m, end) && end.stopped
    ensures m > 0
  {
  }

  /** A node with no solution gets no children. */
  lemma DeadKeeps(x: Setting, k: Known, key: Key)
    requires x.Valid() && Midway(x, k, key) && !Solvable(x.b, k.records[key.id].node.state)
    ensures Kept(x, k)
  {
    NodeIsGood(x, k, key);
    UnsolvableCovers(x.b, k, key.id);
    Drop(x.b, x.start, x.e, k, key);
  }

  /** Closing a record keeps the expansion under way. */
  lemma ClosedMidway(x: Setting, k: Known, key: Key)
    requires Midway(x, k, key)
    ensures Midway(x, ClosedAt(k, key.id), key)
  {
    var after := ClosedAt(k, key.id);
    ClosedKeeps(x.b, x.start, x.e, Requeued(k, key), after.records);
    assert Requeued(k, key).(records := after.records) == Requeued(after, key);
  }

  /** Dropping the parent's entry once every push is followed, or queueing the node again, its
      h risen. */
  lemma FinishedKeeps(x: Setting, t: Task, now: Effect)
    requires x.Valid() && UnderWay(x, t, now, |x.b.labels|, 0)
    ensures Kept(x, Finished(now.k, t, now.deferred)) && Finished(now.k, t, now.deferred).interrupted.None?
    ensures Progressed(now.k, t.key, Finished(now.k, t, now.deferred))
  {
    if now.deferred.Some? {
      RequeuedKeeps(x, t, now);
    } else {
      FinishKeeps(x.b, x.start, x.e, now.k, t.key);
    }
  }

  lemma RequeuedKeeps(x: Setting, t: Task, now: Effect)
    requires x.Valid() && UnderWay(x, t, now, |x.b.labels|, 0) && now.deferred.Some?
    ensures var again := KeyFor(t.node.g, now.deferred.value - t.node.g, t.key.id);
            Kept(x, Requeued(now.k, again)) && Weight(again) < Weight(t.key)
  {
    NodeIsGood(x, now.k, t.key);
    var again := KeyFor(t.node.g, now.deferred.value - t.node.g, t.key.id);
    FinishRequeues(x.b, x.start, x.e, now.k, t.key, now.deferred.value, again);
  }

  /** Taking one entry out, and putting back at most a lighter one, lightens the queue. */
  lemma Lightened(q: multiset<Key>, rest: multiset<Key>, after: multiset<Key>, key: Key)
    requires key in q && rest == q - multiset{key} && key.h <= MAX_QUEUED_H
    requires after == rest || exists again :: after == rest + multiset{again} && Weight(again) < Weight(key)
    ensures Measure(after) < Measure(q)
  {
    MeasureWithout(q, key);
    if after != rest {
      var again :| after == rest + multiset{again} && Weight(again) < Weight(key);
      MeasureWithout(after, again);
      assert after - multiset{again} == rest;
    }
  }

  /** A record was stored, or the queue is lighter. */
  ghost predicate Nearer(k: Known, after: Known) {
    |k.records| < |after.records| || (|k.records| == |after.records| && Measure(after.queue) < Measure(k.queue))
  }

  lemma ProgressIsNearer(k: Known, key: Key, before: Known, after: Known)
    requires key in k.queue && key.h <= MAX_QUEUED_H
    requires before.records == k.records && before.queue == k.queue - multiset{key} && Progressed(before, key, after)
    ensures Nearer(k, after)
  {
    if |after.records| == |k.records| { Lightened(k.queue, before.queue, after.queue, key); }
  }

  /** A pop and its expansion are a turn. */
  lemma ExpansionIsTurn(x: Setting, k: Known, popped: Known, key: Key, after: Known, status: Status)
    requires Popped(x.b, k, popped, Running, Some(key)) && ExpansionOf(x, popped, key, after, !status.Running?)
    requires status.Running? || status.StateLimit? || status.MemoryLimit?
    requires status.Running? ==> Progressed(popped, key, after)
    ensures TurnOf(x, k, after, status) && (status.Running? ==> Nearer(k, after))
  {
    if status.Running? { ProgressIsNearer(k, key, popped, after); }
  }

  /** A pop that asks for no expansion is a turn. */
  lemma PopIsTurn(x: Setting, k: Known, after: Known, status: Status)
    requires Popped(x.b, k, after, status, None)
    ensures TurnOf(x, k, after, status) && (status.Running? ==> Nearer(k, after))
  {
    if k.queue != multiset{} {
      var taken :| PopOf(x.b, k, taken, after, status, None);
      ProgressIsNearer(k, taken, after, after);
    }
  }

  // ---------------------------------------------------------------- bounds

  /** `f` is the least bound held: of a queued entry, an interrupted expansion or the
      incumbent. */
  ghost predicate LeastBound(k: Known, f: nat) {
    && (forall key | key in k.queue :: f <= key.f)
    && (k.interrupted.Some? ==> f <= k.interrupted.value)
    && (k.best.Some? ==> f <= k.best.value)
    && ((exists key :: key in k.queue && key.f == f) || k.interrupted == Some(f) || k.best == Some(f))
  }

  /** The least f queued or cut short, and the largest count of all when there is none. */
  ghost predicate IsFrontier(k: Known, f: nat) {
    && (forall key | key in k.queue :: f <= key.f) && (k.interrupted.Some? ==> f <= k.interrupted.value)
    && (f == NO_FRONTIER || (exists key :: key in k.queue && key.f == f) || k.interrupted == Some(f))
    && f <= NO_FRONTIER
  }

  /** The bound a caller is shown: the frontier, capped by the incumbent's cost. */
  function Capped(frontier: nat, best: Option<nat>): Option<nat> {
    if best.Some? && frontier >= best.value then best
    else if frontier < U32_MAX then Some(frontier)
    else None
  }

  /** Capping the frontier gives the least bound held, when that is a count at all. */
  lemma CappedIsLeast(k: Known, frontier: nat, f: nat)
    requires IsFrontier(k, frontier) && (k.best.Some? ==> k.best.value <= G_SAT)
    ensures Capped(frontier, k.best) == Some(f) <==> LeastBound(k, f) && f < U32_MAX
  {
  }

  /** What is shown bounds every solution. */
  lemma CappedHolds(x: Setting, k: Known, frontier: nat)
    requires x.Valid() && Kept(x, k) && IsFrontier(k, frontier)
    ensures Capped(frontier, k.best).Some? ==> Admissible(x.b, x.start, Capped(frontier, k.best).value)
  {
    BoundsHold(x, k, frontier);
  }

  /** A solved end shows its route's length, unless that is past the largest f and entries are
      left: then it shows that f. */
  lemma SolvedEndShows(x: Setting, k: Known, starved: bool, frontier: nat)
    requires Kept(x, k) && Promises(x, k, SolvedStop, starved) && IsFrontier(k, frontier) && k.best.value <= G_SAT
    ensures Capped(frontier, k.best) == if k.best.value <= F_SAT || k.queue == multiset{} then k.best else Some(F_SAT)
  {
    forall key | key in k.queue ensures key.f <= F_SAT {
      assert KeyFits(x.b, k.records, key);
    }
    if k.queue != multiset{} { var key :| key in k.queue; }
  }

  /** Every solution takes at least the frontier's moves or the incumbent's. */
  lemma BoundsHold(x: Setting, k: Known, frontier: nat)
    requires x.Valid() && Kept(x, k)
    requires (forall key | key in k.queue :: frontier <= key.f)
    requires k.interrupted.Some? ==> frontier <= k.interrupted.value
    ensures k.best.None? ==> Admissible(x.b, x.start, frontier)
    ensures k.best.Some? ==> Admissible(x.b, x.start, Min(frontier, k.best.value))
    ensures k.queue == multiset{} && k.interrupted.None? && k.best.None? ==> !Solvable(x.b, x.start)
  {
    forall n: nat | SolvesIn(x.b, x.start, n) ensures Bounded(k, n) {
      StartBounded(x.b, x.start, x.e, k, n);
    }
    if Solvable(x.b, x.start) {
      var moves :| Solution(x.b, x.start, moves);
      assert SolvesIn(x.b, x.start, |moves|);
      assert Bounded(k, |moves|);
    }
  }

  /** A solved end without a proof of its route has no short solution at all: a route past the
      largest f with entries still queued means every solution takes that f at least. */
  lemma UncertifiedIsLong(x: Setting, k: Known, starved: bool)
    requires x.Valid() && Kept(x, k) && Promises(x, k, SolvedStop, starved)
    requires k.best.value > F_SAT
    ensures Admissible(x.b, x.start, F_SAT)
  {
    BoundsHold(x, k, F_SAT);
  }
}
