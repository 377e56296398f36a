/** The exact search itself (engine.rs under its exact policy, exact.rs): pops, expansions and
    inserts over the arena, the freeze check and the sealed-corral check. */
module Engines {
  import opened Rules
  import opened Bfs
  import opened Reach
  import opened DeadCells
  import opened Deadlocks
  import opened PushGraph
  import opened Arenas
  import opened Frontiers
  import opened Pushes
  import opened ExactTheory
  import opened Expansions
  import opened Parsing

  /** Every box takes part in the freeze check. */
  const ALL_BOXES: set<nat> := set i: nat | i < MAX_BOXES

  /** How full, of a hundred, the arena is when expansions become partial. */
  const PARTIAL_FILL: nat := 90

  function PartialFrom(limit: nat): nat {
    limit * PARTIAL_FILL / 100
  }

  /** After one box moves, only it may be out of canonical order. */
  lemma UnsettledAfterPush(b: Board, s: State, i: nat, to: Cell)
    requires CanonicalState(b, s) && i < |s.boxes|
    ensures PocketTheory.SortedBut(b, AllSlots(|b.labels|), s.boxes[i := to], i)
  {
  }

  /** A stored estimate that fits is the state's own. */
  lemma StoredEstimate(x: Setting, k: Known, key: Key, next: State, id: nat)
    requires Held(x, k, key) && IsLatest(k.records, 0, next, id)
    ensures KnownH(k.records[id].node.h).Some? ==> KnownH(k.records[id].node.h) == x.e.estimate(next)
  {
    assert GoodNode(x.b, x.start, x.e, Requeued(k, key).records[id].node);
  }

  /** A find settles whether a cheaper version of the state is stored. */
  lemma FoundIsDuplicate(records: seq<Record>, next: State, g: nat, found: Option<nat>)
    requires found.Some? ==> IsLatest(records, 0, next, found.value)
    requires found.None? ==> Absent(records, 0, next)
    ensures Duplicated(records, next, g) <==> found.Some? && records[found.value].node.g <= g
  {
    forall id: nat | IsLatest(records, 0, next, id) ensures found == Some(id) {
    }
  }

  class Engine {
    const b: Board
    /** The start, in canonical order. */
    const start: State
    const e: Estimates
    /** The dead-cell table the freeze and corral checks read. */
    const h: Heuristic
    const arena: Arena
    const deadlock: Deadlock
    const corral: Corrals.Corral
    /** The room bound's price of a position, once it is built. */
    var rooms: State -> Option<nat>
    var queue: multiset<Key>
    var status: Status
    var expanded: nat
    var incumbent: Option<nat>
    /** The f of an expansion that a limit cut short. */
    var interrupted: Option<nat>
    /** With at least this many records stored, a node past the start expands in parts. */
    var partialAt: nat
    /** The arena's limit, which only a recharge changes. */
    ghost var limit: nat
    /** What the search knows: its records, queue, incumbent and interrupted f. */
    ghost var view: Known

    ghost function Setup(): Setting
      reads this`rooms, this`limit, this`partialAt
    {
      Setting(b, start, e, h, rooms, limit, partialAt)
    }

    /** What a limit's end shows. */
    ghost predicate AtLimit()
      reads this`status, arena
    {
      status == if arena.scaledDown || arena.starved then MemoryLimit else StateLimit
    }

    /** The incumbent's cost. */
    function Best(): Option<nat>
      reads this`incumbent, arena
    {
      BestOf(arena.records, incumbent)
    }

    /** The arena, and the ghost view of what it and the fields hold. */
    ghost predicate Stocked()
      reads this`queue, this`incumbent, this`interrupted, this`view, this`limit, arena, arena.table
    {
      && arena.Valid() && arena.kept == 0 && arena.boxes == |b.labels| && arena.nodeLimit == limit
      && view == Known(arena.records, queue, BestOf(arena.records, incumbent), interrupted)
      && HoldsIncumbent(b, arena.records, incumbent)
    }

    ghost predicate Checks()
      reads deadlock, deadlock.occupancy, corral, corral.stamps
    {
      deadlock.Valid(b) && corral.Valid(b)
    }

    /** Every reachable state of the search, between pops. */
    ghost predicate Valid()
      reads this, arena, arena.table, deadlock, deadlock.occupancy, corral, corral.stamps
    {
      && Setup().Valid() && Stocked() && Checks()
      && Kept(Setup(), view) && Promises(Setup(), view, status, arena.starved)
    }

    /** The search is running and its arena takes one more record. */
    ghost predicate Open()
      reads this`status, this`limit, arena
    {
      status.Running? && !arena.starved && |arena.records| <= limit
    }

    /** In the middle of expanding the record `key` names. */
    ghost predicate Expanding(key: Key)
      reads this, arena, arena.table, deadlock, deadlock.occupancy, corral, corral.stamps
    {
      Setup().Valid() && Stocked() && Checks() && Open() && Midway(Setup(), view, key)
    }

    /** A fresh search from a canonical start in an empty arena: the start is stored and queued,
        or the search is over when it has no goal assignment. */
    constructor (b: Board, start: State, e: Estimates, h: Heuristic, arena: Arena)
      requires b.Valid() && ValidState(b, start) && CanonicalState(b, start) && Sound(b, start, e) && Exact(b, h)
      requires arena.Valid() && arena.records == [] && arena.kept == 0 && !arena.starved && arena.boxes == |b.labels|
      modifies arena, arena.table
      ensures Valid() && this.b == b && this.start == start && this.e == e && this.arena == arena
      ensures fresh({arena.table} - {old(arena.table)})
      ensures fresh(deadlock) && fresh(deadlock.occupancy) && fresh(corral) && fresh(corral.stamps)
      ensures Started() && limit == old(arena.nodeLimit) && partialAt == limit * 90 / 100
    {
      this.b, this.start, this.e, this.h, this.arena := b, start, e, h, arena;
      deadlock := new Deadlock(b);
      corral := new Corrals.Corral(b);
      rooms := NoRooms;
      queue, status, expanded, incumbent, interrupted := multiset{}, Running, 0, None, None;
      partialAt, limit := PartialFrom(arena.nodeLimit), arena.nodeLimit;
      view := Known([], multiset{}, None, None);
      new;
      Seed();
    }

    /** The start alone is stored, and queued at its root estimate unless nothing solves it. */
    ghost predicate Started()
      reads this, arena
    {
      && arena.records == [Record(Node(start, 0, None, 0, StoredH(e.estimate(start))), false, false)]
      && incumbent.None? && interrupted.None? && rooms == NoRooms && expanded == 0
      && limit == arena.nodeLimit && partialAt == PartialFrom(limit)
      && status == (if e.estimate(start).Some? then Running else Exhausted)
      && queue == if e.estimate(start).Some? then multiset{KeyFor(0, e.rootEstimate(start), 0)} else multiset{}
    }

    /** Stores and queues the start in the empty arena. */
    method Seed()
      requires Setup().Valid() && Stocked() && Checks()
      requires arena.records == [] && !arena.starved && queue == multiset{} && status.Running?
      requires incumbent.None? && interrupted.None? && CanonicalState(b, start)
      modifies this`queue, this`status, this`view, arena, arena.table
      ensures Valid() && fresh({arena.table} - {old(arena.table)})
      ensures arena.records == [Record(Node(start, 0, None, 0, StoredH(e.estimate(start))), false, false)]
      ensures arena.nodeLimit == old(arena.nodeLimit)
      ensures status == if e.estimate(start).Some? then Running else Exhausted
      ensures queue == if e.estimate(start).Some? then multiset{KeyFor(0, e.rootEstimate(start), 0)} else multiset{}
    {
      StoreStart(Node(start, 0, None, 0, StoredH(e.estimate(start))));
      QueueStart();
    }

    method StoreStart(node: Node)
      requires Stocked() && arena.records == [] && !arena.starved && node.parent.None? && incumbent.None?
      modifies this`view, arena, arena.table
      ensures Stocked() && arena.records == [Record(node, false, false)] && !arena.starved
      ensures arena.nodeLimit == old(arena.nodeLimit) && 1 <= arena.nodeLimit
      ensures fresh({arena.table} - {old(arena.table)})
    {
      arena.RoomForOne();
      var index, found := arena.Find(node.state);
      var root := arena.Insert(node, index, found, false, false);
      view := view.(records := arena.records);
    }

    method QueueStart()
      requires Setup().Valid() && Stocked() && Checks() && CanonicalState(b, start)
      requires arena.records == [Record(Node(start, 0, None, 0, StoredH(e.estimate(start))), false, false)]
      requires !arena.starved && 1 <= limit && queue == multiset{} && status.Running?
      requires incumbent.None? && interrupted.None?
      modifies this`queue, this`status, this`view
      ensures Valid()
      ensures status == if e.estimate(start).Some? then Running else Exhausted
      ensures queue == if e.estimate(start).Some? then multiset{KeyFor(0, e.rootEstimate(start), 0)} else multiset{}
    {
      StartCost(b, start);
      assert SoundAt(b, e, start);
      if e.estimate(start).Some? {
        queue := multiset{KeyFor(0, e.rootEstimate(start), 0)};
        view := view.(queue := queue);
        SeedQueued(Setup(), view, e.rootEstimate(start));
      } else {
        status := Exhausted;
        SeedUnsolvable(Setup(), view);
      }
    }

    // -------------------------------------------------------------- pops

    /** Dequeues one entry: the key of a node to expand, or None for a skip or the end. */
    method Pop() returns (key: Option<Key>)
      requires Valid() && status.Running?
      modifies this`queue, this`status, this`incumbent, this`view
      ensures key.Some? ==> Expanding(key.value)
      ensures key.None? ==> Valid()
      ensures Popped(b, old(view), view, status, key)
    {
      if queue == multiset{} {
        status := if incumbent.Some? then SolvedStop else Exhausted;
        return None;
      }
      ghost var before := view;
      ghost var taken;
      key, taken := PopLeast();
      PopKeeps(Setup(), before, taken, view, status, key);
    }

    method PopLeast() returns (key: Option<Key>, ghost taken: Key)
      requires Stocked() && Kept(Setup(), view) && interrupted.None? && queue != multiset{} && status.Running?
      modifies this`queue, this`status, this`incumbent, this`view
      ensures Stocked() && PopOf(b, old(view), taken, view, status, key)
    {
      var least := Dequeue();
      var keep := Judge(least);
      key, taken := if keep then Some(least) else None, least;
    }

    /** Takes a least entry out of the queue. */
    method Dequeue() returns (taken: Key)
      requires Stocked() && Kept(Setup(), view) && interrupted.None? && queue != multiset{}
      modifies this`queue, this`view
      ensures Stocked() && IsLeast(old(view).queue, taken) && view == Without(old(view), taken)
      ensures taken.h <= MAX_QUEUED_H && taken.id < |view.records|
    {
      taken := Least(queue);
      TakenOut(Setup(), view, taken);
      queue := queue - multiset{taken};
      view := Without(view, taken);
    }

    /** What the popped entry asks for: false for a stale, solved or dominated one. */
    method Judge(key: Key) returns (keep: bool)
      requires Stocked() && key.id < |view.records| && status.Running?
      modifies this`status, this`incumbent, this`view
      ensures Stocked() && view == Judged(b, old(view), key)
      ensures keep <==> VerdictOf(b, old(view), key).Expandable?
      ensures status == if VerdictOf(b, old(view), key).Goal? then SolvedStop else Running
    {
      var record := arena.records[key.id];
      if record.superseded { return false; }
      if key.h == 0 && Solved(b, record.node.state) {
        TakeGoal(key);
        return false;
      }
      keep := !(Best().Some? && record.node.g >= Best().value);
    }

    /** A solved node popped: the incumbent, unless it is no shorter, and the end. */
    method TakeGoal(key: Key)
      requires Stocked() && key.id < |arena.records| && Solved(b, arena.records[key.id].node.state)
      modifies this`status, this`incumbent, this`view
      ensures Stocked() && status.SolvedStop?
      ensures view == old(view).(best := Lesser(old(view).best, arena.records[key.id].node.g))
    {
      var g := arena.records[key.id].node.g;
      if Best().None? || g < Best().value { incumbent := Some(key.id); }
      view := view.(best := Lesser(view.best, g));
      status := SolvedStop;
    }

    // -------------------------------------------------------------- opening a node

    /** Marks the node expanded, counting it the first time. */
    method CloseNode(key: Key)
      requires Expanding(key)
      modifies this`expanded, this`view, arena`records
      ensures Expanding(key) && view == ClosedAt(old(view), key.id)
      ensures expanded == old(expanded) + if old(arena.records)[key.id].closed then 0 else 1
    {
      ClosedMidway(Setup(), view, key);
      Close(key.id);
    }

    method Close(id: nat)
      requires Stocked() && id < |view.records|
      modifies this`expanded, this`view, arena`records
      ensures Stocked() && view == ClosedAt(old(view), id)
      ensures expanded == old(expanded) + if old(arena.records)[id].closed then 0 else 1
    {
      var first := arena.Close(id);
      view := ClosedAt(view, id);
      if first { expanded := expanded + 1; }
    }

    /** Floods the node's keeper and refreshes the freeze check to its boxes; `dead` when a
        sealed corral leaves no solution. */
    method OpenNode(key: Key, node: Node, partial: bool) returns (dead: bool, t: Task)
      requires Expanding(key) && node == view.records[key.id].node
      requires partial ==> node.g > 0 && key.h < MAX_QUEUED_H
      modifies deadlock, deadlock.occupancy, corral, corral.stamps
      ensures Stocked() && Checks() && deadlock.Holds(b, t.node.state.boxes) && Begun(Setup(), view, t)
      ensures t.key == key && t.node == node && t.partial == partial
      ensures IsFill(b, CellSet(node.state.boxes), node.state.player, t.reach)
      ensures dead <==> HasDeadCorral(Setup(), node.state.boxes, t.reach)
      ensures dead <==> SealedDead(Setup(), node.state.boxes, t.reach)
      ensures dead ==> !Solvable(b, node.state)
    {
      NodeIsGood(Setup(), view, key);
      var reach := FillFrom(b, node.state.player, node.state.boxes);
      t := Task(key, node, reach, partial);
      FloodSurveys(b, t);
      dead := Inspect(t);
    }

    method Inspect(t: Task) returns (dead: bool)
      requires Setup().Valid() && Checks() && ValidState(b, t.node.state) && CanonicalState(b, t.node.state)
      requires IsFill(b, CellSet(t.node.state.boxes), t.node.state.player, t.reach)
      modifies deadlock, deadlock.occupancy, corral, corral.stamps
      ensures Checks() && deadlock.Holds(b, t.node.state.boxes)
      ensures dead <==> HasDeadCorral(Setup(), t.node.state.boxes, t.reach)
      ensures dead <==> SealedDead(Setup(), t.node.state.boxes, t.reach)
      ensures dead ==> !Solvable(b, t.node.state)
    {
      HasDeadCorralMeans(Setup(), t.node.state, t.reach);
      deadlock.Refresh(b, t.node.state.boxes);
      dead := corral.IsDead(b, h, t.node.state.player, t.node.state.boxes, t.reach, deadlock);
    }

    // -------------------------------------------------------------- admitting a child

    /** The child's slot in the table is where a find left off. */
    ghost predicate Slotted(c: Admitted)
      reads arena, arena.table
    {
      SlotFor(arena.hash, arena.table[..], arena.records, c.node.state, c.index, c.found)
    }

    /** Every box takes part. */
    lemma AllTakePart(i: nat)
      requires b.Valid() && |deadlock.placed| == |b.labels| && i < |b.labels|
      ensures deadlock.Who(ALL_BOXES, i) == Below(|b.labels|)
    {
    }

    /** The freeze check on one push. */
    method Freezes(node: Node, i: nat, d: nat) returns (frozen: bool)
      requires b.Valid() && Exact(b, h) && deadlock.Holds(b, node.state.boxes) && ValidState(b, node.state)
      requires Pushable(b, node.state, i, d) && ValidState(b, Child(b, node.state, i, d))
      ensures frozen <==> Frozen(Setup(), node, i, d)
      ensures frozen <==> Jammed(b, h, node.state.boxes[i := b.Next(node.state.boxes[i], d)], Below(|b.labels|), i)
      ensures frozen ==> !Solvable(b, Child(b, node.state, i, d))
    {
      var from, to := node.state.boxes[i], b.Next(node.state.boxes[i], d);
      assert IndexOf(deadlock.placed, from) == i;
      AllTakePart(i);
      frozen := deadlock.IsDeadAfterPush(b, h, ALL_BOXES, from, to);
      if frozen { FreezeDismisses(b, h, node.state, i, d, Below(|b.labels|)); }
    }

    /** Runs one push through the prunes: the child to store and queue, or None when some prune
        drops it. */
    method Admit(t: Task, i: nat, d: nat, walk: nat) returns (r: Option<Admitted>)
      requires Setup().Valid() && Stocked() && Open() && deadlock.Holds(b, t.node.state.boxes)
      requires Held(Setup(), view, t.key)
      requires ValidState(b, t.node.state) && CanonicalState(b, t.node.state)
      requires NearestStand(b, t.node.state, i, d, walk)
      ensures var child, g, x := Child(b, t.node.state, i, d), PushG(t.node.g, walk), Setup();
              && (r.None? <==> Screened(x, view.best, t.node, i, d, walk) || Barred(x, view, child, g))
              && (r.Some? ==> Slotted(r.value) && Priced(x, view, t.key.id, r.value, child, g, d))
      ensures forall next | AtHand(b, t.node.state, i, d, walk, next) ::
                r.None? <==> TurnedAway(Setup(), view, t.node.state, i, d, PushG(t.node.g, walk), next)
      ensures r.Some? ==> AtHand(b, t.node.state, i, d, walk, r.value.node.state)
      ensures r.Some? ==> e.estimate(r.value.node.state).Some? && rooms(r.value.node.state).Some?
      ensures r.Some? ==> QueuedH(Setup(), r.value.node.state, r.value.h)
    {
      AdmitMeans(t, i, d, walk);
      var best := Best();
      ChildIsValid(b, t.node.state, i, d, walk);
      if e.deadAfter(i, b.Next(t.node.state.boxes[i], d), d) { return None; }
      if best.Some? && PushG(t.node.g, walk) >= best.value { return None; }
      var frozen := Freezes(t.node, i, d);
      if frozen { return None; }
      r := AdmitBuilt(t, i, d, walk);
    }

    /** What admits a push, spelled out for its one canonical child. */
    lemma AdmitMeans(t: Task, i: nat, d: nat, walk: nat)
      requires Stocked() && b.Valid() && ValidState(b, t.node.state) && NearestStand(b, t.node.state, i, d, walk)
      requires i < |b.labels| && d < 4
      ensures var child, g, x := Child(b, t.node.state, i, d), PushG(t.node.g, walk), Setup();
              && (forall next | AtHand(b, t.node.state, i, d, walk, next) ::
                    Screened(x, view.best, t.node, i, d, walk) || Barred(x, view, child, g) <==>
                    TurnedAway(x, view, t.node.state, i, d, g, next))
              && forall c | Priced(x, view, t.key.id, c, child, g, d) ::
                   && AtHand(b, t.node.state, i, d, walk, c.node.state)
                   && e.estimate(c.node.state).Some? && rooms(c.node.state).Some?
                   && QueuedH(x, c.node.state, c.h)
    {
      var x, g := Setup(), PushG(t.node.g, walk);
      forall next | AtHand(b, t.node.state, i, d, walk, next)
        ensures Screened(x, view.best, t.node, i, d, walk) || Barred(x, view, Child(b, t.node.state, i, d), g) <==>
                TurnedAway(x, view, t.node.state, i, d, g, next)
      {
        DroppedMeans(x, t.node, view, i, d, walk, next);
      }
      forall c | Priced(x, view, t.key.id, c, Child(b, t.node.state, i, d), g, d)
        ensures e.estimate(c.node.state).Some? && rooms(c.node.state).Some? && QueuedH(x, c.node.state, c.h)
      {
        PriceMeans(x, view, g, c.node.state);
      }
    }

    /** The prunes that read the built child. */
    method AdmitBuilt(t: Task, i: nat, d: nat, walk: nat) returns (r: Option<Admitted>)
      requires Stocked() && Open() && Held(Setup(), view, t.key)
      requires b.Valid() && ValidState(b, t.node.state) && CanonicalState(b, t.node.state)
      requires Pushable(b, t.node.state, i, d) && ValidState(b, Child(b, t.node.state, i, d))
      ensures var child, g, x := Child(b, t.node.state, i, d), PushG(t.node.g, walk), Setup();
              && (r.None? <==> Barred(x, view, child, g))
              && (r.Some? ==> Slotted(r.value) && Priced(x, view, t.key.id, r.value, child, g, d))
    {
      var next := Build(t.node, i, d);
      r := Evaluate(t.key, next, PushG(t.node.g, walk), d);
      ghost var child, g := Child(b, t.node.state, i, d), PushG(t.node.g, walk);
      assert Settles(b, child, next);
      if r.Some? { PricedIsNotBarred(Setup(), view, t.key.id, r.value, child, g, d); }
    }

    /** The child, its boxes in canonical order again. */
    method Build(node: Node, i: nat, d: nat) returns (next: State)
      requires b.Valid() && ValidState(b, node.state) && CanonicalState(b, node.state)
      requires Pushable(b, node.state, i, d) && ValidState(b, Child(b, node.state, i, d))
      ensures Settles(b, Child(b, node.state, i, d), next)
    {
      var to := b.Next(node.state.boxes[i], d);
      UnsettledAfterPush(b, node.state, i, to);
      next := SettleBox(b, State(node.state.boxes[i], node.state.boxes[i := to]), i);
    }

    /** The duplicate check and the price of a settled child reached at `g`. */
    method Evaluate(key: Key, next: State, g: nat, d: nat) returns (r: Option<Admitted>)
      requires Stocked() && Open() && Held(Setup(), view, key)
      ensures r.None? <==> var x := Setup();
                           Duplicated(view.records, next, g) || Price(x, next, g, e.estimate(next), view.best).None?
      ensures r.None? <==>
                || (exists id: nat :: id < |view.records| && !view.records[id].superseded &&
                      view.records[id].node.state == next && view.records[id].node.g <= g)
                || e.estimate(next).None? || rooms(next).None?
                || (view.best.Some? && view.best.value <= g + Needed(Setup(), next))
      ensures r.Some? ==> QueuedH(Setup(), next, r.value.h)
      ensures r.Some? ==> Slotted(r.value) && r.value.node == Node(next, g, Some(key.id), d, StoredH(e.estimate(next)))
      ensures r.Some? ==> Price(Setup(), next, g, e.estimate(next), view.best) == Some(r.value.h)
      ensures r.Some? && r.value.found.Some? ==> IsLatest(view.records, 0, next, r.value.found.value)
      ensures r.Some? && r.value.found.None? ==> Absent(view.records, 0, next)
    {
      arena.RoomForOne();
      LiveIsDuplicate(view.records, next, g);
      PriceMeans(Setup(), view, g, next);
      var index, found := arena.Find(next);
      FoundIsDuplicate(view.records, next, g, found);
      if found.Some? {
        StoredEstimate(Setup(), view, key, next, found.value);
        if arena.records[found.value].node.g <= g { return None; }
      }
      var known := if found.Some? then KnownH(arena.records[found.value].node.h) else None;
      var estimate := if known.Some? then known else e.estimate(next);
      var priced := PriceNow(next, g, estimate);
      if priced.None? { return None; }
      return Some(Admitted(Node(next, g, Some(key.id), d, StoredH(estimate)), priced.value, index, found));
    }

    method PriceNow(next: State, g: nat, estimate: Option<nat>) returns (r: Option<nat>)
      ensures r == Price(Setup(), next, g, estimate, Best())
    {
      var best := Best();
      if estimate.None? { return None; }
      var m := estimate.value;
      if best.Some? && g + m >= best.value { return None; }
      if m > 0 && best.Some? && e.standWalk(next) >= best.value - g - m { return None; }
      var s := rooms(next);
      if s.None? { return None; }
      if s.value <= m { return Some(m); }
      if best.Some? && g + s.value >= best.value { return None; }
      return Some(Min(s.value, MAX_QUEUED_H));
    }

    // -------------------------------------------------------------- inserts

    /** A child a find placed, under a record already stored. */
    ghost predicate Fits(c: Admitted)
      reads this`view, arena, arena.table
    {
      && Slotted(c) && c.node.parent.Some? && c.node.parent.value < |view.records|
      && (c.found.Some? ==> IsLatest(view.records, 0, c.node.state, c.found.value))
      && (c.found.None? ==> Absent(view.records, 0, c.node.state))
    }

    /** An admitted child becomes a record and an entry, and the incumbent if it is solved. With the
        limit reached there is one slot left, for a solved child, and the search is over either way;
        so it is when the allocator, which `refuseTable` and `refuseChunk` speak for, leaves no room
        ahead. */
    method Insert(t: Task, c: Admitted, refuseTable: bool, refuseChunk: bool) returns (stopped: bool)
      requires Stocked() && Open() && Fits(c)
      modifies this`queue, this`incumbent, this`status, this`interrupted, this`view, arena, arena.table
      ensures fresh({arena.table} - {old(arena.table)})
      ensures Stocked() && Inserted(Setup(), t, old(view), c, view, stopped)
      ensures stopped ==> AtLimit()
      ensures |old(arena.records)| < limit ==> (stopped <==> arena.starved)
      ensures stopped ==> view.interrupted == Some(t.node.g + if t.key.h > 0 then t.key.h else 1)
      ensures !stopped ==> Open()
    {
      var goal := c.h == 0 && Solved(b, c.node.state);
      if |arena.records| >= arena.nodeLimit {
        stopped := true;
        InsertFull(t, c, goal, refuseTable, refuseChunk);
      } else {
        Enqueue(c, goal, refuseTable, refuseChunk);
        stopped := arena.starved;
        if stopped { StopAtLimit(LimitF(t.node.g, t.key.h)); }
      }
    }

    /** A full arena keeps a solved child alone, and the search stops. */
    method InsertFull(t: Task, c: Admitted, goal: bool, refuseTable: bool, refuseChunk: bool)
      requires Stocked() && Open() && Fits(c) && (goal <==> c.h == 0 && Solved(b, c.node.state))
      modifies this`incumbent, this`status, this`interrupted, this`view, arena, arena.table
      ensures fresh({arena.table} - {old(arena.table)})
      ensures Stocked() && view == InsertedFull(old(view), LimitF(t.node.g, t.key.h), c, goal) && AtLimit()
    {
      if goal { StoreGoal(c, refuseTable, refuseChunk); }
      StopAtLimit(LimitF(t.node.g, t.key.h));
    }

    /** The append: the arena's new record, every other part untouched. */
    method Store(c: Admitted, refuseTable: bool, refuseChunk: bool) returns (id: nat)
      requires Stocked() && Open() && Fits(c)
      modifies this`view, arena, arena.table
      ensures fresh({arena.table} - {old(arena.table)})
      ensures Stocked() && id == |old(view).records|
      ensures view == old(view).(records := Appended(old(view).records, c.found, c.node))
    {
      arena.RoomForOne();
      ghost var before := arena.records;
      id := arena.Insert(c.node, c.index, c.found, refuseTable, refuseChunk);
      IncumbentKept(b, before, arena.records, incumbent);
      view := view.(records := arena.records);
    }

    /** Keeps a solved child, the new incumbent. */
    method StoreGoal(c: Admitted, refuseTable: bool, refuseChunk: bool)
      requires Stocked() && Open() && Fits(c) && Solved(b, c.node.state)
      modifies this`incumbent, this`view, arena, arena.table
      ensures fresh({arena.table} - {old(arena.table)})
      ensures Stocked()
      ensures view == old(view).(records := Appended(old(view).records, c.found, c.node), best := Some(c.node.g))
    {
      var id := Store(c, refuseTable, refuseChunk);
      incumbent := Some(id);
      view := view.(best := Some(c.node.g));
    }

    /** Stores and queues a child below the limit. */
    method Enqueue(c: Admitted, goal: bool, refuseTable: bool, refuseChunk: bool)
      requires Stocked() && Open() && Fits(c) && (goal ==> Solved(b, c.node.state))
      modifies this`queue, this`incumbent, this`view, arena, arena.table
      ensures fresh({arena.table} - {old(arena.table)})
      ensures Stocked() && view == InsertedBelow(old(view), 0, c, goal, false)
    {
      var id := |arena.records|;
      if goal {
        StoreGoal(c, refuseTable, refuseChunk);
      } else {
        var same := Store(c, refuseTable, refuseChunk);
      }
      Queue(KeyFor(c.node.g, c.h, id));
    }

    method Queue(key: Key)
      requires Stocked()
      modifies this`queue, this`view
      ensures Stocked() && view == Requeued(old(view), key)
    {
      queue := queue + multiset{key};
      view := Requeued(view, key);
    }

    /** The limit's end: the parent's expansion counts as cut short at `f`. */
    method StopAtLimit(f: nat)
      requires Stocked()
      modifies this`status, this`interrupted, this`view
      ensures Stocked() && view == old(view).(interrupted := Some(f))
      ensures AtLimit()
    {
      interrupted := Some(f);
      view := view.(interrupted := Some(f));
      status := if arena.scaledDown || arena.starved then MemoryLimit else StateLimit;
    }

    // -------------------------------------------------------------- one expansion

    /** One push of an expansion: dropped, left out of a partial one at the f it would have, or
        its child stored. */
    method TryPush(t: Task, deferred0: Option<nat>, i: nat, d: nat) returns (deferred: Option<nat>, stopped: bool)
      requires Setup().Valid() && Stocked() && Open() && deadlock.Holds(b, t.node.state.boxes)
      requires Working(Setup(), view, t)
      requires i < |b.labels| && d < 4
      modifies this`queue, this`incumbent, this`status, this`interrupted, this`view, arena, arena.table
      ensures fresh(arena.table) || arena.table == old(arena.table)
      ensures Pushed(Setup(), t, Effect(old(view), deferred0, false), i, d, Effect(view, deferred, stopped))
      ensures Stocked()
      ensures stopped ==> AtLimit()
      ensures !stopped ==> Open()
    {
      deferred, stopped := deferred0, false;
      if Legal(b, t, i, d) {
        assert StandKnown(b, t, i, d);
        NodeIsGood(Setup(), view, t.key);
        deferred, stopped := TryLegal(t, deferred0, i, d, WalkOf(b, t, i, d));
      }
    }

    /** A legal push: left out unbuilt, or its child made. */
    method TryLegal(t: Task, deferred0: Option<nat>, i: nat, d: nat, walk: nat)
      returns (deferred: Option<nat>, stopped: bool)
      requires Setup().Valid() && Stocked() && Open() && deadlock.Holds(b, t.node.state.boxes)
      requires Held(Setup(), view, t.key)
      requires ValidState(b, t.node.state) && CanonicalState(b, t.node.state)
      requires NearestStand(b, t.node.state, i, d, walk)
      modifies this`queue, this`incumbent, this`status, this`interrupted, this`view, arena, arena.table
      ensures fresh(arena.table) || arena.table == old(arena.table)
      ensures PushedLegal(Setup(), t, Effect(old(view), deferred0, false), i, d, walk, Effect(view, deferred, stopped))
      ensures Stocked()
      ensures stopped ==> AtLimit()
      ensures !stopped ==> Open()
    {
      var out := PartialF(t, i, d, walk);
      if out.Some? {
        deferred := Some(if deferred0.Some? && deferred0.value <= out.value then deferred0.value else out.value);
        stopped := false;
      } else {
        deferred, stopped := MakeChild(t, deferred0, i, d, walk);
      }
    }

    /** The next push of an expansion. */
    method TryNext(t: Task, deferred0: Option<nat>, i: nat, d: nat, ghost x: Setting, ghost k: Known)
      returns (deferred: Option<nat>, stopped: bool)
      requires x == Setup() && Stocked() && Open() && deadlock.Holds(b, t.node.state.boxes) && Begun(x, k, t)
      requires i < |b.labels| && d < 4 && RanTo(x, t, k, i, d, Effect(view, deferred0, false))
      modifies this`queue, this`incumbent, this`status, this`interrupted, this`view, arena, arena.table
      ensures fresh({arena.table} - {old(arena.table)})
      ensures Stocked() && RanTo(x, t, k, i, d + 1, Effect(view, deferred, stopped))
      ensures stopped ==> AtLimit()
      ensures !stopped ==> Open()
    {
      ghost var before := Effect(view, deferred0, false);
      RanKeeps(x, t, k, 4 * i + d, before);
      deferred, stopped := TryPush(t, deferred0, i, d);
      RanNext(x, t, k, i, d, before, Effect(view, deferred, stopped));
    }

    method PartialF(t: Task, i: nat, d: nat, walk: nat) returns (r: Option<nat>)
      requires i < |t.node.state.boxes|
      ensures r == LeftOut(Setup(), t, i, d, walk)
    {
      var parentH := e.estimate(t.node.state);
      if !t.partial || parentH.None? { return None; }
      var excess := Excess(e, Stand(b, t.node.state, i, d), walk, parentH.value);
      if excess.None? { return None; }
      var f := t.node.g + parentH.value + excess.value;
      return if f > t.node.g + t.key.h then Some(f) else None;
    }

    /** Builds the child of a legal push, and stores it or leaves it out. */
    method MakeChild(t: Task, deferred0: Option<nat>, i: nat, d: nat, walk: nat)
      returns (deferred: Option<nat>, stopped: bool)
      requires Setup().Valid() && Stocked() && Open() && deadlock.Holds(b, t.node.state.boxes)
      requires Held(Setup(), view, t.key)
      requires ValidState(b, t.node.state) && CanonicalState(b, t.node.state)
      requires NearestStand(b, t.node.state, i, d, walk)
      modifies this`queue, this`incumbent, this`status, this`interrupted, this`view, arena, arena.table
      ensures fresh(arena.table) || arena.table == old(arena.table)
      ensures Tried(Setup(), t, Effect(old(view), deferred0, false), i, d, walk, Effect(view, deferred, stopped))
      ensures Stocked()
      ensures stopped ==> AtLimit()
      ensures !stopped ==> Open()
    {
      var c := Admit(t, i, d, walk);
      if c.None? { return deferred0, false; }
      deferred, stopped := PlaceChild(t, deferred0, c.value);
    }

    /** Stores an admitted child, or leaves out an unsolved one past the node's queued f. */
    method PlaceChild(t: Task, deferred0: Option<nat>, c: Admitted) returns (deferred: Option<nat>, stopped: bool)
      requires Stocked() && Open() && Fits(c)
      modifies this`queue, this`incumbent, this`status, this`interrupted, this`view, arena, arena.table
      ensures fresh(arena.table) || arena.table == old(arena.table)
      ensures ChildOutcome(Setup(), t, Effect(old(view), deferred0, false), c, Effect(view, deferred, stopped))
      ensures Stocked()
      ensures stopped ==> AtLimit()
      ensures !stopped ==> Open()
    {
      deferred, stopped := deferred0, false;
      var f := c.node.g + c.h;
      if t.partial && c.h > 0 && f > t.node.g + t.key.h {
        deferred := Some(if deferred0.Some? && deferred0.value <= f then deferred0.value else f);
      } else {
        var refuseTable: bool, refuseChunk: bool := *, *;
        stopped := Insert(t, c, refuseTable, refuseChunk);
      }
    }

    /** Every push of the node's boxes, box by box and direction by direction. */
    method TryAll(t: Task, ghost x: Setting) returns (deferred: Option<nat>, stopped: bool)
      requires x == Setup() && Stocked() && Open() && deadlock.Holds(b, t.node.state.boxes) && Begun(x, view, t)
      modifies this`queue, this`incumbent, this`status, this`interrupted, this`view, arena, arena.table
      ensures fresh({arena.table} - {old(arena.table)})
      ensures Stocked() && RanToEnd(x, t, old(view), Effect(view, deferred, stopped))
      ensures stopped ==> AtLimit()
      ensures !stopped ==> Open()
    {
      deferred, stopped := None, false;
      ghost var k := view;
      RanFrom(x, t, k);
      for i := 0 to |b.labels|
        invariant fresh({arena.table} - {old(arena.table)})
        invariant Stocked() && Open() && RanTo(x, t, k, i, 0, Effect(view, deferred, false))
      {
        ghost var d;
        deferred, stopped, d := TryBox(t, deferred, i, x, k);
        if stopped {
          RanOver(x, t, k, i, d, Effect(view, deferred, true));
          return;
        }
        RanOn(x, t, k, i, Effect(view, deferred, false));
      }
      stopped := false;
      RanOver(x, t, k, |b.labels|, 0, Effect(view, deferred, false));
    }

    /** The four pushes of one box. */
    method TryBox(t: Task, deferred0: Option<nat>, i: nat, ghost x: Setting, ghost k: Known)
      returns (deferred: Option<nat>, stopped: bool, ghost tried: nat)
      requires x == Setup() && Stocked() && Open() && deadlock.Holds(b, t.node.state.boxes) && Begun(x, k, t)
      requires i < |b.labels| && RanTo(x, t, k, i, 0, Effect(view, deferred0, false))
      modifies this`queue, this`incumbent, this`status, this`interrupted, this`view, arena, arena.table
      ensures fresh({arena.table} - {old(arena.table)})
      ensures Stocked() && RanTo(x, t, k, i, tried, Effect(view, deferred, stopped))
      ensures stopped ==> AtLimit()
      ensures !stopped ==> Open() && tried == 4
    {
      deferred, stopped := deferred0, false;
      for d := 0 to 4
        invariant fresh({arena.table} - {old(arena.table)})
        invariant Stocked() && Open() && RanTo(x, t, k, i, d, Effect(view, deferred, false))
      {
        deferred, stopped := TryNext(t, deferred, i, d, x, k);
        if stopped { return deferred, true, d + 1; }
      }
      return deferred, false, 4;
    }

    /** Closes the node and tries its pushes, or none if a corral shows it dead. What a partial
        expansion left out comes back with the node, at the least of those f. */
    method Expand(key: Key)
      requires Expanding(key)
      modifies this`expanded, this`queue, this`incumbent, this`status, this`interrupted, this`view
      modifies arena, arena.table, deadlock, deadlock.occupancy, corral, corral.stamps
      ensures fresh(arena.table) || arena.table == old(arena.table)
      ensures Valid() && ExpansionOf(Setup(), old(view), key, view, !status.Running?)
      ensures !status.Running? ==> AtLimit()
      ensures status.Running? ==> Progressed(old(view), key, view)
    {
      ghost var before := view;
      CloseNode(key);
      ghost var t, end := ExpandClosed(key);
      ExpansionIs(Setup(), before, key, t, end, view);
    }

    method ExpandClosed(key: Key) returns (ghost t: Task, ghost end: Effect)
      requires Expanding(key)
      modifies this`queue, this`incumbent, this`status, this`interrupted, this`view
      modifies arena, arena.table, deadlock, deadlock.occupancy, corral, corral.stamps
      ensures fresh(arena.table) || arena.table == old(arena.table)
      ensures Valid() && t.key == key && t.node == old(view).records[key.id].node
      ensures |t.node.state.boxes| == |b.labels|
      ensures t.partial == (|old(view).records| >= partialAt && t.node.g > 0 && key.h < MAX_QUEUED_H)
      ensures IsFill(b, CellSet(t.node.state.boxes), t.node.state.player, t.reach)
      ensures ExpansionEnds(Setup(), old(view), t, end) && end.stopped == !status.Running?
      ensures view == if end.stopped then end.k else Finished(end.k, t, end.deferred)
      ensures !status.Running? ==> AtLimit()
      ensures status.Running? ==> Progressed(old(view), key, view)
    {
      var node := arena.records[key.id].node;
      var partial := |arena.records| >= partialAt && node.g > 0 && key.h < MAX_QUEUED_H;
      t, end := ExpandNode(key, node, partial);
    }

    method ExpandNode(key: Key, node: Node, partial: bool) returns (ghost t: Task, ghost end: Effect)
      requires Expanding(key) && node == view.records[key.id].node
      requires partial ==> node.g > 0 && key.h < MAX_QUEUED_H
      modifies this`queue, this`incumbent, this`status, this`interrupted, this`view
      modifies arena, arena.table, deadlock, deadlock.occupancy, corral, corral.stamps
      ensures fresh(arena.table) || arena.table == old(arena.table)
      ensures Stocked() && Checks() && Kept(Setup(), view) && Promises(Setup(), view, status, arena.starved)
      ensures t.key == key && t.node == node && t.partial == partial && |node.state.boxes| == |b.labels|
      ensures IsFill(b, CellSet(node.state.boxes), node.state.player, t.reach)
      ensures ExpansionEnds(Setup(), old(view), t, end) && end.stopped == !status.Running?
      ensures view == if end.stopped then end.k else Finished(end.k, t, end.deferred)
      ensures !status.Running? ==> AtLimit()
      ensures status.Running? ==> Progressed(old(view), key, view)
    {
      var dead, task := OpenNode(key, node, partial);
      t := task;
      end := ExpandOpened(task, dead);
    }

    method ExpandOpened(t: Task, dead: bool) returns (ghost end: Effect)
      requires Stocked() && Checks() && Open() && deadlock.Holds(b, t.node.state.boxes) && Begun(Setup(), view, t)
      requires dead <==> HasDeadCorral(Setup(), t.node.state.boxes, t.reach)
      requires dead ==> !Solvable(b, t.node.state)
      modifies this`queue, this`incumbent, this`status, this`interrupted, this`view, arena, arena.table
      ensures fresh(arena.table) || arena.table == old(arena.table)
      ensures Stocked() && Checks() && Kept(Setup(), view) && Promises(Setup(), view, status, arena.starved)
      ensures ExpansionEnds(Setup(), old(view), t, end) && end.stopped == !status.Running?
      ensures view == if end.stopped then end.k else Finished(end.k, t, end.deferred)
      ensures !status.Running? ==> AtLimit()
      ensures status.Running? ==> Progressed(old(view), t.key, view)
    {
      if dead {
        DeadKeeps(Setup(), view, t.key);
        end := Effect(view, None, false);
      } else {
        end := ExpandPushes(t);
      }
    }

    method ExpandPushes(t: Task) returns (ghost end: Effect)
      requires Stocked() && Open() && deadlock.Holds(b, t.node.state.boxes) && Begun(Setup(), view, t)
      modifies this`queue, this`incumbent, this`status, this`interrupted, this`view, arena, arena.table
      ensures fresh(arena.table) || arena.table == old(arena.table)
      ensures Stocked() && Kept(Setup(), view) && Promises(Setup(), view, status, arena.starved)
      ensures !status.SolvedStop? && !status.Exhausted? && end.stopped == !status.Running?
      ensures RanToEnd(Setup(), t, old(view), end)
      ensures view == if end.stopped then end.k else Finished(end.k, t, end.deferred)
      ensures !status.Running? ==> AtLimit()
      ensures status.Running? ==> Progressed(old(view), t.key, view)
    {
      ghost var k := view;
      var deferred, stopped := TryAll(t, Setup());
      end := Effect(view, deferred, stopped);
      RanToEndKeeps(Setup(), t, k, end);
      if !stopped { Finish(t, deferred); }
    }

    /** Drops the parent's entry, or queues the node again, its h risen. */
    method Finish(t: Task, deferred: Option<nat>)
      requires Setup().Valid() && Stocked() && UnderWay(Setup(), t, Effect(view, deferred, false), |b.labels|, 0)
      modifies this`queue, this`view
      ensures Stocked() && view == Finished(old(view), t, deferred)
      ensures Kept(Setup(), view) && view.interrupted.None? && Progressed(old(view), t.key, view)
    {
      FinishedKeeps(Setup(), t, Effect(view, deferred, false));
      if deferred.Some? { Queue(KeyFor(t.node.g, deferred.value - t.node.g, t.key.id)); }
    }

    // -------------------------------------------------------------- runs

    /** One pop and, unless it skips or ends the search, its expansion. A search that goes on
        stored a record or lightened its queue, so it ends. */
    method Turn()
      requires Valid() && status.Running?
      modifies this`expanded, this`queue, this`incumbent, this`status, this`interrupted, this`view
      modifies arena, arena.table, deadlock, deadlock.occupancy, corral, corral.stamps
      ensures fresh(arena.table) || arena.table == old(arena.table)
      ensures Valid() && TurnOf(Setup(), old(view), view, status)
      ensures status.Running? ==> Nearer(old(view), view)
    {
      ghost var k := view;
      var key := Pop();
      if key.Some? {
        ExpandNearer(key.value, k);
        return;
      }
      PopIsTurn(Setup(), k, view, status);
    }

    method ExpandNearer(key: Key, ghost k: Known)
      requires Expanding(key) && Popped(b, k, view, status, Some(key))
      modifies this`expanded, this`queue, this`incumbent, this`status, this`interrupted, this`view
      modifies arena, arena.table, deadlock, deadlock.occupancy, corral, corral.stamps
      ensures fresh(arena.table) || arena.table == old(arena.table)
      ensures Valid() && TurnOf(Setup(), k, view, status)
      ensures status.Running? ==> Nearer(k, view)
    {
      ghost var before := view;
      Expand(key);
      ExpansionIsTurn(Setup(), k, before, key, view, status);
    }

    /** Any number of turns, fewer only when the search ends before. */
    method Advance(pops: nat) returns (ghost run: seq<Moment>)
      requires Valid()
      modifies this`expanded, this`queue, this`incumbent, this`status, this`interrupted, this`view
      modifies arena, arena.table, deadlock, deadlock.occupancy, corral, corral.stamps
      ensures fresh(arena.table) || arena.table == old(arena.table)
      ensures Valid() && IsRun(Setup(), run)
      ensures run[0] == Moment(old(view), old(status)) && run[|run| - 1] == Moment(view, status)
      ensures |run| <= pops + 1 && (|run| <= pops ==> !status.Running?)
    {
      run := [Moment(view, status)];
      for i := 0 to pops
        invariant Valid() && (fresh(arena.table) || arena.table == old(arena.table)) && IsRun(Setup(), run)
        invariant |run| == i + 1 && run[0] == Moment(old(view), old(status)) && run[i] == Moment(view, status)
      {
        if !status.Running? { return; }
        run := TakeTurn(run);
      }
    }

    /** A turn, and the run it makes longer. */
    method TakeTurn(ghost before: seq<Moment>) returns (ghost run: seq<Moment>)
      requires Valid() && status.Running? && IsRun(Setup(), before) && before[|before| - 1] == Moment(view, status)
      modifies this`expanded, this`queue, this`incumbent, this`status, this`interrupted, this`view
      modifies arena, arena.table, deadlock, deadlock.occupancy, corral, corral.stamps
      ensures fresh(arena.table) || arena.table == old(arena.table)
      ensures Valid() && IsRun(Setup(), run) && run == before + [Moment(view, status)]
      ensures status.Running? ==> Nearer(old(view), view)
    {
      ghost var k := view;
      Turn();
      RunNext(Setup(), before, k, view, status);
      run := before + [Moment(view, status)];
    }

    /** Turns until the search ends, which it does. */
    method RunToEnd() returns (ghost run: seq<Moment>)
      requires Valid()
      modifies this`expanded, this`queue, this`incumbent, this`status, this`interrupted, this`view
      modifies arena, arena.table, deadlock, deadlock.occupancy, corral, corral.stamps
      ensures Valid() && !status.Running? && IsRun(Setup(), run)
      ensures run[0] == Moment(old(view), old(status)) && run[|run| - 1] == Moment(view, status)
    {
      run := [Moment(view, status)];
      while status.Running?
        invariant Valid() && (fresh(arena.table) || arena.table == old(arena.table)) && IsRun(Setup(), run)
        invariant run[0] == Moment(old(view), old(status)) && run[|run| - 1] == Moment(view, status)
        decreases if status.Running? then 1 else 0, limit - |view.records|, Measure(view.queue)
      {
        run := TakeTurn(run);
      }
    }

    /** The caller's way to end a run; one already over keeps its status. */
    method Stop(cancelled: bool)
      requires Valid()
      modifies this`status
      ensures Valid() && view == old(view)
      ensures status == if !old(status).Running? then old(status) else if cancelled then Cancelled else TimeLimit
    {
      if status.Running? {
        status := if cancelled then Cancelled else TimeLimit;
      }
    }

    // -------------------------------------------------------------- bounds

    /** The minimum of the queued f and of the expansion cut short, if there was one. */
    method Frontier() returns (f: nat)
      requires Valid()
      ensures IsFrontier(view, f) && (queue == multiset{} && interrupted.None? ==> f == NO_FRONTIER)
    {
      f := NO_FRONTIER;
      if queue != multiset{} {
        var least := Least(queue);
        forall key | key in queue ensures KeyFits(b, view.records, key) && least.f <= key.f {
          assert KeyFits(b, view.records, key);
          assert !Precedes(key, least);
        }
        f := least.f;
      }
      if interrupted.Some? && interrupted.value < f { f := interrupted.value; }
    }

    /** What any solution takes at least: the minimum of the queued f, the f cut short and the
        incumbent's cost, if that is a count at all. */
    method LowerBound() returns (r: Option<nat>)
      requires Valid()
      ensures forall f: nat :: r == Some(f) <==> LeastBound(view, f) && f < U32_MAX
      ensures r.Some? ==> Admissible(b, start, r.value)
      ensures Best().Some? ==> r.Some? && r.value <= Best().value
      ensures status.SolvedStop? ==> r == if Best().value <= F_SAT || queue == multiset{} then Best() else Some(F_SAT)
    {
      var frontier := Frontier();
      r := Cap(frontier);
      if Best().Some? { BestFits(); }
      CappedHolds(Setup(), view, frontier);
      if status.SolvedStop? { SolvedEndShows(Setup(), view, arena.starved, frontier); }
      forall f: nat ensures r == Some(f) <==> LeastBound(view, f) && f < U32_MAX {
        CappedIsLeast(view, frontier, f);
      }
    }

    method Cap(frontier: nat) returns (r: Option<nat>)
      ensures r == Capped(frontier, Best())
    {
      var best := Best();
      if best.Some? && frontier >= best.value { return best; }
      return if frontier < U32_MAX then Some(frontier) else None;
    }

    lemma BestFits()
      requires Valid() && Best().Some?
      ensures Best().value <= G_SAT
    {
      assert GoodNode(b, start, e, view.records[incumbent.value].node);
    }

    /** A cost below saturation is a route's length. */
    lemma IncumbentIsRoute()
      requires Valid() && Best().Some? && Best().value < G_SAT
      ensures SolvesIn(b, start, Best().value)
    {
      assert GoodNode(b, start, e, view.records[incumbent.value].node);
      SolvedCost(b, start, arena.records[incumbent.value].node.state, Best().value);
    }

    /** The search's proof, true of the start. An ended search with a route below saturation
        proves it optimal when nothing it knows is less, and otherwise gives the least it knows
        and the route's length as bounds; without such a route it proves nothing, unless it
        exhausted the positions. */
    method ProofNow() returns (proof: Option<Proof>)
      requires Valid()
      ensures proof.Some? ==> Proves(b, start, proof.value)
      ensures status.Running? ==> proof.None?
      ensures status.Exhausted? ==> proof == Some(Unsolvable)
      ensures !status.Running? && !status.Exhausted? ==> (proof.Some? <==> Best().Some? && Best().value < G_SAT)
      ensures !status.Running? ==> forall moves: nat ::
                proof == Some(Optimal(moves)) <==> Best() == Some(moves) && moves < G_SAT && LeastBound(view, moves)
      ensures !status.Running? ==> forall lower: nat, upper: nat ::
                proof == Some(Between(lower, upper)) <==>
                  Best() == Some(upper) && upper < G_SAT && lower < upper && LeastBound(view, lower)
      ensures status.SolvedStop? ==>
                (proof == Some(Optimal(Best().value)) <==>
                  Best().value < G_SAT && (Best().value <= F_SAT || queue == multiset{}))
    {
      var lower := LowerBound();
      proof := Certify(status, Best(), lower);
      if status.Exhausted? { BoundsHold(Setup(), view, NO_FRONTIER); }
      if Best().Some? && Best().value < G_SAT { IncumbentIsRoute(); }
    }

    // -------------------------------------------------------------- the room bound

    /** Ends the room bound's build: with tables, the arena is re-sized around their bytes and
        the start queued again at the larger price; otherwise the search goes on without. */
    method FinishBuild(tables: State -> Option<nat>, fixed: nat, memoryMib: nat) returns (fits: bool)
      requires Valid() && status.Running? && RoomsSound(b, start, tables) && memoryMib * MIB < U64_MAX
      requires |arena.records| == 1 && arena.chunks == 1 && incumbent.None? && arena.records[0].node.state == start
      requires queue == multiset{KeyFor(0, e.rootEstimate(start), 0)}
      modifies this`rooms, this`partialAt, this`queue, this`status, this`limit, this`view
      modifies arena`nodeLimit, arena`reservedBytes, arena`scaledDown, arena`fixedBytes
      ensures Valid() && arena.records == old(arena.records)
      ensures fits <==> old(Rechargeable(fixed, |b.labels|, limit, memoryMib * MIB, arena.table.Length))
      ensures !fits ==> rooms == old(rooms) && limit == old(limit) && partialAt == old(partialAt)
      ensures !fits ==> status.Running? && view == old(view)
      ensures fits ==> rooms == tables && IsCapacity(fixed, |b.labels|, old(limit), memoryMib * MIB, limit)
      ensures fits ==> partialAt == PartialFrom(limit)
      ensures fits && tables(start).None? ==> status.Exhausted? && queue == multiset{}
      ensures fits && tables(start).Some? ==> status.Running? && queue == multiset{Repriced(tables(start).value)}
      ensures fits && tables(start).Some? ==>
                var root, price := e.rootEstimate(start), tables(start).value;
                queue == multiset{EntryOf(0, if root < price then price else root, 0)}
    {
      RepricedMeans(tables);
      StartHeld();
      fits := Recharge(fixed, memoryMib);
      if fits {
        partialAt := PartialFrom(arena.nodeLimit);
        AttachRooms(tables);
      }
    }

    method AttachRooms(tables: State -> Option<nat>)
      requires Setup().Valid() && Stocked() && Checks() && HoldsStart(Setup(), arena.records) && Open()
      requires e.estimate(start).Some? && incumbent.None? && interrupted.None? && RoomsSound(b, start, tables)
      modifies this`rooms, this`queue, this`status, this`view
      ensures Valid() && rooms == tables
      ensures tables(start).None? ==> status.Exhausted? && queue == multiset{}
      ensures tables(start).Some? ==> status.Running? && queue == multiset{Repriced(tables(start).value)}
    {
      rooms := tables;
      StartCost(b, start);
      if tables(start).None? { Hopeless(); } else { Reprice(tables(start).value); }
    }

    /** A missing projection proves the start unsolvable. */
    method Hopeless()
      requires Setup().Valid() && Stocked() && Checks() && HoldsStart(Setup(), arena.records)
      requires incumbent.None? && interrupted.None? && !Solvable(b, start)
      modifies this`queue, this`status, this`view
      ensures Valid() && status.Exhausted? && queue == multiset{}
    {
      queue, status := multiset{}, Exhausted;
      view := view.(queue := queue);
      SeedUnsolvable(Setup(), view);
    }

    /** Queues the start again at the larger of its two prices. */
    method Reprice(price: nat)
      requires Setup().Valid() && Stocked() && Checks() && HoldsStart(Setup(), arena.records) && Open()
      requires e.estimate(start).Some? && incumbent.None? && interrupted.None? && Admissible(b, start, price)
      modifies this`queue, this`view
      ensures Valid() && status.Running? && queue == multiset{Repriced(price)}
    {
      var root := Min(e.rootEstimate(start), MAX_QUEUED_H);
      var h := if root < price then price else root;
      queue := multiset{KeyFor(0, h, 0)};
      view := view.(queue := queue);
      SeedQueued(Setup(), view, h);
    }

    /** The start's entry at the larger of its two prices. */
    function Repriced(price: nat): Key {
      var root := KeyFor(0, e.rootEstimate(start), 0);
      KeyFor(0, if root.h < price then price else root.h, 0)
    }

    lemma RepricedMeans(tables: State -> Option<nat>)
      ensures tables(start).Some? ==>
                var root, price := e.rootEstimate(start), tables(start).value;
                Repriced(price) == EntryOf(0, if root < price then price else root, 0)
    {
    }

    lemma StartHeld()
      requires Valid() && |arena.records| == 1 && arena.records[0].node.state == start
      requires queue == multiset{KeyFor(0, e.rootEstimate(start), 0)}
      ensures HoldsStart(Setup(), arena.records) && e.estimate(start).Some?
    {
      assert GoodNode(b, start, e, view.records[0].node);
      assert KeyEstimated(e, view.records, KeyFor(0, e.rootEstimate(start), 0));
    }

    /** Re-sizes the arena around more fixed buffers, the search as it was. */
    method Recharge(fixed: nat, memoryMib: nat) returns (fits: bool)
      requires Valid() && status.Running? && memoryMib * MIB < U64_MAX && |arena.records| == 1 && arena.chunks == 1
      modifies this`limit, arena`nodeLimit, arena`reservedBytes, arena`scaledDown, arena`fixedBytes
      ensures Valid() && !arena.starved
      ensures fits <==> old(Rechargeable(fixed, |b.labels|, limit, memoryMib * MIB, arena.table.Length))
      ensures fits ==> IsCapacity(fixed, |b.labels|, old(limit), memoryMib * MIB, limit)
      ensures !fits ==> limit == old(limit)
    {
      fits := arena.Recharge(fixed, memoryMib);
      limit := arena.nodeLimit;
    }

    /** The walk term raises the price of every child stored from now on; what is queued stays
        as it is. */
    method AttachWalk(raised: State -> Option<nat>)
      requires Valid() && RoomsSound(b, start, raised)
      modifies this`rooms
      ensures Valid() && rooms == raised && view == old(view)
    {
      rooms := raised;
    }
  }

  // ---------------------------------------------------------------- opening a search

  datatype SearchError = InvalidState(error: StateError) | Limits | BudgetTooSmall | Allocation

  datatype Opening = Opened(engine: Engine) | Refused(error: SearchError)

  /** The limits a caller may ask for. */
  predicate InRange(maxStates: nat, memoryMib: nat) {
    1 <= maxStates <= 256_000_000 && 4 <= memoryMib <= 32_768
  }

  /** Opens a search from the given player and box slots, or says why not: the first rule the
      state breaks, limits out of range, a budget too small for one state, or an allocation the
      system refused. */
  method NewSearch(b: Board, player: Cell, slots: seq<Cell>, e: Estimates, hash: State -> nat, tag: nat -> nat,
                   fixedBytes: nat, maxStates: nat, memoryMib: nat, refused: bool) returns (r: Opening)
    requires b.Valid() && |slots| == MAX_BOXES
    requires forall s {:trigger Sound(b, s, e)} | ValidState(b, s) && CanonicalState(b, s) &&
               SamePosition(b, State(player, slots[..|b.labels|]), s) :: Sound(b, s, e)
    ensures r.Refused? && r.error.InvalidState? ==>
              Faults(b, player, slots, r.error.error) && forall f | Faults(b, player, slots, f) ::
                Stage(r.error.error) <= Stage(f)
    ensures var valid := ValidState(b, State(player, slots[..|b.labels|])) && forall i | |b.labels| <= i < |slots| ::
              slots[i] == NONE;
            var small := TooSmall(fixedBytes, |b.labels|, maxStates, memoryMib * MIB);
            && (r.Refused? && r.error.InvalidState? <==> !valid)
            && (r.Refused? && r.error.Limits? <==> valid && !InRange(maxStates, memoryMib))
            && (r.Refused? && r.error.BudgetTooSmall? <==> valid && InRange(maxStates, memoryMib) && small)
            && (r.Refused? && r.error.Allocation? <==> valid && InRange(maxStates, memoryMib) && !small && refused)
    ensures r.Opened? ==> fresh(r.engine) && r.engine.Valid() && r.engine.Started() && r.engine.b == b
    ensures r.Opened? ==> SamePosition(b, State(player, slots[..|b.labels|]), r.engine.start)
    ensures r.Opened? ==> IsCapacity(fixedBytes, |b.labels|, maxStates, memoryMib * MIB, r.engine.limit)
  {
    var error := ValidateState(b, player, slots);
    if error.Some? { return Refused(InvalidState(error.value)); }
    if !InRange(maxStates, memoryMib) { return Refused(Limits); }
    var start := Canonicalize(b, State(player, slots[..|b.labels|]));
    var made := NewArena(hash, tag, fixedBytes, |b.labels|, maxStates, memoryMib, refused);
    match made
    case NoRoom => return Refused(BudgetTooSmall);
    case NoMemory => return Refused(Allocation);
    case Made(arena) =>
      var h := LiveCells(b);
      var engine := new Engine(b, start, e, h, arena);
      return Opened(engine);
  }
}
