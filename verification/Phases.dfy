/** Whole runs under the engine's policies (engine.rs), those that never stage: pops, inserts,
    hand-overs to a next phase, restarts, episodes and the polish at the end. Whatever the order
    of events, every insert stays counted once, the queue stays keyed at the running weight, the
    best route never gets longer, and the search restarts at most once. */
module Phases {
  import opened Rules
  import opened Arenas
  import opened Frontiers
  import opened Keys

  /** Moves a route may have and still be rebuilt. */
  const MAX_ROUTE: nat := 100_000
  /** Expansions without a better route before an episode, at least. */
  const EPISODE_FLOOR: nat := 0x1_0000

  // ---------------------------------------------------------------- policies

  /** What separates the modes. */
  datatype Policy = Policy(
    weight: nat, stopOnGoalPop: bool, stopOnGoalPush: bool, reopenClosed: bool, prunePoppedEstimate: bool,
    next: Option<Policy>, restart: Option<Policy>, stage: bool, longLadder: bool, keeperSides: bool,
    partialFill: Option<nat>, polish: bool, roomBound: bool)

  const EXACT := Policy(1, true, false, true, false, None, None, false, false, true, Some(90), false, true)
  const FAST := Policy(5, true, true, false, true, None, None, true, true, false, None, false, false)
  const QUALITY := Policy(3, false, false, true, true, None, None, false, false, false, None, true, false)
  const QUALITY_LIGHT := QUALITY.(weight := 2)
  const QUALITY_RESTART := QUALITY_LIGHT.(restart := Some(QUALITY))
  const FAST_THEN_QUALITY_RESTART :=
    FAST.(next := Some(QUALITY_RESTART), restart := Some(QUALITY), longLadder := false, polish := true)
  const ALL: seq<Policy> := [EXACT, FAST, QUALITY, QUALITY_LIGHT, QUALITY_RESTART, FAST_THEN_QUALITY_RESTART]

  /** Phase changes and restarts still ahead of a policy, at most. */
  function Ahead(p: Policy): nat {
    var a := match p.next case None => 0 case Some(q) => 1 + Ahead(q);
    var b := match p.restart case None => 0 case Some(q) => 1 + Ahead(q);
    if a < b then b else a
  }

  /** Restarts still ahead of a policy, at most, through whatever phases come first. */
  function RestartsAhead(p: Policy): nat {
    var a := match p.next case None => 0 case Some(q) => RestartsAhead(q);
    var b := match p.restart case None => 0 case Some(q) => 1 + RestartsAhead(q);
    if a < b then b else a
  }

  /** A policy of the table, its targets in the table too. */
  predicate Listed(p: Policy) {
    p in ALL && (p.next.Some? ==> p.next.value in ALL) && (p.restart.Some? ==> p.restart.value in ALL)
  }

  /** A target neither stages nor builds the room bound, and counts keeper sides as `p` does. */
  predicate TargetFits(p: Policy, target: Option<Policy>) {
    target.Some? ==> !target.value.stage && target.value.keeperSides == p.keeperSides && !target.value.roomBound
  }

  /** What the table promises of each policy: its targets are in it, a restarted policy has no
      phase and no restart of its own, staging needs a stop on solved pushes and a weight past 1,
      polish excludes keeper sides, partial expansion and the room bound run alone at weight 1,
      and a saturated key costs more than any route that can be rebuilt. */
  lemma TableIsClosed(p: Policy)
    requires p in ALL
    ensures Listed(p) && RestartsAhead(p) <= 1 && Ahead(p) <= 2
    ensures p.restart.Some? ==> p.restart.value.next.None? && p.restart.value.restart.None?
    ensures TargetFits(p, p.next) && TargetFits(p, p.restart)
    ensures !(p.keeperSides && p.polish)
    ensures p.stage ==> p.stopOnGoalPush && p.weight > 1
    ensures p.longLadder ==> p.stage
    ensures p.partialFill.Some? ==> p.partialFill.value <= 100 && p.weight == 1 && p.next.None? && p.restart.None?
    ensures p.partialFill.Some? ==> !p.stage
    ensures p.roomBound ==> p.weight == 1 && p.next.None? && p.restart.None? && !p.stage && p.keeperSides
    ensures p.weight >= 1 && MAX_ROUTE + p.weight * MAX_QUEUED_H < F_SAT
  {
    assert RestartsAhead(QUALITY) == 0 && RestartsAhead(QUALITY_LIGHT) == 0;
    assert RestartsAhead(EXACT) == 0 && RestartsAhead(FAST) == 0;
    assert RestartsAhead(QUALITY_RESTART) == 1 && RestartsAhead(FAST_THEN_QUALITY_RESTART) == 1;
    assert Ahead(QUALITY) == 0 && Ahead(QUALITY_LIGHT) == 0 && Ahead(EXACT) == 0 && Ahead(FAST) == 0;
    assert Ahead(QUALITY_RESTART) == 1 && Ahead(FAST_THEN_QUALITY_RESTART) == 2;
  }

  lemma RestartSpent(p: Policy)
    requires p in ALL && p.restart.Some?
    ensures p.restart.value in ALL && RestartsAhead(p) == 1 && RestartsAhead(p.restart.value) == 0
  {
    TableIsClosed(p);
  }

  lemma PhaseListed(p: Policy)
    requires p in ALL && p.next.Some?
    ensures p.next.value in ALL && RestartsAhead(p.next.value) <= RestartsAhead(p)
  {
    TableIsClosed(p);
  }

  lemma RestartsOnce(p: Policy)
    requires p in ALL
    ensures RestartsAhead(p) <= 1
  {
    TableIsClosed(p);
  }

  // ---------------------------------------------------------------- routes and queues

  function Shorter(a: Option<nat>, b: Option<nat>): (r: Option<nat>)
    ensures r.None? <==> a.None? && b.None?
    ensures r.Some? ==> (a.Some? ==> r.value <= a.value) && (b.Some? ==> r.value <= b.value) && (r == a || r == b)
  {
    if a.None? || (b.Some? && b.value < a.value) then b else a
  }

  /** A route held before is still held, or a shorter one. */
  predicate NoLonger(best: Option<nat>, before: Option<nat>) {
    before.Some? ==> best.Some? && best.value <= before.value
  }

  function CostsOf(records: seq<Record>): seq<nat> {
    seq(|records|, i requires 0 <= i < |records| => records[i].node.g)
  }

  lemma AppendQueued(records: seq<Record>, found: Option<nat>, node: Node, queue: seq<Key>, weight: nat)
    requires QueuedAt(CostsOf(records), queue, weight) && (found.Some? ==> found.value < |records|)
    ensures QueuedAt(CostsOf(Appended(records, found, node)), queue, weight)
    ensures forall h: nat :: QueuedAt(CostsOf(Appended(records, found, node)),
              queue + [WeightedKey(node.g, h, weight, |records|)], weight)
  {
    var after := CostsOf(Appended(records, found, node));
    assert forall i | 0 <= i < |records| :: after[i] == CostsOf(records)[i];
    assert after[|records|] == node.g;
  }

  /** Re-keying for another weight keeps the queue the running weight's own. */
  lemma RekeyedQueued(costs: seq<nat>, queue: seq<Key>, from: nat, to: nat)
    requires QueuedAt(costs, queue, from)
    ensures QueuedAt(costs, Rekeyed(costs, queue, to), to)
  {
  }

  /** A queue and one entry more, at g + weight * h. */
  function Grown(queue: seq<Key>, p: Policy, g: nat, h: nat, id: nat): seq<Key> {
    var held := if h < 0xFFFF then h else 0xFFFF;
    var f := g + p.weight * held;
    queue + [Key(if f < 0xF_FFFF then f else 0xF_FFFF, held, id)]
  }

  lemma GrownIs(queue: seq<Key>, p: Policy, g: nat, h: nat, id: nat)
    ensures Grown(queue, p, g, h, id) == queue + [WeightedKey(g, h, p.weight, id)]
  {
  }

  /** The records the queue names. */
  ghost function IdsOf(queue: seq<Key>): set<nat> {
    set key | key in queue :: key.id
  }

  /** Every live record that no pop took is queued. */
  ghost predicate Awaits(records: seq<Record>, queue: seq<Key>, taken: set<nat>) {
    forall id: nat | id < |records| && !records[id].superseded && id !in taken :: id in IdsOf(queue)
  }

  lemma AwaitsMeans(records: seq<Record>, queue: seq<Key>, taken: set<nat>)
    ensures Awaits(records, queue, taken) <==>
            forall id: nat | id < |records| && !records[id].superseded && id !in taken ::
              exists i {:trigger queue[i]} :: 0 <= i < |queue| && queue[i].id == id
  {
    forall id: nat
      ensures id in IdsOf(queue) <==> exists i {:trigger queue[i]} :: 0 <= i < |queue| && queue[i].id == id
    {
      if i :| 0 <= i < |queue| && queue[i].id == id { assert queue[i] in queue; }
    }
  }

  lemma AwaitsNew(records: seq<Record>, found: Option<nat>, node: Node, queue: seq<Key>, taken: set<nat>, key: Key)
    requires Awaits(records, queue, taken) && (found.Some? ==> found.value < |records|) && key.id == |records|
    ensures Awaits(Appended(records, found, node), queue + [key], taken)
  {
    assert key in queue + [key];
    forall id | id in IdsOf(queue) ensures id in IdsOf(queue + [key]) {
      var other :| other in queue && other.id == id;
      assert other in queue + [key];
    }
  }

  lemma AwaitsRekeyed(costs: seq<nat>, queue: seq<Key>, to: nat)
    requires forall i | 0 <= i < |queue| :: queue[i].id < |costs|
    ensures IdsOf(Rekeyed(costs, queue, to)) == IdsOf(queue)
  {
    var keyed := Rekeyed(costs, queue, to);
    forall id | id in IdsOf(queue) ensures id in IdsOf(keyed) {
      var i :| 0 <= i < |queue| && queue[i].id == id;
      assert keyed[i] in keyed;
    }
    forall id | id in IdsOf(keyed) ensures id in IdsOf(queue) {
      var i :| 0 <= i < |keyed| && keyed[i].id == id;
      assert queue[i] in queue;
    }
  }

  lemma AwaitsTaken(records: seq<Record>, queue: seq<Key>, taken: set<nat>, i: nat)
    requires Awaits(records, queue, taken) && i < |queue|
    ensures Awaits(records, queue[..i] + queue[i + 1..], taken + {queue[i].id})
  {
    var rest := queue[..i] + queue[i + 1..];
    forall id | id in IdsOf(queue) && id != queue[i].id ensures id in IdsOf(rest) {
      var j :| 0 <= j < |queue| && queue[j].id == id;
      assert queue[j] in rest by {
        if j < i { assert rest[j] == queue[j]; } else { assert rest[j - 1] == queue[j]; }
      }
    }
  }

  /** In an arena whose records a clear kept, the start alone is live. */
  lemma AwaitsStart(records: seq<Record>, found: Option<nat>, node: Node, key: Key)
    requires Live(records) == {} && (found.Some? ==> found.value < |records|) && key.id == |records|
    ensures Awaits(Appended(records, found, node), [key], {})
  {
    forall id: nat | id < |records| ensures records[id].superseded { assert id !in Live(records); }
    assert key in [key];
  }

  /** A least entry of the queue, and the rest. */
  method TakeLeast(queue: seq<Key>) returns (key: Key, i: nat)
    requires queue != []
    ensures IsLeastAt(queue, i) && key == queue[i]
  {
    i := 0;
    for k := 1 to |queue|
      invariant i < k && forall j | 0 <= j < k :: !Precedes(queue[j], queue[i])
    {
      if Precedes(queue[k], queue[i]) { i := k; }
    }
    key := queue[i];
  }

  /** What a dequeued entry asks for. */
  datatype Verdict = Stale | Goal | Dominated | Expandable

  /** An entry of a superseded record is stale and a solved one a goal; one that cannot beat
      the incumbent, by its estimate too where the policy looks at it, is dominated. */
  function VerdictOf(b: Board, record: Record, key: Key, best: Option<nat>, byEstimate: bool): Verdict {
    if record.superseded then Stale
    else if key.h == 0 && Solved(b, record.node.state) then Goal
    else if best.Some? && best.value <= record.node.g + if byEstimate then key.h else 0 then Dominated
    else Expandable
  }

  /** What the verdicts turn on. */
  lemma VerdictMeans(b: Board, record: Record, key: Key, best: Option<nat>, byEstimate: bool)
    ensures var verdict := VerdictOf(b, record, key, best, byEstimate);
            var home := key.h == 0 && Solved(b, record.node.state);
            && (verdict.Stale? <==> record.superseded)
            && (verdict.Goal? <==> !record.superseded && home)
            && (verdict.Expandable? <==> !record.superseded && !home && (best.Some? ==>
                  record.node.g < best.value && (byEstimate ==> record.node.g + key.h < best.value)))
  {
  }

  predicate IsLeastAt(queue: seq<Key>, i: nat) {
    i < |queue| && forall j | 0 <= j < |queue| :: !Precedes(queue[j], queue[i])
  }

  lemma LatestIsFound(records: seq<Record>, kept: nat, s: State, found: Option<nat>)
    requires found.Some? ==> IsLatest(records, kept, s, found.value)
    requires found.None? ==> Absent(records, kept, s)
    ensures forall id: nat | IsLatest(records, kept, s, id) :: found == Some(id)
  {
  }

  lemma RestQueued(costs: seq<nat>, queue: seq<Key>, weight: nat, i: nat)
    requires QueuedAt(costs, queue, weight) && i < |queue|
    ensures QueuedAt(costs, queue[..i] + queue[i + 1..], weight) && queue[i].id < |costs|
  {
  }

  /** The kept path ends at the incumbent, at its cost, and is no longer than the records. */
  lemma KeptIncumbent(records: seq<Record>, id: nat)
    requires ParentsOlder(records) && id < |records|
    ensures var kept := KeptPath(records, id);
            && 0 < |kept| <= |records| && kept[|kept| - 1].node.g == records[id].node.g
            && kept[|kept| - 1].node.state == records[id].node.state && |kept| == |PathTo(records, id)|
  {
    KeptPathIsPath(records, id);
    PathShorterThanRecords(records, id);
  }

  /** The policy restarts, and the route's path, kept, leaves room for the start. */
  ghost predicate RestartFits(policy: Policy, records: seq<Record>, route: Option<nat>, limit: nat, slots: nat)
    requires ParentsOlder(records) && (route.Some? ==> route.value < |records|)
  {
    && policy.restart.Some?
    && (route.Some? ==> var len := |PathTo(records, route.value)|; len < limit && len <= slots)
  }

  /** The policy restarts, and a path of `length` records, kept, leaves room for the start. */
  predicate LengthFits(policy: Policy, length: nat, limit: nat, slots: nat) {
    policy.restart.Some? && length < limit && length <= slots
  }

  /** A polish under way: the status the search goes on with after it, running for an episode,
      and the length of the route it holds. */
  datatype Polisher = Polisher(ending: Status, length: nat)

  /** The shortest route held: a polisher's, an episode's or the incumbent's. */
  function ShortestOf(polish: Option<Polisher>, polished: Option<nat>, moves: Option<nat>): Option<nat> {
    Shorter(Shorter(if polish.Some? then Some(polish.value.length) else None, polished), moves)
  }

  /** A shorter incumbent never lengthens the best route, though an episode's no longer shorter is
      dropped. */
  lemma RecordShortens(polish: Option<Polisher>, polished: Option<nat>, moves: Option<nat>, g: nat, left: Option<nat>)
    requires moves.Some? ==> g < moves.value
    requires left == polished || (left.None? && polished.Some? && polished.value >= g)
    ensures var after := ShortestOf(polish, left, Some(g));
            NoLonger(after, ShortestOf(polish, polished, moves)) && after.Some? && after.value <= g
  {
  }

  /** A polisher that takes the incumbent's route over holds what was held. */
  lemma PolisherTakes(polished: Option<nat>, moves: nat, ending: Status)
    ensures ShortestOf(Some(Polisher(ending, moves)), polished, None) == ShortestOf(None, polished, Some(moves))
  {
  }

  /** What an insert did with an admitted child. */
  datatype Inserted = Queued | Restarted | Stopped

  /** What happens to a search, and what its surroundings answer: the heuristic's h for a child,
      the allocator's refusals, and whether the route to the incumbent can be rebuilt. */
  datatype Event =
    | Pop(rebuilds: bool)
    | Child(state: State, direction: nat, walk: nat, h: nat, refuseTable: bool, refuseChunk: bool, rebuilds: bool)
    | ExpansionDone
    | Episode(fits: bool, rebuilds: bool)
    | PolishUnit(length: nat, over: bool)
    | Halt(cancelled: bool)

  class Search {
    const b: Board
    const arena: Arena
    const root: State
    /** The root's estimate, None when it has no goal assignment. */
    const rootH: Option<nat>
    var policy: Policy
    var status: Status
    var queue: seq<Key>
    /** The solved record whose cost bounds the search. */
    var incumbent: Option<nat>
    var interrupted: Option<nat>
    /** Records a restart dropped. */
    var discarded: nat
    var expanded: nat
    /** The expansions at which the incumbent's episode is due. */
    var episodeAt: Option<nat>
    var polish: Option<Polisher>
    /** The length of the best episode's route. */
    var polished: Option<nat>
    /** The entry under expansion. */
    var expanding: Option<Key>
    ghost var restarts: nat
    /** The records popped since the search last started. */
    ghost var taken: set<nat>
    /** Every event there was. */
    ghost var handled: seq<Event>

    function IncumbentMoves(): Option<nat>
      reads this`incumbent, arena
    {
      if incumbent.Some? && incumbent.value < |arena.records| then Some(arena.records[incumbent.value].node.g) else None
    }

    /** The shortest of the polisher's route, the best episode's and the incumbent's. */
    function BestMoves(): Option<nat>
      reads this`incumbent, this`polish, this`polished, arena
    {
      ShortestOf(polish, polished, IncumbentMoves())
    }

    /** Records inserted, those a restart discarded included. */
    function Generated(): nat
      reads this`discarded, arena
    {
      discarded + |arena.records|
    }

    /** The search proper runs: no polish does. */
    predicate Searching()
      reads this`status, this`polish
    {
      status.Running? && polish.None?
    }

    /** The search runs, or goes on once an episode ends. */
    predicate GoesOn()
      reads this`status, this`polish
    {
      status.Running? && (polish.None? || polish.value.ending.Running?)
    }

    /** Inserts are counted once. */
    ghost predicate Counted()
      reads this`discarded, arena, arena.table
    {
      arena.Valid() && discarded + |arena.records| == arena.inserted
    }

    /** The policy is the table's, and the search restarts at most once. */
    ghost predicate Planned()
      reads this`policy, this`restarts
    {
      policy in ALL && restarts + RestartsAhead(policy) <= 1
    }

    /** The incumbent is a solved record, and every entry is its record's at the running weight. */
    ghost predicate Linked()
      reads this`policy, this`queue, this`incumbent, arena
    {
      && (incumbent.Some? ==> incumbent.value < |arena.records| && Solved(b, arena.records[incumbent.value].node.state))
      && QueuedAt(CostsOf(arena.records), queue, policy.weight)
    }

    ghost predicate Open()
      reads arena
    {
      !arena.starved && |arena.records| <= arena.nodeLimit
    }

    /** While the search goes on nothing stored is lost: what is live was popped or is queued. */
    ghost predicate Awaiting()
      reads this`queue, this`taken, arena
    {
      Awaits(arena.records, queue, taken)
    }

    /** The search proper ended as `s`, which a polish may hold back. */
    ghost predicate EndedAs(s: Status)
      reads this`status, this`polish
    {
      if polish.Some? then status.Running? && polish.value.ending == s else status == s
    }

    function LimitStatus(): Status
      reads arena
    {
      if arena.scaledDown || arena.starved then MemoryLimit else StateLimit
    }

    ghost predicate Valid()
      reads this, arena, arena.table
    {
      && Counted() && Planned() && Linked() && (GoesOn() ==> Open() && Awaiting())
      && (expanding.Some? ==> Searching() && expanding.value.id < |arena.records|)
    }

    /** In every run that never stages, generated is unique states plus improvements. */
    lemma Conserved()
      requires Valid()
      ensures Generated() == arena.uniqueStates + arena.duplicateImprovements && restarts <= 1
    {
    }

    /** The arena takes the start and, after it, one record more without growing. */
    ghost predicate RoomForStart()
      reads arena
    {
      && !arena.starved && |arena.records| < arena.nodeLimit && arena.table.Length >= 4 && arena.resident == 0
      && (|arena.records| + 2 < Reserved(arena.chunks) || arena.nodeLimit < Reserved(arena.chunks))
    }

    /** A fresh search in an empty arena. */
    constructor (b: Board, policy: Policy, root: State, rootH: Option<nat>, arena: Arena)
      requires policy in ALL && arena.Valid() && arena.records == [] && !arena.starved && arena.inserted == 0
      modifies arena, arena.table
      ensures Valid() && this.policy == policy && restarts == 0 && this.arena == arena && BestMoves().None?
      ensures status == if rootH.Some? then Running else Exhausted
      ensures fresh(arena.table) || arena.table == old(arena.table)
    {
      this.b, this.arena, this.policy, this.root, this.rootH := b, arena, policy, root, rootH;
      status, queue, incumbent, interrupted, discarded, expanded := Running, [], None, None, 0, 0;
      episodeAt, polish, polished, expanding, restarts, taken, handled := None, None, None, None, 0, {}, [];
      new;
      RestartsOnce(policy);
      arena.EmptyHasRoom();
      Seed();
    }

    /** Inserts and queues the start, or ends the search when it has no goal assignment. */
    method Seed()
      requires Counted() && Planned() && Linked() && RoomForStart() && queue == [] && expanding.None? && Searching()
      requires taken == {}
      modifies this`queue, this`status, arena, arena.table
      ensures fresh(arena.table) || arena.table == old(arena.table)
      ensures Valid() && |arena.records| == |old(arena.records)| + 1 && IncumbentMoves() == old(IncumbentMoves())
      ensures arena.nodeLimit == old(arena.nodeLimit)
      ensures status == if rootH.Some? then Running else Exhausted
    {
      var node := Node(root, 0, None, 0, StoredH(rootH));
      ghost var before := arena.records;
      NoneLive();
      ghost var found;
      var id;
      id, found := Store(node, true, true);
      if rootH.Some? {
        queue := [WeightedKey(0, rootH.value, policy.weight, id)];
        ghost var costs := CostsOf(arena.records);
        assert costs[id] == 0;
        AwaitsStart(before, found, node, queue[0]);
      } else {
        status := Exhausted;
      }
    }

    lemma NoneLive()
      requires Counted() && arena.resident == 0
      ensures Live(arena.records) == {}
    {
    }

    /** Appends a record for a state, superseding the version stored, if any. */
    method Store(node: Node, refuseTable: bool, refuseChunk: bool) returns (id: nat, ghost older: Option<nat>)
      requires Counted() && Linked() && Open() && node.parent.None?
      modifies arena, arena.table
      ensures fresh(arena.table) || arena.table == old(arena.table)
      ensures Counted() && Linked() && id == |old(arena.records)| && |arena.records| == id + 1
      ensures (older.Some? ==> older.value < id) && arena.records == Appended(old(arena.records), older, node)
      ensures arena.records[id].node == node && arena.nodeLimit == old(arena.nodeLimit)
      ensures IncumbentMoves() == old(IncumbentMoves())
      ensures old(RoomForStart()) ==> Open()
    {
      arena.RoomForOne();
      var index, found := arena.Find(node.state);
      id := Append(node, index, found, refuseTable, refuseChunk);
      older := found;
    }

    /** Appends a record where a find left off. */
    method Append(node: Node, index: nat, found: Option<nat>, refuseTable: bool, refuseChunk: bool) returns (id: nat)
      requires Counted() && Linked() && Open() && (node.parent.Some? ==> node.parent.value < |arena.records|)
      requires SlotFor(arena.hash, arena.table[..], arena.records, node.state, index, found)
      requires found.Some? ==> IsLatest(arena.records, arena.kept, node.state, found.value)
      requires found.None? ==> Absent(arena.records, arena.kept, node.state)
      modifies arena, arena.table
      ensures fresh(arena.table) || arena.table == old(arena.table)
      ensures Counted() && Linked() && id == |old(arena.records)|
      ensures arena.records == Appended(old(arena.records), found, node)
      ensures arena.nodeLimit == old(arena.nodeLimit) && IncumbentMoves() == old(IncumbentMoves())
      ensures old(RoomForStart()) ==> Open()
      ensures forall h: nat :: QueuedAt(CostsOf(arena.records), queue + [WeightedKey(node.g, h, policy.weight, id)],
                policy.weight)
      ensures id == arena.nodeLimit ==> !arena.starved && arena.table.Length == old(arena.table.Length)
    {
      arena.RoomForOne();
      AppendQueued(arena.records, found, node, queue, policy.weight);
      ghost var buf, len := Buffers(arena.table.Length, arena.chunks, arena.starved), |arena.records|;
      if RoomForStart() {
        StartFits(buf, arena.nodeLimit, len, if found.None? then 1 else 0, refuseTable, refuseChunk);
      }
      id := arena.Insert(node, index, found, refuseTable, refuseChunk);
    }

    // -------------------------------------------------------------- hand-overs

    /** A solved record that beats the incumbent replaces it. Under a polishing policy its own
        episode is then due, and a polished route it beats is forgotten. */
    method Record(id: nat)
      requires Linked() && id < |arena.records| && Solved(b, arena.records[id].node.state)
      requires IncumbentMoves().Some? ==> arena.records[id].node.g < IncumbentMoves().value
      modifies this`incumbent, this`polished, this`episodeAt
      ensures Linked() && incumbent == Some(id) && NoLonger(BestMoves(), old(BestMoves()))
      ensures var g, best := arena.records[id].node.g, old(BestMoves());
              BestMoves() == Some(if best.Some? && best.value < g then best.value else g)
      ensures policy.polish ==>
                episodeAt == Some(expanded + if expanded < EPISODE_FLOOR then EPISODE_FLOOR else expanded)
      ensures policy.polish && polished.Some? ==> polished.value < arena.records[id].node.g
      ensures !policy.polish ==> episodeAt == old(episodeAt) && polished == old(polished)
    {
      ghost var g, was := arena.records[id].node.g, polished;
      ghost var moves := IncumbentMoves();
      incumbent := Some(id);
      if policy.polish {
        episodeAt := Some(expanded + if expanded < EPISODE_FLOOR then EPISODE_FLOOR else expanded);
        if polished.Some? && polished.value >= arena.records[id].node.g { polished := None; }
      }
      RecordShortens(polish, was, moves, g, polished);
    }

    /** Goes on under the next phase, if the policy has one: each entry keeps its record and h and
        takes the key the new weight gives. */
    method NextPhase() returns (handed: bool)
      requires Planned() && Linked()
      modifies this`policy, this`queue
      ensures Planned() && Linked() && handed == old(policy).next.Some?
      ensures handed ==> policy == old(policy).next.value
      ensures handed ==> queue == Rekeyed(CostsOf(arena.records), old(queue), policy.weight)
      ensures !handed ==> policy == old(policy) && queue == old(queue)
      ensures old(Awaiting()) ==> Awaiting()
    {
      handed := policy.next.Some?;
      if handed {
        PhaseListed(policy);
        AwaitsRekeyed(CostsOf(arena.records), queue, policy.next.value.weight);
        ghost var costs := CostsOf(arena.records);
        RekeyedQueued(costs, queue, policy.weight, policy.next.value.weight);
        queue := Rekeyed(CostsOf(arena.records), queue, policy.next.value.weight);
        policy := policy.next.value;
      }
    }

    /** Whether a restart finds room: the incumbent's path, kept, leaves some for the start. */
    ghost predicate CanRestart()
      requires ParentsOlder(arena.records) && (incumbent.Some? ==> incumbent.value < |arena.records|)
      reads this`policy, this`incumbent, arena
    {
      RestartFits(policy, arena.records, incumbent, arena.nodeLimit, arena.table.Length)
    }

    /** Searches again from the start under the restart policy, the incumbent kept as the bound, in
        the room that emptying the arena around its path leaves. */
    method Restart() returns (restarted: bool)
      requires Counted() && Planned() && Linked() && Searching() && !arena.starved && arena.nodeLimit <= |arena.records|
      modifies this`policy, this`queue, this`status, this`incumbent, this`discarded, this`restarts, this`expanding
      modifies this`taken, arena, arena.table
      ensures fresh(arena.table) || arena.table == old(arena.table)
      ensures taken == if restarted then {} else old(taken)
      ensures restarted == old(CanRestart()) && arena.nodeLimit == old(arena.nodeLimit)
      ensures restarted <==> old(policy.restart.Some? && (incumbent.Some? ==>
                |PathTo(arena.records, incumbent.value)| < arena.nodeLimit &&
                |PathTo(arena.records, incumbent.value)| <= arena.table.Length))
      ensures restarted ==> Valid() && policy == old(policy).restart.value && restarts == old(restarts) + 1
      ensures restarted ==> expanding.None?
      ensures BestMoves() == old(BestMoves())
      ensures restarted ==> status == if rootH.Some? then Running else Exhausted
      ensures !restarted ==> Counted() && Linked() && Unmoved(old(policy), old(queue), old(incumbent), old(restarts))
      ensures !restarted ==> status == old(status) && arena.records == old(arena.records) && !arena.starved
    {
      if policy.restart.None? { return false; }
      restarted := Empty();
      if restarted { StartOver(); }
    }

    /** Starts the search over under the policy's restart in the arena just emptied. */
    method StartOver()
      requires Counted() && Planned() && Linked() && Searching() && RoomForStart() && queue == []
      requires policy.restart.Some?
      modifies this`policy, this`queue, this`status, this`restarts, this`expanding, this`taken, arena, arena.table
      ensures fresh(arena.table) || arena.table == old(arena.table)
      ensures taken == {}
      ensures Valid() && policy == old(policy).restart.value && restarts == old(restarts) + 1 && expanding.None?
      ensures IncumbentMoves() == old(IncumbentMoves()) && arena.nodeLimit == old(arena.nodeLimit)
      ensures status == if rootH.Some? then Running else Exhausted
    {
      RestartSpent(policy);
      policy, restarts, expanding, taken := policy.restart.value, restarts + 1, None, {};
      Seed();
    }

    ghost predicate Unmoved(policy: Policy, queue: seq<Key>, incumbent: Option<nat>, restarts: nat)
      reads this`policy, this`queue, this`incumbent, this`restarts
    {
      this.policy == policy && this.queue == queue && this.incumbent == incumbent && this.restarts == restarts
    }

    /** Drops every record but the incumbent's path, or refuses because the start would not fit
        beside it. */
    method Empty() returns (emptied: bool)
      requires Counted() && Linked() && policy.restart.Some? && !arena.starved && arena.nodeLimit <= |arena.records|
      modifies this`incumbent, this`discarded, this`queue, arena, arena.table
      ensures arena.table == old(arena.table) && emptied == old(CanRestart()) && arena.nodeLimit == old(arena.nodeLimit)
      ensures Counted() && Linked() && !arena.starved
      ensures emptied ==> RoomForStart() && queue == [] && IncumbentMoves() == old(IncumbentMoves())
      ensures !emptied ==> incumbent == old(incumbent) && queue == old(queue) && arena.records == old(arena.records)
    {
      var before := |arena.records|;
      arena.FullIsReserved();
      if incumbent.Some? {
        emptied := EmptyKeeping();
      } else {
        arena.Clear();
        arena.EmptyHasRoom();
        queue, discarded := [], discarded + before;
        emptied := true;
      }
    }

    /** Emptying around a path: its records were inserted already and are not inserted again. */
    method EmptyKeeping() returns (emptied: bool)
      requires Counted() && Linked() && policy.restart.Some? && !arena.starved
      requires arena.nodeLimit < Reserved(arena.chunks)
      requires incumbent.Some?
      modifies this`incumbent, this`discarded, this`queue, arena, arena.table
      ensures arena.table == old(arena.table) && emptied == old(CanRestart()) && arena.nodeLimit == old(arena.nodeLimit)
      ensures Counted() && Linked() && !arena.starved
      ensures emptied ==> RoomForStart() && queue == [] && IncumbentMoves() == old(IncumbentMoves())
      ensures !emptied ==> incumbent == old(incumbent) && queue == old(queue) && arena.records == old(arena.records)
    {
      var before := |arena.records|;
      KeptIncumbent(arena.records, incumbent.value);
      var kept := arena.ClearKeeping(incumbent.value);
      emptied := kept.Some?;
      if emptied {
        incumbent, queue := Some(kept.value), [];
        discarded := discarded + (before - |arena.records|);
      }
    }

    /** Ends the search proper, handing a route that can be rebuilt to the polisher when the
        policy polishes: the status is final once that polish ends. */
    method End(ending: Status, rebuilds: bool)
      requires Linked() && Searching() && !ending.Running?
      modifies this`status, this`queue, this`incumbent, this`polish, this`expanding
      ensures Linked() && !GoesOn() && expanding.None? && BestMoves() == old(BestMoves())
      ensures var polishes := policy.polish && old(IncumbentMoves()).Some? && rebuilds &&
                old(IncumbentMoves()).value <= MAX_ROUTE;
              && polish == (if polishes then Some(Polisher(ending, old(IncumbentMoves()).value)) else None)
              && status == (if polishes then Running else ending)
      ensures EndedAs(ending)
      ensures if polish.Some? then incumbent.None? && queue == []
              else incumbent == old(incumbent) && queue == old(queue)
    {
      expanding := None;
      var moves := IncumbentMoves();
      if policy.polish && moves.Some? && rebuilds && moves.value <= MAX_ROUTE {
        PolisherTakes(polished, moves.value, ending);
        polish := Some(Polisher(ending, moves.value));
        incumbent, queue := None, [];
      } else {
        status := ending;
      }
    }

    /** The arena is full or cannot grow: the expansion counts as cut short at `f`. */
    method StopAtLimit(f: nat, rebuilds: bool)
      requires Linked() && Searching()
      modifies this`status, this`queue, this`incumbent, this`polish, this`expanding, this`interrupted
      ensures Linked() && !GoesOn() && expanding.None? && BestMoves() == old(BestMoves()) && interrupted == Some(f)
      ensures EndedAs(if arena.scaledDown || arena.starved then MemoryLimit else StateLimit)
    {
      interrupted := Some(f);
      End(LimitStatus(), rebuilds);
    }

    // -------------------------------------------------------------- inserts

    /** What a child must be to be stored: not dearer than the incumbent allows, under the record
        being expanded, and found where it will be bound. */
    ghost predicate Admitted(node: Node, h: nat, index: nat, found: Option<nat>)
      reads this`incumbent, this`expanding, arena, arena.table
    {
      && expanding.Some? && node.parent == Some(expanding.value.id)
      && (IncumbentMoves().Some? ==> node.g + h < IncumbentMoves().value)
      && SlotFor(arena.hash, arena.table[..], arena.records, node.state, index, found)
      && (found.Some? ==> IsLatest(arena.records, arena.kept, node.state, found.value))
      && (found.None? ==> Absent(arena.records, arena.kept, node.state))
    }

    /** An admitted child becomes a record and an entry, and the incumbent if solved. `r` says, case
        by case of the arena and the policy, whether the search goes on, began again or stopped. */
    method InsertChild(node: Node, h: nat, index: nat, found: Option<nat>, refuseTable: bool, refuseChunk: bool,
                       rebuilds: bool)
      returns (r: Inserted)
      requires Valid() && Admitted(node, h, index, found)
      modifies this, arena, arena.table
      ensures fresh(arena.table) || arena.table == old(arena.table)
      ensures Valid() && NoLonger(BestMoves(), old(BestMoves())) && old(restarts) <= restarts
      ensures arena.nodeLimit == old(arena.nodeLimit)
      ensures h == 0 && Solved(b, node.state) ==> BestMoves().Some? && BestMoves().value <= node.g
      ensures |old(arena.records)| < arena.nodeLimit ==> !r.Restarted?
      ensures |old(arena.records)| >= arena.nodeLimit ==> !r.Queued?
      ensures r.Queued? ==> Searching() && expanding == old(expanding)
      ensures |old(arena.records)| < arena.nodeLimit ==> arena.records == Appended(old(arena.records), found, node)
      ensures |old(arena.records)| >= arena.nodeLimit && h == 0 && Solved(b, node.state) ==>
                (r.Restarted? <==> old(FitsAfter()))
      ensures |old(arena.records)| >= arena.nodeLimit && !(h == 0 && Solved(b, node.state)) ==>
                (r.Restarted? <==> old(CanRestart()))
      ensures |old(arena.records)| >= arena.nodeLimit && h == 0 && Solved(b, node.state) ==>
                (r.Restarted? <==> old(policy.restart.Some? &&
                    |PathTo(arena.records, expanding.value.id)| + 1 < arena.nodeLimit &&
                    |PathTo(arena.records, expanding.value.id)| + 1 <= arena.table.Length))
      ensures |old(arena.records)| >= arena.nodeLimit && !(h == 0 && Solved(b, node.state)) ==>
                (r.Restarted? <==> old(policy.restart.Some? && (incumbent.Some? ==>
                    |PathTo(arena.records, incumbent.value)| < arena.nodeLimit &&
                    |PathTo(arena.records, incumbent.value)| <= arena.table.Length)))
      ensures |old(arena.records)| < arena.nodeLimit ==>
                (r.Stopped? <==>
                  arena.starved ||
                  (h == 0 && Solved(b, node.state) && old(policy).stopOnGoalPush && old(policy).next.None?))
      ensures r.Restarted? ==> restarts == old(restarts) + 1 && expanding.None?
      ensures r.Stopped? ==> restarts == old(restarts) && !GoesOn() && expanding.None?
      ensures taken == if r.Restarted? then {} else old(taken)
      ensures r.Queued? ==>
                QueuesOne(old(policy), old(queue), h == 0 && Solved(b, node.state), node.g, h, |old(arena.records)|)
      ensures r.Stopped? ==> EndedAs(
                if |old(arena.records)| < arena.nodeLimit && h == 0 && Solved(b, node.state) &&
                   old(policy).stopOnGoalPush && old(policy).next.None? then SolvedStop else LimitStatus())
      ensures r.Stopped? && !(|old(arena.records)| < arena.nodeLimit && h == 0 && Solved(b, node.state) &&
                old(policy).stopOnGoalPush && old(policy).next.None?) ==>
                interrupted == Some(old(LimitF(arena.records[expanding.value.id].node.g, expanding.value.h)))
    {
      var goal := h == 0 && Solved(b, node.state);
      if |arena.records| >= arena.nodeLimit {
        r := InsertFull(node, goal, index, found, refuseTable, refuseChunk, rebuilds);
      } else {
        r := InsertBelow(node, h, goal, index, found, refuseTable, refuseChunk, rebuilds);
      }
    }

    /** What queueing record `id` leaves: the queue as it was and one entry more, for its g and h, all
        of it re-keyed if a goal pushed hands over to a next phase. */
    ghost predicate QueuesOne(p: Policy, before: seq<Key>, goal: bool, g: nat, h: nat, id: nat)
      reads this`policy, this`queue, arena
    {
      HandedOver(p, Grown(before, p, g, h, id), goal && p.stopOnGoalPush)
    }

    method InsertFull(node: Node, goal: bool, index: nat, found: Option<nat>, refuseTable: bool, refuseChunk: bool,
                      rebuilds: bool)
      returns (r: Inserted)
      requires Valid() && Admitted(node, 0, index, found) && (goal ==> Solved(b, node.state))
      requires |arena.records| >= arena.nodeLimit
      modifies this, arena, arena.table
      ensures fresh(arena.table) || arena.table == old(arena.table)
      ensures Valid() && NoLonger(BestMoves(), old(BestMoves())) && old(restarts) <= restarts && !r.Queued?
      ensures arena.nodeLimit == old(arena.nodeLimit)
      ensures goal ==> BestMoves().Some? && BestMoves().value <= node.g
      ensures goal ==> (r.Restarted? <==> old(FitsAfter()))
      ensures !goal ==> (r.Restarted? <==> old(CanRestart()))
      ensures r.Restarted? ==> restarts == old(restarts) + 1 && expanding.None?
      ensures r.Stopped? ==> restarts == old(restarts) && !GoesOn() && expanding.None?
      ensures taken == if r.Restarted? then {} else old(taken)
      ensures r.Stopped? ==> EndedAs(LimitStatus()) && interrupted == Some(old(LimitF(
                arena.records[expanding.value.id].node.g, expanding.value.h)))
    {
      var key := expanding.value;
      var f := LimitF(arena.records[key.id].node.g, key.h);
      if goal { StoreGoal(node, index, found, refuseTable, refuseChunk); }
      expanding := None;
      r := LeaveFull(f, rebuilds);
    }

    /** Whether a restart would find room with a child of the record under expansion as the
        incumbent. */
    ghost predicate FitsAfter()
      requires ParentsOlder(arena.records) && expanding.Some? && expanding.value.id < |arena.records|
      reads this`policy, this`expanding, arena, arena.table
    {
      LengthFits(policy, |PathTo(arena.records, expanding.value.id)| + 1, arena.nodeLimit, arena.table.Length)
    }

    /** A full arena starts over if the policy restarts and there is room, and ends otherwise. */
    method LeaveFull(f: nat, rebuilds: bool) returns (r: Inserted)
      requires Counted() && Planned() && Linked() && Searching() && expanding.None?
      requires !arena.starved && arena.nodeLimit <= |arena.records|
      modifies this, arena, arena.table
      ensures fresh(arena.table) || arena.table == old(arena.table)
      ensures Valid() && BestMoves() == old(BestMoves()) && !r.Queued? && arena.nodeLimit == old(arena.nodeLimit)
      ensures r.Restarted? <==> old(CanRestart())
      ensures r.Restarted? ==> restarts == old(restarts) + 1 && expanding.None?
      ensures r.Stopped? ==> restarts == old(restarts) && !GoesOn() && expanding.None? && interrupted == Some(f)
      ensures taken == if r.Restarted? then {} else old(taken)
      ensures r.Stopped? ==> EndedAs(LimitStatus())
    {
      var restarted := Restart();
      if restarted {
        r := Restarted;
      } else {
        StopAtLimit(f, rebuilds);
        r := Stopped;
      }
    }

    /** Stores a solved child in a full arena's spare slot, the new incumbent. */
    method StoreGoal(node: Node, index: nat, found: Option<nat>, refuseTable: bool, refuseChunk: bool)
      requires Counted() && Linked() && Open() && Solved(b, node.state) && |arena.records| == arena.nodeLimit
      requires Admitted(node, 0, index, found) && expanding.value.id < |arena.records|
      modifies this`incumbent, this`polished, this`episodeAt, arena, arena.table
      ensures fresh(arena.table) || arena.table == old(arena.table)
      ensures Counted() && Linked() && NoLonger(BestMoves(), old(BestMoves()))
      ensures BestMoves().Some? && BestMoves().value <= node.g
      ensures |arena.records| > arena.nodeLimit == old(arena.nodeLimit) && !arena.starved
      ensures CanRestart() <==> old(FitsAfter())
    {
      AppendedPath(arena.records, found, node);
      var id := Append(node, index, found, refuseTable, refuseChunk);
      Record(id);
    }

    method InsertBelow(node: Node, h: nat, goal: bool, index: nat, found: Option<nat>, refuseTable: bool,
                       refuseChunk: bool, rebuilds: bool)
      returns (r: Inserted)
      requires Valid() && Admitted(node, h, index, found) && (goal ==> Solved(b, node.state))
      requires |arena.records| < arena.nodeLimit
      modifies this, arena, arena.table
      ensures fresh(arena.table) || arena.table == old(arena.table)
      ensures Valid() && NoLonger(BestMoves(), old(BestMoves())) && restarts == old(restarts) && !r.Restarted?
      ensures arena.nodeLimit == old(arena.nodeLimit)
      ensures goal ==> BestMoves().Some? && BestMoves().value <= node.g
      ensures r.Queued? ==> Searching() && expanding == old(expanding)
      ensures arena.records == Appended(old(arena.records), found, node)
      ensures r.Stopped? <==> arena.starved || (goal && old(policy).stopOnGoalPush && old(policy).next.None?)
      ensures r.Stopped? ==> !GoesOn() && expanding.None?
      ensures taken == old(taken)
      ensures r.Queued? ==> QueuesOne(old(policy), old(queue), goal, node.g, h, |old(arena.records)|)
      ensures r.Stopped? ==> EndedAs(if goal && old(policy).stopOnGoalPush && old(policy).next.None? then SolvedStop
                                     else LimitStatus())
      ensures r.Stopped? && !(goal && old(policy).stopOnGoalPush && old(policy).next.None?) ==>
                interrupted == Some(old(LimitF(arena.records[expanding.value.id].node.g, expanding.value.h)))
    {
      var f := LimitF(arena.records[expanding.value.id].node.g, expanding.value.h);
      var id := Enqueue(node, h, index, found, refuseTable, refuseChunk);
      r := AfterStore(id, goal, f, rebuilds);
    }

    /** Stores a child and queues it. */
    method Enqueue(node: Node, h: nat, index: nat, found: Option<nat>, refuseTable: bool, refuseChunk: bool)
      returns (id: nat)
      requires Valid() && Admitted(node, h, index, found) && |arena.records| < arena.nodeLimit
      modifies this`queue, arena, arena.table
      ensures fresh(arena.table) || arena.table == old(arena.table)
      ensures id == |old(arena.records)| && |arena.records| == id + 1 && arena.records[id].node == node
      ensures Counted() && Linked() && Awaiting()
      ensures arena.records == Appended(old(arena.records), found, node)
      ensures arena.nodeLimit == old(arena.nodeLimit) && IncumbentMoves() == old(IncumbentMoves())
      ensures queue == Grown(old(queue), policy, node.g, h, id)
      ensures !arena.starved ==> Open()
    {
      ghost var key := WeightedKey(node.g, h, policy.weight, |arena.records|);
      GrownIs(queue, policy, node.g, h, |arena.records|);
      AwaitsNew(arena.records, found, node, queue, taken, key);
      id := Append(node, index, found, refuseTable, refuseChunk);
      queue := queue + [WeightedKey(node.g, h, policy.weight, id)];
    }

    /** What follows a child stored below the limit. */
    method AfterStore(id: nat, goal: bool, f: nat, rebuilds: bool) returns (r: Inserted)
      requires Planned() && Linked() && Awaiting() && Searching() && id < |arena.records| && expanding.Some?
      requires goal ==> Solved(b, arena.records[id].node.state)
      requires goal && IncumbentMoves().Some? ==> arena.records[id].node.g < IncumbentMoves().value
      modifies this`policy, this`queue, this`status, this`incumbent, this`polish, this`polished, this`episodeAt
      modifies this`expanding, this`interrupted
      ensures Planned() && Linked() && NoLonger(BestMoves(), old(BestMoves())) && !r.Restarted?
      ensures goal ==> BestMoves().Some? && BestMoves().value <= arena.records[id].node.g
      ensures r.Stopped? <==> (goal && old(policy).stopOnGoalPush && old(policy).next.None?) || arena.starved
      ensures r.Queued? ==> Searching() && expanding == old(expanding) && Awaiting()
      ensures r.Queued? ==> var handed := goal && old(policy).stopOnGoalPush && old(policy).next.Some?;
                            && policy == (if handed then old(policy).next.value else old(policy))
                            && queue == if handed then Rekeyed(CostsOf(arena.records), old(queue), policy.weight)
                                        else old(queue)
      ensures r.Stopped? ==> !GoesOn() && expanding.None?
      ensures r.Stopped? ==> EndedAs(if goal && old(policy).stopOnGoalPush && old(policy).next.None? then SolvedStop
                                     else LimitStatus())
      ensures r.Stopped? && !(goal && old(policy).stopOnGoalPush && old(policy).next.None?) ==> interrupted == Some(f)
    {
      if goal {
        Record(id);
        if policy.stopOnGoalPush {
          var handed := NextPhase();
          if !handed {
            End(SolvedStop, rebuilds);
            return Stopped;
          }
        }
      }
      if arena.starved {
        StopAtLimit(f, rebuilds);
        return Stopped;
      }
      r := Queued;
    }

    // -------------------------------------------------------------- pops

    /** With no entry left the search ends. */
    method RunDry(rebuilds: bool)
      requires Valid() && Searching() && expanding.None? && queue == []
      modifies this`status, this`queue, this`incumbent, this`polish, this`expanding
      ensures Valid() && !GoesOn() && BestMoves() == old(BestMoves())
      ensures EndedAs(if old(incumbent).Some? then SolvedStop else Exhausted)
      ensures forall id: nat | id < |arena.records| && !arena.records[id].superseded :: id in taken
    {
      End(if incumbent.Some? then SolvedStop else Exhausted, rebuilds);
    }

    /** Takes the least entry, and does what its verdict asks for. */
    method PopOne(rebuilds: bool) returns (ghost i: nat)
      requires Valid() && Searching() && expanding.None? && queue != []
      modifies this`policy, this`queue, this`status, this`incumbent, this`polish, this`polished, this`episodeAt
      modifies this`expanding, this`expanded, this`taken, arena`records
      ensures Valid() && NoLonger(BestMoves(), old(BestMoves()))
      ensures IsLeastAt(old(queue), i) && old(queue)[i].id < |old(arena.records)|
      ensures taken == old(taken) + {old(queue)[i].id}
      ensures var key := old(queue)[i];
              var record := old(arena.records)[key.id];
              var verdict := VerdictOf(b, record, key, old(IncumbentMoves()), old(policy).prunePoppedEstimate);
              var rest := old(queue)[..i] + old(queue)[i + 1..];
              && Answered(verdict, key, record.node.g, old(policy), rest, old(BestMoves()))
              && (!verdict.Goal? ==> policy == old(policy) && queue == rest)
      ensures expanding.Some? ==> arena.records[expanding.value.id].closed
      ensures expanded == old(expanded) || (expanding.Some? && expanded == old(expanded) + 1)
    {
      var key, at := Dequeue();
      i := at;
      JudgeEntry(key, rebuilds);
    }

    /** A hand-over to a policy's next phase, when it is `due` and there is one: the queue keeps its
        entries, re-keyed. */
    ghost predicate HandedOver(p: Policy, before: seq<Key>, due: bool)
      reads this`policy, this`queue, arena
    {
      if due && p.next.Some? then
        && policy == p.next.value && (forall i | 0 <= i < |before| :: before[i].id < |arena.records|)
        && queue == Rekeyed(CostsOf(arena.records), before, policy.weight)
      else policy == p && queue == before
    }

    /** What follows a verdict: an entry expanded, a route taken and the search ended unless the
        policy goes on, or nothing. */
    ghost predicate Answered(verdict: Verdict, key: Key, g: nat, p: Policy, before: seq<Key>, best: Option<nat>)
      reads this`expanding, this`status, this`polish, this`polished, this`incumbent, this`policy, this`queue, arena
    {
      match verdict
      case Goal =>
        && expanding.None? && NoLonger(BestMoves(), Some(g))
        && Searching() == !(p.stopOnGoalPop && p.next.None?) && (!Searching() ==> EndedAs(SolvedStop))
        && (Searching() ==> HandedOver(p, before, p.stopOnGoalPop))
      case Expandable => expanding == Some(key) && Searching() && BestMoves() == best
      case _ => expanding.None? && Searching() && BestMoves() == best
    }

    /** Takes a least entry out of the queue. */
    method Dequeue() returns (key: Key, i: nat)
      requires Valid() && queue != []
      modifies this`queue, this`taken
      ensures taken == old(taken) + {key.id}
      ensures Valid() && IsLeastAt(old(queue), i) && key == old(queue)[i] && key.id < |arena.records|
      ensures queue == old(queue)[..i] + old(queue)[i + 1..]
    {
      key, i := TakeLeast(queue);
      RestQueued(CostsOf(arena.records), queue, policy.weight, i);
      if GoesOn() { AwaitsTaken(arena.records, queue, taken, i); }
      queue := queue[..i] + queue[i + 1..];
      taken := taken + {key.id};
    }

    /** What a dequeued entry asks for. */
    method JudgeEntry(key: Key, rebuilds: bool)
      requires Valid() && Searching() && expanding.None? && key.id < |arena.records|
      modifies this`policy, this`queue, this`status, this`incumbent, this`polish, this`polished, this`episodeAt
      modifies this`expanding, this`expanded, arena`records
      ensures Valid() && NoLonger(BestMoves(), old(BestMoves()))
      ensures var record := old(arena.records)[key.id];
              var verdict := VerdictOf(b, record, key, old(IncumbentMoves()), old(policy).prunePoppedEstimate);
              && Answered(verdict, key, record.node.g, old(policy), old(queue), old(BestMoves()))
              && (!verdict.Goal? ==> policy == old(policy) && queue == old(queue))
      ensures expanding.Some? ==> arena.records[key.id].closed
      ensures expanded == old(expanded) || (expanding.Some? && expanded == old(expanded) + 1)
    {
      var record, best := arena.records[key.id], IncumbentMoves();
      if record.superseded { return; }
      if key.h == 0 && Solved(b, record.node.state) {
        PopGoal(key.id, rebuilds);
      } else if best.Some? &&
        (record.node.g >= best.value || (policy.prunePoppedEstimate && record.node.g + key.h >= best.value)) {
        return;
      } else {
        Expand(key);
      }
    }

    /** A solved entry: recorded if shorter, and the end unless the policy goes on. */
    method PopGoal(id: nat, rebuilds: bool)
      requires Planned() && Linked() && Searching() && expanding.None?
      requires id < |arena.records| && Solved(b, arena.records[id].node.state)
      modifies this`policy, this`queue, this`status, this`incumbent, this`polish, this`polished, this`episodeAt,
        this`expanding
      ensures Planned() && Linked() && NoLonger(BestMoves(), old(BestMoves())) && expanding.None?
      ensures BestMoves().Some? && BestMoves().value <= arena.records[id].node.g
      ensures GoesOn() == Searching() == !(old(policy).stopOnGoalPop && old(policy).next.None?)
      ensures Searching() ==>
                && incumbent == (if old(IncumbentMoves()).Some? &&
                                    old(IncumbentMoves()).value <= arena.records[id].node.g then old(incumbent)
                                 else Some(id))
                && HandedOver(old(policy), old(queue), old(policy).stopOnGoalPop)
      ensures (old(Awaiting()) ==> GoesOn() ==> Awaiting()) && (!GoesOn() ==> EndedAs(SolvedStop))
    {
      if IncumbentMoves().None? || arena.records[id].node.g < IncumbentMoves().value { Record(id); }
      if policy.stopOnGoalPop {
        var handed := NextPhase();
        if !handed { End(SolvedStop, rebuilds); }
      }
    }

    /** Opens an entry for expansion, counting its node the first time. */
    method Expand(key: Key)
      requires Valid() && Searching() && expanding.None? && key.id < |arena.records|
      modifies this`expanding, this`expanded, arena`records
      ensures Valid() && expanding == Some(key) && BestMoves() == old(BestMoves())
      ensures arena.records[key.id].closed
      ensures expanded == old(expanded) + if old(arena.records)[key.id].closed then 0 else 1
    {
      ghost var costs := CostsOf(arena.records);
      var first := arena.Close(key.id);
      assert CostsOf(arena.records) == costs;
      if first { expanded := expanded + 1; }
      expanding := Some(key);
    }

    // -------------------------------------------------------------- children, episodes, the end

    /** What drops a child: a cost and h the incumbent has beaten, or a version of its state no
        dearer, or closed under a policy that leaves those closed. */
    ghost predicate Dropped(e: Event)
      requires e.Child? && expanding.Some? && expanding.value.id < |arena.records|
      reads this`expanding, this`incumbent, this`policy, arena
    {
      var g := PushG(arena.records[expanding.value.id].node.g, e.walk);
      || (IncumbentMoves().Some? && g + e.h >= IncumbentMoves().value)
      || exists id: nat :: IsLatest(arena.records, arena.kept, e.state, id) &&
           (arena.records[id].node.g <= g || (!policy.reopenClosed && arena.records[id].closed))
    }

    /** A child is dropped exactly when the incumbent's length is within its g + h, or a live record
        of its state is no dearer, or closed for good. */
    lemma DroppedMeans(e: Event)
      requires Valid() && expanding.Some? && e.Child?
      ensures var node := arena.records[expanding.value.id].node;
              var g := if node.g + e.walk + 1 < G_SAT then node.g + e.walk + 1 else G_SAT;
              Dropped(e) <==>
                || (incumbent.Some? && arena.records[incumbent.value].node.g <= g + e.h)
                || (exists id: nat :: id < |arena.records| && !arena.records[id].superseded &&
                      arena.records[id].node.state == e.state &&
                      (arena.records[id].node.g <= g || (!policy.reopenClosed && arena.records[id].closed)))
    {
      forall id: nat | id < |arena.records| && !arena.records[id].superseded && arena.records[id].node.state == e.state
        ensures IsLatest(arena.records, arena.kept, e.state, id)
      {
        LiveIsLatest(arena.records, arena.kept, id);
      }
      forall id: nat | IsLatest(arena.records, arena.kept, e.state, id) ensures !arena.records[id].superseded {
        LatestIsLive(arena.records, arena.kept, e.state, id);
      }
    }

    /** Runs one child of the record being expanded through the bounds and the duplicate check, and
        inserts it unless one of them drops it. */
    method TryChild(e: Event) returns (r: Option<Inserted>)
      requires Valid() && expanding.Some? && e.Child?
      modifies this, arena, arena.table
      ensures fresh(arena.table) || arena.table == old(arena.table)
      ensures Valid() && NoLonger(BestMoves(), old(BestMoves())) && old(restarts) <= restarts
      ensures r.None? <==> old(Dropped(e))
      ensures r.None? ==> arena.records == old(arena.records) && expanding == old(expanding) && Searching()
      ensures r.None? ==> queue == old(queue)
      ensures r.Some? && e.h == 0 && Solved(b, e.state) ==>
                NoLonger(BestMoves(), Some(old(PushG(arena.records[expanding.value.id].node.g, e.walk))))
      ensures r == Some(Restarted) ==> taken == {} && restarts == old(restarts) + 1
      ensures r != Some(Restarted) ==> taken == old(taken)
      ensures r.Some? && old(|arena.records| < arena.nodeLimit) ==>
                StoresChild(e, old(arena.records), old(expanding).value)
      ensures r == Some(Queued) ==>
                QueuesOne(old(policy), old(queue), e.h == 0 && Solved(b, e.state),
                          old(PushG(arena.records[expanding.value.id].node.g, e.walk)), e.h, |old(arena.records)|)
    {
      var dropped, index, found := Screen(e);
      if dropped { return None; }
      var inserted := InsertEvent(e, index, found);
      return Some(inserted);
    }

    /** Builds and inserts a child that nothing drops. */
    method InsertEvent(e: Event, index: nat, found: Option<nat>) returns (r: Inserted)
      requires Valid() && expanding.Some? && e.Child? && !Dropped(e)
      requires SlotFor(arena.hash, arena.table[..], arena.records, e.state, index, found)
      requires found.Some? ==> IsLatest(arena.records, arena.kept, e.state, found.value)
      requires found.None? ==> Absent(arena.records, arena.kept, e.state)
      modifies this, arena, arena.table
      ensures fresh(arena.table) || arena.table == old(arena.table)
      ensures Valid() && NoLonger(BestMoves(), old(BestMoves())) && old(restarts) <= restarts
      ensures e.h == 0 && Solved(b, e.state) ==>
                NoLonger(BestMoves(), Some(old(PushG(arena.records[expanding.value.id].node.g, e.walk))))
      ensures if r.Restarted? then taken == {} && restarts == old(restarts) + 1 else taken == old(taken)
      ensures old(|arena.records| < arena.nodeLimit) ==> StoresChild(e, old(arena.records), old(expanding).value)
      ensures r.Queued? ==>
                QueuesOne(old(policy), old(queue), e.h == 0 && Solved(b, e.state),
                          old(PushG(arena.records[expanding.value.id].node.g, e.walk)), e.h, |old(arena.records)|)
    {
      ghost var before, parent := arena.records, expanding.value;
      var g := PushG(arena.records[expanding.value.id].node.g, e.walk);
      var node := Node(e.state, g, Some(expanding.value.id), e.direction, StoreH(e.h));
      r := InsertChild(node, e.h, index, found, e.refuseTable, e.refuseChunk, e.rebuilds);
    }

    /** The last record is the child's, at its parent's cost, the walk and the push. */
    ghost predicate StoresChild(e: Event, before: seq<Arenas.Record>, parent: Key)
      requires e.Child?
      reads arena
    {
      && |arena.records| == |before| + 1 && parent.id < |before|
      && var g := before[parent.id].node.g + e.walk + 1;
         arena.records[|before|] == Arenas.Record(
           Node(e.state, if g < G_SAT then g else G_SAT, Some(parent.id), e.direction,
                if e.h < 0xFFFF then e.h else 0xFFFF),
           false, false)
    }

    /** The bounds and the duplicate check, and where the child's state would be bound. */
    method Screen(e: Event) returns (dropped: bool, index: nat, found: Option<nat>)
      requires Valid() && expanding.Some? && e.Child?
      ensures dropped <==> Dropped(e)
      ensures !dropped ==> SlotFor(arena.hash, arena.table[..], arena.records, e.state, index, found)
      ensures !dropped && found.Some? ==> IsLatest(arena.records, arena.kept, e.state, found.value)
      ensures !dropped && found.None? ==> Absent(arena.records, arena.kept, e.state)
    {
      index, found := 0, None;
      var g, best := PushG(arena.records[expanding.value.id].node.g, e.walk), IncumbentMoves();
      if best.Some? && g >= best.value { return true, index, found; }
      arena.RoomForOne();
      index, found := arena.Find(e.state);
      LatestIsFound(arena.records, arena.kept, e.state, found);
      if found.Some? {
        var previous := arena.records[found.value];
        if previous.node.g <= g || (!policy.reopenClosed && previous.closed) { return true, index, found; }
      }
      dropped := best.Some? && g + e.h >= best.value;
    }

    /** Begins the episode that is due. Without the memory for a job, or a route to give it, there
        is none; it counts as over. */
    method StartEpisode(fits: bool, rebuilds: bool)
      requires Valid() && Searching() && expanding.None?
      modifies this`episodeAt, this`polish
      ensures Valid() && BestMoves() == old(BestMoves())
      ensures var due := old(episodeAt).Some? && old(episodeAt).value <= expanded;
              && episodeAt == (if due then None else old(episodeAt))
              && (polish.Some? <==>
                due && policy.polish && incumbent.Some? && fits && rebuilds && IncumbentMoves().value <= MAX_ROUTE)
              && (polish.Some? ==> polish == Some(Polisher(Running, IncumbentMoves().value)))
    {
      if episodeAt.None? || expanded < episodeAt.value { return; }
      episodeAt := None;
      var moves := IncumbentMoves();
      if policy.polish && moves.Some? && fits && rebuilds && moves.value <= MAX_ROUTE {
        polish := Some(Polisher(Running, moves.value));
      }
    }

    /** A unit of polishing, which never makes a route longer. When over, the last polish leaves the
        status that was waiting, and an episode leaves its route, if that is the shortest now, to a
        search that resumes. */
    method PolishOne(length: nat, over: bool)
      requires Valid() && status.Running? && polish.Some? && expanding.None?
      modifies this`polish, this`polished, this`status
      ensures Valid() && NoLonger(BestMoves(), old(BestMoves()))
      ensures !over ==> status.Running? && polish.Some? && polish.value.ending == old(polish).value.ending
      ensures over && !old(polish).value.ending.Running? ==> status == old(polish).value.ending
      ensures over && old(polish).value.ending.Running? ==> Searching()
      ensures BestMoves() == Some(if length < old(BestMoves()).value then length else old(BestMoves()).value)
      ensures !over ==>
                polish.value.length == if length < old(polish).value.length then length else old(polish).value.length
    {
      var kept := if length < polish.value.length then length else polish.value.length;
      polish := Some(Polisher(polish.value.ending, kept));
      if over { PolishOver(); }
    }

    method PolishOver()
      requires Valid() && status.Running? && polish.Some? && expanding.None?
      modifies this`polish, this`polished, this`status
      ensures Valid() && BestMoves() == old(BestMoves())
      ensures !old(polish).value.ending.Running? ==> status == old(polish).value.ending && polish == old(polish)
      ensures old(polish).value.ending.Running? ==> Searching()
    {
      var route := polish.value;
      if route.ending.Running? {
        polish := None;
        if BestMoves().None? || route.length < BestMoves().value { polished := Some(route.length); }
      } else {
        status := route.ending;
      }
    }

    /** The caller's way to end a search or its polish, which loses no route. */
    method Stop(cancelled: bool)
      requires Valid()
      modifies this`status, this`expanding
      ensures Valid() && !status.Running? && BestMoves() == old(BestMoves())
      ensures status == if !old(status).Running? then old(status) else if cancelled then Cancelled else TimeLimit
    {
      expanding := None;
      if status.Running? { status := if cancelled then Cancelled else TimeLimit; }
    }

    // -------------------------------------------------------------- whole runs

    method PopNext(rebuilds: bool)
      requires Valid() && Searching() && expanding.None?
      modifies this`policy, this`queue, this`status, this`incumbent, this`polish, this`polished, this`episodeAt
      modifies this`expanding, this`expanded, this`taken, arena`records
      ensures Valid() && NoLonger(BestMoves(), old(BestMoves()))
      ensures old(queue) == [] ==> taken == old(taken)
      ensures old(queue) != [] ==> TookOne(old(queue), old(taken))
    {
      if queue == [] { RunDry(rebuilds); } else { ghost var i := PopOne(rebuilds); }
    }

    /** A least entry was popped. */
    ghost predicate TookOne(before: seq<Key>, popped: set<nat>)
      reads this`taken
    {
      exists i: nat :: IsLeastAt(before, i) && taken == popped + {before[i].id}
    }

    method OnPop(rebuilds: bool)
      requires Valid()
      modifies this`policy, this`queue, this`status, this`incumbent, this`polish, this`polished, this`episodeAt
      modifies this`expanding, this`expanded, this`taken, arena`records
      ensures Valid() && NoLonger(BestMoves(), old(BestMoves()))
      ensures if old(Searching() && expanding.None? && queue != []) then TookOne(old(queue), old(taken))
              else taken == old(taken)
    {
      if Searching() && expanding.None? { PopNext(rebuilds); }
    }

    method OnChild(e: Event)
      requires Valid() && e.Child?
      modifies this, arena, arena.table
      ensures fresh(arena.table) || arena.table == old(arena.table)
      ensures Valid() && NoLonger(BestMoves(), old(BestMoves())) && old(restarts) <= restarts
      ensures taken == old(taken) || (taken == {} && restarts > old(restarts))
      ensures old(expanding.Some? && |arena.records| < arena.nodeLimit && !Dropped(e)) ==>
                StoresChild(e, old(arena.records), old(expanding).value)
    {
      if expanding.Some? { var r := TryChild(e); }
    }

    /** An episode is due, and there is a route to polish and the memory for it. */
    predicate EpisodeStarts(due: Option<nat>, e: Event)
      requires e.Episode?
      reads this`expanded, this`policy, this`incumbent, arena
    {
      && due.Some? && due.value <= expanded && policy.polish && IncumbentMoves().Some? && e.fits && e.rebuilds
      && IncumbentMoves().value <= MAX_ROUTE
    }

    /** What is neither a pop nor a child. */
    method OnOther(e: Event)
      requires Valid() && !e.Pop? && !e.Child?
      modifies this`expanding, this`episodeAt, this`polish, this`polished, this`status
      ensures Valid() && NoLonger(BestMoves(), old(BestMoves()))
      ensures old(status).Running? && (e.ExpansionDone? || e.Halt?) ==> expanding.None?
      ensures e.Halt? && old(status).Running? ==> status == if e.cancelled then Cancelled else TimeLimit
      ensures !e.Halt? && !e.PolishUnit? ==> status == old(status)
      ensures e.Episode? && old(Searching() && expanding.None?) ==>
                (polish.Some? <==> EpisodeStarts(old(episodeAt), e))
      ensures e.PolishUnit? && old(status.Running? && polish.Some?) ==>
                BestMoves() == Some(if e.length < old(BestMoves()).value then e.length else old(BestMoves()).value)
    {
      if !status.Running? { return; }
      match e
      case ExpansionDone => expanding := None;
      case Episode(fits, rebuilds) => if Searching() && expanding.None? { StartEpisode(fits, rebuilds); }
      case PolishUnit(length, over) => if polish.Some? { PolishOne(length, over); }
      case Halt(cancelled) => Stop(cancelled);
    }

    /** One event of a run. */
    method Handle(e: Event)
      requires Valid()
      modifies this, arena, arena.table
      ensures fresh(arena.table) || arena.table == old(arena.table)
      ensures Valid() && NoLonger(BestMoves(), old(BestMoves())) && handled == old(handled) + [e]
    {
      ghost var before := handled;
      Dispatch(e);
      handled := before + [e];
    }

    /** What an event does; one that cannot happen now changes nothing. */
    method Dispatch(e: Event)
      requires Valid()
      modifies this, arena, arena.table
      ensures fresh(arena.table) || arena.table == old(arena.table)
      ensures Valid() && NoLonger(BestMoves(), old(BestMoves())) && old(restarts) <= restarts
      ensures e.Pop? ==> if old(Searching() && expanding.None? && queue != []) then TookOne(old(queue), old(taken))
                         else taken == old(taken)
      ensures e.Child? ==> taken == old(taken) || (taken == {} && restarts > old(restarts))
      ensures e.Child? && old(expanding.Some? && |arena.records| < arena.nodeLimit && !Dropped(e)) ==>
                StoresChild(e, old(arena.records), old(expanding).value)
      ensures !e.Pop? && !e.Child? ==> taken == old(taken) && arena.records == old(arena.records) && queue == old(queue)
    {
      if e.Pop? { OnPop(e.rebuilds); } else if e.Child? { OnChild(e); } else { OnOther(e); }
    }

    /** A whole run: whatever happens, in whatever order, the best route after any event is no
        longer than the best before it, every insert is counted once, the search restarts at most
        once, and while it goes on every live record was popped or is queued. */
    method Drive(events: seq<Event>) returns (ghost bests: seq<Option<nat>>)
      requires Valid()
      modifies this, arena, arena.table
      ensures handled == old(handled) + events
      ensures Valid() && restarts <= 1 && Generated() == arena.uniqueStates + arena.duplicateImprovements
      ensures |bests| == |events| + 1 && bests[0] == old(BestMoves()) && bests[|events|] == BestMoves()
      ensures forall i, j | 0 <= i <= j < |bests| :: NoLonger(bests[j], bests[i])
      ensures GoesOn() ==> Awaiting()
    {
      bests := [BestMoves()];
      for k := 0 to |events|
        invariant fresh(arena.table) || arena.table == old(arena.table)
        invariant handled == old(handled) + events[..k]
        invariant Valid() && |bests| == k + 1 && bests[0] == old(BestMoves()) && bests[k] == BestMoves()
        invariant forall i, j | 0 <= i <= j < |bests| :: NoLonger(bests[j], bests[i])
      {
        Handle(events[k]);
        bests := bests + [BestMoves()];
      }
    }
  }
}
