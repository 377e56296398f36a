/** The states a pocket search can come to (corral.rs), and its verdict on them: dead, exactly when
    there are few enough of them for its queue and none is one at which it would stop. */
module PocketKeys {
  import opened Rules
  import opened Bfs
  import opened Reach
  import opened DeadCells
  import opened Freeze
  import opened PocketTheory

  /** What tells one state of a pocket from another once its keeper is named by the least cell it
      reaches. */
  datatype PocketKey = PocketKey(cells: seq<Cell>, at: Cell)

  /** A push of member `j` in direction `d` from a key. */
  datatype Nudge = Nudge(key: PocketKey, j: nat, d: nat)

  /** A pocket's search: its members' slots, the key it starts from and the pocket's cells. */
  datatype World = World(b: Board, h: Heuristic, slots: seq<nat>, root: PocketKey, pocket: set<Cell>)
  {
    ghost predicate Valid() {
      b.Valid() && IsKey(b, slots, root)
    }
  }

  /** A search under way: its queue, the next entry to pop, and the push each entry but the first
      was queued by. */
  datatype Hunt = Hunt(fifo: seq<Entry>, head: nat, origin: seq<Nudge>)

  function AsEntry(k: PocketKey): Entry {
    Entry(k.cells, k.at, None)
  }

  function KeyOf(e: Entry): PocketKey {
    PocketKey(e.cells, e.at)
  }

  // ---------------------------------------------------------------- keys

  /** No cell of the keeper's region is less than `at`. */
  ghost predicate LeastIn(b: Board, cells: seq<Cell>, at: Cell) {
    forall c: Cell | Connected(b, CellSet(cells), at, c) :: at <= c
  }

  /** A valid entry in canonical order. */
  ghost predicate GoodEntry(b: Board, slots: seq<nat>, e: Entry) {
    Slotted(b, slots) && ValidEntry(b, slots, e) && Canonical(b, slots, e.cells)
  }

  ghost predicate IsKey(b: Board, slots: seq<nat>, k: PocketKey) {
    GoodEntry(b, slots, AsEntry(k)) && LeastIn(b, k.cells, k.at)
  }

  /** Boxes and a keeper's region have one key. */
  lemma KeyIsUnique(b: Board, slots: seq<nat>, x: PocketKey, y: PocketKey)
    requires b.Valid() && IsKey(b, slots, x) && IsKey(b, slots, y)
    requires EntryPairs(b, slots, x.cells) == EntryPairs(b, slots, y.cells)
    requires x.cells == y.cells ==> Connected(b, CellSet(x.cells), x.at, y.at)
    ensures x == y
  {
    CanonicalIsUnique(b, slots, x.cells, y.cells);
    ConnectedSymmetric(b, CellSet(x.cells), x.at, y.at);
  }

  // ---------------------------------------------------------------- pushes

  function TargetOf(b: Board, n: Nudge): Cell
    requires n.j < |n.key.cells|
  {
    b.Next(n.key.cells[n.j], n.d)
  }

  /** The push is open to the key's keeper, and neither strands the member nor freezes one off
      its goal. */
  ghost predicate Admits(b: Board, h: Heuristic, slots: seq<nat>, n: Nudge) {
    && Slotted(b, slots) && |n.key.cells| == |slots| && n.j < |slots|
    && CanPush(b, AsEntry(n.key), n.j, n.d)
    && !Hopeless(b, h, slots, AsEntry(n.key), n.j, TargetOf(b, n))
  }

  /** The push leads to the entry. */
  ghost predicate Leads(b: Board, slots: seq<nat>, n: Nudge, e: Entry) {
    && Slotted(b, slots) && |n.key.cells| == |slots| && n.j < |slots|
    && Follows(b, slots, AsEntry(n.key), n.j, TargetOf(b, n), e)
  }

  /** A push leads to one key. */
  lemma LeadsToOne(b: Board, slots: seq<nat>, n: Nudge, x: PocketKey, y: PocketKey)
    requires b.Valid() && IsKey(b, slots, x) && IsKey(b, slots, y)
    requires Leads(b, slots, n, AsEntry(x)) && Leads(b, slots, n, AsEntry(y))
    ensures x == y
  {
    if x.cells == y.cells {
      var walls, from := CellSet(x.cells), n.key.cells[n.j];
      ConnectedSymmetric(b, walls, y.at, from);
      ConnectedTransitive(b, walls, x.at, from, y.at);
    }
    KeyIsUnique(b, slots, x, y);
  }

  /** The pushes of `path` lead from the root to `k`. */
  ghost predicate Run(w: World, path: seq<Nudge>, k: PocketKey)
    decreases |path|
  {
    if path == [] then k == w.root
    else
      var n := path[|path| - 1];
      && Run(w, path[..|path| - 1], n.key) && Admits(w.b, w.h, w.slots, n)
      && IsKey(w.b, w.slots, k) && Leads(w.b, w.slots, n, AsEntry(k))
  }

  ghost predicate Reachable(w: World, k: PocketKey) {
    exists path :: Run(w, path, k)
  }

  lemma ReachNext(w: World, n: Nudge, k: PocketKey)
    requires IsEdge(w, n) && IsKey(w.b, w.slots, k) && Leads(w.b, w.slots, n, AsEntry(k))
    ensures Reachable(w, k)
  {
    var path :| Run(w, path, n.key);
    var longer := path + [n];
    assert longer[..|longer| - 1] == path;
    assert Run(w, longer, k);
  }

  /** A push the search makes sooner or later. */
  ghost predicate IsEdge(w: World, n: Nudge) {
    Admits(w.b, w.h, w.slots, n) && Reachable(w, n.key)
  }

  ghost predicate AllEdges(w: World, edges: set<Nudge>) {
    forall n {:trigger IsEdge(w, n)} :: n in edges <==> IsEdge(w, n)
  }

  /** A state at which the search stops with the pocket alive: the keeper is in, or no member is
      left to settle. */
  ghost predicate Ends(w: World, k: PocketKey) {
    || (exists c: Cell :: c in w.pocket && Connected(w.b, CellSet(k.cells), k.at, c))
    || (|k.cells| == |w.slots| && Settled(w.b, w.slots, AsEntry(k)))
  }

  /** The keeper of `k` walks to no cell of the pocket, and some member is off goal. */
  ghost predicate StillShut(w: World, k: PocketKey)
    requires Slotted(w.b, w.slots) && |k.cells| == |w.slots|
  {
    && (forall c: Cell, dirs | c in w.pocket :: !IsWalk(w.b, CellSet(k.cells), k.at, dirs, c))
    && exists p :: p in EntryPairs(w.b, w.slots, k.cells) && OffGoal(w.b, p)
  }

  lemma EndsMeans(w: World, k: PocketKey)
    requires w.b.ValidTable() && IsKey(w.b, w.slots, k)
    ensures Ends(w, k) <==> !StillShut(w, k)
  {
    SettledIsHome(w.b, w.slots, AsEntry(k));
  }

  /** The exact verdict: nothing the search can come to ends it, and the start and every push fit
      a queue of `room` entries. */
  ghost predicate PocketDead(w: World, room: nat) {
    && (forall k {:trigger Reachable(w, k)} | Reachable(w, k) :: !Ends(w, k))
    && exists edges: set<Nudge> {:trigger AllEdges(w, edges)} :: AllEdges(w, edges) && 1 + |edges| <= room
  }

  lemma {:induction false} RunKeyed(w: World, path: seq<Nudge>, k: PocketKey)
    requires w.Valid() && Run(w, path, k)
    ensures IsKey(w.b, w.slots, k)
  {
  }

  /** The pocket stays shut at every key its search can come to, and there are few enough pushes
      among them. */
  ghost predicate ShutForGood(w: World, room: nat) {
    && (forall k {:trigger Reachable(w, k)} | Reachable(w, k) ::
          Slotted(w.b, w.slots) && |k.cells| == |w.slots| && StillShut(w, k))
    && exists edges: set<Nudge> {:trigger AllEdges(w, edges)} :: AllEdges(w, edges) && |edges| < room
  }

  lemma PocketDeadMeans(w: World, room: nat)
    requires w.Valid()
    ensures PocketDead(w, room) <==> ShutForGood(w, room)
  {
    forall k | Reachable(w, k) ensures IsKey(w.b, w.slots, k) && (Ends(w, k) <==> !StillShut(w, k)) {
      var path :| Run(w, path, k);
      RunKeyed(w, path, k);
      EndsMeans(w, k);
    }
  }

  // ---------------------------------------------------------------- a search under way

  ghost predicate Apart(pushes: seq<Nudge>, i: nat, j: nat)
    requires i < |pushes| && j < |pushes|
  {
    pushes[i] != pushes[j]
  }

  /** No push twice. */
  ghost predicate Distinct(pushes: seq<Nudge>) {
    forall i: nat, j: nat {:trigger Apart(pushes, i, j)} | i < j < |pushes| :: Apart(pushes, i, j)
  }

  /** Some expanded entry has the key. */
  ghost predicate HasKey(fifo: seq<Entry>, k: PocketKey) {
    exists x: nat :: x < |fifo| && fifo[x].slot.Some? && KeyOf(fifo[x]) == k
  }

  /** An expanded entry does not end the search, and every push of it was queued. */
  ghost predicate Done(w: World, e: Entry, origin: seq<Nudge>) {
    && !Ends(w, KeyOf(e))
    && forall n: Nudge {:trigger Admits(w.b, w.h, w.slots, n)} | n.key == KeyOf(e) && Admits(w.b, w.h, w.slots, n) ::
      n in origin
  }

  ghost predicate OriginOk(w: World, s: Hunt, i: nat)
    requires i < |s.origin| && |s.fifo| == |s.origin| + 1
  {
    IsEdge(w, s.origin[i]) && Leads(w.b, w.slots, s.origin[i], s.fifo[i + 1]) && HasKey(s.fifo, s.origin[i].key)
  }

  /** Every entry but the first was queued by a push of its own, of a key the search came to;
      popped entries name their region, and expanded ones are done with. */
  ghost predicate Traced(w: World, s: Hunt) {
    && |s.fifo| == |s.origin| + 1 && s.head <= |s.fifo|
    && (forall i {:trigger GoodEntry(w.b, w.slots, s.fifo[i])} | 0 <= i < |s.fifo| ::
      GoodEntry(w.b, w.slots, s.fifo[i]))
    && s.fifo[0].cells == w.root.cells && Connected(w.b, CellSet(w.root.cells), s.fifo[0].at, w.root.at)
    && (forall i: nat {:trigger OriginOk(w, s, i)} | i < |s.origin| :: OriginOk(w, s, i))
    && Distinct(s.origin)
    && (forall i | 0 <= i < s.head :: LeastIn(w.b, s.fifo[i].cells, s.fifo[i].at))
    && (forall i | 0 <= i < |s.fifo| && s.fifo[i].slot.Some? :: i < s.head && Done(w, s.fifo[i], s.origin))
  }

  /** The key of an entry whose region is named is one the search came to. */
  lemma EntryReached(w: World, s: Hunt, i: nat)
    requires w.Valid() && Traced(w, s) && i < |s.fifo| && LeastIn(w.b, s.fifo[i].cells, s.fifo[i].at)
    ensures IsKey(w.b, w.slots, KeyOf(s.fifo[i])) && Reachable(w, KeyOf(s.fifo[i]))
    ensures i == 0 ==> KeyOf(s.fifo[0]) == w.root
  {
    var k := KeyOf(s.fifo[i]);
    assert GoodEntry(w.b, w.slots, s.fifo[i]);
    if i == 0 {
      KeyIsUnique(w.b, w.slots, k, w.root);
      assert Run(w, [], k);
    } else {
      assert OriginOk(w, s, i - 1);
      ReachNext(w, s.origin[i - 1], k);
    }
  }

  /** A finished search expanded every key it could come to. */
  lemma {:induction false} RunIsExpanded(w: World, s: Hunt, path: seq<Nudge>, k: PocketKey)
    requires w.Valid() && Traced(w, s) && s.head == |s.fifo| && Run(w, path, k)
    requires forall i | 0 <= i < |s.fifo| :: HasKey(s.fifo, KeyOf(s.fifo[i]))
    ensures HasKey(s.fifo, k)
    decreases |path|
  {
    if path == [] {
      EntryReached(w, s, 0);
    } else {
      var n := path[|path| - 1];
      RunIsExpanded(w, s, path[..|path| - 1], n.key);
      var i := QueuedAt(w, s, n);
      EntryReached(w, s, i);
      LeadsToOne(w.b, w.slots, n, KeyOf(s.fifo[i]), k);
    }
  }

  /** The entry an expanded key's push queued. */
  lemma QueuedAt(w: World, s: Hunt, n: Nudge) returns (i: nat)
    requires Traced(w, s) && HasKey(s.fifo, n.key) && Admits(w.b, w.h, w.slots, n)
    ensures n in s.origin && 0 < i < |s.fifo| && Leads(w.b, w.slots, n, s.fifo[i])
  {
    var x: nat :| x < |s.fifo| && s.fifo[x].slot.Some? && KeyOf(s.fifo[x]) == n.key;
    assert Done(w, s.fifo[x], s.origin);
    var j: nat :| j < |s.origin| && s.origin[j] == n;
    assert OriginOk(w, s, j);
    i := j + 1;
  }

  lemma {:induction false} NudgeCount(origin: seq<Nudge>) returns (edges: set<Nudge>)
    requires Distinct(origin)
    ensures |edges| == |origin| && forall n :: n in edges <==> n in origin
    decreases |origin|
  {
    if origin == [] {
      edges := {};
    } else {
      var init, last := origin[..|origin| - 1], origin[|origin| - 1];
      assert origin == init + [last];
      forall i: nat, j: nat | i < j < |init| ensures Apart(init, i, j) { assert Apart(origin, i, j); }
      forall i: nat | i < |init| ensures init[i] != last { assert Apart(origin, i, |init|); }
      edges := NudgeCount(init);
      edges := edges + {last};
    }
  }

  /** A search that popped all it queued found the pocket dead. */
  lemma RanOutIsExact(w: World, s: Hunt, room: nat)
    requires w.Valid() && Traced(w, s) && s.head == |s.fifo| <= room
    requires forall i | 0 <= i < |s.fifo| :: HasKey(s.fifo, KeyOf(s.fifo[i]))
    ensures PocketDead(w, room)
  {
    forall k | Reachable(w, k) ensures HasKey(s.fifo, k) && !Ends(w, k) {
      var path :| Run(w, path, k);
      RunIsExpanded(w, s, path, k);
      var x: nat :| x < |s.fifo| && s.fifo[x].slot.Some? && KeyOf(s.fifo[x]) == k;
      assert Done(w, s.fifo[x], s.origin);
    }
    var edges := NudgeCount(s.origin);
    forall n ensures n in edges <==> IsEdge(w, n) {
      if IsEdge(w, n) { var i := QueuedAt(w, s, n); }
      if n in s.origin {
        var i: nat :| i < |s.origin| && s.origin[i] == n;
        assert OriginOk(w, s, i);
      }
    }
    assert AllEdges(w, edges);
  }

  /** A push past a full queue means the pocket is not dead. */
  lemma OverflowIsAlive(w: World, origin: seq<Nudge>, extra: Nudge, room: nat)
    requires forall i | 0 <= i < |origin| :: IsEdge(w, origin[i])
    requires Distinct(origin)
    requires IsEdge(w, extra) && extra !in origin && |origin| + 1 >= room
    ensures !PocketDead(w, room)
  {
    var some := NudgeCount(origin);
    forall edges: set<Nudge> | AllEdges(w, edges) ensures 1 + |edges| > room {
      forall n | n in some + {extra} ensures n in edges {
        if n in origin { var i: nat :| i < |origin| && origin[i] == n; }
        assert IsEdge(w, n);
      }
      NudgeSubset(some + {extra}, edges);
    }
  }

  lemma NudgeSubset(few: set<Nudge>, many: set<Nudge>)
    requires few <= many
    ensures |few| <= |many|
  {
    assert many == few + (many - few);
  }

  /** A key that ends the search means the pocket is not dead. */
  lemma EndIsAlive(w: World, k: PocketKey, room: nat)
    requires Reachable(w, k) && Ends(w, k)
    ensures !PocketDead(w, room)
  {
  }

  // ---------------------------------------------------------------- the steps of a search

  /** Naming the next entry's region. */
  lemma NamingTraced(w: World, s: Hunt, at: Cell)
    requires w.Valid() && Traced(w, s) && s.head < |s.fifo| && s.fifo[s.head].slot.None?
    requires GoodEntry(w.b, w.slots, s.fifo[s.head].(at := at))
    requires Connected(w.b, CellSet(s.fifo[s.head].cells), at, s.fifo[s.head].at)
    ensures Traced(w, s.(fifo := s.fifo[s.head := s.fifo[s.head].(at := at)]))
  {
    var e := s.fifo[s.head].(at := at);
    var t := s.(fifo := s.fifo[s.head := e]);
    forall i | 0 <= i < |t.fifo| ensures GoodEntry(w.b, w.slots, t.fifo[i]) {
      if i != s.head { assert GoodEntry(w.b, w.slots, s.fifo[i]); }
    }
    if s.head == 0 { ConnectedTransitive(w.b, CellSet(e.cells), at, s.fifo[0].at, w.root.at); }
    forall i: nat | i < |t.origin| ensures OriginOk(w, t, i) {
      assert OriginOk(w, s, i);
      NamedOrigin(w, s, t, i, at);
    }
  }

  lemma NamedOrigin(w: World, s: Hunt, t: Hunt, i: nat, at: Cell)
    requires |s.fifo| == |s.origin| + 1 && s.head < |s.fifo| && s.fifo[s.head].slot.None?
    requires t.origin == s.origin && t.fifo == s.fifo[s.head := s.fifo[s.head].(at := at)]
    requires i < |s.origin| && OriginOk(w, s, i) && GoodEntry(w.b, w.slots, s.fifo[s.head].(at := at))
    requires Connected(w.b, CellSet(s.fifo[s.head].cells), at, s.fifo[s.head].at)
    ensures OriginOk(w, t, i)
  {
    KeyKept(s.fifo, t.fifo, s.head, t.origin[i].key);
    if i + 1 == s.head {
      LeadsNamed(w.b, w.slots, s.origin[i], s.fifo[s.head], at);
    } else {
      assert t.fifo[i + 1] == s.fifo[i + 1];
    }
  }

  /** A push still leads to an entry whose region is named by another of its cells. */
  lemma LeadsNamed(b: Board, slots: seq<nat>, n: Nudge, e: Entry, at: Cell)
    requires Leads(b, slots, n, e) && GoodEntry(b, slots, e.(at := at)) && Connected(b, CellSet(e.cells), at, e.at)
    ensures Leads(b, slots, n, e.(at := at))
  {
    ConnectedTransitive(b, CellSet(e.cells), at, e.at, n.key.cells[n.j]);
  }

  /** Changing an entry that is not expanded loses no key. */
  lemma KeyKept(fifo: seq<Entry>, after: seq<Entry>, head: nat, k: PocketKey)
    requires head < |fifo| <= |after| && fifo[head].slot.None? && HasKey(fifo, k)
    requires forall i | 0 <= i < |fifo| && i != head :: after[i] == fifo[i]
    ensures HasKey(after, k)
  {
    var x: nat :| x < |fifo| && fifo[x].slot.Some? && KeyOf(fifo[x]) == k;
    assert after[x] == fifo[x];
  }

  /** Skipping a key popped before. */
  lemma SkipTraced(w: World, s: Hunt)
    requires Traced(w, s) && s.head < |s.fifo| && LeastIn(w.b, s.fifo[s.head].cells, s.fifo[s.head].at)
    ensures Traced(w, s.(head := s.head + 1))
  {
    var t := s.(head := s.head + 1);
    forall i: nat | i < |t.origin| ensures OriginOk(w, t, i) {
      assert OriginOk(w, s, i);
    }
  }

  /** Whether push `(i, e)` comes before `(j, d)`. */
  predicate Sooner(i: nat, e: nat, j: nat, d: nat) {
    i < j || (i == j && e < d)
  }

  /** `edges` are the pushes of `x` before member `j`'s in direction `d` that are admitted, each
      once, and `fifo` gained the entry each leads to. */
  ghost predicate Queued(b: Board, h: Heuristic, slots: seq<nat>, x: Entry, fifo0: seq<Entry>, fifo: seq<Entry>,
                         edges: seq<Nudge>, j: nat, d: nat) {
    && fifo0 <= fifo && |fifo| == |fifo0| + |edges|
    && (forall i | 0 <= i < |edges| ::
          edges[i].key == KeyOf(x) && Admits(b, h, slots, edges[i]) && Sooner(edges[i].j, edges[i].d, j, d))
    && (forall i | |fifo0| <= i < |fifo| ::
          Leads(b, slots, edges[i - |fifo0|], fifo[i]) && GoodEntry(b, slots, fifo[i]) && fifo[i].slot.None?)
    && Distinct(edges)
    && (forall n: Nudge {:trigger Admits(b, h, slots, n)} |
      n.key == KeyOf(x) && Admits(b, h, slots, n) && Sooner(n.j, n.d, j, d) :: n in edges)
  }

  /** The keys of earlier pushes are not the one being expanded. */
  lemma NewEdges(w: World, s: Hunt, edges: seq<Nudge>)
    requires Traced(w, s) && s.head < |s.fifo| && !HasKey(s.fifo, KeyOf(s.fifo[s.head]))
    requires forall i | 0 <= i < |edges| :: edges[i].key == KeyOf(s.fifo[s.head])
    requires Distinct(edges)
    ensures Distinct(s.origin + edges)
  {
    var origin := s.origin + edges;
    forall i: nat, j: nat | i < j < |origin| ensures Apart(origin, i, j) {
      if i < |s.origin| { assert OriginOk(w, s, i); }
      if j < |s.origin| { assert Apart(s.origin, i, j); }
      if i >= |s.origin| { assert Apart(edges, i - |s.origin|, j - |s.origin|); }
    }
  }

  /** A queue that cannot take an expanded key's next push: the pocket is not dead. */
  lemma FullIsAlive(w: World, s: Hunt, edges: seq<Nudge>, extra: Nudge, room: nat)
    requires w.Valid() && Traced(w, s) && s.head < |s.fifo| && !HasKey(s.fifo, KeyOf(s.fifo[s.head]))
    requires LeastIn(w.b, s.fifo[s.head].cells, s.fifo[s.head].at)
    requires forall i | 0 <= i < |edges| :: edges[i].key == KeyOf(s.fifo[s.head]) && Admits(w.b, w.h, w.slots, edges[i])
    requires Distinct(edges) && extra !in edges && |s.fifo| + |edges| >= room
    requires extra.key == KeyOf(s.fifo[s.head]) && Admits(w.b, w.h, w.slots, extra)
    ensures !PocketDead(w, room)
  {
    EntryReached(w, s, s.head);
    NewEdges(w, s, edges);
    OriginIsEdges(w, s, KeyOf(s.fifo[s.head]));
    OverflowIsAlive(w, s.origin + edges, extra, room);
  }

  lemma OriginIsEdges(w: World, s: Hunt, k: PocketKey)
    requires Traced(w, s) && !HasKey(s.fifo, k)
    ensures forall i | 0 <= i < |s.origin| :: IsEdge(w, s.origin[i]) && s.origin[i].key != k
  {
    forall i: nat | i < |s.origin| ensures IsEdge(w, s.origin[i]) && s.origin[i].key != k {
      assert OriginOk(w, s, i);
    }
  }

  /** A new key put in the table and all its pushes queued. */
  lemma ExpansionTraced(w: World, s: Hunt, slot: nat, fifo: seq<Entry>, edges: seq<Nudge>)
    requires w.Valid() && Traced(w, s) && s.head < |s.fifo| && !HasKey(s.fifo, KeyOf(s.fifo[s.head]))
    requires s.fifo[s.head].slot.None? && LeastIn(w.b, s.fifo[s.head].cells, s.fifo[s.head].at)
    requires !Ends(w, KeyOf(s.fifo[s.head]))
    requires var named := s.fifo[s.head := s.fifo[s.head].(slot := Some(slot))];
             Queued(w.b, w.h, w.slots, named[s.head], named, fifo, edges, |w.slots|, 0)
    ensures Traced(w, Hunt(fifo, s.head + 1, s.origin + edges))
  {
    var named := s.fifo[s.head := s.fifo[s.head].(slot := Some(slot))];
    var t := Hunt(fifo, s.head + 1, s.origin + edges);
    assert forall i | 0 <= i < |s.fifo| :: fifo[i] == named[i];
    assert Reachable(w, KeyOf(s.fifo[s.head])) by { EntryReached(w, s, s.head); }
    assert Distinct(t.origin) by { NewEdges(w, s, edges); }
    ExpansionGood(w, s, fifo[s.head], fifo);
    ExpansionOrigins(w, s, named, t, edges);
    ExpansionDone(w, named[s.head], edges, t.origin);
    StillDone(w, s, t, edges);
  }

  /** Entries done with stay so as pushes are queued. */
  lemma StillDone(w: World, s: Hunt, t: Hunt, edges: seq<Nudge>)
    requires t.origin == s.origin + edges && s.head < |s.fifo| <= |t.fifo| && t.head == s.head + 1
    requires forall i | 0 <= i < |s.fifo| && s.fifo[i].slot.Some? :: i < s.head && Done(w, s.fifo[i], s.origin)
    requires forall i | 0 <= i < |s.fifo| && i != s.head :: t.fifo[i] == s.fifo[i]
    requires forall i | |s.fifo| <= i < |t.fifo| :: t.fifo[i].slot.None?
    requires Done(w, t.fifo[s.head], t.origin)
    ensures forall i | 0 <= i < |t.fifo| && t.fifo[i].slot.Some? :: i < t.head && Done(w, t.fifo[i], t.origin)
  {
    forall i | 0 <= i < |t.fifo| && t.fifo[i].slot.Some? ensures i < t.head && Done(w, t.fifo[i], t.origin) {
      if i < |s.fifo| && i != s.head { assert Done(w, s.fifo[i], s.origin); }
    }
  }

  lemma ExpansionDone(w: World, x: Entry, edges: seq<Nudge>, origin: seq<Nudge>)
    requires Slotted(w.b, w.slots) && !Ends(w, KeyOf(x)) && forall n | n in edges :: n in origin
    requires forall n: Nudge {:trigger Admits(w.b, w.h, w.slots, n)} |
               n.key == KeyOf(x) && Admits(w.b, w.h, w.slots, n) && Sooner(n.j, n.d, |w.slots|, 0) :: n in edges
    ensures Done(w, x, origin)
  {
  }

  lemma ExpansionOrigins(w: World, s: Hunt, named: seq<Entry>, t: Hunt, edges: seq<Nudge>)
    requires Traced(w, s) && s.head < |s.fifo| == |named| && s.fifo[s.head].slot.None? && named[s.head].slot.Some?
    requires KeyOf(named[s.head]) == KeyOf(s.fifo[s.head])
    requires forall k | 0 <= k < |s.fifo| && k != s.head :: named[k] == s.fifo[k]
    requires Queued(w.b, w.h, w.slots, named[s.head], named, t.fifo, edges, |w.slots|, 0)
    requires t.origin == s.origin + edges && Reachable(w, KeyOf(s.fifo[s.head]))
    ensures |t.fifo| == |t.origin| + 1
    ensures forall i: nat {:trigger OriginOk(w, t, i)} | i < |t.origin| :: OriginOk(w, t, i)
  {
    assert forall k | 0 <= k < |named| :: t.fifo[k] == named[k];
    forall i: nat | i < |t.origin| ensures OriginOk(w, t, i) {
      if i < |s.origin| {
        OriginKept(w, s, t, i);
      } else {
        assert t.origin[i] == edges[i + 1 - |named|];
        assert KeyOf(t.fifo[s.head]) == t.origin[i].key;
      }
    }
  }

  lemma OriginKept(w: World, s: Hunt, t: Hunt, i: nat)
    requires Traced(w, s) && i < |s.origin| <= |t.origin| == |t.fifo| - 1 && s.head < |s.fifo|
    requires t.origin[i] == s.origin[i] && KeyOf(t.fifo[s.head]) == KeyOf(s.fifo[s.head])
    requires forall k | 0 <= k < |s.fifo| && k != s.head :: t.fifo[k] == s.fifo[k]
    requires s.fifo[s.head].slot.None? && t.fifo[s.head].slot.Some?
    ensures OriginOk(w, t, i)
  {
    assert OriginOk(w, s, i);
    KeyKept(s.fifo, t.fifo, s.head, t.origin[i].key);
  }

  lemma ExpansionGood(w: World, s: Hunt, x: Entry, fifo: seq<Entry>)
    requires Traced(w, s) && s.head < |s.fifo| <= |fifo| && x == fifo[s.head] && KeyOf(x) == KeyOf(s.fifo[s.head])
    requires forall i | 0 <= i < |s.fifo| && i != s.head :: fifo[i] == s.fifo[i]
    requires forall i | |s.fifo| <= i < |fifo| :: GoodEntry(w.b, w.slots, fifo[i])
    ensures forall i {:trigger GoodEntry(w.b, w.slots, fifo[i])} | 0 <= i < |fifo| :: GoodEntry(w.b, w.slots, fifo[i])
  {
    forall i | 0 <= i < |fifo| ensures GoodEntry(w.b, w.slots, fifo[i]) {
      if i < |s.fifo| { assert GoodEntry(w.b, w.slots, s.fifo[i]); }
    }
  }
}
