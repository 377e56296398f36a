/** The search arena (arena.rs): append-only versioned records, an open-addressed index that
    grows once, clears that keep every allocation, and an exact memory ceiling. */
module Arenas {
  import opened Rules
  import opened Bfs
  import opened Probing

  /** Records in a full chunk, and slots a new index starts with. */
  const CHUNK: nat := 0x1_0000
  const INITIAL_TABLE: nat := 0x1_0000
  /** A table with at least this many slots for each bound record is unbound run by run. */
  const UNBIND_RATIO: nat := 128

  datatype Node = Node(state: State, g: nat, parent: Option<nat>, direction: nat, h: nat)

  /** A stored node and its two flags: expanded at least once, and no longer the version a
      find returns. */
  datatype Record = Record(node: Node, closed: bool, superseded: bool)

  // ---------------------------------------------------------------- versions

  /** A later record holds the same state. */
  ghost predicate Later(records: seq<Record>, i: nat) {
    exists j :: i < j < |records| && i < |records| && records[j].node.state == records[i].node.state
  }

  /** A record is superseded exactly when it was kept by a clear or a later version replaced
      it. */
  ghost predicate Versions(records: seq<Record>, kept: nat) {
    kept <= |records| && forall i {:trigger Later(records, i)} | 0 <= i < |records| ::
      records[i].superseded <==> i < kept || Later(records, i)
  }

  /** `id` is the latest version of `s` since the last clear. */
  ghost predicate IsLatest(records: seq<Record>, kept: nat, s: State, id: nat) {
    && kept <= id < |records| && records[id].node.state == s
    && forall j | id < j < |records| :: records[j].node.state != s
  }

  ghost predicate Absent(records: seq<Record>, kept: nat, s: State) {
    forall j | kept <= j < |records| :: records[j].node.state != s
  }

  lemma LiveIsLatest(records: seq<Record>, kept: nat, id: nat)
    requires Versions(records, kept) && id < |records| && !records[id].superseded
    ensures IsLatest(records, kept, records[id].node.state, id)
  {
    assert !Later(records, id);
  }

  lemma LatestIsLive(records: seq<Record>, kept: nat, s: State, id: nat)
    requires Versions(records, kept) && IsLatest(records, kept, s, id)
    ensures !records[id].superseded
  {
    assert !Later(records, id);
  }

  /** A state with a version has a latest one. */
  lemma {:induction false} LatestExists(records: seq<Record>, kept: nat, s: State, i: nat) returns (id: nat)
    requires kept <= i < |records| && records[i].node.state == s
    ensures IsLatest(records, kept, s, id)
    decreases |records| - i
  {
    if j :| i < j < |records| && records[j].node.state == s {
      id := LatestExists(records, kept, s, j);
    } else {
      id := i;
    }
  }

  /** The record list after inserting a node, its older version `previous` superseded. */
  function Appended(records: seq<Record>, previous: Option<nat>, node: Node): seq<Record>
    requires previous.Some? ==> previous.value < |records|
  {
    (if previous.Some? then records[previous.value := records[previous.value].(superseded := true)] else records)
    + [Record(node, false, false)]
  }

  lemma KeptOrLater(records: seq<Record>, kept: nat, latest: Option<nat>, s: State, id: nat)
    requires Versions(records, kept) && id < |records| && records[id].node.state == s && latest != Some(id)
    requires latest.Some? ==> IsLatest(records, kept, s, latest.value)
    requires latest.None? ==> Absent(records, kept, s)
    ensures records[id].superseded
  {
    assert Later(records, id) || id < kept;
  }

  /** An append adds an open, live record and flags the versions it replaces, no more. */
  lemma AppendedMeans(records: seq<Record>, kept: nat, previous: Option<nat>, node: Node)
    requires Versions(records, kept)
    requires previous.Some? ==> IsLatest(records, kept, node.state, previous.value)
    requires previous.None? ==> Absent(records, kept, node.state)
    ensures var after := Appended(records, previous, node);
            && |after| == |records| + 1 && after[|records|] == Record(node, false, false)
            && forall id | 0 <= id < |records| ::
                 && after[id].node == records[id].node && after[id].closed == records[id].closed
                 && (after[id].superseded <==> records[id].superseded || records[id].node.state == node.state)
  {
    forall id | 0 <= id < |records| && records[id].node.state == node.state && previous != Some(id)
      ensures records[id].superseded
    {
      KeptOrLater(records, kept, previous, node.state, id);
    }
  }

  lemma AppendKeepsVersions(records: seq<Record>, kept: nat, previous: Option<nat>, node: Node)
    requires Versions(records, kept)
    requires previous.Some? ==> IsLatest(records, kept, node.state, previous.value)
    requires previous.None? ==> Absent(records, kept, node.state)
    ensures Versions(Appended(records, previous, node), kept)
  {
    var after := Appended(records, previous, node);
    forall i | 0 <= i < |after|
      ensures after[i].superseded <==> i < kept || Later(after, i)
    {
      if i < |records| {
        assert records[i].superseded <==> i < kept || Later(records, i);
        if Later(records, i) {
          var j :| i < j < |records| && records[j].node.state == records[i].node.state;
          assert after[j].node.state == after[i].node.state;
        }
        if i >= kept && records[i].node.state == node.state {
          assert after[|records|].node.state == after[i].node.state;
          assert Later(after, i);
        }
        if Later(after, i) {
          var j :| i < j < |after| && after[j].node.state == after[i].node.state;
          if j < |records| { assert records[j].node.state == records[i].node.state; }
        }
      }
    }
  }

  lemma AppendedIsLatest(records: seq<Record>, previous: Option<nat>, node: Node, kept: nat)
    requires previous.Some? ==> previous.value < |records|
    requires kept <= |records|
    ensures IsLatest(Appended(records, previous, node), kept, node.state, |records|)
  {
  }

  lemma AppendKeepsParents(records: seq<Record>, previous: Option<nat>, node: Node)
    requires ParentsOlder(records) && (previous.Some? ==> previous.value < |records|)
    requires node.parent.Some? ==> node.parent.value < |records|
    ensures ParentsOlder(Appended(records, previous, node))
  {
  }

  // ---------------------------------------------------------------- the index

  /** Each record's home slot in a table of `n` slots. */
  ghost function Homes(hash: State -> nat, records: seq<Record>, n: nat): seq<nat>
    requires n > 0
  {
    seq(|records|, i requires 0 <= i < |records| => hash(records[i].node.state) % n)
  }

  ghost predicate IsBound(table: seq<Slot>, id: nat) {
    exists s: nat :: s < |table| && table[s].Bound? && table[s].id == id
  }

  /** The table binds exactly the live records, each once, with its tag, reachable from its
      home by linear probing. */
  ghost predicate Indexed(hash: State -> nat, tag: nat -> nat, table: seq<Slot>, records: seq<Record>) {
    && |table| > 0
    && Distinct(table)
    && (forall s: nat | s < |table| && table[s].Bound? ::
          table[s].id < |records| && !records[table[s].id].superseded &&
            table[s].tag == tag(hash(records[table[s].id].node.state)))
    && (forall id: nat {:trigger IsBound(table, id)} | id < |records| && !records[id].superseded :: IsBound(table, id))
    && Chains(table, Homes(hash, records, |table|))
  }

  /** What a find hands to the insert that follows it: where the state's record is bound, or
      the empty slot its probe stopped at. */
  ghost predicate SlotFor(hash: State -> nat, table: seq<Slot>, records: seq<Record>, s: State, index: nat,
                          found: Option<nat>) {
    && |table| > 0 && index < |table|
    && (found.Some? ==> (found.value < |records| && records[found.value].node.state == s))
    && (found.Some? ==> table[index].Bound? && table[index].id == found.value)
    && (found.None? ==> table[index].Nil? && Filled(table, hash(s) % |table|, Gap(hash(s) % |table|, index, |table|)))
  }

  /** A probe that meets an empty slot before the state means no live record has it. */
  lemma NotFoundIsAbsent(hash: State -> nat, tag: nat -> nat, table: seq<Slot>, records: seq<Record>, kept: nat,
                         s: State, k: nat)
    requires Indexed(hash, tag, table, records) && Versions(records, kept) && k < |table|
    requires var home := hash(s) % |table|;
             && table[After(home, k, |table|)].Nil?
             && forall j: nat {:trigger After(home, j, |table|)} | j < k ::
                  table[After(home, j, |table|)].Bound? && records[table[After(home, j, |table|)].id].node.state != s
    ensures Absent(records, kept, s)
  {
    var home := hash(s) % |table|;
    forall i | kept <= i < |records|
      ensures records[i].node.state != s
    {
      if records[i].node.state == s {
        var id := LatestExists(records, kept, s, i);
        LatestIsLive(records, kept, s, id);
        assert IsBound(table, id);
        var t: nat :| t < |table| && table[t].Bound? && table[t].id == id;
        BoundBeforeNil(table, Homes(hash, records, |table|), home, k, t);
        AfterGap(home, t, |table|);
      }
    }
  }

  /** Binding the new record in the slot the find returned keeps the index. */
  lemma BindNew(hash: State -> nat, tag: nat -> nat, table: seq<Slot>, records: seq<Record>, node: Node, index: nat)
    requires Indexed(hash, tag, table, records) && SlotFor(hash, table, records, node.state, index, None)
    ensures Indexed(hash, tag, table[index := Bound(|records|, tag(hash(node.state)))], Appended(records, None, node))
  {
    var n := |table|;
    var home := hash(node.state) % n;
    var after := Appended(records, None, node);
    var slot := Bound(|records|, tag(hash(node.state)));
    AfterGap(home, index, n);
    MoreHomes(table, Homes(hash, records, n), home);
    assert Homes(hash, after, n) == Homes(hash, records, n) + [home];
    BindKeepsChains(table, Homes(hash, after, n), home, Gap(home, index, n), slot);
    var bound := table[index := slot];
    forall id: nat | id < |after| && !after[id].superseded
      ensures IsBound(bound, id)
    {
      if id < |records| {
        assert IsBound(table, id);
        var t: nat :| t < n && table[t].Bound? && table[t].id == id;
        assert bound[t] == table[t];
      } else {
        assert bound[index].id == id;
      }
    }
  }

  /** Rebinding the slot of the replaced version keeps the index. */
  lemma BindReplaced(hash: State -> nat, tag: nat -> nat, table: seq<Slot>, records: seq<Record>, node: Node,
                     index: nat, previous: nat)
    requires Indexed(hash, tag, table, records) && SlotFor(hash, table, records, node.state, index, Some(previous))
    ensures Indexed(hash, tag, table[index := Bound(|records|, tag(hash(node.state)))],
              Appended(records, Some(previous), node))
  {
    var n := |table|;
    var after := Appended(records, Some(previous), node);
    var slot := Bound(|records|, tag(hash(node.state)));
    var bound := table[index := slot];
    var homes := Homes(hash, records, n);
    assert Homes(hash, after, n) == homes + [homes[previous]];
    MoreHomes(table, homes, homes[previous]);
    forall s: nat | s < n
      ensures Chained(bound, Homes(hash, after, n), s)
    {
      assert Chained(table, homes, s);
    }
    forall id: nat | id < |after| && !after[id].superseded
      ensures IsBound(bound, id)
    {
      if id < |records| {
        assert IsBound(table, id);
        var t: nat :| t < n && table[t].Bound? && table[t].id == id;
        assert t != index && bound[t] == table[t];
      } else {
        assert bound[index].id == id;
      }
    }
  }

  // ---------------------------------------------------------------- rebinding

  /** The first `k` records' live versions are indexed, and nothing else is. */
  ghost predicate IndexedUpTo(hash: State -> nat, tag: nat -> nat, table: seq<Slot>, records: seq<Record>, k: nat) {
    && |table| > 0 && k <= |records|
    && Distinct(table)
    && (forall s: nat | s < |table| && table[s].Bound? ::
          table[s].id < k && !records[table[s].id].superseded &&
            table[s].tag == tag(hash(records[table[s].id].node.state)))
    && (forall id: nat {:trigger IsBound(table, id)} | id < k && !records[id].superseded :: IsBound(table, id))
    && Chains(table, Homes(hash, records, |table|))
  }

  lemma RebindOne(hash: State -> nat, tag: nat -> nat, table: seq<Slot>, records: seq<Record>, id: nat, k: nat)
    requires IndexedUpTo(hash, tag, table, records, id) && id < |records| && !records[id].superseded && k < |table|
    requires var home := hash(records[id].node.state) % |table|;
             Filled(table, home, k) && table[After(home, k, |table|)].Nil?
    ensures var home := hash(records[id].node.state) % |table|;
            IndexedUpTo(hash, tag, table[After(home, k, |table|) := Bound(id, tag(hash(records[id].node.state)))],
              records, id + 1)
  {
    var home := hash(records[id].node.state) % |table|;
    var index := After(home, k, |table|);
    var bound := table[index := Bound(id, tag(hash(records[id].node.state)))];
    BindKeepsChains(table, Homes(hash, records, |table|), home, k, bound[index]);
    forall i: nat | i < id + 1 && !records[i].superseded
      ensures IsBound(bound, i)
    {
      if i < id {
        assert IsBound(table, i);
        var t: nat :| t < |table| && table[t].Bound? && table[t].id == i;
        assert bound[t] == table[t];
      } else {
        assert bound[index].id == i;
      }
    }
  }

  lemma RebindSkips(hash: State -> nat, tag: nat -> nat, table: seq<Slot>, records: seq<Record>, id: nat)
    requires IndexedUpTo(hash, tag, table, records, id) && id < |records| && records[id].superseded
    ensures IndexedUpTo(hash, tag, table, records, id + 1)
  {
  }

  /** Given an empty table, indexes the live records and nothing else. */
  method Rebind(hash: State -> nat, tag: nat -> nat, table: array<Slot>, records: seq<Record>)
    requires |records| < table.Length && forall s | 0 <= s < table.Length :: table[s].Nil?
    modifies table
    ensures Indexed(hash, tag, table[..], records)
  {
    for id := 0 to |records|
      invariant IndexedUpTo(hash, tag, table[..], records, id)
    {
      if records[id].superseded {
        RebindSkips(hash, tag, table[..], records, id);
      } else {
        RebindRecord(hash, tag, table, records, id);
      }
    }
  }

  /** Binds one record in the first empty slot from its home. */
  method RebindRecord(hash: State -> nat, tag: nat -> nat, table: array<Slot>, records: seq<Record>, id: nat)
    requires id < |records| < table.Length && !records[id].superseded
    requires IndexedUpTo(hash, tag, table[..], records, id)
    modifies table
    ensures IndexedUpTo(hash, tag, table[..], records, id + 1)
  {
    var n := table.Length;
    var h := hash(records[id].node.state);
    var home := h % n;
    ghost var t := table[..];
    NilExists(t, id);
    ghost var z: nat :| z < n && t[z].Nil?;
    var k, slot := 0, home;
    while table[slot].Bound?
      invariant k < n && slot == After(home, k, n) && table[..] == t && Filled(t, home, k)
      decreases n - k
    {
      assert t[slot].Bound?;
      ProbeShortOfNil(t, home, k + 1, z);
      NextAfter(home, k, n);
      k, slot := k + 1, Next(slot, n);
    }
    assert t[slot].Nil?;
    RebindOne(hash, tag, t, records, id, k);
    table[slot] := Bound(id, tag(h));
    assert table[..] == t[slot := Bound(id, tag(h))];
  }

  // ---------------------------------------------------------------- unbinding

  /** Empties every slot of the run that starts at `from`. */
  method ClearRun(table: array<Slot>, from: nat, ghost full: seq<Slot>)
    requires from < table.Length && SuffixesGone(full, table[..])
    modifies table
    ensures SuffixesGone(full, table[..]) && table[from].Nil?
    ensures forall s | 0 <= s < table.Length :: old(table[s]).Nil? ==> table[s].Nil?
  {
    var n := table.Length;
    ghost var t := table[..];
    var k, slot := 0, from;
    while table[slot].Bound?
      invariant k <= n && slot == After(from, k, n)
      invariant ClearedRun(t, from, k, table[..])
      decreases n - k
    {
      assert table[..][slot] == table[slot];
      ClearOneMore(t, from, k, table[..]);
      NextAfter(from, k, n);
      ghost var before := table[..];
      table[slot] := Nil;
      assert table[..] == before[slot := Nil];
      k, slot := k + 1, Next(slot, n);
    }
    assert table[..][slot].Nil?;
    RunStops(t, from, k, table[..]);
    RunKeepsSuffixes(full, t, from, k, table[..]);
  }

  lemma RunStops(table: seq<Slot>, from: nat, k: nat, cleared: seq<Slot>)
    requires from < |table| && k <= |table| && ClearedRun(table, from, k, cleared)
    requires cleared[After(from, k, |table|)].Nil?
    ensures k < |table| ==> table[After(from, k, |table|)].Nil?
  {
  }

  /** Clears each live record's run, from its home to the first empty slot. The walks empty the
      whole table, clusters that wrap included, in whatever order the records come. */
  method UnbindRuns(hash: State -> nat, tag: nat -> nat, table: array<Slot>, records: seq<Record>)
    requires Indexed(hash, tag, table[..], records)
    modifies table
    ensures forall s | 0 <= s < table.Length :: table[s].Nil?
  {
    ghost var full := table[..];
    ghost var homes := Homes(hash, records, table.Length);
    for id := 0 to |records|
      invariant SuffixesGone(full, table[..])
      invariant forall i | 0 <= i < id && !records[i].superseded :: table[homes[i]].Nil?
    {
      if !records[id].superseded {
        ClearRun(table, hash(records[id].node.state) % table.Length, full);
      }
    }
    forall s: nat | s < table.Length
      ensures table[s].Nil?
    {
      AllHomesEmptyMeansEmpty(full, table[..], homes, s);
    }
  }

  /** Empties an index, whichever of its two ways the ratio of slots to bound records selects. */
  method Unbind(hash: State -> nat, tag: nat -> nat, table: array<Slot>, records: seq<Record>, resident: nat)
    requires table.Length > 0 ==> Indexed(hash, tag, table[..], records)
    modifies table
    ensures forall s | 0 <= s < table.Length :: table[s].Nil?
  {
    if table.Length == 0 { return; }
    if resident * UNBIND_RATIO > table.Length {
      for s := 0 to table.Length
        invariant forall t | 0 <= t < s :: table[t].Nil?
      {
        table[s] := Nil;
      }
    } else {
      UnbindRuns(hash, tag, table, records);
    }
  }

  // ---------------------------------------------------------------- keeping a path

  /** Parent ids are less than child ids. */
  ghost predicate ParentsOlder(records: seq<Record>) {
    forall i | 0 <= i < |records| :: records[i].node.parent.Some? ==> records[i].node.parent.value < i
  }

  /** The ids from the root to `id`, root first. */
  ghost function PathTo(records: seq<Record>, id: nat): (path: seq<nat>)
    requires ParentsOlder(records) && id < |records|
    ensures path != [] && path[|path| - 1] == id
    ensures forall k | 0 <= k < |path| :: path[k] <= id
    decreases id
  {
    if records[id].node.parent.None? then [id] else PathTo(records, records[id].node.parent.value) + [id]
  }

  /** The path climbs: it starts at a root, each id is its successor's parent, and the `k`-th
      is at least `k`. */
  lemma {:induction false} PathClimbs(records: seq<Record>, id: nat)
    requires ParentsOlder(records) && id < |records|
    ensures var path := PathTo(records, id);
            && (forall k | 0 <= k < |path| :: k <= path[k] <= id)
            && records[path[0]].node.parent.None?
            && (forall k | 0 < k < |path| :: records[path[k]].node.parent == Some(path[k - 1]))
            && (forall j, k | 0 <= j < k < |path| :: path[j] < path[k])
    decreases id
  {
    if records[id].node.parent.Some? {
      PathClimbs(records, records[id].node.parent.value);
    }
  }

  /** A kept record: its parent renumbered, detached from the index, all else unchanged. */
  function Detached(record: Record, new_: nat): Record {
    record.(node := record.node.(parent := if new_ == 0 then None else Some(new_ - 1)), superseded := true)
  }

  /** What a clear that keeps the path to `id` leaves. */
  ghost function KeptPath(records: seq<Record>, id: nat): (kept: seq<Record>)
    requires ParentsOlder(records) && id < |records|
  {
    PathClimbs(records, id);
    var path := PathTo(records, id);
    seq(|path|, k requires 0 <= k < |path| => Detached(records[path[k]], k))
  }

  /** The path's length, counted from its end. */
  method PathLength(records: seq<Record>, id: nat) returns (len: nat)
    requires ParentsOlder(records) && id < |records|
    ensures len == |PathTo(records, id)|
  {
    len := 1;
    var link: Option<nat> := records[id].node.parent;
    while link.Some?
      invariant link.Some? ==> link.value < |records|
      invariant link.Some? ==> |PathTo(records, id)| == len + |PathTo(records, link.value)|
      invariant link.None? ==> |PathTo(records, id)| == len
      decreases if link.Some? then 1 + link.value else 0
    {
      len := len + 1;
      link := records[link.value].node.parent;
    }
  }

  /** Writes the path's ids into the emptied table, root first, from its end. */
  method ScratchPath(records: seq<Record>, id: nat, table: array<Slot>, len: nat)
    requires ParentsOlder(records) && id < |records| && len == |PathTo(records, id)| <= table.Length
    modifies table
    ensures forall k | 0 <= k < len :: table[k] == Bound(PathTo(records, id)[k], 0)
    ensures forall k | len <= k < table.Length :: table[k] == old(table[k])
  {
    PathClimbs(records, id);
    var old_ := id;
    var n := len;
    while n > 0
      invariant 0 <= n <= len && (n > 0 ==> old_ == PathTo(records, id)[n - 1])
      invariant forall k | n <= k < len :: table[k] == Bound(PathTo(records, id)[k], 0)
      invariant forall k | len <= k < table.Length :: table[k] == old(table[k])
    {
      n := n - 1;
      table[n] := Bound(old_, 0);
      if n > 0 {
        assert records[PathTo(records, id)[n]].node.parent == Some(PathTo(records, id)[n - 1]);
        old_ := records[old_].node.parent.value;
      }
    }
  }

  /** In place, the first records become those of the path to `id`, each linked to the one before
      it. Since an id on the path is at least its index there, no move overwrites a later one's
      source. */
  method CompactPath(records0: seq<Record>, id: nat, table: array<Slot>, len: nat) returns (records: seq<Record>)
    requires ParentsOlder(records0) && id < |records0| && len == |PathTo(records0, id)| <= table.Length
    requires forall k | 0 <= k < len :: table[k] == Bound(PathTo(records0, id)[k], 0)
    ensures records == KeptPath(records0, id)
  {
    PathClimbs(records0, id);
    ghost var path := PathTo(records0, id);
    records := records0;
    for n := 0 to len
      invariant |records| == |records0|
      invariant forall k | 0 <= k < n :: records[k] == Detached(records0[path[k]], k)
      invariant forall k | n <= k < len :: records[path[k]] == records0[path[k]]
    {
      assert table[n] == Bound(path[n], 0) && n <= path[n];
      var record := records[table[n].id];
      records := records[n := Detached(record, n)];
    }
    records := records[..len];
  }

  /** The kept path leads from the root to the same node, state, cost and direction intact. */
  lemma KeptPathIsPath(records: seq<Record>, id: nat)
    requires ParentsOlder(records) && id < |records|
    ensures var kept, path := KeptPath(records, id), PathTo(records, id);
            && |kept| == |path| && ParentsOlder(kept) && Versions(kept, |kept|)
            && PathTo(kept, |kept| - 1) == seq(|kept|, k => k)
            && forall k | 0 <= k < |kept| ::
                 && kept[k].node.state == records[path[k]].node.state && kept[k].node.g == records[path[k]].node.g
                 && kept[k].node.h == records[path[k]].node.h &&
                   kept[k].node.direction == records[path[k]].node.direction
                 && kept[k].closed == records[path[k]].closed
  {
    PathClimbs(records, id);
    KeptPathPrefix(KeptPath(records, id), |KeptPath(records, id)| - 1);
  }

  /** Every kept record is detached. */
  lemma KeptPathIsClean(records: seq<Record>, id: nat)
    requires ParentsOlder(records) && id < |records|
    ensures var kept := KeptPath(records, id);
            && |kept| == |PathTo(records, id)| && ParentsOlder(kept) && Versions(kept, |kept|) && Live(kept) == {}
            && forall i | 0 <= i < |kept| :: kept[i].superseded
  {
    KeptPathIsPath(records, id);
    assert Live(KeptPath(records, id)) == {};
  }

  lemma {:induction false} KeptPathPrefix(kept: seq<Record>, k: nat)
    requires ParentsOlder(kept) && k < |kept|
    requires forall i | 0 <= i < |kept| :: kept[i].node.parent == if i == 0 then None else Some(i - 1)
    ensures PathTo(kept, k) == seq(k + 1, i => i)
  {
    if k > 0 { KeptPathPrefix(kept, k - 1); }
  }

  /** Records with the same parents have the same paths. */
  lemma {:induction false} SamePath(records: seq<Record>, after: seq<Record>, id: nat)
    requires ParentsOlder(records) && ParentsOlder(after) && id < |records| <= |after|
    requires forall i | 0 <= i <= id :: after[i].node.parent == records[i].node.parent
    ensures PathTo(after, id) == PathTo(records, id)
    decreases id
  {
    if records[id].node.parent.Some? { SamePath(records, after, records[id].node.parent.value); }
  }

  /** A new record's path is its parent's and itself. */
  lemma AppendedPath(records: seq<Record>, found: Option<nat>, node: Node)
    requires ParentsOlder(records) && (found.Some? ==> found.value < |records|)
    requires node.parent.Some? && node.parent.value < |records|
    ensures ParentsOlder(Appended(records, found, node))
    ensures |PathTo(Appended(records, found, node), |records|)| == |PathTo(records, node.parent.value)| + 1
  {
    AppendKeepsParents(records, found, node);
    SamePath(records, Appended(records, found, node), node.parent.value);
  }

  // ---------------------------------------------------------------- the memory ceiling

  const RECORD_BYTES: nat := 12
  const CELL_BYTES: nat := 2
  const KEY_BYTES: nat := 8
  const SLOT_BYTES: nat := 4
  const U64_MAX: nat := 0xFFFF_FFFF_FFFF_FFFF
  const MIB: nat := 1024 * 1024

  function Doubled(p: nat, n: nat): (r: nat)
    requires p > 0
    ensures n <= r && p <= r
    ensures r == p || r < 2 * n
    decreases if p < n then n - p else 0
  {
    if p >= n then p else Doubled(2 * p, n)
  }

  lemma {:induction false} DoubledMonotone(p: nat, m: nat, n: nat)
    requires p > 0 && m <= n
    ensures Doubled(p, m) <= Doubled(p, n)
    decreases if p < n then n - p else 0
  {
    if p < n { DoubledMonotone(2 * p, m, n); }
  }

  /** How far the index grows for `records` records: to the smallest power of two, from the first
      table's size up, at least twice that many. */
  function FinalTable(records: nat): (size: nat)
    ensures records * 2 <= size && size > 0
  {
    Doubled(1, records * 2)
  }

  function Pow2(k: nat): (p: nat)
    ensures p > 0
  {
    if k == 0 then 1 else 2 * Pow2(k - 1)
  }

  lemma {:induction false} DoubledIsLeast(k: nat, n: nat) returns (j: nat)
    ensures j >= k && Doubled(Pow2(k), n) == Pow2(j)
    ensures forall i: nat | k <= i && n <= Pow2(i) :: Pow2(j) <= Pow2(i)
    decreases if Pow2(k) < n then n - Pow2(k) else 0
  {
    if Pow2(k) >= n {
      j := k;
      forall i: nat | k <= i ensures Pow2(k) <= Pow2(i) { Pow2Rises(k, i); }
    } else {
      assert Pow2(k + 1) == 2 * Pow2(k);
      j := DoubledIsLeast(k + 1, n);
      forall i: nat | k <= i && n <= Pow2(i) ensures Pow2(j) <= Pow2(i) {
        assert i != k;
      }
    }
  }

  lemma {:induction false} Pow2Rises(k: nat, i: nat)
    requires k <= i
    ensures Pow2(k) <= Pow2(i)
    decreases i
  {
    if k < i { Pow2Rises(k, i - 1); }
  }

  /** The final table's size is a power of two, the least one that `records` ids fill to half at
      most. */
  lemma FinalTableIsLeast(records: nat)
    ensures exists j: nat :: FinalTable(records) == Pow2(j)
    ensures forall i: nat | records * 2 <= Pow2(i) :: FinalTable(records) <= Pow2(i)
  {
    var j := DoubledIsLeast(0, records * 2);
    assert Pow2(0) == 1;
  }

  /** Bytes charged for each state the limit admits. */
  function PerState(boxes: nat): nat {
    RECORD_BYTES + boxes * CELL_BYTES + KEY_BYTES
  }

  function SaturatingAdd(a: nat, b: nat): nat {
    if a + b > U64_MAX then U64_MAX else a + b
  }

  /** The bytes a limit of `count` charges: one spare record, the final table and the fixed
      buffers. */
  function BytesFor(fixedBytes: nat, boxes: nat, count: nat): nat {
    SaturatingAdd(fixedBytes, (count + 1) * PerState(boxes) + FinalTable(count + 1) * SLOT_BYTES)
  }

  lemma BytesMonotone(fixedBytes: nat, boxes: nat, few: nat, many: nat)
    requires few <= many
    ensures BytesFor(fixedBytes, boxes, few) <= BytesFor(fixedBytes, boxes, many)
  {
    DoubledMonotone(1, (few + 1) * 2, (many + 1) * 2);
    assert (few + 1) * PerState(boxes) <= (many + 1) * PerState(boxes);
  }

  /** `limit` is the most states, up to `most`, whose bytes a budget holds. */
  ghost predicate IsCapacity(fixedBytes: nat, boxes: nat, most: nat, budget: nat, limit: nat) {
    && 1 <= limit <= most && BytesFor(fixedBytes, boxes, limit) <= budget
    && forall n: nat | limit < n <= most :: BytesFor(fixedBytes, boxes, n) > budget
  }

  /** A capacity is a limit whose bytes fit, at most `most`, that no more by one would fit. */
  lemma CapacityMeans(fixedBytes: nat, boxes: nat, most: nat, budget: nat, limit: nat)
    ensures IsCapacity(fixedBytes, boxes, most, budget, limit) <==>
            && 1 <= limit <= most && BytesFor(fixedBytes, boxes, limit) <= budget
            && (limit == most || BytesFor(fixedBytes, boxes, limit + 1) > budget)
  {
    if limit < most && BytesFor(fixedBytes, boxes, limit + 1) > budget {
      forall n: nat | limit < n <= most ensures BytesFor(fixedBytes, boxes, n) > budget {
        BytesMonotone(fixedBytes, boxes, limit + 1, n);
      }
    }
  }

  /** The capacity of the budget with the bytes it charges; None when not one state fits. */
  method Capacity(fixedBytes: nat, boxes: nat, maxStates: nat, memoryMib: nat) returns (r: Option<(nat, nat)>)
    requires 1 <= maxStates
    ensures r.Some? ==> r.value.1 == BytesFor(fixedBytes, boxes, r.value.0)
    ensures r.Some? ==> IsCapacity(fixedBytes, boxes, maxStates, memoryMib * MIB, r.value.0)
    ensures r.None? ==> forall n: nat | 1 <= n <= maxStates :: BytesFor(fixedBytes, boxes, n) > memoryMib * MIB
  {
    var budget := memoryMib * MIB;
    var low, high := 0, maxStates;
    while low < high
      invariant 0 <= low <= high <= maxStates
      invariant low > 0 ==> BytesFor(fixedBytes, boxes, low) <= budget
      invariant forall n: nat | high < n <= maxStates :: BytesFor(fixedBytes, boxes, n) > budget
    {
      var mid := low + (high - low + 1) / 2;
      if BytesFor(fixedBytes, boxes, mid) <= budget {
        low := mid;
      } else {
        forall n: nat | mid <= n <= maxStates
          ensures BytesFor(fixedBytes, boxes, n) > budget
        {
          BytesMonotone(fixedBytes, boxes, mid, n);
        }
        high := mid - 1;
      }
    }
    if low == 0 { return None; }
    return Some((low, BytesFor(fixedBytes, boxes, low)));
  }

  // ---------------------------------------------------------------- the arena

  ghost function Live(records: seq<Record>): set<nat> {
    set i: nat | 0 <= i < |records| && !records[i].superseded
  }

  lemma AppendLive(records: seq<Record>, previous: Option<nat>, node: Node)
    requires previous.Some? ==> previous.value < |records| && !records[previous.value].superseded
    ensures |Live(Appended(records, previous, node))| == |Live(records)| + (if previous.Some? then 0 else 1)
  {
    var n, live, after := |records|, Live(records), Live(Appended(records, previous, node));
    forall i: nat ensures i in after <==> (i in live && previous != Some(i)) || i == n {
      if i < n && previous != Some(i) { assert Appended(records, previous, node)[i] == records[i]; }
    }
    SwapOne(live, after, if previous.Some? then {previous.value} else {}, n);
  }

  lemma SwapOne(live: set<nat>, after: set<nat>, gone: set<nat>, n: nat)
    requires n !in live && gone <= live && forall i: nat :: i in after <==> (i in live && i !in gone) || i == n
    ensures |after| == |live| - |gone| + 1
  {
    assert after == live - gone + {n};
  }

  lemma LiveFits(records: seq<Record>)
    ensures |Live(records)| <= |records|
  {
    SubsetSize(Live(records), Below(|records|));
  }

  /** More slots than live records leave one empty. */
  lemma IndexHasNil(hash: State -> nat, tag: nat -> nat, table: seq<Slot>, records: seq<Record>)
    requires Indexed(hash, tag, table, records) && |Live(records)| < |table|
    ensures exists z: nat :: z < |table| && table[z].Nil?
  {
    if forall z: nat | z < |table| :: table[z].Bound? {
      var ids: seq<nat> := seq(|table|, s requires 0 <= s < |table| && table[s].Bound? => table[s].id);
      DistinctSize(ids);
      assert CellSet(ids) <= Live(records);
      SubsetSize(CellSet(ids), Live(records));
    }
  }

  lemma EmptyIndex(hash: State -> nat, tag: nat -> nat, table: seq<Slot>, records: seq<Record>)
    requires |table| > 0 && (forall s | 0 <= s < |table| :: table[s].Nil?)
    requires (forall i | 0 <= i < |records| :: records[i].superseded)
    ensures Indexed(hash, tag, table, records)
  {
  }

  lemma NoCapacity(fixedBytes: nat, boxes: nat, most: nat, budget: nat)
    requires forall n: nat | 1 <= n <= most :: BytesFor(fixedBytes, boxes, n) > budget
    ensures forall n: nat :: !IsCapacity(fixedBytes, boxes, most, budget, n)
  {
  }

  /** The budget has a capacity whose buffers the first chunk and a table of `slots` fit. */
  ghost predicate Rechargeable(fixed: nat, boxes: nat, most: nat, budget: nat, slots: nat) {
    exists limit: nat :: IsCapacity(fixed, boxes, most, budget, limit)
                         && (if most + 1 < CHUNK then most + 1 else CHUNK) <= limit + 1 &&
                           slots <= FinalTable(limit + 1)
  }

  lemma RechargeAnswer(fixed: nat, boxes: nat, most: nat, budget: nat, slots: nat, limit: nat)
    requires IsCapacity(fixed, boxes, most, budget, limit)
    ensures Rechargeable(fixed, boxes, most, budget, slots) <==>
            (if most + 1 < CHUNK then most + 1 else CHUNK) <= limit + 1 && slots <= FinalTable(limit + 1)
  {
    assert forall n: nat | IsCapacity(fixed, boxes, most, budget, n) :: n == limit;
  }

  // ---------------------------------------------------------------- room and growth

  /** The table's slots, the chunks reserved and whether a growth was refused. */
  datatype Buffers = Buffers(slots: nat, chunks: nat, starved: bool)

  /** Records a number of chunks has room for. */
  function Reserved(chunks: nat): nat {
    chunks * 0x1_0000
  }

  /** Records the reserved chunks hold: never more than the limit and one spare. */
  function RoomOf(chunks: nat, limit: nat): nat {
    if Reserved(chunks) < limit + 1 then Reserved(chunks) else limit + 1
  }

  /** Below the limit, the next insert leaves room for one more. */
  predicate AheadOf(chunks: nat, limit: nat, len: nat) {
    len <= limit ==> len + 1 < Reserved(chunks) || limit < Reserved(chunks)
  }

  /** Buffers that fit `len` records of which `resident` are bound. A starved arena that kept
      its table has room for one last record at most, and an index more than half bound has
      none. */
  ghost predicate Shaped(buf: Buffers, limit: nat, len: nat, resident: nat) {
    && limit >= 1 && 1 <= buf.chunks && Reserved(buf.chunks - 1) <= limit && len <= RoomOf(buf.chunks, limit)
    && (buf.slots == 0 || 4 <= buf.slots <= FinalTable(limit + 1)) && (buf.slots == 0 ==> buf.starved)
    && (buf.slots > 0 ==> resident * 2 <= buf.slots + 2)
    && (buf.slots > 0 && len < RoomOf(buf.chunks, limit) ==> resident * 2 <= buf.slots)
    && (buf.slots > 0 && buf.starved ==> RoomOf(buf.chunks, limit) <= len + 1)
  }

  /** The buffers after an insert that left `len` records, `resident` of them bound. */
  function GrownBuffers(buf: Buffers, limit: nat, len: nat, resident: nat, refuseTable: bool,
                        refuseChunk: bool): Buffers {
    if buf.starved || len > limit then buf
    else
      var needTable := resident * 2 > buf.slots;
      var needChunk := len + 1 == Reserved(buf.chunks) <= limit;
      if needTable && refuseTable then Buffers(0, buf.chunks, true)
      else
        var slots := if needTable then FinalTable(limit + 1) else buf.slots;
        if needChunk && refuseChunk then Buffers(slots, buf.chunks, true)
        else Buffers(slots, if needChunk then buf.chunks + 1 else buf.chunks, false)
  }

  /** When an insert grows what: the table once its bound slots are past half, a chunk once one
      record is left in the last, both while below the limit and until a refusal, which is all
      that starves an arena. */
  lemma GrowthMeans(buf: Buffers, limit: nat, len: nat, resident: nat, refuseTable: bool, refuseChunk: bool)
    ensures var after := GrownBuffers(buf, limit, len, resident, refuseTable, refuseChunk);
            var due := !buf.starved && len <= limit;
            var tableDue := due && 2 * resident > buf.slots;
            var chunkDue := due && len + 1 == buf.chunks * 0x1_0000 && buf.chunks * 0x1_0000 <= limit;
            && (after.starved <==> buf.starved || (tableDue && refuseTable) || (chunkDue && refuseChunk))
            && after.slots == (if !tableDue then buf.slots else if refuseTable then 0 else FinalTable(limit + 1))
            && after.chunks == buf.chunks + if chunkDue && !refuseChunk && !(tableDue && refuseTable) then 1 else 0
  {
  }

  /** A count of bytes as far as 64 bits hold it. */
  function Counted(bytes: nat): nat {
    if bytes <= U64_MAX then bytes else U64_MAX
  }

  /** The charge is exactly what a full arena holds besides the fixed buffers. */
  lemma ChargeIsTight(fixedBytes: nat, boxes: nat, limit: nat, chunks: nat)
    requires limit < Reserved(chunks)
    ensures BytesFor(fixedBytes, boxes, limit) == Counted(fixedBytes + FinalTable(limit + 1) * SLOT_BYTES +
              RoomOf(chunks, limit) * (RECORD_BYTES + boxes * CELL_BYTES + KEY_BYTES))
  {
  }

  /** An insert into room keeps the buffers shaped, and keeps room ahead unless it starves. */
  lemma GrowthShapes(buf: Buffers, limit: nat, len: nat, resident: nat, bound: nat, refuseTable: bool,
                     refuseChunk: bool)
    requires Shaped(buf, limit, len, resident) && buf.slots > 0 && len < RoomOf(buf.chunks, limit)
    requires bound <= resident + 1 && bound <= len + 1
    ensures var after := GrownBuffers(buf, limit, len + 1, bound, refuseTable, refuseChunk);
            && Shaped(after, limit, len + 1, bound)
            && (!after.starved && AheadOf(buf.chunks, limit, len) ==> AheadOf(after.chunks, limit, len + 1))
  {
    var after := GrownBuffers(buf, limit, len + 1, bound, refuseTable, refuseChunk);
    assert (limit + 1) * 2 <= FinalTable(limit + 1);
  }

  /** Room for two records more, and a table that one id leaves half empty, take the first without
      growing. */
  lemma StartFits(buf: Buffers, limit: nat, len: nat, resident: nat, refuseTable: bool, refuseChunk: bool)
    requires !buf.starved && 4 <= buf.slots && resident <= 1
    requires len + 2 < Reserved(buf.chunks) || limit < Reserved(buf.chunks)
    ensures !GrownBuffers(buf, limit, len + 1, resident, refuseTable, refuseChunk).starved
  {
  }

  class Arena {
    const hash: State -> nat
    const tag: nat -> nat
    const boxes: nat
    var fixedBytes: nat
    var records: seq<Record>
    var table: array<Slot>
    /** Chunks reserved so far: room for that many times CHUNK records, the limit and one
        spare at most. */
    var chunks: nat
    /** Ids the table binds. */
    var resident: nat
    var nodeLimit: nat
    var reservedBytes: nat
    var starved: bool
    /** The budget, not the caller, set the limit. */
    var scaledDown: bool
    var uniqueStates: nat
    var duplicateImprovements: nat
    var reopenedStates: nat
    /** Records a clear kept detached at the front. */
    ghost var kept: nat
    /** Inserts so far, clears included. */
    ghost var inserted: nat

    function Room(): nat
      reads this
    {
      RoomOf(chunks, nodeLimit)
    }

    /** Bytes of the charge the arena holds now. */
    function HeldBytes(): nat
      reads this, table
    {
      table.Length * SLOT_BYTES + Room() * PerState(boxes)
    }

    /** Room for the next insert is already allocated. */
    ghost predicate RoomAhead()
      reads this
    {
      AheadOf(chunks, nodeLimit, |records|)
    }

    ghost predicate Sized()
      reads this, table
    {
      Shaped(Buffers(table.Length, chunks, starved), nodeLimit, |records|, resident) && resident == |Live(records)|
    }

    /** The reservation is exact: it covers the limit's records and index on top of `fixedBytes`. */
    ghost predicate Charged()
      reads this`reservedBytes, this`fixedBytes, this`nodeLimit
    {
      reservedBytes == BytesFor(fixedBytes, boxes, nodeLimit) < U64_MAX
    }

    /** Everything the arena keeps, but for room ahead of a starved one. */
    ghost predicate Core()
      reads this, table
    {
      && Sized() && Charged() && Versions(records, kept) && ParentsOlder(records)
      && (table.Length > 0 ==> Indexed(hash, tag, table[..], records))
      && uniqueStates + duplicateImprovements == inserted
    }

    ghost predicate Valid()
      reads this, table
    {
      Core() && (!starved ==> RoomAhead())
    }

    /** Below its limit an arena that is not starved has room for the next insert. */
    lemma RoomForOne()
      requires Valid() && !starved && |records| <= nodeLimit
      ensures table.Length > 0 && |records| < Room()
    {
    }

    /** A full arena has reserved all it may ever hold. */
    lemma FullIsReserved()
      requires Valid() && !starved && nodeLimit <= |records|
      ensures nodeLimit < Reserved(chunks) && table.Length >= 4
    {
    }

    /** An empty arena has room for two records. */
    lemma EmptyHasRoom()
      requires Valid() && !starved && records == []
      ensures table.Length >= 4 && resident == 0 && 2 < Reserved(chunks) && 1 <= nodeLimit
    {
      assert Live(records) == {};
    }

    /** An empty arena with the limit `Capacity` allows. */
    constructor (hash: State -> nat, tag: nat -> nat, fixedBytes: nat, boxes: nat, maxStates: nat, limit: nat)
      requires 1 <= limit <= maxStates && BytesFor(fixedBytes, boxes, limit) < U64_MAX
      ensures Valid() && records == [] && kept == 0 && !starved && nodeLimit == limit && fresh(table)
      ensures table.Length == if FinalTable(limit + 1) < INITIAL_TABLE then FinalTable(limit + 1) else INITIAL_TABLE
      ensures this.hash == hash && this.boxes == boxes && this.fixedBytes == fixedBytes && chunks == 1
      ensures inserted == 0 && scaledDown == (limit < maxStates)
    {
      this.hash, this.tag, this.fixedBytes, this.boxes := hash, tag, fixedBytes, boxes;
      records, chunks, resident, nodeLimit, scaledDown := [], 1, 0, limit, limit < maxStates;
      reservedBytes := BytesFor(fixedBytes, boxes, limit);
      starved, uniqueStates, duplicateImprovements, reopenedStates := false, 0, 0, 0;
      kept, inserted := 0, 0;
      var size := if FinalTable(limit + 1) < INITIAL_TABLE then FinalTable(limit + 1) else INITIAL_TABLE;
      table := new Slot[size](_ => Nil);
      new;
      EmptyIndex(hash, tag, table[..], records);
    }

    /** Charges `fixed` bytes to the budget in place of the present fixed buffers, before a search
        holds more than its start. The limit only falls. It refuses, and changes nothing, exactly
        when the budget has no room for a state or the arena already outgrew the lower limit. */
    method Recharge(fixed: nat, memoryMib: nat) returns (fits: bool)
      requires Valid() && !starved && chunks == 1 && |records| <= 1 && memoryMib * MIB < U64_MAX
      modifies this`nodeLimit, this`reservedBytes, this`scaledDown, this`fixedBytes
      ensures Valid() && nodeLimit <= old(nodeLimit)
      ensures !fits ==> nodeLimit == old(nodeLimit) && reservedBytes == old(reservedBytes)
      ensures !fits ==> scaledDown == old(scaledDown) && fixedBytes == old(fixedBytes)
      ensures fits ==> fixedBytes == fixed && reservedBytes == BytesFor(fixed, boxes, nodeLimit)
      ensures fits ==> IsCapacity(fixed, boxes, old(nodeLimit), memoryMib * MIB, nodeLimit)
      ensures fits ==> scaledDown == (old(scaledDown) || nodeLimit < old(nodeLimit))
      ensures fits <==> Rechargeable(fixed, boxes, old(nodeLimit), memoryMib * MIB, table.Length)
    {
      var capacity := Capacity(fixed, boxes, nodeLimit, memoryMib);
      if capacity.None? {
        NoCapacity(fixed, boxes, nodeLimit, memoryMib * MIB);
        return false;
      }
      var (limit, bytes) := capacity.value;
      RechargeAnswer(fixed, boxes, nodeLimit, memoryMib * MIB, table.Length, limit);
      var first := if nodeLimit + 1 < CHUNK then nodeLimit + 1 else CHUNK;
      fits := first <= limit + 1 && table.Length <= FinalTable(limit + 1);
      if fits {
        DoubledMonotone(1, (limit + 1) * 2, (nodeLimit + 1) * 2);
        LiveFits(records);
        Resize(limit, bytes, fixed);
      }
    }

    method Resize(limit: nat, bytes: nat, fixed: nat)
      requires Valid() && !starved && chunks == 1 && |records| <= 1 && 1 <= limit <= nodeLimit
      requires resident <= 1
      requires bytes == BytesFor(fixed, boxes, limit) < U64_MAX
      requires table.Length <= FinalTable(limit + 1)
      modifies this`nodeLimit, this`reservedBytes, this`scaledDown, this`fixedBytes
      ensures Valid() && nodeLimit == limit && reservedBytes == bytes && fixedBytes == fixed
      ensures scaledDown == (old(scaledDown) || limit < old(nodeLimit))
    {
      scaledDown := scaledDown || limit < nodeLimit;
      nodeLimit, reservedBytes, fixedBytes := limit, bytes, fixed;
    }

    /** Looks a state up: `found` is its latest version exactly, and a record of it may be bound at
        `index`. */
    method Find(s: State) returns (index: nat, found: Option<nat>)
      requires Core() && table.Length > 0
      ensures SlotFor(hash, table[..], records, s, index, found)
      ensures found.Some? ==> IsLatest(records, kept, s, found.value)
      ensures found.None? ==> Absent(records, kept, s)
    {
      var n := table.Length;
      var h := hash(s);
      var home := h % n;
      ghost var t := table[..];
      IndexHasNil(hash, tag, t, records);
      ghost var z: nat :| z < n && t[z].Nil?;
      var k := 0;
      index := home;
      while true
        invariant k < n && index == After(home, k, n)
        invariant Filled(t, home, k)
        invariant forall j: nat {:trigger After(home, j, n)} | j < k :: records[t[After(home, j, n)].id].node.state != s
        decreases n - k
      {
        var entry := table[index];
        assert t[index] == entry;
        if entry.Nil? {
          NotFoundIsAbsent(hash, tag, t, records, kept, s, k);
          GapAfter(home, k, n);
          return index, None;
        }
        if entry.tag == tag(h) && records[entry.id].node.state == s {
          LiveIsLatest(records, kept, entry.id);
          return index, Some(entry.id);
        }
        ProbeShortOfNil(t, home, k + 1, z);
        NextAfter(home, k, n);
        k, index := k + 1, Next(index, n);
      }
    }

    /** Appends `node`, superseding the version a find returned for its state, then grows the
        buffers the next insert needs; a starved arena still takes the one record it has room
        for. `refuseTable` and `refuseChunk` are the allocator's answers. */
    method Insert(node: Node, index: nat, found: Option<nat>, refuseTable: bool, refuseChunk: bool) returns (id: nat)
      requires Core() && table.Length > 0 && |records| < Room()
      requires SlotFor(hash, table[..], records, node.state, index, found)
      requires found.Some? ==> IsLatest(records, kept, node.state, found.value)
      requires found.None? ==> Absent(records, kept, node.state)
      requires node.parent.Some? ==> node.parent.value < |records|
      modifies this`records, this`resident, this`uniqueStates, this`duplicateImprovements, this`reopenedStates,
        this`inserted
      modifies this`table, this`starved, this`chunks, table
      ensures Core() && (old(Valid()) ==> Valid()) && id == old(|records|)
      ensures records == Appended(old(records), found, node)
      ensures inserted == old(inserted) + 1 && resident == old(resident) + (if found.None? then 1 else 0)
      ensures IsLatest(records, kept, node.state, id)
      ensures uniqueStates == old(uniqueStates) + (if found.None? then 1 else 0)
      ensures reopenedStates == old(reopenedStates) +
                if found.Some? && old(records)[found.value].closed then 1 else 0
      ensures |records| == |old(records)| + 1 && records[id] == Record(node, false, false)
      ensures forall k | 0 <= k < |old(records)| ::
                && records[k].node == old(records)[k].node && records[k].closed == old(records)[k].closed
                && (records[k].superseded <==> old(records)[k].superseded || records[k].node.state == node.state)
      ensures Buffers(table.Length, chunks, starved) ==
              GrownBuffers(
                old(Buffers(table.Length, chunks, starved)), nodeLimit, |records|, resident, refuseTable, refuseChunk)
      ensures table == old(table) || fresh(table)
    {
      AppendedMeans(records, kept, found, node);
      AppendedIsLatest(records, found, node, kept);
      id := InsertCore(node, index, found, refuseTable, refuseChunk);
    }

    /** The insert, short of what its caller may conclude. */
    method InsertCore(node: Node, index: nat, found: Option<nat>, refuseTable: bool, refuseChunk: bool)
      returns (id: nat)
      requires Core() && table.Length > 0 && |records| < Room()
      requires SlotFor(hash, table[..], records, node.state, index, found)
      requires found.Some? ==> IsLatest(records, kept, node.state, found.value)
      requires found.None? ==> Absent(records, kept, node.state)
      requires node.parent.Some? ==> node.parent.value < |records|
      modifies this`records, this`resident, this`uniqueStates, this`duplicateImprovements, this`reopenedStates,
        this`inserted
      modifies this`table, this`starved, this`chunks, table
      ensures Core() && id == old(|records|) && records == Appended(old(records), found, node)
      ensures !starved && old(RoomAhead()) ==> RoomAhead()
      ensures inserted == old(inserted) + 1 && uniqueStates == old(uniqueStates) + (if found.None? then 1 else 0)
      ensures reopenedStates == old(reopenedStates) +
                if found.Some? && old(records)[found.value].closed then 1 else 0
      ensures resident == old(resident) + (if found.None? then 1 else 0)
      ensures Buffers(table.Length, chunks, starved) ==
              GrownBuffers(
                old(Buffers(table.Length, chunks, starved)), nodeLimit, |records|, resident, refuseTable, refuseChunk)
      ensures table == old(table) || fresh(table)
    {
      ghost var buf, before, bound := Buffers(table.Length, chunks, starved), records, resident;
      AppendKeepsParents(before, found, node);
      LiveFits(Appended(before, found, node));
      id := Extend(node, index, found, refuseTable, refuseChunk);
      Reshaped(buf, |before|, bound, refuseTable, refuseChunk);
    }

    lemma Reshaped(buf: Buffers, len: nat, bound: nat, refuseTable: bool, refuseChunk: bool)
      requires Shaped(buf, nodeLimit, len, bound) && buf.slots > 0 && len < RoomOf(buf.chunks, nodeLimit)
      requires |records| == len + 1 && resident == |Live(records)| && resident <= bound + 1 && resident <= len + 1
      requires Buffers(table.Length, chunks, starved) == GrownBuffers(
                 buf, nodeLimit, len + 1, resident, refuseTable, refuseChunk)
      ensures Sized() && (!starved && AheadOf(buf.chunks, nodeLimit, len) ==> RoomAhead())
    {
      GrowthShapes(buf, nodeLimit, len, bound, resident, refuseTable, refuseChunk);
    }

    /** The append and the growth after it. */
    method Extend(node: Node, index: nat, found: Option<nat>, refuseTable: bool, refuseChunk: bool) returns (id: nat)
      requires Versions(records, kept) && table.Length > 0 && Indexed(hash, tag, table[..], records)
      requires resident == |Live(records)|
      requires |records| <= nodeLimit && SlotFor(hash, table[..], records, node.state, index, found)
      requires found.Some? ==> IsLatest(records, kept, node.state, found.value)
      requires found.None? ==> Absent(records, kept, node.state)
      modifies this`records, this`resident, this`uniqueStates, this`duplicateImprovements, this`reopenedStates,
        this`inserted
      modifies this`table, this`starved, this`chunks, table
      ensures id == old(|records|) && records == Appended(old(records), found, node)
      ensures Versions(records, kept) && (table.Length > 0 ==> Indexed(hash, tag, table[..], records))
      ensures resident == |Live(records)| == old(resident) + (if found.None? then 1 else 0)
      ensures uniqueStates == old(uniqueStates) + (if found.None? then 1 else 0)
      ensures duplicateImprovements == old(duplicateImprovements) + (if found.Some? then 1 else 0)
      ensures reopenedStates == old(reopenedStates) +
                if found.Some? && old(records)[found.value].closed then 1 else 0
      ensures inserted == old(inserted) + 1
      ensures Buffers(table.Length, chunks, starved) ==
              GrownBuffers(
                old(Buffers(table.Length, chunks, starved)), nodeLimit, |records|, resident, refuseTable, refuseChunk)
      ensures table == old(table) || fresh(table)
    {
      id := Bind(node, index, found);
      LiveFits(records);
      GrowAhead(refuseTable, refuseChunk);
    }

    /** The append itself: the record, its slot and the counters. */
    method Bind(node: Node, index: nat, found: Option<nat>) returns (id: nat)
      requires Versions(records, kept) && table.Length > 0 && Indexed(hash, tag, table[..], records)
      requires resident == |Live(records)|
      requires SlotFor(hash, table[..], records, node.state, index, found)
      requires found.Some? ==> IsLatest(records, kept, node.state, found.value)
      requires found.None? ==> Absent(records, kept, node.state)
      modifies this`records, this`resident, this`uniqueStates, this`duplicateImprovements, this`reopenedStates,
        this`inserted, table
      ensures id == old(|records|) && records == Appended(old(records), found, node)
      ensures Indexed(hash, tag, table[..], records) && Versions(records, kept)
      ensures resident == |Live(records)| == old(resident) + (if found.None? then 1 else 0)
      ensures uniqueStates == old(uniqueStates) + (if found.None? then 1 else 0)
      ensures duplicateImprovements == old(duplicateImprovements) + (if found.Some? then 1 else 0)
      ensures reopenedStates == old(reopenedStates) +
                if found.Some? && old(records)[found.value].closed then 1 else 0
      ensures inserted == old(inserted) + 1
    {
      id := |records|;
      ghost var t, before := table[..], records;
      if found.Some? { LatestIsLive(records, kept, node.state, found.value); }
      AppendLive(records, found, node);
      AppendKeepsVersions(records, kept, found, node);
      if table[index].Nil? {
        BindNew(hash, tag, t, records, node, index);
        uniqueStates, resident := uniqueStates + 1, resident + 1;
      } else {
        var previous := table[index].id;
        BindReplaced(hash, tag, t, records, node, index, previous);
        duplicateImprovements := duplicateImprovements + 1;
        if records[previous].closed { reopenedStates := reopenedStates + 1; }
        records := records[previous := records[previous].(superseded := true)];
      }
      records := records + [Record(node, false, false)];
      table[index] := Bound(id, tag(hash(node.state)));
      assert table[..] == t[index := Bound(id, tag(hash(node.state)))];
      inserted := inserted + 1;
    }

    /** After an insert below the limit, the next one has a slot and a chunk to go to, unless the
        allocator refused either. */
    method GrowAhead(refuseTable: bool, refuseChunk: bool)
      requires table.Length > 0 && Indexed(hash, tag, table[..], records)
      requires resident <= |records| && |records| < FinalTable(nodeLimit + 1)
      modifies this`table, this`starved, this`chunks
      ensures table == old(table) || fresh(table)
      ensures table.Length > 0 ==> Indexed(hash, tag, table[..], records)
      ensures Buffers(table.Length, chunks, starved) ==
              GrownBuffers(
                old(Buffers(table.Length, chunks, starved)), nodeLimit, |records|, resident, refuseTable, refuseChunk)
    {
      if |records| <= nodeLimit && !starved && (resident * 2 > table.Length || |records| + 1 == Reserved(chunks)) {
        Grow(refuseTable, refuseChunk);
      }
    }

    /** The growth: the final table in place of the first, then a chunk. A refusal starves the
        arena and ends it. */
    method Grow(refuseTable: bool, refuseChunk: bool)
      requires !starved && |records| <= nodeLimit && table.Length > 0 && Indexed(hash, tag, table[..], records)
      requires |records| < FinalTable(nodeLimit + 1)
      modifies this`table, this`starved, this`chunks
      ensures table == old(table) || fresh(table)
      ensures table.Length > 0 ==> Indexed(hash, tag, table[..], records)
      ensures Buffers(table.Length, chunks, starved) ==
              GrownBuffers(
                old(Buffers(table.Length, chunks, starved)), nodeLimit, |records|, resident, refuseTable, refuseChunk)
    {
      if resident * 2 > table.Length {
        var size := FinalTable(nodeLimit + 1);
        if refuseTable {
          table := new Slot[0];
          starved := true;
          return;
        }
        table := new Slot[size](_ => Nil);
        Rebind(hash, tag, table, records);
      }
      var reserved := Reserved(chunks);
      if |records| + 1 == reserved && reserved <= nodeLimit {
        if refuseChunk {
          starved := true;
        } else {
          chunks := chunks + 1;
        }
      }
    }

    /** A record is superseded exactly when looking its state up gives another record, or none. */
    method IsSuperseded(id: nat) returns (superseded: bool)
      requires Valid() && id < |records|
      ensures superseded <==> !IsLatest(records, kept, records[id].node.state, id)
    {
      superseded := records[id].superseded;
      if superseded {
        if IsLatest(records, kept, records[id].node.state, id) {
          LatestIsLive(records, kept, records[id].node.state, id);
        }
      } else {
        LiveIsLatest(records, kept, id);
      }
    }

    /** Sets the closed flag; the answer is its old value, negated. */
    method Close(id: nat) returns (open: bool)
      requires Valid() && id < |records|
      modifies this`records
      ensures Valid() && open == !old(records)[id].closed
      ensures records == old(records)[id := old(records)[id].(closed := true)]
    {
      open := !records[id].closed;
      ghost var before := records;
      records := records[id := records[id].(closed := true)];
      ClosedKeepsVersions(before, records, kept);
      if table.Length > 0 { ClosedKeepsIndex(hash, tag, table[..], before, records); }
      assert Live(records) == Live(before);
    }

    /** Forgets every record in place, keeping every allocation. */
    method Clear()
      requires Valid()
      modifies this`records, this`resident, this`starved, this`kept, table
      ensures Valid() && records == [] && kept == 0 && table == old(table) && starved == (table.Length == 0)
    {
      Unbind(hash, tag, table, records, resident);
      records, resident, kept := [], 0, 0;
      starved := table.Length == 0;
      if table.Length > 0 { EmptyIndex(hash, tag, table[..], records); }
    }

    /** A clear that keeps `len` records can be refilled: the chunks have room for two more, or
        hold the whole limit already. */
    predicate RefillsAfter(chunks: nat, limit: nat, len: nat) {
      len + 2 <= Reserved(chunks) || limit < Reserved(chunks)
    }

    /** Only the records from the root to `id` survive, renumbered from 0 and in no index, so that
        every state can be stored afresh. It refuses, and changes nothing, exactly when they would
        fill the limit or the index. */
    method ClearKeeping(id: nat) returns (r: Option<nat>)
      requires Valid() && id < |records|
      modifies this`records, this`resident, this`starved, this`kept, table
      ensures table == old(table)
      ensures r.None? <==> var len := |PathTo(old(records), id)|; len >= nodeLimit || len > table.Length
      ensures r.None? ==> records == old(records) && kept == old(kept) && resident == old(resident)
      ensures r.None? ==> starved == old(starved) && table[..] == old(table[..])
      ensures r.Some? ==>
                && Core() && !starved && records == KeptPath(old(records), id) && kept == |records| == r.value + 1
                && (forall s :: Absent(records, kept, s))
      ensures r.Some? ==> (RoomAhead() <==> RefillsAfter(old(chunks), nodeLimit, |PathTo(old(records), id)|))
      ensures !old(starved) ==> Valid()
    {
      var len := PathLength(records, id);
      if len >= nodeLimit || len > table.Length { return None; }
      PathShorterThanRecords(records, id);
      KeepPath(id, len);
      return Some(len - 1);
    }

    /** The clear itself, the table serving as scratch for the path's ids. */
    method KeepPath(id: nat, len: nat)
      requires Core() && id < |records| && len == |PathTo(records, id)| <= table.Length && len <= Room()
      modifies this`records, this`resident, this`starved, this`kept, table
      ensures Core() && table == old(table) && !starved
      ensures records == KeptPath(old(records), id) && kept == |records| == len
    {
      KeptPathIsClean(records, id);
      records := MovePath(hash, tag, table, records, resident, id, len);
      resident, kept, starved := 0, len, false;
      EmptyIndex(hash, tag, table[..], records);
    }
  }

  /** Empties the table, moves the path down through it, and empties it again. */
  method MovePath(hash: State -> nat, tag: nat -> nat, table: array<Slot>, records0: seq<Record>, resident: nat,
                  id: nat, len: nat) returns (records: seq<Record>)
    requires table.Length > 0 ==> Indexed(hash, tag, table[..], records0)
    requires ParentsOlder(records0) && id < |records0| && len == |PathTo(records0, id)| <= table.Length
    modifies table
    ensures records == KeptPath(records0, id) && forall j | 0 <= j < table.Length :: table[j].Nil?
  {
    Unbind(hash, tag, table, records0, resident);
    ScratchPath(records0, id, table, len);
    records := CompactPath(records0, id, table, len);
    ClearScratch(table, len);
  }

  /** No number of states up to `most` fits the budget. */
  ghost predicate TooSmall(fixedBytes: nat, boxes: nat, most: nat, budget: nat) {
    forall n: nat | 1 <= n <= most :: BytesFor(fixedBytes, boxes, n) > budget
  }

  datatype ArenaMade = Made(arena: Arena) | NoRoom | NoMemory

  /** An arena for the budget, with the limit its capacity allows, unless not one state fits or
      an allocation is refused. */
  method NewArena(hash: State -> nat, tag: nat -> nat, fixedBytes: nat, boxes: nat, maxStates: nat, memoryMib: nat,
                  refused: bool)
    returns (r: ArenaMade)
    requires 1 <= maxStates && memoryMib * MIB < U64_MAX
    ensures r.NoRoom? <==> TooSmall(fixedBytes, boxes, maxStates, memoryMib * MIB)
    ensures r.NoMemory? <==> refused && !TooSmall(fixedBytes, boxes, maxStates, memoryMib * MIB)
    ensures r.Made? ==> fresh(r.arena) && fresh(r.arena.table) && r.arena.Valid() && r.arena.records == []
    ensures r.Made? ==> !r.arena.starved
    ensures r.Made? ==> IsCapacity(fixedBytes, boxes, maxStates, memoryMib * MIB, r.arena.nodeLimit)
    ensures r.Made? ==> r.arena.boxes == boxes && r.arena.kept == 0 && r.arena.chunks == 1
    ensures r.Made? ==> r.arena.scaledDown == (r.arena.nodeLimit < maxStates) && r.arena.inserted == 0
  {
    var capacity := Capacity(fixedBytes, boxes, maxStates, memoryMib);
    if capacity.None? { return NoRoom; }
    if refused { return NoMemory; }
    var a := new Arena(hash, tag, fixedBytes, boxes, maxStates, capacity.value.0);
    r := Made(a);
  }

  // ---------------------------------------------------------------- a starved arena refilled

  /** Without room ahead, an arena that is not starved is out of slots below its limit, now or
      after one more insert: no growth is due that would bring another. */
  lemma NoRoomAheadRunsOut(buf: Buffers, limit: nat, len: nat, resident: nat, refuseTable: bool, refuseChunk: bool)
    requires !buf.starved && !AheadOf(buf.chunks, limit, len) && len <= RoomOf(buf.chunks, limit)
    ensures len <= limit && len <= RoomOf(buf.chunks, limit) <= len + 1 && RoomOf(buf.chunks, limit) <= limit
    ensures len < RoomOf(buf.chunks, limit) ==>
              GrownBuffers(buf, limit, len + 1, resident, refuseTable, refuseChunk).chunks == buf.chunks
  {
  }

  /** The `k`-th state of a path. */
  function StateAt(k: nat): State {
    State(k, [])
  }

  /** A path of records, each the parent of the next. */
  ghost predicate IsChain(records: seq<Record>) {
    forall i | 0 <= i < |records| :: records[i].node.parent == if i == 0 then None else Some(i - 1)
  }

  lemma AppendChain(records: seq<Record>, found: Option<nat>, node: Node)
    requires IsChain(records) && (found.Some? ==> found.value < |records|)
    requires node.parent == if records == [] then None else Some(|records| - 1)
    ensures IsChain(Appended(records, found, node))
  {
  }

  lemma ChainPath(records: seq<Record>, id: nat)
    requires ParentsOlder(records) && IsChain(records) && id < |records|
    ensures |PathTo(records, id)| == id + 1
  {
    KeptPathPrefix(records, id);
  }

  lemma SmallArenaFits(boxes: nat)
    requires boxes <= MAX_BOXES
    ensures BytesFor(0, boxes, 2 * CHUNK) < U64_MAX && INITIAL_TABLE < FinalTable(2 * CHUNK + 1)
  {
    assert (2 * CHUNK + 1) * PerState(boxes) <= (2 * CHUNK + 1) * 84;
  }

  /** Inserts the path's next state. */
  method InsertNext(a: Arena, k: nat, refuseChunk: bool)
    requires a.Valid() && !a.starved && |a.records| == k <= a.nodeLimit && IsChain(a.records)
    requires INITIAL_TABLE <= a.table.Length && INITIAL_TABLE < FinalTable(a.nodeLimit + 1)
    modifies a, a.table
    ensures a.table == old(a.table) || fresh(a.table)
    ensures a.Valid() && |a.records| == k + 1 && IsChain(a.records) && a.nodeLimit == old(a.nodeLimit)
    ensures INITIAL_TABLE <= a.table.Length
    ensures a.chunks == old(a.chunks) +
              if k + 2 == Reserved(old(a.chunks)) <= a.nodeLimit && !refuseChunk then 1 else 0
    ensures a.starved <==> k + 2 == Reserved(old(a.chunks)) <= a.nodeLimit && refuseChunk
  {
    ghost var before := a.records;
    var index, found := a.Find(StateAt(k));
    var node := Node(StateAt(k), k, if k == 0 then None else Some(k - 1), 0, 0);
    var id := a.Insert(node, index, found, false, refuseChunk);
    AppendChain(before, found, node);
  }

  /** Fills the first chunk with one path while the second is refused, keeps that path, and
      inserts once more: the arena is neither starved nor full, and has no slot left for the
      next insert, so a clear that keeps a path does not always leave a starved arena fit to
      refill. */
  method StarvedRefill(hash: State -> nat, tag: nat -> nat, boxes: nat) returns (a: Arena)
    requires boxes <= MAX_BOXES
    ensures a.Core() && !a.starved && |a.records| <= a.nodeLimit && |a.records| == a.Room()
  {
    SmallArenaFits(boxes);
    a := new Arena(hash, tag, 0, boxes, 2 * CHUNK, 2 * CHUNK);
    for k := 0 to CHUNK - 1
      invariant fresh(a) && fresh(a.table) && a.Valid() && a.nodeLimit == 2 * CHUNK && a.chunks == 1
      invariant INITIAL_TABLE <= a.table.Length
      invariant |a.records| == k && IsChain(a.records) && (a.starved <==> k == CHUNK - 1)
    {
      InsertNext(a, k, k == CHUNK - 2);
    }
    RefillOnce(a);
  }

  /** Keeps the path that fills the chunk but for one record, then inserts once. */
  method RefillOnce(a: Arena)
    requires a.Valid() && |a.records| == CHUNK - 1 && IsChain(a.records) && a.chunks == 1 && a.nodeLimit == 2 * CHUNK
    requires a.starved
    requires INITIAL_TABLE <= a.table.Length
    modifies a, a.table
    ensures a.Core() && !a.starved && |a.records| <= a.nodeLimit && |a.records| == a.Room()
  {
    ChainPath(a.records, CHUNK - 2);
    var kept := a.ClearKeeping(CHUNK - 2);
    var index, found := a.Find(StateAt(CHUNK));
    var id := a.Insert(Node(StateAt(CHUNK), 0, None, 0, 0), index, found, false, false);
  }

  method ClearScratch(table: array<Slot>, len: nat)
    requires len <= table.Length && forall j | len <= j < table.Length :: table[j].Nil?
    modifies table
    ensures forall j | 0 <= j < table.Length :: table[j].Nil?
  {
    for k := 0 to len
      invariant forall j | 0 <= j < k || len <= j < table.Length :: table[j].Nil?
    {
      table[k] := Nil;
    }
  }

  lemma ClosedKeepsVersions(before: seq<Record>, after: seq<Record>, kept: nat)
    requires Versions(before, kept) && ParentsOlder(before) && |after| == |before|
    requires forall i | 0 <= i < |before| ::
               after[i].node == before[i].node && after[i].superseded == before[i].superseded
    ensures Versions(after, kept) && ParentsOlder(after)
  {
    SameStatesLater(before, after);
    forall i | 0 <= i < |after|
      ensures after[i].superseded <==> i < kept || Later(after, i)
    {
      assert Later(before, i) <==> Later(after, i);
    }
  }

  lemma ClosedKeepsIndex(hash: State -> nat, tag: nat -> nat, table: seq<Slot>, before: seq<Record>, after: seq<Record>)
    requires Indexed(hash, tag, table, before) && |after| == |before|
    requires forall i | 0 <= i < |before| ::
               after[i].node == before[i].node && after[i].superseded == before[i].superseded
    ensures Indexed(hash, tag, table, after)
  {
    assert Homes(hash, after, |table|) == Homes(hash, before, |table|);
  }

  lemma SameStatesLater(before: seq<Record>, after: seq<Record>)
    requires |before| == |after| && forall i | 0 <= i < |before| :: after[i].node.state == before[i].node.state
    ensures forall i | 0 <= i < |before| :: Later(before, i) <==> Later(after, i)
  {
    forall i | 0 <= i < |before|
      ensures Later(before, i) <==> Later(after, i)
    {
      if Later(before, i) {
        var j :| i < j < |before| && before[j].node.state == before[i].node.state;
        assert after[j].node.state == after[i].node.state;
      }
      if Later(after, i) {
        var j :| i < j < |after| && after[j].node.state == after[i].node.state;
        assert before[j].node.state == before[i].node.state;
      }
    }
  }

  lemma PathShorterThanRecords(records: seq<Record>, id: nat)
    requires ParentsOlder(records) && id < |records|
    ensures |PathTo(records, id)| <= |records|
  {
    PathClimbs(records, id);
    assert PathTo(records, id)[|PathTo(records, id)| - 1] == id;
  }

  /** The memory ceiling: what the arena holds, with the fixed buffers, never passes what it
      reserved, whatever its state. */
  lemma HeldWithinReserved(a: Arena)
    requires a.Sized() && a.Charged()
    ensures a.fixedBytes + a.HeldBytes() <= a.reservedBytes
  {
    assert a.Room() * PerState(a.boxes) <= (a.nodeLimit + 1) * PerState(a.boxes);
  }

  /** A final table never binds more than half its slots. */
  lemma FinalTableHalfEmpty(a: Arena)
    requires a.Sized() && a.table.Length == FinalTable(a.nodeLimit + 1)
    ensures a.resident * 2 <= a.table.Length
  {
    LiveFits(a.records);
  }

  lemma GapAfter(from: nat, k: nat, n: nat)
    requires from < n && k < n
    ensures Gap(from, After(from, k, n), n) == k
  {
  }
}
