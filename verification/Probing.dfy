/** Linear probing over a cyclic table, shared by the arena's index and the pocket search's
    seen table: what a probe may conclude when it meets an empty slot, and why emptying every
    record's run empties the table. */
module Probing {
  import opened Bfs

  /** A table slot: empty, or a record id with its state's tag. */
  datatype Slot = Nil | Bound(id: nat, tag: nat)

  function Next(s: nat, n: nat): nat {
    if s + 1 == n then 0 else s + 1
  }

  /** The slot `k` steps after `from`, cyclically. */
  function After(from: nat, k: nat, n: nat): nat
    requires from < n && k <= n
  {
    if from + k < n then from + k else from + k - n
  }

  /** The steps from `from` to `to`, cyclically. */
  function Gap(from: nat, to: nat, n: nat): nat
    requires from < n && to < n
  {
    if from <= to then to - from else to + n - from
  }

  /** The first `k` slots from `from` on are bound. */
  ghost predicate Filled(table: seq<Slot>, from: nat, k: nat)
    requires from < |table| && k <= |table|
  {
    forall j: nat {:trigger After(from, j, |table|)} | j < k :: table[After(from, j, |table|)].Bound?
  }

  /** Record `table[s].id`'s slots from its home to its own are bound. */
  ghost predicate Chained(table: seq<Slot>, homes: seq<nat>, s: nat)
    requires s < |table|
  {
    table[s].Bound? ==>
      && table[s].id < |homes| && homes[table[s].id] < |table|
      && Filled(table, homes[table[s].id], Gap(homes[table[s].id], s, |table|))
  }

  ghost predicate Chains(table: seq<Slot>, homes: seq<nat>) {
    forall s: nat {:trigger Chained(table, homes, s)} | s < |table| :: Chained(table, homes, s)
  }

  ghost predicate Distinct(table: seq<Slot>) {
    forall s: nat, t: nat | s < t < |table| && table[s].Bound? && table[t].Bound? :: table[s].id != table[t].id
  }

  lemma AfterGap(from: nat, to: nat, n: nat)
    requires from < n && to < n
    ensures Gap(from, to, n) < n && After(from, Gap(from, to, n), n) == to
  {
  }

  lemma NextAfter(from: nat, k: nat, n: nat)
    requires from < n && k < n
    ensures Next(After(from, k, n), n) == After(from, k + 1, n)
  {
  }

  /** A record bound anywhere lies before the first empty slot from its home. */
  lemma BoundBeforeNil(table: seq<Slot>, homes: seq<nat>, from: nat, k: nat, s: nat)
    requires Chains(table, homes) && from < |table| && k < |table| && s < |table|
    requires table[After(from, k, |table|)].Nil?
    requires table[s].Bound? && table[s].id < |homes| && homes[table[s].id] == from
    ensures Gap(from, s, |table|) < k
  {
    assert Chained(table, homes, s);
    AfterGap(from, s, |table|);
    assert k != Gap(from, s, |table|);
  }

  /** Binding the empty slot a probe stopped at keeps every chain. */
  lemma BindKeepsChains(table: seq<Slot>, homes: seq<nat>, from: nat, k: nat, slot: Slot)
    requires Chains(table, homes) && from < |table| && k < |table| && Filled(table, from, k)
    requires slot.Bound? && slot.id < |homes| && homes[slot.id] == from
    ensures Chains(table[After(from, k, |table|) := slot], homes)
  {
    var n := |table|;
    var z := After(from, k, n);
    var bound := table[z := slot];
    assert Gap(from, z, n) == k;
    forall s: nat | s < n
      ensures Chained(bound, homes, s)
    {
      assert Chained(table, homes, s);
    }
  }

  /** One more home changes no chain. */
  lemma MoreHomes(table: seq<Slot>, homes: seq<nat>, home: nat)
    requires Chains(table, homes)
    ensures Chains(table, homes + [home])
  {
    forall s: nat | s < |table|
      ensures Chained(table, homes + [home], s)
    {
      assert Chained(table, homes, s);
    }
  }

  /** Distinct ids below `m < |table|` leave a slot empty. */
  lemma NilExists(table: seq<Slot>, m: nat)
    requires Distinct(table) && m < |table|
    requires forall s: nat | s < |table| && table[s].Bound? :: table[s].id < m
    ensures exists z: nat :: z < |table| && table[z].Nil?
  {
    if forall z: nat | z < |table| :: table[z].Bound? {
      var ids := seq(|table|, s requires 0 <= s < |table| && table[s].Bound? => table[s].id);
      DistinctCellsFit(ids, m);
    }
  }

  /** A probe that has met only bound slots is short of the empty slot `z`. */
  lemma ProbeShortOfNil(table: seq<Slot>, from: nat, k: nat, z: nat)
    requires from < |table| && k <= |table| && z < |table| && table[z].Nil? && Filled(table, from, k)
    ensures k <= Gap(from, z, |table|) < |table|
  {
    AfterGap(from, z, |table|);
    assert After(from, Gap(from, z, |table|), |table|) == z;
  }

  // ---------------------------------------------------------------- emptying runs

  /** `table` is `full` with some slots emptied; past an emptied slot nothing of its cluster
      is left. */
  ghost predicate SuffixesGone(full: seq<Slot>, table: seq<Slot>) {
    && |table| == |full|
    && (forall s: nat | s < |table| :: table[s] == full[s] || table[s].Nil?)
    && (forall s: nat {:trigger Next(s, |table|)} |
      s < |table| && full[s].Bound? && table[s].Nil? && Next(s, |table|) < |table| && full[Next(s, |table|)].Bound? ::
          table[Next(s, |table|)].Nil?)
  }

  /** Emptying from a slot up to an empty one keeps the suffixes gone. */
  lemma {:induction false} EmptiedAlong(full: seq<Slot>, table: seq<Slot>, from: nat, k: nat)
    requires SuffixesGone(full, table) && from < |table| && k <= |table|
    requires Filled(full, from, k) && table[from].Nil?
    ensures forall j: nat {:trigger After(from, j, |table|)} | j < k :: table[After(from, j, |table|)].Nil?
    decreases k
  {
    if k > 1 {
      EmptiedAlong(full, table, from, k - 1);
      var p := After(from, k - 2, |table|);
      NextAfter(from, k - 2, |table|);
      assert full[p].Bound? && full[After(from, k - 1, |table|)].Bound?;
      assert table[p].Nil?;
      assert Next(p, |table|) == After(from, k - 1, |table|);
    }
  }

  /** Once every bound record's home is empty, every slot is. */
  lemma AllHomesEmptyMeansEmpty(full: seq<Slot>, table: seq<Slot>, homes: seq<nat>, s: nat)
    requires SuffixesGone(full, table) && Chains(full, homes) && s < |table|
    requires forall t: nat | t < |full| && full[t].Bound? && full[t].id < |homes| && homes[full[t].id] < |table| ::
               table[homes[full[t].id]].Nil?
    ensures table[s].Nil?
  {
    if full[s].Bound? {
      assert Chained(full, homes, s);
      var from := homes[full[s].id];
      var k := Gap(from, s, |table|);
      AfterGap(from, s, |table|);
      assert Filled(full, from, k + 1);
      EmptiedAlong(full, table, from, k + 1);
      assert table[After(from, k, |table|)].Nil?;
    }
  }

  /** `cleared` is `table` with the first `k` slots from `from` on emptied. */
  ghost predicate ClearedRun(table: seq<Slot>, from: nat, k: nat, cleared: seq<Slot>)
    requires from < |table| && k <= |table|
  {
    |cleared| == |table| && forall s: nat | s < |table| ::
      cleared[s] == if Gap(from, s, |table|) < k then Nil else table[s]
  }

  /** Emptying one more slot of a run. */
  lemma ClearOneMore(table: seq<Slot>, from: nat, k: nat, cleared: seq<Slot>)
    requires from < |table| && k < |table| && ClearedRun(table, from, k, cleared)
    ensures ClearedRun(table, from, k + 1, cleared[After(from, k, |table|) := Nil])
  {
    forall s: nat | s < |table| && Gap(from, s, |table|) == k
      ensures s == After(from, k, |table|)
    {
      AfterGap(from, s, |table|);
    }
  }

  /** Emptying a run up to an empty slot, or all the way round, leaves no orphaned suffix. */
  lemma RunKeepsSuffixes(full: seq<Slot>, table: seq<Slot>, from: nat, k: nat, cleared: seq<Slot>)
    requires SuffixesGone(full, table) && from < |table| && k <= |table|
    requires k < |table| ==> table[After(from, k, |table|)].Nil?
    requires ClearedRun(table, from, k, cleared)
    ensures SuffixesGone(full, cleared) && cleared[from].Nil?
  {
    var n := |table|;
    forall s: nat | s < n && full[s].Bound? && cleared[s].Nil? && full[Next(s, n)].Bound?
      ensures cleared[Next(s, n)].Nil?
    {
      if table[s].Nil? {
        assert table[Next(s, n)].Nil?;
      } else {
        var g := Gap(from, s, n);
        AfterGap(from, s, n);
        NextAfter(from, g, n);
        assert Next(s, n) == After(from, g + 1, n);
      }
    }
  }
}
