/** Packed storage (arena.rs): a queue key in one 64-bit integer, a record's parent, direction
    and flags in 32 bits, and what re-weighting and the g + h floor read back from keys. */
module Keys {
  import opened Rules
  import opened Frontiers

  // ---------------------------------------------------------------- the 64-bit key

  /** The fields side by side in one word: 20 bits of f, 16 of h, 28 of the id. `Saturated` is
      what makes larger values fit. */
  function Pack(f: bv20, h: bv16, id: bv28): bv64 {
    ((f as bv64) << 44) | ((h as bv64) << 28) | (id as bv64)
  }

  function FOf(key: bv64): bv64 {
    key >> 44
  }

  function HOf(key: bv64): bv64 {
    (key >> 28) & 0xFFFF
  }

  function IdOf(key: bv64): bv64 {
    key & 0xFFF_FFFF
  }

  /** A key reads back what it was built from. */
  lemma Unpack(f: bv20, h: bv16, id: bv28)
    ensures FOf(Pack(f, h, id)) == f as bv64 && HOf(Pack(f, h, id)) == h as bv64 && IdOf(Pack(f, h, id)) == id as bv64
  {
  }

  /** Words built of smaller fields compare smaller, f before h before the id: of two words that
      differ, one of the three lemmas says which is smaller. */
  lemma LowestF(f: bv20, h: bv16, id: bv28, f': bv20, h': bv16, id': bv28)
    requires f < f'
    ensures Pack(f, h, id) < Pack(f', h', id')
  {
  }

  lemma ThenLowestH(f: bv20, h: bv16, id: bv28, h': bv16, id': bv28)
    requires h < h'
    ensures Pack(f, h, id) < Pack(f, h', id')
  {
  }

  lemma ThenOldest(f: bv20, h: bv16, id: bv28, id': bv28)
    requires id < id'
    ensures Pack(f, h, id) < Pack(f, h, id')
  {
  }

  /** A queue entry as it is built: f and h no larger than their fields hold. */
  function Saturated(f: nat, h: nat, id: nat): Key {
    Key(Min(f, F_SAT), Min(h, MAX_QUEUED_H), id)
  }

  /** Every field within its width. */
  predicate InFields(k: Key) {
    k.f <= F_SAT && k.h <= MAX_QUEUED_H && k.id < 0x1000_0000
  }

  /** The integer a key is kept as. */
  function Packed(k: Key): nat {
    k.f * 0x1000_0000_0000 + k.h * 0x1000_0000 + k.id
  }

  /** Comparing packed keys is the queue's own order, and packing loses nothing. */
  lemma PackedOrder(x: Key, y: Key)
    requires InFields(x) && InFields(y)
    ensures Packed(x) < Packed(y) <==> Precedes(x, y)
    ensures Packed(x) == Packed(y) <==> x == y
    ensures Packed(x) < 0x1_0000_0000_0000_0000
  {
  }

  /** A key built from any f and h reads back the id, and each of the two exactly unless it is
      past its field, which then reads full. */
  lemma SaturatedReadsBack(f: nat, h: nat, id: nat)
    requires id < 0x1000_0000
    ensures var p := Packed(Saturated(f, h, id));
            p / 0x1000_0000_0000 == Min(f, F_SAT) && p / 0x1000_0000 % 0x1_0000 == Min(h, MAX_QUEUED_H) &&
              p % 0x1000_0000 == id
  {
  }

  /** Entries queued at any costs and weights are ordered by their packed keys as the queue
      orders them. */
  lemma QueuedOrder(g: nat, h: nat, weight: nat, id: nat, g': nat, h': nat, weight': nat, id': nat)
    requires id < 0x1000_0000 && id' < 0x1000_0000
    ensures var x, y := WeightedKey(g, h, weight, id), WeightedKey(g', h', weight', id');
            Packed(x) < Packed(y) <==> Precedes(x, y)
  {
    PackedOrder(WeightedKey(g, h, weight, id), WeightedKey(g', h', weight', id'));
  }

  /** The exact search queues at weight 1. */
  lemma UnitWeight(g: nat, h: nat, id: nat)
    ensures WeightedKey(g, h, 1, id) == KeyFor(g, h, id) && InFields(KeyFor(g, h, id)) == (id < 0x1000_0000)
  {
  }

  // ---------------------------------------------------------------- the 32-bit link

  const ID_MASK: bv32 := 0xFFF_FFFF
  const NIL: bv32 := 0xFFFF_FFFF
  const CLOSED: bv32 := 0x4000_0000
  const SUPERSEDED: bv32 := 0x8000_0000

  /** A fresh, open record's link: the parent, or all ones at the root, and the direction. */
  function NewLink(parent: bv32, direction: bv32): bv32 {
    (if parent == NIL then ID_MASK else parent) | (direction << 28)
  }

  function ParentOf(link: bv32): bv32 {
    if link & ID_MASK == ID_MASK then NIL else link & ID_MASK
  }

  function DirectionOf(link: bv32): bv32 {
    (link >> 28) & 3
  }

  predicate Has(link: bv32, flag: bv32) {
    link & flag != 0
  }

  /** A link reads back its parent and direction, with no flag raised. */
  lemma LinkReadsBack(parent: bv32, direction: bv32)
    requires (parent == NIL || parent < ID_MASK) && direction < 4
    ensures var link := NewLink(parent, direction);
            ParentOf(link) == parent && DirectionOf(link) == direction && !Has(link, CLOSED) && !Has(link, SUPERSEDED)
  {
  }

  /** Raising a flag raises that flag alone. */
  lemma RaisingAFlag(link: bv32, flag: bv32, other: bv32)
    requires (flag == CLOSED && other == SUPERSEDED) || (flag == SUPERSEDED && other == CLOSED)
    ensures Has(link | flag, flag) && (Has(link | flag, other) <==> Has(link, other))
    ensures ParentOf(link | flag) == ParentOf(link) && DirectionOf(link | flag) == DirectionOf(link)
  {
    if flag == CLOSED { RaisingClosed(link); } else { RaisingSuperseded(link); }
  }

  lemma RaisingClosed(link: bv32)
    ensures (link | 0x4000_0000) & 0x4000_0000 != 0 && (link | 0x4000_0000) & 0x8000_0000 == link & 0x8000_0000
    ensures (link | 0x4000_0000) & 0xFFF_FFFF == link & 0xFFF_FFFF
    ensures ((link | 0x4000_0000) >> 28) & 3 == (link >> 28) & 3
  {
  }

  lemma RaisingSuperseded(link: bv32)
    ensures (link | 0x8000_0000) & 0x8000_0000 != 0 && (link | 0x8000_0000) & 0x4000_0000 == link & 0x4000_0000
    ensures (link | 0x8000_0000) & 0xFFF_FFFF == link & 0xFFF_FFFF
    ensures ((link | 0x8000_0000) >> 28) & 3 == (link >> 28) & 3
  {
  }

  // ---------------------------------------------------------------- weights

  /** The key of a node at cost `g` queued with `h` at a weight. */
  function WeightedKey(g: nat, h: nat, weight: nat, id: nat): Key {
    Key(Min(g + weight * Min(h, MAX_QUEUED_H), F_SAT), Min(h, MAX_QUEUED_H), id)
  }

  /** Every key is its record's at `weight`: record `id` costs `costs[id]`, and some h was
      queued. */
  ghost predicate QueuedAt(costs: seq<nat>, keys: seq<Key>, weight: nat) {
    forall i | 0 <= i < |keys| ::
      keys[i].id < |costs| && keys[i].h <= MAX_QUEUED_H &&
        keys[i] == WeightedKey(costs[keys[i].id], keys[i].h, weight, keys[i].id)
  }

  /** Every entry as it would be queued at another weight, its cost read from its record. */
  function Rekeyed(costs: seq<nat>, keys: seq<Key>, to: nat): seq<Key>
    requires forall i | 0 <= i < |keys| :: keys[i].id < |costs|
  {
    seq(|keys|, i requires 0 <= i < |keys| => WeightedKey(costs[keys[i].id], keys[i].h, to, keys[i].id))
  }

  /** Re-keys every entry in place for another weight, its cost read from its record, so a
      saturated key re-keys exactly too: each is as if queued at the new weight. */
  method Reweight(costs: seq<nat>, keys: array<Key>, ghost from: nat, to: nat)
    requires QueuedAt(costs, keys[..], from)
    modifies keys
    ensures QueuedAt(costs, keys[..], to) && keys[..] == Rekeyed(costs, old(keys[..]), to)
    ensures forall i | 0 <= i < keys.Length ::
              var was, f := old(keys[..])[i], costs[old(keys[..])[i].id] + to * old(keys[..])[i].h;
              keys[i] == Key(if f < 0xF_FFFF then f else 0xF_FFFF, was.h, was.id)
  {
    ghost var was := keys[..];
    for i := 0 to keys.Length
      invariant forall k | i <= k < keys.Length :: keys[k] == was[k]
      invariant forall k | 0 <= k < i :: keys[k] == WeightedKey(costs[was[k].id], was[k].h, to, was[k].id)
    {
      assert was[i] == WeightedKey(costs[was[i].id], was[i].h, from, was[i].id);
      var key := keys[i];
      keys[i] := WeightedKey(costs[key.id], key.h, to, key.id);
    }
    forall i | 0 <= i < keys.Length ensures keys[i].h == was[i].h && keys[i].id == was[i].id {
      assert was[i].h <= MAX_QUEUED_H;
    }
  }

  /** The g + h an entry's key gives back at a weight. */
  function FloorOf(key: Key, weight: nat): nat
    requires weight >= 1
  {
    if key.f >= (weight - 1) * key.h then key.f - (weight - 1) * key.h else 0
  }

  /** Never more than the entry's true g + h, and exactly that below saturation. */
  lemma FloorIsSound(g: nat, h: nat, weight: nat, id: nat)
    requires weight >= 1 && h <= MAX_QUEUED_H
    ensures var key := WeightedKey(g, h, weight, id);
            FloorOf(key, weight) <= g + h && (key.f < F_SAT ==> FloorOf(key, weight) == g + h)
  {
    assert weight * h == (weight - 1) * h + h;
  }

  /** The least floor is a lower bound always, and exact when no key is saturated. */
  ghost predicate LeastFloor(costs: seq<nat>, keys: seq<Key>, r: Option<nat>)
    requires forall i | 0 <= i < |keys| :: keys[i].id < |costs|
  {
    && (r.None? <==> keys == [])
    && (r.Some? ==> forall i | 0 <= i < |keys| :: r.value <= costs[keys[i].id] + keys[i].h)
    && (r.Some? && (forall i | 0 <= i < |keys| :: keys[i].f < F_SAT) ==>
      exists i :: 0 <= i < |keys| && r.value == costs[keys[i].id] + keys[i].h)
  }

  lemma LeastFloorNext(costs: seq<nat>, keys: seq<Key>, r: Option<nat>, weight: nat, k: nat)
    requires weight >= 1 && QueuedAt(costs, keys, weight) && k < |keys| && LeastFloor(costs, keys[..k], r)
    ensures var floor := FloorOf(keys[k], weight);
            LeastFloor(costs, keys[..k + 1], if r.None? || floor < r.value then Some(floor) else r)
  {
    var key, head, next := keys[k], keys[..k], keys[..k + 1];
    FloorIsSound(costs[key.id], key.h, weight, key.id);
    assert next == head + [key];
    if (forall i | 0 <= i < |next| :: next[i].f < F_SAT) && r.Some? {
      forall i | 0 <= i < |head| ensures head[i].f < F_SAT {
        assert next[i].f < F_SAT;
      }
      var i :| 0 <= i < |head| && r.value == costs[head[i].id] + head[i].h;
      assert next[i] == head[i] && next[k] == key;
    } else {
      assert next[k] == key;
    }
  }

  /** `r` is the least that an entry's f leaves, or none of it, without what the weight adds. */
  ghost predicate IsLeastFloor(keys: seq<Key>, weight: nat, r: nat)
    requires weight >= 1
  {
    && (forall i | 0 <= i < |keys| :: r == 0 || r + (weight - 1) * keys[i].h <= keys[i].f)
    && (exists i :: 0 <= i < |keys| && keys[i].f <= r + (weight - 1) * keys[i].h)
  }

  lemma LeastNext(keys: seq<Key>, key: Key, weight: nat, before: Option<nat>, r: nat)
    requires weight >= 1 && (before.None? <==> keys == [])
    requires before.Some? ==> IsLeastFloor(keys, weight, before.value)
    requires var floor := FloorOf(key, weight);
             r == if before.None? || floor < before.value then floor else before.value
    ensures IsLeastFloor(keys + [key], weight, r)
  {
    var all := keys + [key];
    assert all[|keys|] == key;
    if before.Some? && r == before.value {
      var i :| 0 <= i < |keys| && keys[i].f <= r + (weight - 1) * keys[i].h;
      assert all[i] == keys[i];
    }
  }

  /** The least g + h over the queue: a lower bound always, and exact when no key is
      saturated. */
  method MinGh(costs: seq<nat>, keys: array<Key>, weight: nat) returns (r: Option<nat>)
    requires weight >= 1 && QueuedAt(costs, keys[..], weight)
    ensures LeastFloor(costs, keys[..], r)
    ensures r.Some? ==> IsLeastFloor(keys[..], weight, r.value)
  {
    r := None;
    for k := 0 to keys.Length
      invariant LeastFloor(costs, keys[..k], r) && (r.Some? ==> IsLeastFloor(keys[..k], weight, r.value))
    {
      LeastFloorNext(costs, keys[..], r, weight, k);
      assert keys[..][..k] == keys[..k] && keys[..][..k + 1] == keys[..k + 1];
      var floor := FloorOf(keys[k], weight);
      ghost var before := r;
      if r.None? || floor < r.value { r := Some(floor); }
      LeastNext(keys[..k], keys[k], weight, before, r.value);
    }
    assert keys[..keys.Length] == keys[..];
  }
}
