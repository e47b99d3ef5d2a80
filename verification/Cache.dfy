/** dt_cache_t as an object: its methods carry out exactly the atomic steps of `CacheModel`. */
module Cache {
  import opened CacheModel
  import opened Options

  /** dt_cache_remove: FALSE when removed, TRUE when not found, and the retry that waits for a lock. */
  datatype Removal = Removed | NotFound | Retry

  /** Entry id has one lock more, and nothing else about any entry has changed. */
  ghost predicate LockTaken(before: map<Id, Entry>, after: map<Id, Entry>, id: Id, write: bool) {
    && id in before && after.Keys == before.Keys && (forall i :: i in before && i != id ==> after[i] == before[i])
    && var e, e' := before[id], after[id];
       e' == Entry(e.key, e.cost, if write then e.readers else e.readers + 1, if write then true else e.writer, e.demoting)
  }

  /** Entry id has lost its write lock, or else one reader, and nothing else about any entry has changed. */
  ghost predicate LockGiven(before: map<Id, Entry>, after: map<Id, Entry>, id: Id) {
    && id in before && after.Keys == before.Keys && (forall i :: i in before && i != id ==> after[i] == before[i])
    && var e, e' := before[id], after[id];
       e'.key == e.key && e'.cost == e.cost && e'.demoting == e.demoting && !e'.writer
       && e'.readers == if e.writer then e.readers else e.readers - 1
  }

  lemma TouchTakes(s: State, id: Id, write: bool)
    requires id in s.entries && s.entries[id].CanLock(write)
    ensures LockTaken(s.entries, Touch(s, id, write).entries, id, write)
  {}

  class Cache {
    var table: map<Key, Id>
    var lru: seq<Id>
    var entries: map<Id, Entry>
    var cost: int
    var quota: nat
    var allocates: bool
    ghost var clock: nat
    ghost var used: map<Id, nat>

    ghost function Model(): State
      reads this
    {
      State(table, lru, entries, cost, quota, allocates, clock, used)
    }

    ghost predicate Valid()
      reads this
    {
      Inv(Model())
    }

    constructor (quota: nat, allocates: bool)
      ensures Model() == Empty(quota, allocates) && Valid()
    {
      table, lru, entries, cost := map[], [], map[], 0;
      this.quota, this.allocates := quota, allocates;
      clock, used := 0, map[];
    }

    /** g_list_remove_link followed by g_list_concat, with the lock just taken. */
    method BubbleUp(id: Id, write: bool)
      requires id in entries && entries[id].CanLock(write)
      modifies this
      ensures Model() == Touch(old(Model()), id, write) && LockTaken(old(entries), entries, id, write)
    {
      TouchTakes(Model(), id, write);
      ghost var goal := Touch(Model(), id, write);
      var rest := Unlink(lru, id);
      entries := entries[id := entries[id].Locked(write)];
      lru := rest + [id];
      used := used[id := clock];
      clock := clock + 1;
      assert Model() == goal;
    }

    /** dt_cache_testget. */
    method TestGet(key: Key, write: bool) returns (r: Option<Id>)
      requires Valid()
      modifies this
      ensures Valid() && Model() == Step(old(Model()), Op.TestGet(key, write))
      ensures r.Some? <==> key in old(table) && !old(entries[table[key]].writer) && (write ==> old(entries[table[key]].readers) == 0)
      ensures r.Some? ==> LockTaken(old(entries), entries, r.value, write)
      ensures r.Some? ==> r.value == table[key] && entries[r.value].Held() && entries[r.value].key == key
    {
      StepKeepsInv(Model(), Op.TestGet(key, write));
      r := None;
      if key in table {
        var id := table[key];
        if entries[id].CanLock(write) {
          BubbleUp(id, write);
          r := Some(id);
        }
      }
    }

    /** One pass of dt_cache_get between taking and dropping the mutex; None means it must retry. */
    method TryGet(key: Key, write: bool, slot: Id, newCost: nat) returns (r: Option<Id>)
      requires Valid() && slot !in entries
      modifies this
      ensures Valid() && Model() == Step(old(Model()), Op.Get(key, write, slot, newCost))
      ensures r.None? <==> key in old(table) && (old(entries[table[key]].writer) || (write && old(entries[table[key]].readers) > 0))
      ensures r.Some? && key in old(table) ==> LockTaken(old(entries), entries, r.value, write)
      ensures r.Some? ==> key in table && r.value == table[key] && entries[r.value].Held()
      ensures r.Some? && (write || (key !in old(table) && allocates)) ==> entries[r.value].writer
    {
      ghost var s := Model();
      StepKeepsInv(s, Op.Get(key, write, slot, newCost));
      if key in table {
        var id := table[key];
        if !entries[id].CanLock(write) {
          return None;
        }
        BubbleUp(id, write);
        return Some(id);
      }
      if cost as real > Limit(quota, FILL_RATIO) {
        CollectedKeeps(s, FILL_RATIO);
        Collect(FILL_RATIO);
      }
      Allocate(key, write, slot, newCost);
      return Some(slot);
    }

    /** The second half of a miss: a new entry at the most recently used end. */
    method Allocate(key: Key, write: bool, slot: Id, newCost: nat)
      modifies this
      ensures Model() == Insert(old(Model()), key, write, slot, newCost)
    {
      ghost var goal := Insert(Model(), key, write, slot, newCost);
      var w := write || allocates;
      table := table[key := slot];
      entries := entries[slot := Entry(key, newCost, if w then 0 else 1, w, false)];
      cost := cost + newCost;
      lru := lru + [slot];
      used := used[slot := clock];
      clock := clock + 1;
      assert Model() == goal;
    }

    /** One pass of dt_cache_remove. */
    method TryRemove(key: Key) returns (r: Removal)
      requires Valid()
      modifies this
      ensures Valid() && Model() == Step(old(Model()), Op.Remove(key))
      ensures r == if key !in old(table) then NotFound else if old(entries[table[key]].Pinned()) then Retry else Removed
      ensures r != Retry ==> key !in table
    {
      StepKeepsInv(Model(), Op.Remove(key));
      if key !in table {
        return NotFound;
      }
      var id := table[key];
      if !entries[id].CanLock(true) || entries[id].demoting {
        return Retry;
      }
      Drop(id);
      return Removed;
    }

    /** Unlink an unpinned entry from table and list and free it. */
    method Drop(id: Id)
      requires id in entries
      modifies this
      ensures Model() == Evict(old(Model()), id)
    {
      table := table - {entries[id].key};
      lru := Unlink(lru, id);
      cost := cost - entries[id].cost;
      entries := entries - {id};
      used := used - {id};
    }

    /** dt_cache_gc: walk the list from the least recently used end. */
    method Collect(ratio: real)
      requires Valid()
      modifies this
      ensures Valid() && Model() == Collected(old(Model()), ratio)
    {
      ghost var goal := Collected(Model(), ratio);
      var l := lru;
      while l != []
        invariant Valid() && NoDup(l) && quota == old(quota)
        invariant forall id :: id in l ==> id in entries
        invariant GcFrom(Model(), l, Limit(quota, ratio)) == goal
        decreases |l|
      {
        var id := l[0];
        NoDupTail(l);
        if cost as real < Limit(quota, ratio) {
          break;
        }
        l := l[1..];
        if entries[id].CanLock(true) && !entries[id].demoting {
          EvictKeeps(Model(), id);
          Drop(id);
        }
      }
      CollectedKeeps(old(Model()), ratio);
    }

    /** dt_cache_release. */
    method Release(id: Id)
      requires Valid() && id in entries && entries[id].Held()
      modifies this
      ensures Valid() && Model() == Step(old(Model()), Op.Release(id))
      ensures LockGiven(old(entries), entries, id)
    {
      StepKeepsInv(Model(), Op.Release(id));
      entries := entries[id := entries[id].Unlocked()];
    }
  }

  /** g_list_remove_link. */
  method Unlink(l: seq<Id>, id: Id) returns (r: seq<Id>)
    ensures r == Without(l, id)
  {
    r := [];
    var i := |l|;
    while i > 0
      invariant 0 <= i <= |l| && r == Without(l[i..], id)
    {
      i := i - 1;
      assert l[i..][1..] == l[i + 1..];
      if l[i] != id {
        r := [l[i]] + r;
      }
    }
    assert l[0..] == l;
  }
}
