/**
  Locks counted from the outside: every successful lookup hands out one lock, every release gives one
  back. Over every run these counts alone say which lookups succeed and which entries cannot go.
 */
module CacheLedger {
  import opened CacheModel

  /** What is outstanding on an entry. */
  datatype Locks = Locks(shared: int, exclusive: int, demoting: bool)

  const NO_LOCKS := Locks(0, 0, false)

  /** A lookup that hands out an entry is counted by the clock. */
  predicate Succeeds(s: State, op: Op)
    requires Inv(s) && Enabled(s, op)
  {
    Step(s, op).clock == s.clock + 1
  }

  function Acquired(l: Locks, write: bool): Locks {
    if write then Locks(l.shared, l.exclusive + 1, l.demoting) else Locks(l.shared + 1, l.exclusive, l.demoting)
  }

  /** One operation in the books of entry id. A new entry is write-locked if the cache allocates. */
  function Booked(s: State, op: Op, id: Id, l: Locks): Locks
    requires Inv(s) && Enabled(s, op)
  {
    match op
    case Get(key, write, slot, _) =>
      if !Succeeds(s, op) then l
      else if key in s.table then (if s.table[key] == id then Acquired(l, write) else l)
      else if slot == id then Acquired(l, write || s.allocates) else l
    case TestGet(key, write) =>
      if Succeeds(s, op) && key in s.table && s.table[key] == id then Acquired(l, write) else l
    case Release(i) =>
      if i != id then l
      else if l.exclusive > 0 then Locks(l.shared, l.exclusive - 1, l.demoting) else Locks(l.shared - 1, l.exclusive, l.demoting)
    case BeginDemote(i) => if i == id then Locks(l.shared, l.exclusive, true) else l
    case EndDemote(i) => if i == id then Locks(l.shared, l.exclusive, false) else l
    case _ => l
  }

  /** The books of entry id after a run. */
  function Ledger(s: State, ops: seq<Op>, id: Id, l: Locks): Locks
    requires Inv(s) && IsRun(s, ops)
    decreases |ops|
  {
    if ops == [] then l
    else
      StepKeepsInv(s, ops[0]);
      Ledger(Step(s, ops[0]), ops[1..], id, Booked(s, ops[0], id, l))
  }

  /** The entry's own fields agree with the books; an entry that is not in the cache has nothing outstanding. */
  ghost predicate Agrees(s: State, id: Id, l: Locks) {
    if id in s.entries then
      var e := s.entries[id];
      e.readers == l.shared && (if e.writer then 1 else 0) == l.exclusive && e.demoting == l.demoting
    else l == NO_LOCKS
  }

  // ---------------------------------------------------------------- the books are right

  lemma PinnedIs(e: Entry)
    ensures e.Pinned() <==> e.readers > 0 || e.writer || e.demoting
  {}

  /** Collection changes no entry it keeps, and what it drops had nothing outstanding. */
  lemma {:induction false} GcFrame(s: State, todo: seq<Id>, limit: real)
    requires Inv(s) && NoDup(todo) && forall id :: id in todo ==> id in s.entries
    ensures var t := GcFrom(s, todo, limit);
            && t.clock == s.clock && t.allocates == s.allocates
            && (forall id :: id in t.entries ==> id in s.entries && t.entries[id] == s.entries[id])
            && (forall id :: id in s.entries && id !in t.entries ==> !s.entries[id].Pinned())
    decreases |todo|
  {
    if todo != [] && s.cost as real >= limit {
      NoDupTail(todo);
      if s.entries[todo[0]].Pinned() {
        GcFrame(s, todo[1..], limit);
      } else {
        EvictKeeps(s, todo[0]);
        GcFrame(Evict(s, todo[0]), todo[1..], limit);
      }
    }
  }

  lemma CollectedAgrees(s: State, ratio: real, id: Id, l: Locks)
    requires Inv(s) && Agrees(s, id, l)
    ensures Agrees(Collected(s, ratio), id, l)
    ensures Collected(s, ratio).clock == s.clock && Collected(s, ratio).allocates == s.allocates
    ensures Collected(s, ratio).entries.Keys <= s.entries.Keys
  {
    GcFrame(s, s.lru, Limit(s.quota, ratio));
    if id in s.entries && id !in Collected(s, ratio).entries { PinnedIs(s.entries[id]); }
  }

  lemma TouchAgrees(s: State, t: Id, write: bool, id: Id, l: Locks)
    requires t in s.entries && s.entries[t].CanLock(write) && Agrees(s, id, l)
    ensures Agrees(Touch(s, t, write), id, if t == id then Acquired(l, write) else l)
  {}

  lemma InsertAgrees(s: State, key: Key, write: bool, slot: Id, cost: nat, id: Id, l: Locks)
    requires slot !in s.entries && Agrees(s, id, l)
    ensures Agrees(Insert(s, key, write, slot, cost), id, if slot == id then Acquired(l, write || s.allocates) else l)
  {}

  lemma GetAgrees(s: State, key: Key, write: bool, slot: Id, cost: nat, id: Id, l: Locks)
    requires Inv(s) && slot !in s.entries && Agrees(s, id, l)
    ensures var op := Get(key, write, slot, cost); Agrees(Step(s, op), id, Booked(s, op, id, l))
  {
    if key in s.table {
      if s.entries[s.table[key]].CanLock(write) { TouchAgrees(s, s.table[key], write, id, l); }
    } else if s.cost as real > Limit(s.quota, FILL_RATIO) {
      CollectedAgrees(s, FILL_RATIO, id, l);
      InsertAgrees(Collected(s, FILL_RATIO), key, write, slot, cost, id, l);
    } else {
      InsertAgrees(s, key, write, slot, cost, id, l);
    }
  }

  lemma TestAgrees(s: State, key: Key, write: bool, id: Id, l: Locks)
    requires Inv(s) && Agrees(s, id, l)
    ensures var op := TestGet(key, write); Agrees(Step(s, op), id, Booked(s, op, id, l))
  {
    if key in s.table && s.entries[s.table[key]].CanLock(write) { TouchAgrees(s, s.table[key], write, id, l); }
  }

  lemma RemoveAgrees(s: State, key: Key, id: Id, l: Locks)
    requires Inv(s) && Agrees(s, id, l)
    ensures Agrees(Step(s, Remove(key)), id, l)
  {
    if key in s.table { PinnedIs(s.entries[s.table[key]]); }
  }

  lemma ReleaseAgrees(s: State, i: Id, id: Id, l: Locks)
    requires Inv(s) && Enabled(s, Release(i)) && Agrees(s, id, l)
    ensures Agrees(Step(s, Release(i)), id, Booked(s, Release(i), id, l))
  {}

  lemma StepAgrees(s: State, op: Op, id: Id, l: Locks)
    requires Inv(s) && Enabled(s, op) && Agrees(s, id, l)
    ensures Agrees(Step(s, op), id, Booked(s, op, id, l))
  {
    match op
    case Get(key, write, slot, cost) => GetAgrees(s, key, write, slot, cost, id, l);
    case TestGet(key, write) => TestAgrees(s, key, write, id, l);
    case Remove(key) => RemoveAgrees(s, key, id, l);
    case Gc(ratio) => CollectedAgrees(s, ratio, id, l);
    case Release(i) => ReleaseAgrees(s, i, id, l);
    case BeginDemote(_) =>
    case EndDemote(_) =>
  }

  lemma {:induction false} RunAgrees(s: State, ops: seq<Op>, id: Id, l: Locks)
    requires Inv(s) && IsRun(s, ops) && Agrees(s, id, l)
    ensures Inv(After(s, ops)) && Agrees(After(s, ops), id, Ledger(s, ops, id, l))
    decreases |ops|
  {
    if ops != [] {
      StepKeepsInv(s, ops[0]);
      StepAgrees(s, ops[0], id, l);
      RunAgrees(Step(s, ops[0]), ops[1..], id, Booked(s, ops[0], id, l));
    }
  }

  // ---------------------------------------------------------------- what the counts say

  /** A run of a new cache and the books of one entry. */
  ghost predicate Reached(s: State, id: Id, l: Locks) {
    exists quota: nat, allocates: bool, ops: seq<Op> ::
      Inv(Empty(quota, allocates)) && IsRun(Empty(quota, allocates), ops)
      && s == After(Empty(quota, allocates), ops) && l == Ledger(Empty(quota, allocates), ops, id, NO_LOCKS)
  }

  lemma ReachedAgrees(s: State, id: Id, l: Locks)
    requires Reached(s, id, l)
    ensures Inv(s) && Agrees(s, id, l)
  {
    var quota: nat, allocates: bool, ops: seq<Op> :|
      Inv(Empty(quota, allocates)) && IsRun(Empty(quota, allocates), ops)
      && s == After(Empty(quota, allocates), ops) && l == Ledger(Empty(quota, allocates), ops, id, NO_LOCKS);
    RunAgrees(Empty(quota, allocates), ops, id, NO_LOCKS);
  }

  /** In every run: one writer excludes all others, and an entry stays under its key while anything is outstanding. */
  lemma OutstandingStays(s: State, id: Id, l: Locks)
    requires Reached(s, id, l)
    ensures l.shared >= 0 && 0 <= l.exclusive <= 1 && (l.exclusive == 1 ==> l.shared == 0)
    ensures l.shared > 0 || l.exclusive > 0 || l.demoting ==>
              id in s.entries && s.entries[id].key in s.table && s.table[s.entries[id].key] == id
  {
    ReachedAgrees(s, id, l);
  }

  /** Which lookups succeed: reading if no write lock is outstanding, writing if no lock is. */
  lemma LookupsSucceed(s: State, key: Key, id: Id, l: Locks, slot: Id, cost: nat)
    requires Inv(s) && Reached(s, id, l) && key in s.table && s.table[key] == id && slot !in s.entries
    ensures Succeeds(s, TestGet(key, false)) <==> l.exclusive == 0
    ensures Succeeds(s, TestGet(key, true)) <==> l.exclusive == 0 && l.shared == 0
    ensures Succeeds(s, Get(key, false, slot, cost)) <==> l.exclusive == 0
    ensures Succeeds(s, Get(key, true, slot, cost)) <==> l.exclusive == 0 && l.shared == 0
  {
    ReachedAgrees(s, id, l);
  }

  /** An entry is removed exactly if nothing is outstanding. */
  lemma RemovalSucceeds(s: State, key: Key, id: Id, l: Locks)
    requires Inv(s) && Reached(s, id, l) && key in s.table && s.table[key] == id
    ensures key !in Step(s, Remove(key)).table <==> l.shared == 0 && l.exclusive == 0 && !l.demoting
  {
    ReachedAgrees(s, id, l);
    PinnedIs(s.entries[id]);
  }

  /** What a collection drops had nothing outstanding. */
  lemma CollectionSpares(s: State, ratio: real, id: Id, l: Locks)
    requires Inv(s) && Reached(s, id, l) && id in s.entries && id !in Collected(s, ratio).entries
    ensures l.shared == 0 && l.exclusive == 0 && !l.demoting
  {
    ReachedAgrees(s, id, l);
    GcFrame(s, s.lru, Limit(s.quota, ratio));
    PinnedIs(s.entries[id]);
  }
}
