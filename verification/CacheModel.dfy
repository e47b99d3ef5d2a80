/**
  The concurrent LRU cache as a transition system. Every region that runs under the big mutex is one
  atomic step; releasing an entry's rwlock and the two halves of a write-to-read demotion are steps of
  the environment. Entries are addressed by identity, so a freed address may be handed out again.
 */
module CacheModel {

  type Key = nat
  type Id = nat

  /** dt_cache_entry_t with the state of its rwlock. */
  datatype Entry = Entry(key: Key, cost: nat, readers: nat, writer: bool, demoting: bool) {
    predicate Held() { readers > 0 || writer }

    /** What trywrlock or the demotion flag protects from removal. */
    predicate Pinned() { Held() || demoting }

    /** trywrlock and tryrdlock. */
    predicate CanLock(write: bool) { if write then !Held() else !writer }

    function Locked(write: bool): Entry
      requires CanLock(write)
    {
      if write then this.(writer := true) else this.(readers := readers + 1)
    }

    function Unlocked(): Entry
      requires Held()
    {
      if writer then this.(writer := false) else this.(readers := readers - 1)
    }
  }

  /**
    dt_cache_t. `clock` and `used` are history: the number of successful lookups so far, and for every
    entry the lookup that touched it last.
   */
  datatype State = State(
    table: map<Key, Id>, lru: seq<Id>, entries: map<Id, Entry>, cost: int, quota: nat, allocates: bool,
    clock: nat, used: map<Id, nat>)

  datatype Op =
    | Get(key: Key, write: bool, slot: Id, newCost: nat)
    | TestGet(key: Key, write: bool)
    | Remove(key: Key)
    | Gc(ratio: real)
    | Release(id: Id)
    | BeginDemote(id: Id)
    | EndDemote(id: Id)

  const FILL_RATIO := 0.8

  // ---------------------------------------------------------------- lists

  function Without(l: seq<Id>, id: Id): seq<Id> {
    if l == [] then [] else if l[0] == id then Without(l[1..], id) else [l[0]] + Without(l[1..], id)
  }

  function Elements(l: seq<Id>): set<Id> { set i | i in l }

  ghost predicate NoDup(l: seq<Id>) { forall i, j :: 0 <= i < j < |l| ==> l[i] != l[j] }

  function CostOf(entries: map<Id, Entry>, l: seq<Id>): nat {
    if l == [] then 0 else (if l[0] in entries then entries[l[0]].cost else 0) + CostOf(entries, l[1..])
  }

  /** Used in ascending order of last use. */
  ghost predicate Ascending(l: seq<Id>, used: map<Id, nat>) {
    forall i, j :: 0 <= i < j < |l| ==> Older(used, l[i], l[j])
  }

  predicate Older(used: map<Id, nat>, a: Id, b: Id) { a in used && b in used && used[a] < used[b] }

  // ---------------------------------------------------------------- the steps

  /** Lock an entry and move it to the most recently used end. */
  function Touch(s: State, id: Id, write: bool): State
    requires id in s.entries && s.entries[id].CanLock(write)
  {
    s.(entries := s.entries[id := s.entries[id].Locked(write)],
       lru := Without(s.lru, id) + [id],
       clock := s.clock + 1, used := s.used[id := s.clock])
  }

  /** Unlink and free an entry. */
  function Evict(s: State, id: Id): State
    requires id in s.entries
  {
    s.(table := s.table - {s.entries[id].key}, lru := Without(s.lru, id),
       entries := s.entries - {id}, cost := s.cost - s.entries[id].cost, used := s.used - {id})
  }

  /** The list walk of dt_cache_gc from `todo` on. */
  function GcFrom(s: State, todo: seq<Id>, limit: real): State
    requires forall id :: id in todo ==> id in s.entries
    requires NoDup(todo)
    decreases |todo|
  {
    if todo == [] || s.cost as real < limit then s
    else if s.entries[todo[0]].Pinned() then GcFrom(s, todo[1..], limit)
    else GcFrom(Evict(s, todo[0]), todo[1..], limit)
  }

  function Limit(quota: nat, ratio: real): real { quota as real * ratio }

  function Collected(s: State, ratio: real): State
    requires Inv(s)
  {
    GcFrom(s, s.lru, Limit(s.quota, ratio))
  }

  /** A new entry, locked for the caller and most recently used. */
  function Insert(s: State, key: Key, write: bool, id: Id, cost: nat): State {
    var w := write || s.allocates;
    s.(table := s.table[key := id], lru := s.lru + [id],
       entries := s.entries[id := Entry(key, cost, if w then 0 else 1, w, false)],
       cost := s.cost + cost, clock := s.clock + 1, used := s.used[id := s.clock])
  }

  /** When a step can happen at all. */
  predicate Enabled(s: State, op: Op) {
    match op
    case Get(_, _, slot, _) => slot !in s.entries
    case TestGet(_, _) => true
    case Remove(_) => true
    case Gc(_) => true
    case Release(id) => id in s.entries && s.entries[id].Held()
    case BeginDemote(id) => id in s.entries && s.entries[id].writer
    case EndDemote(id) => id in s.entries && s.entries[id].readers > 0
  }

  function Step(s: State, op: Op): State
    requires Inv(s) && Enabled(s, op)
  {
    match op
    case Get(key, write, slot, newCost) =>
      if key in s.table then
        (if s.entries[s.table[key]].CanLock(write) then Touch(s, s.table[key], write) else s)
      else
        var c := if s.cost as real > Limit(s.quota, FILL_RATIO) then Collected(s, FILL_RATIO) else s;
        Insert(c, key, write, slot, newCost)
    case TestGet(key, write) =>
      if key in s.table && s.entries[s.table[key]].CanLock(write) then Touch(s, s.table[key], write) else s
    case Remove(key) =>
      if key in s.table && !s.entries[s.table[key]].Pinned() then Evict(s, s.table[key]) else s
    case Gc(ratio) => Collected(s, ratio)
    case Release(id) => s.(entries := s.entries[id := s.entries[id].Unlocked()])
    case BeginDemote(id) => s.(entries := s.entries[id := s.entries[id].(demoting := true)])
    case EndDemote(id) => s.(entries := s.entries[id := s.entries[id].(demoting := false)])
  }

  // ---------------------------------------------------------------- the invariant

  ghost predicate TableMatches(s: State) {
    && (forall k :: k in s.table ==> s.table[k] in s.entries && s.entries[s.table[k]].key == k)
    && (forall id :: id in s.entries ==> s.entries[id].key in s.table && s.table[s.entries[id].key] == id)
  }

  ghost predicate ListMatches(s: State) {
    && NoDup(s.lru)
    && (forall id :: id in s.lru <==> id in s.entries)
  }

  ghost predicate LocksExclusive(s: State) {
    forall id :: id in s.entries && s.entries[id].writer ==> s.entries[id].readers == 0
  }

  ghost predicate InUseOrder(s: State) {
    && Ascending(s.lru, s.used)
    && (forall id :: id in s.entries ==> id in s.used && s.used[id] < s.clock)
  }

  ghost predicate Inv(s: State) {
    && TableMatches(s) && ListMatches(s)
    && s.cost == CostOf(s.entries, s.lru)
    && LocksExclusive(s) && InUseOrder(s)
  }

  /** dt_cache_init. */
  function Empty(quota: nat, allocates: bool): State {
    State(map[], [], map[], 0, quota, allocates, 0, map[])
  }

  // ---------------------------------------------------------------- list lemmas

  lemma NoDupTail(l: seq<Id>)
    requires l != [] && NoDup(l)
    ensures NoDup(l[1..]) && l[0] !in l[1..]
  {
    var r := l[1..];
    forall i, j | 0 <= i < j < |r| ensures r[i] != r[j] { assert l[i + 1] != l[j + 1]; }
    forall x | x in r ensures x != l[0] {
      var j :| 0 <= j < |r| && r[j] == x;
      assert l[j + 1] != l[0];
    }
  }

  lemma WithoutProperties(l: seq<Id>, id: Id, used: map<Id, nat>)
    ensures forall x :: x in Without(l, id) <==> x in l && x != id
    ensures |Without(l, id)| <= |l|
    ensures NoDup(l) ==> NoDup(Without(l, id))
    ensures Ascending(l, used) ==> Ascending(Without(l, id), used)
  {
    if l != [] {
      var r, w := l[1..], Without(l[1..], id);
      WithoutProperties(r, id, used);
      assert forall x :: x in l <==> x == l[0] || x in r;
      if NoDup(l) {
        NoDupTail(l);
      }
      if Ascending(l, used) {
        AscendingTail(l, used);
        if l[0] != id {
          AscendingCons(l[0], w, [l[0]] + w, used);
        }
      }
    }
  }

  lemma AscendingTail(l: seq<Id>, used: map<Id, nat>)
    requires l != [] && Ascending(l, used)
    ensures Ascending(l[1..], used)
    ensures forall x :: x in l[1..] ==> Older(used, l[0], x)
  {
    var r := l[1..];
    forall i, j | 0 <= i < j < |r| ensures Older(used, r[i], r[j]) {
      assert r[i] == l[i + 1] && r[j] == l[j + 1];
    }
    forall x | x in r ensures Older(used, l[0], x) {
      var j :| 0 <= j < |r| && r[j] == x;
      assert x == l[j + 1];
    }
  }

  lemma AscendingCons(h: Id, w: seq<Id>, l: seq<Id>, used: map<Id, nat>)
    requires Ascending(w, used) && l == [h] + w
    requires forall x :: x in w ==> Older(used, h, x)
    ensures Ascending(l, used)
  {
    forall i, j | 0 <= i < j < |l| ensures Older(used, l[i], l[j]) {
      assert l[j] == w[j - 1] && w[j - 1] in w;
      if i > 0 {
        assert l[i] == w[i - 1];
      }
    }
  }

  lemma CostAppend(entries: map<Id, Entry>, a: seq<Id>, b: seq<Id>)
    ensures CostOf(entries, a + b) == CostOf(entries, a) + CostOf(entries, b)
  {
    if a == [] {
      assert a + b == b;
    } else {
      assert (a + b)[1..] == a[1..] + b;
      CostAppend(entries, a[1..], b);
    }
  }

  /** Costs do not depend on locks or on entries outside the list. */
  lemma CostSame(e: map<Id, Entry>, e': map<Id, Entry>, l: seq<Id>)
    requires forall id :: id in l ==> (id in e <==> id in e') && (id in e ==> e[id].cost == e'[id].cost)
    ensures CostOf(e, l) == CostOf(e', l)
  {
    if l != [] {
      assert forall id :: id in l[1..] ==> id in l;
      CostSame(e, e', l[1..]);
    }
  }

  lemma CostWithout(entries: map<Id, Entry>, l: seq<Id>, id: Id)
    requires NoDup(l) && id in entries
    ensures CostOf(entries, l) == CostOf(entries, Without(l, id)) + if id in l then entries[id].cost else 0
  {
    if l != [] {
      var r := l[1..];
      NoDupTail(l);
      assert forall x :: x in l <==> x == l[0] || x in r;
      CostWithout(entries, r, id);
      if l[0] != id {
        assert ([l[0]] + Without(r, id))[1..] == Without(r, id);
      }
    }
  }

  lemma AppendFresh(l: seq<Id>, id: Id, used: map<Id, nat>, clock: nat)
    requires NoDup(l) && id !in l && Ascending(l, used)
    requires forall x :: x in l ==> x in used && used[x] < clock
    ensures NoDup(l + [id]) && Ascending(l + [id], used[id := clock])
  {
    var m, u := l + [id], used[id := clock];
    forall i, j | 0 <= i < j < |m| ensures m[i] != m[j] && Older(u, m[i], m[j]) {
      assert m[i] == l[i] && l[i] in l;
      if j < |l| { assert m[j] == l[j] && l[j] in l; }
    }
  }

  // ---------------------------------------------------------------- every step keeps the invariant

  lemma TouchCost(s: State, id: Id, write: bool)
    requires Inv(s) && id in s.entries && s.entries[id].CanLock(write)
    ensures Touch(s, id, write).cost == CostOf(Touch(s, id, write).entries, Touch(s, id, write).lru)
  {
    var e, w := Touch(s, id, write).entries, Without(s.lru, id);
    CostWithout(s.entries, s.lru, id);
    CostAppend(e, w, [id]);
    CostSame(s.entries, e, w);
    assert CostOf(e, [id]) == e[id].cost + CostOf(e, []);
  }

  lemma TouchOrder(s: State, id: Id, write: bool)
    requires Inv(s) && id in s.entries && s.entries[id].CanLock(write)
    ensures ListMatches(Touch(s, id, write)) && InUseOrder(Touch(s, id, write))
  {
    var t, w := Touch(s, id, write), Without(s.lru, id);
    WithoutProperties(s.lru, id, s.used);
    AppendFresh(w, id, s.used, s.clock);
    assert forall x :: x in t.lru <==> x in w || x == id;
  }

  lemma TouchKeeps(s: State, id: Id, write: bool)
    requires Inv(s) && id in s.entries && s.entries[id].CanLock(write)
    ensures Inv(Touch(s, id, write))
  {
    TouchCost(s, id, write);
    TouchOrder(s, id, write);
  }

  lemma EvictKeeps(s: State, id: Id)
    requires Inv(s) && id in s.entries
    ensures Inv(Evict(s, id)) && Evict(s, id).cost >= 0
  {
    var t := Evict(s, id);
    WithoutProperties(s.lru, id, s.used);
    CostWithout(s.entries, s.lru, id);
    CostSame(s.entries, t.entries, t.lru);
    forall i, j | 0 <= i < j < |t.lru|
      ensures Older(t.used, t.lru[i], t.lru[j])
    {
      assert t.lru[i] in t.lru && t.lru[j] in t.lru;
    }
  }

  lemma InsertCost(s: State, key: Key, write: bool, id: Id, cost: nat)
    requires Inv(s) && id !in s.entries
    ensures Insert(s, key, write, id, cost).cost
            == CostOf(Insert(s, key, write, id, cost).entries, Insert(s, key, write, id, cost).lru)
  {
    var e := Insert(s, key, write, id, cost).entries;
    CostAppend(e, s.lru, [id]);
    CostSame(s.entries, e, s.lru);
    assert CostOf(e, [id]) == e[id].cost + CostOf(e, []);
  }

  lemma InsertOrder(s: State, key: Key, write: bool, id: Id, cost: nat)
    requires Inv(s) && id !in s.entries
    ensures ListMatches(Insert(s, key, write, id, cost)) && InUseOrder(Insert(s, key, write, id, cost))
  {
    AppendFresh(s.lru, id, s.used, s.clock);
    assert forall x :: x in s.lru + [id] <==> x in s.lru || x == id;
  }

  lemma InsertKeeps(s: State, key: Key, write: bool, id: Id, cost: nat)
    requires Inv(s) && key !in s.table && id !in s.entries
    ensures Inv(Insert(s, key, write, id, cost))
  {
    InsertCost(s, key, write, id, cost);
    InsertOrder(s, key, write, id, cost);
  }

  /** Changing only lock state keeps everything but lock exclusion. */
  lemma RelockKeeps(s: State, id: Id, e: Entry)
    requires Inv(s) && id in s.entries && e.key == s.entries[id].key && e.cost == s.entries[id].cost
    requires e.writer ==> e.readers == 0
    ensures Inv(s.(entries := s.entries[id := e]))
  {
    CostSame(s.entries, s.entries[id := e], s.lru);
  }

  lemma GcFromKeeps(s: State, todo: seq<Id>, limit: real)
    requires Inv(s) && NoDup(todo) && forall id :: id in todo ==> id in s.entries
    ensures Inv(GcFrom(s, todo, limit))
    ensures GcFrom(s, todo, limit).table.Keys <= s.table.Keys
    ensures GcFrom(s, todo, limit).entries.Keys <= s.entries.Keys
    decreases |todo|
  {
    if todo != [] && s.cost as real >= limit {
      NoDupTail(todo);
      if s.entries[todo[0]].Pinned() {
        GcFromKeeps(s, todo[1..], limit);
      } else {
        EvictKeeps(s, todo[0]);
        GcFromKeeps(Evict(s, todo[0]), todo[1..], limit);
      }
    }
  }

  lemma CollectedKeeps(s: State, ratio: real)
    requires Inv(s)
    ensures Inv(Collected(s, ratio))
    ensures Collected(s, ratio).table.Keys <= s.table.Keys && Collected(s, ratio).entries.Keys <= s.entries.Keys
  {
    GcFromKeeps(s, s.lru, Limit(s.quota, ratio));
  }

  lemma MissKeepsInv(s: State, key: Key, write: bool, slot: Id, newCost: nat)
    requires Inv(s) && slot !in s.entries && key !in s.table
    ensures Inv(Step(s, Get(key, write, slot, newCost)))
  {
    if s.cost as real > Limit(s.quota, FILL_RATIO) {
      CollectedKeeps(s, FILL_RATIO);
      InsertKeeps(Collected(s, FILL_RATIO), key, write, slot, newCost);
    } else {
      InsertKeeps(s, key, write, slot, newCost);
    }
  }

  lemma LookupKeepsInv(s: State, op: Op)
    requires Inv(s) && Enabled(s, op) && (op.TestGet? || (op.Get? && op.key in s.table))
    ensures Inv(Step(s, op))
  {
    if op.key in s.table && s.entries[s.table[op.key]].CanLock(op.write) {
      TouchKeeps(s, s.table[op.key], op.write);
    }
  }

  lemma RemoveKeepsInv(s: State, key: Key)
    requires Inv(s)
    ensures Inv(Step(s, Remove(key)))
  {
    if key in s.table && !s.entries[s.table[key]].Pinned() {
      EvictKeeps(s, s.table[key]);
    }
  }

  lemma RelockingKeepsInv(s: State, op: Op)
    requires Inv(s) && Enabled(s, op) && (op.Release? || op.BeginDemote? || op.EndDemote?)
    ensures Inv(Step(s, op))
  {
    match op
    case Release(id) => RelockKeeps(s, id, s.entries[id].Unlocked());
    case BeginDemote(id) => RelockKeeps(s, id, s.entries[id].(demoting := true));
    case EndDemote(id) => RelockKeeps(s, id, s.entries[id].(demoting := false));
  }

  /** The cache invariant is inductive. */
  lemma StepKeepsInv(s: State, op: Op)
    requires Inv(s) && Enabled(s, op)
    ensures Inv(Step(s, op))
  {
    if op.Get? && op.key !in s.table {
      MissKeepsInv(s, op.key, op.write, op.slot, op.newCost);
    } else if op.Get? || op.TestGet? {
      LookupKeepsInv(s, op);
    } else if op.Remove? {
      RemoveKeepsInv(s, op.key);
    } else if op.Gc? {
      CollectedKeeps(s, op.ratio);
    } else {
      RelockingKeepsInv(s, op);
    }
  }

  // ---------------------------------------------------------------- runs

  /** A finite run: every operation enabled where it happens. */
  predicate IsRun(s: State, ops: seq<Op>)
    requires Inv(s)
    decreases |ops|
  {
    ops == [] || (Enabled(s, ops[0]) && (StepKeepsInv(s, ops[0]); IsRun(Step(s, ops[0]), ops[1..])))
  }

  /** The state a run ends in. */
  function After(s: State, ops: seq<Op>): State
    requires Inv(s) && IsRun(s, ops)
    decreases |ops|
  {
    if ops == [] then s else (StepKeepsInv(s, ops[0]); After(Step(s, ops[0]), ops[1..]))
  }

  /** In every reachable state of every interleaving the invariant holds. */
  lemma {:induction false} RunKeepsInv(s: State, ops: seq<Op>)
    requires Inv(s) && IsRun(s, ops)
    ensures Inv(After(s, ops))
    decreases |ops|
  {
    if ops != [] {
      StepKeepsInv(s, ops[0]);
      RunKeepsInv(Step(s, ops[0]), ops[1..]);
    }
  }

  lemma EmptyInv(quota: nat, allocates: bool)
    ensures Inv(Empty(quota, allocates))
  {}

  // ---------------------------------------------------------------- nothing in use is ever removed

  lemma GcSparesPinned(s: State, todo: seq<Id>, limit: real, id: Id)
    requires Inv(s) && NoDup(todo) && forall x :: x in todo ==> x in s.entries
    requires id in s.entries && s.entries[id].Pinned()
    ensures id in GcFrom(s, todo, limit).entries && GcFrom(s, todo, limit).entries[id] == s.entries[id]
    decreases |todo|
  {
    if todo != [] && s.cost as real >= limit {
      NoDupTail(todo);
      if s.entries[todo[0]].Pinned() {
        GcSparesPinned(s, todo[1..], limit, id);
      } else {
        EvictKeeps(s, todo[0]);
        GcSparesPinned(Evict(s, todo[0]), todo[1..], limit, id);
      }
    }
  }

  lemma CollectedSparesPinned(s: State, ratio: real, id: Id)
    requires Inv(s) && id in s.entries && s.entries[id].Pinned()
    ensures id in Collected(s, ratio).entries && Collected(s, ratio).entries[id] == s.entries[id]
  {
    GcSparesPinned(s, s.lru, Limit(s.quota, ratio), id);
  }

  lemma PinnedEntrySurvives(s: State, op: Op, id: Id)
    requires Inv(s) && Enabled(s, op) && id in s.entries && s.entries[id].Pinned()
    ensures id in Step(s, op).entries && Step(s, op).entries[id].key == s.entries[id].key
  {
    if op.Gc? {
      CollectedSparesPinned(s, op.ratio, id);
    } else if op.Get? && op.key !in s.table {
      CollectedSparesPinned(s, FILL_RATIO, id);
    }
  }

  /** A held or demoting entry survives every step, under its own key and at its own address. */
  lemma PinnedSurvives(s: State, op: Op, id: Id)
    requires Inv(s) && Enabled(s, op) && id in s.entries && s.entries[id].Pinned()
    ensures id in Step(s, op).entries && Step(s, op).entries[id].key == s.entries[id].key
    ensures s.entries[id].key in Step(s, op).table && Step(s, op).table[s.entries[id].key] == id
  {
    var t := Step(s, op);
    assert TableMatches(t) by { StepKeepsInv(s, op); }
    PinnedEntrySurvives(s, op, id);
  }

  /** ... and hence a whole run during which it stays held or demoting. */
  predicate PinnedThroughout(s: State, ops: seq<Op>, id: Id)
    requires Inv(s) && IsRun(s, ops)
    decreases |ops|
  {
    ops == [] ||
    (id in s.entries && s.entries[id].Pinned()
     && (StepKeepsInv(s, ops[0]); PinnedThroughout(Step(s, ops[0]), ops[1..], id)))
  }

  lemma {:induction false} PinnedNeverLost(s: State, ops: seq<Op>, id: Id)
    requires Inv(s) && IsRun(s, ops) && id in s.entries && PinnedThroughout(s, ops, id)
    ensures id in After(s, ops).entries && After(s, ops).entries[id].key == s.entries[id].key
    ensures s.entries[id].key in After(s, ops).table && After(s, ops).table[s.entries[id].key] == id
    decreases |ops|
  {
    RunKeepsInv(s, ops);
    if ops != [] {
      StepKeepsInv(s, ops[0]);
      PinnedSurvives(s, ops[0], id);
      PinnedNeverLost(Step(s, ops[0]), ops[1..], id);
    }
  }
}
