/**
  The cache as a user sees it: a map from keys to entries with the time of their last use. There is no
  hash table, no list and no order to maintain; a collection forgets the oldest free key again and again.
  The concrete cache refines this machine step by step and over whole runs.
 */
module CacheAbstract {
  import opened CacheModel

  datatype Item = Item(time: nat, entry: Entry)

  datatype Abstract = Abstract(items: map<Key, Item>, cost: int, clock: nat, quota: nat, allocates: bool)

  datatype Request =
    | Fetch(key: Key, write: bool, newCost: nat)
    | Test(key: Key, write: bool)
    | Discard(key: Key)
    | Trim(ratio: real)
    | Unlock(key: Key)
    | StartDemotion(key: Key)
    | FinishDemotion(key: Key)

  // ---------------------------------------------------------------- the abstract machine

  predicate Free(a: Abstract, k: Key) { k in a.items && !a.items[k].entry.Pinned() }

  ghost predicate OldestFree(a: Abstract, k: Key) {
    Free(a, k) && forall j :: Free(a, j) && j != k ==> a.items[k].time < a.items[j].time
  }

  function Forget(a: Abstract, k: Key): Abstract
    requires k in a.items
  {
    a.(items := a.items - {k}, cost := a.cost - a.items[k].entry.cost)
  }

  /** Forget the oldest free key until the cost is below the limit or none is left. */
  ghost function Trimmed(a: Abstract, limit: real): Abstract
    decreases a.items.Keys
  {
    if a.cost as real < limit || !exists k :: OldestFree(a, k) then a
    else
      var k :| OldestFree(a, k);
      assert k in a.items.Keys && (a.items - {k}).Keys == a.items.Keys - {k};
      Trimmed(Forget(a, k), limit)
  }

  predicate Lockable(a: Abstract, k: Key, write: bool) { k in a.items && a.items[k].entry.CanLock(write) }

  function Renew(a: Abstract, k: Key, write: bool): Abstract
    requires Lockable(a, k, write)
  {
    a.(items := a.items[k := Item(a.clock, a.items[k].entry.Locked(write))], clock := a.clock + 1)
  }

  function Add(a: Abstract, k: Key, write: bool, cost: nat): Abstract {
    var w := write || a.allocates;
    a.(items := a.items[k := Item(a.clock, Entry(k, cost, if w then 0 else 1, w, false))],
       cost := a.cost + cost, clock := a.clock + 1)
  }

  function Relock(a: Abstract, k: Key, e: Entry): Abstract
    requires k in a.items
  {
    a.(items := a.items[k := a.items[k].(entry := e)])
  }

  ghost function AbstractStep(a: Abstract, r: Request): Abstract {
    match r
    case Fetch(k, write, newCost) =>
      if k in a.items then (if Lockable(a, k, write) then Renew(a, k, write) else a)
      else
        var limit := Limit(a.quota, FILL_RATIO);
        Add(if a.cost as real > limit then Trimmed(a, limit) else a, k, write, newCost)
    case Test(k, write) => if Lockable(a, k, write) then Renew(a, k, write) else a
    case Discard(k) => if Free(a, k) then Forget(a, k) else a
    case Trim(ratio) => Trimmed(a, Limit(a.quota, ratio))
    case Unlock(k) => if k in a.items && a.items[k].entry.Held() then Relock(a, k, a.items[k].entry.Unlocked()) else a
    case StartDemotion(k) => if k in a.items then Relock(a, k, a.items[k].entry.(demoting := true)) else a
    case FinishDemotion(k) => if k in a.items then Relock(a, k, a.items[k].entry.(demoting := false)) else a
  }

  ghost function AbstractRun(a: Abstract, rs: seq<Request>): Abstract
    decreases |rs|
  {
    if rs == [] then a else AbstractRun(AbstractStep(a, rs[0]), rs[1..])
  }

  // ---------------------------------------------------------------- what the concrete cache shows

  predicate Viewable(s: State) { forall k :: k in s.table ==> s.table[k] in s.entries && s.table[k] in s.used }

  function View(s: State): Abstract
    requires Viewable(s)
  {
    Abstract(map k | k in s.table :: Item(s.used[s.table[k]], s.entries[s.table[k]]), s.cost, s.clock, s.quota, s.allocates)
  }

  function KeyOf(s: State, id: Id): Key { if id in s.entries then s.entries[id].key else 0 }

  /** The request behind an operation: addresses and fresh slots are not visible. */
  function Asked(s: State, op: Op): Request {
    match op
    case Get(key, write, _, newCost) => Fetch(key, write, newCost)
    case TestGet(key, write) => Test(key, write)
    case Remove(key) => Discard(key)
    case Gc(ratio) => Trim(ratio)
    case Release(id) => Unlock(KeyOf(s, id))
    case BeginDemote(id) => StartDemotion(KeyOf(s, id))
    case EndDemote(id) => FinishDemotion(KeyOf(s, id))
  }

  lemma TouchView(s: State, k: Key, write: bool)
    requires Viewable(s) && TableMatches(s) && k in s.table && s.entries[s.table[k]].CanLock(write)
    ensures Viewable(Touch(s, s.table[k], write)) && View(Touch(s, s.table[k], write)) == Renew(View(s), k, write)
  {}

  lemma EvictView(s: State, id: Id)
    requires Viewable(s) && TableMatches(s) && id in s.entries
    ensures Viewable(Evict(s, id)) && View(Evict(s, id)) == Forget(View(s), s.entries[id].key)
  {}

  lemma InsertView(s: State, k: Key, write: bool, id: Id, cost: nat)
    requires Viewable(s) && k !in s.table && id !in s.entries
    ensures Viewable(Insert(s, k, write, id, cost)) && View(Insert(s, k, write, id, cost)) == Add(View(s), k, write, cost)
  {}

  lemma RelockView(s: State, id: Id, e: Entry)
    requires Viewable(s) && TableMatches(s) && id in s.entries && e.key == s.entries[id].key
    ensures var t := s.(entries := s.entries[id := e]);
            Viewable(t) && View(t) == Relock(View(s), e.key, e)
  {}

  // ---------------------------------------------------------------- collection

  lemma TrimOne(a: Abstract, k: Key, limit: real)
    requires OldestFree(a, k) && a.cost as real >= limit
    ensures Trimmed(a, limit) == Trimmed(Forget(a, k), limit)
  {
    forall j | OldestFree(a, j) ensures j == k { assert Free(a, j); }
  }

  /** The rest of the list still has every free entry. */
  ghost predicate HasAllFree(s: State, todo: seq<Id>) {
    forall id :: id in s.entries && !s.entries[id].Pinned() ==> id in todo
  }

  /** The head of the rest is the oldest free key. */
  lemma HeadIsOldest(s: State, todo: seq<Id>)
    requires Inv(s) && todo != [] && HasAllFree(s, todo) && Ascending(todo, s.used)
    requires todo[0] in s.entries && !s.entries[todo[0]].Pinned()
    ensures OldestFree(View(s), s.entries[todo[0]].key)
  {
    var a, k := View(s), s.entries[todo[0]].key;
    forall j | Free(a, j) && j != k ensures a.items[k].time < a.items[j].time {
      var id := s.table[j];
      assert id in todo;
      var i :| 0 <= i < |todo| && todo[i] == id;
      assert Older(s.used, todo[0], todo[i]);
    }
  }

  /** What a walk of the list keeps. */
  ghost predicate Walking(s: State, todo: seq<Id>) {
    NoDup(todo) && (forall id :: id in todo ==> id in s.entries) && HasAllFree(s, todo) && Ascending(todo, s.used)
  }

  lemma SkipPinned(s: State, todo: seq<Id>)
    requires Inv(s) && Walking(s, todo) && todo != [] && s.entries[todo[0]].Pinned()
    ensures Walking(s, todo[1..])
  {
    NoDupTail(todo);
    AscendingTail(todo, s.used);
    forall id | id in s.entries && !s.entries[id].Pinned() ensures id in todo[1..] { assert id in todo; }
  }

  lemma WalkOn(s: State, todo: seq<Id>)
    requires Inv(s) && Walking(s, todo) && todo != []
    ensures Walking(Evict(s, todo[0]), todo[1..])
  {
    var t, rest := Evict(s, todo[0]), todo[1..];
    NoDupTail(todo);
    AscendingTail(todo, s.used);
    assert forall id :: id in rest ==> id != todo[0];
    forall id | id in t.entries && !t.entries[id].Pinned() ensures id in rest { assert id in todo; }
    forall i, j | 0 <= i < j < |rest| ensures Older(t.used, rest[i], rest[j]) { assert Older(s.used, rest[i], rest[j]); }
  }

  lemma {:induction false} GcView(s: State, todo: seq<Id>, limit: real)
    requires Inv(s) && Walking(s, todo)
    ensures Viewable(GcFrom(s, todo, limit)) && View(GcFrom(s, todo, limit)) == Trimmed(View(s), limit)
    decreases |todo|
  {
    if s.cost as real < limit {
    } else if todo == [] {
      assert forall k :: !Free(View(s), k);
    } else if s.entries[todo[0]].Pinned() {
      SkipPinned(s, todo);
      GcView(s, todo[1..], limit);
    } else {
      HeadIsOldest(s, todo);
      TrimOne(View(s), s.entries[todo[0]].key, limit);
      EvictView(s, todo[0]);
      EvictKeeps(s, todo[0]);
      WalkOn(s, todo);
      GcView(Evict(s, todo[0]), todo[1..], limit);
    }
  }

  lemma CollectedView(s: State, ratio: real)
    requires Inv(s)
    ensures Inv(Collected(s, ratio)) && View(Collected(s, ratio)) == Trimmed(View(s), Limit(s.quota, ratio))
  {
    CollectedKeeps(s, ratio);
    GcView(s, s.lru, Limit(s.quota, ratio));
  }

  // ---------------------------------------------------------------- refinement

  lemma MissView(s: State, key: Key, write: bool, slot: Id, newCost: nat)
    requires Inv(s) && slot !in s.entries && key !in s.table
    ensures var t := Step(s, Get(key, write, slot, newCost));
            Viewable(t) && View(t) == AbstractStep(View(s), Fetch(key, write, newCost))
  {
    if s.cost as real > Limit(s.quota, FILL_RATIO) {
      CollectedView(s, FILL_RATIO);
      CollectedShrinks(s, FILL_RATIO);
      InsertView(Collected(s, FILL_RATIO), key, write, slot, newCost);
    } else {
      InsertView(s, key, write, slot, newCost);
    }
  }

  /** Collection adds nothing. */
  lemma {:induction false} GcShrinks(s: State, todo: seq<Id>, limit: real)
    requires Inv(s) && NoDup(todo) && forall id :: id in todo ==> id in s.entries
    ensures GcFrom(s, todo, limit).entries.Keys <= s.entries.Keys && GcFrom(s, todo, limit).table.Keys <= s.table.Keys
    decreases |todo|
  {
    if todo != [] && s.cost as real >= limit {
      NoDupTail(todo);
      if s.entries[todo[0]].Pinned() {
        GcShrinks(s, todo[1..], limit);
      } else {
        EvictKeeps(s, todo[0]);
        GcShrinks(Evict(s, todo[0]), todo[1..], limit);
      }
    }
  }

  lemma CollectedShrinks(s: State, ratio: real)
    requires Inv(s)
    ensures Collected(s, ratio).entries.Keys <= s.entries.Keys && Collected(s, ratio).table.Keys <= s.table.Keys
  {
    GcShrinks(s, s.lru, Limit(s.quota, ratio));
  }

  lemma TestView(s: State, key: Key, write: bool)
    requires Inv(s)
    ensures var t := Step(s, TestGet(key, write));
            Viewable(t) && View(t) == AbstractStep(View(s), Test(key, write))
  {
    if key in s.table && s.entries[s.table[key]].CanLock(write) { TouchView(s, key, write); }
  }

  /** A get that finds its key is a test. */
  lemma HitView(s: State, key: Key, write: bool, slot: Id, newCost: nat)
    requires Inv(s) && slot !in s.entries && key in s.table
    ensures var t := Step(s, Get(key, write, slot, newCost));
            Viewable(t) && View(t) == AbstractStep(View(s), Fetch(key, write, newCost))
  {
    TestView(s, key, write);
  }

  lemma RemoveView(s: State, key: Key)
    requires Inv(s)
    ensures var t := Step(s, Remove(key)); Viewable(t) && View(t) == AbstractStep(View(s), Discard(key))
  {
    if key in s.table && !s.entries[s.table[key]].Pinned() { EvictView(s, s.table[key]); }
  }

  lemma ReleaseView(s: State, id: Id)
    requires Inv(s) && Enabled(s, Release(id))
    ensures var t := Step(s, Release(id)); Viewable(t) && View(t) == AbstractStep(View(s), Unlock(KeyOf(s, id)))
  {
    RelockView(s, id, s.entries[id].Unlocked());
  }

  lemma BeginView(s: State, id: Id)
    requires Inv(s) && Enabled(s, BeginDemote(id))
    ensures var t := Step(s, BeginDemote(id)); Viewable(t) && View(t) == AbstractStep(View(s), StartDemotion(KeyOf(s, id)))
  {
    RelockView(s, id, s.entries[id].(demoting := true));
  }

  lemma EndView(s: State, id: Id)
    requires Inv(s) && Enabled(s, EndDemote(id))
    ensures var t := Step(s, EndDemote(id)); Viewable(t) && View(t) == AbstractStep(View(s), FinishDemotion(KeyOf(s, id)))
  {
    RelockView(s, id, s.entries[id].(demoting := false));
  }

  lemma LookupView(s: State, op: Op)
    requires Inv(s) && Enabled(s, op) && (op.Get? || op.TestGet?)
    ensures Viewable(Step(s, op)) && View(Step(s, op)) == AbstractStep(View(s), Asked(s, op))
  {
    match op
    case Get(key, write, slot, newCost) =>
      if key in s.table { HitView(s, key, write, slot, newCost); } else { MissView(s, key, write, slot, newCost); }
    case TestGet(key, write) => TestView(s, key, write);
  }

  lemma LockView(s: State, op: Op)
    requires Inv(s) && Enabled(s, op) && (op.Release? || op.BeginDemote? || op.EndDemote?)
    ensures Viewable(Step(s, op)) && View(Step(s, op)) == AbstractStep(View(s), Asked(s, op))
  {
    match op
    case Release(id) => ReleaseView(s, id);
    case BeginDemote(id) => BeginView(s, id);
    case EndDemote(id) => EndView(s, id);
  }

  lemma DropView(s: State, op: Op)
    requires Inv(s) && (op.Remove? || op.Gc?)
    ensures Viewable(Step(s, op)) && View(Step(s, op)) == AbstractStep(View(s), Asked(s, op))
  {
    match op
    case Remove(key) => RemoveView(s, key);
    case Gc(ratio) => CollectedView(s, ratio);
  }

  /** Every step of the cache is the abstract step of its request. */
  lemma StepRefines(s: State, op: Op)
    requires Inv(s) && Enabled(s, op)
    ensures Inv(Step(s, op)) && View(Step(s, op)) == AbstractStep(View(s), Asked(s, op))
  {
    StepKeepsInv(s, op);
    if op.Get? || op.TestGet? { LookupView(s, op); }
    else if op.Remove? || op.Gc? { DropView(s, op); }
    else { LockView(s, op); }
  }

  function AllAsked(s: State, ops: seq<Op>): seq<Request>
    requires Inv(s) && IsRun(s, ops)
    decreases |ops|
  {
    if ops == [] then []
    else
      StepKeepsInv(s, ops[0]);
      [Asked(s, ops[0])] + AllAsked(Step(s, ops[0]), ops[1..])
  }

  /** Every run of the cache is the abstract run of its requests. */
  lemma {:induction false} RunRefines(s: State, ops: seq<Op>)
    requires Inv(s) && IsRun(s, ops)
    ensures Inv(After(s, ops)) && View(After(s, ops)) == AbstractRun(View(s), AllAsked(s, ops))
    decreases |ops|
  {
    if ops != [] {
      StepRefines(s, ops[0]);
      RunRefines(Step(s, ops[0]), ops[1..]);
      assert AllAsked(s, ops)[1..] == AllAsked(Step(s, ops[0]), ops[1..]);
    }
  }
}
