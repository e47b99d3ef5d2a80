/** What garbage collection evicts, what a miss can cost, and in which order entries age. */
module CachePolicy {
  import opened CacheModel

  /** The entries of l that collection may free. */
  function Free(e: map<Id, Entry>, l: seq<Id>): seq<Id>
    requires forall id :: id in l ==> id in e
  {
    if l == [] then [] else (if e[l[0]].Pinned() then [] else [l[0]]) + Free(e, l[1..])
  }

  /** The entries of l that are locked or demoting. */
  function Kept(e: map<Id, Entry>, l: seq<Id>): seq<Id>
    requires forall id :: id in l ==> id in e
  {
    if l == [] then [] else (if e[l[0]].Pinned() then [l[0]] else []) + Kept(e, l[1..])
  }

  lemma WithoutMiddle(a: seq<Id>, id: Id, b: seq<Id>)
    requires id !in a && id !in b
    ensures Without(a + [id] + b, id) == a + b
  {
    if a == [] {
      assert (a + [id] + b)[1..] == b && a + b == b;
      WithoutAbsent(b, id);
    } else {
      assert (a + [id] + b)[1..] == a[1..] + [id] + b;
      WithoutMiddle(a[1..], id, b);
      assert [a[0]] + (a[1..] + b) == a + b;
    }
  }

  lemma WithoutAbsent(l: seq<Id>, id: Id)
    requires id !in l
    ensures Without(l, id) == l
  {
    if l != [] { WithoutAbsent(l[1..], id); }
  }

  lemma PartsDiffer(a: seq<Id>, id: Id, b: seq<Id>)
    requires NoDup(a + [id] + b)
    ensures id !in a && id !in b && NoDup([id] + b) && NoDup(b)
  {
    var l := a + [id] + b;
    forall x | x in a ensures x != id {
      var i :| 0 <= i < |a| && a[i] == x;
      assert l[i] == x && l[|a|] == id;
    }
    forall x | x in b ensures x != id {
      var i :| 0 <= i < |b| && b[i] == x;
      assert l[|a| + 1 + i] == x && l[|a|] == id;
    }
    forall i, j | 0 <= i < j < |b| ensures b[i] != b[j] {
      assert l[|a| + 1 + i] == b[i] && l[|a| + 1 + j] == b[j];
    }
  }

  /** How far a collection from `todo` gets, and what it leaves. */
  ghost predicate Outcome(s: State, head: seq<Id>, todo: seq<Id>, limit: real, n: int, t: State)
    requires forall id :: id in todo ==> id in s.entries
  {
    && 0 <= n <= |todo|
    && t.lru == head + Kept(s.entries, todo[..n]) + todo[n..]
    && t.cost == s.cost - CostOf(s.entries, Free(s.entries, todo[..n]))
    && t.entries == s.entries - Elements(Free(s.entries, todo[..n]))
    && (t.cost as real < limit || n == |todo|)
    && (forall m :: 0 <= m < n ==> (s.cost - CostOf(s.entries, Free(s.entries, todo[..m]))) as real >= limit)
  }

  lemma OutcomePinned(s: State, head: seq<Id>, todo: seq<Id>, limit: real, n: int, t: State)
    requires todo != [] && (forall id :: id in todo ==> id in s.entries)
    requires s.entries[todo[0]].Pinned() && s.cost as real >= limit
    requires Outcome(s, head + [todo[0]], todo[1..], limit, n, t)
    ensures Outcome(s, head, todo, limit, n + 1, t)
  {
    var r := todo[1..];
    assert todo[..n + 1][1..] == r[..n] && todo[n + 1..] == r[n..];
    assert head + [todo[0]] + Kept(s.entries, r[..n]) + r[n..] == head + Kept(s.entries, todo[..n + 1]) + todo[n + 1..];
    assert Free(s.entries, todo[..n + 1]) == Free(s.entries, r[..n]);
    forall m | 0 <= m < n + 1
      ensures (s.cost - CostOf(s.entries, Free(s.entries, todo[..m]))) as real >= limit
    {
      if m > 0 {
        assert todo[..m][1..] == r[..m - 1];
        assert Free(s.entries, todo[..m]) == Free(s.entries, r[..m - 1]);
      }
    }
  }

  lemma FreeElements(e: map<Id, Entry>, l: seq<Id>)
    requires forall id :: id in l ==> id in e
    ensures forall x :: x in Free(e, l) <==> x in l && !e[x].Pinned()
    ensures forall x :: x in Kept(e, l) <==> x in l && e[x].Pinned()
  {
    if l != [] {
      assert forall x :: x in l <==> x == l[0] || x in l[1..];
      FreeElements(e, l[1..]);
    }
  }

  /** Free and Kept look only at the entries of the list. */
  lemma FreeSame(e: map<Id, Entry>, e': map<Id, Entry>, l: seq<Id>)
    requires forall id :: id in l ==> id in e && id in e' && e[id] == e'[id]
    ensures Free(e, l) == Free(e', l) && Kept(e, l) == Kept(e', l)
    ensures CostOf(e, Free(e, l)) == CostOf(e', Free(e, l))
  {
    FreeElements(e, l);
    CostSame(e, e', Free(e, l));
    if l != [] { FreeSame(e, e', l[1..]); }
  }

  lemma FreeCons(e: map<Id, Entry>, e': map<Id, Entry>, id: Id, l: seq<Id>)
    requires id in e && !e[id].Pinned() && id !in l && e' == e - {id} && forall x :: x in l ==> x in e
    ensures Free(e, [id] + l) == [id] + Free(e', l) && Kept(e, [id] + l) == Kept(e', l)
    ensures CostOf(e, Free(e, [id] + l)) == e[id].cost + CostOf(e', Free(e', l))
    ensures Elements(Free(e, [id] + l)) == {id} + Elements(Free(e', l))
  {
    assert ([id] + l)[1..] == l;
    FreeSame(e, e', l);
    assert ([id] + Free(e', l))[1..] == Free(e', l);
  }

  lemma OutcomeFree(s: State, head: seq<Id>, todo: seq<Id>, limit: real, n: int, t: State)
    requires todo != [] && (forall id :: id in todo ==> id in s.entries) && NoDup(todo)
    requires !s.entries[todo[0]].Pinned() && s.cost as real >= limit
    requires (forall id :: id in todo[1..] ==> id in Evict(s, todo[0]).entries)
    requires Outcome(Evict(s, todo[0]), head, todo[1..], limit, n, t)
    ensures Outcome(s, head, todo, limit, n + 1, t)
  {
    var id, r, e, e' := todo[0], todo[1..], s.entries, Evict(s, todo[0]).entries;
    NoDupTail(todo);
    assert todo[..n + 1] == [id] + r[..n] && todo[n + 1..] == r[n..];
    FreeCons(e, e', id, r[..n]);
    assert t.entries == e - Elements(Free(e, todo[..n + 1]));
    forall m | 0 <= m < n + 1
      ensures (s.cost - CostOf(e, Free(e, todo[..m]))) as real >= limit
    {
      if m > 0 {
        FreeCostCons(e, e', todo, m);
      }
    }
  }

  lemma FreeCostCons(e: map<Id, Entry>, e': map<Id, Entry>, todo: seq<Id>, m: int)
    requires 0 < m <= |todo| && NoDup(todo) && (forall x :: x in todo ==> x in e)
    requires !e[todo[0]].Pinned() && e' == e - {todo[0]} && forall x :: x in todo[1..] ==> x in e'
    ensures CostOf(e, Free(e, todo[..m])) == e[todo[0]].cost + CostOf(e', Free(e', todo[1..][..m - 1]))
  {
    NoDupTail(todo);
    assert todo[..m] == [todo[0]] + todo[1..][..m - 1];
    FreeCons(e, e', todo[0], todo[1..][..m - 1]);
  }

  lemma OutcomeNone(s: State, head: seq<Id>, todo: seq<Id>, limit: real)
    requires s.lru == head + todo && (todo == [] || s.cost as real < limit) && forall id :: id in todo ==> id in s.entries
    ensures Outcome(s, head, todo, limit, 0, s)
  {
    assert todo[..0] == [] && todo[0..] == todo && head + [] + todo == s.lru;
    assert s.entries - {} == s.entries;
  }

  lemma GcFromOutcome(s: State, head: seq<Id>, todo: seq<Id>, limit: real) returns (n: nat)
    requires s.lru == head + todo && NoDup(s.lru) && NoDup(todo) && forall id :: id in todo ==> id in s.entries
    ensures Outcome(s, head, todo, limit, n, GcFrom(s, todo, limit))
    decreases |todo|
  {
    if todo == [] || s.cost as real < limit {
      OutcomeNone(s, head, todo, limit);
      return 0;
    }
    var id, r := todo[0], todo[1..];
    assert todo == [id] + r && s.lru == head + [id] + r;
    PartsDiffer(head, id, r);
    if s.entries[id].Pinned() {
      assert head + [id] + r == head + [id] + todo[1..];
      n := GcFromOutcome(s, head + [id], r, limit);
      OutcomePinned(s, head, todo, limit, n, GcFrom(s, todo, limit));
    } else {
      WithoutMiddle(head, id, r);
      DropMiddle(head, id, r);
      n := GcFromOutcome(Evict(s, id), head, r, limit);
      OutcomeFree(s, head, todo, limit, n, GcFrom(s, todo, limit));
    }
    n := n + 1;
  }

  lemma DropMiddle(a: seq<Id>, id: Id, b: seq<Id>)
    requires NoDup(a + [id] + b)
    ensures NoDup(a + b)
  {
    var l, m := a + [id] + b, a + b;
    forall i, j | 0 <= i < j < |m| ensures m[i] != m[j] {
      var i', j' := if i < |a| then i else i + 1, if j < |a| then j else j + 1;
      assert l[i'] == m[i] && l[j'] == m[j];
    }
  }

  /**
    dt_cache_gc frees exactly the entries of a prefix of the LRU list that are neither locked nor
    demoting, keeps the order of the rest, stops as soon as the cost is below the threshold, and
    otherwise reaches the end of the list.
   */
  lemma GcExact(s: State, ratio: real) returns (n: nat)
    requires Inv(s)
    ensures n <= |s.lru|
    ensures var t, limit := Collected(s, ratio), Limit(s.quota, ratio);
            && t.lru == Kept(s.entries, s.lru[..n]) + s.lru[n..]
            && t.entries == s.entries - Elements(Free(s.entries, s.lru[..n]))
            && t.cost == s.cost - CostOf(s.entries, Free(s.entries, s.lru[..n]))
            && (t.cost as real < limit || n == |s.lru|)
            && (forall m :: 0 <= m < n ==> (s.cost - CostOf(s.entries, Free(s.entries, s.lru[..m]))) as real >= limit)
  {
    n := GcFromOutcome(s, [], s.lru, Limit(s.quota, ratio));
    assert [] + Kept(s.entries, s.lru[..n]) == Kept(s.entries, s.lru[..n]);
  }

  /** Cost that cannot be collected at the moment. */
  function PinnedCost(s: State): nat
    requires Inv(s)
  {
    CostOf(s.entries, Kept(s.entries, s.lru))
  }

  lemma SplitCost(e: map<Id, Entry>, l: seq<Id>)
    requires forall id :: id in l ==> id in e
    ensures CostOf(e, l) == CostOf(e, Free(e, l)) + CostOf(e, Kept(e, l))
  {
    if l != [] {
      SplitCost(e, l[1..]);
      CostAppend(e, if e[l[0]].Pinned() then [] else [l[0]], Free(e, l[1..]));
      CostAppend(e, if e[l[0]].Pinned() then [l[0]] else [], Kept(e, l[1..]));
      assert CostOf(e, [l[0]]) == e[l[0]].cost + CostOf(e, []);
    }
  }

  /** Collection ends below the threshold or with nothing left but locked and demoting entries. */
  lemma GcBound(s: State, ratio: real)
    requires Inv(s)
    ensures Collected(s, ratio).cost as real < Limit(s.quota, ratio) || Collected(s, ratio).cost == PinnedCost(s)
  {
    var n := GcExact(s, ratio);
    if n == |s.lru| {
      assert s.lru[..n] == s.lru;
      SplitCost(s.entries, s.lru);
    }
  }

  /** The threshold is the given share of the quota. */
  lemma LimitIs(quota: nat, ratio: real)
    ensures Limit(quota, ratio) == quota as real * ratio
  {}

  /** After any miss the cost is bounded by the quota share or the pinned cost, plus the new entry. */
  lemma MissBound(s: State, key: Key, write: bool, slot: Id, newCost: nat)
    requires Inv(s) && slot !in s.entries && key !in s.table
    ensures var t := Step(s, Get(key, write, slot, newCost));
            t.cost as real <= s.quota as real * 0.8 + newCost as real || t.cost <= PinnedCost(s) + newCost
  {
    GcBound(s, FILL_RATIO);
  }

  /** A miss at no more than four fifths of the quota only inserts. */
  lemma MissInserts(s: State, key: Key, write: bool, slot: Id, newCost: nat)
    requires Inv(s) && slot !in s.entries && key !in s.table && s.cost as real <= s.quota as real * 0.8
    ensures var t := Step(s, Get(key, write, slot, newCost));
            && t.lru == s.lru + [slot] && t.entries.Keys == s.entries.Keys + {slot} && t.cost == s.cost + newCost
            && (forall id :: id in s.entries ==> t.entries[id] == s.entries[id])
  {}

  /** A miss above it evicts the free entries of a prefix first, no more than needed to get below it. */
  lemma MissCollects(s: State, key: Key, write: bool, slot: Id, newCost: nat) returns (n: nat)
    requires Inv(s) && slot !in s.entries && key !in s.table && s.cost as real > s.quota as real * 0.8
    ensures n <= |s.lru|
    ensures var t, limit := Step(s, Get(key, write, slot, newCost)), s.quota as real * 0.8;
            && t.lru == Kept(s.entries, s.lru[..n]) + s.lru[n..] + [slot]
            && t.entries.Keys == s.entries.Keys - Elements(Free(s.entries, s.lru[..n])) + {slot}
            && t.cost == s.cost - CostOf(s.entries, Free(s.entries, s.lru[..n])) + newCost
            && ((t.cost - newCost) as real < limit || n == |s.lru|)
            && (forall m :: 0 <= m < n ==> (s.cost - CostOf(s.entries, Free(s.entries, s.lru[..m]))) as real >= limit)
  {
    n := GcExact(s, 0.8);
  }

  /** Least recently used first: whatever is freed was used before every collectable survivor. */
  lemma GcEvictsOldest(s: State, ratio: real, gone: Id, left: Id)
    requires Inv(s) && gone in s.entries && gone !in Collected(s, ratio).entries
    requires left in Collected(s, ratio).entries && left in s.entries && !s.entries[left].Pinned()
    ensures Older(s.used, gone, left) && !s.entries[gone].Pinned()
  {
    var n := GcExact(s, ratio);
    FreeElements(s.entries, s.lru[..n]);
    assert gone in s.lru[..n] && left in s.lru && left !in s.lru[..n];
    PrefixIsOlder(s.lru, s.used, n, gone, left);
  }

  lemma PrefixIsOlder(l: seq<Id>, used: map<Id, nat>, n: nat, gone: Id, left: Id)
    requires Ascending(l, used) && n <= |l| && gone in l[..n] && left in l && left !in l[..n]
    ensures Older(used, gone, left)
  {
    var i :| 0 <= i < n && l[i] == gone;
    var j :| 0 <= j < |l| && l[j] == left;
    assert forall m :: 0 <= m < n ==> l[m] in l[..n];
  }

  // ---------------------------------------------------------------- the abstract timestamped map

  predicate Timed(s: State) { forall k :: k in s.table ==> s.table[k] in s.used }

  /** The specification of the cache: keys with the time of their last successful lookup. */
  function Times(s: State): map<Key, nat>
    requires Timed(s)
  {
    map k | k in s.table :: s.used[s.table[k]]
  }

  function KeysOf(s: State): seq<Key>
    requires Inv(s)
  {
    seq(|s.lru|, i requires 0 <= i < |s.lru| => s.entries[s.lru[i]].key)
  }

  /** The LRU list is the enumeration of the abstract map in strictly increasing time. */
  lemma ListIsUseOrder(s: State)
    requires Inv(s)
    ensures forall k :: k in KeysOf(s) <==> k in Times(s)
    ensures forall i, j :: 0 <= i < j < |KeysOf(s)| ==>
              KeysOf(s)[i] in Times(s) && KeysOf(s)[j] in Times(s) && Times(s)[KeysOf(s)[i]] < Times(s)[KeysOf(s)[j]]
    ensures forall k :: k in Times(s) ==> Times(s)[k] < s.clock
  {
    forall k ensures k in KeysOf(s) <==> k in Times(s) {
      if k in s.table {
        assert s.table[k] in s.lru;
        var i :| 0 <= i < |s.lru| && s.lru[i] == s.table[k];
        assert KeysOf(s)[i] == k;
      }
    }
  }
}
