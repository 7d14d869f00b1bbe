/** The cache index and what eviction takes from it. The index is the `cache_entries` table in the order its
    `(kind, last_accessed)` queries return it, oldest first. */
module Lru {

  datatype Kind = Blob | Block | Thumb

  /** A cache key: the hashed uid, with a block index or a thumbnail type where the kind has one. */
  datatype Key = Key(kind: Kind, uid: nat, sub: nat)

  datatype Entry = Entry(key: Key, size: nat, at: int)

  const EVICT_BATCH := 64

  /** The entries of one kind, oldest first. */
  function Pool(rows: seq<Entry>, kind: Kind): seq<Entry> {
    if rows == [] then []
    else if rows[0].key.kind == kind then [rows[0]] + Pool(rows[1..], kind)
    else Pool(rows[1..], kind)
  }

  function Sum(s: seq<Entry>): nat {
    if s == [] then 0 else s[0].size + Sum(s[1..])
  }

  function Keys(s: seq<Entry>): set<Key> {
    set e | e in s :: e.key
  }

  function RemoveKeys(rows: seq<Entry>, keys: set<Key>): seq<Entry> {
    if rows == [] then []
    else if rows[0].key in keys then RemoveKeys(rows[1..], keys)
    else [rows[0]] + RemoveKeys(rows[1..], keys)
  }

  ghost predicate Distinct(s: seq<Entry>) {
    forall i, j :: 0 <= i < j < |s| ==> s[i].key != s[j].key
  }

  ghost predicate Sorted(s: seq<Entry>) {
    forall i, j :: 0 <= i < j < |s| ==> s[i].at <= s[j].at
  }

  predicate Exempt(e: Entry, pinned: set<nat>) { e.key.uid in pinned }

  /** The entries of `s` that are, or are not, pinned. */
  function Pinned(s: seq<Entry>, pinned: set<nat>, want: bool): seq<Entry> {
    if s == [] then []
    else if Exempt(s[0], pinned) == want then [s[0]] + Pinned(s[1..], pinned, want)
    else Pinned(s[1..], pinned, want)
  }

  /** The eviction rule: while over the cap, drop the oldest entry that is not exempt. */
  function Victims(s: seq<Entry>, total: int, cap: nat, pinned: set<nat>): seq<Entry> {
    if s == [] || total <= cap then []
    else if Exempt(s[0], pinned) then Victims(s[1..], total, cap, pinned)
    else [s[0]] + Victims(s[1..], total - s[0].size, cap, pinned)
  }

  /** What the batched loop drops: batch by batch, giving up at a batch that yields nothing. */
  function BatchedVictims(s: seq<Entry>, total: int, cap: nat, pinned: set<nat>): seq<Entry>
    decreases |s|
  {
    if s == [] || total <= cap then []
    else
      var n := if |s| < EVICT_BATCH then |s| else EVICT_BATCH;
      var v := Victims(s[..n], total, cap, pinned);
      if v == [] then [] else v + BatchedVictims(s[n..], total - Sum(v), cap, pinned)
  }

  /** The loop gives up too soon: still over the cap, it meets a whole batch of exempt entries with an
      evictable one behind it. */
  ghost predicate Stalls(s: seq<Entry>, total: int, cap: nat, pinned: set<nat>)
    decreases |s|
  {
    s != [] && total > cap &&
    var n := if |s| < EVICT_BATCH then |s| else EVICT_BATCH;
    if Pinned(s[..n], pinned, false) == [] then Pinned(s[n..], pinned, false) != []
    else Stalls(s[n..], total - Sum(Victims(s[..n], total, cap, pinned)), cap, pinned)
  }

  // ----- sums and filters

  lemma {:induction false} SumConcat(a: seq<Entry>, b: seq<Entry>)
    ensures Sum(a + b) == Sum(a) + Sum(b)
  {
    if a == [] {
      assert a + b == b;
    } else {
      assert (a + b)[1..] == a[1..] + b;
      SumConcat(a[1..], b);
    }
  }

  lemma {:induction false} PinnedConcat(a: seq<Entry>, b: seq<Entry>, pinned: set<nat>, want: bool)
    ensures Pinned(a + b, pinned, want) == Pinned(a, pinned, want) + Pinned(b, pinned, want)
  {
    if a == [] {
      assert a + b == b;
    } else {
      assert (a + b)[1..] == a[1..] + b;
      PinnedConcat(a[1..], b, pinned, want);
    }
  }

  lemma {:induction false} RemoveConcat(a: seq<Entry>, b: seq<Entry>, keys: set<Key>)
    ensures RemoveKeys(a + b, keys) == RemoveKeys(a, keys) + RemoveKeys(b, keys)
  {
    if a == [] {
      assert a + b == b;
    } else {
      assert (a + b)[1..] == a[1..] + b;
      RemoveConcat(a[1..], b, keys);
    }
  }

  lemma {:induction false} RemoveTwice(s: seq<Entry>, a: set<Key>, b: set<Key>)
    ensures RemoveKeys(RemoveKeys(s, a), b) == RemoveKeys(s, a + b)
  {
    if s != [] {
      RemoveTwice(s[1..], a, b);
    }
  }

  lemma {:induction false} RemoveNone(s: seq<Entry>, keys: set<Key>)
    requires Keys(s) !! keys
    ensures RemoveKeys(s, keys) == s
  {
    if s != [] {
      assert s[0].key in Keys(s);
      assert Keys(s[1..]) <= Keys(s);
      RemoveNone(s[1..], keys);
    }
  }

  lemma {:induction false} RemoveMembers(s: seq<Entry>, keys: set<Key>)
    ensures forall e :: e in RemoveKeys(s, keys) <==> e in s && e.key !in keys
  {
    if s != [] {
      RemoveMembers(s[1..], keys);
    }
  }

  lemma {:induction false} PoolOfRemoved(rows: seq<Entry>, keys: set<Key>, kind: Kind)
    ensures Pool(RemoveKeys(rows, keys), kind) == RemoveKeys(Pool(rows, kind), keys)
  {
    if rows != [] {
      PoolOfRemoved(rows[1..], keys, kind);
    }
  }

  lemma {:induction false} PoolMembers(rows: seq<Entry>, kind: Kind)
    ensures forall e :: e in Pool(rows, kind) <==> e in rows && e.key.kind == kind
  {
    if rows != [] {
      PoolMembers(rows[1..], kind);
    }
  }

  /** Filtering keeps keys distinct and entries in order. */
  lemma {:induction false} PoolDistinct(rows: seq<Entry>, kind: Kind)
    requires Distinct(rows)
    ensures Distinct(Pool(rows, kind))
  {
    if rows != [] {
      PoolDistinct(rows[1..], kind);
      PoolMembers(rows[1..], kind);
      assert forall e :: e in rows[1..] ==> e.key != rows[0].key;
    }
  }

  lemma {:induction false} ConsKeepsOrder(e: Entry, s: seq<Entry>)
    requires Distinct(s) && Sorted(s)
    requires forall x :: x in s ==> x.key != e.key && e.at <= x.at
    ensures Distinct([e] + s) && Sorted([e] + s)
  {
  }

  /** A pool is in the order of the rows it is taken from. */
  lemma {:induction false} PoolSorted(rows: seq<Entry>, kind: Kind)
    requires Sorted(rows)
    ensures Sorted(Pool(rows, kind))
  {
    if rows != [] {
      PoolSorted(rows[1..], kind);
      PoolMembers(rows[1..], kind);
      assert forall e :: e in rows[1..] ==> rows[0].at <= e.at;
    }
  }

  lemma {:induction false} RemoveKeepsOrder(s: seq<Entry>, keys: set<Key>)
    requires Distinct(s) && Sorted(s)
    ensures Distinct(RemoveKeys(s, keys)) && Sorted(RemoveKeys(s, keys))
  {
    if s != [] {
      RemoveKeepsOrder(s[1..], keys);
      RemoveMembers(s[1..], keys);
      assert forall e :: e in s[1..] ==> e.key != s[0].key && s[0].at <= e.at;
      ConsKeepsOrder(s[0], RemoveKeys(s[1..], keys));
    }
  }

  // ----- the eviction rule

  /** Victims are entries of the pool and none is pinned. */
  lemma {:induction false} VictimsUnpinned(s: seq<Entry>, total: int, cap: nat, pinned: set<nat>)
    ensures forall e :: e in Victims(s, total, cap, pinned) ==> e in s && !Exempt(e, pinned)
  {
    if s != [] && total > cap {
      VictimsUnpinned(s[1..], if Exempt(s[0], pinned) then total else total - s[0].size, cap, pinned);
    }
  }

  /** They are the unpinned entries of a prefix of the pool, oldest first, and the shortest such that
      reaches the cap: with the last of them still there the pool was over it, and it stays over only when
      nothing unpinned is left. */
  lemma {:induction false} VictimsAreShortestPrefix(s: seq<Entry>, total: int, cap: nat, pinned: set<nat>)
    returns (n: nat)
    ensures n <= |s|
    ensures
      var v := Victims(s, total, cap, pinned);
      && v == Pinned(s[..n], pinned, false)
      && (total - Sum(v) > cap ==> Pinned(s, pinned, false) == v)
      && (v != [] ==> total - Sum(v[..|v| - 1]) > cap)
  {
    if s == [] || total <= cap {
      return 0;
    }
    var exempt := Exempt(s[0], pinned);
    var rest := Victims(s[1..], if exempt then total else total - s[0].size, cap, pinned);
    var m := VictimsAreShortestPrefix(s[1..], if exempt then total else total - s[0].size, cap, pinned);
    n := m + 1;
    assert s[..n][1..] == s[1..][..m];
    if !exempt {
      var v := [s[0]] + rest;
      assert Victims(s, total, cap, pinned) == v && v[1..] == rest;
      if rest != [] {
        assert v[..|v| - 1] == [s[0]] + rest[..|rest| - 1];
        SumConcat([s[0]], rest[..|rest| - 1]);
      }
    }
  }

  /** Over the cap, a stretch without evictable entries yields no victim and any other yields one. */
  lemma {:induction false} VictimsEmpty(s: seq<Entry>, total: int, cap: nat, pinned: set<nat>)
    requires total > cap
    ensures Victims(s, total, cap, pinned) == [] <==> Pinned(s, pinned, false) == []
  {
    if s != [] && Exempt(s[0], pinned) {
      VictimsEmpty(s[1..], total, cap, pinned);
    }
  }

  lemma {:induction false} VictimsSplit(a: seq<Entry>, b: seq<Entry>, total: int, cap: nat, pinned: set<nat>)
    ensures
      var v := Victims(a, total, cap, pinned);
      Victims(a + b, total, cap, pinned) == v + Victims(b, total - Sum(v), cap, pinned)
  {
    if a == [] {
      assert a + b == b;
    } else if total > cap {
      assert (a + b)[1..] == a[1..] + b;
      var exempt := Exempt(a[0], pinned);
      VictimsSplit(a[1..], b, if exempt then total else total - a[0].size, cap, pinned);
    } else {
      assert Victims(b, total, cap, pinned) == [];
    }
  }

  /** The batched loop drops exactly what the rule drops, unless it stalls. */
  lemma {:induction false} BatchedIsExactUnlessStalled(s: seq<Entry>, total: int, cap: nat, pinned: set<nat>)
    ensures BatchedVictims(s, total, cap, pinned) == Victims(s, total, cap, pinned) <==> !Stalls(s, total, cap, pinned)
    decreases |s|
  {
    if s != [] && total > cap {
      var n := if |s| < EVICT_BATCH then |s| else EVICT_BATCH;
      var v := Victims(s[..n], total, cap, pinned);
      assert s == s[..n] + s[n..];
      VictimsSplit(s[..n], s[n..], total, cap, pinned);
      VictimsEmpty(s[..n], total, cap, pinned);
      if v == [] {
        VictimsEmpty(s[n..], total, cap, pinned);
      } else {
        BatchedIsExactUnlessStalled(s[n..], total - Sum(v), cap, pinned);
        var rest, batched := Victims(s[n..], total - Sum(v), cap, pinned), BatchedVictims(s[n..], total - Sum(v), cap, pinned);
        assert (v + rest)[|v|..] == rest && (v + batched)[|v|..] == batched;
      }
    }
  }

  /** Stalled or not, the loop drops the unpinned entries of an oldest-first prefix, and the last of them only
      because the pool was still over the cap with it. */
  lemma {:induction false} BatchedIsPrefix(s: seq<Entry>, total: int, cap: nat, pinned: set<nat>) returns (n: nat)
    ensures n <= |s|
    ensures
      var v := BatchedVictims(s, total, cap, pinned);
      && v == Pinned(s[..n], pinned, false)
      && (v != [] ==> total - Sum(v[..|v| - 1]) > cap)
    decreases |s|
  {
    if s == [] || total <= cap {
      return 0;
    }
    var m := if |s| < EVICT_BATCH then |s| else EVICT_BATCH;
    var v := Victims(s[..m], total, cap, pinned);
    n := VictimsAreShortestPrefix(s[..m], total, cap, pinned);
    assert s[..m][..n] == s[..n];
    if v != [] {
      var rest := BatchedVictims(s[m..], total - Sum(v), cap, pinned);
      var k := BatchedIsPrefix(s[m..], total - Sum(v), cap, pinned);
      if rest == [] {
        assert v + rest == v;
      } else {
        n := m + k;
        assert s[..n] == s[..m] + s[m..][..k];
        PinnedConcat(s[..m], s[m..][..k], pinned, false);
        LastOf(v, rest);
      }
    }
  }

  lemma {:induction false} LastOf(a: seq<Entry>, b: seq<Entry>)
    requires b != []
    ensures Sum((a + b)[..|a + b| - 1]) == Sum(a) + Sum(b[..|b| - 1])
  {
    assert (a + b)[..|a + b| - 1] == a + b[..|b| - 1];
    SumConcat(a, b[..|b| - 1]);
  }

  /** A pool that opens with a batch of pinned entries loses nothing, however far over its cap it is. */
  lemma {:induction false} PinnedBatchStopsEviction(s: seq<Entry>, total: int, cap: nat, pinned: set<nat>)
    requires |s| > EVICT_BATCH && forall i :: 0 <= i < EVICT_BATCH ==> Exempt(s[i], pinned)
    ensures BatchedVictims(s, total, cap, pinned) == []
  {
    if total > cap {
      NoneUnpinned(s[..EVICT_BATCH], pinned);
      VictimsEmpty(s[..EVICT_BATCH], total, cap, pinned);
    }
  }

  lemma {:induction false} NoneUnpinned(s: seq<Entry>, pinned: set<nat>)
    requires forall i :: 0 <= i < |s| ==> Exempt(s[i], pinned)
    ensures Pinned(s, pinned, false) == []
  {
    if s != [] {
      NoneUnpinned(s[1..], pinned);
    }
  }

  /** Of the `EVICT_BATCH` entries from `i` on, one is not pinned. */
  ghost predicate Breaks(s: seq<Entry>, i: nat, pinned: set<nat>) {
    exists j :: i <= j < i + EVICT_BATCH && j < |s| && !Exempt(s[j], pinned)
  }

  /** It cannot stall when no batch-sized stretch of the pool is pinned throughout. */
  lemma {:induction false} NeverStalls(s: seq<Entry>, total: int, cap: nat, pinned: set<nat>)
    requires forall i: nat :: i <= |s| - EVICT_BATCH ==> Breaks(s, i, pinned)
    ensures !Stalls(s, total, cap, pinned)
    decreases |s|
  {
    if s != [] && total > cap {
      if |s| < EVICT_BATCH {
        assert s[|s|..] == [];
      } else {
        var n := EVICT_BATCH;
        assert Breaks(s, 0, pinned);
        var j :| 0 <= j < n && !Exempt(s[j], pinned);
        SomeUnpinned(s[..n], j, pinned);
        forall i: nat | i <= |s[n..]| - EVICT_BATCH ensures Breaks(s[n..], i, pinned) {
          assert Breaks(s, i + n, pinned);
          var k :| i + n <= k < i + n + EVICT_BATCH && k < |s| && !Exempt(s[k], pinned);
          assert s[n..][k - n] == s[k];
        }
        NeverStalls(s[n..], total - Sum(Victims(s[..n], total, cap, pinned)), cap, pinned);
      }
    }
  }

  /** With nothing pinned the loop always reaches the cap. */
  lemma {:induction false} UnpinnedReachesCap(s: seq<Entry>, cap: nat)
    ensures BatchedVictims(s, Sum(s), cap, {}) == Victims(s, Sum(s), cap, {})
    ensures Sum(s) - Sum(BatchedVictims(s, Sum(s), cap, {})) <= cap
  {
    forall i: nat | i <= |s| - EVICT_BATCH ensures Breaks(s, i, {}) {
      assert !Exempt(s[i], {});
    }
    NeverStalls(s, Sum(s), cap, {});
    BatchedIsExactUnlessStalled(s, Sum(s), cap, {});
    var _ := VictimsAreShortestPrefix(s, Sum(s), cap, {});
    AllUnpinned(s);
  }

  lemma {:induction false} AllUnpinned(s: seq<Entry>)
    ensures Pinned(s, {}, false) == s
  {
    if s != [] {
      AllUnpinned(s[1..]);
    }
  }

  lemma {:induction false} SomeUnpinned(s: seq<Entry>, j: nat, pinned: set<nat>)
    requires j < |s| && !Exempt(s[j], pinned)
    ensures Pinned(s, pinned, false) != []
  {
    if j > 0 {
      SomeUnpinned(s[1..], j - 1, pinned);
    }
  }
}
