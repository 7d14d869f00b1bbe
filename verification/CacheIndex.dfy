/** The index as a whole: what it says is cached, how rows enter it, and the shares of the budget. */
module CacheIndex {
  import opened Prelude
  import opened Lru

  function Share(kind: Kind): nat {
    match kind case Blob => 70 case Block => 25 case Thumb => 5
  }

  /** `pool_cap`: a share of the budget, at least one byte; 0 means no cap. */
  function PoolCap(budget: nat, kind: Kind): nat {
    if budget == 0 then 0
    else
      var product := if budget * Share(kind) > U64_MAX then U64_MAX else budget * Share(kind);
      if product / 100 < 1 then 1 else product / 100
  }

  /** The three shares fit into the budget they divide exactly when it is 0 or at least 4 bytes: below
      that, the one-byte minimum of each pool adds up to more. */
  lemma {:induction false} SharesFit(budget: nat)
    ensures PoolCap(budget, Blob) + PoolCap(budget, Block) + PoolCap(budget, Thumb) <= budget
            <==> (budget == 0 || budget >= 4)
  {
    if budget >= 20 {
      var a, b, c := budget * 70, budget * 25, budget * 5;
      assert a + b + c == budget * 100;
    }
  }

  /** Of a budget that is not tiny, blobs may have 70 parts in a hundred, blocks 25 and thumbnails 5, to the byte
      below; of a tiny one, and in each pool, at least one byte. */
  lemma {:induction false} SharesAre(budget: nat)
    requires 0 < budget && budget * 70 <= U64_MAX
    ensures forall kind :: PoolCap(budget, kind) >= 1
    ensures budget >= 2 ==> 100 * PoolCap(budget, Blob) <= 70 * budget < 100 * PoolCap(budget, Blob) + 100
    ensures budget >= 4 ==> 100 * PoolCap(budget, Block) <= 25 * budget < 100 * PoolCap(budget, Block) + 100
    ensures budget >= 20 ==> 100 * PoolCap(budget, Thumb) <= 5 * budget < 100 * PoolCap(budget, Thumb) + 100
  {
  }

  /** What the index says is cached. */
  function Sizes(rows: seq<Entry>): map<Key, nat> {
    if rows == [] then map[] else Sizes(rows[1..])[rows[0].key := rows[0].size]
  }

  /** A thumbnail of a type `evict` knows no file of. */
  predicate Odd(k: Key) { k.kind == Thumb && k.sub != 1 && k.sub != 2 }

  /** Every row is a data file of that size, and every data file has its row, but for odd thumbnails. */
  ghost predicate Indexes(rows: seq<Entry>, data: map<Key, nat>) {
    && (forall k :: k in Sizes(rows) ==> k in data && data[k] == Sizes(rows)[k])
    && (forall k :: k in data && k !in Sizes(rows) ==> Odd(k))
  }

  /** The same rows, perhaps used at other times. */
  ghost predicate Reordered(a: seq<Entry>, b: seq<Entry>) {
    && Sizes(a) == Sizes(b) && Distinct(b) && Sorted(b)
    && forall kind :: Sum(Pool(a, kind)) == Sum(Pool(b, kind))
  }

  /** A row with its last use, if that is still to be written to it. */
  function Touched(e: Entry, touches: map<Key, int>): Entry {
    if e.key in touches then e.(at := touches[e.key]) else e
  }

  /** The rows of a pool with the times they were really last used at, written or not. */
  function EffectivePool(rows: seq<Entry>, touches: map<Key, int>, kind: Kind): set<Entry> {
    set e | e in rows && e.key.kind == kind :: Touched(e, touches)
  }

  /** `b` is `a` with the hits in `touches` written to it: every row has its last use, and the order follows. */
  ghost predicate Retimed(a: seq<Entry>, b: seq<Entry>, touches: map<Key, int>) {
    Reordered(a, b) && forall kind :: EffectivePool(b, map[], kind) == EffectivePool(a, touches, kind)
  }

  /** Rows ordered by time of use; a row used as late as another goes behind it. */
  function Insert(s: seq<Entry>, e: Entry): seq<Entry> {
    if s == [] || e.at < s[0].at then [e] + s else [s[0]] + Insert(s[1..], e)
  }

  /** `cache_touch`: insert, or replace what the key had. */
  function Upsert(rows: seq<Entry>, e: Entry): seq<Entry> {
    Insert(RemoveKeys(rows, {e.key}), e)
  }

  lemma {:induction false} SizesMembers(rows: seq<Entry>)
    ensures forall k :: k in Sizes(rows) <==> k in Keys(rows)
    ensures Distinct(rows) ==> forall e :: e in rows ==> Sizes(rows)[e.key] == e.size
  {
    if rows != [] {
      SizesMembers(rows[1..]);
      assert rows == [rows[0]] + rows[1..];
      assert Keys(rows) == Keys(rows[1..]) + {rows[0].key};
      forall e | Distinct(rows) && e in rows ensures Sizes(rows)[e.key] == e.size {
        var i :| 0 <= i < |rows| && rows[i] == e;
        if i > 0 {
          assert rows[1..][i - 1] == e;
        }
      }
    }
  }

  lemma {:induction false} SizesOfRemoved(rows: seq<Entry>, keys: set<Key>)
    ensures Sizes(RemoveKeys(rows, keys)) == Sizes(rows) - keys
  {
    if rows != [] {
      SizesOfRemoved(rows[1..], keys);
      if rows[0].key in keys {
        assert RemoveKeys(rows, keys) == RemoveKeys(rows[1..], keys);
      } else {
        assert RemoveKeys(rows, keys)[1..] == RemoveKeys(rows[1..], keys);
      }
    }
  }

  lemma {:induction false} InsertMembers(s: seq<Entry>, e: Entry)
    ensures forall x :: x in Insert(s, e) <==> x in s || x == e
  {
    if s != [] && e.at >= s[0].at {
      InsertMembers(s[1..], e);
      assert s == [s[0]] + s[1..];
    }
  }

  lemma {:induction false} InsertKeepsOrder(s: seq<Entry>, e: Entry)
    requires Distinct(s) && Sorted(s) && e.key !in Keys(s)
    ensures Distinct(Insert(s, e)) && Sorted(Insert(s, e))
  {
    if s != [] && e.at >= s[0].at {
      assert forall x :: x in s[1..] ==> x.key != s[0].key && s[0].at <= x.at;
      assert s[0].key in Keys(s) && Keys(s[1..]) <= Keys(s);
      InsertKeepsOrder(s[1..], e);
      InsertMembers(s[1..], e);
      ConsKeepsOrder(s[0], Insert(s[1..], e));
    } else {
      assert forall x :: x in s ==> x.key in Keys(s);
      ConsKeepsOrder(e, s);
    }
  }

  lemma {:induction false} InsertSizes(s: seq<Entry>, e: Entry)
    requires e.key !in Keys(s)
    ensures Sizes(Insert(s, e)) == Sizes(s)[e.key := e.size]
  {
    if s != [] && e.at >= s[0].at {
      assert s[0].key in Keys(s) && Keys(s[1..]) <= Keys(s);
      InsertSizes(s[1..], e);
      assert Insert(s, e)[1..] == Insert(s[1..], e);
    } else {
      assert ([e] + s)[1..] == s;
    }
  }

  lemma {:induction false} PoolSumCons(e: Entry, s: seq<Entry>, kind: Kind)
    ensures Sum(Pool([e] + s, kind)) == (if e.key.kind == kind then e.size else 0) + Sum(Pool(s, kind))
  {
    assert ([e] + s)[1..] == s;
    assert ([e] + Pool(s, kind))[1..] == Pool(s, kind);
  }

  lemma {:induction false} InsertSum(s: seq<Entry>, e: Entry, kind: Kind)
    ensures Sum(Pool(Insert(s, e), kind)) == Sum(Pool(s, kind)) + (if e.key.kind == kind then e.size else 0)
  {
    if s != [] && e.at >= s[0].at {
      InsertSum(s[1..], e, kind);
      assert s == [s[0]] + s[1..];
      PoolSumCons(s[0], s[1..], kind);
      PoolSumCons(s[0], Insert(s[1..], e), kind);
    } else {
      PoolSumCons(e, s, kind);
    }
  }

  /** Removing keys takes from a pool's sum exactly what the index has for them. */
  lemma {:induction false} RemoveOneSum(rows: seq<Entry>, e: Entry, kind: Kind)
    requires Distinct(rows) && e in rows
    ensures Sum(Pool(RemoveKeys(rows, {e.key}), kind)) == Sum(Pool(rows, kind)) - (if e.key.kind == kind then e.size else 0)
  {
    assert rows == [rows[0]] + rows[1..];
    PoolSumCons(rows[0], rows[1..], kind);
    if rows[0] == e {
      assert Keys(rows[1..]) !! {e.key};
      RemoveNone(rows[1..], {e.key});
    } else {
      assert e in rows[1..];
      RemoveOneSum(rows[1..], e, kind);
      assert rows[0].key != e.key;
      PoolSumCons(rows[0], RemoveKeys(rows[1..], {e.key}), kind);
    }
  }

  lemma {:induction false} RemoveShrinksSum(rows: seq<Entry>, keys: set<Key>, kind: Kind)
    ensures Sum(Pool(RemoveKeys(rows, keys), kind)) <= Sum(Pool(rows, kind))
  {
    if rows != [] {
      RemoveShrinksSum(rows[1..], keys, kind);
      assert rows == [rows[0]] + rows[1..];
      PoolSumCons(rows[0], rows[1..], kind);
      if rows[0].key !in keys {
        PoolSumCons(rows[0], RemoveKeys(rows[1..], keys), kind);
      }
    }
  }

  /** An upsert keeps the order, and a pool's sum grows by at most the new size. */
  lemma {:induction false} UpsertKeeps(rows: seq<Entry>, e: Entry)
    requires Distinct(rows) && Sorted(rows)
    ensures Distinct(Upsert(rows, e)) && Sorted(Upsert(rows, e))
    ensures Sizes(Upsert(rows, e)) == Sizes(rows)[e.key := e.size]
    ensures forall kind :: Sum(Pool(Upsert(rows, e), kind)) <= Sum(Pool(rows, kind)) + (if e.key.kind == kind then e.size else 0)
  {
    var rest := RemoveKeys(rows, {e.key});
    RemoveKeepsOrder(rows, {e.key});
    RemoveMembers(rows, {e.key});
    SizesOfRemoved(rows, {e.key});
    InsertKeepsOrder(rest, e);
    InsertSizes(rest, e);
    assert (Sizes(rows) - {e.key})[e.key := e.size] == Sizes(rows)[e.key := e.size];
    forall kind ensures Sum(Pool(Upsert(rows, e), kind)) <= Sum(Pool(rows, kind)) + (if e.key.kind == kind then e.size else 0) {
      RemoveShrinksSum(rows, {e.key}, kind);
      InsertSum(rest, e, kind);
    }
  }

  /** The new row is in, the key's old one is out, and the others are as they were. */
  lemma {:induction false} UpsertMembers(rows: seq<Entry>, e: Entry)
    ensures forall x :: x in Upsert(rows, e) <==> x == e || (x in rows && x.key != e.key)
  {
    RemoveMembers(rows, {e.key});
    InsertMembers(RemoveKeys(rows, {e.key}), e);
  }

  /** One hit written to its row leaves the last uses as they were. */
  lemma {:induction false} RetimeOne(rows: seq<Entry>, e: Entry, touches: map<Key, int>, kind: Kind)
    requires Distinct(rows) && e in rows && e.key in touches
    ensures EffectivePool(Upsert(rows, e.(at := touches[e.key])), touches - {e.key}, kind)
            == EffectivePool(rows, touches, kind)
  {
    var e', now := e.(at := touches[e.key]), Upsert(rows, e.(at := touches[e.key]));
    UpsertMembers(rows, e');
    var less := touches - {e.key};
    forall x | x in rows && x.key.kind == kind ensures Touched(x, touches) in EffectivePool(now, less, kind) {
      var y := if x.key == e.key then e' else x;
      assert x.key == e.key ==> x == e;
      assert y in now && Touched(y, less) == Touched(x, touches);
    }
    forall y | y in now && y.key.kind == kind ensures Touched(y, less) in EffectivePool(rows, touches, kind) {
      var x := if y == e' then e else y;
      assert x in rows && Touched(y, less) == Touched(x, touches);
    }
  }

  lemma {:induction false} RetimeNone(rows: seq<Entry>, key: Key, touches: map<Key, int>, kind: Kind)
    requires key !in Keys(rows)
    ensures EffectivePool(rows, touches - {key}, kind) == EffectivePool(rows, touches, kind)
  {
    forall x | x in rows ensures Touched(x, touches - {key}) == Touched(x, touches) {
      assert x.key in Keys(rows);
    }
  }

  lemma {:induction false} IndexesItself(rows: seq<Entry>)
    ensures Indexes(rows, Sizes(rows))
  {
  }

  lemma {:induction false} IndexesRemoved(rows: seq<Entry>, data: map<Key, nat>, keys: set<Key>)
    requires Indexes(rows, data)
    ensures Indexes(RemoveKeys(rows, keys), data - keys)
  {
    SizesOfRemoved(rows, keys);
  }

  lemma {:induction false} IndexesUpserted(rows: seq<Entry>, data: map<Key, nat>, e: Entry)
    requires Indexes(rows, data) && Distinct(rows) && Sorted(rows)
    ensures Indexes(Upsert(rows, e), data[e.key := e.size])
  {
    UpsertKeeps(rows, e);
  }

  /** Using an entry again moves it and nothing else. */
  lemma {:induction false} ReuseReorders(rows: seq<Entry>, e: Entry, at: int)
    requires Distinct(rows) && Sorted(rows) && e in rows
    ensures Reordered(rows, Upsert(rows, e.(at := at)))
  {
    var e' := e.(at := at);
    UpsertKeeps(rows, e');
    SizesMembers(rows);
    assert Sizes(rows)[e.key := e.size] == Sizes(rows);
    forall kind ensures Sum(Pool(Upsert(rows, e'), kind)) == Sum(Pool(rows, kind)) {
      RemoveOneSum(rows, e, kind);
      InsertSum(RemoveKeys(rows, {e.key}), e', kind);
    }
  }

  // ----- eviction from the index

  /** The keys a budget pass drops from a pool. */
  function Drops(pool: seq<Entry>, cap: nat, pinned: set<nat>): set<Key> {
    if cap == 0 then {} else Keys(BatchedVictims(pool, Sum(pool), cap, pinned))
  }

  function Dropped(rows: seq<Entry>, kind: Kind, cap: nat, pinned: set<nat>): set<Key> {
    Drops(Pool(rows, kind), cap, pinned)
  }

  /** Only unpinned entries of the pool are dropped, and none from a pool within its cap. */
  lemma {:induction false} DropsOnly(pool: seq<Entry>, cap: nat, pinned: set<nat>)
    ensures forall k :: k in Drops(pool, cap, pinned) ==> k in Keys(pool) && k.uid !in pinned
    ensures cap == 0 || Sum(pool) <= cap ==> Drops(pool, cap, pinned) == {}
  {
    if cap != 0 {
      var n := BatchedIsPrefix(pool, Sum(pool), cap, pinned);
      PinnedMembers(pool[..n], pinned, false);
    }
  }

  lemma {:induction false} DroppedOnly(rows: seq<Entry>, kind: Kind, cap: nat, pinned: set<nat>)
    ensures forall k :: k in Dropped(rows, kind, cap, pinned) ==> k in Keys(rows) && k.kind == kind && k.uid !in pinned
    ensures cap == 0 || Sum(Pool(rows, kind)) <= cap ==> Dropped(rows, kind, cap, pinned) == {}
  {
    DropsOnly(Pool(rows, kind), cap, pinned);
    PoolMembers(rows, kind);
  }

  /** A budget pass over a pool, seen from outside: with `pool` its entries in the order of their last use, the
      entries the batched rule drops are gone, and the others are there as they were. */
  ghost predicate PoolPass(before: set<Entry>, after: set<Entry>, pool: seq<Entry>, cap: nat, pinned: set<nat>) {
    && (Drops(pool, cap, pinned) != {} ==> Distinct(pool) && Sorted(pool) && (set e | e in pool) == before)
    && after == set e | e in before && e.key !in Drops(pool, cap, pinned)
  }

  /** So what goes is unpinned, and was last used no later than anything unpinned that stays. */
  lemma {:induction false} PassTakesOldest(before: set<Entry>, after: set<Entry>, pool: seq<Entry>, cap: nat,
                                           pinned: set<nat>, e: Entry, f: Entry)
    requires PoolPass(before, after, pool, cap, pinned)
    requires e in before && e !in after && f in after && !Exempt(f, pinned)
    ensures !Exempt(e, pinned) && e.at <= f.at
  {
    DropsOnly(pool, cap, pinned);
    var n := BatchedIsPrefix(pool, Sum(pool), cap, pinned);
    PinnedMembers(pool[..n], pinned, false);
    assert e in pool && f in pool;
    var i :| 0 <= i < |pool| && pool[i] == e;
    var j :| 0 <= j < |pool| && pool[j] == f;
    forall k | 0 <= k < n && !Exempt(pool[k], pinned) ensures pool[k].key in Drops(pool, cap, pinned) {
      assert pool[..n][k] == pool[k];
    }
    assert i < n by {
      var d :| d in Pinned(pool[..n], pinned, false) && d.key == e.key;
      var k :| 0 <= k < n && pool[..n][k] == d;
      assert pool[k].key == pool[i].key;
    }
  }

  /** And the last of it went only because the pool was over its cap with it. */
  lemma {:induction false} PassTakesNoMore(pool: seq<Entry>, cap: nat, pinned: set<nat>) returns (v: seq<Entry>)
    ensures Keys(v) == Drops(pool, cap, pinned) && (v != [] ==> Sum(pool) - Sum(v[..|v| - 1]) > cap)
  {
    if cap == 0 {
      return [];
    }
    v := BatchedVictims(pool, Sum(pool), cap, pinned);
    var _ := BatchedIsPrefix(pool, Sum(pool), cap, pinned);
  }

  /** What a budget pass over one pool does to all of them. */
  lemma {:induction false} PassOf(rows: seq<Entry>, touches: map<Key, int>, order: seq<Entry>, left: map<Key, int>,
                                  kind: Kind, cap: nat, pinned: set<nat>)
    requires Distinct(order) && Sorted(order)
    requires || (order == rows && left == touches && Dropped(order, kind, cap, pinned) == {})
             || (Retimed(rows, order, touches) && left == map[])
    ensures
      var now := RemoveKeys(order, Dropped(order, kind, cap, pinned));
      && PoolPass(EffectivePool(rows, touches, kind), EffectivePool(now, left, kind), Pool(order, kind), cap, pinned)
      && Sum(Pool(order, kind)) == Sum(Pool(rows, kind))
      && forall k :: k != kind ==>
           && EffectivePool(now, left, k) == EffectivePool(rows, touches, k)
           && Sum(Pool(now, k)) == Sum(Pool(rows, k))
  {
    var gone := Dropped(order, kind, cap, pinned);
    var now := RemoveKeys(order, gone);
    DroppedOnly(order, kind, cap, pinned);
    RemoveMembers(order, gone);
    PoolDistinct(order, kind);
    PoolSorted(order, kind);
    PoolMembers(order, kind);
    EffectiveOfRest(order, left, gone);
    forall k | k != kind ensures Sum(Pool(now, k)) == Sum(Pool(rows, k)) {
      PoolOfRemoved(order, gone, k);
      PoolMembers(order, k);
      RemoveNone(Pool(order, k), gone);
    }
    if gone != {} {
      assert (set e | e in Pool(order, kind)) == EffectivePool(order, map[], kind);
    }
  }

  lemma {:induction false} EffectiveOfRest(rows: seq<Entry>, touches: map<Key, int>, keys: set<Key>)
    ensures forall kind :: EffectivePool(RemoveKeys(rows, keys), touches, kind)
                           == set e | e in EffectivePool(rows, touches, kind) && e.key !in keys
  {
    RemoveMembers(rows, keys);
    forall kind ensures EffectivePool(RemoveKeys(rows, keys), touches, kind)
                        == set e | e in EffectivePool(rows, touches, kind) && e.key !in keys {
      forall e | e in rows && e.key.kind == kind && e.key !in keys
        ensures Touched(e, touches) in EffectivePool(RemoveKeys(rows, keys), touches, kind) {
        assert e in RemoveKeys(rows, keys);
      }
    }
  }

  lemma {:induction false} PinnedMembers(s: seq<Entry>, pinned: set<nat>, want: bool)
    ensures forall e :: e in Pinned(s, pinned, want) <==> e in s && Exempt(e, pinned) == want
  {
    if s != [] {
      PinnedMembers(s[1..], pinned, want);
    }
  }

  lemma {:induction false} PinnedSums(s: seq<Entry>, pinned: set<nat>)
    ensures Sum(Pinned(s, pinned, true)) + Sum(Pinned(s, pinned, false)) == Sum(s)
  {
    if s != [] {
      PinnedSums(s[1..], pinned);
    }
  }

  /** With the unpinned entries of a prefix gone, the pinned ones stay in front of the rest. */
  lemma {:induction false} PrefixEvicted(s: seq<Entry>, n: nat, pinned: set<nat>)
    requires Distinct(s) && n <= |s|
    ensures RemoveKeys(s, Keys(Pinned(s[..n], pinned, false))) == Pinned(s[..n], pinned, true) + s[n..]
  {
    var keys := Keys(Pinned(s[..n], pinned, false));
    assert s == s[..n] + s[n..];
    RemoveConcat(s[..n], s[n..], keys);
    PinnedMembers(s[..n], pinned, false);
    assert Keys(s[n..]) !! keys by {
      forall e, f | e in s[n..] && f in s[..n] ensures e.key != f.key {
        var i :| 0 <= i < |s[n..]| && s[n..][i] == e;
        var j :| 0 <= j < n && s[j] == f;
        assert s[i + n] == e;
      }
    }
    RemoveNone(s[n..], keys);
    RemoveUnpinned(s[..n], pinned, keys);
  }

  lemma {:induction false} RemoveUnpinned(s: seq<Entry>, pinned: set<nat>, keys: set<Key>)
    requires Distinct(s)
    requires forall e :: e in s ==> (e.key in keys <==> !Exempt(e, pinned))
    ensures RemoveKeys(s, keys) == Pinned(s, pinned, true)
  {
    if s != [] {
      RemoveUnpinned(s[1..], pinned, keys);
    }
  }

  /** One more entry of a batch. */
  lemma {:induction false} VictimsStep(s: seq<Entry>, i: nat, total: int, cap: nat, pinned: set<nat>)
    requires i <= |s|
    ensures
      var v := Victims(s[..i], total, cap, pinned);
      var left := total - Sum(v);
      && (left <= cap || i == |s| ==> Victims(s, total, cap, pinned) == v)
      && (i < |s| ==>
            && Victims(s[..i + 1], total, cap, pinned) == (if left <= cap || Exempt(s[i], pinned) then v else v + [s[i]])
            && Pinned(s[..i + 1], pinned, true) == Pinned(s[..i], pinned, true) + (if Exempt(s[i], pinned) then [s[i]] else []))
  {
    assert s == s[..i] + s[i..];
    VictimsSplit(s[..i], s[i..], total, cap, pinned);
    if i < |s| {
      assert s[..i + 1] == s[..i] + [s[i]];
      VictimsSplit(s[..i], [s[i]], total, cap, pinned);
      PinnedConcat(s[..i], [s[i]], pinned, true);
    }
  }

  function Batch(s: seq<Entry>): seq<Entry> {
    if |s| < EVICT_BATCH then s else s[..EVICT_BATCH]
  }

  /** One batch of the loop, whose first `n` entries are dealt with: how far it gets, and that it takes
      what the batched rule takes. */
  lemma {:induction false} NextBatch(all: seq<Entry>, n: nat, running: nat, cap: nat, pinned: set<nat>) returns (n': nat)
    requires n < |all| && running > cap && running == Sum(all) - Sum(Pinned(all[..n], pinned, false))
    ensures
      var batch := Batch(all[n..]);
      var w := Victims(batch, running, cap, pinned);
      && n <= n' <= |all| && Sum(batch) <= running && (w != [] ==> n < n')
      && Pinned(all[..n'], pinned, false) == Pinned(all[..n], pinned, false) + w
      && (w == [] ==> BatchedVictims(all[n..], running, cap, pinned) == [])
      && (w != [] ==> BatchedVictims(all[n..], running, cap, pinned)
                      == w + BatchedVictims(all[n'..], running - Sum(w), cap, pinned))
      && (running - Sum(w) > cap ==>
            Pinned(all[..n'], pinned, true) == Pinned(all[..n], pinned, true) + Pinned(batch, pinned, true))
  {
    var k := VictimsPrefix(Batch(all[n..]), running, cap, pinned);
    n' := n + k;
    PinnedPast(all, n, k, pinned, false);
    PinnedPast(all, n, k, pinned, true);
    BatchSum(all, n, pinned);
    BatchedGoesOn(all, n, k, running, cap, pinned);
    WholePrefix(Batch(all[n..]), k);
  }

  lemma {:induction false} WholePrefix(s: seq<Entry>, k: nat)
    requires k <= |s|
    ensures k == |s| ==> s[..k] == s
  {
  }

  lemma {:induction false} PinnedPast(all: seq<Entry>, n: nat, k: nat, pinned: set<nat>, want: bool)
    requires n < |all| && k <= |Batch(all[n..])|
    ensures Pinned(all[..n + k], pinned, want) == Pinned(all[..n], pinned, want) + Pinned(Batch(all[n..])[..k], pinned, want)
  {
    assert all[..n + k] == all[..n] + Batch(all[n..])[..k];
    PinnedConcat(all[..n], Batch(all[n..])[..k], pinned, want);
  }

  lemma {:induction false} BatchedGoesOn(all: seq<Entry>, n: nat, k: nat, running: int, cap: nat, pinned: set<nat>)
    requires n < |all| && running > cap && k <= |Batch(all[n..])|
    requires running - Sum(Victims(Batch(all[n..]), running, cap, pinned)) > cap ==> k == |Batch(all[n..])|
    ensures
      var w := Victims(Batch(all[n..]), running, cap, pinned);
      && (w == [] ==> BatchedVictims(all[n..], running, cap, pinned) == [])
      && (w != [] ==> BatchedVictims(all[n..], running, cap, pinned)
                      == w + BatchedVictims(all[n + k..], running - Sum(w), cap, pinned))
  {
    BatchedUnfolds(all[n..], running, cap, pinned);
    assert all[n..][|Batch(all[n..])|..] == all[n + |Batch(all[n..])|..];
  }

  lemma {:induction false} BatchedUnfolds(s: seq<Entry>, total: int, cap: nat, pinned: set<nat>)
    requires s != [] && total > cap
    ensures
      var w := Victims(Batch(s), total, cap, pinned);
      var left := total - Sum(w);
      && (w == [] ==> BatchedVictims(s, total, cap, pinned) == [])
      && (w != [] ==> BatchedVictims(s, total, cap, pinned)
                      == w + if left <= cap then [] else BatchedVictims(s[|Batch(s)|..], left, cap, pinned))
  {
    assert s[..|Batch(s)|] == Batch(s);
  }

  /** How far into a batch its victims reach: all of it, if the cap is not reached. */
  lemma {:induction false} VictimsPrefix(batch: seq<Entry>, running: int, cap: nat, pinned: set<nat>) returns (k: nat)
    ensures
      var w := Victims(batch, running, cap, pinned);
      && k <= |batch| && w == Pinned(batch[..k], pinned, false) && (w != [] ==> k > 0)
      && (running - Sum(w) > cap ==> k == |batch|)
  {
    k := VictimsAreShortestPrefix(batch, running, cap, pinned);
    if running - Sum(Victims(batch, running, cap, pinned)) > cap {
      k := |batch|;
      assert batch[..k] == batch;
    }
  }

  lemma {:induction false} BatchSum(all: seq<Entry>, n: nat, pinned: set<nat>)
    requires n < |all|
    ensures Sum(Batch(all[n..])) <= Sum(all) - Sum(Pinned(all[..n], pinned, false))
  {
    var batch := Batch(all[n..]);
    var rest := all[n + |batch|..];
    assert all == all[..n] + (batch + rest);
    SumConcat(all[..n], batch + rest);
    SumConcat(batch, rest);
    PinnedSums(all[..n], pinned);
  }
}
