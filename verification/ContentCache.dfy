/** The budgeted content cache: files in three directories, the index that describes them, and the running
    totals that spare most stores a query. */
module ContentCache {
  import opened Prelude
  import opened Lru
  import opened CacheIndex
  import opened CacheDirectory

  const TOUCH_FLUSH_AT := 256

  class Cache {
    /** Size of each data file, the files' tags, and temporary files of stores that never finished. */
    var data: map<Key, nat>
    var tags: set<Key>
    var temps: set<Key>
    var rows: seq<Entry>
    var touches: map<Key, int>
    var blobBytes: nat
    var blockBytes: nat
    var thumbBytes: nat
    var maxBytes: nat
    var pinned: set<nat>

    function Total(kind: Kind): nat
      reads this
    {
      match kind case Blob => blobBytes case Block => blockBytes case Thumb => thumbBytes
    }

    /** The index describes the disk. */
    ghost predicate Agrees()
      reads this
    {
      Distinct(rows) && Sorted(rows) && Indexes(rows, data) && tags <= data.Keys && temps == {}
    }

    /** No running total is below what the index holds. */
    ghost predicate Covered()
      reads this
    {
      forall kind :: Sum(Pool(rows, kind)) <= Total(kind)
    }

    ghost predicate Valid()
      reads this
    {
      Agrees() && Covered()
    }

    /** The pool is within its share of the budget, by its running total. */
    predicate Within(kind: Kind)
      reads this
    {
      maxBytes != 0 ==> Total(kind) <= PoolCap(maxBytes, kind)
    }

    constructor (data: map<Key, nat>, tags: set<Key>, temps: set<Key>, rows: seq<Entry>, budget: nat, pinned: set<nat>)
      requires Distinct(rows) && Sorted(rows) && Sizes(rows) == data && tags <= data.Keys && temps == {}
      ensures Valid() && this.data == data && this.tags == tags && this.temps == temps && this.rows == rows
      ensures forall kind :: Total(kind) == Sum(Pool(rows, kind))
      ensures maxBytes == budget && this.pinned == pinned && touches == map[]
    {
      this.data, this.tags, this.temps, this.rows := data, tags, temps, rows;
      this.touches, this.maxBytes, this.pinned := map[], budget, pinned;
      this.blobBytes := Sum(Pool(rows, Blob));
      this.blockBytes := Sum(Pool(rows, Block));
      this.thumbBytes := Sum(Pool(rows, Thumb));
      IndexesItself(rows);
    }

    /** `reseed_totals`. */
    method ReseedTotals()
      modifies `blobBytes, `blockBytes, `thumbBytes
      ensures forall kind :: Total(kind) == Sum(Pool(rows, kind))
    {
      blobBytes := Sum(Pool(rows, Blob));
      blockBytes := Sum(Pool(rows, Block));
      thumbBytes := Sum(Pool(rows, Thumb));
    }

    /** `touch`: a hit to be recorded later, or now if enough have gathered. */
    method Touch(key: Key, now: int)
      requires Agrees()
      modifies `touches, `rows
      ensures Agrees()
      ensures if |old(touches)[key := now]| < TOUCH_FLUSH_AT then touches == old(touches)[key := now] && rows == old(rows)
              else touches == map[] && Retimed(old(rows), rows, old(touches)[key := now])
    {
      touches := touches[key := now];
      if |touches| >= TOUCH_FLUSH_AT {
        FlushTouches();
      }
    }

    /** `flush_touches`: every row that was hit gets the time of its last hit, rows move in the order
        accordingly, and nothing else changes. */
    method FlushTouches()
      requires Agrees()
      modifies `touches, `rows
      ensures Agrees() && touches == map[] && Retimed(old(rows), rows, old(touches))
    {
      var todo := touches.Keys;
      ghost var left := touches;
      while todo != {}
        invariant todo == left.Keys && todo <= touches.Keys && forall k :: k in left ==> left[k] == touches[k]
        invariant touches == old(touches) && Agrees() && Reordered(old(rows), rows)
        invariant forall kind :: EffectivePool(rows, left, kind) == EffectivePool(old(rows), old(touches), kind)
      {
        var k :| k in todo;
        left := WriteHit(k, touches[k], left);
        todo := todo - {k};
      }
      assert left == map[];
      touches := map[];
    }

    /** One hit of the batch; a missing row is left missing. */
    method WriteHit(key: Key, at: int, ghost left: map<Key, int>) returns (ghost less: map<Key, int>)
      requires Agrees() && key in left && left[key] == at
      modifies `rows
      ensures Agrees() && Reordered(old(rows), rows) && less == left - {key}
      ensures forall kind :: EffectivePool(rows, less, kind) == EffectivePool(old(rows), left, kind)
    {
      less := left - {key};
      var e := Find(key);
      if e.Some? {
        forall kind ensures EffectivePool(Upsert(rows, e.value.(at := at)), less, kind) == EffectivePool(rows, left, kind) {
          RetimeOne(rows, e.value, left, kind);
        }
        ReuseReorders(rows, e.value, at);
        rows := Upsert(rows, e.value.(at := at));
      } else {
        forall kind ensures EffectivePool(rows, less, kind) == EffectivePool(rows, left, kind) {
          RetimeNone(rows, key, left, kind);
        }
      }
    }

    method Find(key: Key) returns (e: Option<Entry>)
      ensures e.Some? ==> e.value in rows && e.value.key == key
      ensures e.None? ==> key !in Keys(rows)
    {
      for i := 0 to |rows|
        invariant forall j :: 0 <= j < i ==> rows[j].key != key
      {
        if rows[i].key == key {
          return Some(rows[i]);
        }
      }
      return None;
    }

    /** Removes an entry: data file, tag, row. */
    method Forget(key: Key)
      requires Agrees()
      modifies `data, `tags, `rows
      ensures Agrees() && rows == RemoveKeys(old(rows), {key}) && data == old(data) - {key}
      ensures tags == old(tags) - {key}
    {
      RemoveKeepsOrder(rows, {key});
      IndexesRemoved(rows, data, {key});
      data, tags, rows := data - {key}, tags - {key}, RemoveKeys(rows, {key});
    }

    /** One batch of the eviction loop, oldest first. */
    method EvictBatch(todo: seq<Entry>, pins: set<nat>, cap: nat, running: nat)
      returns (left: nat, exempt: nat, evicted: bool)
      requires Agrees() && Sum(todo) <= running
      modifies `data, `tags, `rows
      ensures Agrees()
      ensures
        var v := Victims(todo, running, cap, pins);
        && rows == RemoveKeys(old(rows), Keys(v)) && data == old(data) - Keys(v) && tags == old(tags) - Keys(v)
        && left == running - Sum(v) && (evicted <==> v != [])
      ensures left > cap ==> exempt == |Pinned(todo, pins, true)|
    {
      left, exempt, evicted := running, 0, false;
      ghost var v: seq<Entry> := [];
      assert Keys(v) == {};
      RemoveNone(rows, {});
      var i := 0;
      while i < |todo| && left > cap
        invariant 0 <= i <= |todo| && Agrees() && Sum(todo[i..]) <= left
        invariant v == Victims(todo[..i], running, cap, pins) && left == running - Sum(v)
        invariant rows == RemoveKeys(old(rows), Keys(v)) && data == old(data) - Keys(v) && (evicted <==> v != [])
        invariant exempt == |Pinned(todo[..i], pins, true)| && tags == old(tags) - Keys(v)
      {
        VictimsStep(todo, i, running, cap, pins);
        assert todo[i..][1..] == todo[i + 1..];
        if Exempt(todo[i], pins) {
          exempt := exempt + 1;
        } else {
          ForgetVictim(todo[i], v, old(rows), old(data), old(tags));
          left, evicted, v := left - todo[i].size, true, v + [todo[i]];
        }
        i := i + 1;
      }
      VictimsStep(todo, i, running, cap, pins);
      assert i == |todo| ==> todo[..i] == todo;
    }

    method ForgetVictim(e: Entry, ghost v: seq<Entry>, ghost start: seq<Entry>, ghost files: map<Key, nat>,
                        ghost marks: set<Key>)
      requires Agrees() && rows == RemoveKeys(start, Keys(v)) && data == files - Keys(v) && tags == marks - Keys(v)
      modifies `data, `tags, `rows
      ensures Agrees() && rows == RemoveKeys(start, Keys(v + [e]))
      ensures data == files - Keys(v + [e]) && tags == marks - Keys(v + [e])
      ensures Sum(v + [e]) == Sum(v) + e.size
    {
      SumConcat(v, [e]);
      RemoveTwice(start, Keys(v), {e.key});
      assert Keys(v + [e]) == Keys(v) + {e.key};
      MinusTwice(files, Keys(v), {e.key});
      Forget(e.key);
    }

    /** The candidates of the next batch, past those skipped as exempt. */
    method FetchPast(kind: Kind, skipped: nat, ghost cap: nat, ghost pins: set<nat>, ghost running: int,
                     ghost all: seq<Entry>, ghost start: seq<Entry>, ghost n: nat)
      returns (todo: seq<Entry>)
      requires all == Pool(start, kind) && Distinct(all)
      requires Evicting(rows, all, start, n, running, cap, pins) && skipped == |Pinned(all[..n], pins, true)|
      ensures todo == Batch(all[n..])
    {
      EvictingPool(rows, all, start, kind, n, running, cap, pins);
      var pool := Pool(rows, kind);
      FetchBatch(pool, Pinned(all[..n], pins, true), all[n..]);
      var batch := Fetch(pool, skipped + EVICT_BATCH);
      if |batch| <= skipped {
        return [];
      }
      return batch[skipped..];
    }

    /** One round of the eviction loop: fetch a batch past what was skipped, and work through it. */
    method EvictNext(kind: Kind, cap: nat, pins: set<nat>, running: nat, skipped: nat,
                     ghost all: seq<Entry>, ghost start: seq<Entry>, ghost files: map<Key, nat>, ghost marks: set<Key>,
                     ghost n: nat)
      returns (left: nat, skips: nat, more: bool, ghost n': nat)
      requires Agrees() && running > cap && all == Pool(start, kind) && Distinct(all)
      requires Evicting(rows, all, start, n, running, cap, pins) && skipped == |Pinned(all[..n], pins, true)|
      requires data == files - Keys(Pinned(all[..n], pins, false)) && tags == marks - Keys(Pinned(all[..n], pins, false))
      modifies `data, `tags, `rows
      ensures Agrees() && n <= n' <= |all| && Evicting(rows, all, start, n', left, cap, pins)
      ensures data == files - Keys(Pinned(all[..n'], pins, false)) && tags == marks - Keys(Pinned(all[..n'], pins, false))
      ensures more ==> n < n' && (left > cap ==> skips == |Pinned(all[..n'], pins, true)|)
      ensures !more ==> BatchedVictims(all[n'..], left, cap, pins) == []
    {
      var todo := FetchPast(kind, skipped, cap, pins, running, all, start, n);
      if todo == [] {
        return running, skipped, false, n;
      }
      left, skips, more, n' := EvictTodo(todo, cap, pins, running, all, start, files, marks, n);
      skips := skips + skipped;
    }

    method EvictTodo(todo: seq<Entry>, cap: nat, pins: set<nat>, running: nat,
                     ghost all: seq<Entry>, ghost start: seq<Entry>, ghost files: map<Key, nat>, ghost marks: set<Key>,
                     ghost n: nat)
      returns (left: nat, skips: nat, more: bool, ghost n': nat)
      requires Agrees() && running > cap && n < |all| && todo == Batch(all[n..])
      requires Evicting(rows, all, start, n, running, cap, pins)
      requires data == files - Keys(Pinned(all[..n], pins, false)) && tags == marks - Keys(Pinned(all[..n], pins, false))
      modifies `data, `tags, `rows
      ensures Agrees() && n <= n' <= |all| && Evicting(rows, all, start, n', left, cap, pins)
      ensures data == files - Keys(Pinned(all[..n'], pins, false)) && tags == marks - Keys(Pinned(all[..n'], pins, false))
      ensures more ==>
                && n < n'
                && (left > cap ==> |Pinned(all[..n], pins, true)| + skips == |Pinned(all[..n'], pins, true)|)
      ensures !more ==> BatchedVictims(all[n'..], left, cap, pins) == []
    {
      ghost var w;
      n', w := EvictingAdvances(rows, all, start, n, running, cap, pins);
      left, skips, more := EvictBatch(todo, pins, cap, running);
      BatchDone(old(rows), all, start, n, n', running, w, cap, pins, rows, left);
      FilesDone(all, files, marks, n, n', w, pins);
    }

    /** The loop of `enforce_pool`, once the pool is known to be over its cap and the hits are flushed. */
    method EvictPool(kind: Kind, cap: nat, pins: set<nat>)
      requires Agrees() && cap != 0
      modifies `data, `tags, `rows
      ensures Agrees() && rows == RemoveKeys(old(rows), Dropped(old(rows), kind, cap, pins))
      ensures data == old(data) - Dropped(old(rows), kind, cap, pins)
      ensures tags == old(tags) - Dropped(old(rows), kind, cap, pins)
      ensures Sum(Pool(rows, kind)) == Sum(Pool(old(rows), kind))
                - Sum(BatchedVictims(Pool(old(rows), kind), Sum(Pool(old(rows), kind)), cap, pins))
    {
      ghost var all, n := Pool(rows, kind), 0;
      var running, skipped, more := Sum(Pool(rows, kind)), 0, true;
      assert Keys([]) == {};
      RemoveNone(rows, {});
      PoolDistinct(rows, kind);
      while running > cap && more
        invariant Agrees() && Evicting(rows, all, old(rows), n, running, cap, pins)
        invariant data == old(data) - Keys(Pinned(all[..n], pins, false))
        invariant tags == old(tags) - Keys(Pinned(all[..n], pins, false))
        invariant running > cap && more ==> skipped == |Pinned(all[..n], pins, true)|
        invariant !more ==> BatchedVictims(all[n..], running, cap, pins) == []
        decreases |all| - n, more
      {
        running, skipped, more, n := EvictNext(kind, cap, pins, running, skipped, all, old(rows), old(data), old(tags), n);
      }
      assert Pinned(all[..n], pins, false) + [] == Pinned(all[..n], pins, false);
      EvictingSum(rows, all, old(rows), kind, n, running, cap, pins);
    }

    /** `enforce_pool`. Whether or not its fast path is taken, it drops from the pool what the batched rule
        drops from the index. Past the fast path, the order it goes by is that of the last use. */
    method EnforcePool(kind: Kind, pins: set<nat>) returns (ghost order: seq<Entry>)
      requires Valid()
      modifies `data, `tags, `rows, `touches, `blobBytes, `blockBytes, `thumbBytes
      ensures Valid() && Reordered(old(rows), order)
      ensures rows == RemoveKeys(order, Dropped(order, kind, PoolCap(maxBytes, kind), pins))
      ensures data == old(data) - Dropped(order, kind, PoolCap(maxBytes, kind), pins) && tags == old(tags) * data.Keys
      ensures if PoolCap(maxBytes, kind) == 0 || old(Total(kind)) <= PoolCap(maxBytes, kind) then
                && order == old(rows) && touches == old(touches) && (forall k :: Total(k) == old(Total(k)))
                && Dropped(order, kind, PoolCap(maxBytes, kind), pins) == {}
              else
                && Retimed(old(rows), order, old(touches)) && touches == map[]
                && (forall k :: Total(k) == Sum(Pool(rows, k)) <= old(Total(k)))
      ensures pins == {} ==> Within(kind)
    {
      order := rows;
      var cap := PoolCap(maxBytes, kind);
      if cap == 0 || Total(kind) <= cap {
        DroppedOnly(rows, kind, cap, pins);
        RemoveNone(rows, {});
        return;
      }
      order := Reduce(kind, cap, pins);
    }

    /** The rest of `enforce_pool`: the hits are written, the pool is evicted from, the totals read again. */
    method Reduce(kind: Kind, cap: nat, pins: set<nat>) returns (ghost order: seq<Entry>)
      requires Valid() && cap != 0
      modifies `data, `tags, `rows, `touches, `blobBytes, `blockBytes, `thumbBytes
      ensures Valid() && Retimed(old(rows), order, old(touches)) && touches == map[]
      ensures rows == RemoveKeys(order, Dropped(order, kind, cap, pins))
      ensures data == old(data) - Dropped(order, kind, cap, pins) && tags == old(tags) * data.Keys
      ensures forall k :: Total(k) == Sum(Pool(rows, k)) <= old(Total(k))
      ensures pins == {} ==> Total(kind) <= cap
    {
      FlushTouches();
      order := rows;
      EvictPool(kind, cap, pins);
      forall k ensures Sum(Pool(rows, k)) <= Sum(Pool(order, k)) {
        RemoveShrinksSum(order, Dropped(order, kind, cap, pins), k);
      }
      UnpinnedReachesCap(Pool(order, kind), cap);
      ReseedTotals();
    }

    /** A stored file enters the index and the running total. */
    method Register(key: Key, size: nat, now: int)
      requires Valid()
      modifies `data, `tags, `rows, `blobBytes, `blockBytes, `thumbBytes
      ensures Valid() && rows == Upsert(old(rows), Entry(key, size, now)) && data == old(data)[key := size]
      ensures forall kind :: Total(kind) == old(Total(kind)) + if kind == key.kind then size else 0
      ensures tags == old(tags) + {key}
    {
      UpsertKeeps(rows, Entry(key, size, now));
      IndexesUpserted(rows, data, Entry(key, size, now));
      data, tags := data[key := size], tags + {key};
      rows := Upsert(rows, Entry(key, size, now));
      match key.kind {
        case Blob => blobBytes := blobBytes + size;
        case Block => blockBytes := blockBytes + size;
        case Thumb => thumbBytes := thumbBytes + size;
      }
    }

    /** A store that succeeds: file and tag in place, row upserted, total advanced, pool enforced. */
    method Store(key: Key, size: nat, now: int) returns (ghost order: seq<Entry>)
      requires Valid()
      modifies `data, `tags, `rows, `touches, `blobBytes, `blockBytes, `thumbBytes
      ensures Valid() && Reordered(Upsert(old(rows), Entry(key, size, now)), order)
      ensures rows == RemoveKeys(order, Dropped(order, key.kind, PoolCap(maxBytes, key.kind), Exemptions(key.kind)))
      ensures data == old(data)[key := size] - Dropped(order, key.kind, PoolCap(maxBytes, key.kind), Exemptions(key.kind))
      ensures tags == (old(tags) + {key}) * data.Keys
      ensures if PoolCap(maxBytes, key.kind) == 0 || old(Total(key.kind)) + size <= PoolCap(maxBytes, key.kind) then
                order == Upsert(old(rows), Entry(key, size, now)) && touches == old(touches)
              else Retimed(Upsert(old(rows), Entry(key, size, now)), order, old(touches)) && touches == map[]
      ensures Exemptions(key.kind) == {} ==> Within(key.kind)
      ensures forall kind :: kind != key.kind ==> Total(kind) <= old(Total(kind))
      ensures forall k :: k in old(data) && Protected(k) ==> k in data && (k == key || data[k] == old(data)[k])
    {
      Register(key, size, now);
      order := EnforcePool(key.kind, Exemptions(key.kind));
      DroppedOnly(order, key.kind, PoolCap(maxBytes, key.kind), Exemptions(key.kind));
    }

    /** The whole-file blob of a pinned uid. */
    predicate Protected(k: Key)
      reads this
    {
      k.kind == Blob && k.uid in pinned
    }

    /** Pinned uids exempt their whole-file blobs, and nothing else. */
    function Exemptions(kind: Kind): set<nat>
      reads this
    {
      if kind == Blob then pinned else {}
    }

    /** `set_budget`. Every pool goes through one pass, in the order of last use; pinned blobs stay, and so does
        all of a pool that is within its share. Pins never exempt blocks and thumbnails. */
    method SetBudget(bytes: nat) returns (ghost blobs: seq<Entry>, ghost blocks: seq<Entry>, ghost thumbs: seq<Entry>)
      requires Valid()
      modifies this
      ensures Valid() && maxBytes == bytes && pinned == old(pinned)
      ensures Passed(old(rows), old(touches), Blob, blobs, PoolCap(bytes, Blob), pinned)
      ensures Passed(old(rows), old(touches), Block, blocks, PoolCap(bytes, Block), {})
      ensures Passed(old(rows), old(touches), Thumb, thumbs, PoolCap(bytes, Thumb), {})
      ensures data == old(data) - Drops(blobs, PoolCap(bytes, Blob), pinned)
                      - Drops(blocks, PoolCap(bytes, Block), {}) - Drops(thumbs, PoolCap(bytes, Thumb), {})
      ensures tags == old(tags) * data.Keys
      ensures forall k :: k in old(data) && Protected(k) ==> k in data && data[k] == old(data)[k]
      ensures forall kind :: WithinShare(old(rows), kind) ==>
                EffectivePool(rows, touches, kind) == EffectivePool(old(rows), old(touches), kind)
      ensures Within(Block) && Within(Thumb) && (pinned == {} ==> Within(Blob))
    {
      maxBytes := bytes;
      blobs := PassPool(Blob);
      blocks, thumbs := PassUnpinned();
    }

    /** The two pools no pin exempts from. */
    method PassUnpinned() returns (ghost blocks: seq<Entry>, ghost thumbs: seq<Entry>)
      requires Valid()
      modifies `data, `tags, `rows, `touches, `blobBytes, `blockBytes, `thumbBytes
      ensures Valid() && tags == old(tags) * data.Keys
      ensures Passed(old(rows), old(touches), Block, blocks, PoolCap(maxBytes, Block), {})
      ensures Passed(old(rows), old(touches), Thumb, thumbs, PoolCap(maxBytes, Thumb), {})
      ensures EffectivePool(rows, touches, Blob) == EffectivePool(old(rows), old(touches), Blob)
      ensures data == old(data) - Drops(blocks, PoolCap(maxBytes, Block), {}) - Drops(thumbs, PoolCap(maxBytes, Thumb), {})
      ensures forall k :: k in old(data) && k.kind == Blob ==> k in data && data[k] == old(data)[k]
      ensures forall kind :: kind != Blob && WithinShare(old(rows), kind) ==>
                EffectivePool(rows, touches, kind) == EffectivePool(old(rows), old(touches), kind)
      ensures Within(Block) && Within(Thumb) && Total(Blob) <= old(Total(Blob))
    {
      blocks := PassPool(Block);
      thumbs := PassPool(Thumb);
    }

    /** By the index, the pool is within its share, or there is no limit. */
    predicate WithinShare(rows: seq<Entry>, kind: Kind)
      reads this
    {
      maxBytes == 0 || Sum(Pool(rows, kind)) <= PoolCap(maxBytes, kind)
    }

    /** The pool has gone through one budget pass since the rows and hits were `rows0` and `touches0`. */
    ghost predicate Passed(rows0: seq<Entry>, touches0: map<Key, int>, kind: Kind, pool: seq<Entry>, cap: nat, pins: set<nat>)
      reads this
    {
      && PoolPass(EffectivePool(rows0, touches0, kind), EffectivePool(rows, touches, kind), pool, cap, pins)
      && Sum(pool) == Sum(Pool(rows0, kind))
    }

    /** The enforcement of one pool, as all three see it. */
    method PassPool(kind: Kind) returns (ghost pool: seq<Entry>)
      requires Valid()
      modifies `data, `tags, `rows, `touches, `blobBytes, `blockBytes, `thumbBytes
      ensures Valid() && Passed(old(rows), old(touches), kind, pool, PoolCap(maxBytes, kind), Exemptions(kind))
      ensures forall k :: k != kind ==>
                && EffectivePool(rows, touches, k) == EffectivePool(old(rows), old(touches), k)
                && Sum(Pool(rows, k)) == Sum(Pool(old(rows), k))
      ensures data == old(data) - Drops(pool, PoolCap(maxBytes, kind), Exemptions(kind)) && tags == old(tags) * data.Keys
      ensures forall k :: k in old(data) && (k.kind != kind || Protected(k)) ==> k in data && data[k] == old(data)[k]
      ensures WithinShare(old(rows), kind) ==>
                EffectivePool(rows, touches, kind) == EffectivePool(old(rows), old(touches), kind)
      ensures forall k :: Total(k) <= old(Total(k))
      ensures Exemptions(kind) == {} ==> Within(kind)
    {
      ghost var order := EnforcePool(kind, Exemptions(kind));
      pool := Pool(order, kind);
      PassOf(old(rows), old(touches), order, touches, kind, PoolCap(maxBytes, kind), Exemptions(kind));
      DroppedOnly(order, kind, PoolCap(maxBytes, kind), Exemptions(kind));
    }

    method Pin(uid: nat)
      requires Valid()
      modifies `pinned
      ensures Valid() && pinned == old(pinned) + {uid}
    {
      pinned := pinned + {uid};
    }

    method Unpin(uid: nat)
      requires Valid()
      modifies `pinned
      ensures Valid() && pinned == old(pinned) - {uid}
    {
      pinned := pinned - {uid};
    }

    /** `usage`. With every pool within its share it is within the whole budget, for every budget the shares fit. */
    method Usage() returns (bytes: nat)
      ensures bytes == Total(Blob) + Total(Block) + Total(Thumb)
      ensures Within(Blob) && Within(Block) && Within(Thumb) && maxBytes >= 4 ==> bytes <= maxBytes
    {
      SharesFit(maxBytes);
      bytes := blobBytes + blockBytes + thumbBytes;
    }

    /** Removes entries one after the other. */
    method ForgetAll(entries: seq<Entry>) returns (freed: nat)
      requires Agrees()
      modifies `data, `tags, `rows
      ensures Agrees() && rows == RemoveKeys(old(rows), Keys(entries)) && freed == Sum(entries)
      ensures data == old(data) - Keys(entries) && tags == old(tags) - Keys(entries)
    {
      freed := 0;
      ghost var done: seq<Entry> := [];
      assert Keys(done) == {};
      RemoveNone(rows, {});
      for i := 0 to |entries|
        invariant done == entries[..i] && Agrees() && freed == Sum(done)
        invariant rows == RemoveKeys(old(rows), Keys(done)) && data == old(data) - Keys(done)
        invariant tags == old(tags) - Keys(done)
      {
        ForgetVictim(entries[i], done, old(rows), old(data), old(tags));
        freed, done := freed + entries[i].size, done + [entries[i]];
      }
      assert done == entries;
    }

    method ForgetBoth(a: seq<Entry>, b: seq<Entry>) returns (freed: nat)
      requires Agrees()
      modifies `data, `tags, `rows
      ensures Agrees() && rows == RemoveKeys(RemoveKeys(old(rows), Keys(a)), Keys(b)) && freed == Sum(a) + Sum(b)
      ensures data == old(data) - Keys(a) - Keys(b) && tags == old(tags) * data.Keys
    {
      freed := ForgetAll(a);
      var more := ForgetAll(b);
      freed := freed + more;
    }

    /** `clear_unpinned`: keeps the pinned blobs, drops every block and thumbnail, and says what it freed. */
    method ClearUnpinned() returns (freed: nat)
      requires Valid()
      modifies `data, `tags, `rows, `blobBytes, `blockBytes, `thumbBytes
      ensures Valid() && forall k :: Total(k) == Sum(Pool(rows, k)) <= old(Total(k))
      ensures forall e :: e in rows <==> e in old(rows) && e.key.kind == Blob && Exempt(e, pinned)
      ensures data == old(data) - Keys(Pinned(Pool(old(rows), Blob), pinned, false))
                      - Keys(Pool(old(rows), Block) + Pool(old(rows), Thumb))
      ensures tags == old(tags) * data.Keys
      ensures freed == Sum(Pinned(Pool(old(rows), Blob), pinned, false))
                       + Sum(Pool(old(rows), Block)) + Sum(Pool(old(rows), Thumb))
    {
      var blobs := Pinned(Pool(rows, Blob), pinned, false);
      var others := Pool(rows, Block) + Pool(rows, Thumb);
      SumConcat(Pool(rows, Block), Pool(rows, Thumb));
      freed := ForgetBoth(blobs, others);
      Cleared(old(rows), pinned);
      ReseedTotals();
    }

    /** `emergency_evict`: the first unpinned of the ten oldest blobs, if there is one. */
    method EmergencyEvict()
      requires Valid()
      modifies `data, `tags, `rows, `blobBytes
      ensures Valid() && tags == old(tags) * data.Keys
      ensures
        var unpinned := Pinned(Fetch(Pool(old(rows), Blob), 10), pinned, false);
        if unpinned == [] then rows == old(rows) && data == old(data) && Total(Blob) == old(Total(Blob))
        else
          && rows == RemoveKeys(old(rows), {unpinned[0].key}) && data == old(data) - {unpinned[0].key}
          && unpinned[0].key.uid !in pinned && Total(Blob) == old(Total(Blob)) - unpinned[0].size
    {
      var list := Fetch(Pool(rows, Blob), 10);
      var i := FirstUnpinned(list, pinned);
      if i < |list| {
        PoolMembers(rows, Blob);
        PinnedMembers(list, pinned, false);
        assert list[i] in Pool(rows, Blob) && list[i] in Pinned(list, pinned, false);
        ForgetBlob(list[i]);
      }
    }

    /** An unpinned blob goes, and the running total with it. */
    method ForgetBlob(e: Entry)
      requires Valid() && e in rows && e.key.kind == Blob
      modifies `data, `tags, `rows, `blobBytes
      ensures Valid() && rows == RemoveKeys(old(rows), {e.key}) && data == old(data) - {e.key}
      ensures tags == old(tags) * data.Keys && Total(Blob) == old(Total(Blob)) - e.size
    {
      forall k ensures Sum(Pool(RemoveKeys(rows, {e.key}), k)) == Sum(Pool(rows, k)) - (if k == Blob then e.size else 0) {
        RemoveOneSum(rows, e, k);
      }
      assert e.size <= Sum(Pool(rows, Blob)) <= Total(Blob) by {
        RemoveOneSum(rows, e, Blob);
      }
      Forget(e.key);
      blobBytes := blobBytes - e.size;
    }

    /** `evict`: every row of one uid, and every file but its thumbnails of types other than 1 and 2. Rows and
        files still agree exactly if it had none of those; otherwise such files are left without a row. */
    method Evict(uid: nat)
      requires Valid()
      modifies `data, `tags, `rows, `blobBytes, `blockBytes, `thumbBytes
      ensures Valid() && tags == old(tags) * data.Keys && forall k :: Total(k) == Sum(Pool(rows, k)) <= old(Total(k))
      ensures data == map k | k in old(data) && (k.uid != uid || Odd(k)) :: old(data)[k]
      ensures forall e :: e in rows <==> e in old(rows) && e.key.uid != uid
      ensures old(Sizes(rows) == data) ==>
                (Sizes(rows) == data <==> forall k :: k in old(data) && k.uid == uid ==> !Odd(k))
    {
      var files := set k | k in data && k.uid == uid && !Odd(k);
      var listed := set k | k in Keys(rows) && k.uid == uid;
      EvictedRows(rows, uid, listed);
      EvictedIndex(rows, data, uid, files, listed);
      data, tags, rows := data - files, tags - files, RemoveKeys(rows, listed);
      ReseedTotals();
    }
  }

  lemma {:induction false} EvictedRows(rows: seq<Entry>, uid: nat, listed: set<Key>)
    requires Distinct(rows) && Sorted(rows) && listed == set k | k in Keys(rows) && k.uid == uid
    ensures
      var now := RemoveKeys(rows, listed);
      && Distinct(now) && Sorted(now) && (forall e :: e in now <==> e in rows && e.key.uid != uid)
      && forall k :: Sum(Pool(now, k)) <= Sum(Pool(rows, k))
  {
    RemoveKeepsOrder(rows, listed);
    RemoveMembers(rows, listed);
    forall k ensures Sum(Pool(RemoveKeys(rows, listed), k)) <= Sum(Pool(rows, k)) {
      RemoveShrinksSum(rows, listed, k);
    }
  }

  lemma {:induction false} EvictedIndex(rows: seq<Entry>, data: map<Key, nat>, uid: nat, files: set<Key>, listed: set<Key>)
    requires Indexes(rows, data)
    requires files == (set k | k in data && k.uid == uid && !Odd(k)) && listed == set k | k in Keys(rows) && k.uid == uid
    ensures Indexes(RemoveKeys(rows, listed), data - files)
    ensures data - files == map k | k in data && (k.uid != uid || Odd(k)) :: data[k]
    ensures Sizes(rows) == data ==>
              (Sizes(RemoveKeys(rows, listed)) == data - files <==> forall k :: k in data && k.uid == uid ==> !Odd(k))
  {
    SizesMembers(rows);
    SizesOfRemoved(rows, listed);
    if k :| k in data && k.uid == uid && Odd(k) {
      assert k in data - files && k !in Sizes(rows) - listed;
    }
    if Sizes(rows) == data && forall k :: k in data && k.uid == uid ==> !Odd(k) {
      assert files == listed;
    }
  }

  /** `open`, from whatever a crash left in the three directories. Budget and pins are not looked at. */
  method Open(disk: map<Name, Found>, budget: nat, pinned: set<nat>) returns (cache: Cache)
    requires forall n :: n in disk ==> CacheNamed(n)
    ensures fresh(cache) && cache.Valid() && Sizes(cache.rows) == cache.data == DataFiles(disk)
    ensures cache.tags == Tagged(disk) * cache.data.Keys && cache.touches == map[]
    ensures forall e :: e in cache.rows ==> DataName(e.key) in disk && e == RowOf(disk, e.key)
    ensures forall kind :: cache.Total(kind) == Sum(Pool(cache.rows, kind))
    ensures cache.maxBytes == budget && cache.pinned == pinned
  {
    var left, rows := Reconcile(disk, {});
    SweptViews(disk, left);
    cache := new Cache(DataFiles(left), Tagged(left), Temporaries(left), rows, budget, pinned);
  }

  method FirstUnpinned(list: seq<Entry>, pinned: set<nat>) returns (i: nat)
    ensures i <= |list| && (i < |list| <==> Pinned(list, pinned, false) != [])
    ensures i < |list| ==> Pinned(list, pinned, false)[0] == list[i]
  {
    i := 0;
    while i < |list| && Exempt(list[i], pinned)
      invariant 0 <= i <= |list| && Pinned(list[..i], pinned, false) == []
    {
      assert list[..i + 1] == list[..i] + [list[i]];
      PinnedConcat(list[..i], [list[i]], pinned, false);
      i := i + 1;
    }
    assert list == list[..i] + list[i..];
    PinnedConcat(list[..i], list[i..], pinned, false);
  }

  lemma {:induction false} Cleared(rows: seq<Entry>, pinned: set<nat>)
    ensures
      var unpinned := RemoveKeys(rows, Keys(Pinned(Pool(rows, Blob), pinned, false)));
      var now := RemoveKeys(unpinned, Keys(Pool(rows, Block) + Pool(rows, Thumb)));
      && (Distinct(rows) ==> forall e :: e in now <==> e in rows && e.key.kind == Blob && Exempt(e, pinned))
      && (forall k :: Sum(Pool(now, k)) <= Sum(Pool(rows, k)))
  {
    var blobs, others := Keys(Pinned(Pool(rows, Blob), pinned, false)), Keys(Pool(rows, Block) + Pool(rows, Thumb));
    RemoveTwice(rows, blobs, others);
    RemoveMembers(rows, blobs + others);
    PinnedMembers(Pool(rows, Blob), pinned, false);
    forall kind: Kind ensures forall e :: e in Pool(rows, kind) <==> e in rows && e.key.kind == kind {
      PoolMembers(rows, kind);
    }
    forall e, f | Distinct(rows) && e in rows && f in rows && e.key == f.key ensures e == f {
    }
    forall k ensures Sum(Pool(RemoveKeys(rows, blobs + others), k)) <= Sum(Pool(rows, k)) {
      RemoveShrinksSum(rows, blobs + others, k);
    }
  }

  /** The first `limit` candidates. */
  function Fetch(pool: seq<Entry>, limit: nat): seq<Entry> {
    if |pool| < limit then pool else pool[..limit]
  }

  lemma {:induction false} FetchBatch(pool: seq<Entry>, front: seq<Entry>, rest: seq<Entry>)
    requires pool == front + rest
    ensures
      var batch := Fetch(pool, |front| + EVICT_BATCH);
      (|batch| <= |front| <==> rest == []) && (rest != [] ==> batch[|front|..] == Batch(rest))
  {
  }

  /** The eviction loop is `n` entries into the pool `all`, as it was when the rows were `start`. */
  ghost predicate Evicting(rows: seq<Entry>, all: seq<Entry>, start: seq<Entry>, n: nat, running: int, cap: nat,
                           pins: set<nat>)
  {
    && n <= |all|
    && EvictedTo(rows, start, Pinned(all[..n], pins, false), Sum(all), running,
                 BatchedVictims(all, Sum(all), cap, pins), BatchedVictims(all[n..], running, cap, pins))
  }

  /** Of the entries `drops`, those in `v` are gone and those in `rest` are still to go. */
  ghost predicate EvictedTo(rows: seq<Entry>, start: seq<Entry>, v: seq<Entry>, total: int, running: int,
                            drops: seq<Entry>, rest: seq<Entry>)
  {
    rows == RemoveKeys(start, Keys(v)) && running == total - Sum(v) && drops == v + rest
  }

  lemma {:induction false} EvictsMore(rows: seq<Entry>, start: seq<Entry>, v: seq<Entry>, total: int, running: int,
                                      drops: seq<Entry>, rest: seq<Entry>, w: seq<Entry>, rest': seq<Entry>)
    requires EvictedTo(rows, start, v, total, running, drops, rest) && rest == w + rest'
    ensures EvictedTo(RemoveKeys(rows, Keys(w)), start, v + w, total, running - Sum(w), drops, rest')
    ensures Keys(v + w) == Keys(v) + Keys(w)
  {
    EvictedMore(start, v, w);
    Reassociate(v, w, rest');
  }

  lemma {:induction false} EvictingPool(rows: seq<Entry>, all: seq<Entry>, start: seq<Entry>, kind: Kind, n: nat,
                                        running: int, cap: nat, pins: set<nat>)
    requires Evicting(rows, all, start, n, running, cap, pins) && all == Pool(start, kind) && Distinct(all)
    ensures Pool(rows, kind) == Pinned(all[..n], pins, true) + all[n..]
  {
    PoolOfRemoved(start, Keys(Pinned(all[..n], pins, false)), kind);
    PrefixEvicted(all, n, pins);
  }

  lemma {:induction false} EvictingSum(rows: seq<Entry>, all: seq<Entry>, start: seq<Entry>, kind: Kind, n: nat, running: int,
                    cap: nat, pins: set<nat>)
    requires Evicting(rows, all, start, n, running, cap, pins) && all == Pool(start, kind) && Distinct(all)
    ensures Sum(Pool(rows, kind)) == running
  {
    EvictingPool(rows, all, start, kind, n, running, cap, pins);
    SumPastPrefix(all, n, pins);
  }

  lemma {:induction false} SumPastPrefix(all: seq<Entry>, n: nat, pins: set<nat>)
    requires n <= |all|
    ensures Sum(Pinned(all[..n], pins, true) + all[n..]) == Sum(all) - Sum(Pinned(all[..n], pins, false))
  {
    assert all == all[..n] + all[n..];
    SumConcat(all[..n], all[n..]);
    SumConcat(Pinned(all[..n], pins, true), all[n..]);
    PinnedSums(all[..n], pins);
  }

  /** A batch of the loop, whose victims are `w`, takes it from `n` entries into the pool to `n'`. */
  ghost predicate Advances(rows: seq<Entry>, all: seq<Entry>, start: seq<Entry>, n: nat, n': nat, running: int,
                           w: seq<Entry>, cap: nat, pins: set<nat>)
    requires n < |all|
  {
    && n <= n' <= |all|
    && Evicting(RemoveKeys(rows, Keys(w)), all, start, n', running - Sum(w), cap, pins)
    && Keys(Pinned(all[..n'], pins, false)) == Keys(Pinned(all[..n], pins, false)) + Keys(w)
    && (w != [] ==> n < n')
    && (w == [] ==> BatchedVictims(all[n'..], running, cap, pins) == [])
    && (w != [] && running - Sum(w) > cap ==>
          |Pinned(all[..n'], pins, true)| == |Pinned(all[..n], pins, true)| + |Pinned(Batch(all[n..]), pins, true)|)
  }

  lemma {:induction false} EvictingAdvances(rows: seq<Entry>, all: seq<Entry>, start: seq<Entry>, n: nat, running: nat,
                                            cap: nat, pins: set<nat>)
    returns (n': nat, w: seq<Entry>)
    requires Evicting(rows, all, start, n, running, cap, pins) && running > cap && n < |all|
    ensures w == Victims(Batch(all[n..]), running, cap, pins) && Sum(Batch(all[n..])) <= running
    ensures Advances(rows, all, start, n, n', running, w, cap, pins)
  {
    w := Victims(Batch(all[n..]), running, cap, pins);
    n' := NextBatch(all, n, running, cap, pins);
    if w == [] {
      n' := n;
      EvictingStays(rows, all, start, n, running, cap, pins);
    } else {
      EvictingMoves(rows, all, start, n, n', running, cap, pins, w);
    }
  }

  /** Where the loop is after a batch. */
  lemma {:induction false} BatchDone(rows: seq<Entry>, all: seq<Entry>, start: seq<Entry>, n: nat, n': nat, running: int,
                                     w: seq<Entry>, cap: nat, pins: set<nat>, rows': seq<Entry>, left: int)
    requires n < |all| && Advances(rows, all, start, n, n', running, w, cap, pins)
    requires left == running - Sum(w) && rows' == RemoveKeys(rows, Keys(w))
    ensures n <= n' <= |all| && Evicting(rows', all, start, n', left, cap, pins)
    ensures Keys(Pinned(all[..n'], pins, false)) == Keys(Pinned(all[..n], pins, false)) + Keys(w)
    ensures w != [] ==>
              && n < n'
              && (left > cap ==> |Pinned(all[..n'], pins, true)|
                                 == |Pinned(all[..n], pins, true)| + |Pinned(Batch(all[n..]), pins, true)|)
    ensures w == [] ==> BatchedVictims(all[n'..], left, cap, pins) == []
  {
  }

  /** What is left of the files after a batch. */
  lemma {:induction false} FilesDone(all: seq<Entry>, files: map<Key, nat>, marks: set<Key>, n: nat, n': nat,
                                     w: seq<Entry>, pins: set<nat>)
    requires n <= |all| && n' <= |all|
    requires Keys(Pinned(all[..n'], pins, false)) == Keys(Pinned(all[..n], pins, false)) + Keys(w)
    ensures files - Keys(Pinned(all[..n], pins, false)) - Keys(w) == files - Keys(Pinned(all[..n'], pins, false))
    ensures marks - Keys(Pinned(all[..n], pins, false)) - Keys(w) == marks - Keys(Pinned(all[..n'], pins, false))
  {
    MinusTwice(files, Keys(Pinned(all[..n], pins, false)), Keys(w));
  }

  lemma {:induction false} EvictingStays(rows: seq<Entry>, all: seq<Entry>, start: seq<Entry>, n: nat, running: int,
                                         cap: nat, pins: set<nat>)
    requires Evicting(rows, all, start, n, running, cap, pins) && n < |all|
    requires BatchedVictims(all[n..], running, cap, pins) == []
    ensures Advances(rows, all, start, n, n, running, [], cap, pins)
  {
    assert Keys([]) == {};
    RemoveNone(rows, {});
  }

  lemma {:induction false} EvictingMoves(rows: seq<Entry>, all: seq<Entry>, start: seq<Entry>, n: nat, n': nat,
                                         running: int, cap: nat, pins: set<nat>, w: seq<Entry>)
    requires Evicting(rows, all, start, n, running, cap, pins) && n < n' <= |all| && w != []
    requires Pinned(all[..n'], pins, false) == Pinned(all[..n], pins, false) + w
    requires BatchedVictims(all[n..], running, cap, pins) == w + BatchedVictims(all[n'..], running - Sum(w), cap, pins)
    requires running - Sum(w) > cap ==>
               Pinned(all[..n'], pins, true) == Pinned(all[..n], pins, true) + Pinned(Batch(all[n..]), pins, true)
    ensures Advances(rows, all, start, n, n', running, w, cap, pins)
  {
    EvictsMore(rows, start, Pinned(all[..n], pins, false), Sum(all), running, BatchedVictims(all, Sum(all), cap, pins),
               BatchedVictims(all[n..], running, cap, pins), w, BatchedVictims(all[n'..], running - Sum(w), cap, pins));
  }

  lemma {:induction false} MinusTwice(files: map<Key, nat>, a: set<Key>, b: set<Key>)
    ensures files - a - b == files - (a + b)
  {
  }

  lemma {:induction false} EvictedMore(start: seq<Entry>, v: seq<Entry>, w: seq<Entry>)
    ensures RemoveKeys(RemoveKeys(start, Keys(v)), Keys(w)) == RemoveKeys(start, Keys(v + w))
    ensures Sum(v + w) == Sum(v) + Sum(w) && Keys(v + w) == Keys(v) + Keys(w)
  {
    RemoveTwice(start, Keys(v), Keys(w));
    assert Keys(v + w) == Keys(v) + Keys(w);
    SumConcat(v, w);
  }

  datatype Op =
    | Put(key: Key, size: nat, now: int)
    | Hit(key: Key, now: int)
    | Flush
    | Drop(uid: nat)
    | Clear
    | Emergency
    | Budget(bytes: nat)
    | Pin(uid: nat)
    | Unpin(uid: nat)

  function PinnedAfter(pinned: set<nat>, op: Op): set<nat> {
    match op
    case Pin(uid) => pinned + {uid}
    case Unpin(uid) => pinned - {uid}
    case _ => pinned
  }

  /** A pool is bounded by its last enforcement, if pins exempted nothing from it; `before` the run it was or
      was not. */
  predicate Bounded(ops: seq<Op>, kind: Kind, pinned: set<nat>, before: bool) {
    if ops == [] then before
    else
      var op, rest := ops[|ops| - 1], ops[..|ops| - 1];
      if op.Budget? || (op.Put? && op.key.kind == kind) then kind != Blob || PinnedBy(rest, pinned) == {}
      else Bounded(rest, kind, pinned, before)
  }

  function PinnedBy(ops: seq<Op>, pinned: set<nat>): set<nat> {
    if ops == [] then pinned else PinnedAfter(PinnedBy(ops[..|ops| - 1], pinned), ops[|ops| - 1])
  }

  /** Pinned from the start, and in the run neither unpinned nor dropped by name. */
  predicate KeptPinned(ops: seq<Op>, pinned: set<nat>, uid: nat) {
    uid in pinned && forall i :: 0 <= i < |ops| ==> ops[i] != Unpin(uid) && ops[i] != Drop(uid)
  }

  lemma {:induction false} KeptPinnedBefore(ops: seq<Op>, i: nat, pinned: set<nat>)
    requires i < |ops|
    ensures forall uid :: KeptPinned(ops[..i + 1], pinned, uid) ==>
              KeptPinned(ops[..i], pinned, uid) && ops[i] != Unpin(uid) && ops[i] != Drop(uid)
  {
    forall uid | KeptPinned(ops[..i + 1], pinned, uid)
      ensures KeptPinned(ops[..i], pinned, uid) && ops[i] != Unpin(uid) && ops[i] != Drop(uid)
    {
      assert ops[..i + 1][i] == ops[i];
      assert forall j :: 0 <= j < i ==> ops[..i][j] == ops[..i + 1][j];
    }
  }

  /** Blocks and thumbnails are bounded from the first budget on, whatever is pinned. */
  lemma {:induction false} BudgetBounds(ops: seq<Op>, kind: Kind, pinned: set<nat>, before: bool)
    requires before || Budgeted(ops)
    requires kind != Blob || (pinned == {} && NoPins(ops))
    ensures Bounded(ops, kind, pinned, before)
    ensures kind == Blob ==> PinnedBy(ops, pinned) == {}
  {
    if ops != [] {
      var rest := ops[..|ops| - 1];
      if before || Budgeted(rest) {
        BudgetBounds(rest, kind, pinned, before);
      } else {
        BudgetBounds(rest, kind, pinned, true);
      }
    }
  }

  /** Any sequential run, with any pins and any budgets: the index describes the disk and no running total is
      below the index; every pool its last enforcement could bound is within its share; no odd thumbnail is
      there that was not stored; and the blob of a uid that stays pinned is never evicted. */
  method Play(cache: Cache, ops: seq<Op>)
    requires cache.Valid()
    modifies cache
    ensures cache.Valid() && cache.pinned == PinnedBy(ops, old(cache.pinned))
    ensures forall kind :: Bounded(ops, kind, old(cache.pinned), old(cache.Within(kind))) ==> cache.Within(kind)
    ensures NoneOdd(old(cache.data).Keys) && (forall i :: 0 <= i < |ops| && ops[i].Put? ==> !Odd(ops[i].key)) ==>
              NoneOdd(cache.data.Keys)
    ensures forall k :: k in old(cache.data) && k.kind == Blob && KeptPinned(ops, old(cache.pinned), k.uid) ==>
              k in cache.data
  {
    for i := 0 to |ops|
      invariant cache.Valid() && cache.pinned == PinnedBy(ops[..i], old(cache.pinned))
      invariant forall kind :: Bounded(ops[..i], kind, old(cache.pinned), old(cache.Within(kind))) ==> cache.Within(kind)
      invariant NoneOdd(old(cache.data).Keys) && (forall j :: 0 <= j < i && ops[j].Put? ==> !Odd(ops[j].key)) ==>
                  NoneOdd(cache.data.Keys)
      invariant forall k :: k in old(cache.data) && k.kind == Blob && KeptPinned(ops[..i], old(cache.pinned), k.uid) ==>
                  k in cache.data && k.uid in cache.pinned
    {
      assert ops[..i + 1][..i] == ops[..i];
      KeptPinnedBefore(ops, i, old(cache.pinned));
      Apply(cache, ops[i]);
    }
    assert ops[..|ops|] == ops;
  }

  /** So in every such run blocks and thumbnails are within their shares from the first `set_budget` on,
      whatever is pinned; with nothing pinned blobs are too, and usage is within every budget of at least 4
      bytes. */
  method Run(cache: Cache, ops: seq<Op>)
    requires cache.Valid()
    modifies cache
    ensures cache.Valid()
    ensures Budgeted(ops) ==> cache.Within(Block) && cache.Within(Thumb)
    ensures Budgeted(ops) && old(cache.pinned) == {} && NoPins(ops) ==>
              && cache.Within(Blob)
              && (cache.maxBytes >= 4 ==> cache.Total(Blob) + cache.Total(Block) + cache.Total(Thumb) <= cache.maxBytes)
    ensures NoneOdd(old(cache.data).Keys) && (forall i :: 0 <= i < |ops| && ops[i].Put? ==> !Odd(ops[i].key)) ==>
              Sizes(cache.rows) == cache.data
    ensures forall k :: k in old(cache.data) && k.kind == Blob && KeptPinned(ops, old(cache.pinned), k.uid) ==>
              k in cache.data
  {
    if Budgeted(ops) {
      BudgetBounds(ops, Block, cache.pinned, cache.Within(Block));
      BudgetBounds(ops, Thumb, cache.pinned, cache.Within(Thumb));
      if cache.pinned == {} && NoPins(ops) {
        BudgetBounds(ops, Blob, cache.pinned, cache.Within(Blob));
      }
    }
    Play(cache, ops);
    assert NoneOdd(cache.data.Keys) ==> Sizes(cache.rows) == cache.data;
    var _ := cache.Usage();
  }

  predicate Budgeted(ops: seq<Op>) { exists i :: 0 <= i < |ops| && ops[i].Budget? }

  predicate NoPins(ops: seq<Op>) { forall i :: 0 <= i < |ops| ==> !ops[i].Pin? }

  ghost predicate NoneOdd(keys: set<Key>) { forall k :: k in keys ==> !Odd(k) }

  method Apply(cache: Cache, op: Op)
    requires cache.Valid()
    modifies cache
    ensures cache.Valid() && cache.pinned == PinnedAfter(old(cache.pinned), op)
    ensures cache.maxBytes == if op.Budget? then op.bytes else old(cache.maxBytes)
    ensures forall k :: k in cache.data ==> k in old(cache.data) || (op.Put? && k == op.key)
    ensures forall k :: k in old(cache.data) && old(cache.Protected(k)) && op != Drop(k.uid) ==>
              k in cache.data && ((op.Put? && op.key == k) || cache.data[k] == old(cache.data)[k])
    ensures forall kind ::
              (if op.Budget? || (op.Put? && op.key.kind == kind) then kind != Blob || cache.pinned == {}
               else old(cache.Within(kind))) ==> cache.Within(kind)
  {
    if op.Put? {
      ghost var _ := cache.Store(op.key, op.size, op.now);
    } else if op.Budget? {
      ghost var _, _, _ := cache.SetBudget(op.bytes);
    } else if op.Drop? || op.Clear? || op.Emergency? {
      Remove(cache, op);
    } else {
      Note(cache, op);
    }
  }

  /** The operations that only remove. */
  method Remove(cache: Cache, op: Op)
    requires cache.Valid() && (op.Drop? || op.Clear? || op.Emergency?)
    modifies cache
    ensures cache.Valid() && cache.pinned == old(cache.pinned) && cache.maxBytes == old(cache.maxBytes)
    ensures forall k :: k in cache.data ==> k in old(cache.data) && cache.data[k] == old(cache.data)[k]
    ensures forall k :: k in old(cache.data) && old(cache.Protected(k)) && op != Drop(k.uid) ==> k in cache.data
    ensures forall kind :: old(cache.Within(kind)) ==> cache.Within(kind)
  {
    match op
    case Drop(uid) => cache.Evict(uid);
    case Clear =>
      ClearSpares(cache.rows, cache.pinned);
      var _ := cache.ClearUnpinned();
    case Emergency => cache.EmergencyEvict();
  }

  lemma {:induction false} ClearSpares(rows: seq<Entry>, pinned: set<nat>)
    ensures forall k :: k in Keys(Pinned(Pool(rows, Blob), pinned, false)) ==> k.uid !in pinned
    ensures forall k :: k in Keys(Pool(rows, Block) + Pool(rows, Thumb)) ==> k.kind != Blob
  {
    PinnedMembers(Pool(rows, Blob), pinned, false);
    PoolMembers(rows, Block);
    PoolMembers(rows, Thumb);
  }

  /** The operations that leave every file alone. */
  method Note(cache: Cache, op: Op)
    requires cache.Valid() && (op.Hit? || op.Flush? || op.Pin? || op.Unpin?)
    modifies cache
    ensures cache.Valid() && cache.pinned == PinnedAfter(old(cache.pinned), op)
    ensures cache.data == old(cache.data) && cache.maxBytes == old(cache.maxBytes)
    ensures forall kind :: cache.Total(kind) == old(cache.Total(kind))
  {
    match op
    case Hit(key, now) => cache.Touch(key, now);
    case Flush => cache.FlushTouches();
    case Pin(uid) => cache.Pin(uid);
    case Unpin(uid) => cache.Unpin(uid);
  }
}
