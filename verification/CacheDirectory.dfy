/** The three directories of the cache, and the walk over them with which `open` rebuilds the index. */
module CacheDirectory {
  import opened Prelude
  import opened Lru
  import opened CacheIndex

  /** A file name: a key, and the suffixes behind it. A geometry sidecar stands among the blocks under the
      bare key of its uid, which is that of the uid's blob. */
  datatype Name = Name(dir: Kind, key: Key, suffixes: seq<string>)

  /** What the directory says of a file: its size and when it was modified. */
  datatype Found = Found(size: nat, modified: int)

  /** `ends_with`. */
  predicate EndsWith(n: Name, suffix: string) {
    n.suffixes != [] && n.suffixes[|n.suffixes| - 1] == suffix
  }

  /** `strip_suffix`. */
  function StripSuffix(n: Name, suffix: string): Option<Name> {
    if EndsWith(n, suffix) then Some(n.(suffixes := n.suffixes[..|n.suffixes| - 1])) else None
  }

  function DataName(k: Key): Name { Name(k.kind, k, []) }

  /** The names the cache itself gives: a data file, its tag, its temporary file, a geometry. */
  predicate CacheNamed(n: Name) {
    || n == DataName(n.key)
    || (n.dir == n.key.kind && (n.suffixes == ["meta"] || n.suffixes == ["tmp"]))
    || n.suffixes == ["geom"]
  }

  /** The data files and their sizes. */
  function DataFiles(disk: map<Name, Found>): map<Key, nat> {
    map k | k in (set n | n in disk :: n.key) && DataName(k) in disk :: disk[DataName(k)].size
  }

  /** The keys a tag or a temporary file is named after. */
  function Tagged(disk: map<Name, Found>): set<Key> {
    set n | n in disk && EndsWith(n, "meta") :: n.key
  }

  function Temporaries(disk: map<Name, Found>): set<Key> {
    set n | n in disk && EndsWith(n, "tmp") :: n.key
  }

  /** What the walk is there to remove: temporary files, and tags without the file they tag. */
  predicate Litter(disk: map<Name, Found>, n: Name) {
    EndsWith(n, "tmp") || (EndsWith(n, "meta") && StripSuffix(n, "meta").value !in disk)
  }

  /** `left` is `disk` without its litter, as far as the names in `todo` are not still to be visited and those
      in `stuck` could be removed. */
  ghost predicate Swept(disk: map<Name, Found>, left: map<Name, Found>, todo: set<Name>, stuck: set<Name>) {
    && (forall n :: n in left ==> n in disk && left[n] == disk[n])
    && (forall n :: n in disk ==> (n in left <==> n in todo || n in stuck || !Litter(disk, n)))
  }

  /** The rows for the data files already visited. */
  ghost predicate Listed(disk: map<Name, Found>, todo: set<Name>, rows: seq<Entry>) {
    && Distinct(rows) && Sorted(rows)
    && (forall k :: k in Sizes(rows) <==> DataName(k) in disk && DataName(k) !in todo)
    && (forall k :: k in Sizes(rows) ==> Sizes(rows)[k] == disk[DataName(k)].size)
    && (forall e :: e in rows ==> DataName(e.key) in disk && e == RowOf(disk, e.key))
  }

  /** The row of a data file: its size, and its last modification for its last use. */
  function RowOf(disk: map<Name, Found>, k: Key): Entry
    requires DataName(k) in disk
  {
    Entry(k, disk[DataName(k)].size, disk[DataName(k)].modified)
  }

  /** `reconcile`: visits the entries in any order, removes litter on the way, and makes a row of every data
      file. Removals of the names in `stuck` fail. */
  method Reconcile(disk: map<Name, Found>, stuck: set<Name>) returns (left: map<Name, Found>, rows: seq<Entry>)
    requires forall n :: n in disk ==> CacheNamed(n)
    ensures Swept(disk, left, {}, stuck)
    ensures Distinct(rows) && Sorted(rows) && Sizes(rows) == DataFiles(disk)
    ensures forall e :: e in rows ==> DataName(e.key) in disk && e == RowOf(disk, e.key)
  {
    left, rows := disk, [];
    var todo := disk.Keys;
    while todo != {}
      invariant todo <= disk.Keys && Swept(disk, left, todo, stuck) && Listed(disk, todo, rows)
    {
      var n :| n in todo;
      ghost var before, listed := left, rows;
      left, rows := VisitEntry(n, left, rows, stuck);
      todo := todo - {n};
      VisitSweeps(disk, before, left, todo, n, stuck);
      VisitLists(disk, todo, n, listed, rows);
    }
    AllListed(disk, rows);
  }

  /** One entry of the walk. */
  method VisitEntry(n: Name, disk: map<Name, Found>, rows: seq<Entry>, stuck: set<Name>)
    returns (left: map<Name, Found>, rows': seq<Entry>)
    requires n in disk && CacheNamed(n) && Distinct(rows) && Sorted(rows)
    ensures left == if n !in stuck && Litter(disk, n) then disk - {n} else disk
    ensures if n.suffixes != [] then rows' == rows
            else Distinct(rows') && Sorted(rows') && Sizes(rows') == Sizes(rows)[n.key := disk[n].size]
                 && (forall e :: e in rows' <==> e == RowOf(disk, n.key) || (e in rows && e.key != n.key))
  {
    left, rows' := disk, rows;
    var blob := StripSuffix(n, "meta");
    if blob.Some? {
      if blob.value !in disk && n !in stuck {
        left := disk - {n};
      }
    } else if EndsWith(n, "geom") {
    } else if EndsWith(n, "tmp") {
      if n !in stuck {
        left := disk - {n};
      }
    } else {
      UpsertKeeps(rows, Entry(n.key, disk[n].size, disk[n].modified));
      UpsertMembers(rows, Entry(n.key, disk[n].size, disk[n].modified));
      rows' := Upsert(rows, Entry(n.key, disk[n].size, disk[n].modified));
    }
  }

  lemma {:induction false} AllListed(disk: map<Name, Found>, rows: seq<Entry>)
    requires Listed(disk, {}, rows)
    ensures Sizes(rows) == DataFiles(disk)
  {
    forall k ensures k in DataFiles(disk) <==> DataName(k) in disk {
      assert DataName(k) in disk ==> DataName(k).key in set n | n in disk :: n.key;
    }
  }

  lemma {:induction false} VisitSweeps(disk: map<Name, Found>, a: map<Name, Found>, b: map<Name, Found>, todo: set<Name>,
                                       n: Name, stuck: set<Name>)
    requires (forall m :: m in disk ==> CacheNamed(m)) && n in disk && n !in todo && Swept(disk, a, todo + {n}, stuck)
    requires b == if n !in stuck && Litter(a, n) then a - {n} else a
    ensures Swept(disk, b, todo, stuck)
  {
    if EndsWith(n, "meta") {
      assert CacheNamed(n) && StripSuffix(n, "meta").value == DataName(n.key);
    }
  }

  lemma {:induction false} VisitLists(disk: map<Name, Found>, todo: set<Name>, n: Name, a: seq<Entry>, b: seq<Entry>)
    requires (forall m :: m in disk ==> CacheNamed(m)) && n in disk && n !in todo && Listed(disk, todo + {n}, a)
    requires if n.suffixes != [] then b == a
             else Distinct(b) && Sorted(b) && Sizes(b) == Sizes(a)[n.key := disk[n].size]
                  && (forall e :: e in b ==> e == Entry(n.key, disk[n].size, disk[n].modified) || e in a)
    ensures Listed(disk, todo, b)
  {
    assert CacheNamed(n);
  }

  /** With every removal done there is no temporary file, no tag without its data file, and every data file and
      geometry is still there. */
  lemma {:induction false} SweptViews(disk: map<Name, Found>, left: map<Name, Found>)
    requires (forall n :: n in disk ==> CacheNamed(n)) && Swept(disk, left, {}, {})
    ensures DataFiles(left) == DataFiles(disk) && Temporaries(left) == {}
    ensures Tagged(left) == Tagged(disk) * DataFiles(disk).Keys
    ensures forall n :: n in disk && EndsWith(n, "geom") ==> n in left && left[n] == disk[n]
  {
    SweptData(disk, left);
    SweptTags(disk, left);
  }

  lemma {:induction false} SweptData(disk: map<Name, Found>, left: map<Name, Found>)
    requires Swept(disk, left, {}, {})
    ensures DataFiles(left) == DataFiles(disk)
  {
    DataFilesAre(disk);
    DataFilesAre(left);
  }

  lemma {:induction false} SweptTags(disk: map<Name, Found>, left: map<Name, Found>)
    requires (forall n :: n in disk ==> CacheNamed(n)) && Swept(disk, left, {}, {})
    ensures Tagged(left) == Tagged(disk) * DataFiles(disk).Keys
  {
    DataFilesAre(disk);
    forall k ensures k in Tagged(left) <==> k in Tagged(disk) && DataName(k) in disk {
      var n := DataName(k).(suffixes := ["meta"]);
      TaggedMeans(disk, k);
      TaggedMeans(left, k);
      assert n in disk ==> StripSuffix(n, "meta").value == DataName(k);
    }
  }

  lemma {:induction false} TaggedMeans(disk: map<Name, Found>, k: Key)
    requires forall n :: n in disk ==> CacheNamed(n)
    ensures k in Tagged(disk) <==> DataName(k).(suffixes := ["meta"]) in disk
  {
    var tag := DataName(k).(suffixes := ["meta"]);
    assert EndsWith(tag, "meta") && tag.key == k;
    forall n | n in disk && EndsWith(n, "meta") && n.key == k ensures n == tag {
      assert CacheNamed(n);
    }
  }

  lemma {:induction false} DataFilesAre(disk: map<Name, Found>)
    ensures forall k :: k in DataFiles(disk) <==> DataName(k) in disk
  {
    forall k | DataName(k) in disk ensures k in DataFiles(disk) {
      assert DataName(k).key == k;
    }
  }
}
