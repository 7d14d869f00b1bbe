/** Whole runs of the write-durability protocol: any calls in any order, each of which may fail in any of
    its steps and may be cut short by a crash at any of them. */
module DurableRuns {
  import opened Prelude
  import opened WriteFiles
  import opened Durability

  datatype Call =
    | Create(stem: nat, write: nat, data: seq<nat>)
    | Write(at: Path, data: seq<nat>)
    | Mark(at: Path, meta: StagedWrite, how: Publication)
    | Clear(at: Path, removed: bool)
    | Stage(meta: StagedWrite, src: Path, dst: Path, staging: StageOutcomes)
    | Preserve(meta: StagedWrite, src: Path, dst: Path, preserving: PreserveOutcomes)
    | DropStaged(at: Path, dropsBytes: bool, dropsSide: bool)
    | DropRecovered(at: Path, dropsSide: bool, dropsBytes: bool)
    | Reopen(stuck: set<Path>)

  /** A call made in state `before`; with `crash`, the process dies there after so many disk steps. */
  datatype Entry = Entry(call: Call, crash: Option<nat>, before: Files, used: set<nat>)

  /** What the callers owe: sources exist, and new names are new. */
  predicate Enabled(c: Call, fs: Files, used: set<nat>) {
    match c
    case Create(stem, _, _) => stem !in used
    case Write(p, _) => p.dir == Scratch && p.exts == [] && p in fs
    case Mark(p, _, _) => p.exts == [] && p.stem in used
    case Clear(p, _) => p.exts == []
    case Stage(_, src, dst, _) =>
      src in fs && src.exts == [] && src.dir != Staging && dst.dir == Staging && dst.exts == [] && dst.stem !in used
    case Preserve(_, src, dst, _) =>
      src in fs && src.exts == [] && src.dir != Staging && dst.dir == Staging && dst.exts == [] && dst.stem !in used
    case DropStaged(p, _, _) => p.dir == Staging && p.exts == []
    case DropRecovered(p, _, _) => p.dir == Recovery && p.exts == []
    case Reopen(_) => true
  }

  /** The bytes under the name `p`, if there are any. */
  function WriteAt(fs: Files, p: Path): set<nat> {
    if p in fs && fs[p].Bytes? then {fs[p].write} else {}
  }

  /** The writes given up by a call that returns, or that dies after `crash` disk steps: one overwritten in
      place, one whose marker was removed, one explicitly discarded, and one that `preserve_write_at` has put
      back without a marker. */
  function GivesUp(c: Call, fs: Files, crash: Option<nat>): set<nat> {
    if crash == Some(0) then {} else
    match c
    case Write(p, _) => if Sheltered(fs, p) then WriteAt(fs, p) else {}
    case Clear(p, removed) => if removed && p.dir == Scratch && Sheltered(fs, p) then WriteAt(fs, p) else {}
    case Preserve(_, src, _, o) =>
      if (if crash.Some? then StrandedAt(src, o, crash.value) else LeavesStranded(src, o)) then WriteAt(fs, src) else {}
    case DropStaged(p, dropsBytes, _) => if dropsBytes then WriteAt(fs, p) else {}
    case DropRecovered(p, dropsSide, dropsBytes) =>
      if dropsBytes && !(dropsSide && crash == Some(1)) then WriteAt(fs, p) else {}
    case _ => {}
  }

  /** The write a call vouches for, if it runs to its end: one it has marked, one it has got into staging even
      though a later step failed, and one that `preserve_write_at` leaves where it is kept. */
  ghost function Vouches(c: Call, fs: Files): map<nat, seq<nat>> {
    match c
    case Write(p, data) =>
      if p in fs && fs[p].Bytes? && Sheltered(fs, p) then map[fs[p].write := data] else map[]
    case Mark(p, _, how) =>
      if how.Published? && p in fs && fs[p].Bytes? then map[fs[p].write := fs[p].data] else map[]
    case Stage(_, src, _, o) =>
      if StageLands(o) && src in fs && fs[src].Bytes? then map[fs[src].write := fs[src].data] else map[]
    case Preserve(_, src, _, o) =>
      if src in fs && fs[src].Bytes? && EndsKept(src, o, Side(src) in fs || Appears(o.mark), fs[src].data)
      then map[fs[src].write := fs[src].data] else map[]
    case _ => map[]
  }

  /** The bytes that a history has vouched for and not given up. */
  ghost function Ledger(h: seq<Entry>): map<nat, seq<nat>> {
    if h == [] then map[]
    else
      var e, owed := h[|h| - 1], Ledger(h[..|h| - 1]);
      if !Enabled(e.call, e.before, e.used) then owed
      else
        var left := owed - GivesUp(e.call, e.before, e.crash);
        if e.crash.Some? then left else left + Vouches(e.call, e.before)
  }

  ghost predicate Honours(fs: Files, owed: map<nat, seq<nat>>) {
    forall w :: w in owed ==> Kept(fs, w, owed[w])
  }

  lemma HonourKept(a: Files, b: Files, owed: map<nat, seq<nat>>, lost: set<nat>)
    requires Honours(a, owed) && Keeps(a, b, lost)
    ensures Honours(b, owed - lost)
  {
  }

  /** What the disk states of a call keep: at each of them, and at the last, all but what is given up there. */
  ghost predicate Follows(states: seq<Files>, used: set<nat>, c: Call, fs: Files) {
    && |states| > 0 && states[0] == fs
    && (forall k :: 0 <= k < |states| ==> WellFormed(states[k], used) && Keeps(fs, states[k], GivesUp(c, fs, Some(k))))
    && Keeps(fs, states[|states| - 1], GivesUp(c, fs, None))
  }

  lemma SafeFollows(states: seq<Files>, used: set<nat>, lost: set<nat>, c: Call, fs: Files)
    requires Safe(states, used, lost) && states[0] == fs && lost <= GivesUp(c, fs, None)
    requires forall k: nat :: 0 < k < |states| ==> lost <= GivesUp(c, fs, Some(k)) || Keeps(fs, states[k], {})
    ensures Follows(states, used, c, fs)
  {
  }

  method Perform(store: WriteStore, c: Call)
    requires store.Ready() && Enabled(c, store.files, store.used)
    modifies store
    ensures Follows(store.passed, store.used, c, old(store.files))
    ensures store.files == store.passed[|store.passed| - 1]
    ensures Honours(store.files, Vouches(c, old(store.files)))
  {
    if c.Create? || c.Write? {
      PerformInScratch(store, c);
    } else if c.Mark? || c.Clear? {
      PerformMarking(store, c);
    } else if c.Stage? {
      PerformStaging(store, c);
    } else if c.Preserve? {
      PerformPreserving(store, c);
    } else if c.DropStaged? || c.DropRecovered? {
      PerformDiscard(store, c);
    } else {
      PerformOpen(store, c);
    }
  }

  method PerformInScratch(store: WriteStore, c: Call)
    requires store.Ready() && Enabled(c, store.files, store.used) && (c.Create? || c.Write?)
    modifies store
    ensures Follows(store.passed, store.used, c, old(store.files))
    ensures store.files == store.passed[|store.passed| - 1]
    ensures Honours(store.files, Vouches(c, old(store.files)))
  {
    if c.Create? {
      var _ := store.CreateScratch(c.stem, c.write, c.data);
    } else {
      store.WriteScratch(c.at, c.data);
      assert Sheltered(old(store.files), c.at) ==> Sheltered(store.files, c.at);
    }
    SafeFollows(store.passed, store.used, GivesUp(c, old(store.files), None), c, old(store.files));
  }

  method PerformMarking(store: WriteStore, c: Call)
    requires store.Ready() && Enabled(c, store.files, store.used) && (c.Mark? || c.Clear?)
    modifies store
    ensures Follows(store.passed, store.used, c, old(store.files))
    ensures store.files == store.passed[|store.passed| - 1]
    ensures Honours(store.files, Vouches(c, old(store.files)))
  {
    if c.Mark? {
      var _ := store.MarkScratchDurable(c.at, c.meta, c.how);
    } else {
      store.ClearScratchDurable(c.at, c.removed);
    }
    SafeFollows(store.passed, store.used, GivesUp(c, old(store.files), None), c, old(store.files));
  }

  method PerformStaging(store: WriteStore, c: Call)
    requires store.Ready() && Enabled(c, store.files, store.used) && c.Stage?
    modifies store
    ensures Follows(store.passed, store.used, c, old(store.files))
    ensures store.files == store.passed[|store.passed| - 1]
    ensures Honours(store.files, Vouches(c, old(store.files)))
  {
    var _ := store.StageWriteAt(c.meta, c.src, c.dst, c.staging);
    SafeFollows(store.passed, store.used, {}, c, old(store.files));
  }

  method PerformPreserving(store: WriteStore, c: Call)
    requires store.Ready() && Enabled(c, store.files, store.used) && c.Preserve?
    modifies store
    ensures Follows(store.passed, store.used, c, old(store.files))
    ensures store.files == store.passed[|store.passed| - 1]
    ensures Honours(store.files, Vouches(c, old(store.files)))
  {
    var _ := store.PreserveWriteAt(c.meta, c.src, c.dst, c.preserving);
  }

  method PerformDiscard(store: WriteStore, c: Call)
    requires store.Ready() && Enabled(c, store.files, store.used) && (c.DropStaged? || c.DropRecovered?)
    modifies store
    ensures Follows(store.passed, store.used, c, old(store.files))
    ensures store.files == store.passed[|store.passed| - 1]
    ensures Honours(store.files, Vouches(c, old(store.files)))
  {
    if c.DropStaged? {
      store.DiscardStaged(c.at, c.dropsBytes, c.dropsSide);
    } else {
      store.DiscardRecovered(c.at, c.dropsSide, c.dropsBytes);
    }
    SafeFollows(store.passed, store.used, GivesUp(c, old(store.files), None), c, old(store.files));
  }

  method PerformOpen(store: WriteStore, c: Call)
    requires store.Ready() && c.Reopen?
    modifies store
    ensures Follows(store.passed, store.used, c, old(store.files))
    ensures store.files == store.passed[|store.passed| - 1]
    ensures Honours(store.files, Vouches(c, old(store.files)))
  {
    store.Open(c.stuck);
    SafeFollows(store.passed, store.used, {}, c, old(store.files));
  }

  /** Runs a script of calls and crashes. At every call boundary, every write the history has vouched for
      and not given up is on disk, byte for byte, where the next `open` keeps it. */
  method Run(script: seq<(Call, Option<nat>)>) returns (store: WriteStore, history: seq<Entry>)
    ensures |history| == |script|
    ensures forall i :: 0 <= i < |script| ==> history[i].call == script[i].0 && history[i].crash == script[i].1
    ensures HonouredSoFar(history) && Honours(store.files, Ledger(history))
  {
    store := new WriteStore();
    history := [];
    for i := 0 to |script|
      invariant store.Ready() && |history| == i && fresh(store)
      invariant forall j :: 0 <= j < i ==> history[j].call == script[j].0 && history[j].crash == script[j].1
      invariant HonouredSoFar(history) && Honours(store.files, Ledger(history))
    {
      var e := Entry(script[i].0, script[i].1, store.files, store.used);
      HonouredExtends(history, e);
      Advance(store, history, e);
      history := history + [e];
    }
  }

  /** Before each call of the history, the disk honoured what was owed by then. */
  ghost predicate HonouredSoFar(h: seq<Entry>) {
    forall i :: 0 <= i < |h| ==> Honours(h[i].before, Ledger(h[..i]))
  }

  lemma HonouredExtends(h: seq<Entry>, e: Entry)
    requires HonouredSoFar(h) && Honours(e.before, Ledger(h))
    ensures HonouredSoFar(h + [e])
  {
    forall i | 0 <= i <= |h| ensures Honours((h + [e])[i].before, Ledger((h + [e])[..i])) {
      assert (h + [e])[..i] == h[..i];
      if i == |h| {
        assert h[..i] == h;
      }
    }
  }

  method Advance(store: WriteStore, ghost history: seq<Entry>, e: Entry)
    requires store.Ready() && e.before == store.files && e.used == store.used
    requires Honours(store.files, Ledger(history))
    modifies store
    ensures store.Ready() && Honours(store.files, Ledger(history + [e]))
  {
    assert (history + [e])[..|history|] == history;
    if Enabled(e.call, store.files, store.used) {
      Perform(store, e.call);
      if e.crash.Some? {
        store.Crash(if e.crash.value < |store.passed| then e.crash.value else |store.passed| - 1);
      }
      HonourKept(e.before, store.files, Ledger(history), GivesUp(e.call, e.before, e.crash));
    }
  }

  /** The run that loses a marked write: the directory sync of `preserve_write_at` fails after the marker
      moved, the bytes go back to scratch, the new marker cannot be written, and the next `open`, in which
      nothing fails, deletes them. */
  method StrandedWriteIsLost(meta: StagedWrite) returns (store: WriteStore, marked: bool)
    ensures marked && forall data :: !Kept(store.files, 0, data)
  {
    store := new WriteStore();
    var p := store.CreateScratch(0, 0, [7]);
    marked := store.MarkScratchDurable(p, meta, Published);
    var o := PreserveOutcomes(
      mark := Published, rename := true, sync := true, moveMarker := true, syncDir := false, sweep := true,
      renameBack := true, remark := StopsAtCreate, copy := Copied, park := true, publish := Published,
      remove := true, clear := true);
    var r := store.PreserveWriteAt(meta, p, Path(Staging, 1, []), o);
    forall data ensures !Kept(store.files, 0, data) {
      StrandedIsLost(map[p := Bytes(0, [7])], store.files, p, 0, data);
    }
    store.Open({});
  }
}
