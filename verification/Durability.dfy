/** The write-durability protocol of the content cache: marking, staging, preserving, and the rescue
    that runs when the cache is opened. Every call is a sequence of disk steps that may fail and may be
    cut short by a crash; `passed` holds each disk state the call goes through, so that a claim about
    all of them is a claim about a crash at any point. */
module Durability {
  import opened Prelude
  import opened WriteFiles

  /** How far the publication of a sidecar gets: creating the temporary file, writing it, renaming it
      over the sidecar, syncing the directory. */
  datatype Publication = StopsAtCreate | StopsTorn | StopsAtRename | StopsAtSync | Published

  /** The sidecar is in place, whether or not its directory could be synced. */
  predicate Appears(how: Publication) { how.Published? || how.StopsAtSync? }

  /** A rename, as `stage_write_at` distinguishes its outcomes. */
  datatype RenameOutcome = Renamed | CrossesDevices | Refused

  /** A copy either completes or stops, perhaps with `prefix` at the destination. */
  datatype CopyOutcome = Copied | CopyFails(prefix: Option<seq<nat>>)

  datatype StageOutcomes = StageOutcomes(
    rename: RenameOutcome, copy: CopyOutcome, sync: bool, publish: Publication, remove: bool)

  datatype PreserveOutcomes = PreserveOutcomes(
    mark: Publication, rename: bool, sync: bool, moveMarker: bool, syncDir: bool, sweep: bool,
    renameBack: bool, remark: Publication, copy: CopyOutcome, park: bool, publish: Publication,
    remove: bool, clear: bool)

  datatype PreserveResult = Preserved(path: Path) | Retained(surviving: Path, marker: Option<Path>)

  /** The failures after which a source's marker has moved to staging while its bytes come back. */
  predicate Strands(marked: bool, o: PreserveOutcomes) {
    marked && o.sync && o.moveMarker && !o.syncDir && o.renameBack
  }

  /** Where that endangers the write: a source in scratch, whose marker is all that shelters it. */
  predicate StrandsSource(src: Path, o: PreserveOutcomes) {
    src.dir == Scratch && o.rename && Strands(o.mark.Published?, o)
  }

  /** The disk step with which the bytes of a stranded source come back: after three to mark it, its rename,
      its marker's, perhaps a sweep. */
  function ReturnStep(o: PreserveOutcomes): nat { if o.sweep then 7 else 6 }

  /** After so many disk steps the bytes are back without a marker. The new one, if it appears, takes three. */
  predicate StrandedAt(src: Path, o: PreserveOutcomes, steps: nat) {
    StrandsSource(src, o) && ReturnStep(o) <= steps && (Appears(o.remark) ==> steps < ReturnStep(o) + 3)
  }

  /** The source is without a marker when the call returns. */
  predicate LeavesStranded(src: Path, o: PreserveOutcomes) {
    StrandsSource(src, o) && !Appears(o.remark)
  }

  predicate StageSucceeds(o: StageOutcomes) {
    && (o.rename.Renamed? || (o.rename.CrossesDevices? && o.copy.Copied? && o.remove))
    && o.sync && o.publish.Published?
  }

  /** The bytes get to staging, whether or not what follows succeeds. */
  predicate StageLands(o: StageOutcomes) {
    o.rename.Renamed? || (o.rename.CrossesDevices? && o.copy.Copied?)
  }

  predicate PreserveSucceeds(o: PreserveOutcomes) {
    if o.rename then
      o.sync && if o.mark.Published? then o.moveMarker && o.syncDir else o.publish.Published?
    else
      o.copy.Copied? && o.sync && o.publish.Published? && o.remove
  }

  /** Where a failed `preserve_write_at` says the bytes are; `marked`: the source has a marker after the
      attempt to give it one. */
  function SurvivesAt(src: Path, dst: Path, o: PreserveOutcomes, marked: bool): Path {
    if o.rename then (if o.renameBack then src else dst)
    else if o.copy.CopyFails? then (if !marked && o.park then dst.(dir := Recovery) else src)
    else if o.sync && o.publish.Published? then dst
    else if marked then src else dst
  }

  /** After which failures the source's write is kept when the call returns. A failed copy may have been whole. */
  predicate EndsKept(src: Path, o: PreserveOutcomes, marked: bool, data: seq<nat>) {
    || PreserveSucceeds(o) || src.dir == Recovery
    || if o.rename then
         || !o.renameBack || Appears(o.remark)
         || (marked && !(o.mark.Published? && o.sync && o.moveMarker))
       else
         o.copy.Copied? || marked || o.park || o.copy.prefix == Some(data)
  }

  /** The sidecar reported with a surviving path: its own, else the source's. */
  function MarkerOf(fs: Files, surviving: Path, src: Path): Option<Path> {
    if Side(surviving) in fs then Some(Side(surviving)) else if Side(src) in fs then Some(Side(src)) else None
  }

  /** What the result of `preserve_write_at` says about the disk: success means bytes and sidecar at the
      destination and nothing at the source; failure names a path that holds the bytes, and the marker
      there is. */
  ghost predicate Accounts(fs: Files, bytes: File, meta: StagedWrite, src: Path, dst: Path, r: PreserveResult) {
    match r
    case Preserved(path) =>
      && path == dst && dst in fs && fs[dst] == bytes && src !in fs
      && Side(dst) in fs && fs[Side(dst)] == Note(Some(meta))
    case Retained(at, marker) =>
      && at in fs && fs[at] == bytes && at.exts == []
      && (at == src || at == dst || at == dst.(dir := Recovery))
      && marker == MarkerOf(fs, at, src)
  }

  /** What a failed copy has left at the unused name `dst`. */
  predicate PartlyCopied(fs: Files, dst: Path, bytes: File, how: CopyOutcome)
    requires how.CopyFails? && bytes.Bytes?
  {
    if how.prefix.None? then dst !in fs else dst in fs && fs[dst] == Bytes(bytes.write, how.prefix.value)
  }

  /** The states a call has passed through, from `states[0]` on, are well formed and have kept every
      write but those in `lost`. */
  ghost predicate Safe(states: seq<Files>, used: set<nat>, lost: set<nat>) {
    && |states| > 0
    && forall k :: 0 <= k < |states| ==> WellFormed(states[k], used) && Keeps(states[0], states[k], lost)
  }

  lemma SafeExtends(states: seq<Files>, used: set<nat>, lost: set<nat>, from: Files, next: Files)
    requires Safe(states, used, lost) && WellFormed(next, used)
    requires Keeps(states[0], from, lost) && Keeps(from, next, lost)
    ensures Safe(states + [next], used, lost)
  {
  }

  lemma SafeWeakens(states: seq<Files>, used: set<nat>, less: set<nat>, more: set<nat>)
    requires Safe(states, used, less) && less <= more
    ensures Safe(states, used, more)
  {
  }

  /** Disk states that differ at most in the sidecar of `p` and its temporary name. */
  ghost predicate SameBut(a: Files, b: Files, p: Path) {
    forall q :: q != Side(p) && q != SideTmp(p) ==> (q in a <==> q in b) && (q in a ==> a[q] == b[q])
  }

  /** `p` is the one place that holds bytes of the write `w`. */
  ghost predicate OnlyAt(fs: Files, w: nat, p: Path) {
    forall q :: q in fs && fs[q].Bytes? && fs[q].write == w ==> q == p
  }

  /** `now` is `before` with the bytes at `src` renamed to the unused name `dst`, up to sidecars other
      than those of bytes that stayed put. */
  ghost predicate Renaming(before: Files, now: Files, src: Path, dst: Path) {
    && src in before && dst !in before && src !in now && dst in now && now[dst] == before[src]
    && (forall q: Path :: q.exts == [] && q != src && q != dst ==>
          (q in before <==> q in now) && (q in before ==> before[q] == now[q]))
    && (forall q: Path :: q.exts == [] && q != src && q in before && Side(q) in before ==> Side(q) in now)
  }

  lemma RenamingSurvivesNotes(before: Files, now: Files, used: set<nat>, src: Path, dst: Path)
    requires WellFormed(before, used) && src in before && src.exts == [] && dst.exts == []
    requires forall p :: p in before ==> p.stem != dst.stem
    requires forall q :: q != Side(src) && q != Side(dst) && q != SideTmp(dst) ==>
               (q in now <==> q in Moved(before, src, dst)) && (q in now ==> now[q] == Moved(before, src, dst)[q])
    ensures Renaming(before, now, src, dst)
  {
    assert dst !in before;
    forall q: Path | q.exts == [] && q != src && q in before && Side(q) in before ensures Side(q) in now {
      assert Side(q) != Side(src) && Side(q) != Side(dst) && Side(q) != SideTmp(dst) && Side(q) != dst;
      assert Side(q) in Moved(before, src, dst);
    }
  }

  /** `fs` holds no bytes that `before` did not, and no marker beside `src`. */
  ghost predicate Stranded(before: Files, fs: Files, src: Path) {
    && Side(src) !in fs
    && forall q: Path :: q.exts == [] && q in fs ==> q in before && fs[q] == before[q]
  }

  lemma StrandedIsLost(before: Files, fs: Files, src: Path, w: nat, data: seq<nat>)
    requires Stranded(before, fs, src) && OnlyAt(before, w, src) && src.dir == Scratch
    ensures !Kept(fs, w, data)
  {
    forall q: Path | q.exts == [] && q in fs && fs[q] == Bytes(w, data) ensures !Sheltered(fs, q) {
      assert q in before && before[q] == fs[q];
    }
  }

  /** `fs` has the bytes of `before` under the same names, and every marker beside them but perhaps that of `src`. */
  ghost predicate Returned(before: Files, fs: Files, src: Path) {
    && (forall q: Path :: q.exts == [] ==> (q in before <==> q in fs) && (q in before ==> before[q] == fs[q]))
    && (forall q: Path :: q.exts == [] && q != src && q in before && Side(q) in before ==> Side(q) in fs)
  }

  lemma ReturnedKeeps(before: Files, fs: Files, src: Path)
    requires Returned(before, fs, src) && Side(src) in fs
    ensures Keeps(before, fs, {})
  {
    forall w, data | Kept(before, w, data) ensures Kept(fs, w, data) {
      var q :| q in before && before[q] == Bytes(w, data) && Sheltered(before, q);
      assert q in fs && fs[q] == Bytes(w, data) && Sheltered(fs, q);
    }
  }

  /** From the state `n` on, the bytes are back at `src`, and its marker is from the fourth one on if at all. */
  ghost predicate ReturnsBare(before: Files, states: seq<Files>, n: nat, src: Path, remark: Publication) {
    && n < |states| <= n + 4 && (Appears(remark) <==> |states| == n + 4)
    && forall k :: n <= k < |states| ==>
         Returned(before, states[k], src) && (Side(src) in states[k] <==> k == n + 3)
  }

  /** The disk states of a sidecar's publication, after `fs`. */
  function SidecarSteps(fs: Files, p: Path, meta: StagedWrite, how: Publication): seq<Files> {
    var torn := fs[SideTmp(p) := Note(None)];
    var whole := torn[SideTmp(p) := Note(Some(meta))];
    if how.StopsAtCreate? then []
    else if how.StopsTorn? then [torn]
    else if how.StopsAtRename? then [torn, whole]
    else [torn, whole, Moved(whole, SideTmp(p), Side(p))]
  }

  lemma SidecarStepsEnd(fs: Files, p: Path, meta: StagedWrite, how: Publication)
    requires p.exts == []
    ensures
      var steps := SidecarSteps(fs, p, meta, how);
      var end := if steps == [] then fs else steps[|steps| - 1];
      && SameBut(fs, end, p) && (Side(p) in end <==> Side(p) in fs || Appears(how))
      && (Side(p) in end ==> end[Side(p)] == if Appears(how) then Note(Some(meta)) else fs[Side(p)])
  {
  }

  lemma MarkedAgain(before: Files, prior: seq<Files>, back: Files, src: Path, meta: StagedWrite, remark: Publication)
    requires Returned(before, back, src) && Side(src) !in back && src.exts == []
    ensures ReturnsBare(before, prior + [back] + SidecarSteps(back, src, meta, remark), |prior|, src, remark)
  {
    var steps := SidecarSteps(back, src, meta, remark);
    var states := prior + [back] + steps;
    assert states[|prior|] == back;
    forall k | |prior| < k < |states|
      ensures Returned(before, states[k], src) && (Side(src) in states[k] <==> k == |prior| + 3)
    {
      assert states[k] == steps[k - |prior| - 1];
      assert SameBut(back, states[k], src);
      OffSidecar(before, back, states[k], src);
    }
  }

  lemma OffSidecar(before: Files, back: Files, fs: Files, src: Path)
    requires Returned(before, back, src) && SameBut(back, fs, src) && src.exts == []
    ensures Returned(before, fs, src)
  {
    forall q: Path | q.exts == [] && q != src && q in before && Side(q) in before ensures Side(q) in fs {
      assert Side(q) in back && Side(q) != Side(src) && Side(q) != SideTmp(src);
    }
  }

  lemma MovedBack(before: Files, now: Files, src: Path, dst: Path)
    requires Renaming(before, now, src, dst) && src.exts == [] && dst.exts == []
    ensures Returned(before, Moved(now, dst, src), src)
  {
  }

  lemma PutBackKeeps(before: Files, now: Files, used: set<nat>, src: Path, dst: Path, lost: set<nat>)
    requires WellFormed(before, used) && WellFormed(now, used) && Renaming(before, now, src, dst)
    requires src.exts == [] && dst.exts == [] && src.dir != Staging && dst.dir == Staging
    requires src.dir == Scratch && Side(src) in before && Side(src) !in now ==> before[src].write in lost
    ensures WellFormed(Moved(now, dst, src), used) && Keeps(before, Moved(now, dst, src), lost)
  {
    var fs := Moved(now, dst, src);
    assert forall s :: Path(Scratch, s, []) in fs ==> Path(Scratch, s, []) in before;
    assert forall s :: Path(Recovery, s, []) in fs ==> Path(Recovery, s, []) in before;
    forall w, data | w !in lost && Kept(before, w, data) ensures Kept(fs, w, data) {
      var q :| q in before && before[q] == Bytes(w, data) && Sheltered(before, q);
      assert Side(q).exts == ["json"];
      assert q in fs && fs[q] == Bytes(w, data) && Sheltered(fs, q);
    }
  }

  ghost predicate SameOnStem(a: Files, b: Files, stem: nat) {
    forall q: Path :: q.stem == stem ==> (q in a <==> q in b) && (q in a ==> a[q] == b[q])
  }

  ghost predicate SameOffStem(a: Files, b: Files, stem: nat) {
    forall q: Path :: q.stem != stem ==> (q in a <==> q in b) && (q in a ==> a[q] == b[q])
  }

  /** Bytes in scratch beside a sidecar that parses. */
  ghost predicate Marked(fs: Files, p: Path) {
    && p in fs && p.dir == Scratch && p.exts == []
    && Side(p) in fs && fs[Side(p)].Note? && fs[Side(p)].meta.Some?
  }

  /** The pair at `p` in `a` is in recovery in `b`. */
  ghost predicate Rescued(a: Files, b: Files, p: Path)
    requires p in a && Side(p) in a
  {
    var r := p.(dir := Recovery);
    r in b && b[r] == a[p] && Side(r) in b && b[Side(r)] == a[Side(p)]
  }

  /** `recovered_writes`: the bytes in recovery that have a readable sidecar, with that sidecar. */
  function RecoveredWrites(fs: Files): set<(Path, StagedWrite)> {
    set p | p in fs && p.dir == Recovery && !IsJson(p) && Side(p) in fs
            && fs[Side(p)].Note? && fs[Side(p)].meta.Some? :: (p, fs[Side(p)].meta.value)
  }

  /** Nothing is new: staging is as it was, scratch has lost entries at most, and what is in recovery was there
      or in scratch under the same name; none of recovery's names is gone. */
  ghost predicate Traced(start: Files, now: Files) {
    && (forall q: Path :: q in now && q.dir != Recovery ==> q in start && now[q] == start[q])
    && (forall q: Path :: q in start && q.dir != Scratch ==> q in now)
    && (forall q: Path :: q in now && q.dir == Recovery ==>
          || (q in start && now[q] == start[q])
          || (q.(dir := Scratch) in start && now[q] == start[q.(dir := Scratch)]))
  }

  lemma TracedThrough(a: Files, b: Files, c: Files)
    requires Traced(a, b) && Traced(b, c)
    ensures Traced(a, c)
  {
    forall q: Path | q in c && q.dir == Recovery
      ensures (q in a && c[q] == a[q]) || (q.(dir := Scratch) in a && c[q] == a[q.(dir := Scratch)])
    {
      assert q in b || q.(dir := Scratch) in b;
    }
  }

  lemma PrunedIsTraced(a: Files, b: Files)
    requires Pruned(a, b)
    ensures Traced(a, b)
  {
  }

  /** How far the rescue of `start` is at `now`, with the entries in `todo` still to visit. */
  ghost predicate RescueProgress(start: Files, now: Files, todo: set<Path>, stuck: set<Path>) {
    && (forall p: Path :: p in todo && p.exts == [] ==> SameOnStem(start, now, p.stem))
    && (forall p: Path :: p in now && p.dir == Scratch && p.exts == [] ==> p in start)
    && (stuck == {} ==>
          && (forall p :: Marked(start, p) && p !in todo ==> Rescued(start, now, p))
          && (forall p: Path :: p in start && p.dir == Scratch && p.exts == [] && Side(p) in start && p !in todo ==>
                Side(p) !in now && p.(dir := Recovery) in now && now[p.(dir := Recovery)] == start[p])
          && (forall p: Path :: p in now && p.dir == Scratch && p.exts == [] && p !in todo ==> Side(p) !in now))
  }

  lemma RescueAdvances(start: Files, a: Files, b: Files, todo: set<Path>, p: Path, stuck: set<Path>)
    requires RescueProgress(start, a, todo + {p}, stuck) && p !in todo && p.dir == Scratch
    requires forall q :: q in todo ==> q.dir == Scratch
    requires a == b || (p.exts == [] && SameOffStem(a, b, p.stem) && p in a)
    requires a == b ==> stuck == {} ==> p.exts != [] || p !in a || Side(p) !in a
    requires a != b ==> stuck == {} && Marked(a, p) ==> Rescued(a, b, p)
    requires a != b && stuck == {} ==> p !in b && Side(p) !in b && p.(dir := Recovery) in b && b[p.(dir := Recovery)] == a[p]
    requires a != b ==> forall q: Path :: q in b && q.dir == Scratch && q.exts == [] && q.stem == p.stem ==> q == p
    ensures RescueProgress(start, b, todo, stuck)
  {
  }

  lemma RescueInventsNothing(fs: Files, used: set<nat>, p: Path)
    requires WellFormed(fs, used) && p in fs && p.dir == Scratch && p.exts == [] && Side(p) in fs
    ensures
      var moved := Moved(fs, p, p.(dir := Recovery));
      && Keeps(moved, fs, {}) && Keeps(moved - {Side(p)}, fs, {})
      && Keeps(Moved(moved, Side(p), Side(p).(dir := Recovery)), fs, {})
  {
    var r := p.(dir := Recovery);
    var moved := Moved(fs, p, r);
    forall now, w, data |
      && now in {moved, moved - {Side(p)}, Moved(moved, Side(p), Side(p).(dir := Recovery))}
      && Kept(now, w, data)
      ensures Kept(fs, w, data)
    {
      var q :| q in now && now[q] == Bytes(w, data) && Sheltered(now, q);
      var q' := if q == r then p else q;
      assert Side(q).exts == ["json"] && q != Side(p).(dir := Recovery);
      assert q' in fs && fs[q'] == Bytes(w, data) && Sheltered(fs, q');
    }
  }

  lemma RescueTraces(fs: Files, used: set<nat>, p: Path)
    requires WellFormed(fs, used) && p in fs && p.dir == Scratch && p.exts == [] && Side(p) in fs
    ensures
      var moved := Moved(fs, p, p.(dir := Recovery));
      && Traced(fs, moved) && Traced(fs, moved - {Side(p)})
      && Traced(fs, Moved(moved, Side(p), Side(p).(dir := Recovery)))
  {
    assert Path(Recovery, p.stem, []) == p.(dir := Recovery) && Path(Scratch, p.stem, []) == p;
  }

  /** `b` is `a` without some scratch entries that are not sidecars. */
  ghost predicate Pruned(a: Files, b: Files) {
    && (forall p :: p in b ==> p in a && b[p] == a[p])
    && (forall p :: p in a && (p.dir != Scratch || IsJson(p)) ==> p in b)
  }

  /** How far the pruning of `start` is at `now`, with the entries in `todo` still to visit. */
  ghost predicate PruneProgress(start: Files, now: Files, todo: set<Path>, stuck: set<Path>) {
    && Pruned(start, now)
    && (stuck == {} ==> forall p :: p in now && p.dir == Scratch && p !in todo ==> IsJson(p) || Side(p) in now)
  }

  lemma PruneAdvances(start: Files, a: Files, b: Files, todo: set<Path>, p: Path, stuck: set<Path>)
    requires PruneProgress(start, a, todo + {p}, stuck) && p.dir == Scratch
    requires b == a || (b == a - {p} && !IsJson(p))
    requires stuck == {} && p in b ==> IsJson(p) || Side(p) in a
    ensures PruneProgress(start, b, todo, stuck)
  {
    forall q | stuck == {} && q in b && q.dir == Scratch && q !in todo ensures IsJson(q) || Side(q) in b {
      assert IsJson(Side(q));
    }
  }

  lemma PrunedInventsNothing(a: Files, b: Files)
    requires Pruned(a, b)
    ensures Keeps(b, a, {})
  {
    forall w, data | Kept(b, w, data) ensures Kept(a, w, data) {
      var q :| q in b && b[q] == Bytes(w, data) && Sheltered(b, q);
      assert q in a && Sheltered(a, q);
    }
  }

  lemma RescuedIsOffered(a: Files, b: Files, c: Files, p: Path)
    requires Marked(a, p) && Rescued(a, b, p) && Pruned(b, c)
    ensures p.(dir := Recovery) in c && c[p.(dir := Recovery)] == a[p]
    ensures (p.(dir := Recovery), a[Side(p)].meta.value) in RecoveredWrites(c)
  {
    var r := p.(dir := Recovery);
    assert r in c && Side(r) in c && !IsJson(r);
  }

  /** The moments of a `preserve_write_at` call, one by one. Every write but the source's is kept at all of
      them, and the source's except while its bytes are back without a marker; of a source that was marked
      before the call, and has no other copy, these are exactly the moments it is not kept. */
  ghost predicate Verdict(states: seq<Files>, start: Files, src: Path, o: PreserveOutcomes)
    requires src in start && start[src].Bytes? && |states| > 0
  {
    var w, data, end := start[src].write, start[src].data, states[|states| - 1];
    && (forall k :: 0 <= k < |states| ==> Keeps(start, states[k], if StrandedAt(src, o, k) then {w} else {}))
    && Keeps(start, end, if LeavesStranded(src, o) then {w} else {})
    && (LeavesStranded(src, o) ==> Stranded(start, end, src))
    && (Side(src) in start && OnlyAt(start, w, src) ==>
          forall k :: 0 <= k < |states| ==> (Kept(states[k], w, data) <==> !StrandedAt(src, o, k)))
  }

  /** What `preserve_write_at` comes to, from its failures and whether the source had a marker: the place it
      reports, and whether the write is kept at the end. A write with no other copy is kept only then. */
  ghost predicate Outcome(start: Files, fs: Files, src: Path, dst: Path, o: PreserveOutcomes, r: PreserveResult)
    requires src in start && start[src].Bytes?
  {
    var w, data, marked := start[src].write, start[src].data, Side(src) in start || Appears(o.mark);
    && (r.Retained? ==> r.surviving == SurvivesAt(src, dst, o, marked))
    && (EndsKept(src, o, marked, data) ==> Kept(fs, w, data))
    && (OnlyAt(start, w, src) ==> (Kept(fs, w, data) <==> EndsKept(src, o, marked, data)))
  }

  /** Where the source's bytes end up: the place reported, and whether the next `open` keeps them. `before` is
      the disk after the attempt to mark the source. */
  ghost predicate Fate(before: Files, fs: Files, src: Path, dst: Path, o: PreserveOutcomes, r: PreserveResult)
    requires src in before && before[src].Bytes?
  {
    var w, data, marked := before[src].write, before[src].data, Side(src) in before;
    && (r.Retained? ==> r.surviving == SurvivesAt(src, dst, o, marked))
    && (EndsKept(src, o, marked, data) ==> Kept(fs, w, data))
    && (!EndsKept(src, o, marked, data) ==>
          Stranded(before, fs - {dst}, src) && (dst in fs ==> fs[dst] != Bytes(w, data)))
  }

  class WriteStore {
    var files: Files
    var passed: seq<Files>
    var used: set<nat>

    ghost predicate SafeSo(lost: set<nat>)
      reads this
    {
      Safe(passed, used, lost) && files == passed[|passed| - 1]
    }

    ghost predicate Ready()
      reads this
    {
      WellFormed(files, used)
    }

    constructor ()
      ensures Ready() && files == map[] && used == {}
    {
      files, passed, used := map[], [map[]], {};
    }

    // ----- disk steps

    method Begin()
      requires Ready()
      modifies `passed
      ensures SafeSo({}) && passed == [files]
    {
      passed := [files];
    }

    /** Starts a call that takes the unused name `stem`. */
    method BeginNaming(stem: nat)
      requires Ready() && stem !in used
      modifies `passed, `used
      ensures SafeSo({}) && passed == [files] && used == old(used) + {stem}
      ensures forall p :: p in files ==> p.stem != stem
    {
      passed := [files];
      used := used + {stem};
    }

    method Record(next: Files, ghost from: Files, ghost lost: set<nat>)
      requires SafeSo(lost) && WellFormed(next, used)
      requires Keeps(passed[0], from, lost) && Keeps(from, next, lost)
      modifies `files, `passed
      ensures files == next && passed == old(passed) + [next] && SafeSo(lost)
    {
      SafeExtends(passed, used, lost, from, next);
      files, passed := next, passed + [next];
    }

    method PutNote(p: Path, m: Option<StagedWrite>, ghost lost: set<nat>)
      requires SafeSo(lost) && p.stem in used && (p.exts == ["json"] || p.exts == ["json", "tmp"])
      modifies `files, `passed
      ensures SafeSo(lost) && files == old(files)[p := Note(m)] && passed == old(passed) + [files]
    {
      PutNoteKeeps(files, used, p, m);
      Record(files[p := Note(m)], files, lost);
    }

    method MoveNote(from: Path, to: Path, ghost lost: set<nat>)
      requires SafeSo(lost) && from in files && from != to && to.stem in used
      requires from.exts == ["json"] || from.exts == ["json", "tmp"]
      requires to.exts == ["json"] || to.exts == ["json", "tmp"]
      requires from.exts == ["json"] && from.dir == Scratch ==> Path(Scratch, from.stem, []) !in files
      modifies `files, `passed
      ensures SafeSo(lost) && files == Moved(old(files), from, to) && passed == old(passed) + [files]
    {
      MoveNoteKeeps(files, used, from, to);
      Record(Moved(files, from, to), files, lost);
    }

    method DropNote(p: Path, ghost lost: set<nat>)
      requires SafeSo(lost) && p.exts != []
      requires p.exts == ["json"] && p.dir == Scratch ==> Path(Scratch, p.stem, []) !in files
      modifies `files, `passed
      ensures SafeSo(lost) && files == old(files) - {p} && passed == old(passed) + [files]
    {
      DropNoteKeeps(files, used, p);
      Record(files - {p}, files, lost);
    }

    method MoveBytes(from: Path, to: Path, ghost lost: set<nat>)
      requires SafeSo(lost) && from in files && from.exts == [] && to.exts == []
      requires to !in files && to.stem in used
      requires to.dir == Scratch ==> Path(Recovery, to.stem, []) !in files || from == Path(Recovery, to.stem, [])
      requires to.dir == Recovery ==> Path(Scratch, to.stem, []) !in files || from == Path(Scratch, to.stem, [])
      requires to.dir != Scratch || Side(to) in files || files[from].write in lost
      modifies `files, `passed
      ensures SafeSo(lost) && files == Moved(old(files), from, to) && passed == old(passed) + [files]
    {
      MoveBytesKeeps(files, used, from, to, lost);
      Record(Moved(files, from, to), files, lost);
    }

    method DropBytes(p: Path, copy: Path, ghost lost: set<nat>)
      requires SafeSo(lost) && p in files && p.exts == []
      requires || !Sheltered(files, p)
               || (copy != p && copy in files && files[copy] == files[p] && Sheltered(files, copy))
               || files[p].write in lost
      modifies `files, `passed
      ensures SafeSo(lost) && files == old(files) - {p} && passed == old(passed) + [files]
    {
      DropBytesKeeps(files, used, p, copy, lost);
      Record(files - {p}, files, lost);
    }

    /** Copies the bytes at `src` to the unused name `dst`; partial bytes may be seen on the way. */
    method Copy(src: Path, dst: Path, how: CopyOutcome, ghost lost: set<nat>) returns (ok: bool)
      requires SafeSo(lost) && src in files && src.exts == []
      requires dst.dir == Staging && dst.exts == [] && dst.stem in used && dst !in files
      modifies `files, `passed
      ensures SafeSo(lost) && |passed| > 0 && passed[0] == old(passed[0])
      ensures ok <==> how.Copied?
      ensures ok ==> files == old(files)[dst := old(files)[src]]
      ensures !ok ==> files - {dst} == old(files) && PartlyCopied(files, dst, old(files)[src], how)
    {
      if how == CopyFails(None) {
        return false;
      }
      ghost var before := files;
      var prefix := if how.Copied? then [] else how.prefix.value;
      PutBytesKeeps(files, used, dst, Bytes(files[src].write, prefix), lost);
      Record(files[dst := Bytes(files[src].write, prefix)], files, lost);
      if how.CopyFails? {
        return false;
      }
      PutBytesKeeps(before, used, dst, before[src], lost);
      assert files[dst := files[src]] == before[dst := before[src]];
      Record(files[dst := files[src]], before, lost);
      return true;
    }

    /** Writes a sidecar for the bytes at `p` under a temporary name and renames it into place; with
        `createNew`, an existing temporary file is an error. */
    method WriteSidecar(p: Path, meta: StagedWrite, how: Publication, createNew: bool, ghost lost: set<nat>)
      returns (ok: bool)
      requires SafeSo(lost) && p.exts == [] && p.stem in used
      modifies `files, `passed
      ensures SafeSo(lost) && old(passed) <= passed
      ensures SameBut(old(files), files, p)
      ensures ok <==> how.Published? && !(createNew && SideTmp(p) in old(files))
      ensures ok ==> Side(p) in files && files[Side(p)] == Note(Some(meta))
      ensures Side(p) in files <==>
                Side(p) in old(files) || (Appears(how) && !(createNew && SideTmp(p) in old(files)))
      ensures Side(p) in files && !(createNew && SideTmp(p) in old(files)) ==>
                files[Side(p)] == if Appears(how) then Note(Some(meta)) else old(files)[Side(p)]
      ensures !createNew ==> passed == old(passed) + SidecarSteps(old(files), p, meta, how)
    {
      if createNew && SideTmp(p) in files {
        return false;
      }
      SidecarStepsEnd(files, p, meta, how);
      ok := PublishSidecar(p, meta, how, lost);
    }

    method PublishSidecar(p: Path, meta: StagedWrite, how: Publication, ghost lost: set<nat>) returns (ok: bool)
      requires SafeSo(lost) && p.exts == [] && p.stem in used
      modifies `files, `passed
      ensures SafeSo(lost) && (ok <==> how.Published?)
      ensures
        var steps := SidecarSteps(old(files), p, meta, how);
        passed == old(passed) + steps && files == if steps == [] then old(files) else steps[|steps| - 1]
    {
      if how.StopsAtCreate? {
        return false;
      }
      PutNote(SideTmp(p), None, lost);
      if how.StopsTorn? {
        return false;
      }
      ghost var torn := files;
      FillSidecar(p, meta, how, lost);
      Reassociate(old(passed), [torn], passed[|old(passed)| + 1..]);
      assert SidecarSteps(old(files), p, meta, how) == [torn] + passed[|old(passed)| + 1..];
      return how.Published?;
    }

    method FillSidecar(p: Path, meta: StagedWrite, how: Publication, ghost lost: set<nat>)
      requires SafeSo(lost) && p.exts == [] && p.stem in used && SideTmp(p) in files
      modifies `files, `passed
      ensures SafeSo(lost)
      ensures
        var whole := old(files)[SideTmp(p) := Note(Some(meta))];
        var placed := Moved(whole, SideTmp(p), Side(p));
        && files == (if how.StopsAtRename? then whole else placed)
        && passed == old(passed) + if how.StopsAtRename? then [whole] else [whole, placed]
    {
      PutNote(SideTmp(p), Some(meta), lost);
      if !how.StopsAtRename? {
        MoveNote(SideTmp(p), Side(p), lost);
      }
    }

    // ----- calls

    /** `create_scratch`, and the bytes the application puts into the new file. */
    method CreateScratch(stem: nat, w: nat, data: seq<nat>) returns (p: Path)
      requires Ready() && stem !in used
      modifies this
      ensures Ready() && SafeSo({}) && passed[0] == old(files) && used == old(used) + {stem}
      ensures p == Path(Scratch, stem, []) && files == old(files)[p := Bytes(w, data)]
    {
      p := Path(Scratch, stem, []);
      BeginNaming(stem);
      PutBytesKeeps(files, used, p, Bytes(w, data), {});
      Record(files[p := Bytes(w, data)], files, {});
    }

    /** A later write through the still open handle: the file's bytes change in place. */
    method WriteScratch(p: Path, data: seq<nat>)
      requires Ready() && p.dir == Scratch && p.exts == [] && p in files
      modifies this
      ensures Ready() && used == old(used) && passed == [old(files), files]
      ensures SafeSo(if Sheltered(old(files), p) then {old(files)[p].write} else {})
      ensures files == old(files)[p := Bytes(old(files)[p].write, data)]
    {
      Begin();
      ghost var lost := if Sheltered(files, p) then {files[p].write} else {};
      SafeWeakens(passed, used, {}, lost);
      PutBytesKeeps(files, used, p, Bytes(files[p].write, data), lost);
      Record(files[p := Bytes(files[p].write, data)], files, lost);
    }

    /** `mark_scratch_durable`. */
    method MarkScratchDurable(p: Path, meta: StagedWrite, how: Publication) returns (ok: bool)
      requires Ready() && p.exts == [] && p.stem in used
      modifies this
      ensures Ready() && SafeSo({}) && passed[0] == old(files) && used == old(used)
      ensures SameBut(old(files), files, p)
      ensures ok <==> how.Published?
      ensures Side(p) in files <==> Side(p) in old(files) || Appears(how)
      ensures Side(p) in files ==> files[Side(p)] == if Appears(how) then Note(Some(meta)) else old(files)[Side(p)]
      ensures ok && p in files ==> Kept(files, files[p].write, files[p].data)
    {
      Begin();
      ok := WriteSidecar(p, meta, how, false, {});
      if ok && p in files {
        assert Sheltered(files, p) && files[p] == Bytes(files[p].write, files[p].data);
      }
    }

    /** `clear_scratch_durable`, best effort: a marker that is removed gives up the shelter of what is at `p`. */
    method ClearScratchDurable(p: Path, removed: bool)
      requires Ready() && p.exts == []
      modifies this
      ensures SafeSo(if removed && p in old(files) && p.dir == Scratch && Side(p) in old(files)
                     then {old(files)[p].write} else {})
      ensures Ready() && used == old(used) && passed[0] == old(files)
      ensures files == if removed then old(files) - {Side(p)} else old(files)
    {
      Begin();
      if removed {
        ghost var lost := if p in files && p.dir == Scratch && Side(p) in files then {files[p].write} else {};
        SafeWeakens(passed, used, {}, lost);
        DropMarkerKeeps(files, used, p);
        Record(files - {Side(p)}, files, lost);
      }
    }

    /** `discard_staged`, best effort: bytes, then sidecar. */
    method DiscardStaged(p: Path, dropsBytes: bool, dropsSide: bool)
      requires Ready() && p.dir == Staging && p.exts == []
      modifies this
      ensures SafeSo(if dropsBytes && p in old(files) then {old(files)[p].write} else {})
      ensures Ready() && used == old(used) && passed[0] == old(files)
      ensures files == old(files) - (if dropsBytes then {p} else {}) - (if dropsSide then {Side(p)} else {})
    {
      Begin();
      ghost var lost := if dropsBytes && p in files then {files[p].write} else {};
      SafeWeakens(passed, used, {}, lost);
      if dropsBytes && p in files {
        DropBytes(p, p, lost);
      }
      if dropsSide {
        DropNote(Side(p), lost);
      }
    }

    /** `discard_recovered`, best effort: sidecar, then bytes. */
    method DiscardRecovered(p: Path, dropsSide: bool, dropsBytes: bool)
      requires Ready() && p.dir == Recovery && p.exts == []
      modifies this
      ensures SafeSo(if dropsBytes && p in old(files) then {old(files)[p].write} else {})
      ensures Ready() && used == old(used) && passed[0] == old(files)
      ensures dropsSide ==> |passed| > 1 && Keeps(old(files), passed[1], {})
      ensures files == old(files) - (if dropsBytes then {p} else {}) - (if dropsSide then {Side(p)} else {})
    {
      Begin();
      if dropsSide {
        DropNote(Side(p), {});
      }
      ghost var lost := if dropsBytes && p in files then {files[p].write} else {};
      SafeWeakens(passed, used, {}, lost);
      if dropsBytes && p in files {
        DropBytes(p, p, lost);
      }
    }

    /** `stage_write_at`. Whatever fails, every state on the way keeps every write; on success the bytes
        are in staging with their sidecar and the source is gone. */
    method StageWriteAt(meta: StagedWrite, src: Path, dst: Path, o: StageOutcomes) returns (ok: bool)
      requires Ready() && src in files && src.exts == [] && src.dir != Staging
      requires dst.dir == Staging && dst.exts == [] && dst.stem !in used
      modifies this
      ensures Ready() && SafeSo({}) && passed[0] == old(files) && used == old(used) + {dst.stem}
      ensures ok <==> StageSucceeds(o)
      ensures ok ==> dst in files && files[dst] == old(files)[src] && src !in files
      ensures ok ==> Side(dst) in files && files[Side(dst)] == Note(Some(meta))
      ensures ok ==> Kept(files, old(files)[src].write, old(files)[src].data)
      ensures src in files <==> !ok && !o.rename.Renamed?
      ensures src in files ==> files[src] == old(files)[src]
      ensures StageLands(o) ==>
                && dst in files && files[dst] == old(files)[src]
                && Kept(files, old(files)[src].write, old(files)[src].data)
    {
      BeginNaming(dst.stem);
      ghost var bytes := files[src];
      var copied := false;
      if o.rename.Renamed? {
        MoveBytes(src, dst, {});
      } else if o.rename.Refused? {
        return false;
      } else {
        copied := Copy(src, dst, o.copy, {});
        if !copied {
          return false;
        }
      }
      assert files[dst] == bytes && (if copied then src in files && files[src] == bytes else src !in files);
      ok := false;
      if o.sync {
        ok := FinishStaging(meta, src, dst, copied, o);
      }
      assert Sheltered(files, dst) && files[dst] == Bytes(bytes.write, bytes.data);
    }

    /** The end of `stage_write_at`: sidecar, then the removal of a copied source. */
    method FinishStaging(meta: StagedWrite, src: Path, dst: Path, copied: bool, o: StageOutcomes) returns (ok: bool)
      requires SafeSo({}) && src.exts == [] && src.stem != dst.stem
      requires dst.dir == Staging && dst.exts == [] && dst.stem in used && dst in files && SideTmp(dst) !in files
      requires if copied then src in files && files[src] == files[dst] else src !in files
      modifies `files, `passed
      ensures SafeSo({}) && passed[0] == old(passed[0])
      ensures ok <==> o.publish.Published? && (copied ==> o.remove)
      ensures dst in files && files[dst] == old(files)[dst]
      ensures src in files <==> copied && !ok
      ensures src in files ==> files[src] == old(files)[src]
      ensures ok ==> Side(dst) in files && files[Side(dst)] == Note(Some(meta))
    {
      ok := WriteSidecar(dst, meta, o.publish, true, {});
      if ok && copied {
        if !o.remove {
          return false;
        }
        DropBytes(src, dst, {});
      }
    }

    /** The way back of `preserve_write_at` after its rename: bytes to the source again, and a new marker
        if the source has none. */
    method PutBack(meta: StagedWrite, src: Path, dst: Path, o: PreserveOutcomes, ghost before: Files, ghost lost: set<nat>)
      returns (r: PreserveResult)
      requires SafeSo({}) && WellFormed(before, used) && Keeps(passed[0], before, {})
      requires Renaming(before, files, src, dst)
      requires src.exts == [] && src.dir != Staging && src.stem in used && dst.dir == Staging && dst.exts == []
      requires src.dir == Scratch && o.renameBack && Side(src) in before && Side(src) !in files ==>
                 before[src].write in lost
      modifies `files, `passed
      ensures SafeSo(lost) && old(passed) <= passed
      ensures r.Retained? && r.surviving == (if o.renameBack then src else dst)
      ensures Accounts(files, before[src], meta, src, dst, r)
      ensures o.renameBack ==>
                && Returned(before, files, src)
                && (Side(src) in files <==> Side(src) in old(files) || Appears(o.remark))
      ensures o.renameBack && Side(src) !in old(files) ==>
                ReturnsBare(before, passed, |old(passed)|, src, o.remark)
    {
      SafeWeakens(passed, used, {}, lost);
      if !o.renameBack {
        return Retained(dst, MarkerOf(files, dst, src));
      }
      PutBackKeeps(before, files, used, src, dst, lost);
      MovedBack(before, files, src, dst);
      Record(Moved(files, dst, src), before, lost);
      if Side(src) !in files {
        MarkedAgain(before, old(passed), files, src, meta, o.remark);
        var _ := WriteSidecar(src, meta, o.remark, false, lost);
      }
      return Retained(src, MarkerOf(files, src, src));
    }

    /** Gives the renamed bytes their sidecar: the source's marker if there is one, else a new one. */
    method PublishRenamed(meta: StagedWrite, src: Path, dst: Path, marked: bool, o: PreserveOutcomes, ghost lost: set<nat>)
      returns (published: bool)
      requires SafeSo(lost) && src !in files && src.exts == [] && src.dir != Staging
      requires dst.dir == Staging && dst.exts == [] && dst.stem in used && SideTmp(dst) !in files
      requires marked ==> Side(src) in files && files[Side(src)] == Note(Some(meta))
      modifies `files, `passed
      ensures SafeSo(lost) && old(passed) <= passed
      ensures forall q :: q != Side(src) && q != Side(dst) && q != SideTmp(dst) ==>
                (q in files <==> q in old(files)) && (q in files ==> files[q] == old(files)[q])
      ensures published <==> if marked then o.moveMarker && o.syncDir else o.publish.Published?
      ensures published ==> Side(dst) in files && files[Side(dst)] == Note(Some(meta))
      ensures Side(src) in files <==> Side(src) in old(files) && !(marked && o.moveMarker)
      ensures marked && o.moveMarker && !o.syncDir ==> |passed| == |old(passed)| + if o.sweep then 2 else 1
    {
      if !marked {
        published := WriteSidecar(dst, meta, o.publish, true, lost);
      } else if o.moveMarker {
        MoveNote(Side(src), Side(dst), lost);
        published := o.syncDir;
      } else {
        published := false;
      }
      if !published && o.sweep {
        DropNote(SideTmp(dst), lost);
      }
    }

    /** Sync and publication after the rename, as one attempt: what it leaves is still the renamed source. */
    method TryPublish(meta: StagedWrite, src: Path, dst: Path, marked: bool, o: PreserveOutcomes, ghost before: Files)
      returns (published: bool)
      requires SafeSo({}) && WellFormed(before, used)
      requires src in before && src.exts == [] && src.dir != Staging
      requires dst.dir == Staging && dst.exts == [] && dst.stem in used && forall p :: p in before ==> p.stem != dst.stem
      requires files == Moved(before, src, dst)
      requires marked ==> Side(src) in files && files[Side(src)] == Note(Some(meta))
      modifies `files, `passed
      ensures SafeSo({}) && old(passed) <= passed && Renaming(before, files, src, dst)
      ensures published <==> o.sync && if marked then o.moveMarker && o.syncDir else o.publish.Published?
      ensures published ==> Side(dst) in files && files[Side(dst)] == Note(Some(meta))
      ensures Side(src) in files <==> Side(src) in before && !(marked && o.sync && o.moveMarker)
      ensures Strands(marked, o) ==> |passed| == |old(passed)| + if o.sweep then 2 else 1
    {
      published := false;
      if o.sync {
        published := PublishRenamed(meta, src, dst, marked, o, {});
      }
      RenamingSurvivesNotes(before, files, used, src, dst);
    }

    /** `preserve_write_at` once the source has been renamed to the destination. */
    method PreserveRenamed(meta: StagedWrite, src: Path, dst: Path, marked: bool, o: PreserveOutcomes, ghost before: Files)
      returns (r: PreserveResult)
      requires SafeSo({}) && WellFormed(before, used) && Keeps(passed[0], before, {})
      requires src in before && src.exts == [] && src.dir != Staging
      requires dst.dir == Staging && dst.exts == [] && dst.stem in used && forall p :: p in before ==> p.stem != dst.stem
      requires files == Moved(before, src, dst)
      requires marked ==> Side(src) in files && files[Side(src)] == Note(Some(meta))
      modifies `files, `passed
      ensures SafeSo(if Strands(marked, o) && src.dir == Scratch then {before[src].write} else {})
      ensures old(passed) <= passed
      ensures r.Preserved? <==> o.sync && if marked then o.moveMarker && o.syncDir else o.publish.Published?
      ensures Accounts(files, before[src], meta, src, dst, r)
      ensures r.Retained? ==> r.surviving == if o.renameBack then src else dst
      ensures r.Retained? && o.renameBack ==>
                && Returned(before, files, src)
                && (Side(src) in files <==>
                      (Side(src) in before && !(marked && o.sync && o.moveMarker)) || Appears(o.remark))
      ensures Strands(marked, o) ==>
                var n := |old(passed)| + if o.sweep then 2 else 1;
                && ReturnsBare(before, passed, n, src, o.remark)
                && forall k :: 0 <= k < n ==> Keeps(passed[0], passed[k], {})
    {
      var published := TryPublish(meta, src, dst, marked, o, before);
      if published {
        return Preserved(dst);
      }
      ghost var lost := if Strands(marked, o) && src.dir == Scratch then {before[src].write} else {};
      r := PutBack(meta, src, dst, o, before, lost);
    }

    /** `preserve_write_at` once the rename has been refused: copy, publish, and only then remove the source. */
    method PreserveCopied(meta: StagedWrite, src: Path, dst: Path, o: PreserveOutcomes, ghost lost: set<nat>)
      returns (r: PreserveResult)
      requires !o.rename
      requires SafeSo(lost) && src in files && src.exts == [] && src.dir != Staging
      requires dst.dir == Staging && dst.exts == [] && dst.stem in used && forall p :: p in files ==> p.stem != dst.stem
      modifies `files, `passed
      ensures SafeSo(lost) && passed[0] == old(passed[0])
      ensures r.Preserved? <==> o.copy.Copied? && o.sync && o.publish.Published? && o.remove
      ensures Accounts(files, old(files)[src], meta, src, dst, r)
      ensures Fate(old(files), files, src, dst, o, r)
    {
      var sourceMarked := Side(src) in files;
      var copied := Copy(src, dst, o.copy, lost);
      if !copied {
        ghost var tried := files;
        r := ParkSource(meta, src, dst, sourceMarked, o, lost);
        ParkFate(old(files), tried, files, used, src, dst, o, r);
        return;
      }
      r := PublishCopy(meta, src, dst, sourceMarked, o, lost);
      CopyFate(old(files), files, src, dst, o, r);
    }

    /** The end of it, with the bytes at both places: the source goes only once the copy has its sidecar. */
    method PublishCopy(meta: StagedWrite, src: Path, dst: Path, sourceMarked: bool, o: PreserveOutcomes, ghost lost: set<nat>)
      returns (r: PreserveResult)
      requires SafeSo(lost) && src in files && src.exts == [] && src.dir != Staging && (sourceMarked <==> Side(src) in files)
      requires dst.dir == Staging && dst.exts == [] && dst.stem in used && src.stem != dst.stem
      requires dst in files && files[dst] == files[src] && SideTmp(dst) !in files
      modifies `files, `passed
      ensures SafeSo(lost) && passed[0] == old(passed[0])
      ensures r.Preserved? <==> o.sync && o.publish.Published? && o.remove
      ensures Accounts(files, old(files)[src], meta, src, dst, r)
      ensures dst in files && files[dst] == old(files)[dst]
      ensures r.Retained? ==>
                r.surviving == if (o.sync && o.publish.Published?) || !sourceMarked then dst else src
    {
      if !o.sync {
        return if sourceMarked then Retained(src, MarkerOf(files, src, src)) else Retained(dst, MarkerOf(files, dst, src));
      }
      var published := WriteSidecar(dst, meta, o.publish, true, lost);
      if !published {
        if o.sweep {
          DropNote(SideTmp(dst), lost);
        }
        return if sourceMarked then Retained(src, MarkerOf(files, src, src)) else Retained(dst, MarkerOf(files, dst, src));
      }
      if !o.remove {
        return Retained(dst, MarkerOf(files, dst, src));
      }
      RemoveSource(src, dst, o, lost);
      return Preserved(dst);
    }

    method RemoveSource(src: Path, dst: Path, o: PreserveOutcomes, ghost lost: set<nat>)
      requires SafeSo(lost) && src in files && src.exts == [] && dst in files && dst.exts == []
      requires dst.dir == Staging && src != dst && src.stem != dst.stem && files[src] == files[dst]
      modifies `files, `passed
      ensures SafeSo(lost) && passed[0] == old(passed[0])
      ensures files == if o.clear then old(files) - {src, Side(src)} else old(files) - {src}
    {
      DropBytes(src, dst, lost);
      if o.clear {
        DropNote(Side(src), lost);
      }
    }

    /** After a failed copy, an unmarked source is moved to recovery, where no marker is needed. */
    method ParkSource(ghost meta: StagedWrite, src: Path, dst: Path, sourceMarked: bool, o: PreserveOutcomes,
                      ghost lost: set<nat>)
      returns (r: PreserveResult)
      requires SafeSo(lost) && src in files && src.exts == [] && src.dir != Staging
      requires sourceMarked <==> Side(src) in files
      requires dst.dir == Staging && dst.exts == [] && dst.stem in used && src.stem != dst.stem
      requires forall p :: p in files && p != dst ==> p.stem != dst.stem
      modifies `files, `passed
      ensures SafeSo(lost) && passed[0] == old(passed[0])
      ensures r.Retained? && Accounts(files, old(files)[src], meta, src, dst, r)
      ensures if !sourceMarked && o.park
              then r.surviving == dst.(dir := Recovery) && files == Moved(old(files), src, r.surviving)
              else r.surviving == src && files == old(files)
    {
      if !sourceMarked && o.park {
        var recovery := dst.(dir := Recovery);
        MoveBytes(src, recovery, lost);
        return Retained(recovery, MarkerOf(files, recovery, src));
      }
      return Retained(src, MarkerOf(files, src, src));
    }

    /** `preserve_write_at` after its attempt to mark the source. */
    method PreserveMoved(meta: StagedWrite, src: Path, dst: Path, marked: bool, o: PreserveOutcomes)
      returns (r: PreserveResult)
      requires SafeSo({}) && src in files && src.exts == [] && src.dir != Staging
      requires dst.dir == Staging && dst.exts == [] && dst.stem in used && forall p :: p in files ==> p.stem != dst.stem
      requires marked ==> Side(src) in files && files[Side(src)] == Note(Some(meta))
      requires marked <==> o.mark.Published?
      modifies `files, `passed
      ensures SafeSo(if StrandsSource(src, o) then {old(files)[src].write} else {})
      ensures passed[0] == old(passed[0])
      ensures r.Preserved? <==> PreserveSucceeds(o)
      ensures Accounts(files, old(files)[src], meta, src, dst, r)
      ensures Fate(old(files), files, src, dst, o, r)
      ensures o.rename && Strands(marked, o) ==>
                var n := |old(passed)| + if o.sweep then 3 else 2;
                && ReturnsBare(old(files), passed, n, src, o.remark)
                && forall k :: 0 <= k < n ==> Keeps(passed[0], passed[k], {})
    {
      if o.rename {
        MoveBytes(src, dst, {});
        r := PreserveRenamed(meta, src, dst, marked, o, old(files));
        RenameFate(old(files), files, meta, src, dst, o, r);
      } else {
        r := PreserveCopied(meta, src, dst, o, {});
      }
    }

    /** `preserve_write_at` under its destination's new name. */
    method PreserveNamed(meta: StagedWrite, src: Path, dst: Path, o: PreserveOutcomes) returns (r: PreserveResult)
      requires SafeSo({}) && passed == [files] && src in files && src.exts == [] && src.dir != Staging
      requires dst.dir == Staging && dst.exts == [] && dst.stem in used && forall p :: p in files ==> p.stem != dst.stem
      modifies `files, `passed
      ensures SafeSo(if StrandsSource(src, o) then {old(files)[src].write} else {}) && passed[0] == old(files)
      ensures r.Preserved? <==> PreserveSucceeds(o)
      ensures Accounts(files, old(files)[src], meta, src, dst, r)
      ensures Verdict(passed, old(files), src, o)
      ensures Outcome(old(files), files, src, dst, o, r)
    {
      var marked := WriteSidecar(src, meta, o.mark, false, {});
      ghost var before := files;
      r := PreserveMoved(meta, src, dst, marked, o);
      PreserveEnds(passed, used, old(files), before, files, src, dst, o, r);
    }

    /** `preserve_write_at`, for every combination of failing steps and at every moment of the call. */
    method PreserveWriteAt(meta: StagedWrite, src: Path, dst: Path, o: PreserveOutcomes) returns (r: PreserveResult)
      requires Ready() && src in files && src.exts == [] && src.dir != Staging
      requires dst.dir == Staging && dst.exts == [] && dst.stem !in used
      modifies this
      ensures Ready() && passed != [] && files == passed[|passed| - 1] && passed[0] == old(files)
      ensures used == old(used) + {dst.stem}
      ensures r.Preserved? <==> PreserveSucceeds(o)
      ensures Accounts(files, old(files)[src], meta, src, dst, r)
      ensures r.Preserved? || r.surviving.dir != Scratch || r.marker.Some? ==>
                Kept(files, old(files)[src].write, old(files)[src].data)
      ensures (forall k :: 0 <= k < |passed| ==> WellFormed(passed[k], used)) && Verdict(passed, old(files), src, o)
      ensures Outcome(old(files), files, src, dst, o, r)
    {
      BeginNaming(dst.stem);
      r := PreserveNamed(meta, src, dst, o);
      AccountedIsKept(files, old(files)[src], meta, src, dst, r);
    }

    // ----- opening the cache

    /** One round of `rescue_scratch`: bytes first, then their sidecar; an unreadable sidecar is dropped.
        Steps on the paths in `stuck` fail. */
    method RescueOne(p: Path, stuck: set<Path>)
      requires SafeSo({}) && p in files && p.dir == Scratch && p.exts == [] && Side(p) in files
      modifies `files, `passed
      ensures SafeSo({}) && passed[0] == old(passed[0])
      ensures SameOffStem(old(files), files, p.stem)
      ensures p in files ==> Side(p) in files
      ensures Keeps(files, old(files), {}) && Traced(old(files), files)
      ensures stuck == {} ==>
                && p !in files && Side(p) !in files
                && p.(dir := Recovery) in files && files[p.(dir := Recovery)] == old(files)[p]
                && (old(files)[Side(p)].meta.Some? ==> Rescued(old(files), files, p))
    {
      var valid := files[Side(p)].meta.Some?;
      if p in stuck {
        assert Traced(files, files);
        return;
      }
      RescueInventsNothing(files, used, p);
      RescueTraces(files, used, p);
      MoveBytes(p, p.(dir := Recovery), {});
      if Side(p) in stuck {
        return;
      }
      if valid {
        MoveNote(Side(p), Side(p).(dir := Recovery), {});
      } else {
        DropNote(Side(p), {});
      }
    }

    /** One entry of the scratch directory: a pair is rescued, anything else is left. */
    method RescueEntry(p: Path, stuck: set<Path>, ghost start: Files, ghost todo: set<Path>)
      requires SafeSo({}) && p.dir == Scratch && p !in todo && (forall q :: q in todo ==> q.dir == Scratch)
      requires RescueProgress(start, files, todo + {p}, stuck)
      modifies `files, `passed
      ensures SafeSo({}) && passed[0] == old(passed[0])
      ensures RescueProgress(start, files, todo, stuck)
      ensures Keeps(files, old(files), {}) && Traced(old(files), files)
    {
      if !IsJson(p) && p in files && Side(p) in files {
        RescueOne(p, stuck);
      }
      RescueAdvances(start, old(files), files, todo, p, stuck);
    }

    method RescueScratch(stuck: set<Path>)
      requires SafeSo({})
      modifies `files, `passed
      ensures SafeSo({}) && passed[0] == old(passed[0])
      ensures RescueProgress(old(files), files, {}, stuck) && Keeps(files, old(files), {})
      ensures Traced(old(files), files)
    {
      var todo := set p | p in files && p.dir == Scratch;
      while todo != {}
        invariant SafeSo({}) && passed[0] == old(passed[0]) && (forall p :: p in todo ==> p.dir == Scratch)
        invariant RescueProgress(old(files), files, todo, stuck) && Keeps(files, old(files), {})
        invariant Traced(old(files), files)
        decreases todo
      {
        var p :| p in todo;
        ghost var before := files;
        todo := todo - {p};
        RescueEntry(p, stuck, old(files), todo);
        TracedThrough(old(files), before, files);
      }
    }

    /** `discard_unmarked_scratch`. */
    method DiscardUnmarkedScratch(stuck: set<Path>)
      requires SafeSo({})
      modifies `files, `passed
      ensures SafeSo({}) && passed[0] == old(passed[0]) && Pruned(old(files), files)
      ensures stuck == {} ==> forall p :: p in files && p.dir == Scratch ==> IsJson(p) || Side(p) in files
    {
      var todo := set p | p in files && p.dir == Scratch;
      while todo != {}
        invariant SafeSo({}) && passed[0] == old(passed[0]) && (forall p :: p in todo ==> p.dir == Scratch)
        invariant PruneProgress(old(files), files, todo, stuck)
        decreases todo
      {
        var p :| p in todo;
        ghost var before := files;
        todo := todo - {p};
        if !IsJson(p) && Side(p) !in files && p !in stuck && p in files {
          DiscardOne(p);
        }
        PruneAdvances(old(files), before, files, todo, p, stuck);
      }
    }

    method DiscardOne(p: Path)
      requires SafeSo({}) && p in files && p.dir == Scratch && !IsJson(p) && Side(p) !in files
      modifies `files, `passed
      ensures SafeSo({}) && passed[0] == old(passed[0]) && files == old(files) - {p}
    {
      if p.exts == [] {
        DropBytes(p, p, {});
      } else {
        DropNote(p, {});
      }
    }

    /** The part of `open` that touches accepted writes. Whatever fails and wherever it is cut short,
        every kept write stays kept and no other write becomes so; when nothing fails, every marked scratch
        write with a readable sidecar is offered for recovery, with its bytes and that sidecar, and scratch
        holds no bytes. */
    method Open(stuck: set<Path>)
      requires Ready()
      modifies `files, `passed
      ensures Ready() && SafeSo({}) && passed[0] == old(files)
      ensures forall w, data :: Kept(files, w, data) <==> Kept(old(files), w, data)
      ensures Traced(old(files), files)
      ensures stuck == {} ==> forall p :: Marked(old(files), p) ==>
                && p.(dir := Recovery) in files && files[p.(dir := Recovery)] == old(files)[p]
                && (p.(dir := Recovery), old(files)[Side(p)].meta.value) in RecoveredWrites(files)
      ensures stuck == {} ==> forall p: Path :: p.dir == Scratch && p.exts == [] ==> p !in files
      ensures stuck == {} ==> forall p: Path ::
                p in old(files) && p.dir == Scratch && p.exts == [] && Side(p) in old(files) ==>
                Side(p) !in files && p.(dir := Recovery) in files && files[p.(dir := Recovery)] == old(files)[p]
    {
      Begin();
      RescueScratch(stuck);
      ghost var rescued := files;
      DiscardUnmarkedScratch(stuck);
      PrunedInventsNothing(rescued, files);
      PrunedIsTraced(rescued, files);
      TracedThrough(old(files), rescued, files);
      if stuck == {} {
        forall p | Marked(old(files), p)
          ensures p.(dir := Recovery) in files && files[p.(dir := Recovery)] == old(files)[p]
          ensures (p.(dir := Recovery), old(files)[Side(p)].meta.value) in RecoveredWrites(files)
        {
          RescuedIsOffered(old(files), rescued, files, p);
        }
      }
    }

    /** A crash: the disk is left in one of the states the last call passed through. */
    method Crash(at: nat)
      requires at < |passed| && WellFormed(passed[at], used)
      modifies `files, `passed
      ensures Ready() && files == old(passed[at]) && passed == [files]
    {
      files := passed[at];
      passed := [files];
    }
  }

  lemma DropMarkerKeeps(fs: Files, used: set<nat>, p: Path)
    requires WellFormed(fs, used) && p.exts == []
    ensures WellFormed(fs - {Side(p)}, used)
    ensures Keeps(fs, fs - {Side(p)}, if p in fs && p.dir == Scratch && Side(p) in fs then {fs[p].write} else {})
  {
    var fs' := fs - {Side(p)};
    forall w, data | Kept(fs, w, data) && !(p in fs && p.dir == Scratch && Side(p) in fs && w == fs[p].write)
      ensures Kept(fs', w, data)
    {
      var q :| q in fs && fs[q] == Bytes(w, data) && Sheltered(fs, q);
      assert q in fs' && Sheltered(fs', q);
    }
  }

  /** After a failed copy. */
  lemma ParkFate(before: Files, tried: Files, fs: Files, used: set<nat>, src: Path, dst: Path, o: PreserveOutcomes,
                 r: PreserveResult)
    requires WellFormed(before, used) && src in before && src.exts == [] && src.dir != Staging
    requires dst.dir == Staging && dst.exts == [] && dst !in before && !o.rename && o.copy.CopyFails?
    requires tried - {dst} == before && PartlyCopied(tried, dst, before[src], o.copy)
    requires src in tried && tried[src] == before[src]
    requires r.Retained? && r.surviving == SurvivesAt(src, dst, o, Side(src) in before)
    requires fs == if r.surviving == src then tried else Moved(tried, src, r.surviving)
    ensures Fate(before, fs, src, dst, o, r)
  {
    var w, data, marked := before[src].write, before[src].data, Side(src) in before;
    assert Side(src) in tried <==> marked;
    assert before[src] == Bytes(w, data);
    if EndsKept(src, o, marked, data) {
      var at := if marked || o.park || src.dir == Recovery then r.surviving else dst;
      assert at in fs && fs[at] == Bytes(w, data) && Sheltered(fs, at);
    } else {
      assert fs - {dst} == before;
    }
  }

  /** After a copy. */
  lemma CopyFate(before: Files, fs: Files, src: Path, dst: Path, o: PreserveOutcomes, r: PreserveResult)
    requires src in before && before[src].Bytes? && dst.dir == Staging && dst.exts == [] && !o.rename && o.copy.Copied?
    requires dst in fs && fs[dst] == before[src]
    requires r.Retained? ==> r.surviving == SurvivesAt(src, dst, o, Side(src) in before)
    ensures Fate(before, fs, src, dst, o, r)
  {
    assert fs[dst] == Bytes(before[src].write, before[src].data) && Sheltered(fs, dst);
  }

  /** After a rename. */
  lemma RenameFate(before: Files, fs: Files, meta: StagedWrite, src: Path, dst: Path, o: PreserveOutcomes, r: PreserveResult)
    requires src in before && before[src].Bytes? && src.exts == [] && src.dir != Staging && src != dst && dst !in before
    requires dst.dir == Staging && dst.exts == [] && o.rename && (r.Preserved? <==> PreserveSucceeds(o))
    requires Accounts(fs, before[src], meta, src, dst, r)
    requires r.Retained? ==> r.surviving == if o.renameBack then src else dst
    requires r.Retained? && o.renameBack ==>
               && Returned(before, fs, src)
               && (Side(src) in fs <==>
                     (Side(src) in before && !(o.mark.Published? && o.sync && o.moveMarker)) || Appears(o.remark))
    ensures Fate(before, fs, src, dst, o, r)
  {
    AccountedIsKept(fs, before[src], meta, src, dst, r);
  }

  /** Bytes left in scratch without a marker, with no whole copy beside them, are lost. */
  lemma BareIsLost(before: Files, fs: Files, src: Path, dst: Path)
    requires src in before && before[src].Bytes? && src.dir == Scratch && OnlyAt(before, before[src].write, src)
    requires src.exts == [] && dst.exts == []
    requires Stranded(before, fs - {dst}, src) && (dst in fs ==> fs[dst] != before[src])
    ensures !Kept(fs, before[src].write, before[src].data)
  {
    var w, data := before[src].write, before[src].data;
    forall q: Path | q.exts == [] && q in fs && fs[q] == Bytes(w, data) ensures !Sheltered(fs, q) {
      assert q != dst && q in fs - {dst};
      assert q in before && before[q] == fs[q] && q == src;
      assert Side(src).exts == ["json"] && Side(src) !in fs;
    }
  }

  lemma AccountedIsKept(fs: Files, bytes: File, meta: StagedWrite, src: Path, dst: Path, r: PreserveResult)
    requires Accounts(fs, bytes, meta, src, dst, r) && bytes.Bytes? && dst.dir == Staging && dst.exts == []
    ensures r.Preserved? || r.surviving.dir != Scratch || r.marker.Some? ==> Kept(fs, bytes.write, bytes.data)
  {
    var p := if r.Preserved? then dst else r.surviving;
    assert fs[p] == Bytes(bytes.write, bytes.data);
    assert Sheltered(fs, p) <==> (r.Preserved? || r.surviving.dir != Scratch || r.marker.Some?);
  }

  lemma PreserveEnds(states: seq<Files>, used: set<nat>, start: Files, before: Files, fs: Files, src: Path, dst: Path,
                     o: PreserveOutcomes, r: PreserveResult)
    requires WellFormed(start, used) && WellFormed(before, used) && SameBut(start, before, src)
    requires src in start && src.exts == [] && src.dir != Staging && dst.exts == []
    requires |states| > 0 && states[0] == start && Keeps(start, before, {})
    requires Safe(states, used, if StrandsSource(src, o) then {start[src].write} else {})
    requires StrandsSource(src, o) ==>
               && ReturnsBare(before, states, ReturnStep(o), src, o.remark)
               && forall k :: 0 <= k < ReturnStep(o) ==> Keeps(start, states[k], {})
    requires (Side(src) in before <==> Side(src) in start || Appears(o.mark)) && Fate(before, fs, src, dst, o, r)
    ensures Verdict(states, start, src, o) && Outcome(start, fs, src, dst, o, r)
  {
    PreserveVerdict(states, used, start, before, src, o);
    FateDecides(start, before, fs, used, src, dst, o, r);
  }

  lemma FateDecides(start: Files, before: Files, fs: Files, used: set<nat>, src: Path, dst: Path, o: PreserveOutcomes,
                    r: PreserveResult)
    requires WellFormed(start, used) && WellFormed(before, used) && SameBut(start, before, src)
    requires src in start && src.exts == [] && src.dir != Staging && dst.exts == []
    requires Side(src) in before <==> Side(src) in start || Appears(o.mark)
    requires Fate(before, fs, src, dst, o, r)
    ensures Outcome(start, fs, src, dst, o, r)
  {
    var w, data := start[src].write, start[src].data;
    var marked := Side(src) in start || Appears(o.mark);
    if !EndsKept(src, o, marked, data) && OnlyAt(start, w, src) {
      assert OnlyAt(before, w, src) by {
        forall q | q in before && before[q].Bytes? && before[q].write == w ensures q == src {
          assert q in start && start[q] == before[q];
        }
      }
      BareIsLost(before, fs, src, dst);
    }
  }

  /** What the moments of `preserve_write_at` come to. */
  lemma PreserveVerdict(states: seq<Files>, used: set<nat>, start: Files, before: Files, src: Path, o: PreserveOutcomes)
    requires WellFormed(start, used) && src in start && src.exts == [] && SameBut(start, before, src)
    requires |states| > 0 && states[0] == start && Keeps(start, before, {})
    requires Safe(states, used, if StrandsSource(src, o) then {start[src].write} else {})
    requires StrandsSource(src, o) ==>
               && ReturnsBare(before, states, ReturnStep(o), src, o.remark)
               && forall k :: 0 <= k < ReturnStep(o) ==> Keeps(start, states[k], {})
    ensures Verdict(states, start, src, o)
  {
    var w, data := start[src].write, start[src].data;
    forall k | 0 <= k < |states|
      ensures Keeps(start, states[k], if StrandedAt(src, o, k) then {w} else {})
      ensures StrandedAt(src, o, k) ==> Stranded(start, states[k], src)
    {
      if StrandsSource(src, o) && k >= ReturnStep(o) {
        assert Returned(before, states[k], src);
        if k == ReturnStep(o) + 3 {
          ReturnedKeeps(before, states[k], src);
        }
      }
    }
    if Side(src) in start && OnlyAt(start, w, src) {
      assert start[src] == Bytes(w, data) && Sheltered(start, src);
      assert Kept(start, w, data);
      forall k | 0 <= k < |states| ensures Kept(states[k], w, data) <==> !StrandedAt(src, o, k) {
        if StrandedAt(src, o, k) {
          StrandedIsLost(start, states[k], src, w, data);
        }
      }
    }
  }
}
