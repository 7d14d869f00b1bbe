/** The files that hold accepted writes: scratch, staging and recovery.
    A state of the disk is a map from paths to files. A name is a dot-free stem plus the extensions
    appended to it, so `WithExtension` can do what the path library does. */
module WriteFiles {
  import opened Prelude

  datatype Dir = Scratch | Staging | Recovery

  datatype Path = Path(dir: Dir, stem: nat, exts: seq<string>)

  /** What a sidecar says about the bytes beside it. */
  datatype StagedWrite = StagedWrite(uid: string, len: nat, complete: bool)

  /** The bytes of an accepted write, or a sidecar; a sidecar that does not parse is `Note(None)`.
      `write` names the accepted write the bytes belong to, so that two writes of equal bytes are
      still two writes. */
  datatype File = Bytes(write: nat, data: seq<nat>) | Note(meta: Option<StagedWrite>)

  type Files = map<Path, File>

  /** `Path::with_extension`: the last extension is replaced, or the first one is appended. */
  function WithExtension(p: Path, exts: seq<string>): Path {
    p.(exts := (if p.exts == [] then [] else p.exts[..|p.exts| - 1]) + exts)
  }

  function Side(p: Path): Path { WithExtension(p, ["json"]) }

  function SideTmp(p: Path): Path { WithExtension(p, ["json", "tmp"]) }

  predicate IsJson(p: Path) {
    p.exts != [] && p.exts[|p.exts| - 1] == "json"
  }

  /** Whether the next `open` leaves the bytes at `p` on disk: anything in staging or recovery, and in
      scratch whatever has a sidecar beside it. */
  predicate Sheltered(fs: Files, p: Path) {
    p.exts == [] && (p.dir == Scratch ==> Side(p) in fs)
  }

  /** The write `w` is on disk, byte for byte, where no `open` deletes it. */
  ghost predicate Kept(fs: Files, w: nat, data: seq<nat>) {
    exists p :: p in fs && fs[p] == Bytes(w, data) && Sheltered(fs, p)
  }

  /** What every reachable disk state satisfies: write bytes sit under bare names and sidecars under
      `.json` or `.json.tmp`, names come from stems already handed out, and no stem names bytes in
      scratch and in recovery at once. */
  ghost predicate WellFormed(fs: Files, used: set<nat>) {
    && (forall p :: p in fs ==> p.stem in used)
    && (forall p :: p in fs ==> p.exts == [] || p.exts == ["json"] || p.exts == ["json", "tmp"])
    && (forall p :: p in fs ==> (fs[p].Bytes? <==> p.exts == []))
    && (forall s :: Path(Scratch, s, []) in fs ==> Path(Recovery, s, []) !in fs)
  }

  /** Every write kept in `a`, other than those in `lost`, is kept in `b`. */
  ghost predicate Keeps(a: Files, b: Files, lost: set<nat>) {
    forall w, data :: w !in lost && Kept(a, w, data) ==> Kept(b, w, data)
  }

  function Moved(fs: Files, from: Path, to: Path): Files
    requires from in fs
  {
    (fs - {from})[to := fs[from]]
  }

  // ----- one step of the disk

  lemma PutNoteKeeps(fs: Files, used: set<nat>, p: Path, m: Option<StagedWrite>)
    requires WellFormed(fs, used) && p.stem in used
    requires p.exts == ["json"] || p.exts == ["json", "tmp"]
    ensures WellFormed(fs[p := Note(m)], used) && Keeps(fs, fs[p := Note(m)], {})
  {
    var fs' := fs[p := Note(m)];
    forall w, data | Kept(fs, w, data) ensures Kept(fs', w, data) {
      var q :| q in fs && fs[q] == Bytes(w, data) && Sheltered(fs, q);
      assert Sheltered(fs', q);
    }
  }

  /** A sidecar may leave its name only for one that shelters the same bytes, or when the bytes it
      stood beside are gone. */
  lemma MoveNoteKeeps(fs: Files, used: set<nat>, from: Path, to: Path)
    requires WellFormed(fs, used) && from in fs && from != to && to.stem in used
    requires from.exts == ["json"] || from.exts == ["json", "tmp"]
    requires to.exts == ["json"] || to.exts == ["json", "tmp"]
    requires from.exts == ["json"] && from.dir == Scratch ==> Path(Scratch, from.stem, []) !in fs
    ensures WellFormed(Moved(fs, from, to), used) && Keeps(fs, Moved(fs, from, to), {})
  {
    var fs' := Moved(fs, from, to);
    forall w, data | Kept(fs, w, data) ensures Kept(fs', w, data) {
      var q :| q in fs && fs[q] == Bytes(w, data) && Sheltered(fs, q);
      assert q in fs' && fs'[q] == fs[q];
      assert Side(q).exts == ["json"];
      assert Sheltered(fs', q);
    }
  }

  lemma DropNoteKeeps(fs: Files, used: set<nat>, p: Path)
    requires WellFormed(fs, used) && p.exts != []
    requires p.exts == ["json"] && p.dir == Scratch ==> Path(Scratch, p.stem, []) !in fs
    ensures WellFormed(fs - {p}, used) && Keeps(fs, fs - {p}, {})
  {
    var fs' := fs - {p};
    forall w, data | Kept(fs, w, data) ensures Kept(fs', w, data) {
      var q :| q in fs && fs[q] == Bytes(w, data) && Sheltered(fs, q);
      assert Side(q).exts == ["json"];
      assert q in fs' && Sheltered(fs', q);
    }
  }

  /** Bytes renamed to an unused name keep every other write, and their own if the new place shelters them. */
  lemma MoveBytesKeeps(fs: Files, used: set<nat>, from: Path, to: Path, lost: set<nat>)
    requires WellFormed(fs, used) && from in fs && from.exts == [] && to.exts == []
    requires to !in fs && to.stem in used
    requires to.dir == Scratch ==> Path(Recovery, to.stem, []) !in fs || from == Path(Recovery, to.stem, [])
    requires to.dir == Recovery ==> Path(Scratch, to.stem, []) !in fs || from == Path(Scratch, to.stem, [])
    requires to.dir != Scratch || Side(to) in fs || fs[from].write in lost
    ensures WellFormed(Moved(fs, from, to), used) && Keeps(fs, Moved(fs, from, to), lost)
  {
    var fs' := Moved(fs, from, to);
    forall w, data | w !in lost && Kept(fs, w, data) ensures Kept(fs', w, data) {
      var q :| q in fs && fs[q] == Bytes(w, data) && Sheltered(fs, q);
      assert Side(q).exts == ["json"] && Side(to).exts == ["json"];
      if q == from {
        assert to in fs' && fs'[to] == Bytes(w, data) && Sheltered(fs', to);
      } else {
        assert q in fs' && fs'[q] == Bytes(w, data) && Sheltered(fs', q);
      }
    }
  }

  /** Writing bytes under a name that sheltered no other bytes keeps everything. */
  lemma PutBytesKeeps(fs: Files, used: set<nat>, p: Path, f: File, lost: set<nat>)
    requires WellFormed(fs, used) && p.exts == [] && p.stem in used && f.Bytes?
    requires p.dir == Scratch ==> Path(Recovery, p.stem, []) !in fs
    requires p.dir == Recovery ==> Path(Scratch, p.stem, []) !in fs
    requires p in fs && Sheltered(fs, p) && fs[p] != f ==> fs[p].write in lost
    ensures WellFormed(fs[p := f], used) && Keeps(fs, fs[p := f], lost)
  {
    var fs' := fs[p := f];
    forall w, data | w !in lost && Kept(fs, w, data) ensures Kept(fs', w, data) {
      var q :| q in fs && fs[q] == Bytes(w, data) && Sheltered(fs, q);
      assert Side(q).exts == ["json"];
      assert q in fs' && fs'[q] == Bytes(w, data) && Sheltered(fs', q);
    }
  }

  /** Bytes may be removed when they were unsheltered, when another sheltered name holds the same
      bytes, or when their write is given up. */
  lemma DropBytesKeeps(fs: Files, used: set<nat>, p: Path, copy: Path, lost: set<nat>)
    requires WellFormed(fs, used) && p in fs && p.exts == []
    requires || !Sheltered(fs, p)
             || (copy != p && copy in fs && fs[copy] == fs[p] && Sheltered(fs, copy))
             || fs[p].write in lost
    ensures WellFormed(fs - {p}, used) && Keeps(fs, fs - {p}, lost)
  {
    var fs' := fs - {p};
    forall w, data | w !in lost && Kept(fs, w, data) ensures Kept(fs', w, data) {
      var q :| q in fs && fs[q] == Bytes(w, data) && Sheltered(fs, q);
      assert Side(q).exts == ["json"];
      var r := if q == p then copy else q;
      assert Side(r).exts[|Side(r).exts| - 1] == "json";
      assert r in fs' && fs'[r] == Bytes(w, data) && Sheltered(fs', r);
    }
  }
}
