/** Whole-file stores of one uid, step by step: temporary file, rename, tag. A crash may come between any two
    steps; an eviction may remove blob and tag in between stores. */
module BlobStore {
  import opened Prelude
  import opened Runs

  /** The validity tag: `(mtime, size)`. */
  datatype Tag = Tag(mtime: int, size: nat)

  datatype Content = Content(tag: Tag, bytes: seq<nat>)

  /** A tag file that is being written does not parse. */
  datatype TagFile = Missing | Torn | Written(tag: Tag)

  /** Where the store in progress is. */
  datatype Pc = Idle | Creating(c: Content) | Renaming(c: Content) | Tearing(c: Content) | Tagging(c: Content)

  /** `newest` is the most recently started store. */
  datatype State = State(tmp: Option<seq<nat>>, blob: Option<seq<nat>>, tag: TagFile, pc: Pc, newest: Option<Content>)

  const Initial := State(None, None, Missing, Idle, None)

  datatype Step =
    | Start(c: Content)
    | WriteTmp(prefix: seq<nat>)
    | FinishTmp
    | RenameTmp
    | TearTag
    | WriteTag
    | Crash
    | DropBlob
    | DropTag

  predicate Enabled(s: State, step: Step) {
    match step
    case Start(_) => s.pc.Idle?
    case WriteTmp(_) => s.pc.Creating?
    case FinishTmp => s.pc.Creating?
    case RenameTmp => s.pc.Renaming?
    case TearTag => s.pc.Tearing?
    case WriteTag => s.pc.Tagging?
    case Crash => true
    case DropBlob => s.pc.Idle?
    case DropTag => s.pc.Idle?
  }

  function Next(s: State, step: Step): State
    requires Enabled(s, step)
  {
    match step
    case Start(c) => s.(pc := Creating(c), newest := Some(c))
    case WriteTmp(prefix) => s.(tmp := Some(prefix))
    case FinishTmp => s.(tmp := Some(s.pc.c.bytes), pc := Renaming(s.pc.c))
    case RenameTmp => s.(tmp := None, blob := s.tmp, pc := Tearing(s.pc.c))
    case TearTag => s.(tag := Torn, pc := Tagging(s.pc.c))
    case WriteTag => s.(tag := Written(s.pc.c.tag), pc := Idle)
    case Crash => s.(pc := Idle)
    case DropBlob => s.(blob := None)
    case DropTag => s.(tag := Missing)
  }

  /** `read_range` through `valid_blob`: tag and length must match; then the bytes from `offset` on, as many as
      asked for and there are. */
  function Read(s: State, tag: Tag, offset: nat, len: nat): (r: Option<seq<nat>>)
    ensures r.Some? <==> s.tag == Written(tag) && s.blob.Some? && |s.blob.value| == tag.size
    ensures r.Some? ==> IsWindow(r.value, s.blob.value, offset, len)
  {
    if s.tag != Written(tag) || s.blob.None? || |s.blob.value| != tag.size then None
    else if offset >= tag.size then Some([])
    else Some(s.blob.value[offset..if offset + len < tag.size then offset + len else tag.size])
  }

  /** `w` is what `bytes` has from `offset` on, up to `len` bytes of it. */
  ghost predicate IsWindow(w: seq<nat>, bytes: seq<nat>, offset: nat, len: nat) {
    && |w| == (if offset >= |bytes| then 0 else if |bytes| - offset < len then |bytes| - offset else len)
    && forall i :: 0 <= i < |w| ==> w[i] == bytes[offset + i]
  }

  /** The window of `bytes` that a read asks for. */
  function Slice(bytes: seq<nat>, offset: nat, len: nat): (w: seq<nat>)
    ensures IsWindow(w, bytes, offset, len)
  {
    if offset >= |bytes| then [] else bytes[offset..if offset + len < |bytes| then offset + len else |bytes|]
  }

  /** Every read with the tag of `c` is a miss or the exact slice of the bytes of `c`, never truncated and
      never another store's. */
  ghost predicate ReadsExactly(s: State, c: Content) {
    forall offset, len :: Read(s, c.tag, offset, len).Some? ==>
      Read(s, c.tag, offset, len).value == Slice(c.bytes, offset, len)
  }

  /** The disk vouches for other bytes with the tag of `c`: the tag is there, above a blob of the length it
      names that holds something else. */
  predicate Confusable(s: State, c: Content) {
    s.tag == Written(c.tag) && s.blob.Some? && |s.blob.value| == c.tag.size && s.blob.value != c.bytes
  }

  predicate NoStart(steps: seq<Step>) {
    forall i :: 0 <= i < |steps| ==> !steps[i].Start?
  }

  /** Until the next start, a state whose newest store is `c`: what is on its way is `c`, and the disk does
      not vouch for other bytes with its tag. */
  ghost predicate Storing(s: State, c: Content) {
    && (!s.pc.Idle? ==> s.pc.c == c)
    && (s.pc.Renaming? ==> s.tmp == Some(c.bytes))
    && (s.pc.Tearing? || s.pc.Tagging? ==> s.blob == Some(c.bytes))
    && !Confusable(s, c)
  }

  lemma {:induction false} StoringHolds(s: State, c: Content, steps: seq<Step>)
    requires Storing(s, c) && Run(Next, s, steps) && NoStart(steps)
    ensures Storing(Final(Next, s, steps), c)
    decreases |steps|
  {
    if steps != [] {
      assert !steps[0].Start?;
      StoringHolds(Next(s, steps[0]), c, steps[1..]);
    }
  }

  lemma ExactUnlessConfusable(s: State, c: Content)
    ensures ReadsExactly(s, c) <==> !Confusable(s, c)
  {
    if Confusable(s, c) {
      var all := c.tag.size + |c.bytes|;
      assert Slice(c.bytes, 0, all) == c.bytes;
      assert s.blob.value[0..c.tag.size] == s.blob.value;
      assert Read(s, c.tag, 0, all) == Some(s.blob.value);
    }
  }

  /** Whatever is on disk when a store of `c` starts: at every point from then on until another store starts,
      crashes and evictions included, all reads with its tag are exact if and only if its tag does not
      already vouch for other bytes of the same length. */
  lemma StoreReadsExactlyIff(s: State, c: Content)
    requires Enabled(s, Start(c))
    ensures (forall steps :: Run(Next, Next(s, Start(c)), steps) && NoStart(steps) ==>
               ReadsExactly(Final(Next, Next(s, Start(c)), steps), c))
            <==> !Confusable(s, c)
  {
    var begun := Next(s, Start(c));
    if Confusable(s, c) {
      ExactUnlessConfusable(begun, c);
      assert Run(Next, begun, []) && NoStart([]) && Final(Next, begun, []) == begun;
    } else {
      forall steps | Run(Next, begun, steps) && NoStart(steps) ensures ReadsExactly(Final(Next, begun, steps), c) {
        StoringHolds(begun, c, steps);
        ExactUnlessConfusable(Final(Next, begun, steps), c);
      }
    }
  }

  /** How callers tag stores: a store begins with the tag of the one started before it only to store the
      same bytes again, and otherwise with a tag no earlier store used. */
  predicate Disciplined(newest: Option<Content>, used: set<Tag>, steps: seq<Step>)
    decreases |steps|
  {
    steps == [] ||
    if steps[0].Start? then
      var c := steps[0].c;
      (newest == Some(c) || c.tag !in used) && Disciplined(Some(c), used + {c.tag}, steps[1..])
    else Disciplined(newest, used, steps[1..])
  }

  /** A tag on disk is that of an earlier store, and if it is the newest store's, so are the bytes. */
  ghost predicate Inv(s: State, used: set<Tag>) {
    && (s.tag.Written? ==> s.tag.tag in used)
    && (s.newest.Some? ==> s.newest.value.tag in used)
    && (s.newest.None? ==> s.pc.Idle? && s.tag.Missing?)
    && (!s.pc.Idle? ==> s.newest == Some(s.pc.c))
    && (s.pc.Renaming? ==> s.tmp == Some(s.pc.c.bytes))
    && (s.pc.Tearing? || s.pc.Tagging? ==> s.blob == Some(s.pc.c.bytes))
    && (s.newest.Some? && s.tag == Written(s.newest.value.tag) ==>
          s.blob.None? || s.blob == Some(s.newest.value.bytes))
  }

  lemma InvKept(s: State, used: set<Tag>, step: Step)
    requires Inv(s, used) && Enabled(s, step)
    requires step.Start? ==> s.newest == Some(step.c) || step.c.tag !in used
    ensures Inv(Next(s, step), if step.Start? then used + {step.c.tag} else used)
  {
  }

  /** A disciplined run finds no tag that vouches for other bytes when it starts `c`. */
  lemma {:induction false} StartsUnconfused(s: State, used: set<Tag>, steps: seq<Step>, c: Content)
    requires Inv(s, used) && Run(Next, s, steps) && Disciplined(s.newest, used, steps + [Start(c)])
    ensures !Confusable(Final(Next, s, steps), c)
    decreases |steps|
  {
    if steps == [] {
      assert [] + [Start(c)] == [Start(c)];
    } else {
      assert (steps + [Start(c)])[1..] == steps[1..] + [Start(c)];
      InvKept(s, used, steps[0]);
      StartsUnconfused(Next(s, steps[0]), if steps[0].Start? then used + {steps[0].c.tag} else used, steps[1..], c);
    }
  }

  /** So with the discipline, at every point of every run, crashes included, a read with the tag of the most
      recently started store is a miss or the exact slice of that store's bytes. */
  lemma NewestTagReadsExactly(before: seq<Step>, c: Content, after: seq<Step>)
    requires Run(Next, Initial, before) && Enabled(Final(Next, Initial, before), Start(c))
    requires Disciplined(None, {}, before + [Start(c)])
    requires Run(Next, Next(Final(Next, Initial, before), Start(c)), after) && NoStart(after)
    ensures ReadsExactly(Final(Next, Next(Final(Next, Initial, before), Start(c)), after), c)
  {
    StartsUnconfused(Initial, {}, before, c);
    StoreReadsExactlyIff(Final(Next, Initial, before), c);
  }

  /** A store of `c` that completes, its temporary file seen half written as `prefix`. */
  function Whole(c: Content, prefix: seq<nat>): seq<Step> {
    [Start(c), WriteTmp(prefix), FinishTmp, RenameTmp, TearTag, WriteTag]
  }

  /** A store of `c` cut off between rename and tag. */
  function Cut(c: Content): seq<Step> { [Start(c), FinishTmp, RenameTmp, Crash] }

  lemma WholeEnds(s: State, c: Content, prefix: seq<nat>)
    requires s.pc.Idle?
    ensures Run(Next, s, Whole(c, prefix))
    ensures Final(Next, s, Whole(c, prefix)) == State(None, Some(c.bytes), Written(c.tag), Idle, Some(c))
  {
    var half := Next(Next(s, Start(c)), WriteTmp(prefix));
    var renamed := Next(Next(half, FinishTmp), RenameTmp);
    var torn := Next(renamed, TearTag);
    RunThrough(
      Next, [s, Next(s, Start(c)), half, Next(half, FinishTmp), renamed, torn, Next(torn, WriteTag)], Whole(c, prefix));
  }

  lemma CutEnds(s: State, c: Content)
    requires s.pc.Idle?
    ensures Run(Next, s, Cut(c))
    ensures Final(Next, s, Cut(c)) == State(None, Some(c.bytes), s.tag, Idle, Some(c))
  {
    var written := Next(Next(s, Start(c)), FinishTmp);
    var renamed := Next(written, RenameTmp);
    RunThrough(Next, [s, Next(s, Start(c)), written, renamed, Next(renamed, Crash)], Cut(c));
  }

  /** A completed store of as many bytes as its tag says is read back whole. */
  lemma CompletedStoreReads(s: State, c: Content, prefix: seq<nat>, offset: nat, len: nat)
    requires s.pc.Idle? && |c.bytes| == c.tag.size
    ensures Run(Next, s, Whole(c, prefix))
    ensures Read(Final(Next, s, Whole(c, prefix)), c.tag, offset, len) == Some(Slice(c.bytes, offset, len))
  {
    WholeEnds(s, c, prefix);
  }

  /** The other side: a store under tag `a`, one under `b` cut off before its tag, and one under `a` begun
      again. The read with `a` is served the bytes of `b`. */
  lemma ReusedTagReadsOtherBytes()
    ensures
      var a, b := Content(Tag(1, 1), [7]), Content(Tag(2, 1), [8]);
      var steps := Whole(a, []) + Cut(b) + [Start(a)];
      && Run(Next, Initial, steps)
      && Final(Next, Initial, steps).newest == Some(a) && Read(Final(Next, Initial, steps), a.tag, 0, 1) == Some([8])
  {
    var a, b := Content(Tag(1, 1), [7]), Content(Tag(2, 1), [8]);
    WholeEnds(Initial, a, []);
    CutEnds(Final(Next, Initial, Whole(a, [])), b);
    RunsJoin(Next, Initial, Whole(a, []), Cut(b));
    assert Enabled(Final(Next, Initial, Whole(a, []) + Cut(b)), Start(a));
    RunExtends(Next, Initial, Whole(a, []) + Cut(b), Start(a));
    assert [8][0..1] == [8];
  }
}
