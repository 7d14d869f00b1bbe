/** The on-demand block cache of one file: blocks stored under whatever geometry was known at the time, each
    with a sidecar that says which revision and which byte range it holds. */
module BlockCache {
  import opened Prelude
  import opened BlockGeometry

  /** `(mtime, size)` identifies a revision. */
  datatype Revision = Revision(mtime: int, size: nat)

  /** A block's sidecar; `start` is absent in sidecars older than per-revision geometries. */
  datatype BlockMeta = BlockMeta(revision: Revision, start: Option<nat>)

  datatype GeometryMeta = GeometryMeta(revision: Revision, sizes: seq<nat>)

  /** The bytes of every revision of the file. */
  ghost predicate IsContent(content: Revision -> seq<nat>) {
    forall r: Revision :: |content(r)| == r.size
  }

  function SpanBytes(bytes: seq<nat>, span: BlockSpan): seq<nat>
    requires span.End() <= |bytes|
  {
    bytes[span.start..span.End()]
  }

  class BlockStore {
    ghost const content: Revision -> seq<nat>
    var blobs: map<nat, seq<nat>>
    var metas: map<nat, BlockMeta>
    var geometry: Option<GeometryMeta>
    var whole: Option<(Revision, seq<nat>)>

    /** Where the sidecar says block `idx` begins. */
    static function RecordedStart(idx: nat, meta: BlockMeta): nat {
      match meta.start case Some(start) => start case None => SaturatingMul(idx, BLOCK_SIZE)
    }

    /** Every block whose sidecar and data file are both there holds the bytes its sidecar says. */
    ghost predicate Faithful()
      reads this
    {
      forall idx :: idx in blobs && idx in metas ==>
        var start, rev := RecordedStart(idx, metas[idx]), metas[idx].revision;
        start + |blobs[idx]| <= rev.size ==> |content(rev)| == rev.size && blobs[idx] == content(rev)[start..start + |blobs[idx]|]
    }

    ghost predicate Valid()
      reads this
    {
      && IsContent(content) && Faithful()
      && (whole.Some? && |whole.value.1| == whole.value.0.size ==> whole.value.1 == content(whole.value.0))
      && (geometry.Some? ==> Sum(geometry.value.sizes) <= U64_MAX)
    }

    constructor (ghost content: Revision -> seq<nat>)
      requires IsContent(content)
      ensures Valid() && this.content == content && blobs == map[]
    {
      this.content := content;
      blobs, metas, geometry, whole := map[], map[], None, None;
    }

    /** A completed `store_block` of a span's true bytes. */
    method StoreBlock(rev: Revision, span: BlockSpan, bytes: seq<nat>)
      requires Valid() && span.End() <= rev.size && bytes == SpanBytes(content(rev), span)
      modifies `blobs, `metas
      ensures Valid()
      ensures blobs == old(blobs)[span.idx := bytes]
      ensures metas == old(metas)[span.idx := BlockMeta(rev, Some(span.start))]
      ensures forall r: Revision, s: BlockSpan ::
                HasBlock(r, s) <==> if s.idx == span.idx then r == rev && s == span else old(HasBlock(r, s))
    {
      blobs := blobs[span.idx := bytes];
      metas := metas[span.idx := BlockMeta(rev, Some(span.start))];
    }

    /** A block stored by a build that recorded no start: it lies where the uniform geometry puts it. */
    method StoreOlderBlock(rev: Revision, span: BlockSpan, bytes: seq<nat>)
      requires Valid() && span.End() <= rev.size && bytes == SpanBytes(content(rev), span)
      requires span.start == SaturatingMul(span.idx, BLOCK_SIZE)
      modifies `blobs, `metas
      ensures Valid()
      ensures blobs == old(blobs)[span.idx := bytes] && metas == old(metas)[span.idx := BlockMeta(rev, None)]
      ensures forall r: Revision, s: BlockSpan ::
                HasBlock(r, s) <==> if s.idx == span.idx then r == rev && s == span else old(HasBlock(r, s))
    {
      blobs := blobs[span.idx := bytes];
      metas := metas[span.idx := BlockMeta(rev, None)];
    }

    /** A completed whole-file store. */
    method StoreWhole(rev: Revision, bytes: seq<nat>)
      requires Valid() && bytes == content(rev)
      modifies `whole
      ensures Valid() && whole == Some((rev, bytes))
    {
      whole := Some((rev, bytes));
    }

    /** `store_block_geometry`: whatever table is reported, right or wrong. */
    method StoreGeometry(rev: Revision, sizes: seq<nat>)
      requires Valid() && Sum(sizes) <= U64_MAX
      modifies `geometry
      ensures Valid() && geometry == Some(GeometryMeta(rev, sizes))
    {
      geometry := Some(GeometryMeta(rev, sizes));
    }

    /** An eviction of one block, data file first. */
    method DropBlock(idx: nat)
      requires Valid()
      modifies `blobs, `metas
      ensures Valid() && blobs == old(blobs) - {idx} && metas == old(metas) - {idx}
      ensures forall r: Revision, s: BlockSpan :: HasBlock(r, s) <==> s.idx != idx && old(HasBlock(r, s))
    {
      blobs := blobs - {idx};
      metas := metas - {idx};
    }

    /** `block_tag`. */
    predicate Tagged(rev: Revision, span: BlockSpan)
      reads this
    {
      && span.idx in metas && metas[span.idx].revision == rev
      && RecordedStart(span.idx, metas[span.idx]) == span.start
    }

    predicate HasBlock(rev: Revision, span: BlockSpan)
      reads this
    {
      Tagged(rev, span) && span.idx in blobs && |blobs[span.idx]| == span.len
    }

    /** `cached_block`: a miss, or exactly the bytes of the span asked for. */
    method CachedBlock(rev: Revision, span: BlockSpan) returns (r: Option<seq<nat>>)
      requires Valid() && span.End() <= rev.size
      ensures r.Some? <==> HasBlock(rev, span)
      ensures r.Some? ==> |content(rev)| == rev.size && r.value == SpanBytes(content(rev), span)
    {
      if !Tagged(rev, span) || span.idx !in blobs || |blobs[span.idx]| != span.len {
        return None;
      }
      return Some(blobs[span.idx]);
    }

    /** `block_geometry`: the recorded table, if it is for this revision and adds up to its size. */
    method RecordedGeometry(rev: Revision) returns (g: Option<Geometry>)
      requires Valid()
      ensures g.Some? <==> geometry.Some? && geometry.value.revision == rev && Sum(geometry.value.sizes) == rev.size
      ensures g.Some? ==> WellFormed(g.value) && g.value.size == rev.size && g.value.sizes == Trimmed(geometry.value.sizes)
    {
      if geometry.None? || geometry.value.revision != rev {
        return None;
      }
      var table := FromSizes(geometry.value.sizes);
      return if table.size == rev.size then Some(table) else None;
    }

    /** The geometry a read of `rev` is planned with: the recorded one if it is for this revision and adds up,
        else the uniform one. */
    ghost predicate PlansFor(rev: Revision, g: Geometry)
      reads this
    {
      && WellFormed(g) && g.size == rev.size
      && g.sizes == if geometry.Some? && geometry.value.revision == rev && Sum(geometry.value.sizes) == rev.size
                    then Trimmed(geometry.value.sizes) else UniformSizes(rev.size)
    }

    predicate HasWhole(rev: Revision)
      reads this
    {
      whole.Some? && whole.value.0 == rev && |whole.value.1| == rev.size
    }

    /** The blocks `copy_cached_to` plans over: recorded geometry, or failing that the uniform one. */
    method PlanWhole(rev: Revision) returns (spans: seq<BlockSpan>, g: Geometry)
      requires Valid() && 0 < rev.size <= U64_MAX
      ensures Tiles(spans, rev.size) && PlansFor(rev, g) && Plans(g, 0, rev.size, spans)
    {
      var recorded := RecordedGeometry(rev);
      if recorded.Some? {
        g := recorded.value;
      } else {
        g := Uniform(rev.size);
      }
      spans := Spans(g, 0, rev.size);
      PlanTiles(g, spans);
    }

    /** Every block that a read of all of `rev` is planned over is cached. */
    ghost predicate PlanCached(rev: Revision)
      reads this
    {
      exists g, spans ::
        PlansFor(rev, g) && Plans(g, 0, rev.size, spans) && forall k :: 0 <= k < |spans| ==> HasBlock(rev, spans[k])
    }

    lemma PlanDecides(rev: Revision, g: Geometry, spans: seq<BlockSpan>)
      requires PlansFor(rev, g) && Plans(g, 0, rev.size, spans)
      ensures PlanCached(rev) <==> forall k :: 0 <= k < |spans| ==> HasBlock(rev, spans[k])
    {
      forall g', spans' | PlansFor(rev, g') && Plans(g', 0, rev.size, spans') ensures spans' == spans {
        OneGeometry(g, g');
        OnePlan(g, 0, rev.size, spans, spans');
      }
    }

    /** `copy_cached_to`, onto a destination that holds `dst`; `cloneOk` and `writeOk` are the outcomes of
        cloning the whole-file blob and of writing the blocks out. True exactly when the whole file is there
        and cloned, or every block of the plan is there and written; then the destination is the whole
        content. False leaves it as it was if nothing was tried, and gone if something was. */
    method CopyCachedTo(rev: Revision, dst: Option<seq<nat>>, cloneOk: bool, writeOk: bool)
      returns (ok: bool, out: Option<seq<nat>>)
      requires Valid() && rev.size <= U64_MAX
      ensures ok <==> rev.size > 0 && if HasWhole(rev) then cloneOk else PlanCached(rev) && writeOk
      ensures out == if ok then Some(content(rev))
                     else if rev.size == 0 || (!HasWhole(rev) && !PlanCached(rev)) then dst else None
    {
      if rev.size == 0 {
        return false, dst;
      }
      if HasWhole(rev) {
        return cloneOk, if cloneOk then Some(whole.value.1) else None;
      }
      var spans, g := PlanWhole(rev);
      PlanDecides(rev, g, spans);
      if exists k :: 0 <= k < |spans| && !HasBlock(rev, spans[k]) {
        return false, dst;
      }
      var written := Concatenate(rev, spans);
      if !writeOk {
        return false, None;
      }
      return true, Some(written);
    }

    /** The write loop of `copy_cached_to`. */
    method Concatenate(rev: Revision, spans: seq<BlockSpan>) returns (written: seq<nat>)
      requires Valid() && Tiles(spans, rev.size)
      requires forall k :: 0 <= k < |spans| ==> HasBlock(rev, spans[k])
      ensures written == content(rev)
    {
      written := [];
      assert |content(rev)| == rev.size;
      for k := 0 to |spans|
        invariant |written| <= rev.size && written == content(rev)[..|written|]
        invariant |written| == if k < |spans| then spans[k].start else rev.size
      {
        var block := CachedBlock(rev, spans[k]);
        PrefixGrows(content(rev), spans[k].start, spans[k].End());
        written := written + block.value;
      }
    }
  }

  /** Spans that follow each other from the first byte to the last. */
  ghost predicate Tiles(spans: seq<BlockSpan>, size: nat) {
    && spans != [] && spans[0].start == 0 && spans[|spans| - 1].End() == size
    && (forall k :: 0 <= k < |spans| ==> spans[k].End() <= size)
    && (forall k :: 0 <= k < |spans| - 1 ==> spans[k].End() == spans[k + 1].start)
  }

  lemma PlanTiles(g: Geometry, spans: seq<BlockSpan>)
    requires WellFormed(g) && g.size > 0 && Plans(g, 0, g.size, spans)
    ensures Tiles(spans, g.size)
  {
    StartsSorted(g);
    assert forall k :: 0 <= k < |spans| ==> Span(g, spans[k].idx) == Some(spans[k]);
  }

  lemma PrefixGrows(bytes: seq<nat>, a: nat, b: nat)
    requires a <= b <= |bytes|
    ensures bytes[..a] + bytes[a..b] == bytes[..b]
  {
  }

  // ----- a store cut off between its rename and its sidecar

  /** With this sidecar and this data file, a read is served bytes that are not the content it asked for. */
  ghost predicate ServesWrongBytes(content: Revision -> seq<nat>, idx: nat, meta: BlockMeta, blob: seq<nat>)
    requires IsContent(content)
  {
    var rev, span := meta.revision, BlockSpan(idx, BlockStore.RecordedStart(idx, meta), |blob|);
    span.End() <= rev.size && |content(rev)| == rev.size && blob != SpanBytes(content(rev), span)
  }

  /** What the sidecar already on disk must be for the cut to be harmless whatever the file holds: for the
      same revision and start as the new block, or for a range the new block's length overruns. */
  predicate HarmlessCut(idx: nat, meta: BlockMeta, rev: Revision, span: BlockSpan) {
    || (meta.revision == rev && BlockStore.RecordedStart(idx, meta) == span.start)
    || BlockStore.RecordedStart(idx, meta) + span.len > meta.revision.size
    || span.len == 0
  }

  lemma HarmlessCutServesRightBytes(content: Revision -> seq<nat>, meta: BlockMeta, rev: Revision, span: BlockSpan)
    requires IsContent(content) && span.End() <= rev.size && HarmlessCut(span.idx, meta, rev, span)
    ensures |content(rev)| == rev.size && !ServesWrongBytes(content, span.idx, meta, SpanBytes(content(rev), span))
  {
    assert |content(rev)| == rev.size && |content(meta.revision)| == meta.revision.size;
    if span.len == 0 {
      assert SpanBytes(content(rev), span) == [];
    }
  }

  /** Contents in which no byte of `rev` equals another byte of it or of any other revision. */
  function Numbered(rev: Revision, r: Revision): (bytes: seq<nat>)
    ensures |bytes| == r.size
  {
    seq(r.size, (i: nat) => if r == rev then i else rev.size + i)
  }

  /** Otherwise some file is served wrongly: the same index under two geometries, with blocks of one length. */
  lemma OtherCutServesWrongBytes(meta: BlockMeta, rev: Revision, span: BlockSpan) returns (content: Revision -> seq<nat>)
    requires span.End() <= rev.size && !HarmlessCut(span.idx, meta, rev, span)
    ensures IsContent(content) && |content(rev)| == rev.size
    ensures ServesWrongBytes(content, span.idx, meta, SpanBytes(content(rev), span))
  {
    content := r => Numbered(rev, r);
    var start := BlockStore.RecordedStart(span.idx, meta);
    var asked := BlockSpan(span.idx, start, span.len);
    assert SpanBytes(content(rev), span)[0] == span.start;
    assert SpanBytes(content(meta.revision), asked)[0] == if meta.revision == rev then start else rev.size + start;
  }
}
