/** Where the content blocks of a revision begin and end. */
module BlockGeometry {
  import opened Prelude

  const BLOCK_SIZE: nat := 4194304

  /** One block: its index in the table, and the plaintext range it covers. */
  datatype BlockSpan = BlockSpan(idx: nat, start: nat, len: nat) {
    function End(): nat { start + len }
  }

  datatype Geometry = Geometry(starts: seq<nat>, sizes: seq<nat>, size: nat)

  function SaturatingAdd(a: nat, b: nat): nat { if a + b > U64_MAX then U64_MAX else a + b }

  function SaturatingMul(a: nat, b: nat): nat { if a * b > U64_MAX then U64_MAX else a * b }

  /** `block_len`: what block `idx` of a file of `size` bytes holds under the uniform assumption. */
  function BlockLen(size: nat, idx: nat): nat {
    var start := SaturatingMul(idx, BLOCK_SIZE);
    var left := if size < start then 0 else size - start;
    if left < BLOCK_SIZE then left else BLOCK_SIZE
  }

  function Sum(s: seq<nat>): nat {
    if s == [] then 0 else Sum(s[..|s| - 1]) + s[|s| - 1]
  }

  /** The table without its trailing zero-length blocks. */
  function Trimmed(s: seq<nat>): seq<nat> {
    if s != [] && s[|s| - 1] == 0 then Trimmed(s[..|s| - 1]) else s
  }

  /** A geometry that is the prefix sum of its sizes and does not end in an empty block. */
  ghost predicate WellFormed(g: Geometry) {
    && |g.starts| == |g.sizes|
    && (forall i :: 0 <= i < |g.sizes| ==> g.starts[i] == Sum(g.sizes[..i]))
    && g.size == Sum(g.sizes)
    && (g.sizes != [] ==> g.sizes[|g.sizes| - 1] > 0)
  }

  /** Block `i` is the one that holds the byte at `at`. */
  ghost predicate Contains(g: Geometry, i: nat, at: nat) {
    i < |g.starts| && i < |g.sizes| && g.starts[i] <= at < g.starts[i] + g.sizes[i]
  }

  lemma {:induction false} SumStep(s: seq<nat>, i: nat)
    requires i < |s|
    ensures Sum(s[..i + 1]) == Sum(s[..i]) + s[i]
  {
    assert s[..i + 1][..i] == s[..i];
  }

  lemma {:induction false} SumMonotone(s: seq<nat>, i: nat, j: nat)
    requires i <= j <= |s|
    ensures Sum(s[..i]) <= Sum(s[..j])
    decreases j
  {
    if i < j {
      SumStep(s, j - 1);
      SumMonotone(s, i, j - 1);
    }
  }

  lemma {:induction false} TrimmedSum(s: seq<nat>)
    ensures Sum(Trimmed(s)) == Sum(s)
    ensures Trimmed(s) <= s && forall i :: |Trimmed(s)| <= i < |s| ==> s[i] == 0
    ensures Trimmed(s) != [] ==> Trimmed(s)[|Trimmed(s)| - 1] > 0
  {
    if s != [] && s[|s| - 1] == 0 {
      TrimmedSum(s[..|s| - 1]);
    }
  }

  /** `from_sizes`: trailing empty blocks dropped, starts accumulated. */
  method FromSizes(sizes: seq<nat>) returns (g: Geometry)
    requires Sum(sizes) <= U64_MAX
    ensures WellFormed(g) && g.sizes == Trimmed(sizes) && g.size == Sum(sizes)
  {
    var kept := sizes;
    TrimmedSum(sizes);
    while kept != [] && kept[|kept| - 1] == 0
      invariant Trimmed(kept) == Trimmed(sizes)
      decreases |kept|
    {
      kept := kept[..|kept| - 1];
    }
    var starts, at := [], 0;
    for i := 0 to |kept|
      invariant |starts| == i && at == Sum(kept[..i])
      invariant forall j :: 0 <= j < i ==> starts[j] == Sum(kept[..j])
    {
      SumStep(kept, i);
      SumMonotone(kept, i + 1, |kept|);
      assert kept[..|kept|] == kept;
      starts := starts + [at];
      at := SaturatingAdd(at, kept[i]);
    }
    assert kept[..|kept|] == kept;
    g := Geometry(starts, kept, at);
  }

  /** Number of starts at or before `at`, by the binary search of `partition_point`. */
  method PartitionPoint(starts: seq<nat>, at: nat) returns (n: nat)
    requires forall i, j :: 0 <= i < j < |starts| ==> starts[i] <= starts[j]
    ensures n <= |starts|
    ensures forall i :: 0 <= i < n ==> starts[i] <= at
    ensures forall i :: n <= i < |starts| ==> starts[i] > at
  {
    var lo, hi := 0, |starts|;
    while lo < hi
      invariant 0 <= lo <= hi <= |starts|
      invariant forall i :: 0 <= i < lo ==> starts[i] <= at
      invariant forall i :: hi <= i < |starts| ==> starts[i] > at
    {
      var mid := (lo + hi) / 2;
      if starts[mid] <= at {
        lo := mid + 1;
      } else {
        hi := mid;
      }
    }
    n := lo;
  }

  lemma {:induction false} StartsSorted(g: Geometry)
    requires WellFormed(g)
    ensures forall i, j :: 0 <= i < j < |g.starts| ==> g.starts[i] + g.sizes[i] <= g.starts[j]
    ensures forall i :: 0 <= i < |g.starts| ==> g.starts[i] + g.sizes[i] <= g.size
  {
    forall i, j | 0 <= i < j < |g.starts| ensures g.starts[i] + g.sizes[i] <= g.starts[j] {
      SumStep(g.sizes, i);
      SumMonotone(g.sizes, i + 1, j);
    }
    forall i | 0 <= i < |g.starts| ensures g.starts[i] + g.sizes[i] <= g.size {
      SumStep(g.sizes, i);
      SumMonotone(g.sizes, i + 1, |g.sizes|);
      assert g.sizes[..|g.sizes|] == g.sizes;
    }
  }

  /** `index_at`: `None` exactly at or past the end, else the one block that holds the byte. */
  method IndexAt(g: Geometry, at: nat) returns (r: Option<nat>)
    requires WellFormed(g)
    ensures r.None? <==> at >= g.size
    ensures r.Some? ==> Contains(g, r.value, at) && forall i: nat :: Contains(g, i, at) ==> i == r.value
  {
    if at >= g.size {
      return None;
    }
    StartsSorted(g);
    assert g.sizes != [] && g.starts[0] == 0;
    var n := PartitionPoint(g.starts, at);
    var i := n - 1;
    assert g.starts[i] + g.sizes[i] > at by {
      SumStep(g.sizes, i);
      if n < |g.starts| {
        assert g.starts[n] == Sum(g.sizes[..i + 1]);
      } else {
        assert g.sizes[..i + 1] == g.sizes;
      }
    }
    r := Some(i);
  }

  function Span(g: Geometry, idx: nat): (r: Option<BlockSpan>)
    requires WellFormed(g)
    ensures r.Some? <==> idx < |g.sizes|
  {
    if idx < |g.starts| then Some(BlockSpan(idx, g.starts[idx], g.sizes[idx])) else None
  }

  /** The end of `[offset, end)` once cut off at the end of the file. */
  function Clipped(g: Geometry, end: nat): nat { if end < g.size then end else g.size }

  /** The blocks `first` to `last` of the table. */
  function Run(g: Geometry, first: nat, last: nat): (spans: seq<BlockSpan>)
    requires WellFormed(g) && first <= last < |g.sizes|
    ensures |spans| == last - first + 1
    ensures forall k :: 0 <= k < |spans| ==> spans[k] == BlockSpan(first + k, g.starts[first + k], g.sizes[first + k])
  {
    seq(last - first + 1, k requires 0 <= k <= last - first => BlockSpan(first + k, g.starts[first + k], g.sizes[first + k]))
  }

  /** Consecutive blocks of the table, each beginning where the one before it ends. */
  ghost predicate Contiguous(g: Geometry, spans: seq<BlockSpan>)
    requires WellFormed(g)
  {
    && (forall k :: 0 <= k < |spans| ==> Span(g, spans[k].idx) == Some(spans[k]) && spans[k].idx == spans[0].idx + k)
    && (forall k :: 0 <= k < |spans| - 1 ==> spans[k].End() == spans[k + 1].start)
  }

  predicate Overlaps(span: BlockSpan, offset: nat, end: nat) {
    span.len > 0 && span.start < end && offset < span.End()
  }

  /** What `spans` promises of a range: nothing for an empty range or one past the end, else contiguous blocks
      from the one that holds the first byte of the range to the one that holds its last, cut off at the end
      of the file. Those among them that are not empty overlap it, and every block that overlaps it is there. */
  ghost predicate Plans(g: Geometry, offset: nat, end: nat, spans: seq<BlockSpan>)
    requires WellFormed(g)
  {
    && (spans == [] <==> end <= offset || offset >= g.size)
    && Contiguous(g, spans)
    && (spans != [] ==>
          && Contains(g, spans[0].idx, offset) && Contains(g, spans[|spans| - 1].idx, Clipped(g, end) - 1)
          && forall i: nat :: i < |g.sizes| && Overlaps(Span(g, i).value, offset, Clipped(g, end)) ==> Span(g, i).value in spans)
    && (forall k :: 0 <= k < |spans| && spans[k].len > 0 ==> Overlaps(spans[k], offset, Clipped(g, end)))
  }

  /** `spans`. */
  method Spans(g: Geometry, offset: nat, end: nat) returns (spans: seq<BlockSpan>)
    requires WellFormed(g)
    ensures Plans(g, offset, end, spans)
  {
    var first := IndexAt(g, offset);
    if first.None? || end <= offset {
      return [];
    }
    var last := IndexAt(g, end - 1);
    var l := if last.Some? then last.value else |g.sizes| - 1;
    LastReaches(g, end, last);
    FirstBeforeLast(g, offset, end, first.value, l);
    spans := Collect(g, first.value, l);
    RunPlans(g, offset, end, first.value, l);
  }

  lemma {:induction false} RunPlans(g: Geometry, offset: nat, end: nat, first: nat, last: nat)
    requires WellFormed(g) && first <= last < |g.sizes| && Contains(g, first, offset) && offset < end && offset < g.size
    requires g.starts[last] < Clipped(g, end) <= g.starts[last] + g.sizes[last]
    ensures Plans(g, offset, end, Run(g, first, last))
  {
    var spans := Run(g, first, last);
    assert spans[0].start == g.starts[first] && spans[|spans| - 1].End() == g.starts[last] + g.sizes[last];
    RunContiguous(g, first, last);
    RunOverlaps(g, offset, end, first, last);
    RunComplete(g, offset, end, first, last);
  }

  method Collect(g: Geometry, first: nat, last: nat) returns (spans: seq<BlockSpan>)
    requires WellFormed(g) && first <= last < |g.sizes|
    ensures spans == Run(g, first, last)
  {
    spans := [];
    for i := first to last + 1
      invariant |spans| == i - first && spans == Run(g, first, last)[..|spans|]
    {
      spans := spans + [Span(g, i).value];
    }
  }

  lemma {:induction false} FirstBeforeLast(g: Geometry, offset: nat, end: nat, first: nat, last: nat)
    requires WellFormed(g) && Contains(g, first, offset) && offset < end && last < |g.sizes|
    requires g.starts[last] < Clipped(g, end) <= g.starts[last] + g.sizes[last]
    ensures first <= last
  {
    StartsSorted(g);
    if last < first {
      BlocksOrdered(g, last, first);
    }
  }

  lemma {:induction false} RunContiguous(g: Geometry, first: nat, last: nat)
    requires WellFormed(g) && first <= last < |g.sizes|
    ensures Contiguous(g, Run(g, first, last))
  {
    var spans := Run(g, first, last);
    forall k | 0 <= k < |spans| - 1 ensures spans[k].End() == spans[k + 1].start {
      SumStep(g.sizes, first + k);
    }
  }

  lemma {:induction false} RunOverlaps(g: Geometry, offset: nat, end: nat, first: nat, last: nat)
    requires WellFormed(g) && first <= last < |g.sizes| && Contains(g, first, offset)
    requires g.starts[last] < Clipped(g, end) <= g.starts[last] + g.sizes[last]
    ensures
      var spans := Run(g, first, last);
      forall k :: 0 <= k < |spans| && spans[k].len > 0 ==> Overlaps(spans[k], offset, Clipped(g, end))
  {
    var spans := Run(g, first, last);
    forall k | 0 <= k < |spans| && spans[k].len > 0 ensures Overlaps(spans[k], offset, Clipped(g, end)) {
      BlocksOrdered(g, first, first + k);
      BlocksOrdered(g, first + k, last);
    }
  }

  lemma {:induction false} BlocksOrdered(g: Geometry, i: nat, j: nat)
    requires WellFormed(g) && i <= j < |g.sizes|
    ensures g.starts[i] <= g.starts[j] && (i < j ==> g.starts[i] + g.sizes[i] <= g.starts[j])
  {
    if i < j {
      SumStep(g.sizes, i);
      SumMonotone(g.sizes, i + 1, j);
    }
  }

  lemma {:induction false} RunComplete(g: Geometry, offset: nat, end: nat, first: nat, last: nat)
    requires WellFormed(g) && first <= last < |g.sizes| && Contains(g, first, offset)
    requires g.starts[last] < Clipped(g, end) <= g.starts[last] + g.sizes[last]
    ensures forall i: nat :: i < |g.sizes| && Overlaps(Span(g, i).value, offset, Clipped(g, end)) ==>
              Span(g, i).value in Run(g, first, last)
  {
    forall i: nat | i < |g.sizes| && Overlaps(Span(g, i).value, offset, Clipped(g, end))
      ensures Span(g, i).value in Run(g, first, last)
    {
      if i < first {
        BlocksOrdered(g, i, first);
      } else if last < i {
        BlocksOrdered(g, last, i);
      }
      assert Run(g, first, last)[i - first] == Span(g, i).value;
    }
  }

  lemma {:induction false} LastReaches(g: Geometry, end: nat, last: Option<nat>)
    requires WellFormed(g) && end > 0 && g.sizes != []
    requires last.None? <==> end - 1 >= g.size
    requires last.Some? ==> Contains(g, last.value, end - 1)
    ensures
      var l := if last.Some? then last.value else |g.sizes| - 1;
      l < |g.sizes| && g.starts[l] < Clipped(g, end) <= g.starts[l] + g.sizes[l] && g.sizes[l] > 0
  {
    var n := |g.sizes|;
    SumStep(g.sizes, n - 1);
    assert g.sizes[..n] == g.sizes && g.starts[n - 1] + g.sizes[n - 1] == g.size;
  }

  /** A range has one plan only. */
  lemma {:induction false} OnePlan(g: Geometry, offset: nat, end: nat, a: seq<BlockSpan>, b: seq<BlockSpan>)
    requires WellFormed(g) && Plans(g, offset, end, a) && Plans(g, offset, end, b)
    ensures a == b
  {
    if a != [] {
      OneBlockContains(g, a[0].idx, b[0].idx, offset);
      OneBlockContains(g, a[|a| - 1].idx, b[|b| - 1].idx, Clipped(g, end) - 1);
      assert |a| == |b|;
      forall k | 0 <= k < |a| ensures a[k] == b[k] {
        assert Span(g, a[k].idx) == Some(a[k]) && Span(g, b[k].idx) == Some(b[k]);
      }
    }
  }

  lemma {:induction false} OneBlockContains(g: Geometry, i: nat, j: nat, at: nat)
    requires WellFormed(g) && Contains(g, i, at) && Contains(g, j, at)
    ensures i == j
  {
    BlocksOrdered(g, if i <= j then i else j, if i <= j then j else i);
  }

  /** Sizes have one geometry only. */
  lemma {:induction false} OneGeometry(a: Geometry, b: Geometry)
    requires WellFormed(a) && WellFormed(b) && a.sizes == b.sizes
    ensures a == b
  {
    assert a.starts == b.starts;
  }

  // ----- the uniform geometry

  /** The sizes `uniform` derives from `block_len`. */
  function UniformSizes(size: nat): (s: seq<nat>)
    ensures |s| == (size + BLOCK_SIZE - 1) / BLOCK_SIZE
    ensures forall i :: 0 <= i < |s| ==> s[i] == BlockLen(size, i)
  {
    seq((size + BLOCK_SIZE - 1) / BLOCK_SIZE, i requires 0 <= i => BlockLen(size, i))
  }

  lemma {:induction false} UniformPrefix(size: nat, i: nat)
    requires size <= U64_MAX && i <= |UniformSizes(size)|
    ensures Sum(UniformSizes(size)[..i]) == if i * BLOCK_SIZE < size then i * BLOCK_SIZE else size
    ensures i < |UniformSizes(size)| ==> i * BLOCK_SIZE < size
    decreases i
  {
    if i > 0 {
      UniformPrefix(size, i - 1);
      SumStep(UniformSizes(size), i - 1);
    }
  }

  /** `uniform` describes exactly `size` bytes, and agrees with plain arithmetic everywhere: the block that
      holds a byte is the byte's offset divided by the block size, and each block is where and as long as
      `block_len` says. */
  method Uniform(size: nat) returns (g: Geometry)
    requires size <= U64_MAX
    ensures WellFormed(g) && g.size == size && g.sizes == UniformSizes(size)
    ensures forall i :: 0 <= i < |g.sizes| ==> g.starts[i] == i * BLOCK_SIZE && g.sizes[i] == BlockLen(size, i)
    ensures forall i: nat :: i >= |g.sizes| ==> BlockLen(size, i) == 0
    ensures forall at: nat :: at < size ==> Contains(g, at / BLOCK_SIZE, at)
  {
    var sizes := UniformSizes(size);
    UniformPrefix(size, |sizes|);
    assert sizes[..|sizes|] == sizes;
    assert sizes != [] ==> sizes[|sizes| - 1] > 0 by {
      if sizes != [] {
        UniformPrefix(size, |sizes| - 1);
      }
    }
    g := FromSizes(sizes);
    forall i | 0 <= i < |g.sizes| ensures g.starts[i] == i * BLOCK_SIZE {
      UniformPrefix(size, i);
    }
    forall at: nat | at < size ensures Contains(g, at / BLOCK_SIZE, at) {
      UniformContains(size, at);
    }
  }

  lemma {:induction false} UniformContains(size: nat, at: nat)
    requires at < size <= U64_MAX
    ensures at / BLOCK_SIZE < |UniformSizes(size)|
    ensures at / BLOCK_SIZE * BLOCK_SIZE <= at < at / BLOCK_SIZE * BLOCK_SIZE + BlockLen(size, at / BLOCK_SIZE)
  {
  }
}
