/** Ramer-Douglas-Peucker line simplification, with an explicit stack. Distances are exact reals, and the
    distance from a point to a segment is a parameter. */
module Simplify {
  import opened Prelude

  const TOLERANCE: real := 0.04

  type Distance<!P> = (P, P, P) -> real

  /** The scan for the farthest interior point, up to but not including `hi`: its distance and the first
      index that has it, or -1 if no point is off the segment. */
  function Farthest<P>(points: seq<P>, d: Distance<P>, first: nat, last: nat, hi: nat): (real, int)
    requires first <= last < |points| && hi <= last
  {
    if hi <= first + 1 then (0.0, -1)
    else
      var (worst, index) := Farthest(points, d, first, last, hi - 1);
      var x := d(points[hi - 1], points[first], points[last]);
      if x > worst then (x, hi - 1) else (worst, index)
  }

  lemma {:induction false} FarthestIsMaximal<P>(points: seq<P>, d: Distance<P>, first: nat, last: nat, hi: nat)
    requires first <= last < |points| && hi <= last
    ensures
      var (worst, index) := Farthest(points, d, first, last, hi);
      && worst >= 0.0 && (index == -1 ==> worst == 0.0)
      && (index != -1 ==> first < index < hi && worst == d(points[index], points[first], points[last]))
      && (forall i :: first < i < hi ==> d(points[i], points[first], points[last]) <= worst)
      && (forall i :: first < i < index ==> d(points[i], points[first], points[last]) < worst)
    decreases hi
  {
    if hi > first + 1 {
      FarthestIsMaximal(points, d, first, last, hi - 1);
    }
  }

  /** Every point between `first` and `last` is within the tolerance of their segment. */
  ghost predicate AllNear<P>(points: seq<P>, d: Distance<P>, first: nat, last: nat)
    requires first <= last < |points|
  {
    forall i :: first < i < last ==> d(points[i], points[first], points[last]) <= TOLERANCE
  }

  /** `i` is the first of the points farthest from the segment of `first` and `last`, and beyond the tolerance. */
  ghost predicate FirstFarthest<P>(points: seq<P>, d: Distance<P>, first: nat, last: nat, i: int)
    requires first <= last < |points|
  {
    && first < i < last && d(points[i], points[first], points[last]) > TOLERANCE
    && (forall j :: first < j < last ==>
          d(points[j], points[first], points[last]) <= d(points[i], points[first], points[last]))
    && (forall j :: first < j < i ==>
          d(points[j], points[first], points[last]) < d(points[i], points[first], points[last]))
  }

  /** Where a stretch is split, or -1 if every point of it is near enough. */
  function Split<P>(points: seq<P>, d: Distance<P>, first: nat, last: nat): (i: int)
    requires first <= last < |points|
    ensures i == -1 || first < i < last
  {
    var (worst, index) := Farthest(points, d, first, last, last);
    FarthestIsMaximal(points, d, first, last, last);
    if index != -1 && worst > TOLERANCE then index else -1
  }

  lemma {:induction false} SplitIsFirstFarthest<P>(points: seq<P>, d: Distance<P>, first: nat, last: nat)
    requires first <= last < |points|
    ensures
      var i := Split(points, d, first, last);
      if i == -1 then AllNear(points, d, first, last)
      else FirstFarthest(points, d, first, last, i) && !AllNear(points, d, first, last)
  {
    FarthestIsMaximal(points, d, first, last, last);
  }

  /** The recursive definition: the interior points that are kept between two kept ones. */
  ghost function Kept<P>(points: seq<P>, d: Distance<P>, first: nat, last: nat): (s: set<nat>)
    requires first <= last < |points|
    ensures forall i :: i in s ==> first < i < last
    decreases last - first
  {
    var i := Split(points, d, first, last);
    if i == -1 then {} else {i as nat} + Kept(points, d, first, i) + Kept(points, d, i, last)
  }

  /** Every point the simplification keeps. */
  ghost function Result<P>(points: seq<P>, d: Distance<P>): set<nat>
    requires points != []
  {
    {0, |points| - 1} + Kept(points, d, 0, |points| - 1)
  }

  /** `a` and `b` are the nearest kept points before and after `i`. */
  ghost predicate Neighbours(kept: set<nat>, a: nat, i: nat, b: nat) {
    a < i < b && a in kept && b in kept && forall j :: a < j < b ==> j !in kept
  }

  /** A point dropped between `first` and `last` lies within the tolerance of the segment between its
      nearest kept neighbours. */
  lemma {:induction false} DroppedIsNear<P>(points: seq<P>, d: Distance<P>, first: nat, last: nat, i: nat)
    returns (a: nat, b: nat)
    requires first < i < last < |points| && i !in Kept(points, d, first, last)
    ensures Neighbours({first, last} + Kept(points, d, first, last), a, i, b)
    ensures d(points[i], points[a], points[b]) <= TOLERANCE
    decreases last - first
  {
    var m := Split(points, d, first, last);
    SplitIsFirstFarthest(points, d, first, last);
    if m == -1 {
      a, b := first, last;
    } else if i < m {
      a, b := DroppedIsNear(points, d, first, m, i);
    } else {
      a, b := DroppedIsNear(points, d, m, last, i);
    }
  }

  /** Over the whole line: the ends are kept, and every dropped point is near its neighbours' segment. */
  lemma {:induction false} SimplificationIsNear<P>(points: seq<P>, d: Distance<P>, i: nat)
    requires i < |points|
    ensures 0 in Result(points, d) && |points| - 1 in Result(points, d)
    ensures i !in Result(points, d) ==>
              exists a: nat, b: nat ::
                Neighbours(Result(points, d), a, i, b) && b < |points| && d(points[i], points[a], points[b]) <= TOLERANCE
  {
    if i !in Result(points, d) {
      var a, b := DroppedIsNear(points, d, 0, |points| - 1, i);
      assert Neighbours(Result(points, d), a, i, b);
    }
  }

  /** A point kept between `first` and `last` was the farthest, beyond the tolerance, from the segment of two
      kept points around it. */
  lemma {:induction false} KeptIsFar<P>(points: seq<P>, d: Distance<P>, first: nat, last: nat, i: nat)
    returns (a: nat, b: nat)
    requires first <= last < |points| && i in Kept(points, d, first, last)
    ensures a in {first, last} + Kept(points, d, first, last) && b in {first, last} + Kept(points, d, first, last)
    ensures a <= b < |points| && FirstFarthest(points, d, a, b, i)
    decreases last - first
  {
    var m := Split(points, d, first, last);
    if i == m {
      SplitIsFirstFarthest(points, d, first, last);
      a, b := first, last;
    } else if i in Kept(points, d, first, m) {
      a, b := KeptIsFar(points, d, first, m, i);
    } else {
      a, b := KeptIsFar(points, d, m, last, i);
    }
  }

  /** Over the whole line: nothing is kept without need. */
  lemma {:induction false} KeptWasNeeded<P>(points: seq<P>, d: Distance<P>, i: nat)
    requires points != [] && i in Result(points, d) && 0 < i < |points| - 1
    ensures exists a: nat, b: nat ::
              && a in Result(points, d) && b in Result(points, d) && a <= b < |points|
              && FirstFarthest(points, d, a, b, i)
  {
    var a, b := KeptIsFar(points, d, 0, |points| - 1, i);
  }

  // ----- the loop

  datatype Stretch = Stretch(first: nat, last: nat)

  ghost predicate WithinLine(stack: seq<Stretch>, n: nat) {
    forall k :: 0 <= k < |stack| ==> stack[k].first <= stack[k].last < n
  }

  /** What the stretches still on the stack will add. */
  ghost function Owed<P>(points: seq<P>, d: Distance<P>, stack: seq<Stretch>): set<nat>
    requires WithinLine(stack, |points|)
  {
    if stack == [] then {}
    else
      var top := stack[|stack| - 1];
      Owed(points, d, stack[..|stack| - 1]) + Kept(points, d, top.first, top.last)
  }

  ghost function Weight(stack: seq<Stretch>): nat {
    if stack == [] then 0
    else
      var top := stack[|stack| - 1];
      Weight(stack[..|stack| - 1]) + if top.last <= top.first then 1 else 2 * (top.last - top.first) - 1
  }

  /** The points whose flag is set, in order. */
  function Select<P>(points: seq<P>, keep: seq<bool>): seq<P>
    requires |points| == |keep|
  {
    if points == [] then []
    else if keep[0] then [points[0]] + Select(points[1..], keep[1..])
    else Select(points[1..], keep[1..])
  }

  /** How many flags are set before index `i`. */
  function Rank(keep: seq<bool>, i: nat): nat
    requires i <= |keep|
  {
    if i == 0 then 0 else Rank(keep, i - 1) + if keep[i - 1] then 1 else 0
  }

  lemma {:induction false} RankOfRest(keep: seq<bool>, i: nat)
    requires 0 < i <= |keep|
    ensures Rank(keep, i) == (if keep[0] then 1 else 0) + Rank(keep[1..], i - 1)
  {
    if i > 1 {
      RankOfRest(keep, i - 1);
    }
  }

  /** What is selected is exactly the flagged points, each at the place its rank gives it. */
  lemma {:induction false} SelectedByRank<P>(points: seq<P>, keep: seq<bool>, i: nat)
    requires |points| == |keep| && i < |points|
    ensures |Select(points, keep)| == Rank(keep, |keep|)
    ensures keep[i] ==> Rank(keep, i) < |Select(points, keep)| && Select(points, keep)[Rank(keep, i)] == points[i]
  {
    RankOfRest(keep, |keep|);
    if i > 0 {
      RankOfRest(keep, i);
      SelectedByRank(points[1..], keep[1..], i - 1);
    } else if |points| > 1 {
      SelectedByRank(points[1..], keep[1..], 0);
    }
  }

  method FindSplit<P>(points: seq<P>, d: Distance<P>, first: nat, last: nat) returns (index: int)
    requires first <= last < |points|
    ensures index == -1 <==> AllNear(points, d, first, last)
    ensures index != -1 ==> FirstFarthest(points, d, first, last, index)
    ensures index == Split(points, d, first, last)
  {
    var worst := 0.0;
    index := -1;
    var i := first + 1;
    while i < last
      invariant first + 1 <= i && (i <= last || i == first + 1)
      invariant (worst, index) == Farthest(points, d, first, last, if i <= last then i else last)
    {
      var x := d(points[i], points[first], points[last]);
      if x > worst {
        worst, index := x, i;
      }
      i := i + 1;
    }
    if !(index != -1 && worst > TOLERANCE) {
      index := -1;
    }
    SplitIsFirstFarthest(points, d, first, last);
  }

  /** `simplify`: the flags end up set exactly for the points the recursive definition keeps. An empty line
      is an error. */
  method Simplify<P>(points: seq<P>, d: Distance<P>) returns (r: Option<seq<P>>, flags: seq<bool>)
    ensures r.None? <==> points == []
    ensures r.Some? ==> |flags| == |points| && r.value == Select(points, flags)
    ensures r.Some? ==> forall i :: 0 <= i < |points| ==> (flags[i] <==> i in Result(points, d))
  {
    var n := |points|;
    if n == 0 {
      return None, [];
    }
    var keep := new bool[n](_ => false);
    keep[0], keep[n - 1] := true, true;
    MarkKept(points, d, keep);
    flags := keep[..];
    r := Some(Select(points, flags));
  }

  /** The loop of it, with the two ends already marked. */
  method MarkKept<P>(points: seq<P>, d: Distance<P>, keep: array<bool>)
    requires points != [] && keep.Length == |points|
    requires forall i :: 0 <= i < |points| ==> (keep[i] <==> i in {0, |points| - 1})
    modifies keep
    ensures forall i :: 0 <= i < |points| ==> (keep[i] <==> i in Result(points, d))
  {
    var n := |points|;
    ghost var marked: set<nat> := {0, n - 1};
    var stack: seq<Stretch> := [Stretch(0, n - 1)];
    assert stack[..0] == [];
    while stack != []
      invariant WithinLine(stack, n) && marked + Owed(points, d, stack) == Result(points, d)
      invariant forall i :: 0 <= i < n ==> (keep[i] <==> i in marked)
      decreases Weight(stack)
    {
      var top := stack[|stack| - 1];
      var rest := stack[..|stack| - 1];
      assert stack == rest + [top];
      stack, marked := Visit(points, d, keep, rest, top, marked);
    }
  }

  /** One round: the stretch `top` is dropped, or split at a point that is marked. */
  method Visit<P>(points: seq<P>, d: Distance<P>, keep: array<bool>, rest: seq<Stretch>, top: Stretch, ghost marked: set<nat>)
    returns (stack: seq<Stretch>, ghost more: set<nat>)
    requires keep.Length == |points| && WithinLine(rest, |points|) && top.first <= top.last < |points|
    requires forall i :: 0 <= i < |points| ==> (keep[i] <==> i in marked)
    modifies keep
    ensures forall i :: 0 <= i < |points| ==> (keep[i] <==> i in more)
    ensures WithinLine(stack, |points|) && Weight(stack) < Weight(rest + [top])
    ensures more + Owed(points, d, stack) == marked + (Owed(points, d, rest) + Kept(points, d, top.first, top.last))
  {
    assert (rest + [top])[..|rest|] == rest;
    var index := FindSplit(points, d, top.first, top.last);
    if index == -1 {
      return rest, marked;
    }
    PushBoth(points, d, rest, top, index);
    stack := rest + [Stretch(top.first, index)] + [Stretch(index, top.last)];
    more := AddMark(marked, Owed(points, d, rest) + Kept(points, d, top.first, top.last), Owed(points, d, stack), index);
    keep[index] := true;
  }

  lemma {:induction false} AddMark(marked: set<nat>, before: set<nat>, after: set<nat>, i: nat) returns (more: set<nat>)
    requires after + {i} == before
    ensures more == marked + {i} && more + after == marked + before
  {
    more := marked + {i};
  }

  lemma {:induction false} PushBoth<P>(points: seq<P>, d: Distance<P>, rest: seq<Stretch>, top: Stretch, i: nat)
    requires WithinLine(rest, |points|) && top.first < i < top.last < |points| && i == Split(points, d, top.first, top.last)
    ensures
      var left := rest + [Stretch(top.first, i)];
      var stack := left + [Stretch(i, top.last)];
      && WithinLine(stack, |points|)
      && Owed(points, d, stack) + {i} == Owed(points, d, rest) + Kept(points, d, top.first, top.last)
      && Weight(stack) < Weight(rest + [top])
  {
    var left := rest + [Stretch(top.first, i)];
    assert left[..|left| - 1] == rest;
    assert (left + [Stretch(i, top.last)])[..|left|] == left;
    assert (rest + [top])[..|rest|] == rest;
  }
}
