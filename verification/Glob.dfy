/** Glob matching of file names: `*` and `?`, nothing else. */
module Glob {

  /** The language of a pattern: `?` is any one character, `*` any run of them, anything else itself. */
  ghost predicate Matches(pattern: string, name: string)
    decreases |pattern|, |name|
  {
    if pattern == "" then name == ""
    else if pattern[0] == '*' then
      Matches(pattern[1..], name) || (name != "" && Matches(pattern, name[1..]))
    else
      name != "" && (pattern[0] == '?' || pattern[0] == name[0]) && Matches(pattern[1..], name[1..])
  }

  /** `*` stands for some run of characters. */
  lemma {:induction false} StarSkips(pattern: string, name: string)
    requires pattern != "" && pattern[0] == '*'
    ensures Matches(pattern, name) <==> exists k :: 0 <= k <= |name| && Matches(pattern[1..], name[k..])
    decreases |name|
  {
    if name == "" {
      assert name[0..] == name;
    } else {
      StarSkips(pattern, name[1..]);
      assert name[0..] == name;
      forall k | 0 <= k <= |name[1..]| ensures name[1..][k..] == name[k + 1..] {
      }
      if Matches(pattern, name[1..]) {
        var k :| 0 <= k <= |name[1..]| && Matches(pattern[1..], name[1..][k..]);
        assert Matches(pattern[1..], name[k + 1..]);
      }
      if exists k :: 0 < k <= |name| && Matches(pattern[1..], name[k..]) {
        var k :| 0 < k <= |name| && Matches(pattern[1..], name[k..]);
        assert Matches(pattern[1..], name[1..][k - 1..]);
      }
    }
  }

  /** A pattern that opens with `*` accepts what it accepts with more in front. */
  lemma {:induction false} StarAbsorbs(pattern: string, name: string, j: nat, k: nat)
    requires pattern != "" && pattern[0] == '*' && j <= k <= |name| && Matches(pattern, name[k..])
    ensures Matches(pattern, name[j..])
  {
    StarSkips(pattern, name[k..]);
    StarSkips(pattern, name[j..]);
    var m :| 0 <= m <= |name[k..]| && Matches(pattern[1..], name[k..][m..]);
    assert name[k..][m..] == name[j..][k - j + m..];
  }

  /** A stretch of pattern without `*` takes exactly as many characters as it has. */
  lemma {:induction false} PlainTakesItsLength(plain: string, rest: string, name: string)
    requires forall i :: 0 <= i < |plain| ==> plain[i] != '*'
    requires Matches(plain + rest, name)
    ensures |plain| <= |name| && Matches(rest, name[|plain|..])
  {
    if plain == "" {
      assert plain + rest == rest && name[0..] == name;
    } else {
      assert (plain + rest)[1..] == plain[1..] + rest;
      PlainTakesItsLength(plain[1..], rest, name[1..]);
      assert name[1..][|plain| - 1..] == name[|plain|..];
    }
  }

  /** Character by character, `?` for any one and every other for itself. */
  ghost predicate Pointwise(plain: string, name: string) {
    |plain| == |name| && forall i :: 0 <= i < |plain| ==> plain[i] == '?' || plain[i] == name[i]
  }

  /** In front of anything, a stretch without `*` matches character by character. With `StarSkips` this is the
      whole language. */
  lemma {:induction false} PlainIsPointwise(plain: string, rest: string, name: string)
    requires forall i :: 0 <= i < |plain| ==> plain[i] != '*'
    ensures Matches(plain + rest, name) <==>
              |plain| <= |name| && Pointwise(plain, name[..|plain|]) && Matches(rest, name[|plain|..])
  {
    if plain == "" {
      assert plain + rest == rest && name[0..] == name;
    } else if name != "" {
      var n := |plain|;
      assert (plain + rest)[1..] == plain[1..] + rest;
      PlainIsPointwise(plain[1..], rest, name[1..]);
      if n <= |name| {
        assert name[1..][n - 1..] == name[n..] && name[1..][..n - 1] == name[..n][1..];
        assert Pointwise(plain, name[..n]) <==>
                 (plain[0] == '?' || plain[0] == name[0]) && Pointwise(plain[1..], name[..n][1..]) by {
          PointwiseSplits(plain, name[..n]);
        }
      }
    }
  }

  lemma {:induction false} PointwiseSplits(plain: string, name: string)
    requires plain != "" && name != ""
    ensures Pointwise(plain, name) <==>
              (plain[0] == '?' || plain[0] == name[0]) && Pointwise(plain[1..], name[1..])
  {
    if Pointwise(plain[1..], name[1..]) {
      forall i | 0 < i < |plain| ensures plain[i] == '?' || plain[i] == name[i] {
        assert plain[1..][i - 1] == plain[i];
      }
    }
  }

  lemma {:induction false} OnlyStarsMatchNothing(pattern: string)
    ensures Matches(pattern, "") <==> forall i :: 0 <= i < |pattern| ==> pattern[i] == '*'
  {
    if pattern != "" {
      OnlyStarsMatchNothing(pattern[1..]);
      if pattern[0] == '*' {
        assert forall i :: 0 < i < |pattern| ==> pattern[i] == pattern[1..][i - 1];
      }
    }
  }

  /** The name matches from the cursor, or the last `*` swallows more than it has so far. */
  ghost predicate Pending(pattern: string, name: string, p: nat, n: nat, star: int, resume: nat)
    requires p <= |pattern| && n <= |name| && star < |pattern|
  {
    || Matches(pattern[p..], name[n..])
    || (star >= 0 && exists k :: resume < k <= |name| && Matches(pattern[star + 1..], name[k..]))
  }

  /** The bookkeeping of the loop: since the last `*`, pattern and name have advanced in step over a stretch
      without `*`. */
  ghost predicate InStep(pattern: string, name: string, p: nat, n: nat, star: int, resume: nat) {
    && p <= |pattern| && n <= |name| && star < p
    && (star < 0 ==> resume == 0)
    && (star >= 0 ==>
          && pattern[star] == '*' && resume <= n && n - resume == p - star - 1
          && forall i :: star < i < p ==> pattern[i] != '*')
  }

  /** Meeting a new `*` makes the earlier one's alternatives superfluous. */
  lemma {:induction false} NewStarSuffices(pattern: string, name: string, p: nat, n: nat, star: int, resume: nat)
    requires InStep(pattern, name, p, n, star, resume) && p < |pattern| && pattern[p] == '*'
    ensures Pending(pattern, name, p, n, star, resume) <==> Pending(pattern, name, p + 1, n, p, n)
  {
    assert pattern[p..][1..] == pattern[p + 1..];
    StarSkips(pattern[p..], name[n..]);
    if star >= 0 {
      forall k | resume < k <= |name| && Matches(pattern[star + 1..], name[k..]) ensures Matches(pattern[p..], name[n..]) {
        var plain := pattern[star + 1..p];
        assert pattern[star + 1..] == plain + pattern[p..];
        PlainTakesItsLength(plain, pattern[p..], name[k..]);
        assert name[k..][|plain|..] == name[k + |plain|..];
        StarAbsorbs(pattern[p..], name, n, k + |plain|);
      }
    }
    assert forall k :: 0 <= k <= |name[n..]| ==> name[n..][k..] == name[n + k..];
    if exists k :: n < k <= |name| && Matches(pattern[p + 1..], name[k..]) {
      var k :| n < k <= |name| && Matches(pattern[p + 1..], name[k..]);
      assert name[n..][k - n..] == name[k..];
    }
  }

  /** After a mismatch the last `*` takes one character more. */
  lemma {:induction false} BacktrackSuffices(pattern: string, name: string, p: nat, n: nat, star: int, resume: nat)
    requires InStep(pattern, name, p, n, star, resume) && star >= 0 && n < |name|
    requires !Matches(pattern[p..], name[n..])
    ensures Pending(pattern, name, p, n, star, resume) <==> Pending(pattern, name, star + 1, resume + 1, star, resume + 1)
  {
  }

  /** At the end of the name the last `*` has no more to give. */
  lemma {:induction false} EndOfName(pattern: string, name: string, p: nat, star: int, resume: nat)
    requires InStep(pattern, name, p, |name|, star, resume)
    ensures Pending(pattern, name, p, |name|, star, resume) <==> Matches(pattern[p..], "")
  {
    if star >= 0 {
      forall k | resume < k <= |name| && Matches(pattern[star + 1..], name[k..]) ensures false {
        var plain := pattern[star + 1..p];
        assert pattern[star + 1..] == plain + pattern[p..];
        PlainTakesItsLength(plain, pattern[p..], name[k..]);
      }
    }
  }

  /** `glob_match`: true exactly for the names in the pattern's language. */
  method GlobMatch(pattern: string, name: string) returns (r: bool)
    ensures r <==> Matches(pattern, name)
  {
    var p, n := 0, 0;
    var star, resume := -1, 0;
    assert pattern[0..] == pattern && name[0..] == name;
    while n < |name|
      invariant InStep(pattern, name, p, n, star, resume)
      invariant Matches(pattern, name) <==> Pending(pattern, name, p, n, star, resume)
      decreases |pattern| - star, |name| - resume, |name| - n
    {
      if p < |pattern| && pattern[p] == '*' {
        NewStarSuffices(pattern, name, p, n, star, resume);
        star, resume, p := p, n, p + 1;
      } else if p < |pattern| && (pattern[p] == '?' || pattern[p] == name[n]) {
        assert pattern[p..][1..] == pattern[p + 1..] && name[n..][1..] == name[n + 1..];
        p, n := p + 1, n + 1;
      } else if star >= 0 {
        BacktrackSuffices(pattern, name, p, n, star, resume);
        p, resume := star + 1, resume + 1;
        n := resume;
      } else {
        return false;
      }
    }
    EndOfName(pattern, name, p, star, resume);
    OnlyStarsMatchNothing(pattern[p..]);
    r := forall i :: p <= i < |pattern| ==> pattern[i] == '*';
    assert forall i :: p <= i < |pattern| ==> pattern[i] == pattern[p..][i - p];
    assert forall i :: 0 <= i < |pattern[p..]| ==> pattern[p..][i] == pattern[i + p];
  }
}
