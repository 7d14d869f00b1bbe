/** String operations the parsers build on. */
module Text {
  import opened Prelude

  /** The Unicode White_Space property. */
  predicate IsWhitespace(c: char) {
    var n := c as int;
    || 0x9 <= n <= 0xD || n == 0x20 || n == 0x85 || n == 0xA0 || n == 0x1680 || 0x2000 <= n <= 0x200A
    || n == 0x2028 || n == 0x2029 || n == 0x202F || n == 0x205F || n == 0x3000
  }

  /** Position of the first `c`, or the length. */
  function Find(s: string, c: char): (i: nat)
    ensures i <= |s| && (i < |s| ==> s[i] == c) && forall j :: 0 <= j < i ==> s[j] != c
  {
    if s == "" || s[0] == c then 0 else 1 + Find(s[1..], c)
  }

  lemma {:induction false} FindIs(s: string, c: char, i: nat)
    requires i <= |s| && (i < |s| ==> s[i] == c) && forall j :: 0 <= j < i ==> s[j] != c
    ensures Find(s, c) == i
  {
  }

  /** The lines of a text; a carriage return before the newline belongs to the line ending. */
  function Lines(s: string): seq<string>
    decreases |s|
  {
    if s == "" then []
    else
      var i := Find(s, '\n');
      if i == |s| then [s]
      else [if i > 0 && s[i - 1] == '\r' then s[..i - 1] else s[..i]] + Lines(s[i + 1..])
  }

  /** A line without the carriage return of its line ending. */
  function CutCr(line: string): string {
    if line != "" && line[|line| - 1] == '\r' then line[..|line| - 1] else line
  }

  lemma {:induction false} FirstLine(line: string, rest: string)
    requires '\n' !in line
    ensures Lines(line + "\n" + rest) == [CutCr(line)] + Lines(rest)
  {
    var s := line + "\n" + rest;
    assert forall j :: 0 <= j < |line| ==> s[j] == line[j];
    FindIs(s, '\n', |line|);
    assert s[|line| + 1..] == rest && s[..|line|] == line;
    assert line != "" ==> s[..|line| - 1] == line[..|line| - 1];
  }

  /** A last line without a newline is a line, carriage return and all. */
  lemma {:induction false} LastLine(line: string)
    requires '\n' !in line && line != ""
    ensures Lines(line) == [line]
  {
    FindIs(line, '\n', |line|);
  }

  function TrimEnd(s: string): string {
    if s != "" && IsWhitespace(s[|s| - 1]) then TrimEnd(s[..|s| - 1]) else s
  }

  /** The text after leading whitespace. */
  function SkipSpace(s: string): string {
    if s != "" && IsWhitespace(s[0]) then SkipSpace(s[1..]) else s
  }

  /** The length of the first run without whitespace. */
  function WordLength(s: string): (n: nat)
    ensures n <= |s|
  {
    if s == "" || IsWhitespace(s[0]) then 0 else 1 + WordLength(s[1..])
  }

  /** `split_whitespace().nth(1)`. */
  function SecondWord(line: string): Option<string> {
    var first := SkipSpace(line);
    var rest := SkipSpace(first[WordLength(first)..]);
    if first == "" || rest == "" then None else Some(rest[..WordLength(rest)])
  }

  lemma {:induction false} WordThen(word: string, rest: string)
    requires forall i :: 0 <= i < |word| ==> !IsWhitespace(word[i])
    requires rest == "" || IsWhitespace(rest[0])
    ensures WordLength(word + rest) == |word|
  {
    if word == "" {
      assert word + rest == rest;
    } else {
      assert (word + rest)[1..] == word[1..] + rest;
      WordThen(word[1..], rest);
    }
  }

  /** A line of one word, or none, has no second. */
  lemma {:induction false} OneWordOnly(front: string, word: string, back: string)
    requires forall i :: 0 <= i < |front| ==> IsWhitespace(front[i])
    requires forall i :: 0 <= i < |word| ==> !IsWhitespace(word[i])
    requires forall i :: 0 <= i < |back| ==> IsWhitespace(back[i])
    ensures SecondWord(front + word + back) == None
  {
    Reassociate(front, word, back);
    SkipsSpace(front, word + back);
    WordThen(word, back);
    assert (word + back)[|word|..] == back;
    SkipsSpace(back, "");
    assert back + "" == back;
    if word == "" {
      assert word + back == back;
    } else {
      assert SkipSpace(word + back) == word + back;
    }
  }

  lemma {:induction false} SkipsSpace(space: string, rest: string)
    requires forall i :: 0 <= i < |space| ==> IsWhitespace(space[i])
    ensures SkipSpace(space + rest) == SkipSpace(rest)
  {
    if space == "" {
      assert space + rest == rest;
    } else {
      assert (space + rest)[1..] == space[1..] + rest;
      SkipsSpace(space[1..], rest);
    }
  }
}
