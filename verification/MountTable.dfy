/** Nested mountpoints, read from the text of a mount table. */
module MountTable {
  import opened Prelude
  import opened Text

  predicate IsOctal(c: char) { '0' <= c <= '7' }

  function OctalValue(c: char): nat
    requires IsOctal(c)
  {
    c as int - '0' as int
  }

  /** Three characters as an octal byte; like the integer parser, a plus sign may take the first place. */
  function ParseOctal(s: string): Option<nat>
    requires |s| == 3
  {
    if !IsOctal(s[1]) || !IsOctal(s[2]) || !(IsOctal(s[0]) || s[0] == '+') then None
    else
      var high := if s[0] == '+' then 0 else OctalValue(s[0]);
      var n := 64 * high + 8 * OctalValue(s[1]) + OctalValue(s[2]);
      if n > 255 then None else Some(n)
  }

  /** What unescaping means: an octal escape is its byte, a backslash that opens none is itself. */
  function Unescaped(s: string): string
    decreases |s|
  {
    if s == "" then ""
    else if s[0] == '\\' && |s| >= 4 && ParseOctal(s[1..4]).Some? then
      [ParseOctal(s[1..4]).value as char] + Unescaped(s[4..])
    else [s[0]] + Unescaped(s[1..])
  }

  function OctalDigit(n: nat): char
    requires n < 8
  {
    '0' + n as char
  }

  /** The kernel's escaping of the characters in `special` as backslash and three octal digits. */
  function Escaped(path: string, special: set<char>): string
    requires forall c :: c in special ==> c as int < 256
  {
    if path == "" then ""
    else
      var c := path[0];
      (if c in special then
         ['\\', OctalDigit(c as int / 64), OctalDigit(c as int / 8 % 8), OctalDigit(c as int % 8)]
       else [c]) + Escaped(path[1..], special)
  }

  /** Unescaping inverts the escaping, for every path and every set of escaped characters that has the
      backslash in it. */
  lemma {:induction false} UnescapeInvertsEscape(path: string, special: set<char>)
    requires '\\' in special && forall c :: c in special ==> c as int < 256
    ensures Unescaped(Escaped(path, special)) == path
  {
    if path != "" {
      var c, rest := path[0], Escaped(path[1..], special);
      var s := Escaped(path, special);
      UnescapeInvertsEscape(path[1..], special);
      if c in special {
        EscapeParses(c);
        assert s[1..4] == [OctalDigit(c as int / 64), OctalDigit(c as int / 8 % 8), OctalDigit(c as int % 8)];
        assert s[4..] == rest;
      } else {
        assert s[0] == c && s[1..] == rest;
      }
    }
  }

  /** An escape stands at `i`. */
  predicate EscapeAt(s: string, i: nat) {
    i + 4 <= |s| && s[i] == '\\' && ParseOctal(s[i + 1..i + 4]).Some?
  }

  lemma {:induction false} EscapeAtRest(s: string, i: nat)
    requires s != ""
    ensures EscapeAt(s[1..], i) <==> EscapeAt(s, i + 1)
  {
    if i + 5 <= |s| {
      var a, b := s[1..][i + 1..i + 4], s[i + 2..i + 5];
      assert forall k :: 0 <= k < 3 ==> a[k] == b[k];
      assert a == b;
    }
  }

  /** A text without an escape in it comes back as it is, lone backslashes included. */
  lemma {:induction false} NoEscapeUnescapesToItself(s: string)
    requires forall i: nat :: !EscapeAt(s, i)
    ensures Unescaped(s) == s
  {
    if s != "" {
      assert !EscapeAt(s, 0);
      forall i: nat ensures !EscapeAt(s[1..], i) {
        EscapeAtRest(s, i);
      }
      NoEscapeUnescapesToItself(s[1..]);
    }
  }

  lemma {:induction false} EscapeParses(c: char)
    requires c as int < 256
    ensures ParseOctal([OctalDigit(c as int / 64), OctalDigit(c as int / 8 % 8), OctalDigit(c as int % 8)]) == Some(c as int)
  {
    var n := c as int;
    assert n == 64 * (n / 64) + 8 * (n / 8 % 8) + n % 8;
  }

  /** `unescape_mount_field`. */
  method UnescapeMountField(field: string) returns (out: string)
    ensures out == Unescaped(field)
  {
    out := "";
    var rest := field;
    while Find(rest, '\\') < |rest|
      invariant out + Unescaped(rest) == Unescaped(field)
      decreases |rest|
    {
      var piece, left := UnescapeNext(rest);
      Reassociate(out, piece, Unescaped(left));
      out, rest := out + piece, left;
    }
    PlainUnescapes(rest, |rest|);
    assert rest[..|rest|] + Unescaped(rest[|rest|..]) == rest;
    out := out + rest;
  }

  /** One round of the loop: the text up to and including the first backslash or escape, decoded. */
  method UnescapeNext(rest: string) returns (piece: string, left: string)
    requires Find(rest, '\\') < |rest|
    ensures piece + Unescaped(left) == Unescaped(rest) && |left| < |rest|
  {
    var at := Find(rest, '\\');
    var tail := rest[at..];
    PlainUnescapes(rest, at);
    piece := rest[..at];
    if |tail| >= 4 && ParseOctal(tail[1..4]).Some? {
      var c := ParseOctal(tail[1..4]).value as char;
      left := rest[at + 4..];
      assert tail[4..] == left;
      Reassociate(piece, [c], Unescaped(left));
      piece := piece + [c];
    } else {
      left := rest[at + 1..];
      assert tail[1..] == left && tail[0] == '\\';
      Reassociate(piece, "\\", Unescaped(left));
      piece := piece + "\\";
    }
  }

  lemma {:induction false} PlainUnescapes(s: string, n: nat)
    requires n <= |s| && forall i :: 0 <= i < n ==> s[i] != '\\'
    ensures Unescaped(s) == s[..n] + Unescaped(s[n..])
  {
    if n == 0 {
      assert s[0..] == s;
    } else {
      PlainUnescapes(s[1..], n - 1);
      assert s[1..][n - 1..] == s[n..] && [s[0]] + s[1..][..n - 1] == s[..n];
      Reassociate([s[0]], s[1..][..n - 1], Unescaped(s[n..]));
    }
  }

  // ----- the table

  /** A path as its components, the root directory being the first of an absolute one; empty components and
      those named `.` do not count, unless a relative path opens with it. */
  function Components(path: string): seq<string> {
    if path == "" then []
    else if path[0] == '/' then ["/"] + Names(path[1..])
    else
      var i := Find(path, '/');
      [path[..i]] + (if i < |path| then Names(path[i + 1..]) else [])
  }

  function Names(s: string): seq<string>
    decreases |s|
  {
    if s == "" then []
    else
      var i := Find(s, '/');
      Piece(s[..i]) + if i < |s| then Names(s[i + 1..]) else []
  }

  /** What stands between two slashes, unless it does not count. */
  function Piece(p: string): seq<string> { if p == "" || p == "." then [] else [p] }

  predicate StrictlyBelow(path: string, root: string) {
    Components(root) < Components(path)
  }

  /** A name a path may end in. */
  predicate IsName(name: string) { name != "" && '/' !in name && name != "." }

  lemma {:induction false} OneName(name: string)
    requires '/' !in name
    ensures Names(name) == Piece(name)
  {
    FindIs(name, '/', |name|);
    assert name[..|name|] == name;
  }

  /** The first slash of a path with a name behind it. */
  lemma {:induction false} JoinSplits(s: string, name: string)
    ensures
      var t, i := s + "/" + name, Find(s, '/');
      && Find(t, '/') == i && t[..i] == s[..i]
      && t[i + 1..] == if i < |s| then s[i + 1..] + "/" + name else name
  {
    var i, tail := Find(s, '/'), "/" + name;
    Reassociate(s, "/", name);
    ConcatCut(s, tail, i);
    FindIs(s + tail, '/', i);
    if i < |s| {
      ConcatCut(s, tail, i + 1);
      Reassociate(s[i + 1..], "/", name);
    } else {
      assert (s + tail)[i + 1..] == name;
    }
  }

  lemma {:induction false} ConcatCut(a: string, b: string, k: nat)
    requires k <= |a|
    ensures (a + b)[..k] == a[..k] && (a + b)[k..] == a[k..] + b
  {
  }

  lemma {:induction false} NamesJoin(s: string, name: string)
    requires '/' !in name
    ensures Names(s + "/" + name) == Names(s) + Piece(name)
    decreases |s|
  {
    var t, i := s + "/" + name, Find(s, '/');
    JoinSplits(s, name);
    assert Names(t) == Piece(s[..i]) + Names(t[i + 1..]);
    if i < |s| {
      NamesJoin(s[i + 1..], name);
      Reassociate(Piece(s[..i]), Names(s[i + 1..]), Piece(name));
    } else {
      OneName(name);
    }
  }

  /** A path and a name behind it have one component more; nothing, or a dot, behind it makes none. */
  lemma {:induction false} ComponentsJoin(path: string, name: string)
    requires path != "" && '/' !in name
    ensures Components(path + "/" + name) == Components(path) + if IsName(name) then [name] else []
  {
    var t := path + "/" + name;
    if path[0] == '/' {
      assert t[1..] == path[1..] + "/" + name;
      NamesJoin(path[1..], name);
    } else {
      var i := Find(path, '/');
      JoinSplits(path, name);
      if i < |path| {
        NamesJoin(path[i + 1..], name);
      } else {
        OneName(name);
      }
    }
  }

  /** Strictly below means: not the directory itself, but every name in it, and what is below that; and nothing
      in a directory beside it, however alike the names. */
  lemma {:induction false} BelowIsInside(dir: string, a: string, b: string, c: string)
    requires dir != "" && IsName(a) && IsName(b) && IsName(c)
    ensures !StrictlyBelow(dir, dir)
    ensures StrictlyBelow(dir + "/" + a, dir) && !StrictlyBelow(dir, dir + "/" + a)
    ensures StrictlyBelow(dir + "/" + a + "/" + c, dir)
    ensures a != b ==> !StrictlyBelow(dir + "/" + b, dir + "/" + a) && !StrictlyBelow(dir + "/" + b + "/" + c, dir + "/" + a)
  {
    ComponentsJoin(dir, a);
    ComponentsJoin(dir, b);
    ComponentsJoin(dir + "/" + a, c);
    ComponentsJoin(dir + "/" + b, c);
    var n := |Components(dir)|;
    assert Components(dir + "/" + a)[n] == a && Components(dir + "/" + b + "/" + c)[n] == b;
  }

  /** `parse_nested_mount_points`: second field of each line, unescaped, if strictly below the root. */
  function ParseLines(lines: seq<string>, root: string): seq<string> {
    if lines == [] then []
    else
      var field := SecondWord(lines[0]);
      (if field.Some? && StrictlyBelow(Unescaped(field.value), root) then [Unescaped(field.value)] else [])
      + ParseLines(lines[1..], root)
  }

  function ParseNestedMountPoints(mounts: string, root: string): seq<string> {
    ParseLines(Lines(mounts), root)
  }

  datatype Mount = Mount(device: string, path: string, options: string)

  /** A line of a mount table: a device without whitespace, an absolute path, and options without a newline. */
  predicate Renderable(m: Mount) {
    && m.device != "" && (forall i :: 0 <= i < |m.device| ==> !IsWhitespace(m.device[i]))
    && m.path != "" && m.path[0] == '/'
    && '\n' !in m.options
  }

  /** The characters the kernel escapes in a path. Other whitespace, such as a carriage return or U+00A0, it
      writes as it is. */
  const KERNEL_ESCAPES: set<char> := {' ', '\t', '\n', '\\'}

  /** Where the first whitespace is that is not escaped, or the end. */
  function CutAt(path: string, special: set<char>): (i: nat)
    ensures i <= |path| && (i < |path| ==> IsWhitespace(path[i]) && path[i] !in special)
    ensures forall j :: 0 <= j < i ==> !IsWhitespace(path[j]) || path[j] in special
  {
    if path == "" || (IsWhitespace(path[0]) && path[0] !in special) then 0 else 1 + CutAt(path[1..], special)
  }

  /** What the parser makes of a path. */
  function ReadPath(m: Mount, special: set<char>): string { m.path[..CutAt(m.path, special)] }

  function RenderTable(mounts: seq<Mount>, special: set<char>): string
    requires forall c :: c in special ==> c as int < 256
  {
    if mounts == [] then ""
    else RenderLine(mounts[0], special) + "\n" + RenderTable(mounts[1..], special)
  }

  function RenderLine(m: Mount, special: set<char>): string
    requires forall c :: c in special ==> c as int < 256
  {
    m.device + " " + Escaped(m.path, special) + " " + m.options
  }

  /** Those of the paths that are strictly below the root, in order. */
  function PathsBelow(paths: seq<string>, root: string): seq<string> {
    if paths == [] then []
    else (if StrictlyBelow(paths[0], root) then [paths[0]] else []) + PathsBelow(paths[1..], root)
  }

  function Paths(mounts: seq<Mount>): seq<string> {
    if mounts == [] then [] else [mounts[0].path] + Paths(mounts[1..])
  }

  function ReadPaths(mounts: seq<Mount>, special: set<char>): seq<string> {
    if mounts == [] then [] else [ReadPath(mounts[0], special)] + ReadPaths(mounts[1..], special)
  }

  lemma {:induction false} EscapedHasNoWhitespace(path: string, special: set<char>)
    requires forall c :: c in special ==> c as int < 256
    requires forall i :: 0 <= i < |path| ==> !IsWhitespace(path[i]) || path[i] in special
    ensures forall i :: 0 <= i < |Escaped(path, special)| ==> !IsWhitespace(Escaped(path, special)[i])
    ensures path != "" ==> Escaped(path, special) != ""
  {
    if path != "" {
      EscapedHasNoWhitespace(path[1..], special);
      assert forall n: nat :: n < 8 ==> !IsWhitespace(OctalDigit(n));
    }
  }

  /** The second word of a rendered line is the escaped path. */
  lemma {:induction false} LineHasField(device: string, field: string, tail: string)
    requires device != "" && field != "" && (tail == "" || IsWhitespace(tail[0]))
    requires forall i :: 0 <= i < |device| ==> !IsWhitespace(device[i])
    requires forall i :: 0 <= i < |field| ==> !IsWhitespace(field[i])
    ensures SecondWord(device + " " + field + tail) == Some(field)
  {
    var line, after := device + " " + field + tail, " " + (field + tail);
    assert line == device + after;
    WordThen(device, after);
    assert SkipSpace(line) == line && line[|device|..] == after;
    OneSpace(field + tail);
    WordThen(field, tail);
    assert (field + tail)[..|field|] == field;
  }

  lemma {:induction false} OneSpace(s: string)
    requires s != "" && !IsWhitespace(s[0])
    ensures SkipSpace(" " + s) == s
  {
    assert (" " + s)[1..] == s && SkipSpace(s) == s;
  }

  /** For every table of absolute mountpoints, the parser returns exactly those strictly below the root,
      unescaped and in order, each up to its first unescaped whitespace. */
  lemma {:induction false} TableReads(mounts: seq<Mount>, special: set<char>, root: string)
    requires '\\' in special && '\n' in special && forall c :: c in special ==> c as int < 256
    requires forall i :: 0 <= i < |mounts| ==> Renderable(mounts[i])
    ensures ParseNestedMountPoints(RenderTable(mounts, special), root) == PathsBelow(ReadPaths(mounts, special), root)
  {
    if mounts != [] {
      var rest := RenderTable(mounts[1..], special);
      var line := RenderLine(mounts[0], special);
      assert RenderTable(mounts, special) == line + "\n" + rest;
      LineReads(mounts[0], special);
      UnescapeInvertsEscape(ReadPath(mounts[0], special), special);
      FirstLine(line, rest);
      TableReads(mounts[1..], special, root);
      ParseFirst(CutCr(line), Lines(rest), root);
    }
  }

  /** So a table without unescaped whitespace in its paths comes back whole. */
  lemma {:induction false} TableRoundTrips(mounts: seq<Mount>, special: set<char>, root: string)
    requires '\\' in special && '\n' in special && forall c :: c in special ==> c as int < 256
    requires forall i :: 0 <= i < |mounts| ==> Renderable(mounts[i]) && CutAt(mounts[i].path, special) == |mounts[i].path|
    ensures ParseNestedMountPoints(RenderTable(mounts, special), root) == PathsBelow(Paths(mounts), root)
  {
    TableReads(mounts, special, root);
    UncutPaths(mounts, special);
  }

  lemma {:induction false} UncutPaths(mounts: seq<Mount>, special: set<char>)
    requires forall i :: 0 <= i < |mounts| ==> CutAt(mounts[i].path, special) == |mounts[i].path|
    ensures ReadPaths(mounts, special) == Paths(mounts)
  {
    if mounts != [] {
      assert ReadPath(mounts[0], special) == mounts[0].path;
      UncutPaths(mounts[1..], special);
    }
  }

  /** A line gives its path back if and only if the path has no unescaped whitespace. */
  lemma {:induction false} LineReadsBackIff(m: Mount, special: set<char>)
    requires '\\' in special && '\n' in special && forall c :: c in special ==> c as int < 256
    requires Renderable(m)
    ensures SecondWord(CutCr(RenderLine(m, special))).Some?
    ensures Unescaped(SecondWord(CutCr(RenderLine(m, special))).value) == m.path
            <==> forall i :: 0 <= i < |m.path| ==> !IsWhitespace(m.path[i]) || m.path[i] in special
  {
    LineReads(m, special);
    UnescapeInvertsEscape(ReadPath(m, special), special);
  }

  /** A mountpoint `a`, no-break space, `b` is read as `a`: the kernel does not escape that space. */
  lemma {:induction false} NoBreakSpaceCutsPath(m: Mount, a: string, b: string)
    requires Renderable(m) && m.path == a + ['\U{00A0}'] + b && forall i :: 0 <= i < |a| ==> !IsWhitespace(a[i])
    ensures SecondWord(CutCr(RenderLine(m, KERNEL_ESCAPES))).Some?
    ensures Unescaped(SecondWord(CutCr(RenderLine(m, KERNEL_ESCAPES))).value) == a < m.path
  {
    LineReads(m, KERNEL_ESCAPES);
    assert m.path[|a|] == '\U{00A0}' && m.path[..|a|] == a && CutAt(m.path, KERNEL_ESCAPES) == |a|;
    UnescapeInvertsEscape(a, KERNEL_ESCAPES);
  }

  lemma {:induction false} ParseFirst(line: string, rest: seq<string>, root: string)
    ensures ParseLines([line] + rest, root)
            == (if SecondWord(line).Some? && StrictlyBelow(Unescaped(SecondWord(line).value), root)
                then [Unescaped(SecondWord(line).value)] else []) + ParseLines(rest, root)
  {
    assert ([line] + rest)[1..] == rest;
  }

  lemma {:induction false} LineReads(m: Mount, special: set<char>)
    requires Renderable(m) && '\n' in special && forall c :: c in special ==> c as int < 256
    ensures
      var line := RenderLine(m, special);
      line != "" && '\n' !in line && SecondWord(CutCr(line)) == Some(Escaped(ReadPath(m, special), special))
  {
    var cut := CutAt(m.path, special);
    var field, beyond := Escaped(m.path[..cut], special), Escaped(m.path[cut..], special);
    assert m.path == m.path[..cut] + m.path[cut..];
    EscapedSplit(m.path[..cut], m.path[cut..], special);
    EscapedHasNoWhitespace(m.path[..cut], special);
    LineIsOne(m, special);
    var tail := beyond + (" " + m.options);
    assert IsWhitespace(tail[0]);
    LineSplits(m.device + " ", field, beyond, m.options);
    LineHasFieldCut(m.device, field, tail);
  }

  lemma {:induction false} LineSplits(front: string, field: string, beyond: string, options: string)
    ensures front + (field + beyond) + " " + options == front + field + (beyond + (" " + options))
  {
    Reassociate(front, field, beyond);
    Reassociate(front + field + beyond, " ", options);
    Reassociate(front + field, beyond, " " + options);
  }

  lemma {:induction false} LineIsOne(m: Mount, special: set<char>)
    requires Renderable(m) && '\n' in special && forall c :: c in special ==> c as int < 256
    ensures '\n' !in RenderLine(m, special)
  {
    NewlineIsEscaped(m.path, special);
  }

  /** The same when the line loses a carriage return at its end. */
  lemma {:induction false} LineHasFieldCut(device: string, field: string, tail: string)
    requires device != "" && field != "" && tail != "" && IsWhitespace(tail[0])
    requires forall i :: 0 <= i < |device| ==> !IsWhitespace(device[i])
    requires forall i :: 0 <= i < |field| ==> !IsWhitespace(field[i])
    ensures SecondWord(CutCr(device + " " + field + tail)) == Some(field)
  {
    var line := device + " " + field + tail;
    LineHasField(device, field, tail);
    if line[|line| - 1] == '\r' {
      assert CutCr(line) == device + " " + field + tail[..|tail| - 1];
      LineHasField(device, field, tail[..|tail| - 1]);
    }
  }

  lemma {:induction false} EscapedSplit(a: string, b: string, special: set<char>)
    requires forall c :: c in special ==> c as int < 256
    ensures Escaped(a + b, special) == Escaped(a, special) + Escaped(b, special)
  {
    if a == "" {
      assert a + b == b;
    } else {
      assert (a + b)[1..] == a[1..] + b;
      EscapedSplit(a[1..], b, special);
    }
  }

  lemma {:induction false} NewlineIsEscaped(path: string, special: set<char>)
    requires '\n' in special && forall c :: c in special ==> c as int < 256
    ensures '\n' !in Escaped(path, special)
  {
    if path != "" {
      NewlineIsEscaped(path[1..], special);
    }
  }
}
