/** The launcher protocol: one line per item, the label first, perhaps followed by an icon name; the launcher
    answers with a line. */
module Menu {
  import opened Prelude
  import opened Text

  datatype MenuItem = MenuItem(caption: string, icon: Option<string>)

  datatype Choice = Item(index: nat) | Custom(text: string) | Cancelled

  /** NUL, `icon`, unit separator. */
  const ICON_SEPARATOR: string := ['\U{0}', 'i', 'c', 'o', 'n', '\U{1f}']

  /** Labels lose their newlines; there is no escape in this protocol. */
  function Flattened(caption: string): (s: string)
    ensures |s| == |caption|
    ensures forall i :: 0 <= i < |s| ==> s[i] == if caption[i] == '\n' || caption[i] == '\r' then ' ' else caption[i]
  {
    seq(|caption|, i requires 0 <= i < |caption| => if caption[i] == '\n' || caption[i] == '\r' then ' ' else caption[i])
  }

  /** One entry of the payload, without its newline. */
  function Entry(item: MenuItem, icons: bool): string {
    Flattened(item.caption) + if icons && item.icon.Some? then ICON_SEPARATOR + item.icon.value else ""
  }

  function Payload(items: seq<MenuItem>, icons: bool): string {
    if items == [] then "" else Entry(items[0], icons) + "\n" + Payload(items[1..], icons)
  }

  /** `render`. */
  method Render(items: seq<MenuItem>, icons: bool) returns (out: string)
    ensures out == Payload(items, icons)
  {
    out := "";
    assert items[0..] == items;
    for i := 0 to |items|
      invariant out + Payload(items[i..], icons) == Payload(items, icons)
    {
      ghost var before := out;
      assert items[i..][1..] == items[i + 1..];
      out := PushEntry(out, items[i], icons);
      Reassociate(before + Entry(items[i], icons), "\n", Payload(items[i + 1..], icons));
      Reassociate(before, Entry(items[i], icons), "\n" + Payload(items[i + 1..], icons));
      Reassociate(Entry(items[i], icons), "\n", Payload(items[i + 1..], icons));
    }
  }

  method PushEntry(before: string, item: MenuItem, icons: bool) returns (out: string)
    ensures out == before + Entry(item, icons) + "\n"
  {
    out := before + Flattened(item.caption);
    if icons && item.icon.Some? {
      Reassociate(before + Flattened(item.caption), ICON_SEPARATOR, item.icon.value);
      Reassociate(before, Flattened(item.caption), ICON_SEPARATOR + item.icon.value);
      out := out + ICON_SEPARATOR;
      out := out + item.icon.value;
    } else {
      assert Entry(item, icons) == Flattened(item.caption);
    }
    out := out + "\n";
  }

  predicate HasAt(s: string, sep: string, i: nat) {
    i + |sep| <= |s| && s[i..i + |sep|] == sep
  }

  /** The part before the first separator. */
  function BeforeSeparator(s: string): string {
    s[..SeparatorAt(s, 0)]
  }

  function SeparatorAt(s: string, from: nat): (i: nat)
    requires from <= |s|
    ensures from <= i <= |s|
    ensures i < |s| ==> HasAt(s, ICON_SEPARATOR, i)
    ensures forall j :: from <= j < i ==> !HasAt(s, ICON_SEPARATOR, j)
    decreases |s| - from
  {
    if from == |s| || HasAt(s, ICON_SEPARATOR, from) then from else SeparatorAt(s, from + 1)
  }

  /** Index of the first item with this label, or the number of items. */
  function FirstLabelled(items: seq<MenuItem>, caption: string): (i: nat)
    ensures i <= |items| && (i < |items| ==> items[i].caption == caption)
    ensures forall j :: 0 <= j < i ==> items[j].caption != caption
  {
    if items == [] || items[0].caption == caption then 0 else 1 + FirstLabelled(items[1..], caption)
  }

  /** `interpret`. */
  function Interpret(selected: string, items: seq<MenuItem>): Choice {
    var text := TrimEnd(BeforeSeparator(selected));
    if text == "" then Cancelled
    else
      var i := FirstLabelled(items, text);
      if i < |items| then Item(i) else Custom(text)
  }

  /** What any line at all is read as: the text before its icon field, less whitespace behind it. Nothing but
      whitespace there cancels; a text that is a label selects the first item with it; any other is custom. */
  lemma {:induction false} LineIsRead(line: string, items: seq<MenuItem>)
    ensures
      var shown, text := BeforeSeparator(line), TrimEnd(BeforeSeparator(line));
      && text <= shown && (forall i :: |text| <= i < |shown| ==> IsWhitespace(shown[i]))
      && (text != "" ==> !IsWhitespace(text[|text| - 1]))
      && (Interpret(line, items) == Cancelled <==> forall i :: 0 <= i < |shown| ==> IsWhitespace(shown[i]))
      && (Interpret(line, items) == Custom(text) <==>
            text != "" && forall i :: 0 <= i < |items| ==> items[i].caption != text)
      && (forall i: nat :: Interpret(line, items) == Item(i) <==>
            && text != "" && i < |items| && items[i].caption == text
            && forall j :: 0 <= j < i ==> items[j].caption != text)
  {
    var shown := BeforeSeparator(line);
    TrimEndShortens(shown);
    TrimsWhitespace(shown);
    var first := FirstLabelled(items, TrimEnd(shown));
    assert first < |items| ==> items[first].caption == TrimEnd(shown);
  }

  lemma {:induction false} TrimsWhitespace(s: string)
    ensures TrimEnd(s) <= s && forall i :: |TrimEnd(s)| <= i < |s| ==> IsWhitespace(s[i])
    ensures TrimEnd(s) != "" ==> !IsWhitespace(TrimEnd(s)[|TrimEnd(s)| - 1])
  {
    if s != "" && IsWhitespace(s[|s| - 1]) {
      TrimsWhitespace(s[..|s| - 1]);
    }
  }

  /** A label the protocol carries unchanged. */
  predicate Clean(caption: string) {
    && caption != "" && '\n' !in caption && '\r' !in caption && !IsWhitespace(caption[|caption| - 1])
    && forall i :: 0 <= i < |caption| ==> !HasAt(caption, ICON_SEPARATOR, i)
  }

  /** A separator put behind a text cannot begin inside it. */
  lemma {:induction false} SeparatorDoesNotStraddle(s: string, icon: string, i: nat)
    requires i < |s| && HasAt(s + ICON_SEPARATOR + icon, ICON_SEPARATOR, i)
    ensures HasAt(s, ICON_SEPARATOR, i)
  {
    var t := s + ICON_SEPARATOR + icon;
    assert t[|s|] == '\U{0}';
    assert forall k :: 0 <= k < 6 ==> t[i..i + 6][k] == t[i + k] == ICON_SEPARATOR[k];
    assert forall k :: 0 < k < 6 ==> ICON_SEPARATOR[k] != '\U{0}';
    assert forall k :: i < k < i + 6 ==> t[k] == ICON_SEPARATOR[k - i];
    assert i + 6 <= |s|;
    assert t[i..i + 6] == s[i..i + 6];
  }

  lemma {:induction false} SeparatorAtIs(s: string, i: nat, from: nat)
    requires from <= i <= |s| && (i < |s| ==> HasAt(s, ICON_SEPARATOR, i))
    requires forall j :: from <= j < i ==> !HasAt(s, ICON_SEPARATOR, j)
    ensures SeparatorAt(s, from) == i
  {
  }

  /** A separator put behind a text does not come before the first one in it. */
  lemma {:induction false} AppendedSeparator(s: string, icon: string)
    ensures SeparatorAt(s + ICON_SEPARATOR + icon, 0) == SeparatorAt(s, 0)
  {
    var e, i := s + ICON_SEPARATOR + icon, SeparatorAt(s, 0);
    assert e[i..i + 6] == if i < |s| then s[i..i + 6] else ICON_SEPARATOR;
    forall j | 0 <= j < i ensures !HasAt(e, ICON_SEPARATOR, j) {
      if HasAt(e, ICON_SEPARATOR, j) {
        SeparatorDoesNotStraddle(s, icon, j);
      }
    }
    SeparatorAtIs(e, i, 0);
  }

  /** What comes before the separator of an entry is what comes before the separator of its label. */
  lemma {:induction false} EntryTextIsLabelText(item: MenuItem, icons: bool)
    ensures BeforeSeparator(Entry(item, icons)) == BeforeSeparator(Flattened(item.caption))
  {
    var s, e := Flattened(item.caption), Entry(item, icons);
    if icons && item.icon.Some? {
      Reassociate(s, ICON_SEPARATOR, item.icon.value);
      AppendedSeparator(s, item.icon.value);
      assert e[..SeparatorAt(s, 0)] == s[..SeparatorAt(s, 0)];
    } else {
      assert e == s;
    }
  }

  /** An item's icon is what follows the first separator of its entry; an entry without icon is its label. */
  lemma {:induction false} IconFollowsLabel(item: MenuItem, icons: bool)
    requires SeparatorAt(Flattened(item.caption), 0) == |Flattened(item.caption)|
    ensures
      var e := Entry(item, icons);
      if icons && item.icon.Some? then
        SeparatorAt(e, 0) + |ICON_SEPARATOR| <= |e| && e[SeparatorAt(e, 0) + |ICON_SEPARATOR|..] == item.icon.value
      else SeparatorAt(e, 0) == |e|
  {
    var s, e := Flattened(item.caption), Entry(item, icons);
    if icons && item.icon.Some? {
      Reassociate(s, ICON_SEPARATOR, item.icon.value);
      AppendedSeparator(s, item.icon.value);
      assert e[|s| + |ICON_SEPARATOR|..] == item.icon.value;
    } else {
      assert e == s;
    }
  }

  lemma {:induction false} TrimEndShortens(s: string)
    ensures TrimEnd(s) <= s && (TrimEnd(s) == s <==> s == "" || !IsWhitespace(s[|s| - 1]))
  {
    if s != "" && IsWhitespace(s[|s| - 1]) {
      TrimEndShortens(s[..|s| - 1]);
    }
  }

  /** The text read back from a label is the label exactly when it is clean or empty. */
  lemma {:induction false} LabelReadsBack(caption: string)
    ensures TrimEnd(BeforeSeparator(Flattened(caption))) == caption <==> caption == "" || Clean(caption)
  {
    var s := Flattened(caption);
    var t := BeforeSeparator(s);
    TrimEndShortens(t);
    if '\n' in caption || '\r' in caption {
      var i :| 0 <= i < |caption| && (caption[i] == '\n' || caption[i] == '\r');
      assert s[i] != caption[i];
    } else {
      assert s == caption;
      if |t| < |s| {
        assert HasAt(caption, ICON_SEPARATOR, |t|);
      } else {
        assert t == s;
      }
    }
  }

  /** Whatever the items: the launcher's echo of an item, with or without its icon field, is read as the
      first item with that label if and only if the label is clean. */
  lemma {:induction false} EchoSelectsItsItem(items: seq<MenuItem>, icons: bool, i: nat)
    requires i < |items|
    ensures
      var first := FirstLabelled(items, items[i].caption);
      && (Interpret(Entry(items[i], icons), items) == Item(first) <==> Clean(items[i].caption))
      && (Interpret(Flattened(items[i].caption), items) == Item(first) <==> Clean(items[i].caption))
  {
    EntryTextIsLabelText(items[i], icons);
    LabelReadsBack(items[i].caption);
    var text := TrimEnd(BeforeSeparator(Flattened(items[i].caption)));
    var first := FirstLabelled(items, items[i].caption);
    assert first < |items| && items[first].caption == items[i].caption;
  }

  lemma {:induction false} DistinctLabelsSelectThemselves(items: seq<MenuItem>, icons: bool, i: nat)
    requires i < |items| && Clean(items[i].caption)
    requires forall j, k :: 0 <= j < k < |items| ==> items[j].caption != items[k].caption
    ensures Interpret(Entry(items[i], icons), items) == Item(i)
  {
    EchoSelectsItsItem(items, icons, i);
  }

  /** Icon names are free of newlines; nothing else is asked of items. */
  predicate PlainIcons(items: seq<MenuItem>) {
    forall i :: 0 <= i < |items| && items[i].icon.Some? ==> '\n' !in items[i].icon.value
  }

  lemma {:induction false} EntryIsOneLine(item: MenuItem, icons: bool)
    requires item.icon.Some? ==> '\n' !in item.icon.value
    ensures '\n' !in Entry(item, icons)
  {
    assert '\n' !in Flattened(item.caption);
  }

  /** The payload has one line per item, in order; as in any text, a line loses a carriage return at its end. */
  lemma {:induction false} PayloadLines(items: seq<MenuItem>, icons: bool)
    requires PlainIcons(items)
    ensures |Lines(Payload(items, icons))| == |items|
    ensures forall i :: 0 <= i < |items| ==> Lines(Payload(items, icons))[i] == CutCr(Entry(items[i], icons))
  {
    if items != [] {
      var line, rest := Entry(items[0], icons), Payload(items[1..], icons);
      PayloadLines(items[1..], icons);
      EntryIsOneLine(items[0], icons);
      FirstLine(line, rest);
      assert Lines(Payload(items, icons)) == [CutCr(line)] + Lines(rest);
    }
  }

  /** A carriage return can only be lost from the end of an icon name. */
  lemma {:induction false} CutEntryIsEntry(item: MenuItem, icons: bool) returns (cut: MenuItem)
    ensures CutCr(Entry(item, icons)) == Entry(cut, icons) && cut.caption == item.caption
  {
    var s, e := Flattened(item.caption), Entry(item, icons);
    assert '\r' !in s;
    cut := item;
    if icons && item.icon.Some? {
      var icon := item.icon.value;
      assert e == s + (ICON_SEPARATOR + icon);
      assert e[|e| - 1] == if icon == "" then ICON_SEPARATOR[5] else icon[|icon| - 1];
      if icon != "" && icon[|icon| - 1] == '\r' {
        cut := item.(icon := Some(icon[..|icon| - 1]));
        assert e[..|e| - 1] == s + (ICON_SEPARATOR + icon[..|icon| - 1]);
      }
    }
  }

  /** The protocol as a whole: whatever the items, interpreting line `i` of the payload they are rendered as
      selects the first item with that item's label if and only if the label is clean. */
  lemma {:induction false} ShownLineSelectsItsItem(items: seq<MenuItem>, icons: bool, i: nat)
    requires PlainIcons(items) && i < |items|
    ensures |Lines(Payload(items, icons))| == |items|
    ensures Interpret(Lines(Payload(items, icons))[i], items) == Item(FirstLabelled(items, items[i].caption))
            <==> Clean(items[i].caption)
  {
    PayloadLines(items, icons);
    var cut := CutEntryIsEntry(items[i], icons);
    EntryTextIsLabelText(cut, icons);
    EntryTextIsLabelText(items[i], icons);
    EchoSelectsItsItem(items, icons, i);
  }
}
