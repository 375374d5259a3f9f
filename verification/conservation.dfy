/** Conservation: whatever the text looks like, `parse_sections` loses no visible character below a section header. */
module Conservation {
  import opened Text
  import opened Sections
  import opened Trimming

  /** The visible characters of `s`, in order. */
  function Ink(s: string): string {
    if s == "" then "" else (if IsSpace(s[0]) then "" else [s[0]]) + Ink(s[1..])
  }

  function AllInk(items: seq<string>): string {
    if items == [] then "" else Ink(items[0]) + AllInk(items[1..])
  }

  /** The visible characters of a line, not counting a bullet marker. */
  function LineInk(line: string): string {
    Ink(if IsBullet(line) then line[2..] else line)
  }

  function LinesInk(ls: seq<string>): string {
    if ls == [] then "" else LineInk(ls[0]) + LinesInk(ls[1..])
  }

  /** The visible characters `lines` puts below headers named `s`, when `current` is the header above them. */
  function SectionInk(lines: seq<string>, current: Option<string>, s: string): string {
    if lines == [] then ""
    else
      var h := Header(lines[0]);
      if h.Some? then SectionInk(lines[1..], h, s)
      else (if current == Some(s) then LineInk(lines[0]) else "") + SectionInk(lines[1..], current, s)
  }

  lemma {:induction false} InkAppend(a: string, b: string)
    ensures Ink(a + b) == Ink(a) + Ink(b)
  {
    if a == "" {
      assert a + b == b;
    } else {
      InkAppend(a[1..], b);
      assert (a + b)[1..] == a[1..] + b;
      Reassociate(if IsSpace(a[0]) then "" else [a[0]], Ink(a[1..]), Ink(b));
    }
  }

  lemma {:induction false} AllInkAppend(a: seq<string>, b: seq<string>)
    ensures AllInk(a + b) == AllInk(a) + AllInk(b)
  {
    if a == [] {
      assert a + b == b;
    } else {
      AllInkAppend(a[1..], b);
      assert (a + b)[1..] == a[1..] + b;
      Reassociate(Ink(a[0]), AllInk(a[1..]), AllInk(b));
    }
  }

  lemma {:induction false} LinesInkAppend(a: seq<string>, b: seq<string>)
    ensures LinesInk(a + b) == LinesInk(a) + LinesInk(b)
  {
    if a == [] {
      assert a + b == b;
    } else {
      LinesInkAppend(a[1..], b);
      assert (a + b)[1..] == a[1..] + b;
      Reassociate(LineInk(a[0]), LinesInk(a[1..]), LinesInk(b));
    }
  }

  lemma {:induction false} BlankInk(s: string)
    requires Blank(s)
    ensures Ink(s) == ""
  {
    if s != "" {
      BlankInk(s[1..]);
    }
  }

  lemma {:induction false} LstripNewlinesInk(s: string)
    ensures Ink(LstripNewlines(s)) == Ink(s)
  {
    if s != "" && s[0] == '\n' {
      LstripNewlinesInk(s[1..]);
    }
  }

  lemma {:induction false} RstripNewlinesInk(s: string)
    ensures Ink(RstripNewlines(s)) == Ink(s)
  {
    if s != "" && s[|s| - 1] == '\n' {
      var front := s[..|s| - 1];
      RstripNewlinesInk(front);
      InkAppend(front, "\n");
      assert s == front + "\n";
    }
  }

  lemma KeptInkCons(item: string, rest: seq<string>)
    ensures AllInk(Kept([item] + rest)) == Ink(item) + AllInk(Kept(rest))
  {
    assert ([item] + rest)[1..] == rest;
    if Blank(item) {
      BlankInk(item);
      assert Kept([item] + rest) == Kept(rest);
    } else {
      LstripNewlinesInk(item);
      RstripNewlinesInk(LstripNewlines(item));
      var kept := StripNewlines(item);
      assert Kept([item] + rest) == [kept] + Kept(rest);
      assert ([kept] + Kept(rest))[1..] == Kept(rest);
    }
  }

  lemma {:induction false} KeptInk(items: seq<string>)
    ensures AllInk(Kept(items)) == AllInk(items)
  {
    if items != [] {
      KeptInk(items[1..]);
      KeptInkCons(items[0], items[1..]);
      assert items == [items[0]] + items[1..];
    }
  }

  lemma AllInkSnoc(items: seq<string>, item: string)
    ensures AllInk(items + [item]) == AllInk(items) + Ink(item)
  {
    AllInkAppend(items, [item]);
    assert AllInk([item]) == Ink(item);
  }

  lemma LinesInkSnoc(ls: seq<string>, l: string)
    ensures LinesInk(ls + [l]) == LinesInk(ls) + LineInk(l)
  {
    LinesInkAppend(ls, [l]);
    assert LinesInk([l]) == LineInk(l);
  }

  lemma LastInk(items: seq<string>, last: string, more: string)
    ensures AllInk(items + [last + more]) == AllInk(items + [last]) + Ink(more)
  {
    AllInkSnoc(items, last);
    AllInkSnoc(items, last + more);
    InkAppend(last, more);
    Reassociate(AllInk(items), Ink(last), Ink(more));
  }

  lemma ContinuationInk(line: string)
    requires !IsBullet(line)
    ensures Ink("\n" + (if IsIndented(line) then line[2..] else line)) == LineInk(line)
  {
    if IsIndented(line) {
      InkAppend("\n", line[2..]);
      InkAppend("  ", line[2..]);
      assert line == "  " + line[2..];
    } else {
      InkAppend("\n", line);
    }
  }

  lemma AddLineInk(items: seq<string>, line: string)
    ensures AllInk(AddLine(items, line)) == AllInk(items) + LineInk(line)
  {
    if IsBullet(line) {
      AllInkSnoc(items, line[2..]);
    } else if items != [] {
      var n := |items| - 1;
      var text := if IsIndented(line) then line[2..] else line;
      Reassociate(items[n], "\n", text);
      LastInk(items[..n], items[n], "\n" + text);
      ContinuationInk(line);
      assert items == items[..n] + [items[n]];
    } else if Blank(line) {
      BlankInk(line);
    }
  }

  lemma {:induction false} ItemsInk(lines: seq<string>, acc: seq<string>)
    ensures AllInk(Items(lines, acc)) == AllInk(acc) + LinesInk(lines)
  {
    if lines != [] {
      ItemsInk(lines[1..], AddLine(acc, lines[0]));
      AddLineInk(acc, lines[0]);
      Reassociate(AllInk(acc), LineInk(lines[0]), LinesInk(lines[1..]));
    }
  }

  lemma {:induction false} DropEmptyTailInk(ls: seq<string>)
    ensures LinesInk(DropEmptyTail(ls)) == LinesInk(ls)
  {
    if ls != [] && ls[|ls| - 1] == "" {
      DropEmptyTailInk(ls[..|ls| - 1]);
      LinesInkSnoc(ls[..|ls| - 1], "");
      assert ls == ls[..|ls| - 1] + [""];
    }
  }

  lemma {:induction false} DropEmptyHeadInk(ls: seq<string>)
    ensures LinesInk(DropEmptyHead(ls)) == LinesInk(ls)
  {
    if ls != [] && ls[0] == "" {
      DropEmptyHeadInk(ls[1..]);
    }
  }

  lemma BlankLineInk(l: string)
    requires Blank(l)
    ensures LineInk(l) == ""
  {
    BlankInk(l);
    assert !IsBullet(l);
  }

  lemma {:induction false} BlankTextInk(text: string)
    requires Blank(text)
    ensures LinesInk(Lines(text)) == ""
    decreases |text|
  {
    if text != "" {
      var k := LineEnd(text);
      var first := text[..k];
      BlankParts(text, k);
      BlankLineInk(first);
      if k < |text| {
        BlankParts(text, k + 1);
        BlankTextInk(text[k + 1..]);
        assert Lines(text)[1..] == Lines(text[k + 1..]);
      } else {
        assert first == text;
      }
    }
  }

  function OwnInk(current: Option<string>, buf: seq<string>, s: string): string {
    if current == Some(s) then LinesInk(buf) else ""
  }

  lemma BulletsInk(buf: seq<string>)
    requires OneLiners(buf)
    ensures var text := StripNewlines(Join(buf));
      if Blank(text) then LinesInk(buf) == "" else AllInk(BulletsIn(text)) == LinesInk(buf)
  {
    var text := StripNewlines(Join(buf));
    FlushedLines(buf);
    DropEmptyHeadInk(buf);
    DropEmptyTailInk(DropEmptyHead(buf));
    if Blank(text) {
      BlankTextInk(text);
    } else {
      ItemsInk(Lines(text), []);
      KeptInk(Items(Lines(text), []));
    }
  }

  lemma FlushInk(current: Option<string>, buf: seq<string>, g: Grouped, s: string)
    requires OneLiners(buf)
    ensures AllInk(Get(Flushed(current, buf, g), s)) == AllInk(Get(g, s)) + OwnInk(current, buf, s)
  {
    if current == Some(s) {
      var text := StripNewlines(Join(buf));
      BulletsInk(buf);
      if !Blank(text) {
        AllInkAppend(Get(g, s), BulletsIn(text));
      }
    }
  }

  /** The characters that end up in section `s` when the scan goes on from here. */
  function Expected(lines: seq<string>, current: Option<string>, buf: seq<string>, g: Grouped, s: string): string {
    AllInk(Get(g, s)) + (OwnInk(current, buf, s) + SectionInk(lines, current, s))
  }

  lemma ExpectedAfterFlush(before: string, own: string, after: string, g: Grouped, s: string, h: Option<string>,
                           rest: seq<string>)
    requires after == before + own && after == AllInk(Get(g, s))
    ensures Expected(rest, h, [], g, s) == before + (own + SectionInk(rest, h, s))
  {
    var more := SectionInk(rest, h, s);
    assert OwnInk(h, [], s) == "";
    assert "" + more == more;
    Reassociate(before, own, more);
  }

  lemma OwnInkSnoc(current: Option<string>, buf: seq<string>, line: string, s: string)
    ensures OwnInk(current, buf + [line], s) == OwnInk(current, buf, s) + OwnInk(current, [line], s)
    ensures OwnInk(current, [line], s) == if current == Some(s) then LineInk(line) else ""
  {
    LinesInkSnoc(buf, line);
    assert LinesInk([line]) == LineInk(line);
  }

  lemma ExpectedAtText(lines: seq<string>, current: Option<string>, buf: seq<string>, g: Grouped, s: string)
    requires lines != [] && Header(lines[0]).None?
    ensures Expected(lines, current, buf, g, s) == Expected(lines[1..], current, buf + [lines[0]], g, s)
  {
    OwnInkSnoc(current, buf, lines[0], s);
    Reassociate(OwnInk(current, buf, s), OwnInk(current, [lines[0]], s), SectionInk(lines[1..], current, s));
  }

  lemma {:induction false} ScanInk(lines: seq<string>, current: Option<string>, buf: seq<string>, g: Grouped, s: string)
    requires OneLiners(lines) && OneLiners(buf)
    ensures AllInk(Get(Scan(lines, current, buf, g), s)) == Expected(lines, current, buf, g, s)
    decreases |lines|
  {
    if lines == [] {
      FlushInk(current, buf, g, s);
    } else if Header(lines[0]).Some? {
      var flushed := Flushed(current, buf, g);
      FlushInk(current, buf, g, s);
      ExpectedAfterFlush(AllInk(Get(g, s)), OwnInk(current, buf, s), AllInk(Get(flushed, s)), flushed, s,
                         Header(lines[0]), lines[1..]);
      ScanInk(lines[1..], Header(lines[0]), [], flushed, s);
    } else {
      ExpectedAtText(lines, current, buf, g, s);
      ScanInk(lines[1..], current, buf + [lines[0]], g, s);
    }
  }

  /**
   * Whatever the body looks like, the bullets read for a section hold exactly the visible characters
   * written below headers of that name, in the order written.
   */
  lemma ParseKeepsInk(body: string, s: string)
    ensures AllInk(Get(Parsed(body), s)) == SectionInk(Lines(body), None, s)
  {
    LinesAreOneLiners(body);
    ScanInk(Lines(body), None, [], map[], s);
  }
}
