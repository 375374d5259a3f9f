/** What a cut does to the frame of the changelog and to the bullets it moves. */
module Framing {
  import opened Text
  import opened Sections
  import opened Conservation
  import opened RoundTrip
  import opened Canonical
  import opened Fragments
  import opened Changelog
  import opened Release

  // ---- No printed line can pass for a `## ` header ----

  predicate Harmless(line: string) {
    OneLine(line) && !(|line| >= 3 && line[0] == '#' && line[1] == '#' && line[2] == ' ')
  }

  lemma HarmlessFirstLine(line: string, rest: string)
    requires Harmless(line) && NoHeader(rest)
    ensures NoHeader(line + "\n" + rest)
  {
    var front := line + "\n";
    forall q | 0 <= q < |front + rest|
      ensures !HeaderAt(front + rest, q)
    {
      if q < |front| {
        HeaderInFront(front, rest, q);
        if q > 0 {
          assert front[q - 1] == line[q - 1];
        }
      } else {
        HeaderBehind(front, rest, q - |front|);
      }
    }
  }

  lemma {:induction false} HarmlessText(ls: seq<string>)
    requires All(Harmless, ls)
    ensures NoHeader(Terminated(ls))
  {
    if ls != [] {
      HarmlessText(ls[1..]);
      HarmlessFirstLine(ls[0], Terminated(ls[1..]));
    }
  }

  lemma {:induction false} PlainIsHarmless(ls: seq<string>)
    requires All(Plain, ls)
    ensures All(Harmless, ls)
  {
    if ls != [] {
      PlainIsHarmless(ls[1..]);
    }
  }

  lemma BlockIsHarmless(section: string, bodies: seq<string>)
    requires Printable(bodies) && Name(section)
    ensures All(Harmless, BlockLines(section, bodies))
  {
    HeaderOf(section);
    ContentIsPlain(bodies);
    PlainIsHarmless(ContentLines(bodies));
    var ls := BlockLines(section, bodies);
    assert ls[0] == "### " + section && ls[0][2] == '#' && ls[1..] == ContentLines(bodies);
  }

  lemma {:induction false} RenderedIsHarmless(g: Grouped, names: seq<string>)
    requires AllPrintable(g) && AllIn(names, g) && AllNames(names)
    ensures All(Harmless, RenderedLines(g, names))
  {
    if names != [] {
      assert Name(names[0]);
      var block := BlockLines(names[0], g[names[0]]);
      BlockIsHarmless(names[0], g[names[0]]);
      if |names| > 1 {
        var rest := RenderedLines(g, names[1..]);
        RenderedIsHarmless(g, names[1..]);
        assert ([""] + rest)[1..] == rest;
        AllAppend(Harmless, block, [""] + rest);
      }
    }
  }

  lemma PresentNonempty(g: Grouped, order: seq<string>)
    requires AllPrintable(g) && RenderedIn(g, order) != "" && AllNames(order)
    ensures RenderedLines(g, Present(g, order)) != []
  {
    PresentNames(g, order);
    RenderedText(g, Present(g, order));
  }

  lemma ReleaseTextIn(g: Grouped, order: seq<string>)
    requires AllPrintable(g) && AllNames(order) && RenderedIn(g, order) != ""
    ensures NoHeader("\n" + RenderedIn(g, order) + "\n\n")
  {
    var ls := RenderedLines(g, Present(g, order));
    PresentNames(g, order);
    RenderedText(g, Present(g, order));
    PresentNonempty(g, order);
    RenderedIsHarmless(g, Present(g, order));
    BetweenBlankLines(ls);
    AllAppend(Harmless, ls, [""]);
    AllAppend(Harmless, [""], ls + [""]);
    Reassociate([""], ls, [""]);
    HarmlessText([""] + ls + [""]);
  }

  predicate NoHash(s: string) {
    forall i | 0 <= i < |s| :: s[i] != '#'
  }

  lemma TitleHasNoInnerHeader(version: string, date: string)
    requires NoHash(version) && NoHash(date)
    ensures forall q | 1 <= q < |ReleaseTitle(version, date)| :: !HeaderAt(ReleaseTitle(version, date), q)
    ensures HeaderAt(ReleaseTitle(version, date), 0) && Whole(ReleaseTitle(version, date))
  {
    var rest := "[" + version + "] - " + date + "\n";
    assert NoHash(rest);
    assert ReleaseTitle(version, date) == "## " + rest;
  }

  /**
   * Framing: inside a release block no line after its title starts with `## `, whatever the fragments contain,
   * so the next header after the title is exactly where the older text begins.
   */
  lemma BlockIsIsolated(g: Grouped, version: string, date: string, tail: string)
    requires AllPrintable(g) && Rendered(g) != "" && NoHash(version) && NoHash(date)
    requires tail == "" || HeaderAt(tail, 0)
    ensures var block := Release.Block(version, date, Rendered(g));
      HeaderAt(block + tail, 0) && NextHeader(block + tail, 1) == |block| && Whole(block)
  {
    var title, body := ReleaseTitle(version, date), "\n" + Rendered(g) + "\n\n";
    var block := title + body;
    var t := block + tail;
    TitleHasNoInnerHeader(version, date);
    StandardNames();
    ReleaseTextIn(g, SECTIONS);
    HeaderInside(title, body, 0);
    HeaderInside(block, tail, 0);
    forall q | 1 <= q < |block|
      ensures !HeaderAt(t, q)
    {
      HeaderInFront(block, tail, q);
      if q < |title| {
        HeaderInFront(title, body, q);
      } else {
        HeaderBehind(title, body, q - |title|);
      }
    }
    if tail != "" {
      HeaderBehind(block, tail, 0);
    }
    NextHeaderIs(t, 1, |block|);
  }

  // ---- The frame around a cut ----

  /** The section map a cut of `t` prints. */
  function MergedOf(t: string, entries: seq<Entry>): Grouped
    requires Split(t).Some?
  {
    Merged(Parsed(Split(t).value.body), Grouping(entries, map[]))
  }

  /** The block a cut of `t` adds. */
  function NewBlock(t: string, entries: seq<Entry>, version: string, date: string): string
    requires Split(t).Some?
  {
    MergedPrintable(Split(t).value.body, entries);
    Release.Block(version, date, Rendered(MergedOf(t, entries)))
  }

  lemma TitleStarts(version: string, date: string, rest: string)
    ensures HeaderAt(ReleaseTitle(version, date) + rest, 0)
  {
    assert HeaderAt(ReleaseTitle(version, date), 0);
    HeaderInside(ReleaseTitle(version, date), rest, 0);
  }

  lemma TailIsKept(tail: string)
    requires tail == "" || HeaderAt(tail, 0)
    ensures LstripNewlines(tail) == tail
  {
  }

  lemma CutText(t: string, entries: seq<Entry>, version: string, date: string)
    requires Cut(t, entries, version, date).Ok?
    ensures Split(t).Some?
    ensures Cut(t, entries, version, date).value
         == Assemble(Parts(Split(t).value.head, "\n",
                           NewBlock(t, entries, version, date) + LstripNewlines(Split(t).value.tail)))
  {
  }

  lemma NewBlockStarts(t: string, entries: seq<Entry>, version: string, date: string, tail: string)
    requires Split(t).Some?
    ensures HeaderAt(NewBlock(t, entries, version, date) + tail, 0)
  {
    MergedPrintable(Split(t).value.body, entries);
    var title, body := ReleaseTitle(version, date), "\n" + Rendered(MergedOf(t, entries)) + "\n\n";
    Reassociate(title, body, tail);
    TitleStarts(version, date, body + tail);
  }

  /**
   * A successful cut leaves the head alone, empties the Unreleased block and puts the new block in front of the
   * older text, which it does not change by a byte. The outcome is again a changelog that can be cut.
   */
  lemma CutFrame(t: string, entries: seq<Entry>, version: string, date: string)
    requires Cut(t, entries, version, date).Ok?
    ensures Split(t).Some?
    ensures var p := Split(t).value;
      Split(Cut(t, entries, version, date).value)
      == Some(Parts(p.head, "\n", NewBlock(t, entries, version, date) + p.tail))
  {
    CutText(t, entries, version, date);
    var p := Split(t).value;
    SplitFramed(t);
    TailIsKept(p.tail);
    NewBlockStarts(t, entries, version, date, p.tail);
    SplitOfAssembled(Parts(p.head, "\n", NewBlock(t, entries, version, date) + p.tail));
  }

  /** The printed sections of a cut. */
  function ReleaseText(t: string, entries: seq<Entry>): string
    requires Split(t).Some?
  {
    MergedPrintable(Split(t).value.body, entries);
    Rendered(MergedOf(t, entries))
  }

  lemma FlatText(head: string, version: string, date: string, text: string, tail: string)
    ensures Assemble(Parts(head, "\n", Release.Block(version, date, text) + tail))
         == head + "## [Unreleased]\n\n## [" + version + "] - " + date + "\n\n" + text + "\n\n" + tail
  {
    var title := "## [" + version + "] - " + date + "\n";
    assert "## [Unreleased]" + "\n" + "\n" == "## [Unreleased]\n\n";
    assert Release.Block(version, date, text) == "## [" + version + "] - " + date + "\n\n" + text + "\n\n";
  }

  lemma FramedTail(p: Parts)
    requires Framed(p)
    ensures LstripNewlines(p.tail) == p.tail
  {
    TailIsKept(p.tail);
  }

  /** The text that a cut writes. */
  lemma CutWrites(t: string, entries: seq<Entry>, version: string, date: string)
    requires Cut(t, entries, version, date).Ok?
    ensures Split(t).Some?
    ensures var p := Split(t).value;
      Cut(t, entries, version, date).value
      == p.head + "## [Unreleased]\n\n## [" + version + "] - " + date + "\n\n" + ReleaseText(t, entries) + "\n\n" + p.tail
  {
    hide Cut, Split, Assemble, MergedOf, Framed, HeaderAt;
    CutText(t, entries, version, date);
    var p := Split(t).value;
    SplitFramed(t);
    FramedTail(p);
    FlatText(p.head, version, date, ReleaseText(t, entries), p.tail);
  }

  lemma BlockStarts(version: string, date: string, text: string, tail: string)
    ensures "## [" + version + "] - " + date + "\n" <= Release.Block(version, date, text) + tail
  {
    var title := "## [" + version + "] - " + date + "\n";
    assert Release.Block(version, date, text) + tail == title + (("\n" + text + "\n\n") + tail);
  }

  /** The older text then starts with the title of the release: its version first, its date behind it. */
  lemma CutTitle(t: string, entries: seq<Entry>, version: string, date: string)
    requires Cut(t, entries, version, date).Ok?
    ensures var t' := Cut(t, entries, version, date).value;
      Split(t).Some? && Split(t').Some?
      && "## [" + version + "] - " + date + "\n" <= Split(t').value.tail
      && "## [" + version + "] - " + date + "\n" <= NewBlock(t, entries, version, date)
  {
    hide Cut, Split, MergedOf;
    CutFrame(t, entries, version, date);
    var text := ReleaseText(t, entries);
    BlockStarts(version, date, text, Split(t).value.tail);
    BlockStarts(version, date, text, "");
    assert Release.Block(version, date, text) + "" == Release.Block(version, date, text);
  }

  // ---- Text above the first section header ----

  lemma {:induction false} ScanIgnoresBuffer(lines: seq<string>, a: seq<string>, b: seq<string>, g: Grouped)
    ensures Scan(lines, None, a, g) == Scan(lines, None, b, g)
    decreases |lines|
  {
    if lines != [] && Header(lines[0]).None? {
      ScanIgnoresBuffer(lines[1..], a + [lines[0]], b + [lines[0]], g);
    }
  }

  predicate NotHeader(line: string) {
    OneLine(line) && Header(line).None?
  }

  lemma {:induction false} ScanSkips(xs: seq<string>, ys: seq<string>, buf: seq<string>, g: Grouped)
    requires All(NotHeader, xs)
    ensures Scan(xs + ys, None, buf, g) == Scan(ys, None, buf, g)
  {
    if xs == [] {
      assert xs + ys == ys;
    } else {
      assert (xs + ys)[1..] == xs[1..] + ys;
      ScanSkips(xs[1..], ys, buf + [xs[0]], g);
      ScanIgnoresBuffer(ys, buf + [xs[0]], buf, g);
    }
  }

  lemma {:induction false} NotHeadersAreOneLiners(ls: seq<string>)
    requires All(NotHeader, ls)
    ensures OneLiners(ls)
  {
    if ls != [] {
      NotHeadersAreOneLiners(ls[1..]);
    }
  }

  /** Lines above the first `### ` header never reach the release: the parser gives the same without them. */
  lemma PreambleIsDropped(preamble: seq<string>, rest: string)
    requires All(NotHeader, preamble)
    ensures Parsed(Terminated(preamble) + rest) == Parsed(rest)
  {
    NotHeadersAreOneLiners(preamble);
    LinesOfTerminatedThen(preamble, rest);
    ScanSkips(preamble, Lines(rest), [], map[]);
  }

  // ---- Conservation ----

  /** The text below the title line of the newest block. */
  function NewestBody(tail: string): string
    requires tail != ""
  {
    var b := LineEnd(tail);
    if b < NextHeader(tail, 1) then tail[b + 1..NextHeader(tail, 1)] else ""
  }

  lemma {:induction false} TrimmedAppend(a: seq<string>, b: seq<string>)
    ensures Trimmed(a + b) == Trimmed(a) + Trimmed(b)
  {
    if a == [] {
      assert a + b == b;
    } else {
      TrimmedAppend(a[1..], b);
      assert (a + b)[1..] == a[1..] + b;
      Reassociate([StripNewlines(Tidy(a[0]))], Trimmed(a[1..]), Trimmed(b));
    }
  }

  lemma {:induction false} NoHashLines(ls: seq<string>)
    requires NoHash(Terminated(ls)) && OneLiners(ls)
    ensures All(NotHeader, ls)
  {
    if ls != [] {
      var t, rest := Terminated(ls), Terminated(ls[1..]);
      assert forall i | 0 <= i < |ls[0]| :: ls[0][i] == t[i];
      assert forall i | 0 <= i < |rest| :: rest[i] == t[|ls[0]| + 1 + i];
      NoHashLines(ls[1..]);
    }
  }

  lemma NoHashIsDropped(x: string, rest: string)
    requires Whole(x) && NoHash(x)
    ensures Parsed(x + rest) == Parsed(rest)
  {
    if x == "" {
      assert x + rest == rest;
    } else {
      LinesAreOneLiners(x);
      JoinOfLines(x);
      JoinIsTerminated(Lines(x));
      assert x == x[..|x| - 1] + "\n";
      NoHashLines(Lines(x));
      PreambleIsDropped(Lines(x), rest);
    }
  }

  lemma SliceOfThree(a: string, b: string, c: string, k: nat)
    requires k <= |a|
    ensures (a + b + c)[k..|a| + |b|] == a[k..] + b
  {
  }

  lemma NewestBodyText(title: string, body: string, tail: string)
    requires title != "" && Whole(title) && NextHeader(title + body + tail, 1) == |title| + |body|
    ensures LineEnd(title) < |title|
    ensures NewestBody(title + body + tail) == title[LineEnd(title) + 1..] + body
  {
    hide NextHeader, LineEnd;
    var t, k := title + body + tail, LineEnd(title);
    LineEndInFront(title, body + tail);
    Reassociate(title, body, tail);
    SliceOfThree(title, body, tail, k + 1);
  }

  lemma TitleRest(version: string, date: string, k: nat)
    requires NoHash(version) && NoHash(date)
    requires 2 <= k <= |ReleaseTitle(version, date)|
    ensures NoHash(ReleaseTitle(version, date)[k..]) && Whole(ReleaseTitle(version, date)[k..])
  {
    var rest := "[" + version + "] - " + date + "\n";
    assert NoHash(rest);
    assert ReleaseTitle(version, date) == "## " + rest;
  }

  /** The sections of the newest block are those that were printed. */
  lemma NewestBodyOf(g: Grouped, version: string, date: string, tail: string)
    requires AllPrintable(g) && Rendered(g) != "" && NoHash(version) && NoHash(date)
    requires tail == "" || HeaderAt(tail, 0)
    ensures Parsed(NewestBody(Release.Block(version, date, Rendered(g)) + tail)) == Meaning(g)
  {
    hide NewestBody, Rendered, Meaning, Parsed, NextHeader, NoHash, HeaderAt, AllPrintable, LineEnd;
    var title, body := ReleaseTitle(version, date), "\n" + Rendered(g) + "\n\n";
    BlockIsIsolated(g, version, date, tail);
    NewestBodyText(title, body, tail);
    var k := LineEnd(title);
    assert title[0] == '#' && title[1] == '#';
    TitleRest(version, date, k + 1);
    NoHashIsDropped(title[k + 1..], body);
    ParseOfRelease(g);
  }

  lemma MergedGet(t: string, entries: seq<Entry>, s: string)
    requires Split(t).Some?
    ensures Get(MergedOf(t, entries), s) == Get(Parsed(Split(t).value.body), s) + BodiesOf(entries, s)
  {
    var m, written := MergedOf(t, entries), Parsed(Split(t).value.body);
    GroupingGet(entries, map[], s);
    assert Get(map[], s) + BodiesOf(entries, s) == BodiesOf(entries, s);
    if s !in m {
      assert Get(written, s) + BodiesOf(entries, s) == [];
    }
  }

  /** The bullets of a section of the newest release. */
  function Newest(t: string, s: string): seq<string>
    requires Split(t).Some? && Split(t).value.tail != ""
  {
    Get(Parsed(NewestBody(Split(t).value.tail)), s)
  }

  lemma NewestAfterCut(t: string, entries: seq<Entry>, version: string, date: string)
    requires Cut(t, entries, version, date).Ok? && NoHash(version) && NoHash(date)
    ensures var t' := Cut(t, entries, version, date).value;
      Split(t').Some? && Split(t').value.tail != ""
      && Parsed(NewestBody(Split(t').value.tail)) == Meaning(MergedOf(t, entries))
  {
    var p := Split(t).value;
    SplitFramed(t);
    CutFrame(t, entries, version, date);
    MergedPrintable(p.body, entries);
    NewestBodyOf(MergedOf(t, entries), version, date, p.tail);
  }

  lemma MeaningGet(g: Grouped, order: seq<string>, s: string)
    requires Readable(g) && (s in g ==> s in order)
    ensures Get(MeaningIn(g, order), s) == Trimmed(Get(g, s)) && All(WellFormed, Trimmed(Get(g, s)))
  {
    if s in g {
      NormalOneByOne(g[s]);
      NormalIsWellFormed(g[s]);
    }
  }

  /**
   * Reading the new block back gives, section by section, the hand-written bullets and then the fragments in
   * filename order: each exactly once, in place, changed only by tidying.
   */
  lemma CutKeepsBullets(t: string, entries: seq<Entry>, version: string, date: string, s: string)
    requires Cut(t, entries, version, date).Ok? && NoHash(version) && NoHash(date)
    ensures var t' := Cut(t, entries, version, date).value;
      Split(t').Some? && Split(t').value.tail != ""
      && Newest(t', s) == Trimmed(Get(Parsed(Split(t).value.body), s)) + Trimmed(BodiesOf(entries, s))
      && All(WellFormed, Newest(t', s))
  {
    var body := Split(t).value.body;
    NewestAfterCut(t, entries, version, date);
    MergedPrintable(body, entries);
    MergedGet(t, entries, s);
    TrimmedAppend(Get(Parsed(body), s), BodiesOf(entries, s));
    MeaningGet(MergedOf(t, entries), SECTIONS, s);
  }

  lemma {:induction false} TrimmedInk(bodies: seq<string>)
    ensures AllInk(Trimmed(bodies)) == AllInk(bodies)
  {
    if bodies != [] {
      TidyInk(bodies[0]);
      StripNewlinesInk(Tidy(bodies[0]));
      TrimmedInk(bodies[1..]);
    }
  }

  /**
   * No visible character is lost: those of a section of the new release are those written below headers of that
   * name in the Unreleased block, followed by those of the fragments.
   */
  lemma CutKeepsInk(t: string, entries: seq<Entry>, version: string, date: string, s: string)
    requires Cut(t, entries, version, date).Ok? && NoHash(version) && NoHash(date)
    ensures var t' := Cut(t, entries, version, date).value;
      Split(t').Some? && Split(t').value.tail != ""
      && AllInk(Newest(t', s)) == SectionInk(Lines(Split(t).value.body), None, s) + AllInk(BodiesOf(entries, s))
  {
    var written := Get(Parsed(Split(t).value.body), s);
    CutKeepsBullets(t, entries, version, date, s);
    TrimmedInk(written);
    TrimmedInk(BodiesOf(entries, s));
    AllInkAppend(Trimmed(written), Trimmed(BodiesOf(entries, s)));
    ParseKeepsInk(Split(t).value.body, s);
  }

  /** A cut of a changelog with such lines is the cut of the changelog without them. */
  lemma CutDropsPreamble(p: Parts, preamble: seq<string>, entries: seq<Entry>, version: string, date: string)
    requires All(NotHeader, preamble)
    requires Framed(p) && Framed(p.(body := Terminated(preamble) + p.body))
    ensures Cut(Assemble(p.(body := Terminated(preamble) + p.body)), entries, version, date)
         == Cut(Assemble(p), entries, version, date)
  {
    hide Assemble, Split, Rendered, Grouping, LintsClean, Framed, Terminated, Parsed, All;
    SplitOfAssembled(p);
    SplitOfAssembled(p.(body := Terminated(preamble) + p.body));
    PreambleIsDropped(preamble, p.body);
  }

  /** For instance a hand-written bullet that nobody put below a section header. */
  lemma BulletWithoutSectionIsLost(rest: string)
    ensures Parsed("- a bullet\n" + rest) == Parsed(rest)
    ensures LineInk("- a bullet") != ""
  {
    var lost := "- a bullet";
    assert OneLine(lost) && lost[0] == '-';
    var none: seq<string> := [];
    assert [lost][1..] == none && Terminated([lost]) == "- a bullet\n";
    PreambleIsDropped([lost], rest);
    assert lost[2..][0] == 'a';
  }
}
