/** Exactly when a cut loses nothing of the Unreleased block: no text, no section name and no note on its title line. */
module Intact {
  import opened Text
  import opened Sections
  import opened Conservation
  import opened RoundTrip
  import opened Canonical
  import opened Fragments
  import opened Changelog
  import opened Release
  import opened Framing
  import opened Headings
  import opened Losses

  // ---- Section names ----

  /** The names of the section headers among the lines. */
  function HeaderNames(lines: seq<string>): set<string> {
    if lines == [] then {}
    else (if Header(lines[0]).Some? then {Header(lines[0]).value} else {}) + HeaderNames(lines[1..])
  }

  lemma {:induction false} HeaderNamesAppend(a: seq<string>, b: seq<string>)
    ensures HeaderNames(a + b) == HeaderNames(a) + HeaderNames(b)
  {
    hide Header;
    if a == [] {
      assert a + b == b;
    } else {
      HeaderNamesAppend(a[1..], b);
      assert (a + b)[1..] == a[1..] + b;
    }
  }

  lemma {:induction false} NoNames(lines: seq<string>)
    requires All(NotHeader, lines)
    ensures HeaderNames(lines) == {}
  {
    hide Header;
    if lines != [] {
      NoNames(lines[1..]);
    }
  }

  lemma {:induction false} PlainIsNoHeader(lines: seq<string>)
    requires All(Plain, lines)
    ensures All(NotHeader, lines)
  {
    if lines != [] {
      PlainIsNoHeader(lines[1..]);
    }
  }

  lemma BlockNames(section: string, bodies: seq<string>)
    requires Printable(bodies) && Name(section)
    ensures HeaderNames(BlockLines(section, bodies)) == {section}
  {
    hide Header, ContentLines, NotHeader, Plain;
    HeaderOf(section);
    ContentIsPlain(bodies);
    PlainIsNoHeader(ContentLines(bodies));
    NoNames(ContentLines(bodies));
    assert BlockLines(section, bodies)[1..] == ContentLines(bodies);
  }

  lemma EmptyLineNames(rest: seq<string>)
    ensures HeaderNames([""] + rest) == HeaderNames(rest)
  {
    assert ([""] + rest)[1..] == rest;
  }

  /** The headers of a printed text are those of the sections printed. */
  lemma {:induction false} RenderedNames(g: Grouped, names: seq<string>)
    requires AllPrintable(g) && AllIn(names, g) && AllNames(names)
    ensures forall s :: s in HeaderNames(RenderedLines(g, names)) <==> s in names
  {
    hide Header, BlockLines, HeaderNames, Name;
    if names == [] {
      NoNames([]);
    } else {
      BlockNames(names[0], g[names[0]]);
      assert names == [names[0]] + names[1..];
      if |names| > 1 {
        RenderedNames(g, names[1..]);
        EmptyLineNames(RenderedLines(g, names[1..]));
        HeaderNamesAppend(BlockLines(names[0], g[names[0]]), [""] + RenderedLines(g, names[1..]));
      }
    }
  }

  lemma {:induction false} PresentIs(g: Grouped, order: seq<string>, s: string)
    ensures s in Present(g, order) <==> s in order && s in g
  {
    if order != [] {
      PresentIs(g, order[1..], s);
    }
  }

  lemma NamesBetweenBlankLines(ls: seq<string>)
    requires OneLiners(ls)
    ensures HeaderNames(Lines("\n" + Join(ls) + "\n\n")) == HeaderNames(ls)
  {
    hide HeaderNames, Lines, Join;
    LinesBetweenBlankLines(ls);
    NoNames([]);
    EmptyLineNames([]);
    EmptyLineNames([""]);
    EmptyLineNames(["", ""]);
    EmptyLineNames(ls);
    HeaderNamesAppend([""] + ls, [""]);
    assert [""] + [] == [""] && [""] + [""] == ["", ""] && [""] + ["", ""] == ["", "", ""];
  }

  lemma ReleaseNamesIn(g: Grouped, order: seq<string>)
    requires AllPrintable(g) && AllNames(order)
    ensures forall s :: s in HeaderNames(Lines("\n" + RenderedIn(g, order) + "\n\n")) <==> s in order && s in g
  {
    hide HeaderNames, Lines, RenderedLines, Join, Name;
    var names := Present(g, order);
    PresentNames(g, order);
    RenderedText(g, names);
    RenderedLinesAreLines(g, names);
    NamesBetweenBlankLines(RenderedLines(g, names));
    RenderedNames(g, names);
    forall s
      ensures s in names <==> s in order && s in g
    {
      PresentIs(g, order, s);
    }
  }

  lemma WholeLines(x: string)
    requires Whole(x) && x != ""
    ensures Terminated(Lines(x)) == x && OneLiners(Lines(x))
  {
    hide Lines;
    LinesAreOneLiners(x);
    JoinOfLines(x);
    JoinIsTerminated(Lines(x));
    assert x == x[..|x| - 1] + "\n";
  }

  lemma NamesBehindNoHash(x: string, rest: string)
    requires Whole(x) && NoHash(x)
    ensures HeaderNames(Lines(x + rest)) == HeaderNames(Lines(rest))
  {
    hide HeaderNames, NotHeader, Lines, Terminated, NoHash, Whole, OneLiners;
    if x == "" {
      assert x + rest == rest;
    } else {
      WholeLines(x);
      NoHashLines(Lines(x));
      LinesOfTerminatedThen(Lines(x), rest);
      NoNames(Lines(x));
      HeaderNamesAppend(Lines(x), Lines(rest));
    }
  }

  /** The headers of the newest block. */
  lemma NewestNames(g: Grouped, version: string, date: string, tail: string)
    requires AllPrintable(g) && Rendered(g) != "" && NoHash(version) && NoHash(date)
    requires tail == "" || HeaderAt(tail, 0)
    ensures var block := Release.Block(version, date, Rendered(g));
      block + tail != "" &&
      forall s :: s in HeaderNames(Lines(NewestBody(block + tail))) <==> s in SECTIONS && s in g
  {
    hide HeaderNames, Lines, SECTIONS, NoHash, Name;
    var title, body := ReleaseTitle(version, date), "\n" + Rendered(g) + "\n\n";
    BlockIsIsolated(g, version, date, tail);
    NewestBodyText(title, body, tail);
    var k := LineEnd(title);
    assert title[0] == '#' && title[1] == '#';
    TitleRest(version, date, k + 1);
    NamesBehindNoHash(title[k + 1..], body);
    StandardNames();
    ReleaseNamesIn(g, SECTIONS);
  }

  /** After a cut the newest block has a header for every section merged, and no other. */
  lemma NamesAfterCut(t: string, entries: seq<Entry>, version: string, date: string)
    requires Cut(t, entries, version, date).Ok? && NoHash(version) && NoHash(date)
    ensures var t' := Cut(t, entries, version, date).value;
      Split(t).Some? && Split(t').Some? && Split(t').value.tail != "" &&
      forall s :: s in HeaderNames(Lines(NewestBody(Split(t').value.tail))) <==> s in MergedOf(t, entries)
  {
    hide HeaderNames, Lines, SECTIONS, NoHash, NewestBody, Split, Rendered, Grouping, Parsed, LintsClean, Assemble;
    var p := Split(t).value;
    SplitFramed(t);
    CutFrame(t, entries, version, date);
    MergedPrintable(p.body, entries);
    NewestNames(MergedOf(t, entries), version, date, p.tail);
    assert Standard(MergedOf(t, entries));
  }

  // ---- The title line ----

  /** What follows `## [Unreleased]` on its line. */
  function Note(t: string): string
    requires Split(t).Some?
  {
    SplitText(t);
    TitleOf(t)[|UNRELEASED|..]
  }

  /** What a cut makes of the title line does not depend on the note. */
  lemma NoteIsDropped(t: string, entries: seq<Entry>, version: string, date: string)
    requires Split(t).Some?
    ensures Cut(t, entries, version, date) == Cut(Assemble(Split(t).value), entries, version, date)
  {
    hide Split, Assemble, Parsed, Rendered, Grouping, LintsClean;
    SplitFramed(t);
    SplitOfAssembled(Split(t).value);
  }

  lemma Middle(a: string, m: string, c: string)
    ensures (a + (m + c))[|a|..|a| + |m|] == m
  {
  }

  lemma AssembledTitle(p: Parts)
    requires Framed(p)
    ensures Split(Assemble(p)).Some? && TitleOf(Assemble(p)) == UNRELEASED + "\n"
  {
    hide UNRELEASED, UnreleasedAt, BodyStart;
    SplitOfAssembled(p);
    FindInAssembled(p);
    Middle(p.head, UNRELEASED + "\n", p.body + p.tail);
  }

  lemma FramedAfter(p: Parts, block: string)
    requires Framed(p)
    ensures LstripNewlines(p.tail) == p.tail
    ensures HeaderAt(block + p.tail, 0) ==> Framed(Parts(p.head, "\n", block + p.tail))
  {
    TailIsKept(p.tail);
  }

  lemma TitleAfterCut(t: string, entries: seq<Entry>, version: string, date: string)
    requires Cut(t, entries, version, date).Ok?
    ensures var t' := Cut(t, entries, version, date).value;
      Split(t).Some? && Split(t').Some? && TitleOf(t') == UNRELEASED + "\n"
  {
    hide Split, Cut, TitleOf, Assemble, UNRELEASED, Framed, HeaderAt;
    CutText(t, entries, version, date);
    var p := Split(t).value;
    SplitFramed(t);
    FramedAfter(p, NewBlock(t, entries, version, date));
    NewBlockStarts(t, entries, version, date, p.tail);
    AssembledTitle(Parts(p.head, "\n", NewBlock(t, entries, version, date) + p.tail));
  }

  lemma TitleInk(title: string)
    requires IsTitle(title)
    ensures Ink(title) == Ink(UNRELEASED + "\n") <==> Blank(title[|UNRELEASED|..])
  {
    hide UNRELEASED, Ink;
    var note := title[|UNRELEASED|..];
    assert title == UNRELEASED + note;
    InkAppend(UNRELEASED, note);
    InkAppend(UNRELEASED, "\n");
    InkBlank(note);
    InkBlank("\n");
  }

  // ---- Everything ----

  /** The outcome of a cut still has the visible characters of the title line, a header for every section name, and the
      visible characters of all text and all fragments. */
  ghost predicate NothingGone(t: string, t': string, entries: seq<Entry>)
    requires Split(t).Some? && Split(t').Some? && Split(t').value.tail != ""
  {
    var lines := Lines(Split(t).value.body);
    && Ink(TitleOf(t')) == Ink(TitleOf(t))
    && HeaderNames(lines) <= HeaderNames(Lines(NewestBody(Split(t').value.tail)))
    && ReleaseInk(t', SECTIONS) == multiset(WrittenInk(lines)) + FragmentInk(entries)
  }

  /** A section that a cut prints: text below a header of that name, or a fragment. */
  ghost predicate IsUsed(lines: seq<string>, entries: seq<Entry>, s: string) {
    HasText(lines, s) || BodiesOf(entries, s) != []
  }

  /** Nothing visible, bullet markers aside, is lost in a cut if and only if the title line has no note, no text stands above
      the first section header, and every name in a header has text below a header of that name or a fragment. */
  lemma CutIsIntact(t: string, entries: seq<Entry>, version: string, date: string)
    requires Cut(t, entries, version, date).Ok? && NoHash(version) && NoHash(date)
    ensures var t' := Cut(t, entries, version, date).value;
      Split(t).Some? && Split(t').Some? && Split(t').value.tail != ""
      && (NothingGone(t, t', entries)
          <==> var lines := Lines(Split(t).value.body);
            && Blank(Note(t)) && PreambleInk(lines) == ""
            && forall s | s in HeaderNames(lines) :: IsUsed(lines, entries, s))
  {
    hide Cut, Split, Lines, SECTIONS, NoHash, ReleaseInk, WrittenInk, PreambleInk, FragmentInk, HeaderNames, HasText, NewestBody,
      MergedOf, TitleOf, UNRELEASED, Ink, BodiesOf, IsTitle;
    var t' := Cut(t, entries, version, date).value;
    NamesAfterCut(t, entries, version, date);
    CutKeepsText(t, entries, version, date);
    TitleAfterCut(t, entries, version, date);
    SplitText(t);
    TitleInk(TitleOf(t));
    var lines := Lines(Split(t).value.body);
    forall s
      ensures s in HeaderNames(Lines(NewestBody(Split(t').value.tail))) <==> IsUsed(lines, entries, s)
    {
      MergedNames(t, entries, s);
    }
  }

  // ---- Two texts that lose something else than a preamble ----

  lemma NotedSplit(note: string, body: string)
    requires OneLine(note) && NoHeader(body)
    ensures Split(UNRELEASED + note + "\n" + body) == Some(Parts("", body, ""))
    ensures Note(UNRELEASED + note + "\n" + body) == note + "\n"
  {
    var t, title := UNRELEASED + note + "\n" + body, UNRELEASED + note + "\n";
    assert t[..|UNRELEASED|] == UNRELEASED && t[|UNRELEASED|..] == note + "\n" + body;
    LineEndPrefix(note, body);
    assert UnreleasedAt(t, 0) && BodyStart(t, 0) == |title|;
    FindUnreleasedIs(t, 0);
    NextHeaderBehind(title, body);
    NextHeaderAfter(body, "");
    assert body + "" == body;
    SplitIs(t, 0, |t|);
    assert t[..0] == "" && t[|title|..|t|] == body && t[|t|..] == "";
    assert t[0..|title|] == title;
  }

  /** A note on the title line is lost, whatever else the block holds. */
  lemma NoteIsLost(body: string, entries: seq<Entry>, version: string, date: string)
    requires NoHeader(body)
    ensures Cut(UNRELEASED + " - codename Aurora\n" + body, entries, version, date)
         == Cut(UNRELEASED + "\n" + body, entries, version, date)
  {
    hide Cut, Split, NoHeader;
    var note := " - codename Aurora";
    NotedSplit(note, body);
    assert UNRELEASED + note + "\n" == UNRELEASED + " - codename Aurora\n";
    NoteIsDropped(UNRELEASED + note + "\n" + body, entries, version, date);
    assert Assemble(Parts("", body, "")) == UNRELEASED + "\n" + body;
  }

  lemma ScanHeader(line: string, rest: seq<string>, current: Option<string>, g: Grouped)
    requires Header(line).Some?
    ensures Scan([line] + rest, current, [], g) == Scan(rest, Header(line), [], g)
  {
    hide Header;
    assert ([line] + rest)[1..] == rest;
    assert Flushed(current, [], g) == g;
  }

  /** A header with nothing below it leaves no trace, whatever its name. */
  lemma EmptyHeadingIsDropped(first: string, second: string, rest: string)
    requires OneLine(first) && OneLine(second) && Header(first).Some? && Header(second).Some?
    ensures Parsed(first + "\n" + (second + "\n" + rest)) == Parsed(second + "\n" + rest)
  {
    hide Header, Lines, Scan;
    LinesCons(first, second + "\n" + rest);
    LinesCons(second, rest);
    ScanHeader(first, [second] + Lines(rest), None, map[]);
    ScanHeader(second, Lines(rest), Header(first), map[]);
    ScanHeader(second, Lines(rest), None, map[]);
  }

  lemma EmptyHeadingIsLost(rest: string)
    ensures Parsed("### Performance\n" + ("### Added\n" + rest)) == Parsed("### Added\n" + rest)
  {
    var first, second := "### Performance", "### Added";
    assert first + "\n" == "### Performance\n" && second + "\n" == "### Added\n";
    EmptyHeadingIsDropped(first, second, rest);
  }

  // ---- A release with nothing in it ----

  const EMPTY := "### Added\n- \n"

  lemma EmptyHeader()
    ensures Header("### Added") == Some("Added") && Harmless("### Added") && Harmless("- ")
  {
    var h, l, name := "### Added", "- ", "Added";
    assert h[4..] == name && Lstrip(name) == name && Rstrip(name) == name;
    assert h[2] == '#' && l[0] == '-';
  }

  lemma {:induction false} OneLinersOf(ls: seq<string>)
    requires All(Harmless, ls)
    ensures OneLiners(ls)
  {
    if ls != [] {
      OneLinersOf(ls[1..]);
    }
  }

  lemma EmptyLines()
    ensures Lines(EMPTY) == ["### Added", "- "] && NoHeader(EMPTY)
  {
    hide Lines, NoHeader, Harmless;
    var ls := ["### Added", "- "];
    EmptyHeader();
    assert ls[1..] == ["- "] && ["- "][1..] == [];
    assert Terminated(ls) == "### Added" + "\n" + ("- " + "\n" + "");
    assert EMPTY == Terminated(ls) && Terminated(ls) + "" == Terminated(ls);
    OneLinersOf(ls);
    LinesOfTerminatedThen(ls, "");
    assert Lines("") == [] by {
      LinesOfNothing();
    }
    assert ls + [] == ls;
    assert All(Harmless, []) && All(Harmless, ["- "]) && All(Harmless, ls);
    HarmlessText(ls);
  }

  lemma EmptyBullet()
    ensures Header("- ").None? && !Blank("- ") && LineInk("- ") == ""
  {
    var l := "- ";
    assert l[0] == '-' && l[2..] == "";
  }

  lemma EmptySectionHasText()
    ensures HasText(["### Added", "- "], "Added") && forall s | HasText(["### Added", "- "], s) :: s == "Added"
  {
    hide Header, Blank;
    var lines := ["### Added", "- "];
    EmptyHeader();
    EmptyBullet();
    assert TextBelow(lines, None, "Added", 1);
  }

  lemma EmptySectionInk(s: string)
    ensures SectionInk(["### Added", "- "], None, s) == "" && AllInk(BodiesOf([], s)) == ""
  {
    hide Header, LineInk;
    EmptyHeader();
    EmptyBullet();
    var lines := ["### Added", "- "];
    assert lines[1..] == ["- "] && lines[1..][1..] == [];
    assert SectionInk([], Some("Added"), s) == "";
    assert SectionInk(["- "], Some("Added"), s) == "";
  }

  lemma NoInkNoBullets(bullets: seq<string>)
    requires AllInk(bullets) == "" && All(WellFormed, bullets)
    ensures bullets == []
  {
    if bullets != [] {
      WellFormedIsTidy(bullets[0]);
      InkBlank(bullets[0]);
    }
  }

  const EMPTY_CHANGELOG := UNRELEASED + "\n" + EMPTY

  lemma EmptySplit()
    ensures Split(EMPTY_CHANGELOG) == Some(Parts("", EMPTY, ""))
  {
    hide Split, NoHeader, UNRELEASED, EMPTY;
    EmptyLines();
    NotedSplit("", EMPTY);
    assert UNRELEASED + "" + "\n" + EMPTY == EMPTY_CHANGELOG;
  }

  lemma AllErrors<T>(r: Result<T>)
    requires r != Err(BadArguments) && r != Err(BadFragments) && r != Err(NoUnreleased)
    requires r != Err(UnknownSections) && r != Err(NothingToRelease)
    ensures r.Ok?
  {
    if r.Err? {
      match r.error
      case BadArguments =>
      case BadFragments =>
      case NoUnreleased =>
      case UnknownSections =>
      case NothingToRelease =>
    }
  }

  lemma EmptyIsCut(version: string, date: string)
    ensures Cut(EMPTY_CHANGELOG, [], version, date).Ok?
  {
    hide Cut, Split, EMPTY, EMPTY_CHANGELOG, HasText, MergedOf, Lines;
    EmptySplit();
    EmptyLines();
    EmptySectionHasText();
    CutErrors(EMPTY_CHANGELOG, [], version, date);
    UnknownSectionStops(EMPTY_CHANGELOG, [], version, date);
    NothingToReleaseIff(EMPTY_CHANGELOG, [], version, date);
    assert SECTIONS[0] == "Added";
    var r, lines := Cut(EMPTY_CHANGELOG, [], version, date), Lines(Split(EMPTY_CHANGELOG).value.body);
    assert HasText(lines, "Added") && !exists s :: s !in SECTIONS && HasText(lines, s);
    AllErrors(r);
  }

  /** A section whose one bullet is empty is released, with no bullet. */
  lemma EmptySectionIsReleased(version: string, date: string, s: string)
    requires NoHash(version) && NoHash(date)
    ensures var r := Cut(EMPTY_CHANGELOG, [], version, date);
      && r.Ok? && Split(r.value).Some? && Split(r.value).value.tail != ""
      && "Added" in HeaderNames(Lines(NewestBody(Split(r.value).value.tail)))
      && Newest(r.value, s) == []
  {
    hide Cut, Split, EMPTY, EMPTY_CHANGELOG, HasText, MergedOf, Lines, NewestBody, Newest, HeaderNames, NoHash, WellFormed, BodiesOf, SectionInk;
    EmptySplit();
    EmptyLines();
    EmptySectionHasText();
    EmptyIsCut(version, date);
    NamesAfterCut(EMPTY_CHANGELOG, [], version, date);
    MergedNames(EMPTY_CHANGELOG, [], "Added");
    CutKeepsBullets(EMPTY_CHANGELOG, [], version, date, s);
    CutKeepsInk(EMPTY_CHANGELOG, [], version, date, s);
    EmptySectionInk(s);
    NoInkNoBullets(Newest(Cut(EMPTY_CHANGELOG, [], version, date).value, s));
  }
}
