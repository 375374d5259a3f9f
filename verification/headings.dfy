/** Which section names the parser finds in a text, and what that means for a cut. */
module Headings {
  import opened Text
  import opened Sections
  import opened Conservation
  import opened Canonical
  import opened Fragments
  import opened Changelog
  import opened Release
  import opened Framing

  /** The header that line j stands below, when `current` is the header above the first line. */
  function Above(lines: seq<string>, current: Option<string>, j: nat): Option<string>
    requires j <= |lines|
  {
    if j == 0 then current
    else Above(lines[1..], if Header(lines[0]).Some? then Header(lines[0]) else current, j - 1)
  }

  /** Line j is text below a header named s. */
  predicate TextBelow(lines: seq<string>, current: Option<string>, s: string, j: nat) {
    j < |lines| && Header(lines[j]).None? && !Blank(lines[j]) && Above(lines, current, j) == Some(s)
  }

  /** Some header named s has a line below it, before the next header, that is not blank. */
  ghost predicate HasText(lines: seq<string>, s: string) {
    exists j :: TextBelow(lines, None, s, j)
  }

  /** The same, found on the way down. */
  predicate Filled(lines: seq<string>, current: Option<string>, s: string)
    decreases |lines|
  {
    if lines == [] then false
    else if Header(lines[0]).Some? then Filled(lines[1..], Header(lines[0]), s)
    else (current == Some(s) && !Blank(lines[0])) || Filled(lines[1..], current, s)
  }

  lemma TextBelowNext(lines: seq<string>, current: Option<string>, s: string, j: nat)
    requires lines != []
    ensures var c := if Header(lines[0]).Some? then Header(lines[0]) else current;
      TextBelow(lines, current, s, j + 1) <==> TextBelow(lines[1..], c, s, j)
    ensures TextBelow(lines, current, s, 0) <==> Header(lines[0]).None? && !Blank(lines[0]) && current == Some(s)
  {
    hide Header, Blank;
  }

  lemma {:induction false} FilledIs(lines: seq<string>, current: Option<string>, s: string)
    ensures Filled(lines, current, s) <==> exists j :: TextBelow(lines, current, s, j)
    decreases |lines|
  {
    hide Header, Blank;
    if lines != [] {
      var c := if Header(lines[0]).Some? then Header(lines[0]) else current;
      FilledIs(lines[1..], c, s);
      TextBelowNext(lines, current, s, 0);
      if Filled(lines[1..], c, s) {
        var j :| TextBelow(lines[1..], c, s, j);
        TextBelowNext(lines, current, s, j);
      }
      forall j: nat | TextBelow(lines, current, s, j)
        ensures Filled(lines, current, s)
      {
        if j > 0 {
          TextBelowNext(lines, current, s, j - 1);
        }
      }
    }
  }

  lemma {:induction false} JoinInk(ls: seq<string>)
    ensures Ink(Join(ls)) == "" <==> All(Blank, ls)
  {
    if ls != [] {
      JoinInk(ls[1..]);
      JoinConsInk(ls[0], ls[1..]);
      InkBlank(ls[0]);
      assert [ls[0]] + ls[1..] == ls;
    }
  }

  /** A section is flushed if and only if some line below its header is not blank. */
  lemma FlushedKeys(current: Option<string>, buf: seq<string>, g: Grouped, s: string)
    ensures s in Flushed(current, buf, g) <==> s in g || (current == Some(s) && !All(Blank, buf))
  {
    hide BulletsIn, StripNewlines;
    JoinInk(buf);
    StripNewlinesInk(Join(buf));
    InkBlank(StripNewlines(Join(buf)));
  }

  lemma {:induction false} AllBlankSnoc(buf: seq<string>, line: string)
    ensures All(Blank, buf + [line]) <==> All(Blank, buf) && Blank(line)
  {
    if buf == [] {
      assert [] + [line] == [line] && [line][1..] == [];
    } else {
      AllBlankSnoc(buf[1..], line);
      assert (buf + [line])[1..] == buf[1..] + [line];
    }
  }

  lemma {:induction false} ScanKeys(lines: seq<string>, current: Option<string>, buf: seq<string>, g: Grouped, s: string)
    ensures s in Scan(lines, current, buf, g)
       <==> s in g || (current == Some(s) && !All(Blank, buf)) || Filled(lines, current, s)
    decreases |lines|
  {
    hide Flushed, Blank, Header;
    FlushedKeys(current, buf, g, s);
    if lines != [] {
      if Header(lines[0]).Some? {
        ScanKeys(lines[1..], Header(lines[0]), [], Flushed(current, buf, g), s);
      } else {
        AllBlankSnoc(buf, lines[0]);
        ScanKeys(lines[1..], current, buf + [lines[0]], g, s);
      }
    }
  }

  /** The parser finds exactly the names of headers with a non-blank line below them, before the next header. */
  lemma ParsedNames(body: string, s: string)
    ensures s in Parsed(body) <==> HasText(Lines(body), s)
  {
    hide Filled;
    ScanKeys(Lines(body), None, [], map[], s);
    FilledIs(Lines(body), None, s);
  }

  lemma MergedNames(t: string, entries: seq<Entry>, s: string)
    requires Split(t).Some?
    ensures s in MergedOf(t, entries)
       <==> BodiesOf(entries, s) != [] || HasText(Lines(Split(t).value.body), s)
  {
    hide Split, Parsed, Grouping, BodiesOf, HasText;
    ParsedNames(Split(t).value.body, s);
    GroupingGet(entries, map[], s);
  }

  // ---- When a cut is refused ----

  /** The errors of a cut, by what it merges. */
  lemma CutErrors(t: string, entries: seq<Entry>, version: string, date: string)
    ensures var r := Cut(t, entries, version, date);
      && (r == Err(BadFragments) <==> !LintsClean(entries))
      && (r == Err(NoUnreleased) <==> LintsClean(entries) && Split(t).None?)
      && (r == Err(UnknownSections) <==> LintsClean(entries) && Split(t).Some? && !Standard(MergedOf(t, entries)))
      && (r == Err(NothingToRelease) ==> Standard(MergedOf(t, entries)))
      && (r.Ok? ==> Standard(MergedOf(t, entries)))
      && r != Err(BadArguments)
  {
    hide Split, Parsed, Grouping, Rendered, LintsClean, Assemble, Standard;
  }

  /** A cut stops at an unknown section if and only if a header whose name is none of the six has text below it. */
  lemma UnknownSectionStops(t: string, entries: seq<Entry>, version: string, date: string)
    ensures Cut(t, entries, version, date) == Err(UnknownSections)
       <==> LintsClean(entries) && Split(t).Some?
            && exists s :: s !in SECTIONS && HasText(Lines(Split(t).value.body), s)
  {
    hide Cut, Split, LintsClean, HasText, MergedOf, Lines, SECTIONS;
    CutErrors(t, entries, version, date);
    if Split(t).Some? {
      forall s | s !in SECTIONS
        ensures s in MergedOf(t, entries) <==> HasText(Lines(Split(t).value.body), s)
      {
        MergedNames(t, entries, s);
        if BodiesOf(entries, s) != [] {
          BodiesAreStandard(entries, s);
        }
      }
      assert Standard(MergedOf(t, entries)) <==> !exists s :: s !in SECTIONS && s in MergedOf(t, entries);
    }
  }

  lemma BlocksStart(g: Grouped, names: seq<string>)
    requires AllPrintable(g) && AllIn(names, g) && names != []
    ensures JoinBlocks(Blocks(g, names)) != ""
  {
    assert Blocks(g, names)[0] == Sections.Block(names[0], g[names[0]]);
    assert |Sections.Block(names[0], g[names[0]])| >= 4;
  }

  lemma PrintedIsNotEmpty(g: Grouped, order: seq<string>)
    requires AllPrintable(g)
    ensures RenderedIn(g, order) == "" <==> forall s | s in g :: s !in order
  {
    hide Sections.Block;
    if order != [] {
      PrintedIsNotEmpty(g, order[1..]);
      if order[0] in g {
        BlocksStart(g, Present(g, order));
      }
    }
  }

  lemma {:induction false} SomeFragment(entries: seq<Entry>, e: Entry)
    requires LintsClean(entries) && e in entries && Considered(e)
    ensures ParseFragment(e).Clean? && BodiesOf(entries, ParseFragment(e).section) != []
  {
    hide Considered, ParseFragment;
    if entries[0] != e {
      SomeFragment(entries[1..], e);
    }
  }

  lemma {:induction false} NoFragment(entries: seq<Entry>, s: string)
    requires forall e | e in entries :: !Considered(e)
    ensures BodiesOf(entries, s) == []
  {
    hide Considered, ParseFragment;
    if entries != [] {
      assert entries[0] in entries;
      NoFragment(entries[1..], s);
    }
  }

  lemma CutNothing(t: string, entries: seq<Entry>, version: string, date: string)
    ensures Cut(t, entries, version, date) == Err(NothingToRelease)
       <==> LintsClean(entries) && Split(t).Some? && MergedOf(t, entries) == map[]
  {
    hide Split, Parsed, Grouping, LintsClean, Assemble, RenderedIn, SECTIONS;
    if Split(t).Some? {
      MergedPrintable(Split(t).value.body, entries);
      PrintedIsNotEmpty(MergedOf(t, entries), SECTIONS);
    }
  }

  /** There is nothing to release if and only if there is no fragment and no text below a section header. */
  lemma NothingToReleaseIff(t: string, entries: seq<Entry>, version: string, date: string)
    ensures Cut(t, entries, version, date) == Err(NothingToRelease)
       <==> LintsClean(entries) && Split(t).Some? && (forall e | e in entries :: !Considered(e))
            && forall s :: !HasText(Lines(Split(t).value.body), s)
  {
    hide Cut, Split, LintsClean, HasText, MergedOf, Lines, BodiesOf, Considered;
    CutNothing(t, entries, version, date);
    if Split(t).Some? && LintsClean(entries) {
      var m := MergedOf(t, entries);
      if e :| e in entries && Considered(e) {
        SomeFragment(entries, e);
        MergedNames(t, entries, ParseFragment(e).section);
      } else {
        forall s
          ensures s in m <==> HasText(Lines(Split(t).value.body), s)
        {
          NoFragment(entries, s);
          MergedNames(t, entries, s);
        }
        if m != map[] {
          var s :| s in m;
          assert HasText(Lines(Split(t).value.body), s);
        } else {
          assert forall s :: s !in m;
        }
      }
    }
  }
}
