/** Cutting a release: `apply` as a function of the changelog text and the fragment directory. */
module Release {
  import opened Text
  import opened Sections
  import opened Canonical
  import opened Fragments
  import opened Changelog

  // ---- Everything that reaches the printer is printable ----

  lemma {:induction false} VisiblePrintable(bodies: seq<string>)
    requires All(Visible, bodies)
    ensures Printable(bodies)
  {
    if bodies != [] {
      VisiblePrintable(bodies[1..]);
    }
  }

  lemma {:induction false} KeptAreVisible(items: seq<string>)
    ensures All(Visible, Kept(items))
  {
    if items != [] {
      KeptAreVisible(items[1..]);
      if !Blank(items[0]) {
        var kept := StripNewlines(items[0]);
        InkBlank(items[0]);
        StripNewlinesInk(items[0]);
        InkBlank(kept);
        assert ([kept] + Kept(items[1..]))[1..] == Kept(items[1..]);
      } else {
        assert [] + Kept(items[1..]) == Kept(items[1..]);
      }
    }
  }

  lemma ExtendedReadable(g: Grouped, s: string, bodies: seq<string>)
    requires Readable(g) && All(Visible, bodies)
    ensures Readable(Extended(g, s, bodies))
  {
    AllAppend(Visible, Get(g, s), bodies);
  }

  lemma FlushedReadable(current: Option<string>, buf: seq<string>, g: Grouped)
    requires Readable(g)
    ensures Readable(Flushed(current, buf, g))
  {
    var text := StripNewlines(Join(buf));
    if current.Some? && !Blank(text) {
      KeptAreVisible(Items(Lines(text), []));
      ExtendedReadable(g, current.value, BulletsIn(text));
    }
  }

  lemma {:induction false} ScanReadable(lines: seq<string>, current: Option<string>, buf: seq<string>, g: Grouped)
    requires Readable(g)
    ensures Readable(Scan(lines, current, buf, g))
    decreases |lines|
  {
    FlushedReadable(current, buf, g);
    if lines != [] {
      if Header(lines[0]).Some? {
        ScanReadable(lines[1..], Header(lines[0]), [], Flushed(current, buf, g));
      } else {
        ScanReadable(lines[1..], current, buf + [lines[0]], g);
      }
    }
  }

  lemma {:induction false} GroupingReadable(entries: seq<Entry>)
    ensures Readable(Grouping(entries, map[]))
  {
    forall s | s in Grouping(entries, map[])
      ensures All(Visible, Grouping(entries, map[])[s])
    {
      GroupingGet(entries, map[], s);
      BodiesAreVisible(entries, s);
      assert [] + BodiesOf(entries, s) == BodiesOf(entries, s);
    }
  }

  /** `merged.setdefault(section, []).extend(bodies)` for every section of the fragments. */
  function Merged(written: Grouped, fragments: Grouped): Grouped {
    map s | s in written.Keys + fragments.Keys :: Get(written, s) + Get(fragments, s)
  }

  lemma MergedPrintable(body: string, entries: seq<Entry>)
    ensures AllPrintable(Merged(Parsed(body), Grouping(entries, map[])))
    ensures Readable(Merged(Parsed(body), Grouping(entries, map[])))
  {
    var written, added := Parsed(body), Grouping(entries, map[]);
    ScanReadable(Lines(body), None, [], map[]);
    GroupingReadable(entries);
    forall s | s in Merged(written, added)
      ensures All(Visible, Merged(written, added)[s]) && Printable(Merged(written, added)[s])
    {
      AllAppend(Visible, Get(written, s), Get(added, s));
      VisiblePrintable(Merged(written, added)[s]);
    }
  }

  // ---- One cut ----

  predicate Standard(g: Grouped) {
    forall s | s in g :: s in SECTIONS
  }

  function ReleaseTitle(version: string, date: string): string {
    "## [" + version + "] - " + date + "\n"
  }

  /** A release block: its title line and what follows up to the next block. */
  function Block(version: string, date: string, rendered: string): string {
    ReleaseTitle(version, date) + ("\n" + rendered + "\n\n")
  }

  /** The new changelog text, or the error that keeps `apply` from writing. */
  function Cut(t: string, entries: seq<Entry>, version: string, date: string): Result<string> {
    if !LintsClean(entries) then Err(BadFragments)
    else if Split(t).None? then Err(NoUnreleased)
    else
      var p := Split(t).value;
      var merged := Merged(Parsed(p.body), Grouping(entries, map[]));
      if !Standard(merged) then Err(UnknownSections)
      else
        MergedPrintable(p.body, entries);
        var rendered := Rendered(merged);
        if rendered == "" then Err(NothingToRelease)
        else Ok(Assemble(Parts(p.head, "\n", Block(version, date, rendered) + LstripNewlines(p.tail))))
  }

  lemma MergedNothing(written: Grouped)
    ensures Merged(written, map[]) == written
  {
    forall s | s in written
      ensures Merged(written, map[])[s] == written[s]
    {
      assert Get(written, s) + Get(map[], s) == written[s];
    }
  }

  lemma MergedOneMore(written: Grouped, fragments: Grouped, todo: set<string>, s: string)
    requires s in todo && todo <= fragments.Keys
    ensures Merged(written, fragments - (todo - {s})) == Extended(Merged(written, fragments - todo), s, fragments[s])
  {
    var less, more := Merged(written, fragments - todo), Merged(written, fragments - (todo - {s}));
    assert Get(less, s) == Get(written, s) by {
      assert Get(written, s) + [] == Get(written, s);
    }
    forall x | x in more && x != s
      ensures x in less && more[x] == less[x]
    {
    }
    assert more.Keys == less.Keys + {s};
  }

  method Merge(written: Grouped, fragments: Grouped) returns (merged: Grouped)
    ensures merged == Merged(written, fragments)
  {
    merged := written;
    var todo := fragments.Keys;
    assert fragments - todo == map[];
    MergedNothing(written);
    while todo != {}
      invariant todo <= fragments.Keys
      invariant merged == Merged(written, fragments - todo)
    {
      var section :| section in todo;
      MergedOneMore(written, fragments, todo, section);
      merged := Extended(merged, section, fragments[section]);
      todo := todo - {section};
    }
    assert fragments - {} == fragments;
  }
}
