/** What a cut loses of the text lines of the Unreleased block: those above its first section header, and nothing else. */
module Losses {
  import opened Text
  import opened Sections
  import opened Conservation
  import opened RoundTrip
  import opened Fragments
  import opened Changelog
  import opened Release
  import opened Framing
  import opened Headings

  /** The visible characters of all lines that are no section header. */
  function WrittenInk(lines: seq<string>): string {
    if lines == [] then ""
    else (if Header(lines[0]).Some? then "" else LineInk(lines[0])) + WrittenInk(lines[1..])
  }

  /** Those above the first section header. */
  function PreambleInk(lines: seq<string>): string {
    if lines == [] || Header(lines[0]).Some? then "" else LineInk(lines[0]) + PreambleInk(lines[1..])
  }

  /** Those below headers with a name in `order`. */
  function SectionsInk(lines: seq<string>, current: Option<string>, order: seq<string>): multiset<char> {
    if order == [] then multiset{}
    else multiset(SectionInk(lines, current, order[0])) + SectionsInk(lines, current, order[1..])
  }

  /** Those above the first header, and those below headers with another name. */
  function StrayInk(lines: seq<string>, current: Option<string>, order: seq<string>): multiset<char>
    decreases |lines|
  {
    if lines == [] then multiset{}
    else if Header(lines[0]).Some? then StrayInk(lines[1..], Header(lines[0]), order)
    else
      var here := if current.Some? && current.value in order then "" else LineInk(lines[0]);
      multiset(here) + StrayInk(lines[1..], current, order)
  }

  lemma {:induction false} HeaderCountsNothing(lines: seq<string>, current: Option<string>, order: seq<string>)
    requires lines != [] && Header(lines[0]).Some?
    ensures SectionsInk(lines, current, order) == SectionsInk(lines[1..], Header(lines[0]), order)
  {
    hide Header;
    if order != [] {
      HeaderCountsNothing(lines, current, order[1..]);
    }
  }

  lemma LineCounts(lines: seq<string>, current: Option<string>, s: string)
    requires lines != [] && Header(lines[0]).None?
    ensures multiset(SectionInk(lines, current, s))
         == multiset(SectionInk(lines[1..], current, s)) + multiset(if current == Some(s) then LineInk(lines[0]) else "")
  {
  }

  /** A line of text counts for one section if it stands below a header of `order`, and for none otherwise. */
  lemma {:induction false} LineCountsOnce(lines: seq<string>, current: Option<string>, order: seq<string>)
    requires lines != [] && Header(lines[0]).None? && Distinct(order)
    ensures SectionsInk(lines, current, order) == SectionsInk(lines[1..], current, order)
      + multiset(if current.Some? && current.value in order then LineInk(lines[0]) else "")
  {
    hide Header, LineInk, SectionInk;
    if order != [] {
      var s, rest := order[0], order[1..];
      LineCounts(lines, current, s);
      LineCountsOnce(lines, current, rest);
      assert order == [s] + rest;
      assert s !in rest;
    }
  }

  lemma {:induction false} NoLines(current: Option<string>, order: seq<string>)
    ensures SectionsInk([], current, order) == multiset{}
  {
    if order != [] {
      NoLines(current, order[1..]);
    }
  }

  /** Every visible character is below a header of `order` or stray. */
  lemma {:induction false} InkIsSorted(lines: seq<string>, current: Option<string>, order: seq<string>)
    requires Distinct(order)
    ensures multiset(WrittenInk(lines)) == SectionsInk(lines, current, order) + StrayInk(lines, current, order)
    decreases |lines|
  {
    hide Header, LineInk, Distinct;
    if lines == [] {
      NoLines(current, order);
    } else if Header(lines[0]).Some? {
      HeaderCountsNothing(lines, current, order);
      InkIsSorted(lines[1..], Header(lines[0]), order);
    } else {
      LineCountsOnce(lines, current, order);
      InkIsSorted(lines[1..], current, order);
    }
  }

  /** If no header of another name has text below it, only the text above the first header is stray. */
  lemma {:induction false} StrayIsPreamble(lines: seq<string>, current: Option<string>, order: seq<string>)
    requires forall s | s !in order :: !Filled(lines, current, s)
    ensures StrayInk(lines, current, order) == if current.None? then multiset(PreambleInk(lines)) else multiset{}
    decreases |lines|
  {
    hide Header, LineInk, Blank;
    if lines != [] {
      if Header(lines[0]).Some? {
        StrayIsPreamble(lines[1..], Header(lines[0]), order);
      } else {
        StrayIsPreamble(lines[1..], current, order);
        if current.Some? && current.value !in order {
          assert !Filled(lines, current, current.value);
          BlankLineInk(lines[0]);
        }
      }
    }
  }

  // ---- Fragments ----

  /** The visible characters of all fragments. */
  function FragmentInk(entries: seq<Entry>): multiset<char> {
    if entries == [] then multiset{}
    else
      var p := ParseFragment(entries[0]);
      multiset(if Considered(entries[0]) && p.Clean? then Ink(p.body) else "") + FragmentInk(entries[1..])
  }

  function BodiesInk(entries: seq<Entry>, order: seq<string>): multiset<char> {
    if order == [] then multiset{} else multiset(AllInk(BodiesOf(entries, order[0]))) + BodiesInk(entries, order[1..])
  }

  lemma BodiesNext(entries: seq<Entry>, s: string)
    requires entries != []
    ensures var p := ParseFragment(entries[0]);
      multiset(AllInk(BodiesOf(entries, s)))
      == multiset(if Considered(entries[0]) && p.Clean? && p.section == s then Ink(p.body) else "")
         + multiset(AllInk(BodiesOf(entries[1..], s)))
  {
    hide ParseFragment, Considered, Ink;
    var p := ParseFragment(entries[0]);
    var rest := BodiesOf(entries[1..], s);
    if Considered(entries[0]) && p.Clean? && p.section == s {
      assert ([p.body] + rest)[1..] == rest;
    } else {
      assert [] + rest == rest;
    }
  }

  lemma {:induction false} FragmentCountsOnce(entries: seq<Entry>, order: seq<string>)
    requires entries != [] && Distinct(order)
    ensures var p := ParseFragment(entries[0]);
      BodiesInk(entries, order)
      == multiset(if Considered(entries[0]) && p.Clean? && p.section in order then Ink(p.body) else "")
         + BodiesInk(entries[1..], order)
  {
    hide ParseFragment, Considered, Ink, BodiesOf, AllInk;
    if order != [] {
      FragmentCountsOnce(entries, order[1..]);
      BodiesNext(entries, order[0]);
      assert order == [order[0]] + order[1..];
      assert order[0] !in order[1..];
    }
  }

  lemma {:induction false} NoEntries(order: seq<string>)
    ensures BodiesInk([], order) == multiset{}
  {
    if order != [] {
      NoEntries(order[1..]);
    }
  }

  lemma FragmentIsStandard(e: Entry)
    requires ParseFragment(e).Clean?
    ensures ParseFragment(e).section in SECTIONS
  {
  }

  lemma {:induction false} FragmentInkIsSorted(entries: seq<Entry>)
    ensures FragmentInk(entries) == BodiesInk(entries, SECTIONS)
  {
    hide ParseFragment, Considered, Ink, BodiesOf, AllInk, SECTIONS, Distinct, BodiesInk;
    if entries == [] {
      NoEntries(SECTIONS);
    } else {
      FragmentInkIsSorted(entries[1..]);
      StandardNames();
      FragmentCountsOnce(entries, SECTIONS);
      if ParseFragment(entries[0]).Clean? {
        FragmentIsStandard(entries[0]);
      }
    }
  }

  // ---- A cut ----

  /** The visible characters of the bullets of the newest release, over the sections of `order`. */
  function ReleaseInk(t: string, order: seq<string>): multiset<char>
    requires Split(t).Some? && Split(t).value.tail != ""
  {
    if order == [] then multiset{} else multiset(AllInk(Newest(t, order[0]))) + ReleaseInk(t, order[1..])
  }

  lemma {:induction false} ReleaseHolds(t: string, entries: seq<Entry>, version: string, date: string, order: seq<string>)
    requires Cut(t, entries, version, date).Ok? && NoHash(version) && NoHash(date)
    ensures var t' := Cut(t, entries, version, date).value;
      Split(t').Some? && Split(t').value.tail != ""
      && ReleaseInk(t', order) == SectionsInk(Lines(Split(t).value.body), None, order) + BodiesInk(entries, order)
  {
    hide Cut, Split, Newest, SectionInk, BodiesOf, AllInk, Lines, NoHash;
    if order == [] {
      CutKeepsInk(t, entries, version, date, "");
    } else {
      CutKeepsInk(t, entries, version, date, order[0]);
      ReleaseHolds(t, entries, version, date, order[1..]);
    }
  }

  lemma FilledHasText(lines: seq<string>, s: string)
    ensures Filled(lines, None, s) <==> HasText(lines, s)
  {
    hide Filled, TextBelow;
    FilledIs(lines, None, s);
  }

  lemma OnlySectionsFilled(t: string, entries: seq<Entry>, version: string, date: string)
    requires Cut(t, entries, version, date).Ok?
    ensures Split(t).Some? && forall s | s !in SECTIONS :: !Filled(Lines(Split(t).value.body), None, s)
  {
    hide Cut, Split, Lines, HasText, LintsClean, SECTIONS;
    CutErrors(t, entries, version, date);
    UnknownSectionStops(t, entries, version, date);
    forall s | s !in SECTIONS
      ensures !Filled(Lines(Split(t).value.body), None, s)
    {
      FilledHasText(Lines(Split(t).value.body), s);
    }
  }

  /** The balance of a cut: the text written on lines that are no header, and what the fragments hold, is in the new
      release, but for the text above the first section header. */
  lemma CutBalance(t: string, entries: seq<Entry>, version: string, date: string)
    requires Cut(t, entries, version, date).Ok? && NoHash(version) && NoHash(date)
    ensures var t', lines := Cut(t, entries, version, date).value, Lines(Split(t).value.body);
      Split(t').Some? && Split(t').value.tail != ""
      && multiset(WrittenInk(lines)) + FragmentInk(entries) == ReleaseInk(t', SECTIONS) + multiset(PreambleInk(lines))
  {
    hide Cut, Split, Lines, SECTIONS, Distinct, NoHash, ReleaseInk, WrittenInk, PreambleInk, FragmentInk, BodiesInk, SectionsInk, StrayInk, Filled;
    OnlySectionsFilled(t, entries, version, date);
    var lines := Lines(Split(t).value.body);
    StandardNames();
    InkIsSorted(lines, None, SECTIONS);
    StrayIsPreamble(lines, None, SECTIONS);
    FragmentInkIsSorted(entries);
    ReleaseHolds(t, entries, version, date, SECTIONS);
  }

  lemma Balanced(m: multiset<char>, s: string)
    ensures m == m + multiset(s) <==> s == ""
  {
    if s != "" {
      assert s[0] in multiset(s);
      assert (m + multiset(s))[s[0]] > m[s[0]];
    }
  }

  /** A cut loses no text written on lines that are no header if and only if nothing visible, bullet markers aside, stands
      above the first section header. */
  lemma CutKeepsText(t: string, entries: seq<Entry>, version: string, date: string)
    requires Cut(t, entries, version, date).Ok? && NoHash(version) && NoHash(date)
    ensures var t', lines := Cut(t, entries, version, date).value, Lines(Split(t).value.body);
      Split(t').Some? && Split(t').value.tail != ""
      && (ReleaseInk(t', SECTIONS) == multiset(WrittenInk(lines)) + FragmentInk(entries) <==> PreambleInk(lines) == "")
  {
    hide Cut, Split, Lines, SECTIONS, NoHash, ReleaseInk, WrittenInk, PreambleInk, FragmentInk;
    CutBalance(t, entries, version, date);
    OnlySectionsFilled(t, entries, version, date);
    Balanced(ReleaseInk(Cut(t, entries, version, date).value, SECTIONS), PreambleInk(Lines(Split(t).value.body)));
  }
}
