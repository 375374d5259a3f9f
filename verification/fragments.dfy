/** Changelog fragment files: naming rules, linting and collection (scripts/changelog_fragments.py). */
module Fragments {
  import opened Text
  import opened Sections
  import opened Canonical

  datatype Entry = Entry(name: string, isDir: bool, content: string)

  datatype Error =
    | BadArguments | BadFragments | NoUnreleased | UnknownSections | NothingToRelease

  datatype Result<+T> = Ok(value: T) | Err(error: Error)

  datatype Lint = Clean(section: string, body: string) | NotMarkdown | NoSlug | UnknownType | BadSlug | Empty | Marker

  // ---- One file ----

  /** `TYPES.get(kind.lower())` */
  function SectionOf(kind: string): Option<string> {
    var k := Lower(kind);
    if k == "added" then Some("Added")
    else if k == "changed" then Some("Changed")
    else if k == "deprecated" then Some("Deprecated")
    else if k == "removed" then Some("Removed")
    else if k == "fixed" then Some("Fixed")
    else if k == "security" then Some("Security")
    else None
  }

  /** The index of the last '.', or -1. */
  function LastDot(s: string): (k: int)
    ensures -1 <= k < |s|
  {
    if s == "" then -1 else if s[|s| - 1] == '.' then |s| - 1 else LastDot(s[..|s| - 1])
  }

  predicate IsAlnum(c: char) {
    '0' <= c <= '9' || 'a' <= LowerChar(c) <= 'z'
  }

  /** A regular expression ending in `$` also accepts one newline at the very end. */
  function BeforeFinalNewline(s: string): string {
    if s != "" && s[|s| - 1] == '\n' then s[..|s| - 1] else s
  }

  predicate IsSlug(slug: string) {
    var s := BeforeFinalNewline(slug);
    s != "" && IsAlnum(s[0]) && forall i | 1 <= i < |s| :: IsAlnum(s[i]) || s[i] in "._-"
  }

  predicate EndsInMd(name: string) {
    |name| >= 3 && name[|name| - 3..] == ".md"
  }

  /** `parse_fragment`: the checks in the order the script makes them. */
  function ParseFragment(e: Entry): Lint {
    if !EndsInMd(e.name) then NotMarkdown
    else
      var stem := e.name[..|e.name| - 3];
      var dot := LastDot(stem);
      if dot <= 0 then NoSlug
      else
        var section := SectionOf(stem[dot + 1..]);
        var body := Strip(e.content);
        if section.None? then UnknownType
        else if !IsSlug(stem[..dot]) then BadSlug
        else if body == "" then Empty
        else if IsBullet(body) then Marker
        else Clean(section.value, body)
  }

  // ---- The directory ----

  /** Files that are read and, after a cut, removed. */
  predicate Considered(e: Entry) {
    !(e.name != "" && e.name[0] == '.') && e.name != "README.md" && !e.isDir
  }

  predicate LintsClean(entries: seq<Entry>) {
    entries == [] || ((Considered(entries[0]) ==> ParseFragment(entries[0]).Clean?) && LintsClean(entries[1..]))
  }

  /** The fragment bodies of a section, in listing order. */
  function BodiesOf(entries: seq<Entry>, s: string): seq<string> {
    if entries == [] then []
    else
      var p := ParseFragment(entries[0]);
      (if Considered(entries[0]) && p.Clean? && p.section == s then [p.body] else []) + BodiesOf(entries[1..], s)
  }

  function Grouping(entries: seq<Entry>, acc: Grouped): Grouped
    decreases |entries|
  {
    if entries == [] then acc
    else
      var p := ParseFragment(entries[0]);
      Grouping(entries[1..], if Considered(entries[0]) && p.Clean? then Extended(acc, p.section, [p.body]) else acc)
  }

  /** What `load_fragments` returns for a directory listing in filename order. */
  function Loaded(entries: seq<Entry>): Result<Grouped> {
    if LintsClean(entries) then Ok(Grouping(entries, map[])) else Err(BadFragments)
  }

  method LoadFragments(entries: seq<Entry>) returns (r: Result<Grouped>)
    ensures r == Loaded(entries)
  {
    var failed := false;
    var grouped: Grouped := map[];
    for i := 0 to |entries|
      invariant failed ==> !LintsClean(entries)
      invariant !failed ==> (LintsClean(entries) <==> LintsClean(entries[i..]))
      invariant Grouping(entries[i..], grouped) == Grouping(entries, map[])
    {
      assert entries[i..][1..] == entries[i + 1..];
      if Considered(entries[i]) {
        match ParseFragment(entries[i])
        case Clean(section, body) => grouped := Extended(grouped, section, [body]);
        case _ => failed := true;
      }
    }
    r := if failed then Err(BadFragments) else Ok(grouped);
  }

  // ---- What loading gives ----

  lemma {:induction false} GroupingGet(entries: seq<Entry>, acc: Grouped, s: string)
    ensures Get(Grouping(entries, acc), s) == Get(acc, s) + BodiesOf(entries, s)
    ensures s in Grouping(entries, acc) <==> s in acc || BodiesOf(entries, s) != []
  {
    if entries != [] {
      var p := ParseFragment(entries[0]);
      if Considered(entries[0]) && p.Clean? {
        GroupingGet(entries[1..], Extended(acc, p.section, [p.body]), s);
        if p.section == s {
          Reassociate(Get(acc, s), [p.body], BodiesOf(entries[1..], s));
        } else {
          assert [] + BodiesOf(entries[1..], s) == BodiesOf(entries[1..], s);
        }
      } else {
        GroupingGet(entries[1..], acc, s);
        assert [] + BodiesOf(entries[1..], s) == BodiesOf(entries[1..], s);
      }
    } else {
      assert Get(acc, s) + [] == Get(acc, s);
    }
  }

  lemma StrippedIsVisible(s: string)
    requires Strip(s) != ""
    ensures Visible(Strip(s))
  {
    var t := Strip(s);
    assert !IsSpace(t[|t| - 1]);
  }

  lemma {:induction false} BodiesAreVisible(entries: seq<Entry>, s: string)
    ensures All(Visible, BodiesOf(entries, s))
  {
    if entries != [] {
      BodiesAreVisible(entries[1..], s);
      var p := ParseFragment(entries[0]);
      if Considered(entries[0]) && p.Clean? && p.section == s {
        StrippedIsVisible(entries[0].content);
        assert ([p.body] + BodiesOf(entries[1..], s))[1..] == BodiesOf(entries[1..], s);
      } else {
        assert [] + BodiesOf(entries[1..], s) == BodiesOf(entries[1..], s);
      }
    }
  }

  lemma {:induction false} BodiesAreStandard(entries: seq<Entry>, s: string)
    requires BodiesOf(entries, s) != []
    ensures s in SECTIONS
  {
    var p := ParseFragment(entries[0]);
    if Considered(entries[0]) && p.Clean? && p.section == s {
    } else {
      BodiesAreStandard(entries[1..], s);
    }
  }

  /** The listing after every considered file was removed. */
  function Remaining(entries: seq<Entry>): seq<Entry> {
    if entries == [] then []
    else if Considered(entries[0]) then Remaining(entries[1..])
    else [entries[0]] + Remaining(entries[1..])
  }

  lemma {:induction false} RemainingHasNoFragments(entries: seq<Entry>, acc: Grouped)
    ensures LintsClean(Remaining(entries)) && Grouping(Remaining(entries), acc) == acc
    ensures forall e :: e in Remaining(entries) <==> e in entries && !Considered(e)
  {
    if entries != [] {
      RemainingHasNoFragments(entries[1..], acc);
      if !Considered(entries[0]) {
        assert ([entries[0]] + Remaining(entries[1..]))[1..] == Remaining(entries[1..]);
      }
    }
  }
}
