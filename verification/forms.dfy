/** The small forms the changelog script reads and writes, each stated on its own: file names, section names, bullets and
    the layout of the printed text (scripts/changelog_fragments.py). */
module Forms {
  import opened Text
  import opened Sections
  import opened Conservation
  import opened RoundTrip
  import opened Canonical
  import opened Fragments

  // ---- Stripping ----

  lemma BlankCons(c: char, a: string)
    requires IsSpace(c) && Blank(a)
    ensures Blank([c] + a)
  {
  }

  lemma EmptyIsBlank()
    ensures Blank("")
  {
  }

  lemma {:induction false} LstripIs(s: string) returns (a: string)
    ensures s == a + Lstrip(s) && Blank(a)
  {
    hide Blank;
    if s != "" && IsSpace(s[0]) {
      var a' := LstripIs(s[1..]);
      a := [s[0]] + a';
      BlankCons(s[0], a');
      Reassociate([s[0]], a', Lstrip(s[1..]));
      assert s == [s[0]] + s[1..];
    } else {
      a := "";
      EmptyIsBlank();
      assert "" + s == s;
    }
  }

  lemma {:induction false} RstripIs(s: string)
    ensures Blank(s[|Rstrip(s)|..])
  {
    if s != "" && IsSpace(s[|s| - 1]) {
      var front := s[..|s| - 1];
      RstripIs(front);
      var k := |Rstrip(s)|;
      assert s[k..] == front[k..] + [s[|s| - 1]];
    }
  }

  lemma RstripSplits(s: string) returns (b: string)
    ensures s == Rstrip(s) + b && Blank(b)
  {
    hide Blank;
    RstripIs(s);
    b := s[|Rstrip(s)|..];
  }

  lemma RstripKeepsHead(s: string)
    requires s == "" || !IsSpace(s[0])
    ensures Rstrip(s) == "" || !IsSpace(Rstrip(s)[0])
  {
  }

  /** Stripping takes white space off both ends, and all of it. */
  lemma StripIs(s: string) returns (a: string, b: string)
    ensures s == a + Strip(s) + b && Blank(a) && Blank(b)
    ensures Strip(s) == "" || (!IsSpace(Strip(s)[0]) && !IsSpace(Strip(s)[|Strip(s)| - 1]))
  {
    hide Blank, Lstrip, Rstrip;
    a := LstripIs(s);
    b := RstripSplits(Lstrip(s));
    Reassociate(a, Strip(s), b);
    RstripKeepsHead(Lstrip(s));
  }

  // ---- Fragment files ----

  lemma LowerIs(a: string, b: string)
    requires |a| == |b| && forall i | 0 <= i < |a| :: LowerChar(a[i]) == b[i]
    ensures Lower(a) == b
  {
    LowerAt(a);
  }

  lemma LowerOfOne(s: string)
    requires s == "Added" || s == "Changed" || s == "Fixed"
    ensures Lower(s) == if s == "Added" then "added" else if s == "Changed" then "changed" else "fixed"
  {
    if s == "Added" {
      LowerIs(s, "added");
    } else if s == "Changed" {
      LowerIs(s, "changed");
    } else {
      LowerIs(s, "fixed");
    }
  }

  lemma LowerOfOther(s: string)
    requires s == "Deprecated" || s == "Removed" || s == "Security"
    ensures Lower(s) == if s == "Deprecated" then "deprecated" else if s == "Removed" then "removed" else "security"
  {
    if s == "Deprecated" {
      LowerIs(s, "deprecated");
    } else if s == "Removed" {
      LowerIs(s, "removed");
    } else {
      LowerIs(s, "security");
    }
  }

  lemma OneIsSection(s: string)
    requires s == "Added" || s == "Changed" || s == "Fixed"
    ensures SectionOf(s) == Some(s)
  {
    hide Lower;
    LowerOfOne(s);
  }

  lemma OtherIsSection(s: string)
    requires s == "Deprecated" || s == "Removed" || s == "Security"
    ensures SectionOf(s) == Some(s)
  {
    hide Lower;
    LowerOfOther(s);
  }

  lemma SectionIsOne(s: string)
    requires s in SECTIONS
    ensures s == "Added" || s == "Changed" || s == "Fixed" || s == "Deprecated" || s == "Removed" || s == "Security"
  {
  }

  lemma LowerOfSection(s: string)
    requires s in SECTIONS
    ensures SectionOf(s) == Some(s)
  {
    hide Lower, SectionOf, SECTIONS;
    SectionIsOne(s);
    if s == "Added" || s == "Changed" || s == "Fixed" {
      OneIsSection(s);
    } else {
      OtherIsSection(s);
    }
  }

  lemma SectionOfLower(kind: string, kind': string)
    requires Lower(kind) == Lower(kind')
    ensures SectionOf(kind) == SectionOf(kind')
  {
    hide Lower;
  }

  lemma SectionHasName(kind: string)
    requires SectionOf(kind).Some?
    ensures SectionOf(kind).value in SECTIONS && Lower(SectionOf(kind).value) == Lower(kind)
  {
    hide Lower;
    var k := Lower(kind);
    if k == "added" || k == "changed" || k == "fixed" {
      LowerOfOne(SectionOf(kind).value);
    } else {
      LowerOfOther(SectionOf(kind).value);
    }
  }

  /** A type names the section that is the same up to case. */
  lemma SectionOfIs(kind: string, s: string)
    ensures SectionOf(kind) == Some(s) <==> s in SECTIONS && Lower(kind) == Lower(s)
  {
    hide SectionOf, Lower, SECTIONS;
    if SectionOf(kind) == Some(s) {
      SectionHasName(kind);
    }
    if s in SECTIONS && Lower(kind) == Lower(s) {
      LowerOfSection(s);
      SectionOfLower(kind, s);
    }
  }

  /** All entries count but hidden ones, the README and directories. */
  lemma ConsideredIs(e: Entry)
    ensures Considered(e) <==> !("." <= e.name) && e.name != "README.md" && !e.isDir
  {
  }

  lemma {:induction false} LastDotIs(s: string)
    ensures LastDot(s) >= 0 ==> s[LastDot(s)] == '.'
    ensures forall j | LastDot(s) < j < |s| :: s[j] != '.'
  {
    if s != "" && s[|s| - 1] != '.' {
      var front := s[..|s| - 1];
      LastDotIs(front);
      assert forall j | 0 <= j < |front| :: s[j] == front[j];
    }
  }

  lemma LastDotOf(s: string, i: nat)
    requires i < |s| && s[i] == '.' && forall j | i < j < |s| :: s[j] != '.'
    ensures LastDot(s) == i
  {
    LastDotIs(s);
  }

  predicate LetterOrDigit(c: char) {
    'a' <= c <= 'z' || 'A' <= c <= 'Z' || '0' <= c <= '9'
  }

  predicate IsCore(core: string) {
    && core != "" && LetterOrDigit(core[0])
    && forall i | 1 <= i < |core| :: LetterOrDigit(core[i]) || core[i] == '.' || core[i] == '_' || core[i] == '-'
  }

  lemma Punctuation(c: char)
    ensures c in "._-" <==> c == '.' || c == '_' || c == '-'
  {
    var p := "._-";
    assert p[0] == '.' && p[1] == '_' && p[2] == '-';
  }

  /** A slug starts with a letter or a digit and goes on with letters, digits, dots, underscores and hyphens; one newline at
      its end is accepted. */
  lemma SlugIs(slug: string)
    ensures IsSlug(slug) <==> exists core :: (slug == core || slug == core + "\n") && IsCore(core)
  {
    var core := BeforeFinalNewline(slug);
    forall c: char
      ensures IsAlnum(c) <==> LetterOrDigit(c)
      ensures c in "._-" <==> c == '.' || c == '_' || c == '-'
    {
      Punctuation(c);
    }
    assert IsSlug(slug) <==> IsCore(core);
    assert slug == core || slug == core + "\n";
    if c :| (slug == c || slug == c + "\n") && IsCore(c) {
      assert c[|c| - 1] != '\n';
      assert core == c;
    }
  }

  /** The name of a fragment file. */
  predicate Named(name: string, slug: string, kind: string) {
    name == slug + "." + kind + ".md" && slug != "" && '.' !in kind
  }

  lemma NameParts(e: Entry, slug: string, kind: string)
    requires Named(e.name, slug, kind)
    ensures EndsInMd(e.name)
    ensures var stem := e.name[..|e.name| - 3];
      LastDot(stem) == |slug| && stem[..|slug|] == slug && stem[|slug| + 1..] == kind
  {
    var stem := slug + "." + kind;
    assert forall j | |slug| < j < |stem| :: stem[j] == kind[j - |slug| - 1];
    LastDotOf(stem, |slug|);
    assert e.name[..|e.name| - 3] == stem && stem[..|slug|] == slug && stem[|slug| + 1..] == kind;
  }

  lemma NameIs(name: string) returns (slug: string, kind: string)
    requires EndsInMd(name) && LastDot(name[..|name| - 3]) > 0
    ensures Named(name, slug, kind)
    ensures var stem := name[..|name| - 3]; slug == stem[..LastDot(stem)] && kind == stem[LastDot(stem) + 1..]
  {
    var stem := name[..|name| - 3];
    LastDotIs(stem);
    var d := LastDot(stem);
    slug, kind := stem[..d], stem[d + 1..];
    assert stem == slug + "." + kind;
    assert forall j | 0 <= j < |kind| :: kind[j] == stem[d + 1 + j];
    assert name == stem + name[|name| - 3..];
  }

  lemma BulletIs(line: string)
    ensures IsBullet(line) <==> "- " <= line
  {
  }

  lemma SlugNonempty(name: string, slug: string, kind: string)
    requires Named(name, slug, kind)
    ensures |slug| > 0
  {
  }

  /** A file is a clean fragment of section s with the given body if and only if its name is SLUG.TYPE.md, the type names s up
      to case, the slug is well-formed, and the body is its stripped text, which is not empty and no bullet. */
  lemma FragmentIs(e: Entry, s: string, body: string)
    ensures ParseFragment(e) == Clean(s, body) <==>
      exists slug, kind :: Named(e.name, slug, kind) && s in SECTIONS && Lower(kind) == Lower(s) && IsSlug(slug)
        && body == Strip(e.content) && body != "" && !("- " <= body)
  {
    hide SECTIONS, Lower, SectionOf, LastDot, EndsInMd, IsSlug, Strip, Named;
    BulletIs(Strip(e.content));
    if ParseFragment(e) == Clean(s, body) {
      var slug, kind := NameIs(e.name);
      SectionOfIs(kind, s);
      assert Named(e.name, slug, kind);
    }
    if slug, kind :| (
      && Named(e.name, slug, kind) && s in SECTIONS && Lower(kind) == Lower(s) && IsSlug(slug)
      && body == Strip(e.content) && body != "" && !("- " <= body))
    {
      NameParts(e, slug, kind);
      SlugNonempty(e.name, slug, kind);
      SectionOfIs(kind, s);
    }
  }

  lemma NoBodies(s: string)
    ensures BodiesOf([], s) == []
  {
  }

  lemma BodiesNext(e: Entry, rest: seq<Entry>, s: string)
    ensures BodiesOf([e] + rest, s)
         == (if Considered(e) && ParseFragment(e).Clean? && ParseFragment(e).section == s then [ParseFragment(e).body] else [])
          + BodiesOf(rest, s)
  {
    assert ([e] + rest)[1..] == rest;
  }

  lemma {:induction false} BodiesAppend(a: seq<Entry>, b: seq<Entry>, s: string)
    ensures BodiesOf(a + b, s) == BodiesOf(a, s) + BodiesOf(b, s)
  {
    hide BodiesOf, Considered, ParseFragment;
    NoBodies(s);
    if a == [] {
      assert a + b == b;
    } else {
      BodiesAppend(a[1..], b, s);
      BodiesNext(a[0], a[1..], s);
      BodiesNext(a[0], a[1..] + b, s);
      assert [a[0]] + a[1..] == a && [a[0]] + (a[1..] + b) == a + b;
    }
  }

  /** The bodies of a section come in the order of the files, one for each clean fragment of that section. */
  lemma BodiesInOrder(a: seq<Entry>, e: Entry, b: seq<Entry>, s: string)
    ensures BodiesOf(a + [e] + b, s)
         == BodiesOf(a, s)
          + (if Considered(e) && ParseFragment(e).Clean? && ParseFragment(e).section == s then [ParseFragment(e).body] else [])
          + BodiesOf(b, s)
  {
    hide BodiesOf, Considered, ParseFragment;
    BodiesAppend(a + [e], b, s);
    BodiesAppend(a, [e], s);
    BodiesNext(e, [], s);
    NoBodies(s);
    assert [e] + [] == [e];
  }

  // ---- Lines of a changelog ----

  lemma IndentIs(line: string)
    ensures IsIndented(line) <==> "  " <= line
  {
  }

  /** A section header is `### ` with something behind it, and its name is that without white space at its ends. */
  lemma HeaderIs(line: string, s: string)
    ensures Header(line) == Some(s) <==> "### " <= line && |line| > 4 && s == Strip(line[4..])
  {
    var m := "### ";
    assert m <= line <==> |line| >= 4 && line[0] == '#' && line[1] == '#' && line[2] == '#' && line[3] == ' ';
  }

  predicate NoBullet(line: string) {
    !IsBullet(line)
  }

  /** What the lines behind the first one add to an item. */
  function Continued(lines: seq<string>): string {
    if lines == [] then ""
    else "\n" + (if "  " <= lines[0] then lines[0][2..] else lines[0]) + Continued(lines[1..])
  }

  lemma {:induction false} ItemGoesOn(lines: seq<string>, items: seq<string>, last: string)
    requires All(NoBullet, lines)
    ensures Items(lines, items + [last]) == items + [last + Continued(lines)]
  {
    hide IsBullet, IsIndented;
    if lines == [] {
      assert last + "" == last;
    } else {
      AddToLast(items, last, lines[0]);
      IndentIs(lines[0]);
      var more := "\n" + (if "  " <= lines[0] then lines[0][2..] else lines[0]);
      Reassociate(last, "\n", if "  " <= lines[0] then lines[0][2..] else lines[0]);
      ItemGoesOn(lines[1..], items, last + more);
      Reassociate(last, more, Continued(lines[1..]));
    }
  }

  /** A bullet line starts an item, to which all lines up to the next bullet line belong, without their indentation. */
  lemma BulletStartsItem(line: string, rest: seq<string>, items: seq<string>)
    requires "- " <= line && All(NoBullet, rest)
    ensures Items([line] + rest, items) == items + [line[2..] + Continued(rest)]
  {
    hide Continued;
    BulletIs(line);
    assert ([line] + rest)[1..] == rest;
    ItemGoesOn(rest, items, line[2..]);
  }

  /** Text in front of the first bullet line is an item of its own; blank lines in front of it are skipped. */
  lemma TextStartsItem(line: string, rest: seq<string>)
    requires !("- " <= line) && All(NoBullet, rest)
    ensures Items([line] + rest, []) == if Blank(line) then Items(rest, []) else [line + Continued(rest)]
  {
    hide Continued, Blank;
    BulletIs(line);
    assert ([line] + rest)[1..] == rest;
    if !Blank(line) {
      ItemGoesOn(rest, [], line);
      assert [] + [line] == [line] && [] + [line + Continued(rest)] == [line + Continued(rest)];
    }
  }

  lemma AddBehind(a: seq<string>, b: seq<string>, line: string)
    requires b != []
    ensures AddLine(a + b, line) == a + AddLine(b, line) && AddLine(b, line) != []
  {
    hide Blank;
    if IsBullet(line) {
      Reassociate(a, b, [line[2..]]);
    } else {
      var n := |b| - 1;
      assert (a + b)[..|a + b| - 1] == a + b[..n];
      Reassociate(a, b[..n], [b[n] + "\n" + (if IsIndented(line) then line[2..] else line)]);
    }
  }

  lemma {:induction false} ItemsStayInFront(lines: seq<string>, a: seq<string>, b: seq<string>)
    requires b != []
    ensures Items(lines, a + b) == a + Items(lines, b)
    decreases |lines|
  {
    if lines != [] {
      AddBehind(a, b, lines[0]);
      ItemsStayInFront(lines[1..], a, AddLine(b, lines[0]));
    }
  }

  lemma StartsAnew(line: string, rest: seq<string>, acc: seq<string>)
    requires IsBullet(line)
    ensures Items([line] + rest, acc) == acc + Items([line] + rest, [])
  {
    assert ([line] + rest)[1..] == rest;
    ItemsStayInFront(rest, acc, [line[2..]]);
    assert [] + [line[2..]] == [line[2..]];
  }

  /** So the lines of a section fall apart into items at the bullet lines. */
  lemma ItemsFallApart(front: seq<string>, line: string, rest: seq<string>)
    requires "- " <= line
    ensures Items(front + ([line] + rest), []) == Items(front, []) + Items([line] + rest, [])
  {
    hide Items;
    BulletIs(line);
    ItemsAppend(front, [line] + rest, []);
    StartsAnew(line, rest, Items(front, []));
  }

  // ---- The printed text ----

  /** The lines behind the first one of a bullet: indented, or empty if they are blank. */
  function Indented(lines: seq<string>): string {
    if lines == [] then ""
    else "\n" + (if Blank(lines[0]) then "" else "  " + Rstrip(lines[0])) + Indented(lines[1..])
  }

  lemma ContinuationIs(line: string)
    ensures Continuation(line) == if Blank(line) then "" else "  " + Rstrip(line)
  {
    RstripInk(line);
    InkBlank(line);
    InkBlank(Rstrip(line));
    ContinuationText(line);
    assert Rstrip(line) == "" <==> Blank(line);
  }

  lemma {:induction false} IndentedJoin(first: string, lines: seq<string>)
    ensures Join([first] + Continuations(lines)) == first + Indented(lines)
    decreases |lines|
  {
    hide Continuation, Blank;
    if lines == [] {
      assert [first] + [] == [first];
    } else {
      var c := Continuation(lines[0]);
      IndentedJoin(c, lines[1..]);
      JoinCons(first, [c] + Continuations(lines[1..]));
      ContinuationIs(lines[0]);
      Reassociate(first, "\n", c + Indented(lines[1..]));
      Reassociate("\n", c, Indented(lines[1..]));
    }
  }

  /** A bullet: the marker, the first line, and the other lines indented by two, all without white space at their ends. */
  lemma BulletText(body: string)
    requires body != ""
    ensures Join(BulletLines(body)) == "- " + Rstrip(Lines(body)[0]) + Indented(Lines(body)[1..])
  {
    IndentedJoin("- " + Rstrip(Lines(body)[0]), Lines(body)[1..]);
  }

  lemma {:induction false} BulletsAre(bodies: seq<string>)
    requires Printable(bodies)
    ensures forall i | 0 <= i < |bodies| :: Bullets(bodies)[i] == Join(BulletLines(bodies[i]))
  {
    hide Join, BulletLines;
    if bodies != [] {
      BulletsAre(bodies[1..]);
      assert forall i | 1 <= i < |bodies| :: bodies[i] == bodies[1..][i - 1];
    }
  }

  /** A section: its header and its bullets, one below the other. */
  lemma SectionText(g: Grouped, s: string)
    requires AllPrintable(g)
    ensures s in g && g[s] != [] ==> RenderedIn(g, [s]) == "### " + s + "\n" + Join(Bullets(g[s]))
    ensures s !in g ==> RenderedIn(g, [s]) == ""
    ensures s in g ==> forall i | 0 <= i < |g[s]| :: Bullets(g[s])[i] == Join(BulletLines(g[s][i]))
  {
    hide Join, BulletLines, Bullets;
    var none: seq<string> := [];
    assert [s][1..] == none && Present(g, none) == none;
    if s in g {
      BulletsAre(g[s]);
      assert [s] + none == [s];
      assert Present(g, [s]) == [s] && Blocks(g, [s]) == [Sections.Block(s, g[s])];
    } else {
      assert Present(g, [s]) == none;
    }
  }

  lemma {:induction false} PresentAppend(g: Grouped, a: seq<string>, b: seq<string>)
    ensures Present(g, a + b) == Present(g, a) + Present(g, b)
  {
    if a == [] {
      assert a + b == b;
    } else {
      PresentAppend(g, a[1..], b);
      assert (a + b)[1..] == a[1..] + b;
    }
  }

  lemma {:induction false} BlocksAppend(g: Grouped, a: seq<string>, b: seq<string>)
    requires AllPrintable(g) && AllIn(a, g) && AllIn(b, g)
    ensures AllIn(a + b, g) && Blocks(g, a + b) == Blocks(g, a) + Blocks(g, b)
  {
    hide Sections.Block;
    if a == [] {
      assert a + b == b;
    } else {
      BlocksAppend(g, a[1..], b);
      assert (a + b)[1..] == a[1..] + b;
    }
  }

  lemma {:induction false} JoinBlocksAppend(a: seq<string>, b: seq<string>)
    requires a != [] && b != []
    ensures JoinBlocks(a + b) == JoinBlocks(a) + "\n\n" + JoinBlocks(b)
  {
    if |a| == 1 {
      assert (a + b)[1..] == b;
    } else {
      JoinBlocksAppend(a[1..], b);
      assert (a + b)[1..] == a[1..] + b;
      Reassociate(a[0] + "\n\n", JoinBlocks(a[1..]), "\n\n" + JoinBlocks(b));
    }
  }

  /** Sections are printed in the given order, with one blank line between them. */
  lemma SectionsInOrder(g: Grouped, a: seq<string>, b: seq<string>)
    requires AllPrintable(g)
    ensures RenderedIn(g, a + b)
         == if Present(g, a) == [] then RenderedIn(g, b)
            else if Present(g, b) == [] then RenderedIn(g, a)
            else RenderedIn(g, a) + "\n\n" + RenderedIn(g, b)
    ensures Rendered(g) == RenderedIn(g, ["Added", "Changed", "Deprecated", "Removed", "Fixed", "Security"])
  {
    hide Blocks, JoinBlocks, Present, AllIn;
    PresentAppend(g, a, b);
    BlocksAppend(g, Present(g, a), Present(g, b));
    if Present(g, a) == [] {
      assert Present(g, a) + Present(g, b) == Present(g, b);
    } else if Present(g, b) == [] {
      assert Present(g, a) + Present(g, b) == Present(g, a);
    } else {
      JoinBlocksAppend(Blocks(g, Present(g, a)), Blocks(g, Present(g, b)));
    }
  }

  // ---- The directory and the frame ----

  /** Loading succeeds if and only if every entry that counts is a clean fragment. */
  lemma {:induction false} LintsAre(entries: seq<Entry>)
    ensures LintsClean(entries) <==> forall e | e in entries && Considered(e) :: ParseFragment(e).Clean?
  {
    hide Considered, ParseFragment;
    if entries != [] {
      LintsAre(entries[1..]);
      assert forall e :: e in entries <==> e == entries[0] || e in entries[1..];
    }
  }
}
