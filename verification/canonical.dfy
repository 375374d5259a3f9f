/** Exactly which section maps survive printing and parsing unchanged, and what the others turn into. */
module Canonical {
  import opened Text
  import opened Sections
  import opened Trimming
  import opened Conservation
  import opened RoundTrip

  predicate NoTrailingSpace(line: string) {
    line == "" || !IsSpace(line[|line| - 1])
  }

  predicate NoTrailingSpaces(ls: seq<string>) {
    forall i | 0 <= i < |ls| :: NoTrailingSpace(ls[i])
  }

  /** A bullet that starts and ends on a non-empty line and has no white space at the end of any line. */
  predicate WellFormed(body: string) {
    body != "" && body[0] != '\n' && body[|body| - 1] != '\n' && NoTrailingSpaces(Lines(body))
  }

  // ---- Well-formed bullets are the fixed points of tidying ----

  lemma RstripUnchanged(line: string)
    ensures Rstrip(line) == line <==> NoTrailingSpace(line)
    ensures NoTrailingSpace(Rstrip(line))
  {
  }

  lemma {:induction false} RstripAllUnchanged(ls: seq<string>)
    requires NoTrailingSpaces(ls)
    ensures RstripAll(ls) == ls
  {
    if ls != [] {
      assert NoTrailingSpace(ls[0]);
      RstripUnchanged(ls[0]);
      RstripAllUnchanged(ls[1..]);
    }
  }

  lemma {:induction false} RstripAllTidy(ls: seq<string>)
    requires OneLiners(ls)
    ensures NoTrailingSpaces(RstripAll(ls)) && OneLiners(RstripAll(ls))
  {
    if ls != [] {
      assert OneLine(ls[0]);
      RstripUnchanged(ls[0]);
      RstripAllTidy(ls[1..]);
    }
  }

  /** Tidying never adds characters, and removes none only if there is nothing to tidy. */
  lemma {:induction false} RstripAllShortens(ls: seq<string>)
    ensures |Join(RstripAll(ls))| <= |Join(ls)|
    ensures |Join(RstripAll(ls))| == |Join(ls)| ==> NoTrailingSpaces(ls)
  {
    if ls != [] {
      RstripUnchanged(ls[0]);
      RstripAllShortens(ls[1..]);
      assert RstripAll(ls)[1..] == RstripAll(ls[1..]);
      if |Join(RstripAll(ls))| == |Join(ls)| {
        assert Rstrip(ls[0]) == ls[0];
        assert ls == [ls[0]] + ls[1..];
      }
    }
  }

  lemma WellFormedIsTidy(body: string)
    requires WellFormed(body)
    ensures Tidy(body) == body && !Blank(body) && StripNewlines(body) == body
  {
    var ls := Lines(body);
    RstripAllUnchanged(ls);
    JoinOfLines(body);
    JoinLast(ls);
    assert NoTrailingSpace(ls[|ls| - 1]);
  }

  lemma TidyIsWellFormed(body: string)
    requires body != "" && StripNewlines(Tidy(body)) == body
    ensures WellFormed(body)
  {
    var ls := Lines(body);
    var l := LstripNewlines(Tidy(body));
    assert body[0] == l[0];
    JoinOfLines(body);
    RstripAllShortens(ls);
  }

  lemma KeptOne(item: string)
    ensures Kept([item]) == if Blank(item) then [] else [StripNewlines(item)]
  {
    assert [item][1..] == [];
  }

  lemma NormalOfOne(body: string)
    requires body != ""
    ensures Kept([Tidy(body)]) == [body] <==> WellFormed(body)
  {
    if WellFormed(body) {
      WellFormedIsTidy(body);
    }
    var kept := Kept([Tidy(body)]);
    KeptOne(Tidy(body));
    if kept == [body] {
      assert kept[0] == body;
      TidyIsWellFormed(body);
    }
  }

  lemma NormalCons(body: string, rest: seq<string>)
    ensures Normal([body] + rest) == Kept([Tidy(body)]) + Normal(rest)
    ensures |Kept([Tidy(body)])| <= 1
  {
    assert ([body] + rest)[1..] == rest;
    KeptAppend([Tidy(body)], TidyAll(rest));
  }

  lemma {:induction false} NormalShortens(bodies: seq<string>)
    ensures |Normal(bodies)| <= |bodies|
  {
    if bodies != [] {
      NormalCons(bodies[0], bodies[1..]);
      assert [bodies[0]] + bodies[1..] == bodies;
      NormalShortens(bodies[1..]);
    }
  }

  lemma {:induction false} WellFormedAreNormal(bodies: seq<string>)
    requires All(WellFormed, bodies)
    ensures Normal(bodies) == bodies
  {
    if bodies != [] {
      var b, rest := bodies[0], bodies[1..];
      assert [b] + rest == bodies;
      NormalCons(b, rest);
      NormalOfOne(b);
      WellFormedAreNormal(rest);
    }
  }

  lemma {:induction false} NormalAreWellFormed(bodies: seq<string>)
    requires Printable(bodies) && Normal(bodies) == bodies
    ensures All(WellFormed, bodies)
  {
    if bodies != [] {
      var b, rest := bodies[0], bodies[1..];
      assert [b] + rest == bodies;
      NormalCons(b, rest);
      NormalShortens(rest);
      var head := Kept([Tidy(b)]);
      assert |head| == 1 && head == [b] && Normal(rest) == rest by {
        assert |head| + |Normal(rest)| == 1 + |rest|;
        assert bodies == head + Normal(rest);
        assert bodies[1..] == Normal(rest);
      }
      NormalOfOne(b);
      NormalAreWellFormed(rest);
    }
  }

  ghost predicate IsCanonicalIn(g: Grouped, order: seq<string>) {
    forall s | s in g :: s in order && g[s] != [] && All(WellFormed, g[s])
  }

  /** The section maps that `render` and `parse_sections` carry over unchanged. */
  ghost predicate IsCanonical(g: Grouped) {
    IsCanonicalIn(g, SECTIONS)
  }

  lemma CanonicalMeaning(g: Grouped, order: seq<string>)
    requires IsCanonicalIn(g, order)
    ensures MeaningIn(g, order) == g
  {
    var m := MeaningIn(g, order);
    forall s | s in g
      ensures s in m && m[s] == g[s]
    {
      WellFormedAreNormal(g[s]);
    }
  }

  lemma UnchangedIsCanonical(g: Grouped, order: seq<string>)
    requires AllPrintable(g) && MeaningIn(g, order) == g
    ensures IsCanonicalIn(g, order)
  {
    forall s | s in g
      ensures s in order && g[s] != [] && All(WellFormed, g[s])
    {
      assert s in MeaningIn(g, order);
      NormalAreWellFormed(g[s]);
    }
  }

  /** Printing and parsing is the identity on exactly the canonical maps. */
  lemma RoundTripIff(g: Grouped)
    requires AllPrintable(g)
    ensures Parsed(Rendered(g)) == g <==> IsCanonical(g)
  {
    ParseOfRendered(g);
    if IsCanonicalIn(g, SECTIONS) {
      CanonicalMeaning(g, SECTIONS);
    }
    if MeaningIn(g, SECTIONS) == g {
      UnchangedIsCanonical(g, SECTIONS);
    }
  }

  // ---- Whatever is printed, what is read back is well-formed and has the same visible characters ----

  lemma {:induction false} DropEmptyTailTidy(ls: seq<string>)
    requires NoTrailingSpaces(ls)
    ensures NoTrailingSpaces(DropEmptyTail(ls))
  {
    if ls != [] && ls[|ls| - 1] == "" {
      DropEmptyTailTidy(ls[..|ls| - 1]);
    }
  }

  lemma {:induction false} DropEmptyHeadTidy(ls: seq<string>)
    requires NoTrailingSpaces(ls)
    ensures NoTrailingSpaces(DropEmptyHead(ls))
  {
    if ls != [] && ls[0] == "" {
      DropEmptyHeadTidy(ls[1..]);
    }
  }

  lemma {:induction false} InkBlank(s: string)
    ensures Ink(s) == "" <==> Blank(s)
  {
    if s != "" {
      InkBlank(s[1..]);
      assert Blank(s) <==> IsSpace(s[0]) && Blank(s[1..]);
    }
  }

  lemma StripNewlinesInk(s: string)
    ensures Ink(StripNewlines(s)) == Ink(s)
  {
    LstripNewlinesInk(s);
    RstripNewlinesInk(LstripNewlines(s));
  }

  lemma StripNewlinesNonblank(s: string)
    requires !Blank(s)
    ensures StripNewlines(s) != "" && StripNewlines(s)[0] != '\n'
    ensures StripNewlines(s)[|StripNewlines(s)| - 1] != '\n'
  {
    assert StripNewlines(s) != "" by {
      InkBlank(s);
      StripNewlinesInk(s);
    }
    var l := LstripNewlines(s);
    assert RstripNewlines(l)[0] == l[0];
  }

  lemma KeptLinesAreTidy(body: string)
    ensures NoTrailingSpaces(Lines(StripNewlines(Tidy(body))))
  {
    var ls := RstripAll(Lines(body));
    LinesAreOneLiners(body);
    RstripAllTidy(Lines(body));
    FlushedLines(ls);
    DropEmptyHeadTidy(ls);
    DropEmptyTailTidy(DropEmptyHead(ls));
  }

  lemma KeptIsWellFormed(body: string)
    ensures All(WellFormed, Kept([Tidy(body)]))
  {
    var tidy := Tidy(body);
    KeptOne(tidy);
    if !Blank(tidy) {
      KeptLinesAreTidy(body);
      StripNewlinesNonblank(tidy);
      var kept := StripNewlines(tidy);
      assert WellFormed(kept);
      assert [kept][1..] == [];
    }
  }

  lemma {:induction false} NormalIsWellFormed(bodies: seq<string>)
    ensures All(WellFormed, Normal(bodies))
  {
    if bodies != [] {
      NormalCons(bodies[0], bodies[1..]);
      assert [bodies[0]] + bodies[1..] == bodies;
      NormalIsWellFormed(bodies[1..]);
      KeptIsWellFormed(bodies[0]);
      AllAppend(WellFormed, Kept([Tidy(bodies[0])]), Normal(bodies[1..]));
    }
  }

  lemma {:induction false} RstripInk(s: string)
    ensures Ink(Rstrip(s)) == Ink(s)
  {
    if s != "" && IsSpace(s[|s| - 1]) {
      var front := s[..|s| - 1];
      RstripInk(front);
      InkAppend(front, s[|s| - 1..]);
      assert s == front + s[|s| - 1..];
    }
  }

  lemma JoinConsInk(l: string, ls: seq<string>)
    ensures Ink(Join([l] + ls)) == Ink(l) + Ink(Join(ls))
  {
    if ls == [] {
      assert [l] + ls == [l];
    } else {
      assert ([l] + ls)[1..] == ls;
      InkAppend(l, "\n");
      InkAppend(l + "\n", Join(ls));
    }
  }

  lemma {:induction false} RstripAllInk(ls: seq<string>)
    ensures Ink(Join(RstripAll(ls))) == Ink(Join(ls))
  {
    if ls != [] {
      RstripInk(ls[0]);
      RstripAllInk(ls[1..]);
      JoinConsInk(ls[0], ls[1..]);
      JoinConsInk(Rstrip(ls[0]), RstripAll(ls[1..]));
      assert [ls[0]] + ls[1..] == ls;
    }
  }

  lemma TidyInk(body: string)
    ensures Ink(Tidy(body)) == Ink(body)
  {
    if body != "" {
      var n := |body| - 1;
      JoinOfLines(body);
      RstripAllInk(Lines(body));
      if body[n] == '\n' {
        assert body == body[..n] + "\n";
        InkAppend(body[..n], "\n");
      }
    }
  }

  lemma {:induction false} TidyAllInk(bodies: seq<string>)
    ensures AllInk(TidyAll(bodies)) == AllInk(bodies)
  {
    if bodies != [] {
      TidyInk(bodies[0]);
      TidyAllInk(bodies[1..]);
    }
  }

  /** Printing and reading back keeps every visible character of a section, in order. */
  lemma NormalInk(bodies: seq<string>)
    ensures AllInk(Normal(bodies)) == AllInk(bodies)
  {
    KeptInk(TidyAll(bodies));
    TidyAllInk(bodies);
  }

  predicate Visible(body: string) {
    !Blank(body)
  }

  lemma TidyNotBlank(body: string)
    requires !Blank(body)
    ensures !Blank(Tidy(body))
  {
    TidyInk(body);
    InkBlank(body);
    InkBlank(Tidy(body));
  }

  /** The bodies as they are read back, one for one. */
  function Trimmed(bodies: seq<string>): (r: seq<string>)
    ensures |r| == |bodies|
  {
    if bodies == [] then [] else [StripNewlines(Tidy(bodies[0]))] + Trimmed(bodies[1..])
  }

  /** Without blank bodies each body is read back exactly once, in place. */
  lemma {:induction false} NormalOneByOne(bodies: seq<string>)
    requires All(Visible, bodies)
    ensures Normal(bodies) == Trimmed(bodies)
  {
    if bodies != [] {
      var b, rest := bodies[0], bodies[1..];
      assert [b] + rest == bodies;
      TidyNotBlank(b);
      NormalCons(b, rest);
      KeptOne(Tidy(b));
      NormalOneByOne(rest);
    }
  }

  lemma {:induction false} WellFormedArePrintable(bodies: seq<string>)
    requires All(WellFormed, bodies)
    ensures Printable(bodies)
  {
    if bodies != [] {
      WellFormedArePrintable(bodies[1..]);
    }
  }

  lemma NormalIsNormal(bodies: seq<string>)
    requires bodies != [] && All(Visible, bodies)
    ensures Normal(bodies) != [] && All(WellFormed, Normal(bodies)) && Printable(Normal(bodies))
  {
    NormalIsWellFormed(bodies);
    NormalOneByOne(bodies);
    WellFormedArePrintable(Normal(bodies));
  }

  /** No bullet is blank, as in everything the parser and the fragment loader return. */
  ghost predicate Readable(g: Grouped) {
    forall s | s in g :: All(Visible, g[s])
  }

  lemma MeaningIsCanonicalIn(g: Grouped, order: seq<string>)
    requires Readable(g)
    ensures IsCanonicalIn(MeaningIn(g, order), order) && AllPrintable(MeaningIn(g, order))
  {
    forall s | s in MeaningIn(g, order)
      ensures MeaningIn(g, order)[s] != [] && All(WellFormed, MeaningIn(g, order)[s])
      ensures Printable(MeaningIn(g, order)[s])
    {
      NormalIsNormal(g[s]);
    }
  }

  /** A second round trip changes nothing: what is read back is canonical. */
  lemma MeaningIsCanonical(g: Grouped)
    requires Readable(g)
    ensures IsCanonical(Meaning(g)) && AllPrintable(Meaning(g)) && Meaning(Meaning(g)) == Meaning(g)
  {
    MeaningIsCanonicalIn(g, SECTIONS);
    CanonicalMeaning(Meaning(g), SECTIONS);
  }
}
