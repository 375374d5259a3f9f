/** `parse_sections` reads back what `render` prints. */
module RoundTrip {
  import opened Text
  import opened Sections
  import opened Trimming

  // ---- What a printed bullet becomes when it is read back ----

  function RstripAll(ls: seq<string>): (r: seq<string>)
    ensures |r| == |ls|
  {
    if ls == [] then [] else [Rstrip(ls[0])] + RstripAll(ls[1..])
  }

  /** The body with white space removed from the end of every line. */
  function Tidy(body: string): string {
    Join(RstripAll(Lines(body)))
  }

  function TidyAll(bodies: seq<string>): (r: seq<string>)
    ensures |r| == |bodies|
  {
    if bodies == [] then [] else [Tidy(bodies[0])] + TidyAll(bodies[1..])
  }

  lemma ContinuationText(line: string)
    ensures var r := Rstrip(line); Continuation(line) == if r == "" then "" else "  " + r
  {
    var r := Rstrip(line);
    if r == "" {
      assert Rstrip("  ") == Rstrip(" ") == "";
    } else {
      assert ("  " + r)[|r| + 1] == r[|r| - 1];
    }
  }

  lemma AddToLast(items: seq<string>, last: string, line: string)
    requires !IsBullet(line)
    ensures AddLine(items + [last], line) == items + [last + "\n" + (if IsIndented(line) then line[2..] else line)]
  {
    var all := items + [last];
    assert all != [] && all[..|items|] == items && all[|items|] == last;
  }

  lemma AddContinuation(items: seq<string>, last: string, line: string)
    ensures AddLine(items + [last], Continuation(line)) == items + [last + "\n" + Rstrip(line)]
  {
    var c, r := Continuation(line), Rstrip(line);
    ContinuationText(line);
    assert c != "" ==> c[0] == ' ' && IsIndented(c) && c[2..] == r;
    assert c == "" ==> !IsIndented(c);
    AddToLast(items, last, c);
  }

  lemma {:induction false} ItemsAppend(a: seq<string>, b: seq<string>, acc: seq<string>)
    ensures Items(a + b, acc) == Items(b, Items(a, acc))
  {
    if a == [] {
      assert a + b == b;
    } else {
      ItemsAppend(a[1..], b, AddLine(acc, a[0]));
      assert (a + b)[1..] == a[1..] + b;
    }
  }

  lemma {:induction false} ItemsContinuations(ls: seq<string>, acc: seq<string>, done: seq<string>)
    requires done != []
    ensures Items(Continuations(ls), acc + [Join(done)]) == acc + [Join(done + RstripAll(ls))]
  {
    if ls == [] {
      assert done + RstripAll(ls) == done;
    } else {
      var r := Rstrip(ls[0]);
      AddContinuation(acc, Join(done), ls[0]);
      JoinAppend(done, [r]);
      assert Continuations(ls)[1..] == Continuations(ls[1..]);
      ItemsContinuations(ls[1..], acc, done + [r]);
      Reassociate(done, [r], RstripAll(ls[1..]));
    }
  }

  lemma ItemsOfBullet(body: string, acc: seq<string>)
    requires body != ""
    ensures Items(BulletLines(body), acc) == acc + [Tidy(body)]
  {
    var ls := Lines(body);
    var first := "- " + Rstrip(ls[0]);
    assert first[2..] == Rstrip(ls[0]);
    assert BulletLines(body)[1..] == Continuations(ls[1..]);
    assert Join([Rstrip(ls[0])]) == Rstrip(ls[0]);
    ItemsContinuations(ls[1..], acc, [Rstrip(ls[0])]);
  }

  lemma {:induction false} ItemsOfBullets(bodies: seq<string>, acc: seq<string>)
    requires Printable(bodies)
    ensures Items(BulletsLines(bodies), acc) == acc + TidyAll(bodies)
  {
    if bodies != [] {
      var b := bodies[0];
      ItemsAppend(BulletLines(b), BulletsLines(bodies[1..]), acc);
      ItemsOfBullet(b, acc);
      ItemsOfBullets(bodies[1..], acc + [Tidy(b)]);
      Reassociate(acc, [Tidy(b)], TidyAll(bodies[1..]));
    }
  }

  // ---- Empty lines at the end of a section do not matter ----

  lemma {:induction false} StripNewlinesSnoc(t: string)
    ensures StripNewlines(t + "\n") == StripNewlines(t)
  {
    if t == "" {
      LstripNewline("");
      assert t + "\n" == "\n" + "";
    } else if t[0] == '\n' {
      StripNewlinesSnoc(t[1..]);
      assert (t + "\n")[1..] == t[1..] + "\n";
    } else {
      RstripNewline(t);
    }
  }

  lemma {:induction false} KeptAppend(a: seq<string>, b: seq<string>)
    ensures Kept(a + b) == Kept(a) + Kept(b)
  {
    if a == [] {
      assert a + b == b;
    } else {
      KeptAppend(a[1..], b);
      assert (a + b)[1..] == a[1..] + b;
      Reassociate(if Blank(a[0]) then [] else [StripNewlines(a[0])], Kept(a[1..]), Kept(b));
    }
  }

  lemma KeptNewline(items: seq<string>, last: string)
    ensures Kept(items + [last + "\n"]) == Kept(items + [last])
  {
    KeptAppend(items, [last + "\n"]);
    KeptAppend(items, [last]);
    StripNewlinesSnoc(last);
    assert Blank(last + "\n") <==> Blank(last) by {
      if Blank(last + "\n") {
        assert forall i | 0 <= i < |last| :: last[i] == (last + "\n")[i];
      }
    }
  }

  lemma KeptEmptyLine(items: seq<string>)
    requires items != []
    ensures Kept(AddLine(items, "")) == Kept(items)
  {
    var n := |items| - 1;
    KeptNewline(items[..n], items[n]);
    assert items == items[..n] + [items[n]];
    assert items[n] + "\n" + "" == items[n] + "\n";
  }

  lemma {:induction false} ItemsNonempty(lines: seq<string>, acc: seq<string>)
    requires acc != []
    ensures Items(lines, acc) != []
  {
    if lines != [] {
      ItemsNonempty(lines[1..], AddLine(acc, lines[0]));
    }
  }

  lemma KeptSnocEmpty(front: seq<string>)
    requires front != [] && IsBullet(front[0])
    ensures Kept(Items(front + [""], [])) == Kept(Items(front, []))
  {
    ItemsAppend(front, [""], []);
    ItemsNonempty(front[1..], AddLine([], front[0]));
    KeptEmptyLine(Items(front, []));
  }

  lemma {:induction false} KeptWithoutTail(lines: seq<string>)
    requires lines != [] && IsBullet(lines[0])
    ensures Kept(Items(DropEmptyTail(lines), [])) == Kept(Items(lines, []))
    ensures DropEmptyTail(lines) != [] && DropEmptyTail(lines)[0] == lines[0]
  {
    var n := |lines| - 1;
    if lines[n] == "" {
      var front := lines[..n];
      assert lines == front + [""] && front[0] == lines[0];
      KeptWithoutTail(front);
      KeptSnocEmpty(front);
    }
  }

  lemma StripJoinTail(buf: seq<string>)
    ensures StripNewlines(Join(buf + [""])) == StripNewlines(Join(buf))
  {
    JoinLast(buf + [""]);
    if buf != [] {
      assert (buf + [""])[..|buf|] == buf;
      StripNewlinesSnoc(Join(buf));
    }
  }

  lemma FlushedTail(current: Option<string>, buf: seq<string>, g: Grouped)
    ensures Flushed(current, buf + [""], g) == Flushed(current, buf, g)
  {
    StripJoinTail(buf);
  }

  lemma {:induction false} ScanTail(lines: seq<string>, current: Option<string>, buf: seq<string>, g: Grouped)
    ensures Scan(lines + [""], current, buf, g) == Scan(lines, current, buf, g)
    decreases |lines|
  {
    if lines == [] {
      FlushedTail(current, buf, g);
      assert (lines + [""])[1..] == [];
    } else {
      assert (lines + [""])[1..] == lines[1..] + [""];
      var h := Header(lines[0]);
      if h.Some? {
        ScanTail(lines[1..], h, [], Flushed(current, buf, g));
      } else {
        ScanTail(lines[1..], current, buf + [lines[0]], g);
      }
    }
  }

  // ---- One section ----

  /** What parsing a printed list of bullets gives: tidied, without surrounding empty lines, blank ones dropped. */
  function Normal(bodies: seq<string>): seq<string> {
    Kept(TidyAll(bodies))
  }

  /** The printed lines below a `### section` line. */
  function ContentLines(bodies: seq<string>): seq<string>
    requires Printable(bodies)
  {
    if bodies == [] then [""] else BulletsLines(bodies)
  }

  /** A printed line that belongs to a bullet. */
  predicate Plain(line: string) {
    OneLine(line) && (line == "" || line[0] != '#')
  }

  lemma {:induction false} PlainAreOneLiners(ls: seq<string>)
    requires All(Plain, ls)
    ensures OneLiners(ls)
  {
    if ls != [] {
      PlainAreOneLiners(ls[1..]);
    }
  }

  lemma FirstBulletLine(line: string)
    requires OneLine(line)
    ensures Plain("- " + Rstrip(line))
  {
    assert ("- " + Rstrip(line))[0] == '-';
  }

  lemma ContinuationIsPlain(line: string)
    requires OneLine(line)
    ensures Plain(Continuation(line))
  {
    ContinuationText(line);
    assert Rstrip(line) != "" ==> Continuation(line)[0] == ' ';
  }

  lemma {:induction false} ContinuationsArePlain(ls: seq<string>)
    requires OneLiners(ls)
    ensures All(Plain, Continuations(ls))
  {
    if ls != [] {
      assert OneLine(ls[0]);
      ContinuationIsPlain(ls[0]);
      ContinuationsArePlain(ls[1..]);
      assert Continuations(ls)[1..] == Continuations(ls[1..]);
    }
  }

  lemma BulletIsPlain(body: string)
    requires body != ""
    ensures All(Plain, BulletLines(body))
  {
    var ls := Lines(body);
    LinesAreOneLiners(body);
    assert OneLine(ls[0]);
    FirstBulletLine(ls[0]);
    ContinuationsArePlain(ls[1..]);
    assert BulletLines(body)[1..] == Continuations(ls[1..]);
  }

  lemma {:induction false} BulletsArePlain(bodies: seq<string>)
    requires Printable(bodies)
    ensures All(Plain, BulletsLines(bodies))
    ensures bodies != [] ==> BulletsLines(bodies) != [] && IsBullet(BulletsLines(bodies)[0])
  {
    if bodies != [] {
      BulletIsPlain(bodies[0]);
      BulletsArePlain(bodies[1..]);
      AllAppend(Plain, BulletLines(bodies[0]), BulletsLines(bodies[1..]));
    }
  }

  lemma ContentIsPlain(bodies: seq<string>)
    requires Printable(bodies)
    ensures All(Plain, ContentLines(bodies)) && OneLiners(ContentLines(bodies))
  {
    BulletsArePlain(bodies);
    assert Plain("");
    PlainAreOneLiners(ContentLines(bodies));
  }

  lemma {:induction false} ScanPlain(xs: seq<string>, ys: seq<string>, current: Option<string>, buf: seq<string>,
                                     g: Grouped)
    requires All(Plain, xs)
    ensures Scan(xs + ys, current, buf, g) == Scan(ys, current, buf + xs, g)
  {
    if xs == [] {
      assert xs + ys == ys && buf + xs == buf;
    } else {
      assert (xs + ys)[1..] == xs[1..] + ys;
      ScanPlain(xs[1..], ys, current, buf + [xs[0]], g);
      assert buf + [xs[0]] + xs[1..] == buf + xs;
    }
  }

  function AddOne(g: Grouped, section: string, bodies: seq<string>): Grouped {
    if bodies == [] then g else Extended(g, section, Normal(bodies))
  }

  lemma TextOfBullets(buf: seq<string>)
    requires OneLiners(buf) && buf != [] && IsBullet(buf[0])
    ensures !Blank(StripNewlines(Join(buf)))
    ensures BulletsIn(StripNewlines(Join(buf))) == Kept(Items(buf, []))
  {
    FlushedLines(buf);
    assert DropEmptyHead(buf) == buf;
    KeptWithoutTail(buf);
    LstripJoin(buf);
    RstripJoin(buf);
    JoinFirst(DropEmptyTail(buf));
    assert StripNewlines(Join(buf))[0] == '-';
  }

  lemma FlushedText(section: string, buf: seq<string>, g: Grouped, bullets: seq<string>)
    requires !Blank(StripNewlines(Join(buf))) && BulletsIn(StripNewlines(Join(buf))) == bullets
    ensures Flushed(Some(section), buf, g) == Extended(g, section, bullets)
  {
  }

  lemma FlushContent(section: string, bodies: seq<string>, g: Grouped)
    requires Printable(bodies)
    ensures Flushed(Some(section), ContentLines(bodies), g) == AddOne(g, section, bodies)
  {
    if bodies == [] {
      assert Join([""]) == "";
    } else {
      var buf := BulletsLines(bodies);
      ContentIsPlain(bodies);
      BulletsArePlain(bodies);
      TextOfBullets(buf);
      ItemsOfBullets(bodies, []);
      assert [] + TidyAll(bodies) == TidyAll(bodies);
      FlushedText(section, buf, g, Normal(bodies));
    }
  }

  // ---- A whole rendered text ----

  function BlockLines(section: string, bodies: seq<string>): seq<string>
    requires Printable(bodies)
  {
    ["### " + section] + ContentLines(bodies)
  }

  function RenderedLines(g: Grouped, names: seq<string>): seq<string>
    requires AllPrintable(g) && AllIn(names, g)
  {
    if names == [] then []
    else
      var block := BlockLines(names[0], g[names[0]]);
      if |names| == 1 then block else block + ([""] + RenderedLines(g, names[1..]))
  }

  lemma {:induction false} BulletsText(bodies: seq<string>)
    requires Printable(bodies) && bodies != []
    ensures Join(Bullets(bodies)) == Join(BulletsLines(bodies)) && BulletsLines(bodies) != []
  {
    var first := BulletLines(bodies[0]);
    if |bodies| == 1 {
      assert BulletsLines(bodies) == first;
    } else {
      BulletsText(bodies[1..]);
      JoinAppend(first, BulletsLines(bodies[1..]));
    }
  }

  lemma BlockText(section: string, bodies: seq<string>)
    requires Printable(bodies)
    ensures Block(section, bodies) == Join(BlockLines(section, bodies))
  {
    JoinAppend(["### " + section], ContentLines(bodies));
    if bodies != [] {
      BulletsText(bodies);
    }
  }

  lemma BlankLineBetween(a: string, b: string)
    ensures a + "\n" + ("" + "\n" + b) == a + "\n\n" + b
  {
  }

  lemma BlockThen(block: seq<string>, rest: seq<string>)
    requires block != [] && rest != []
    ensures Join(block + ([""] + rest)) == Join(block) + "\n\n" + Join(rest)
  {
    JoinAppend([""], rest);
    JoinAppend(block, [""] + rest);
    BlankLineBetween(Join(block), Join(rest));
  }

  lemma {:induction false} RenderedText(g: Grouped, names: seq<string>)
    requires AllPrintable(g) && AllIn(names, g)
    ensures JoinBlocks(Blocks(g, names)) == Join(RenderedLines(g, names))
  {
    if names != [] {
      var block := BlockLines(names[0], g[names[0]]);
      BlockText(names[0], g[names[0]]);
      if |names| > 1 {
        RenderedText(g, names[1..]);
        BlockThen(block, RenderedLines(g, names[1..]));
        assert Blocks(g, names)[1..] == Blocks(g, names[1..]);
      }
    }
  }

  function AddAll(g: Grouped, names: seq<string>, acc: Grouped): Grouped
    requires AllIn(names, g)
  {
    if names == [] then acc else AddAll(g, names[1..], AddOne(acc, names[0], g[names[0]]))
  }

  /** A section name that a `### name` line carries unchanged. */
  predicate Name(s: string) {
    s != "" && OneLine(s) && !IsSpace(s[0]) && !IsSpace(s[|s| - 1])
  }

  predicate AllNames(names: seq<string>) {
    forall i | 0 <= i < |names| :: Name(names[i])
  }

  lemma HeaderOf(s: string)
    requires Name(s)
    ensures Header("### " + s) == Some(s) && OneLine("### " + s)
  {
    assert ("### " + s)[4..] == s;
  }

  lemma ScanBlock(section: string, bodies: seq<string>, rest: seq<string>, current: Option<string>, buf: seq<string>,
                  acc: Grouped)
    requires Printable(bodies) && Name(section)
    ensures Scan(BlockLines(section, bodies) + rest, current, buf, acc)
         == Scan(rest, Some(section), ContentLines(bodies), Flushed(current, buf, acc))
  {
    var all, content := BlockLines(section, bodies) + rest, ContentLines(bodies);
    HeaderOf(section);
    assert all[0] == "### " + section && all[1..] == content + rest;
    ContentIsPlain(bodies);
    ScanPlain(content, rest, Some(section), [], Flushed(current, buf, acc));
    assert [] + content == content;
  }

  lemma {:induction false} ScanRendered(g: Grouped, names: seq<string>, current: Option<string>, buf: seq<string>,
                                        acc: Grouped)
    requires AllPrintable(g) && AllIn(names, g) && AllNames(names)
    ensures Scan(RenderedLines(g, names), current, buf, acc) == AddAll(g, names, Flushed(current, buf, acc))
  {
    if names != [] {
      var s, bodies := names[0], g[names[0]];
      var acc' := Flushed(current, buf, acc);
      if |names| == 1 {
        ScanBlock(s, bodies, [], current, buf, acc);
        assert BlockLines(s, bodies) + [] == BlockLines(s, bodies);
      } else {
        var rest := RenderedLines(g, names[1..]);
        ScanBlock(s, bodies, [""] + rest, current, buf, acc);
        assert ([""] + rest)[1..] == rest;
        ScanRendered(g, names[1..], Some(s), ContentLines(bodies) + [""], acc');
        FlushedTail(Some(s), ContentLines(bodies), acc');
      }
      FlushContent(s, bodies, acc');
    }
  }

  lemma {:induction false} PresentNames(g: Grouped, order: seq<string>)
    requires AllNames(order)
    ensures AllNames(Present(g, order))
  {
    if order != [] {
      assert Name(order[0]);
      PresentNames(g, order[1..]);
    }
  }

  predicate Printed(g: Grouped, order: seq<string>, s: string) {
    s in order && s in g && g[s] != []
  }

  lemma {:induction false} AddAllAt(g: Grouped, order: seq<string>, acc: Grouped, s: string)
    requires Distinct(order)
    ensures var r := AddAll(g, Present(g, order), acc);
      if Printed(g, order, s) then s in r && r[s] == Get(acc, s) + Normal(g[s])
      else (s in r <==> s in acc) && Get(r, s) == Get(acc, s)
  {
    if order != [] {
      var name, rest := order[0], order[1..];
      AddAllAt(g, rest, if name in g then AddOne(acc, name, g[name]) else acc, s);
      assert Present(g, order) == if name in g then [name] + Present(g, rest) else Present(g, rest);
      assert s in order <==> s == name || s in rest;
      if s == name {
        assert s !in rest;
      }
    }
  }

  function MeaningIn(g: Grouped, order: seq<string>): Grouped {
    map s | s in order && s in g && g[s] != [] :: Normal(g[s])
  }

  /** What a section map means once it is printed: the standard, non-empty sections, with their bullets tidied. */
  function Meaning(g: Grouped): Grouped {
    MeaningIn(g, SECTIONS)
  }

  lemma StandardNames()
    ensures Distinct(SECTIONS) && AllNames(SECTIONS)
  {
  }

  lemma {:induction false} RenderedLinesAreLines(g: Grouped, names: seq<string>)
    requires AllPrintable(g) && AllIn(names, g) && AllNames(names)
    ensures OneLiners(RenderedLines(g, names)) && (names != [] ==> RenderedLines(g, names) != [])
  {
    if names != [] {
      assert Name(names[0]);
      HeaderOf(names[0]);
      ContentIsPlain(g[names[0]]);
      var block := BlockLines(names[0], g[names[0]]);
      assert OneLiners(block);
      RenderedLinesAreLines(g, names[1..]);
      if |names| > 1 {
        assert OneLiners([""] + RenderedLines(g, names[1..]));
      }
    }
  }

  lemma ScanMeaning(g: Grouped, order: seq<string>, buf: seq<string>)
    requires AllPrintable(g) && Distinct(order) && AllNames(order)
    ensures Scan(RenderedLines(g, Present(g, order)), None, buf, map[]) == MeaningIn(g, order)
  {
    var names := Present(g, order);
    PresentNames(g, order);
    ScanRendered(g, names, None, buf, map[]);
    var r, m := AddAll(g, names, map[]), MeaningIn(g, order);
    forall s
      ensures s in r <==> s in m
      ensures s in r ==> r[s] == m[s]
    {
      AddAllAt(g, order, map[], s);
      if Printed(g, order, s) {
        assert [] + Normal(g[s]) == Normal(g[s]);
      }
    }
    assert r == m;
  }

  lemma ParsedJoin(ls: seq<string>)
    requires OneLiners(ls)
    ensures Parsed(Join(ls)) == Scan(ls, None, [], map[])
  {
    if ls != [] {
      var n := |ls| - 1;
      LinesOfJoin(ls);
      if ls[n] == "" {
        var front := ls[..n];
        assert ls == front + [""];
        ScanTail(front, None, [], map[]);
      }
    }
  }

  lemma ParseOfRenderedIn(g: Grouped, order: seq<string>)
    requires AllPrintable(g) && Distinct(order) && AllNames(order)
    ensures Parsed(RenderedIn(g, order)) == MeaningIn(g, order)
  {
    var names := Present(g, order);
    PresentNames(g, order);
    RenderedText(g, names);
    RenderedLinesAreLines(g, names);
    ParsedJoin(RenderedLines(g, names));
    ScanMeaning(g, order, []);
  }

  /** Parsing undoes printing for every section map, up to the tidying `Meaning` describes. */
  lemma ParseOfRendered(g: Grouped)
    requires AllPrintable(g)
    ensures Parsed(Rendered(g)) == Meaning(g)
  {
    StandardNames();
    ParseOfRenderedIn(g, SECTIONS);
  }

  lemma BetweenBlankLines(ls: seq<string>)
    requires ls != []
    ensures "\n" + Join(ls) + "\n\n" == Terminated([""] + ls + [""])
  {
    JoinIsTerminated(ls);
    TerminatedAppend([""] + ls, [""]);
    TerminatedAppend([""], ls);
  }

  lemma LinesBetweenBlankLines(ls: seq<string>)
    requires OneLiners(ls)
    ensures Lines("\n" + Join(ls) + "\n\n") == if ls == [] then ["", "", ""] else [""] + ls + [""]
  {
    var body := "\n" + Join(ls) + "\n\n";
    if ls == [] {
      assert body == Terminated(["", "", ""]) + "";
      LinesOfTerminatedThen(["", "", ""], "");
    } else {
      var all := [""] + ls + [""];
      BetweenBlankLines(ls);
      assert body == Terminated(all) + "";
      LinesOfTerminatedThen(all, "");
    }
  }

  lemma ParsedBetweenBlankLines(ls: seq<string>)
    requires OneLiners(ls)
    ensures Parsed("\n" + Join(ls) + "\n\n") == Scan(ls, None, [""], map[])
  {
    LinesBetweenBlankLines(ls);
    if ls == [] {
      ScanTail(["", ""], None, [], map[]);
      ScanTail([""], None, [], map[]);
      assert ["", ""] + [""] == ["", "", ""] && [""] + [""] == ["", ""];
      assert [""][1..] == ls;
    } else {
      var all := [""] + ls;
      ScanTail(all, None, [], map[]);
      assert all[0] == "" && all[1..] == ls;
      var none: seq<string> := [];
      assert none + [""] == [""];
    }
  }

  lemma ParseOfReleaseIn(g: Grouped, order: seq<string>)
    requires AllPrintable(g) && Distinct(order) && AllNames(order)
    ensures Parsed("\n" + RenderedIn(g, order) + "\n\n") == MeaningIn(g, order)
  {
    var names := Present(g, order);
    PresentNames(g, order);
    RenderedText(g, names);
    RenderedLinesAreLines(g, names);
    ParsedBetweenBlankLines(RenderedLines(g, names));
    ScanMeaning(g, order, [""]);
  }

  /** The same for the text below a version header, which has a blank line on either side. */
  lemma ParseOfRelease(g: Grouped)
    requires AllPrintable(g)
    ensures Parsed("\n" + Rendered(g) + "\n\n") == Meaning(g)
  {
    StandardNames();
    ParseOfReleaseIn(g, SECTIONS);
  }
}
