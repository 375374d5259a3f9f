/**
 * The printer and the parser of `### Section` blocks (scripts/changelog_fragments.py).
 *
 * A method here has the loops and the mutable lists of the script. The function beside it says what the
 * method computes, and the lemmas about printing and parsing speak of the functions.
 */
module Sections {
  import opened Text

  const SECTIONS: seq<string> := ["Added", "Changed", "Deprecated", "Removed", "Fixed", "Security"]

  /** Section name -> bullet texts, each without its "- " marker. */
  type Grouped = map<string, seq<string>>

  function Get(g: Grouped, s: string): seq<string> {
    if s in g then g[s] else []
  }

  // ---- Printing ----

  function Continuation(line: string): string {
    Rstrip("  " + Rstrip(line))
  }

  function Continuations(ls: seq<string>): (r: seq<string>)
    ensures |r| == |ls|
  {
    if ls == [] then [] else [Continuation(ls[0])] + Continuations(ls[1..])
  }

  /** The lines of one list item. */
  function BulletLines(body: string): seq<string>
    requires body != ""
  {
    var ls := Lines(body);
    ["- " + Rstrip(ls[0])] + Continuations(ls[1..])
  }

  /** An empty body has no first line to print. */
  predicate Printable(bodies: seq<string>) {
    forall i | 0 <= i < |bodies| :: bodies[i] != ""
  }

  function BulletsLines(bodies: seq<string>): seq<string>
    requires Printable(bodies)
  {
    if bodies == [] then [] else BulletLines(bodies[0]) + BulletsLines(bodies[1..])
  }

  function Bullets(bodies: seq<string>): (r: seq<string>)
    requires Printable(bodies)
    ensures |r| == |bodies|
  {
    if bodies == [] then [] else [Join(BulletLines(bodies[0]))] + Bullets(bodies[1..])
  }

  function Block(section: string, bodies: seq<string>): string
    requires Printable(bodies)
  {
    "### " + section + "\n" + Join(Bullets(bodies))
  }

  ghost predicate AllPrintable(g: Grouped) {
    forall s | s in g :: Printable(g[s])
  }

  predicate AllIn(names: seq<string>, g: Grouped) {
    forall i | 0 <= i < |names| :: names[i] in g
  }

  /** The names of `order` that `g` has, in that order. */
  function Present(g: Grouped, order: seq<string>): (r: seq<string>)
    ensures AllIn(r, g)
  {
    if order == [] then []
    else if order[0] in g then [order[0]] + Present(g, order[1..])
    else Present(g, order[1..])
  }

  function Blocks(g: Grouped, names: seq<string>): (r: seq<string>)
    requires AllPrintable(g) && AllIn(names, g)
    ensures |r| == |names|
  {
    if names == [] then [] else [Block(names[0], g[names[0]])] + Blocks(g, names[1..])
  }

  /** `"\n\n".join(blocks)` */
  function JoinBlocks(bs: seq<string>): string {
    if bs == [] then "" else if |bs| == 1 then bs[0] else bs[0] + "\n\n" + JoinBlocks(bs[1..])
  }

  function RenderedIn(g: Grouped, order: seq<string>): string
    requires AllPrintable(g)
  {
    JoinBlocks(Blocks(g, Present(g, order)))
  }

  function Rendered(g: Grouped): string
    requires AllPrintable(g)
  {
    RenderedIn(g, SECTIONS)
  }

  method AsBullet(body: string) returns (bullet: string)
    requires body != ""
    ensures bullet == Join(BulletLines(body))
  {
    var lines := Lines(body);
    var out := ["- " + Rstrip(lines[0])];
    for i := 1 to |lines|
      invariant out + Continuations(lines[i..]) == BulletLines(body)
    {
      var line := Continuation(lines[i]);
      assert lines[i..][1..] == lines[i + 1..];
      Reassociate(out, [line], Continuations(lines[i + 1..]));
      out := out + [line];
    }
    assert out + Continuations(lines[|lines|..]) == out;
    bullet := Join(out);
  }

  method AsBullets(bodies: seq<string>) returns (bullets: seq<string>)
    requires Printable(bodies)
    ensures bullets == Bullets(bodies)
  {
    bullets := [];
    for j := 0 to |bodies|
      invariant bullets + Bullets(bodies[j..]) == Bullets(bodies)
    {
      var bullet := AsBullet(bodies[j]);
      assert bodies[j..][1..] == bodies[j + 1..];
      Reassociate(bullets, [bullet], Bullets(bodies[j + 1..]));
      bullets := bullets + [bullet];
    }
    assert bullets + Bullets(bodies[|bodies|..]) == bullets;
  }

  method Render(grouped: Grouped) returns (text: string)
    requires AllPrintable(grouped)
    ensures text == Rendered(grouped)
  {
    ghost var all := Blocks(grouped, Present(grouped, SECTIONS));
    var blocks: seq<string> := [];
    for i := 0 to |SECTIONS|
      invariant blocks + Blocks(grouped, Present(grouped, SECTIONS[i..])) == all
    {
      var section := SECTIONS[i];
      ghost var rest := Present(grouped, SECTIONS[i + 1..]);
      assert SECTIONS[i..][1..] == SECTIONS[i + 1..];
      if section in grouped {
        var bullets := AsBullets(grouped[section]);
        var block := "### " + section + "\n" + Join(bullets);
        Reassociate(blocks, [block], Blocks(grouped, rest));
        blocks := blocks + [block];
      }
    }
    assert blocks + Blocks(grouped, Present(grouped, SECTIONS[|SECTIONS|..])) == blocks;
    text := JoinBlocks(blocks);
  }

  // ---- Parsing ----

  /** `line.startswith("- ")` */
  predicate IsBullet(line: string) {
    |line| >= 2 && line[0] == '-' && line[1] == ' '
  }

  /** `line.startswith("  ")` */
  predicate IsIndented(line: string) {
    |line| >= 2 && line[0] == ' ' && line[1] == ' '
  }

  /** The name in a `### name` line. At least one character must follow the marker, even if it is white space. */
  function Header(line: string): Option<string> {
    if |line| > 4 && line[0] == '#' && line[1] == '#' && line[2] == '#' && line[3] == ' ' then Some(Strip(line[4..])) else None
  }

  /** What one line does to the bullets collected so far. */
  function AddLine(items: seq<string>, line: string): seq<string> {
    if IsBullet(line) then items + [line[2..]]
    else if items != [] then
      var n := |items| - 1;
      items[..n] + [items[n] + "\n" + (if IsIndented(line) then line[2..] else line)]
    else if !Blank(line) then [line]
    else []
  }

  function Items(lines: seq<string>, acc: seq<string>): seq<string> {
    if lines == [] then acc else Items(lines[1..], AddLine(acc, lines[0]))
  }

  /** `[i.strip("\n") for i in items if i.strip()]` */
  function Kept(items: seq<string>): seq<string> {
    if items == [] then []
    else (if Blank(items[0]) then [] else [StripNewlines(items[0])]) + Kept(items[1..])
  }

  /** The bullets written in the lines below one header. */
  function BulletsIn(text: string): seq<string> {
    Kept(Items(Lines(text), []))
  }

  function Extended(grouped: Grouped, section: string, bullets: seq<string>): Grouped {
    grouped[section := Get(grouped, section) + bullets]
  }

  function WithText(current: Option<string>, text: string, grouped: Grouped): Grouped {
    if current.None? || Blank(text) then grouped else Extended(grouped, current.value, BulletsIn(text))
  }

  function Flushed(current: Option<string>, buf: seq<string>, grouped: Grouped): Grouped {
    WithText(current, StripNewlines(Join(buf)), grouped)
  }

  function Scan(lines: seq<string>, current: Option<string>, buf: seq<string>, grouped: Grouped): Grouped
    decreases |lines|
  {
    if lines == [] then Flushed(current, buf, grouped)
    else
      var h := Header(lines[0]);
      if h.Some? then Scan(lines[1..], h, [], Flushed(current, buf, grouped))
      else Scan(lines[1..], current, buf + [lines[0]], grouped)
  }

  /** What `parse_sections` returns. */
  function Parsed(body: string): Grouped {
    Scan(Lines(body), None, [], map[])
  }

  method Collect(lines: seq<string>) returns (items: seq<string>)
    ensures items == Items(lines, [])
  {
    items := [];
    for i := 0 to |lines|
      invariant Items(lines[i..], items) == Items(lines, [])
    {
      var line := lines[i];
      ghost var next := AddLine(items, line);
      assert lines[i..][1..] == lines[i + 1..];
      if IsBullet(line) {
        items := items + [line[2..]];
      } else if items != [] {
        var last := items[|items| - 1];
        items := items[..|items| - 1] + [last + "\n" + (if IsIndented(line) then line[2..] else line)];
      } else if !Blank(line) {
        items := items + [line];
      }
      assert items == next;
    }
  }

  lemma KeptFrom(items: seq<string>, i: nat)
    requires i < |items|
    ensures Kept(items[i..]) == (if Blank(items[i]) then [] else [StripNewlines(items[i])]) + Kept(items[i + 1..])
  {
    assert items[i..][1..] == items[i + 1..];
  }

  method Keep(items: seq<string>) returns (kept: seq<string>)
    ensures kept == Kept(items)
  {
    kept := [];
    for i := 0 to |items|
      invariant kept + Kept(items[i..]) == Kept(items)
    {
      KeptFrom(items, i);
      var item := items[i];
      if !Blank(item) {
        Reassociate(kept, [StripNewlines(item)], Kept(items[i + 1..]));
        kept := kept + [StripNewlines(item)];
      }
    }
    assert kept + Kept(items[|items|..]) == kept;
  }

  method ReadBullets(text: string) returns (kept: seq<string>)
    ensures kept == BulletsIn(text)
  {
    var items := Collect(Lines(text));
    kept := Keep(items);
  }

  method Flush(current: Option<string>, buf: seq<string>, grouped: Grouped) returns (r: Grouped)
    ensures r == Flushed(current, buf, grouped)
  {
    r := grouped;
    if current.Some? {
      var text := StripNewlines(Join(buf));
      if !Blank(text) {
        var bullets := ReadBullets(text);
        r := Extended(grouped, current.value, bullets);
      }
    }
  }

  method ParseSections(body: string) returns (grouped: Grouped)
    ensures grouped == Parsed(body)
  {
    grouped := map[];
    var current: Option<string> := None;
    var buf: seq<string> := [];
    var lines := Lines(body);
    for i := 0 to |lines|
      invariant Scan(lines[i..], current, buf, grouped) == Parsed(body)
    {
      var h := Header(lines[i]);
      if h.Some? {
        grouped := Flush(current, buf, grouped);
        buf := [];
        current := h;
      } else {
        buf := buf + [lines[i]];
      }
    }
    grouped := Flush(current, buf, grouped);
  }
}
