/** The two generated documents and the run of scripts/gen_doc_stats.py over them. */
module Documents {
  import opened Text
  import opened Markers
  import opened DocStats
  import opened Regeneration
  import H = DocHeader

  const GENERATED := "!-- BEGIN NEXIS-STATS"
  const SCRIPT := " (generated by scripts/"
  const NAME := "gen_doc_stats.py"
  const WARNING := " \U{2014} do not hand-edit"
  const BEGIN := "<" + GENERATED + SCRIPT + NAME + WARNING + ") -->"
  const END := "<!-- END NEXIS-STATS -->"

  /** Inside a tag. */
  predicate Inner(s: string) {
    forall i | 0 <= i < |s| :: s[i] != '<' && s[i] != '>' && s[i] != ':' && s[i] != 'u' && s[i] != ')' && !IsDigit(s[i])
  }

  lemma InnerAppend(a: string, b: string)
    requires Inner(a) && Inner(b)
    ensures Inner(a + b)
  {
  }

  lemma InnerGenerated()
    ensures Inner(GENERATED) && |GENERATED| == 21 && GENERATED[4] == 'B'
  {
    var g := GENERATED;
  }

  lemma InnerScript()
    ensures Inner(SCRIPT) && |SCRIPT| == 23
  {
    var s := SCRIPT;
  }

  lemma InnerName()
    ensures Inner(NAME) && |NAME| == 16
  {
    var n := NAME;
  }

  lemma InnerWarning()
    ensures Inner(WARNING) && |WARNING| == 19
  {
    var w := WARNING;
  }

  lemma TagOf(m: string)
    requires Inner(m)
    ensures var t := "<" + m + ") -->"; Tag(t) && Shut(t, |m| + 1)
  {
  }

  const CLOSE: nat := 80

  lemma BeginIsTag()
    ensures Tag(BEGIN) && |BEGIN| > 5 && BEGIN[5] == 'B' && Shut(BEGIN, CLOSE)
  {
    hide GENERATED, SCRIPT, NAME, WARNING, Inner, Tag, Shut;
    InnerGenerated();
    InnerScript();
    InnerName();
    InnerWarning();
    InnerAppend(GENERATED, SCRIPT);
    InnerAppend(GENERATED + SCRIPT, NAME);
    InnerAppend(GENERATED + SCRIPT + NAME, WARNING);
    TagOf(GENERATED + SCRIPT + NAME + WARNING);
    assert BEGIN == "<" + (GENERATED + SCRIPT + NAME + WARNING) + ") -->";
  }

  lemma EndIsTag()
    ensures Tag(END) && |END| > 5 && END[5] == 'E'
  {
    var m := END;
    assert |m| == 24;
  }

  /** The two markers are what the proofs about blocks need. */
  lemma TheMarkers()
    ensures Pair(BEGIN, END, CLOSE)
  {
    hide BEGIN, END, Tag, Shut;
    BeginIsTag();
    EndIsTag();
  }

  // ---- The block ----

  datatype Row = Row(name: string, value: string, source: string)

  predicate Plain(s: string) {
    forall i | 0 <= i < |s| :: s[i] != '<' && s[i] != '>'
  }

  predicate PlainRow(r: Row) {
    Plain(r.name) && Plain(r.value) && Plain(r.source)
  }

  predicate PlainRows(rows: seq<Row>) {
    rows == [] || (PlainRow(rows[0]) && PlainRows(rows[1..]))
  }

  function RowLine(r: Row): string {
    "| " + r.name + " | " + r.value + " | " + r.source + " |"
  }

  function RowLines(rows: seq<Row>): seq<string> {
    if rows == [] then [] else [RowLine(rows[0])] + RowLines(rows[1..])
  }

  const HEADING := "| Metric | Value | Source of truth |"
  const RULE := "|--------|-------|-----------------|"

  /** `render_block`, for the computed rows. */
  function RenderBlock(rows: seq<Row>): string {
    Join([BEGIN, "", HEADING, RULE] + RowLines(rows) + ["", END])
  }

  lemma PlainAppend(a: string, b: string)
    requires Plain(a) && Plain(b)
    ensures Plain(a + b)
  {
  }

  lemma {:induction false} PlainJoin(ls: seq<string>)
    requires All(Plain, ls)
    ensures Plain(Join(ls))
  {
    if |ls| > 1 {
      PlainJoin(ls[1..]);
      PlainAppend(ls[0] + "\n", Join(ls[1..]));
    }
  }

  lemma {:induction false} PlainRowLines(rows: seq<Row>)
    requires PlainRows(rows)
    ensures All(Plain, RowLines(rows))
  {
    if rows != [] {
      PlainRowLines(rows[1..]);
      assert RowLines(rows)[1..] == RowLines(rows[1..]);
    }
  }

  lemma PlainHeading()
    ensures Plain(HEADING)
  {
    var h := HEADING;
  }

  lemma PlainRule()
    ensures Plain(RULE)
  {
    var r := RULE;
  }

  lemma PlainCons(l: string, ls: seq<string>)
    requires Plain(l)
    ensures All(Plain, ls) ==> All(Plain, [l] + ls)
  {
    assert ([l] + ls)[1..] == ls;
  }

  lemma PlainNothing()
    ensures All(Plain, []) && Plain("")
  {
  }

  lemma PlainHead()
    ensures All(Plain, ["", HEADING, RULE])
  {
    hide HEADING, RULE;
    PlainHeading();
    PlainRule();
    PlainNothing();
    PlainCons(RULE, []);
    assert [RULE] + [] == [RULE];
    PlainCons(HEADING, [RULE]);
    assert [HEADING] + [RULE] == [HEADING, RULE];
    PlainCons("", [HEADING, RULE]);
    assert [""] + [HEADING, RULE] == ["", HEADING, RULE];
  }

  lemma Framed(b: string, mid: seq<string>, e: string)
    requires mid != []
    ensures Join([b] + mid + [e]) == b + "\n" + (Join(mid) + "\n") + e
  {
    Reassociate([b], mid, [e]);
    JoinCons(b, mid + [e]);
    JoinAppend(mid, [e]);
    Reassociate(b + "\n", Join(mid) + "\n", e);
  }

  lemma FramedIsBlock(b: string, mid: string, e: string)
    requires Plain(mid)
    ensures IsBlock(b + "\n" + mid + e, b, e)
  {
    var r := b + "\n" + mid + e;
    assert r[|r| - |e|..] == e;
    assert r[..|b|] == b;
    forall i | |b| <= i < |r| - |e|
      ensures r[i] != '<' && r[i] != '>'
    {
      if i > |b| {
        assert r[i] == mid[i - |b| - 1];
      }
    }
  }

  lemma PlainEmpty()
    ensures All(Plain, [""])
  {
    assert All(Plain, []);
  }

  lemma PlainTable(rows: seq<Row>)
    requires PlainRows(rows)
    ensures All(Plain, ["", HEADING, RULE] + RowLines(rows) + [""])
  {
    hide HEADING, RULE, Plain;
    PlainHead();
    PlainRowLines(rows);
    AllAppend(Plain, ["", HEADING, RULE], RowLines(rows));
    PlainEmpty();
    AllAppend(Plain, ["", HEADING, RULE] + RowLines(rows), [""]);
  }

  lemma PlainNewline()
    ensures Plain("\n")
  {
  }

  lemma RowsBetween(b: string, e: string, head: seq<string>, ls: seq<string>)
    ensures ([b] + head) + ls + ["", e] == [b] + (head + ls + [""]) + [e]
  {
  }

  /** The rendered block is a block, whatever plain values the rows have. */
  lemma RenderedIsBlock(rows: seq<Row>)
    requires PlainRows(rows)
    ensures IsBlock(RenderBlock(rows), BEGIN, END)
  {
    hide BEGIN, END, HEADING, RULE, Plain, IsBlock, Join;
    var mid := ["", HEADING, RULE] + RowLines(rows) + [""];
    PlainTable(rows);
    PlainJoin(mid);
    PlainNewline();
    PlainAppend(Join(mid), "\n");
    RowsBetween(BEGIN, END, ["", HEADING, RULE], RowLines(rows));
    assert ["", HEADING, RULE] + RowLines(rows) + [""] == mid;
    assert [BEGIN] + ["", HEADING, RULE] == [BEGIN, "", HEADING, RULE];
    Framed(BEGIN, mid, END);
    FramedIsBlock(BEGIN, Join(mid) + "\n", END);
  }

  // ---- The run ----

  datatype Outcome =
    | MissingMarkers
    | MissingHeader
    | Stale(overview: bool, architecture: bool)
    | Fresh
    | Written(overview: bool, architecture: bool)

  /** The text of the overview that a run computes. */
  function NewOverview(t: string, rows: seq<Row>, version: string, today: string): Option<string> {
    Regenerated(t, RenderBlock(rows), BEGIN, END, version, today)
  }

  predicate HeaderCurrent(t: string, version: string) {
    IsVersion(version) && VersionOf(t) == Some(version)
  }

  /** The overview is as a run would leave it, but for the date. */
  predicate OverviewCurrent(t: string, rows: seq<Row>, version: string) {
    Ordered(t, BEGIN, END) && Region(t, BEGIN, END) == RenderBlock(rows) && HeaderCurrent(t, version)
  }

  /** The two living documents. */
  class Docs {
    var overview: string
    var architecture: string

    constructor (o: string, a: string)
      ensures overview == o && architecture == a
    {
      overview := o;
      architecture := a;
    }

    /** One run: an error leaves both documents alone, the check mode changes nothing and passes if and only if both
        documents are current, and the writing mode leaves the regenerated texts. */
    method Run(check: bool, rows: seq<Row>, version: string, today: string) returns (outcome: Outcome)
      requires PlainRows(rows) && ProjectVersion(version) && IsDate(today)
      modifies this
      ensures var o, a := old(overview), old(architecture);
        var failed := NewOverview(o, rows, version, today).None? || Sync(a, version, today).None?;
        && (failed <==> outcome.MissingMarkers? || outcome.MissingHeader?)
        && (outcome.MissingMarkers? <==> Find(o, BEGIN).None? || Find(o, END).None?)
        && (failed || check ==> overview == o && architecture == a)
        && (!failed && check ==>
          && (outcome == Fresh || outcome == Stale(!OverviewCurrent(o, rows, version), !HeaderCurrent(a, version)))
          && (outcome == Fresh <==> OverviewCurrent(o, rows, version) && HeaderCurrent(a, version)))
        && (!failed && !check ==>
          && NewOverview(o, rows, version, today) == Some(overview) && Sync(a, version, today) == Some(architecture)
          && (outcome == Fresh || outcome == Written(overview != o, architecture != a))
          && (outcome == Fresh <==> overview == o && architecture == a))
    {
      hide BEGIN, END, RenderBlock, Sync, BlankDate, IsVersion, IsDate, VersionOf, Region, Ordered, Find, Pair, IsBlock;
      var block := RenderBlock(rows);
      var spliced := Splice(overview, block, BEGIN, END);
      if spliced.None? {
        return MissingMarkers;
      }
      var overviewNew := Sync(spliced.value, version, today);
      if overviewNew.None? {
        return MissingHeader;
      }
      var architectureNew := Sync(architecture, version, today);
      if architectureNew.None? {
        return MissingHeader;
      }
      if check {
        var staleOverview := BlankDate(overview) != BlankDate(overviewNew.value);
        var staleArchitecture := BlankDate(architecture) != BlankDate(architectureNew.value);
        TheMarkers();
        RenderedIsBlock(rows);
        OverviewCheck(overview, block, BEGIN, END, CLOSE, version, today);
        HeaderCheck(architecture, version, today);
        return if staleOverview || staleArchitecture then Stale(staleOverview, staleArchitecture) else Fresh;
      }
      var changedOverview, changedArchitecture := overviewNew.value != overview, architectureNew.value != architecture;
      if changedOverview {
        overview := overviewNew.value;
      }
      if changedArchitecture {
        architecture := architectureNew.value;
      }
      return if changedOverview || changedArchitecture then Written(changedOverview, changedArchitecture) else Fresh;
    }
  }

  /** After a writing run the check passes on every later day, if and only if the overview's markers were in order and
      the project has a version. */
  lemma WrittenIsCurrent(o: string, a: string, rows: seq<Row>, version: string, today: string)
    requires PlainRows(rows) && ProjectVersion(version) && IsDate(today)
    requires NewOverview(o, rows, version, today).Some? && Sync(a, version, today).Some?
    ensures var o', a' := NewOverview(o, rows, version, today).value, Sync(a, version, today).value;
      OverviewCurrent(o', rows, version) && HeaderCurrent(a', version) <==> Ordered(o, BEGIN, END) && IsVersion(version)
  {
    hide BEGIN, END, RenderBlock, BlankDate, IsVersion, IsDate, Stamped, Region, Ordered, Find, Pair, IsBlock, H.MatchAt, H.Find, VersionOf;
    var o' := NewOverview(o, rows, version, today).value;
    TheMarkers();
    RenderedIsBlock(rows);
    WriteThenCheck(o, RenderBlock(rows), BEGIN, END, CLOSE, version, today, today);
    OverviewCheck(o', RenderBlock(rows), BEGIN, END, CLOSE, version, today);
    if IsVersion(version) {
      SyncTwice(a, version, today, today);
    }
  }
}
