/** What the generated table shows: its rows can be read back, so the check sees every change of a row. */
module Table {
  import opened Text
  import opened Markers
  import opened DocStats
  import opened LaterHeaders
  import opened Regeneration
  import opened Documents

  predicate OneLineRow(r: Row) {
    OneLine(r.name) && OneLine(r.value) && OneLine(r.source)
  }

  lemma {:induction false} RowLinesAre(rows: seq<Row>)
    ensures |RowLines(rows)| == |rows|
    ensures forall i | 0 <= i < |rows| ::
      RowLines(rows)[i] == "| " + rows[i].name + " | " + rows[i].value + " | " + rows[i].source + " |"
  {
    if rows != [] {
      RowLinesAre(rows[1..]);
      assert forall i | 1 <= i < |rows| :: rows[i] == rows[1..][i - 1];
    }
  }

  lemma OneLineAppend(a: string, b: string)
    requires OneLine(a) && OneLine(b)
    ensures OneLine(a + b)
  {
  }

  lemma RowIsOneLine(r: Row)
    requires OneLineRow(r)
    ensures OneLine("| " + r.name + " | " + r.value + " | " + r.source + " |")
  {
    OneLineAppend("| ", r.name);
    OneLineAppend("| " + r.name, " | ");
    OneLineAppend("| " + r.name + " | ", r.value);
    OneLineAppend("| " + r.name + " | " + r.value, " | ");
    OneLineAppend("| " + r.name + " | " + r.value + " | ", r.source);
    OneLineAppend("| " + r.name + " | " + r.value + " | " + r.source, " |");
  }

  lemma OneLinePieces()
    ensures OneLine(GENERATED) && OneLine(SCRIPT) && OneLine(NAME) && OneLine(WARNING)
  {
    var g, s, n, w := GENERATED, SCRIPT, NAME, WARNING;
  }

  lemma BeginIsOneLine()
    ensures OneLine(BEGIN)
  {
    hide GENERATED, SCRIPT, NAME, WARNING;
    OneLinePieces();
    OneLineAppend("<", GENERATED);
    OneLineAppend("<" + GENERATED, SCRIPT);
    OneLineAppend("<" + GENERATED + SCRIPT, NAME);
    OneLineAppend("<" + GENERATED + SCRIPT + NAME, WARNING);
    OneLineAppend("<" + GENERATED + SCRIPT + NAME + WARNING, ") -->");
  }

  lemma FixedAreOneLine()
    ensures OneLine(HEADING) && OneLine(RULE) && OneLine(END) && END != ""
  {
    var h, r, e := HEADING, RULE, END;
  }

  lemma FixedTexts()
    ensures HEADING == "| Metric | Value | Source of truth |" && RULE == "|--------|-------|-----------------|"
  {
  }

  lemma EmptyIsOneLine()
    ensures OneLine("")
  {
  }

  lemma TableIsOneLiners(rows: seq<Row>)
    requires forall i | 0 <= i < |rows| :: OneLineRow(rows[i])
    ensures OneLiners([BEGIN, "", HEADING, RULE] + RowLines(rows) + ["", END])
  {
    hide BEGIN, END, HEADING, RULE, RowLines, OneLine, OneLineRow;
    BeginIsOneLine();
    FixedAreOneLine();
    EmptyIsOneLine();
    RowLinesAre(rows);
    forall i | 0 <= i < |rows|
      ensures OneLine(RowLines(rows)[i])
    {
      RowIsOneLine(rows[i]);
    }
    var ls := [BEGIN, "", HEADING, RULE] + RowLines(rows) + ["", END];
    assert forall i | 4 <= i < 4 + |rows| :: ls[i] == RowLines(rows)[i - 4];
  }

  /** The generated block, line by line: its frame, and one line for each row with its three cells. */
  lemma BlockLines(rows: seq<Row>)
    requires forall i | 0 <= i < |rows| :: OneLineRow(rows[i])
    ensures var ls, n := Lines(RenderBlock(rows)), |rows|;
      && |ls| == n + 6 && ls[0] == BEGIN && ls[1] == "" && ls[n + 4] == "" && ls[n + 5] == END
      && ls[2] == "| Metric | Value | Source of truth |" && ls[3] == "|--------|-------|-----------------|"
      && forall i | 0 <= i < n ::
        ls[4 + i] == "| " + rows[i].name + " | " + rows[i].value + " | " + rows[i].source + " |"
  {
    hide BEGIN, END, HEADING, RULE, RowLines, Lines, Join, OneLiners, OneLineRow, OneLine;
    var ls := [BEGIN, "", HEADING, RULE] + RowLines(rows) + ["", END];
    FixedAreOneLine();
    FixedTexts();
    TableIsOneLiners(rows);
    LinesOfJoin(ls);
    RowLinesAre(rows);
    assert forall i | 0 <= i < |rows| :: ls[4 + i] == RowLines(rows)[i];
  }

  predicate Cell(s: string) {
    forall i | 0 <= i < |s| :: s[i] != '|' && s[i] != '\n'
  }

  /** A row whose cells cannot be mistaken for the table around them. */
  predicate Tabular(r: Row) {
    Cell(r.name) && Cell(r.value) && Cell(r.source)
  }

  /** A cell ends where the next bar is. */
  lemma SameCell(a: string, x: string, a': string, x': string)
    requires Cell(a) && Cell(a') && a + " |" + x == a' + " |" + x'
    ensures a == a' && x == x'
  {
    var s := a + " |" + x;
    assert s[|a| + 1] == '|' && s == a' + " |" + x' && s[|a'| + 1] == '|';
    assert forall k | 0 <= k < |a| + 1 :: s[k] != '|';
    assert forall k | 0 <= k < |a'| + 1 :: s[k] != '|';
    assert a == s[..|a|] && a' == s[..|a'|] && x == s[|a| + 2..] && x' == s[|a'| + 2..];
  }

  lemma RowParts(r: Row)
    ensures "| " + r.name + " | " + r.value + " | " + r.source + " |"
         == "| " + (r.name + " |" + (" " + r.value + " | " + r.source + " |"))
  {
  }

  lemma SameRow(r: Row, r': Row)
    requires Tabular(r) && Tabular(r')
    requires "| " + r.name + " | " + r.value + " | " + r.source + " |" == "| " + r'.name + " | " + r'.value + " | " + r'.source + " |"
    ensures r == r'
  {
    hide Cell;
    RowParts(r);
    RowParts(r');
    var a, a' := r.name + " |" + (" " + r.value + " | " + r.source + " |"), r'.name + " |" + (" " + r'.value + " | " + r'.source + " |");
    assert a == ("| " + a)[2..] && a' == ("| " + a')[2..];
    SameCell(r.name, " " + r.value + " | " + r.source + " |", r'.name, " " + r'.value + " | " + r'.source + " |");
    var b, b' := r.value + " |" + (" " + r.source + " |"), r'.value + " |" + (" " + r'.source + " |");
    assert " " + r.value + " | " + r.source + " |" == " " + b && " " + r'.value + " | " + r'.source + " |" == " " + b';
    assert b == (" " + b)[1..] && b' == (" " + b')[1..];
    SameCell(r.value, " " + r.source + " |", r'.value, " " + r'.source + " |");
    var d, d' := r.source + " |" + "", r'.source + " |" + "";
    assert " " + r.source + " |" == " " + d && " " + r'.source + " |" == " " + d';
    assert d == (" " + d)[1..] && d' == (" " + d')[1..];
    SameCell(r.source, "", r'.source, "");
  }

  lemma TabularIsOneLine(r: Row)
    requires Tabular(r)
    ensures OneLineRow(r)
  {
  }

  /** Different rows give different blocks. */
  lemma BlockShowsRows(a: seq<Row>, b: seq<Row>)
    requires forall i | 0 <= i < |a| :: Tabular(a[i])
    requires forall i | 0 <= i < |b| :: Tabular(b[i])
    ensures RenderBlock(a) == RenderBlock(b) <==> a == b
  {
    hide RenderBlock, Lines, Tabular, OneLineRow, BEGIN, END, HEADING, RULE;
    if RenderBlock(a) == RenderBlock(b) {
      forall i | 0 <= i < |a|
        ensures OneLineRow(a[i])
      {
        TabularIsOneLine(a[i]);
      }
      forall i | 0 <= i < |b|
        ensures OneLineRow(b[i])
      {
        TabularIsOneLine(b[i]);
      }
      BlockLines(a);
      BlockLines(b);
      var ls := Lines(RenderBlock(a));
      forall i | 0 <= i < |a|
        ensures a[i] == b[i]
      {
        assert ls[4 + i] == Lines(RenderBlock(b))[4 + i];
        SameRow(a[i], b[i]);
      }
    }
  }

  /** After a run of the writing mode with a version, the check of the overview passes at a later time if and only if the
      markers were in order and rows and version are still the same. */
  lemma LaterCheckSeesRows(t: string, a: seq<Row>, version: string, d1: string, b: seq<Row>, version': string, d2: string)
    requires PlainRows(a) && PlainRows(b) && IsVersion(version) && IsDate(d1) && ProjectVersion(version') && IsDate(d2)
    requires (forall i | 0 <= i < |a| :: Tabular(a[i])) && forall i | 0 <= i < |b| :: Tabular(b[i])
    requires NewOverview(t, a, version, d1).Some?
    ensures var n := NewOverview(t, a, version, d1).value;
      UpToDate(n, NewOverview(n, b, version', d2)) <==> Ordered(t, BEGIN, END) && a == b && version' == version
  {
    hide BEGIN, END, RenderBlock, Ordered, IsVersion, IsDate, Pair, IsBlock, Tabular, PlainRows, Regenerated, Splice, NextVersion;
    TheMarkers();
    RenderedIsBlock(a);
    RenderedIsBlock(b);
    BlockShowsRows(a, b);
    WriteThenLaterCheck(t, BEGIN, END, CLOSE, RenderBlock(a), version, d1, RenderBlock(b), version', d2);
  }
}
