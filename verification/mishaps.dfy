/** Concrete documents that the writing mode of scripts/gen_doc_stats.py accepts and its check then refuses. */
module Mishaps {
  import opened Text
  import opened Markers
  import opened DocStats
  import opened LaterHeaders
  import opened Regeneration
  import opened Documents
  import H = DocHeader

  const LEAD := "> Last updated: "
  const DAY := "2026-01-01"
  const REST := " (a) | Version 1.0.0"
  const LINE := LEAD + DAY + REST

  lemma LineChars(s: string, k: nat)
    requires LINE <= s
    ensures |LEAD| == 16 && |DAY| == 10 && |REST| == 20 && |LINE| == 46
    ensures k < 16 ==> s[k] == LEAD[k]
    ensures k < 10 ==> s[16 + k] == DAY[k]
    ensures k < 20 ==> s[26 + k] == REST[k]
  {
    var a, b, c := LEAD, DAY, REST;
    assert |a| == 16 && |b| == 10 && |c| == 20;
    hide LEAD, DAY, REST;
    if k < 20 {
      assert LINE[26 + k] == REST[k];
      assert s[26 + k] == LINE[26 + k];
    }
  }

  lemma LineParts(s: string)
    requires LINE <= s
    ensures |LEAD| == 16 && |DAY| == 10 && |REST| == 20 && |LINE| == 46
    ensures (forall k | 0 <= k < 16 :: s[k] == LEAD[k]) && s[16..26] == DAY && forall k | 0 <= k < 20 :: s[26 + k] == REST[k]
  {
    hide LEAD, DAY, REST, LINE;
    LineChars(s, 0);
    forall k | 0 <= k < 20
      ensures (k < 16 ==> s[k] == LEAD[k]) && (k < 10 ==> s[16..26][k] == DAY[k]) && s[26 + k] == REST[k]
    {
      LineChars(s, k);
    }
  }

  lemma LinePrefix(s: string)
    requires LINE <= s
    ensures H.PrefixAt(s, 0)
  {
    hide DAY, REST, LINE;
    LineParts(s);
    var a := LEAD;
  }

  lemma LineDate(s: string)
    requires LINE <= s
    ensures H.DateAt(s, 16)
  {
    hide LEAD, REST, LINE;
    LineParts(s);
    var b := DAY;
    assert IsDate(b);
  }

  lemma LineOpens(s: string)
    requires LINE <= s
    ensures H.SpacesEnd(s, 26) == 27 && s[27] == '(' && H.CloseAt(s, 28) == 29
  {
    hide LEAD, DAY, LINE;
    LineParts(s);
    var c := REST;
    assert s[26 + 0] == c[0] && s[26 + 1] == c[1] && s[26 + 2] == c[2] && s[26 + 3] == c[3];
    assert H.CloseAt(s, 28) == H.CloseAt(s, 29) == 29;
  }

  lemma LineStart(s: string)
    requires LINE <= s
    ensures |LINE| == 46 && H.OpenAt(s, 0) == Some(27) && H.CloseAt(s, 28) == 29
  {
    hide LEAD, DAY, REST, LINE, H.PrefixAt, H.DateAt, H.SpacesEnd, H.CloseAt;
    LineParts(s);
    LinePrefix(s);
    LineDate(s);
    LineOpens(s);
  }

  lemma LineWord(s: string)
    requires LINE <= s
    ensures H.WordAt(s, 30) == Some(40)
  {
    hide LEAD, DAY, LINE;
    LineParts(s);
    var c := REST;
    assert s[26 + 4] == c[4] && s[26 + 5] == c[5] && s[26 + 6] == c[6] && s[26 + 7] == c[7];
    assert s[26 + 8] == c[8] && s[26 + 9] == c[9] && s[26 + 10] == c[10] && s[26 + 11] == c[11];
    assert s[26 + 12] == c[12] && s[26 + 13] == c[13];
    assert H.SpacesEnd(s, 30) == 31;
    assert H.SpacesEnd(s, 32) == 33;
  }

  lemma LineVersion(s: string)
    requires LINE <= s
    ensures H.SpacesEnd(s, 40) == 41 && s[41..46] == "1.0.0"
  {
    hide LEAD, DAY, LINE;
    LineParts(s);
    var c := REST;
    assert s[26 + 14] == c[14] && s[26 + 15] == c[15] && s[26 + 16] == c[16];
    assert s[26 + 17] == c[17] && s[26 + 18] == c[18] && s[26 + 19] == c[19];
  }

  lemma OneIsVersion()
    ensures IsVersion("1.0.0")
  {
    var v := "1.0.0";
    assert DigitsEnd(v, 5) == 5;
    assert DigitsEnd(v, 0) == 1 && DigitsEnd(v, 2) == 3 && DigitsEnd(v, 4) == 5;
  }

  lemma LineNumber(s: string)
    requires LINE <= s && (|s| > 46 ==> !IsDigit(s[46]))
    ensures H.NumberAt(s, 40) == Some((41, 46)) && s[41..46] == "1.0.0"
  {
    hide LINE, IsVersion, VersionEnd, IsDigit;
    LineParts(s);
    LineVersion(s);
    OneIsVersion();
    var v := s[41..46];
    assert forall j | 0 <= j < 5 :: v[j] == s[41 + j];
    VersionEndShift(s, 41, v);
  }

  /** The line is a header wherever no digit follows. */
  lemma LineMatches(s: string)
    requires LINE <= s && (|s| > 46 ==> !IsDigit(s[46]))
    ensures H.MatchAt(s, 0) == Some(H.Header(16, 41, 46)) && VersionAt(s, 0) == Some("1.0.0")
  {
    hide LINE, H.OpenAt, H.CloseAt, H.WordAt, H.NumberAt;
    LineStart(s);
    LineWord(s);
    LineNumber(s);
  }

  lemma LineBehind(front: string)
    ensures H.Hit(front + LINE, |front|) && VersionAt(front + LINE, |front|) == Some("1.0.0")
  {
    hide LINE, H.MatchAt;
    LineStart(LINE);
    LineMatches(LINE);
    HitShift(LINE, 0, front + LINE, |front|);
    VersionAtShift(LINE, 0, front + LINE, |front|);
  }

  /** A document that ends in the line has a header. */
  lemma HasHeader(front: string)
    ensures H.Find(front + LINE).Some?
  {
    hide LINE, H.MatchAt, H.Find;
    LineBehind(front);
    H.FindIsFirst(front + LINE);
  }

  // ---- A project without a version ----

  /** A document with one header: the writing mode stamps `unknown`, and every later run ends in an error. */
  lemma UnknownStops(d1: string, version: string, d2: string)
    requires IsDate(d1) && ProjectVersion(version) && IsDate(d2)
    ensures var n := Sync(LINE, "unknown", d1); n.Some? && Sync(n.value, version, d2).None?
  {
    hide LINE, H.MatchAt, H.Find, IsDate, ProjectVersion, FindBehind;
    LineStart(LINE);
    LineMatches(LINE);
    H.FindIs(LINE, 0);
    FindBehindIs(LINE, 46);
    forall q: nat | 46 <= q
      ensures !H.Hit(LINE, q)
    {
      NoHitBehind(LINE, q);
    }
    UnknownThenCheck(LINE, d1, version, d2);
  }

  lemma FirstIs(t: string, i: nat, q: nat)
    requires i <= q <= |t| && H.Hit(t, q) && H.NoHitIn(t, i, q)
    ensures FindBehind(t, i) == Some(q)
  {
    hide H.MatchAt, FindBehind;
    FindBehindIs(t, i);
  }

  lemma NoHitAtBreak(t: string, q: nat)
    requires q < |t| && t[q] == '\n'
    ensures !H.Hit(t, q)
  {
    hide H.MatchAt;
    if H.Hit(t, q) {
      DateOf(t, q);
    }
  }

  /** A document with two header lines: the check passes again for the version in the second one. */
  lemma UnknownUncoversNext(d1: string, d2: string)
    requires IsDate(d1) && IsDate(d2)
    ensures var t := LINE + "\n" + LINE;
      var n := Sync(t, "unknown", d1);
      n.Some? && UpToDate(n.value, Sync(n.value, "1.0.0", d2))
  {
    hide LINE, H.MatchAt, H.Find, IsDate, FindBehind;
    var front := LINE + "\n";
    var t := front + LINE;
    LineStart(t);
    LineMatches(t);
    H.FindIs(t, 0);
    LineBehind(front);
    NoHitAtBreak(t, 46);
    FirstIs(t, 46, 47);
    OneIsVersion();
    UnknownThenCheck(t, d1, "1.0.0", d2);
  }

  // ---- The overview ----

  /** Two tags, with a line break behind each, and what follows. */
  function TwoTags(m: string, m': string, rest: string): string {
    m + "\n" + m' + "\n" + rest
  }

  lemma TagsAreThere(m: string, m': string, rest: string)
    requires Tag(m) && Tag(m') && |m| > 5 && |m'| > 5 && m[5] != m'[5]
    ensures Find(TwoTags(m, m', rest), m) == Some(0) && Find(TwoTags(m, m', rest), m') == Some(|m| + 1)
  {
    var t := TwoTags(m, m', rest);
    assert OccursAt(t, m, 0);
    forall j | 0 <= j < |m| + 1
      ensures !OccursAt(t, m', j)
    {
      assert t[j] == if j < |m| then m[j] else '\n';
      if OccursAt(t, m', j) {
        OccursChar(t, m', j, j);
        if j == 0 {
          SameSixth(t, j, m, m');
        }
      }
    }
    FindIs(t, m, 0);
    FindIs(t, m', |m| + 1);
  }

  lemma SpliceEnds(t: string, front: string, block: string, b: string, e: string)
    requires t == front + LINE && Find(t, b).Some? && Find(t, e).Some? && Find(t, e).value + |e| <= |front|
    ensures var u := Splice(t, block, b, e); u.Some? && H.Find(u.value).Some?
  {
    hide LINE, Find, H.Find;
    var i, j := Find(t, b).value, Find(t, e).value + |e|;
    assert t[j..] == front[j..] + LINE;
    Reassociate(t[..i] + block, front[j..], LINE);
    HasHeader(t[..i] + block + front[j..]);
  }

  lemma Writes(t: string, front: string, rows: seq<Row>, version: string, today: string)
    requires t == front + LINE && Find(t, BEGIN).Some? && Find(t, END).Some? && Find(t, END).value + |END| <= |front|
    ensures NewOverview(t, rows, version, today).Some?
  {
    hide LINE, Find, H.Find, BEGIN, END, RenderBlock;
    SpliceEnds(t, front, RenderBlock(rows), BEGIN, END);
    SyncErrs(Splice(t, RenderBlock(rows), BEGIN, END).value, version, today);
  }

  /** With the end marker first, the writing mode runs, whatever the version and the rows, and leaves a longer text in
      which the markers are still in the wrong order. */
  lemma MisorderedRuns(rows: seq<Row>, version: string, today: string)
    requires PlainRows(rows) && ProjectVersion(version) && IsDate(today)
    ensures var t := TwoTags(END, BEGIN, LINE);
      var n := NewOverview(t, rows, version, today);
      && Misordered(t, BEGIN, END) && n.Some? && Misordered(n.value, BEGIN, END)
      && Opens(n.value) > Opens(t) && !OverviewCurrent(n.value, rows, version)
  {
    hide LINE, Find, H.Find, H.MatchAt, BEGIN, END, RenderBlock, Tag, IsBlock, Shut, IsDate, ProjectVersion, Opens, IsVersion;
    var t := TwoTags(END, BEGIN, LINE);
    TheMarkers();
    RenderedIsBlock(rows);
    TagsAreThere(END, BEGIN, LINE);
    var front := END + "\n" + BEGIN + "\n";
    Writes(t, front, rows, version, today);
    SpliceMisordered(t, RenderBlock(rows), BEGIN, END);
    SplicedMisordered(t, RenderBlock(rows), BEGIN, END);
    var u := Splice(t, RenderBlock(rows), BEGIN, END).value;
    SyncErrs(u, version, today);
    SyncOpens(u, version, today);
    SyncMisordered(u, BEGIN, END, version, today);
    MarkersOrder(Sync(u, version, today).value, BEGIN, END, CLOSE);
  }

  /** With the markers in order and no version, it runs as well, and its check then refuses the text on every day. */
  lemma UnknownRuns(rows: seq<Row>, today: string, later: string)
    requires PlainRows(rows) && IsDate(today) && IsDate(later)
    ensures var t := TwoTags(BEGIN, END, LINE);
      var n := NewOverview(t, rows, "unknown", today);
      && Ordered(t, BEGIN, END) && n.Some? && Ordered(n.value, BEGIN, END)
      && !UpToDate(n.value, NewOverview(n.value, rows, "unknown", later))
  {
    hide LINE, Find, H.Find, H.MatchAt, BEGIN, END, RenderBlock, Tag, IsBlock, Shut, IsDate, Stamped, BlankDate, IsVersion;
    var t := TwoTags(BEGIN, END, LINE);
    TheMarkers();
    RenderedIsBlock(rows);
    TagsAreThere(BEGIN, END, LINE);
    var front := BEGIN + "\n" + END + "\n";
    UnknownIsNoVersion();
    Writes(t, front, rows, "unknown", today);
    WrittenOrdered(t, RenderBlock(rows), BEGIN, END, CLOSE, "unknown", today);
    WriteThenCheck(t, RenderBlock(rows), BEGIN, END, CLOSE, "unknown", today, later);
  }
}
