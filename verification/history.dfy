/** Runs: any number of cuts and hand edits of the Unreleased block. */
module History {
  import opened Text
  import opened Sections
  import opened RoundTrip
  import opened Fragments
  import opened Changelog
  import opened Release
  import opened Framing

  /** A cut with the fragments found in the directory, or a hand edit of the text below `## [Unreleased]`. */
  datatype Event =
    | MakeRelease(entries: seq<Entry>, version: string, date: string)
    | Rewrite(body: string)

  /** A hand edit stays inside the Unreleased block. */
  predicate InsideBlock(t: string, body: string) {
    Split(t).Some? && Framed(Split(t).value.(body := body))
  }

  /** A cut that fails, and an edit that is none, leave the text alone. */
  function Step(t: string, e: Event): string {
    match e
    case MakeRelease(entries, version, date) =>
      var r := Cut(t, entries, version, date);
      if r.Ok? then r.value else t
    case Rewrite(body) =>
      if InsideBlock(t, body) then Assemble(Split(t).value.(body := body)) else t
  }

  function Run(t: string, es: seq<Event>): string
    decreases |es|
  {
    if es == [] then t else Run(Step(t, es[0]), es[1..])
  }

  /** The block a step adds, if it adds one. */
  function Added(t: string, e: Event): seq<string> {
    if e.MakeRelease? && Cut(t, e.entries, e.version, e.date).Ok?
    then [NewBlock(t, e.entries, e.version, e.date)]
    else []
  }

  /** The blocks a run adds, newest first. */
  function Blocks(t: string, es: seq<Event>): seq<string>
    decreases |es|
  {
    if es == [] then [] else Blocks(Step(t, es[0]), es[1..]) + Added(t, es[0])
  }

  function Concat(blocks: seq<string>): string {
    if blocks == [] then "" else blocks[0] + Concat(blocks[1..])
  }

  lemma {:induction false} ConcatAppend(a: seq<string>, b: seq<string>)
    ensures Concat(a + b) == Concat(a) + Concat(b)
  {
    if a == [] {
      assert a + b == b;
    } else {
      ConcatAppend(a[1..], b);
      assert (a + b)[1..] == a[1..] + b;
      Reassociate(a[0], Concat(a[1..]), Concat(b));
    }
  }

  lemma CutStepFrame(t: string, entries: seq<Entry>, version: string, date: string)
    requires Cut(t, entries, version, date).Ok?
    ensures Split(t).Some?
    ensures var p, block := Split(t).value, NewBlock(t, entries, version, date);
      Split(Cut(t, entries, version, date).value) == Some(Parts(p.head, "\n", Concat([block]) + p.tail))
  {
    CutFrame(t, entries, version, date);
    var block := NewBlock(t, entries, version, date);
    assert Concat([block]) == block;
  }

  lemma StepFrame(t: string, e: Event)
    requires Split(t).Some?
    ensures var p := Split(t).value;
      Split(Step(t, e)).Some? && Split(Step(t, e)).value.head == p.head
      && Split(Step(t, e)).value.tail == Concat(Added(t, e)) + p.tail
  {
    var p := Split(t).value;
    if Added(t, e) != [] {
      CutStepFrame(t, e.entries, e.version, e.date);
    } else if e.Rewrite? && InsideBlock(t, e.body) {
      SplitOfAssembled(p.(body := e.body));
    }
  }

  /**
   * After any run the changelog is the original head, an Unreleased block, the releases of the run newest first,
   * and the original older text, unchanged by a byte.
   */
  lemma {:induction false} RunKeepsHistory(t: string, es: seq<Event>)
    requires Split(t).Some?
    ensures var p := Split(t).value;
      Split(Run(t, es)).Some? && Split(Run(t, es)).value.head == p.head
      && Split(Run(t, es)).value.tail == Concat(Blocks(t, es)) + p.tail
    decreases |es|
  {
    if es != [] {
      var t' := Step(t, es[0]);
      StepFrame(t, es[0]);
      RunKeepsHistory(t', es[1..]);
      ConcatAppend(Blocks(t', es[1..]), Added(t, es[0]));
      Reassociate(Concat(Blocks(t', es[1..])), Concat(Added(t, es[0])), Split(t).value.tail);
    }
  }

  lemma {:induction false} RunAppend(t: string, a: seq<Event>, b: seq<Event>)
    ensures Run(t, a + b) == Run(Run(t, a), b)
    decreases |a|
  {
    if a == [] {
      assert a + b == b;
    } else {
      assert (a + b)[1..] == a[1..] + b;
      RunAppend(Step(t, a[0]), a[1..], b);
    }
  }

  /** What has been released at some moment is, byte for byte, the end of the changelog at every later moment. */
  lemma ReleasesAreForever(t: string, before: seq<Event>, after: seq<Event>)
    requires Split(t).Some?
    ensures var now, later := Run(t, before), Run(t, before + after);
      Split(now).Some? && Split(later).Some?
      && Split(later).value.tail == Concat(Blocks(now, after)) + Split(now).value.tail
  {
    RunKeepsHistory(t, before);
    RunAppend(t, before, after);
    RunKeepsHistory(Run(t, before), after);
  }

  // ---- The blocks can be told apart again ----

  /** The blocks of the older text: each from one `## ` header to the next. */
  function Chopped(tail: string): seq<string>
    decreases |tail|
  {
    if tail == "" then []
    else
      var n := NextHeader(tail, 1);
      [tail[..n]] + Chopped(tail[n..])
  }

  /** `--version X.Y.Z` and `--date YYYY-MM-DD` as the command line checks them. */
  predicate ArgumentsOk(version: string, date: string) {
    IsVersion(BeforeFinalNewline(version)) && IsDate(BeforeFinalNewline(date))
  }

  predicate Accepted(e: Event) {
    e.MakeRelease? ==> ArgumentsOk(e.version, e.date)
  }

  predicate AllAccepted(es: seq<Event>) {
    es == [] || (Accepted(es[0]) && AllAccepted(es[1..]))
  }

  lemma {:induction false} DigitsAreNoHash(s: string, i: nat)
    requires i <= |s|
    ensures forall k | i <= k < DigitsEnd(s, i) :: s[k] != '#'
    decreases |s| - i
  {
    if i < |s| && IsDigit(s[i]) {
      DigitsAreNoHash(s, i + 1);
    }
  }

  lemma VersionIsNoHash(s: string)
    requires IsVersion(s)
    ensures NoHash(s)
  {
    var a := DigitsEnd(s, 0);
    var b := DigitsEnd(s, a + 1);
    DigitsAreNoHash(s, 0);
    DigitsAreNoHash(s, a + 1);
    DigitsAreNoHash(s, b + 1);
  }

  lemma NoHashBeforeNewline(s: string)
    requires NoHash(BeforeFinalNewline(s))
    ensures NoHash(s)
  {
    var b := BeforeFinalNewline(s);
    assert forall i | 0 <= i < |b| :: s[i] == b[i];
  }

  lemma AcceptedIsNoHash(version: string, date: string)
    requires ArgumentsOk(version, date)
    ensures NoHash(version) && NoHash(date)
  {
    VersionIsNoHash(BeforeFinalNewline(version));
    NoHashBeforeNewline(version);
    NoHashBeforeNewline(date);
  }

  lemma ChoppedCons(block: string, tail: string)
    requires block != "" && NextHeader(block + tail, 1) == |block|
    ensures Chopped(block + tail) == [block] + Chopped(tail)
  {
    var t := block + tail;
    assert t[..|block|] == block && t[|block|..] == tail;
  }

  lemma NewBlockIsIsolated(t: string, entries: seq<Entry>, version: string, date: string)
    requires Cut(t, entries, version, date).Ok? && NoHash(version) && NoHash(date)
    ensures Split(t).Some?
    ensures var block, tail := NewBlock(t, entries, version, date), Split(t).value.tail;
      block != "" && NextHeader(block + tail, 1) == |block|
  {
    SplitFramed(t);
    MergedPrintable(Split(t).value.body, entries);
    BlockIsIsolated(MergedOf(t, entries), version, date, Split(t).value.tail);
  }

  /** At most one block, which ends where the next header begins. */
  predicate Isolated(blocks: seq<string>, tail: string) {
    blocks == [] || (|blocks| == 1 && blocks[0] != "" && NextHeader(blocks[0] + tail, 1) == |blocks[0]|)
  }

  lemma AddedIsIsolated(t: string, e: Event)
    requires Split(t).Some? && Accepted(e)
    ensures Isolated(Added(t, e), Split(t).value.tail)
  {
    if Added(t, e) != [] {
      AcceptedIsNoHash(e.version, e.date);
      NewBlockIsIsolated(t, e.entries, e.version, e.date);
    }
  }

  lemma IsolatedChopped(blocks: seq<string>, tail: string)
    requires Isolated(blocks, tail)
    ensures Chopped(Concat(blocks) + tail) == blocks + Chopped(tail)
  {
    if blocks == [] {
      assert Concat(blocks) + tail == tail;
    } else {
      assert Concat(blocks) == blocks[0] && blocks == [blocks[0]];
      ChoppedCons(blocks[0], tail);
    }
  }

  lemma StepChopped(t: string, e: Event)
    requires Split(t).Some? && Accepted(e)
    ensures Split(Step(t, e)).Some?
    ensures Chopped(Split(Step(t, e)).value.tail) == Added(t, e) + Chopped(Split(t).value.tail)
  {
    StepFrame(t, e);
    AddedIsIsolated(t, e);
    IsolatedChopped(Added(t, e), Split(t).value.tail);
  }

  /** Splitting the older text at its headers gives the releases of the run newest first, then the original blocks. */
  lemma {:induction false} RunChopped(t: string, es: seq<Event>)
    requires Split(t).Some? && AllAccepted(es)
    ensures Split(Run(t, es)).Some?
    ensures Chopped(Split(Run(t, es)).value.tail) == Blocks(t, es) + Chopped(Split(t).value.tail)
    decreases |es|
  {
    if es != [] {
      var t' := Step(t, es[0]);
      StepChopped(t, es[0]);
      RunChopped(t', es[1..]);
      Reassociate(Blocks(t', es[1..]), Added(t, es[0]), Chopped(Split(t).value.tail));
    }
  }

  lemma {:induction false} RunBlocks(t: string, es: seq<Event>, x: string)
    requires es != [] && Split(t).Some? && AllAccepted(es) && x in Added(t, es[0])
    ensures Split(Run(t, es)).Some? && x in Chopped(Split(Run(t, es)).value.tail)
  {
    hide Added, Chopped, Split, Step, Run, NextHeader;
    RunChopped(t, es);
    assert Blocks(t, es) == Blocks(Step(t, es[0]), es[1..]) + Added(t, es[0]);
  }

  /** The block of a cut, on its own, reads back as what was merged then. */
  lemma NewBlockReads(t: string, entries: seq<Entry>, version: string, date: string)
    requires Cut(t, entries, version, date).Ok? && NoHash(version) && NoHash(date)
    ensures Split(t).Some?
    ensures var x := NewBlock(t, entries, version, date);
      x != "" && Parsed(NewestBody(x)) == Meaning(MergedOf(t, entries))
  {
    hide Split, Parsed, Meaning, NewestBody, NoHash, Grouping, LintsClean, Assemble;
    MergedPrintable(Split(t).value.body, entries);
    NewestBodyOf(MergedOf(t, entries), version, date, "");
    var x := NewBlock(t, entries, version, date);
    assert x + "" == x;
    NewBlockIsIsolated(t, entries, version, date);
  }

  lemma {:induction false} AcceptedAppend(a: seq<Event>, b: seq<Event>)
    requires AllAccepted(a + b)
    ensures AllAccepted(a) && AllAccepted(b)
  {
    if a == [] {
      assert a + b == b;
    } else {
      assert (a + b)[1..] == a[1..] + b;
      AcceptedAppend(a[1..], b);
    }
  }

  /** Every successful cut of a run has, at the end of the run, a block of its own in the older text that still reads back as
      what was merged at that cut. */
  lemma ReleaseStaysReadable(t: string, before: seq<Event>, entries: seq<Entry>, version: string, date: string, after: seq<Event>)
    requires Split(t).Some? && AllAccepted(before + ([MakeRelease(entries, version, date)] + after))
    requires Cut(Run(t, before), entries, version, date).Ok?
    ensures var now, end := Run(t, before), Run(t, before + ([MakeRelease(entries, version, date)] + after));
      var x := NewBlock(now, entries, version, date);
      && Split(now).Some? && Split(end).Some?
      && x in Chopped(Split(end).value.tail)
      && "## [" + version + "] - " + date + "\n" <= x
      && x != "" && Parsed(NewestBody(x)) == Meaning(MergedOf(now, entries))
  {
    hide Split, Cut, Chopped, Parsed, NewestBody, Meaning, MergedOf, NewBlock, Run, NoHash, ArgumentsOk;
    var e := MakeRelease(entries, version, date);
    var now, rest := Run(t, before), [e] + after;
    AcceptedAppend(before, rest);
    assert Accepted(e);
    AcceptedIsNoHash(version, date);
    RunKeepsHistory(t, before);
    RunAppend(t, before, rest);
    RunBlocks(now, rest, NewBlock(now, entries, version, date));
    NewBlockReads(now, entries, version, date);
    CutTitle(now, entries, version, date);
  }

  lemma {:induction false} DigitsAreDigits(s: string, i: nat)
    requires i <= |s|
    ensures forall k | i <= k < DigitsEnd(s, i) :: IsDigit(s[k])
    decreases |s| - i
  {
    if i < |s| && IsDigit(s[i]) {
      DigitsAreDigits(s, i + 1);
    }
  }

  lemma VersionHasNoBracket(version: string)
    requires IsVersion(BeforeFinalNewline(version))
    ensures forall k | 0 <= k < |version| :: version[k] != ']'
  {
    var s := BeforeFinalNewline(version);
    var a := DigitsEnd(s, 0);
    var b := DigitsEnd(s, a + 1);
    DigitsAreDigits(s, 0);
    DigitsAreDigits(s, a + 1);
    DigitsAreDigits(s, b + 1);
    assert forall k | 0 <= k < |s| :: version[k] == s[k];
  }

  lemma SameLength(x: string, v: string, v': string)
    requires "## [" + v + "]" <= x && "## [" + v' + "]" <= x && |v| <= |v'|
    requires forall k | 0 <= k < |v'| :: v'[k] != ']'
    ensures v == v'
  {
    var a, a' := "## [" + v + "]", "## [" + v' + "]";
    assert a[4 + |v|] == ']' && x[4 + |v|] == ']';
    assert forall k | 0 <= k < |v'| :: v'[k] == a'[4 + k] && a'[4 + k] == x[4 + k];
    assert v == x[4..4 + |v|] && v' == x[4..4 + |v'|];
  }

  lemma Front(version: string, date: string, x: string)
    requires "## [" + version + "] - " + date + "\n" <= x
    ensures "## [" + version + "]" <= x
    ensures 8 + |version| + |date| < |x| && x[8 + |version|..8 + |version| + |date|] == date
  {
    var t := "## [" + version + "] - " + date + "\n";
    assert t[..5 + |version|] == "## [" + version + "]";
    assert x[..|t|] == t;
    assert t[8 + |version|..8 + |version| + |date|] == date;
    assert x[..|t|][8 + |version|..8 + |version| + |date|] == x[8 + |version|..8 + |version| + |date|];
  }

  lemma DateHead(date: string)
    requires IsDate(BeforeFinalNewline(date))
    ensures |date| >= 10 && BeforeFinalNewline(date) == date[..10]
  {
  }

  /** Version and date can be read back from the title of a block; of the date, not whether it was given with a newline. */
  lemma TitleReadsBack(version: string, date: string, version': string, date': string, x: string)
    requires ArgumentsOk(version, date) && ArgumentsOk(version', date')
    requires "## [" + version + "] - " + date + "\n" <= x && "## [" + version' + "] - " + date' + "\n" <= x
    ensures version == version' && BeforeFinalNewline(date) == BeforeFinalNewline(date')
  {
    hide IsVersion, IsDate, BeforeFinalNewline;
    Front(version, date, x);
    Front(version', date', x);
    VersionHasNoBracket(version);
    VersionHasNoBracket(version');
    if |version| <= |version'| {
      SameLength(x, version, version');
    } else {
      SameLength(x, version', version);
    }
    DateHead(date);
    DateHead(date');
    var n := 8 + |version|;
    assert x[n..n + |date|][..10] == x[n..n + 10] == x[n..n + |date'|][..10];
  }
}
