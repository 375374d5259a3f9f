/** What `strip("\n")` does to joined lines: it drops the empty lines at either end. */
module Trimming {
  import opened Text

  function DropEmptyTail(ls: seq<string>): seq<string> {
    if ls != [] && ls[|ls| - 1] == "" then DropEmptyTail(ls[..|ls| - 1]) else ls
  }

  function DropEmptyHead(ls: seq<string>): seq<string> {
    if ls != [] && ls[0] == "" then DropEmptyHead(ls[1..]) else ls
  }

  lemma LstripNewline(s: string)
    ensures LstripNewlines("\n" + s) == LstripNewlines(s)
  {
    assert ("\n" + s)[1..] == s;
  }

  lemma RstripNewline(s: string)
    ensures RstripNewlines(s + "\n") == RstripNewlines(s)
  {
    assert (s + "\n")[..|s|] == s;
  }

  lemma JoinFirst(ls: seq<string>)
    requires ls != []
    ensures ls[0] != "" ==> Join(ls) != "" && Join(ls)[0] == ls[0][0]
    ensures ls[0] == "" && |ls| > 1 ==> Join(ls) == "\n" + Join(ls[1..])
  {
  }

  lemma JoinLast(ls: seq<string>)
    requires ls != []
    ensures var l := ls[|ls| - 1]; l != "" ==> Join(ls) != "" && Join(ls)[|Join(ls)| - 1] == l[|l| - 1]
    ensures ls[|ls| - 1] == "" && |ls| > 1 ==> Join(ls) == Join(ls[..|ls| - 1]) + "\n"
  {
    JoinIsLastOpen(ls);
    if |ls| > 1 {
      JoinIsTerminated(ls[..|ls| - 1]);
    }
  }

  lemma {:induction false} LstripJoin(ls: seq<string>)
    requires OneLiners(ls)
    ensures LstripNewlines(Join(ls)) == Join(DropEmptyHead(ls))
  {
    if ls != [] {
      JoinFirst(ls);
      if ls[0] == "" {
        LstripJoin(ls[1..]);
        LstripNewline(Join(ls[1..]));
      } else {
        assert OneLine(ls[0]);
      }
    }
  }

  lemma {:induction false} RstripJoin(ls: seq<string>)
    requires OneLiners(ls)
    ensures RstripNewlines(Join(ls)) == Join(DropEmptyTail(ls))
  {
    if ls != [] {
      var n := |ls| - 1;
      JoinLast(ls);
      if ls[n] == "" {
        RstripJoin(ls[..n]);
        RstripNewline(Join(ls[..n]));
      } else {
        assert OneLine(ls[n]);
      }
    }
  }

  lemma {:induction false} DropEmptyTailEnds(ls: seq<string>)
    requires OneLiners(ls)
    ensures DropEmptyTail(ls) == [] || DropEmptyTail(ls)[|DropEmptyTail(ls)| - 1] != ""
    ensures OneLiners(DropEmptyTail(ls))
  {
    if ls != [] && ls[|ls| - 1] == "" {
      DropEmptyTailEnds(ls[..|ls| - 1]);
    }
  }

  lemma {:induction false} DropEmptyHeadEnds(ls: seq<string>)
    requires OneLiners(ls)
    ensures OneLiners(DropEmptyHead(ls))
  {
    if ls != [] && ls[0] == "" {
      DropEmptyHeadEnds(ls[1..]);
    }
  }

  /** The lines `flush` reads are the buffered lines without the empty ones at either end. */
  lemma FlushedLines(buf: seq<string>)
    requires OneLiners(buf)
    ensures Lines(StripNewlines(Join(buf))) == DropEmptyTail(DropEmptyHead(buf))
  {
    var inner := DropEmptyHead(buf);
    LstripJoin(buf);
    DropEmptyHeadEnds(buf);
    RstripJoin(inner);
    var core := DropEmptyTail(inner);
    DropEmptyTailEnds(inner);
    if core != [] {
      LinesOfJoin(core);
    }
  }
}
