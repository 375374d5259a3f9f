/** The command palette: the list shown and the command run come from two scans (shared/nexis/command_palette.cpp). */
module Palette {
  import opened Text

  datatype Command = Command(name: string, category: string)

  predicate MatchesAt(s: string, m: string, i: nat)
    requires i + |m| <= |s|
  {
    forall j | 0 <= j < |m| :: LowerChar(s[i + j]) == LowerChar(m[j])
  }

  /** `s.contains(m, Qt::CaseInsensitive)` */
  predicate Contains(s: string, m: string) {
    exists i :: 0 <= i <= |s| - |m| && MatchesAt(s, m, i)
  }

  /** The filter that both scans apply. */
  predicate Matches(c: Command, text: string) {
    text == "" || Contains(c.name, text) || Contains(c.category, text)
  }

  function Label(c: Command): string {
    c.category + "  \U{2014}  " + c.name
  }

  lemma MatchSplits(s: string, m: string, i: nat)
    requires i + |m| <= |s| && MatchesAt(s, m, i)
    ensures i + |m| <= |Lower(s)| && Lower(s) == Lower(s)[..i] + Lower(m) + Lower(s)[i + |m|..]
  {
    LowerAt(s);
    LowerAt(m);
    var t := Lower(s)[i..i + |m|];
    assert |t| == |Lower(m)| && forall j | 0 <= j < |m| :: t[j] == LowerChar(s[i + j]) == Lower(m)[j];
    assert t == Lower(m);
  }

  /** A name contains a text if and only if the lower-cased text is a contiguous part of the lower-cased name. */
  lemma ContainsIs(s: string, m: string)
    ensures Contains(s, m) <==> exists a, b :: Lower(s) == a + Lower(m) + b
  {
    LowerAt(s);
    LowerAt(m);
    if Contains(s, m) {
      var i :| 0 <= i <= |s| - |m| && MatchesAt(s, m, i);
      MatchSplits(s, m, i);
    }
    if a, b :| Lower(s) == a + Lower(m) + b {
      var t := a + Lower(m) + b;
      assert forall j | 0 <= j < |m| :: t[|a| + j] == Lower(m)[j];
      assert MatchesAt(s, m, |a|);
    }
  }

  /** Both scans keep a command if and only if the search text is empty or a part of its name or category, in any case. */
  lemma MatchesIs(c: Command, text: string)
    ensures Matches(c, text) <==>
      || text == ""
      || (exists a, b :: Lower(c.name) == a + Lower(text) + b)
      || (exists a, b :: Lower(c.category) == a + Lower(text) + b)
  {
    hide Contains;
    ContainsIs(c.name, text);
    ContainsIs(c.category, text);
  }

  /** The indices of the matching commands. */
  function Matching(cs: seq<Command>, text: string): (r: seq<nat>)
    ensures forall k | 0 <= k < |r| :: r[k] < |cs| && Matches(cs[r[k]], text)
  {
    if cs == [] then []
    else
      var n := |cs| - 1;
      var r := Matching(cs[..n], text);
      if Matches(cs[n], text) then r + [n] else r
  }

  function Labels(cs: seq<Command>, r: seq<nat>): (ls: seq<string>)
    requires forall k | 0 <= k < |r| :: r[k] < |cs|
    ensures |ls| == |r|
  {
    seq(|r|, k requires 0 <= k < |r| => Label(cs[r[k]]))
  }

  lemma LabelsAre(cs: seq<Command>, r: seq<nat>)
    requires forall k | 0 <= k < |r| :: r[k] < |cs|
    ensures forall k | 0 <= k < |r| :: Labels(cs, r)[k] == cs[r[k]].category + "  \U{2014}  " + cs[r[k]].name
  {
  }

  lemma MatchingNext(cs: seq<Command>, text: string, n: nat)
    requires n < |cs|
    ensures Matching(cs[..n + 1], text) == if Matches(cs[n], text) then Matching(cs[..n], text) + [n] else Matching(cs[..n], text)
  {
    assert cs[..n + 1][..n] == cs[..n];
  }

  /** Commands added later match behind the others. */
  lemma {:induction false} MatchingGrows(cs: seq<Command>, n: nat, text: string)
    requires n <= |cs|
    ensures Matching(cs[..n], text) <= Matching(cs, text)
    decreases |cs| - n
  {
    if n < |cs| {
      MatchingGrows(cs, n + 1, text);
      MatchingNext(cs, text, n);
    } else {
      assert cs[..n] == cs;
    }
  }

  /** The command reached after row matches is the one that was listed in that row. */
  lemma SameRow(cs: seq<Command>, n: nat, text: string, i: nat, row: nat)
    requires n <= |cs| && i < |cs| && row < |Matching(cs[..n], text)|
    requires row == |Matching(cs[..i], text)| && Matches(cs[i], text)
    ensures i < n && Matching(cs[..n], text)[row] == i && Labels(cs[..n], Matching(cs[..n], text))[row] == Label(cs[i])
    ensures Label(cs[i]) == cs[i].category + "  \U{2014}  " + cs[i].name
  {
    hide Matches;
    MatchingNext(cs, text, i);
    MatchingGrows(cs, i + 1, text);
    MatchingGrows(cs, n, text);
    assert Matching(cs, text)[row] == i;
  }

  class CommandPalette {
    var commands: seq<Command>
    var text: string
    var rows: seq<string>
    var currentRow: int
    var visible: bool
    /** The number of commands when the list was last filtered. */
    ghost var filtered: nat

    /** The rows are the labels of the commands that matched at the last filtering, and the current row is one of them. */
    ghost predicate Valid()
      reads this
    {
      && filtered <= |commands|
      && (rows == [] ==> currentRow == -1)
      && (rows != [] ==> 0 <= currentRow < |rows|)
      && rows == Labels(commands[..filtered], Matching(commands[..filtered], text))
    }

    constructor ()
      ensures Valid() && commands == [] && rows == [] && text == ""
    {
      commands, text, rows, currentRow, visible, filtered := [], "", [], -1, false, 0;
    }

    method AddCommand(name: string, category: string)
      requires Valid()
      modifies this`commands
      ensures Valid() && commands == old(commands) + [Command(name, category)]
    {
      commands := commands + [Command(name, category)];
      assert commands[..filtered] == old(commands)[..filtered];
    }

    /** `filterCommands`, which the search box calls with its text. */
    method FilterCommands()
      modifies this`rows, this`currentRow, this`filtered
      ensures Valid() && filtered == |commands|
      ensures rows == Labels(commands, Matching(commands, text))
      ensures |rows| == |Matching(commands, text)| && forall k | 0 <= k < |rows| ::
        var cmd := commands[Matching(commands, text)[k]]; rows[k] == cmd.category + "  \U{2014}  " + cmd.name
      ensures currentRow == if rows == [] then -1 else 0
    {
      hide Contains, Label;
      rows, currentRow := [], -1;
      for i := 0 to |commands|
        invariant currentRow == -1
        invariant rows == Labels(commands, Matching(commands[..i], text))
      {
        MatchingNext(commands, text, i);
        var cmd := commands[i];
        if text == "" || Contains(cmd.name, text) || Contains(cmd.category, text) {
          rows := rows + [Label(cmd)];
        }
      }
      assert commands[..|commands|] == commands;
      LabelsAre(commands, Matching(commands, text));
      filtered := |commands|;
      if |rows| > 0 {
        currentRow := 0;
      }
    }

    /** `show` */
    method Show()
      modifies this`text, this`rows, this`currentRow, this`filtered, this`visible
      ensures Valid() && visible && text == "" && filtered == |commands|
    {
      text := "";
      FilterCommands();
      visible := true;
    }

    /** The text of the search box changes. */
    method Type(newText: string)
      requires Valid()
      modifies this`text, this`rows, this`currentRow, this`filtered
      ensures Valid() && text == newText
    {
      if newText != text {
        text := newText;
        FilterCommands();
      }
    }

    method KeyUp()
      requires Valid()
      modifies this`currentRow
      ensures Valid() && currentRow == if old(currentRow) > 0 then old(currentRow) - 1 else old(currentRow)
    {
      if currentRow > 0 {
        currentRow := currentRow - 1;
      }
    }

    method KeyDown()
      requires Valid()
      modifies this`currentRow
      ensures Valid() && currentRow == if old(currentRow) < |rows| - 1 then old(currentRow) + 1 else old(currentRow)
    {
      if currentRow < |rows| - 1 {
        currentRow := currentRow + 1;
      }
    }

    /** A row is clicked. */
    method Select(row: nat)
      requires Valid() && row < |rows|
      modifies this`currentRow
      ensures Valid() && currentRow == row
    {
      currentRow := row;
    }

    /** `executeSelected`: the index of the command that runs. It is the one whose label is in the current row, whatever
        commands were added since the list was filtered; with rows on display there always is one. */
    method ExecuteSelected() returns (run: Option<nat>)
      requires Valid()
      modifies this`visible
      ensures run.Some? <==> rows != []
      ensures run.Some? ==>
        && run.value < filtered && Matches(commands[run.value], text)
        && rows[currentRow] == commands[run.value].category + "  \U{2014}  " + commands[run.value].name
        && Matching(commands[..filtered], text)[currentRow] == run.value
      ensures visible == (old(visible) && run.None?)
    {
      hide Label, Contains, Labels;
      if currentRow < 0 {
        return None;
      }
      var matchIndex := 0;
      for i := 0 to |commands|
        invariant visible == old(visible)
        invariant matchIndex == |Matching(commands[..i], text)| <= currentRow
      {
        MatchingNext(commands, text, i);
        var cmd := commands[i];
        if text == "" || Contains(cmd.name, text) || Contains(cmd.category, text) {
          if matchIndex == currentRow {
            SameRow(commands, filtered, text, i, matchIndex);
            visible := false;
            return Some(i);
          }
          matchIndex := matchIndex + 1;
        }
      }
      assert commands[..|commands|] == commands;
      MatchingGrows(commands, filtered, text);
      return None;
    }
  }

  /** Every matching command has exactly one row: the indices ascend and none is left out. */
  lemma {:induction false} MatchingIsExact(cs: seq<Command>, text: string, i: nat)
    ensures i in Matching(cs, text) <==> i < |cs| && Matches(cs[i], text)
    ensures var r := Matching(cs, text); forall k, l | 0 <= k < l < |r| :: r[k] < r[l]
  {
    hide Matches;
    if cs != [] {
      MatchingIsExact(cs[..|cs| - 1], text, i);
    }
  }
}
