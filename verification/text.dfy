/** Strings as the Python scripts see them: '\n' separates lines, and a blank, a tab and '\n' are white space. */
module Text {
  datatype Option<+T> = None | Some(value: T)

  predicate IsSpace(c: char) {
    c == ' ' || c == '\t' || c == '\n'
  }

  /** `not s.strip()` */
  predicate Blank(s: string) {
    forall i | 0 <= i < |s| :: IsSpace(s[i])
  }

  /** `s.rstrip()` */
  function Rstrip(s: string): (r: string)
    ensures r <= s
    ensures r == "" || !IsSpace(r[|r| - 1])
  {
    if s != "" && IsSpace(s[|s| - 1]) then Rstrip(s[..|s| - 1]) else s
  }

  /** `s.lstrip()` */
  function Lstrip(s: string): (r: string)
    ensures |r| <= |s|
    ensures r == "" || !IsSpace(r[0])
  {
    if s != "" && IsSpace(s[0]) then Lstrip(s[1..]) else s
  }

  /** `s.strip()` */
  function Strip(s: string): string {
    Rstrip(Lstrip(s))
  }

  /** `s.rstrip("\n")` */
  function RstripNewlines(s: string): (r: string)
    ensures r <= s
    ensures r == "" || r[|r| - 1] != '\n'
  {
    if s != "" && s[|s| - 1] == '\n' then RstripNewlines(s[..|s| - 1]) else s
  }

  /** `s.lstrip("\n")` */
  function LstripNewlines(s: string): (r: string)
    ensures |r| <= |s|
    ensures r == "" || r[0] != '\n'
  {
    if s != "" && s[0] == '\n' then LstripNewlines(s[1..]) else s
  }

  /** `s.strip("\n")` */
  function StripNewlines(s: string): string {
    RstripNewlines(LstripNewlines(s))
  }

  /** The index of the first '\n', or |s|. */
  function LineEnd(s: string): (k: nat)
    ensures k <= |s|
    ensures k < |s| ==> s[k] == '\n'
  {
    if s == "" || s[0] == '\n' then 0 else 1 + LineEnd(s[1..])
  }

  /** `s.splitlines()` */
  function Lines(s: string): (ls: seq<string>)
    ensures ls == [] <==> s == ""
  {
    if s == "" then []
    else
      var k := LineEnd(s);
      if k == |s| then [s] else [s[..k]] + Lines(s[k + 1..])
  }

  /** `"\n".join(ls)` */
  function Join(ls: seq<string>): string {
    if ls == [] then "" else if |ls| == 1 then ls[0] else ls[0] + "\n" + Join(ls[1..])
  }

  predicate OneLine(l: string) {
    forall i | 0 <= i < |l| :: l[i] != '\n'
  }

  predicate OneLiners(ls: seq<string>) {
    forall i | 0 <= i < |ls| :: OneLine(ls[i])
  }

  lemma {:induction false} LineEndIsFirst(s: string)
    ensures OneLine(s[..LineEnd(s)])
  {
    if s != "" && s[0] != '\n' {
      LineEndIsFirst(s[1..]);
      assert s[..LineEnd(s)] == [s[0]] + s[1..][..LineEnd(s[1..])];
    }
  }

  lemma {:induction false} LinesAreOneLiners(s: string)
    ensures OneLiners(Lines(s))
    decreases |s|
  {
    var k := LineEnd(s);
    LineEndIsFirst(s);
    if k < |s| {
      LinesAreOneLiners(s[k + 1..]);
    }
  }

  lemma {:induction false} LineEndPrefix(l: string, rest: string)
    requires OneLine(l)
    ensures LineEnd(l + "\n" + rest) == |l|
  {
    if l != "" {
      LineEndPrefix(l[1..], rest);
      assert (l + "\n" + rest)[1..] == l[1..] + "\n" + rest;
    }
  }

  /** Lines of text that starts with a terminated line. */
  lemma LinesCons(l: string, rest: string)
    requires OneLine(l)
    ensures Lines(l + "\n" + rest) == [l] + Lines(rest)
  {
    LineEndPrefix(l, rest);
    var s := l + "\n" + rest;
    assert s[..|l|] == l && s[|l| + 1..] == rest;
  }

  lemma {:induction false} LineEndOfLine(l: string)
    requires OneLine(l)
    ensures LineEnd(l) == |l|
  {
    if l != "" {
      LineEndOfLine(l[1..]);
    }
  }

  lemma LinesSingle(l: string)
    requires OneLine(l) && l != ""
    ensures Lines(l) == [l]
  {
    LineEndOfLine(l);
  }

  predicate All(p: string -> bool, ls: seq<string>) {
    ls == [] || (p(ls[0]) && All(p, ls[1..]))
  }

  lemma {:induction false} AllAppend(p: string -> bool, a: seq<string>, b: seq<string>)
    requires All(p, a) && All(p, b)
    ensures All(p, a + b)
  {
    if a == [] {
      assert a + b == b;
    } else {
      AllAppend(p, a[1..], b);
      assert (a + b)[1..] == a[1..] + b;
    }
  }

  lemma BlankParts(s: string, k: nat)
    requires Blank(s) && k <= |s|
    ensures Blank(s[..k]) && Blank(s[k..])
  {
  }

  lemma Reassociate<T>(a: seq<T>, b: seq<T>, c: seq<T>)
    ensures (a + b) + c == a + (b + c)
  {
  }

  /** Every line followed by its newline. */
  function Terminated(ls: seq<string>): string {
    if ls == [] then "" else ls[0] + "\n" + Terminated(ls[1..])
  }

  lemma {:induction false} JoinIsTerminated(ls: seq<string>)
    requires ls != []
    ensures Join(ls) + "\n" == Terminated(ls)
  {
    if |ls| > 1 {
      JoinIsTerminated(ls[1..]);
      assert Join(ls) + "\n" == ls[0] + "\n" + (Join(ls[1..]) + "\n");
    }
  }

  lemma {:induction false} TerminatedAppend(a: seq<string>, b: seq<string>)
    ensures Terminated(a + b) == Terminated(a) + Terminated(b)
  {
    if a == [] {
      assert a + b == b;
    } else {
      TerminatedAppend(a[1..], b);
      assert (a + b)[1..] == a[1..] + b;
      Reassociate(a[0] + "\n", Terminated(a[1..]), Terminated(b));
    }
  }

  lemma {:induction false} LinesOfTerminatedThen(ls: seq<string>, rest: string)
    requires OneLiners(ls)
    ensures Lines(Terminated(ls) + rest) == ls + Lines(rest)
  {
    if ls == [] {
      assert Terminated(ls) + rest == rest;
    } else {
      Reassociate(ls[0] + "\n", Terminated(ls[1..]), rest);
      LinesCons(ls[0], Terminated(ls[1..]) + rest);
      LinesOfTerminatedThen(ls[1..], rest);
      Reassociate([ls[0]], ls[1..], Lines(rest));
      assert [ls[0]] + ls[1..] == ls;
    }
  }

  lemma {:induction false} JoinIsLastOpen(ls: seq<string>)
    requires ls != []
    ensures Join(ls) == Terminated(ls[..|ls| - 1]) + ls[|ls| - 1]
  {
    if |ls| > 1 {
      JoinIsLastOpen(ls[1..]);
      assert ls[..|ls| - 1][1..] == ls[1..][..|ls| - 2];
    }
  }

  lemma LinesOfNothing()
    ensures Lines("") == []
  {
  }

  /** Splitting undoes joining, except that `splitlines` drops one empty last line. */
  lemma LinesOfJoin(ls: seq<string>)
    requires ls != [] && OneLiners(ls)
    ensures Lines(Join(ls)) == if ls[|ls| - 1] == "" then ls[..|ls| - 1] else ls
  {
    hide Lines, Join, Terminated;
    var n := |ls| - 1;
    var l := ls[n];
    assert ls == ls[..n] + [l];
    JoinIsLastOpen(ls);
    LinesOfTerminatedThen(ls[..n], l);
    if l != "" {
      LinesSingle(l);
    } else {
      LinesOfNothing();
      assert ls[..n] + [] == ls[..n];
    }
  }

  lemma JoinCons(l: string, ls: seq<string>)
    requires ls != []
    ensures Join([l] + ls) == l + "\n" + Join(ls)
  {
    assert ([l] + ls)[1..] == ls;
  }

  /** Joining undoes splitting, up to one final newline. */
  lemma {:induction false} JoinOfLines(s: string)
    requires s != ""
    ensures Join(Lines(s)) == if s[|s| - 1] == '\n' then s[..|s| - 1] else s
    decreases |s|
  {
    var k := LineEnd(s);
    if k == |s| {
      LineEndIsFirst(s);
      assert s[..k] == s;
    } else {
      var first, rest := s[..k] + "\n", s[k + 1..];
      assert s == first + rest;
      if rest != "" {
        JoinOfLines(rest);
        JoinCons(s[..k], Lines(rest));
        if s[|s| - 1] == '\n' {
          assert s[..|s| - 1] == first + rest[..|rest| - 1];
        }
      }
    }
  }

  lemma {:induction false} JoinAppend(a: seq<string>, b: seq<string>)
    requires a != [] && b != []
    ensures Join(a + b) == Join(a) + "\n" + Join(b)
  {
    if |a| == 1 {
      assert (a + b)[1..] == b;
    } else {
      JoinAppend(a[1..], b);
      assert (a + b)[1..] == a[1..] + b;
    }
  }

  predicate Distinct<T(==)>(s: seq<T>) {
    forall i, j | 0 <= i < j < |s| :: s[i] != s[j]
  }

  // ---- Letters and digits ----

  function LowerChar(c: char): char {
    if 'A' <= c <= 'Z' then c - 'A' + 'a' else c
  }

  /** `s.lower()` */
  function Lower(s: string): string {
    if s == "" then "" else [LowerChar(s[0])] + Lower(s[1..])
  }

  lemma {:induction false} LowerAt(s: string)
    ensures |Lower(s)| == |s| && forall i | 0 <= i < |s| :: Lower(s)[i] == LowerChar(s[i])
  {
    if s != "" {
      LowerAt(s[1..]);
    }
  }

  /** Texts of equal length are equal up to case if and only if they are letter by letter. */
  lemma SameLower(a: string, b: string)
    ensures Lower(a) == Lower(b) <==> |a| == |b| && forall i | 0 <= i < |a| :: LowerChar(a[i]) == LowerChar(b[i])
  {
    LowerAt(a);
    LowerAt(b);
    if Lower(a) == Lower(b) {
      assert forall i | 0 <= i < |a| :: Lower(a)[i] == Lower(b)[i];
    }
  }

  predicate IsDigit(c: char) {
    '0' <= c <= '9'
  }

  /** The end of the run of digits that starts at i. */
  function DigitsEnd(s: string, i: nat): (r: nat)
    requires i <= |s|
    ensures i <= r <= |s| && (r == |s| || !IsDigit(s[r]))
    decreases |s| - i
  {
    if i < |s| && IsDigit(s[i]) then DigitsEnd(s, i + 1) else i
  }

  /** The end of the match of `\d+\.\d+\.\d+` at i, if there is one. */
  function VersionEnd(s: string, i: nat): (r: Option<nat>)
    requires i <= |s|
    ensures r.Some? ==> i < r.value <= |s| && IsDigit(s[i])
  {
    var a := DigitsEnd(s, i);
    if a == i || a == |s| || s[a] != '.' then None
    else
      var b := DigitsEnd(s, a + 1);
      if b == a + 1 || b == |s| || s[b] != '.' then None
      else
        var c := DigitsEnd(s, b + 1);
        if c == b + 1 then None else Some(c)
  }

  predicate IsVersion(s: string) {
    VersionEnd(s, 0) == Some(|s|)
  }

  /** `\d{4}-\d{2}-\d{2}` matches the whole of s. */
  predicate IsDate(s: string) {
    |s| == 10 && forall i | 0 <= i < 10 :: if i == 4 || i == 7 then s[i] == '-' else IsDigit(s[i])
  }
}
