/** Finding the Unreleased block of CHANGELOG.md and cutting a release from it (scripts/changelog_fragments.py). */
module Changelog {
  import opened Text

  const UNRELEASED := "## [Unreleased]"

  // ---- Frames ----

  predicate LineStart(t: string, p: nat)
    requires p <= |t|
  {
    p == 0 || t[p - 1] == '\n'
  }

  /** `^## ` matches at p. */
  predicate HeaderAt(t: string, p: nat) {
    p + 3 <= |t| && LineStart(t, p) && t[p] == '#' && t[p + 1] == '#' && t[p + 2] == ' '
  }

  /** `^## \[Unreleased\][^\n]*\n` matches at p. */
  predicate UnreleasedAt(t: string, p: nat) {
    HeaderAt(t, p) && p + |UNRELEASED| <= |t| && t[p..p + |UNRELEASED|] == UNRELEASED
    && p + |UNRELEASED| + LineEnd(t[p + |UNRELEASED|..]) < |t|
  }

  /** The first header at or after p, or |t|. */
  function NextHeader(t: string, p: nat): (r: nat)
    requires p <= |t|
    ensures p <= r <= |t|
    ensures r < |t| ==> HeaderAt(t, r)
    ensures forall q | p <= q < r :: !HeaderAt(t, q)
    decreases |t| - p
  {
    if p == |t| || HeaderAt(t, p) then p else NextHeader(t, p + 1)
  }

  function FindUnreleased(t: string, p: nat): (r: Option<nat>)
    requires p <= |t|
    ensures r.Some? ==> p <= r.value && UnreleasedAt(t, r.value) && forall q | p <= q < r.value :: !UnreleasedAt(t, q)
    ensures r.None? ==> forall q | p <= q < |t| :: !UnreleasedAt(t, q)
    decreases |t| - p
  {
    if p == |t| then None else if UnreleasedAt(t, p) then Some(p) else FindUnreleased(t, p + 1)
  }

  datatype Parts = Parts(head: string, body: string, tail: string)

  /** Where the text below the header line at p begins. */
  function BodyStart(t: string, p: nat): (b: nat)
    requires UnreleasedAt(t, p)
    ensures p < b <= |t| && t[b - 1] == '\n'
  {
    p + |UNRELEASED| + LineEnd(t[p + |UNRELEASED|..]) + 1
  }

  /** `split_unreleased` */
  function Split(t: string): Option<Parts> {
    match FindUnreleased(t, 0)
    case None => None
    case Some(p) =>
      var b := BodyStart(t, p);
      var e := NextHeader(t, b);
      Some(Parts(t[..p], t[b..e], t[e..]))
  }

  // ---- Matching in concatenated text ----

  /** Text that ends where a line ends. */
  predicate Whole(t: string) {
    t == "" || t[|t| - 1] == '\n'
  }

  predicate NoHeader(t: string) {
    forall q | 0 <= q < |t| :: !HeaderAt(t, q)
  }

  predicate NoUnreleasedLine(t: string) {
    forall q | 0 <= q < |t| :: !UnreleasedAt(t, q)
  }

  lemma HeaderInFront(a: string, x: string, q: nat)
    requires Whole(a) && q < |a|
    ensures HeaderAt(a + x, q) <==> HeaderAt(a, q)
  {
    var t := a + x;
    assert forall i | 0 <= i < |a| :: t[i] == a[i];
  }

  lemma HeaderBehind(a: string, x: string, q: nat)
    requires Whole(a)
    ensures HeaderAt(a + x, |a| + q) <==> HeaderAt(x, q)
  {
    var t := a + x;
    assert forall i | 0 <= i < |x| :: t[|a| + i] == x[i];
    if q == 0 && a != "" {
      assert t[|a| - 1] == a[|a| - 1];
    }
  }

  lemma NextHeaderIs(t: string, p: nat, e: nat)
    requires p <= e <= |t| && (e == |t| || HeaderAt(t, e))
    requires forall q | p <= q < e :: !HeaderAt(t, q)
    ensures NextHeader(t, p) == e
  {
  }

  lemma NextHeaderBehind(a: string, x: string)
    requires Whole(a)
    ensures NextHeader(a + x, |a|) == |a| + NextHeader(x, 0)
  {
    var r := NextHeader(x, 0);
    forall q | |a| <= q < |a| + r
      ensures !HeaderAt(a + x, q)
    {
      HeaderBehind(a, x, q - |a|);
    }
    HeaderBehind(a, x, r);
    NextHeaderIs(a + x, |a|, |a| + r);
  }

  lemma NextHeaderAfter(body: string, tail: string)
    requires NoHeader(body) && (tail == "" || (Whole(body) && HeaderAt(tail, 0)))
    ensures NextHeader(body + tail, 0) == |body|
  {
    if tail == "" {
      assert body + tail == body;
      NextHeaderIs(body, 0, |body|);
    } else {
      forall q | 0 <= q < |body|
        ensures !HeaderAt(body + tail, q)
      {
        HeaderInFront(body, tail, q);
      }
      HeaderBehind(body, tail, 0);
      NextHeaderIs(body + tail, 0, |body|);
    }
  }

  lemma {:induction false} LineEndInFront(u: string, v: string)
    ensures LineEnd(u) < |u| ==> LineEnd(u + v) == LineEnd(u)
    ensures u != "" && u[|u| - 1] == '\n' ==> LineEnd(u) < |u|
  {
    if u != "" && u[0] != '\n' {
      LineEndInFront(u[1..], v);
      assert (u + v)[1..] == u[1..] + v;
    }
  }

  lemma MarkerIsOneLine(t: string, q: nat)
    requires UnreleasedAt(t, q)
    ensures forall i | q <= i < q + |UNRELEASED| :: t[i] != '\n'
  {
    assert OneLine(UNRELEASED);
    forall i | q <= i < q + |UNRELEASED|
      ensures t[i] != '\n'
    {
      assert t[i] == t[q..q + |UNRELEASED|][i - q];
    }
  }

  lemma UnreleasedInFront(a: string, x: string, q: nat)
    requires Whole(a) && q < |a| && UnreleasedAt(a + x, q)
    ensures UnreleasedAt(a, q)
  {
    var t, k := a + x, q + |UNRELEASED|;
    HeaderInFront(a, x, q);
    MarkerIsOneLine(t, q);
    assert t[|a| - 1] == '\n';
    assert t[q..k] == a[q..k];
    assert t[k..] == a[k..] + x;
    LineEndInFront(a[k..], x);
  }

  lemma UnreleasedStaysInFront(a: string, x: string, q: nat)
    requires UnreleasedAt(a, q)
    ensures UnreleasedAt(a + x, q)
  {
    var t, k := a + x, q + |UNRELEASED|;
    assert t[q..k] == a[q..k];
    assert t[k..] == a[k..] + x;
    LineEndInFront(a[k..], x);
  }

  lemma HeadShape(t: string, p: nat)
    requires UnreleasedAt(t, p) && forall q | 0 <= q < p :: !UnreleasedAt(t, q)
    ensures Whole(t[..p]) && NoUnreleasedLine(t[..p])
  {
    var head := t[..p];
    assert t == head + t[p..];
    forall q | 0 <= q < |head|
      ensures !UnreleasedAt(head, q)
    {
      if UnreleasedAt(head, q) {
        UnreleasedStaysInFront(head, t[p..], q);
      }
    }
  }

  lemma HeaderInside(a: string, x: string, q: nat)
    requires HeaderAt(a, q)
    ensures HeaderAt(a + x, q)
  {
  }

  lemma BodyShape(t: string, b: nat)
    requires 0 < b <= |t| && t[b - 1] == '\n'
    ensures var e := NextHeader(t, b);
      && NoHeader(t[b..e]) && (t[e..] == "" || (Whole(t[b..e]) && HeaderAt(t[e..], 0)))
  {
    var e := NextHeader(t, b);
    var body, tail := t[b..e], t[e..];
    assert t == t[..b] + t[b..] && t[b..] == body + tail;
    forall q | 0 <= q < |body|
      ensures !HeaderAt(body, q)
    {
      if HeaderAt(body, q) {
        HeaderInside(body, tail, q);
        HeaderBehind(t[..b], t[b..], q);
      }
    }
  }

  /** What the three parts of a changelog look like. */
  predicate Framed(p: Parts) {
    && Whole(p.head) && NoUnreleasedLine(p.head) && NoHeader(p.body)
    && (p.tail == "" || (Whole(p.body) && HeaderAt(p.tail, 0)))
  }

  lemma FourPieces(t: string, p: nat, b: nat, e: nat)
    requires p <= b <= e <= |t|
    ensures t == t[..p] + t[p..b] + (t[b..e] + t[e..])
  {
  }

  /** The `## [Unreleased]` line, with its newline. */
  predicate IsTitle(title: string) {
    |title| > |UNRELEASED| && title[..|UNRELEASED|] == UNRELEASED && Whole(title)
  }

  lemma TitleShape(t: string, p: nat)
    requires UnreleasedAt(t, p)
    ensures IsTitle(t[p..BodyStart(t, p)])
  {
    var title := t[p..BodyStart(t, p)];
    assert title[..|UNRELEASED|] == t[p..p + |UNRELEASED|];
  }

  /** `split_unreleased` cuts the text at line starts. */
  lemma SplitFramed(t: string)
    requires Split(t).Some?
    ensures Framed(Split(t).value)
  {
    var p := FindUnreleased(t, 0).value;
    HeadShape(t, p);
    BodyShape(t, BodyStart(t, p));
  }

  function TitleOf(t: string): string
    requires Split(t).Some?
  {
    var p := FindUnreleased(t, 0).value;
    t[p..BodyStart(t, p)]
  }

  /** Only the header line is in none of the parts. */
  lemma SplitText(t: string)
    requires Split(t).Some?
    ensures var p := Split(t).value; IsTitle(TitleOf(t)) && t == p.head + TitleOf(t) + (p.body + p.tail)
  {
    var p := FindUnreleased(t, 0).value;
    var b := BodyStart(t, p);
    TitleShape(t, p);
    FourPieces(t, p, b, NextHeader(t, b));
  }

  lemma UnreleasedHere(rest: string)
    ensures UnreleasedAt(UNRELEASED + "\n" + rest, 0) && BodyStart(UNRELEASED + "\n" + rest, 0) == |UNRELEASED| + 1
  {
    var t := UNRELEASED + "\n" + rest;
    assert t[0..|UNRELEASED|] == UNRELEASED;
    assert t[|UNRELEASED|..] == "\n" + rest;
  }

  lemma UnreleasedBehind(a: string, x: string)
    requires Whole(a) && UnreleasedAt(x, 0)
    ensures UnreleasedAt(a + x, |a|) && BodyStart(a + x, |a|) == |a| + BodyStart(x, 0)
  {
    HeaderBehind(a, x, 0);
    var t, n := a + x, |UNRELEASED|;
    assert t[|a|..|a| + n] == x[0..n];
    assert t[|a| + n..] == x[n..];
  }

  /** The text `apply` assembles around a new body and a new tail. */
  function Assemble(p: Parts): string {
    p.head + (UNRELEASED + "\n" + (p.body + p.tail))
  }

  lemma FindUnreleasedIs(t: string, p: nat)
    requires UnreleasedAt(t, p) && forall q | 0 <= q < p :: !UnreleasedAt(t, q)
    ensures FindUnreleased(t, 0) == Some(p)
  {
  }

  lemma FindInAssembled(p: Parts)
    requires Framed(p)
    ensures FindUnreleased(Assemble(p), 0) == Some(|p.head|)
    ensures UnreleasedAt(Assemble(p), |p.head|)
    ensures BodyStart(Assemble(p), |p.head|) == |p.head| + |UNRELEASED| + 1
  {
    var t, rest := Assemble(p), p.body + p.tail;
    var x := UNRELEASED + "\n" + rest;
    UnreleasedHere(rest);
    UnreleasedBehind(p.head, x);
    forall q | 0 <= q < |p.head|
      ensures !UnreleasedAt(t, q)
    {
      if UnreleasedAt(t, q) {
        UnreleasedInFront(p.head, x, q);
      }
    }
    FindUnreleasedIs(t, |p.head|);
  }

  lemma SplitIs(t: string, p: nat, e: nat)
    requires FindUnreleased(t, 0) == Some(p) && UnreleasedAt(t, p) && NextHeader(t, BodyStart(t, p)) == e
    ensures Split(t) == Some(Parts(t[..p], t[BodyStart(t, p)..e], t[e..]))
  {
  }

  lemma Pieces(head: string, title: string, body: string, tail: string)
    ensures var t, b := head + (title + (body + tail)), |head| + |title|;
      t[..|head|] == head && t[b..b + |body|] == body && t[b + |body|..] == tail
  {
  }

  lemma NextInAssembled(p: Parts)
    requires Framed(p)
    ensures var b := |p.head| + |UNRELEASED| + 1;
      b <= |Assemble(p)| && NextHeader(Assemble(p), b) == b + |p.body|
  {
    var title, rest := UNRELEASED + "\n", p.body + p.tail;
    Reassociate(p.head, title, rest);
    NextHeaderBehind(p.head + title, rest);
    NextHeaderAfter(p.body, p.tail);
  }

  /** Splitting undoes assembling. */
  lemma SplitOfAssembled(p: Parts)
    requires Framed(p)
    ensures Split(Assemble(p)) == Some(p)
  {
    hide FindUnreleased, NextHeader, LineEnd, UnreleasedAt, HeaderAt, Split, UNRELEASED;
    FindInAssembled(p);
    NextInAssembled(p);
    SplitIs(Assemble(p), |p.head|, |p.head| + |UNRELEASED| + 1 + |p.body|);
    Pieces(p.head, UNRELEASED + "\n", p.body, p.tail);
  }

  /** A line that starts with `## ` starts at i. */
  predicate StartsHeading(t: string, i: nat) {
    i + 3 <= |t| && t[i..i + 3] == "## " && (i == 0 || t[i - 1] == '\n')
  }

  lemma HeaderText(t: string, i: nat)
    ensures HeaderAt(t, i) <==> StartsHeading(t, i)
  {
    if i + 3 <= |t| {
      var u, m := t[i..i + 3], "## ";
      assert u[0] == t[i] && u[1] == t[i + 1] && u[2] == t[i + 2];
      assert u == m <==> u[0] == '#' && u[1] == '#' && u[2] == ' ';
    }
  }

  lemma NoBreakBefore(s: string)
    ensures forall i | 0 <= i < LineEnd(s) :: s[i] != '\n'
  {
    LineEndIsFirst(s);
    assert forall i | 0 <= i < LineEnd(s) :: s[i] == s[..LineEnd(s)][i];
  }

  /** Where the frame is: the head ends at the first line that starts with `## [Unreleased]` and has an end, and the body, which
      starts on the next line, ends at the first line from there that starts with `## `, or with the text. */
  lemma SplitPlaces(t: string)
    requires Split(t).Some?
    ensures var p := Split(t).value;
      var q, b := |p.head|, |t| - |p.tail| - |p.body|;
      && q + 15 < b <= |t|
      && (q == 0 || t[q - 1] == '\n') && t[q..q + 15] == "## [Unreleased]" && t[b - 1] == '\n'
      && (forall i | q + 15 <= i < b - 1 :: t[i] != '\n')
      && (forall q' | 0 <= q' < q :: !UnreleasedAt(t, q'))
      && (forall i | b <= i < b + |p.body| :: !StartsHeading(t, i))
      && (p.tail == "" || "## " <= p.tail)
  {
    hide NextHeader, LineEnd;
    var q := FindUnreleased(t, 0).value;
    var b := BodyStart(t, q);
    var e := NextHeader(t, b);
    assert Split(t).value == Parts(t[..q], t[b..e], t[e..]);
    assert |UNRELEASED| == 15;
    NoBreakBefore(t[q + 15..]);
    forall i | q + 15 <= i < b - 1
      ensures t[i] != '\n'
    {
      assert t[i] == t[q + 15..][i - q - 15];
    }
    forall i | b <= i < e
      ensures !StartsHeading(t, i)
    {
      HeaderText(t, i);
    }
    if e < |t| {
      HeaderText(t, e);
      assert t[e..][..3] == t[e..e + 3];
    }
  }
}
