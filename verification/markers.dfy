/** The generated block of a document: finding it by its markers, and edits that do not disturb it. */
module Markers {
  import opened Text

  // ---- First occurrences ----

  predicate OccursAt(s: string, m: string, i: nat) {
    i + |m| <= |s| && forall j | 0 <= j < |m| :: s[i + j] == m[j]
  }

  /** `s.find(m)` is i. */
  predicate First(s: string, m: string, i: nat) {
    OccursAt(s, m, i) && forall j | 0 <= j < i :: !OccursAt(s, m, j)
  }

  /** `s.find(m, i)` */
  function FindFrom(s: string, m: string, i: nat): (r: Option<nat>)
    requires i <= |s|
    ensures r.Some? ==> i <= r.value && OccursAt(s, m, r.value) && forall j | i <= j < r.value :: !OccursAt(s, m, j)
    ensures r.None? ==> forall j | i <= j <= |s| :: !OccursAt(s, m, j)
    decreases |s| - i
  {
    if OccursAt(s, m, i) then Some(i) else if i == |s| then None else FindFrom(s, m, i + 1)
  }

  function Find(s: string, m: string): (r: Option<nat>)
    ensures r.Some? ==> First(s, m, r.value)
    ensures r.None? ==> forall j | 0 <= j <= |s| :: !OccursAt(s, m, j)
  {
    FindFrom(s, m, 0)
  }

  lemma FindIs(s: string, m: string, i: nat)
    requires First(s, m, i)
    ensures Find(s, m) == Some(i)
  {
  }

  // ---- Tags and text that cannot be part of one ----

  /** Text in angle brackets, with no colon, no digit and no 'u' in it. */
  predicate Tag(m: string) {
    && |m| >= 2 && m[0] == '<' && m[|m| - 1] == '>'
    && (forall i | 1 <= i < |m| :: m[i] != '<')
    && (forall i | 0 <= i < |m| - 1 :: m[i] != '>')
    && (forall i | 0 <= i < |m| :: m[i] != ':' && m[i] != 'u' && !IsDigit(m[i]))
  }

  /** Text that no tag overlaps: it starts with a character no tag has, and no tag starts in it. */
  predicate Foreign(z: string) {
    z != "" && (z[0] == ':' || z[0] == 'u' || IsDigit(z[0])) && forall i | 0 <= i < |z| :: z[i] != '<'
  }

  function Glue(pre: string, z: string, post: string): string {
    pre + z + post
  }

  lemma GlueAt(pre: string, z: string, post: string, i: nat)
    requires i < |pre| + |z| + |post|
    ensures Glue(pre, z, post)[i]
         == if i < |pre| then pre[i] else if i < |pre| + |z| then z[i - |pre|] else post[i - |pre| - |z|]
  {
  }

  lemma OccursChar(s: string, m: string, i: nat, k: nat)
    requires OccursAt(s, m, i) && i <= k < i + |m|
    ensures s[k] == m[k - i]
  {
    assert s[i + (k - i)] == m[k - i];
  }

  lemma TagAvoidsForeign(pre: string, z: string, post: string, m: string, i: nat)
    requires Tag(m) && Foreign(z) && OccursAt(Glue(pre, z, post), m, i)
    ensures i + |m| <= |pre| || |pre| + |z| <= i
  {
    var s := Glue(pre, z, post);
    if i < |pre| < i + |m| {
      GlueAt(pre, z, post, |pre|);
      OccursChar(s, m, i, |pre|);
    } else if |pre| <= i < |pre| + |z| {
      GlueAt(pre, z, post, i);
      OccursChar(s, m, i, i);
    }
  }

  /** Replacing foreign text moves tags along but makes none and destroys none. */
  lemma TagMoves(pre: string, z: string, z': string, post: string, m: string, i: nat)
    requires Tag(m) && OccursAt(Glue(pre, z, post), m, i)
    ensures i + |m| <= |pre| ==> OccursAt(Glue(pre, z', post), m, i)
    ensures |pre| + |z| <= i ==> OccursAt(Glue(pre, z', post), m, i - |z| + |z'|)
  {
    var s, s' := Glue(pre, z, post), Glue(pre, z', post);
    forall j | 0 <= j < |m|
      ensures i + |m| <= |pre| ==> s'[i + j] == m[j]
      ensures |pre| + |z| <= i ==> s'[i - |z| + |z'| + j] == m[j]
    {
      assert s[i + j] == m[j];
    }
  }

  lemma FirstMoves(pre: string, z: string, z': string, post: string, m: string, i: nat)
    requires Tag(m) && Foreign(z) && Foreign(z') && First(Glue(pre, z, post), m, i)
    ensures i + |m| <= |pre| || |pre| + |z| <= i
    ensures First(Glue(pre, z', post), m, if i + |m| <= |pre| then i else i - |z| + |z'|)
  {
    TagAvoidsForeign(pre, z, post, m, i);
    TagMoves(pre, z, z', post, m, i);
    var i' := if i + |m| <= |pre| then i else i - |z| + |z'|;
    forall j | 0 <= j < i'
      ensures !OccursAt(Glue(pre, z', post), m, j)
    {
      if OccursAt(Glue(pre, z', post), m, j) {
        TagAvoidsForeign(pre, z', post, m, j);
        TagMoves(pre, z', z, post, m, j);
      }
    }
  }

  // ---- The marked block ----

  /** Find gives b at the start and e at the end of r, in this order. */
  predicate Marked(p: string, r: string, s: string, b: string, e: string) {
    && |b| + |e| <= |r|
    && First(Glue(p, r, s), b, |p|)
    && First(Glue(p, r, s), e, |p| + |r| - |e|)
  }

  lemma FirstIsUnique(t: string, m: string, i: nat, j: nat)
    requires First(t, m, i) && First(t, m, j)
    ensures i == j
  {
  }

  lemma GlueParts(p: string, r: string, s: string)
    ensures var t := Glue(p, r, s);
      t[..|p|] == p && t[|p|..|p| + |r|] == r && t[|p| + |r|..] == s
  {
  }

  /** A text has at most one marked block. */
  lemma MarkedIsUnique(p: string, r: string, s: string, p': string, r': string, s': string, b: string, e: string)
    requires Marked(p, r, s, b, e) && Marked(p', r', s', b, e) && Glue(p, r, s) == Glue(p', r', s')
    ensures p == p' && r == r' && s == s'
  {
    var t := Glue(p, r, s);
    FirstIsUnique(t, b, |p|, |p'|);
    FirstIsUnique(t, e, |p| + |r| - |e|, |p'| + |r'| - |e|);
    GlueParts(p, r, s);
    GlueParts(p', r', s');
  }

  lemma GlueBefore(p1: string, z: string, p2: string, r: string, s: string)
    ensures Glue(Glue(p1, z, p2), r, s) == Glue(p1, z, p2 + r + s)
  {
    Reassociate(p1 + z, p2, r);
    Reassociate(p1 + z, p2 + r, s);
  }

  lemma GlueAfter(p: string, r: string, s1: string, z: string, s2: string)
    ensures Glue(p, r, Glue(s1, z, s2)) == Glue(p + r + s1, z, s2)
  {
    Reassociate(p + r, s1 + z, s2);
    Reassociate(p + r, s1, z);
  }

  lemma GlueInside(p: string, r1: string, z: string, r2: string, s: string)
    ensures Glue(p, Glue(r1, z, r2), s) == Glue(p + r1, z, r2 + s)
  {
    Reassociate(p, r1 + z, r2);
    Reassociate(p, r1, z);
    Reassociate(p + r1 + z, r2, s);
  }

  /** An edit in front of the block leaves the block alone. */
  lemma EditBefore(p1: string, z: string, z': string, p2: string, r: string, s: string, b: string, e: string)
    requires Tag(b) && Tag(e) && Foreign(z) && Foreign(z') && Marked(Glue(p1, z, p2), r, s, b, e)
    ensures Marked(Glue(p1, z', p2), r, s, b, e)
  {
    var post, p := p2 + r + s, Glue(p1, z, p2);
    GlueBefore(p1, z, p2, r, s);
    GlueBefore(p1, z', p2, r, s);
    FirstMoves(p1, z, z', post, b, |p|);
    FirstMoves(p1, z, z', post, e, |p| + |r| - |e|);
  }

  /** So does an edit behind it. */
  lemma EditAfter(p: string, r: string, s1: string, z: string, z': string, s2: string, b: string, e: string)
    requires Tag(b) && Tag(e) && Foreign(z) && Foreign(z') && Marked(p, r, Glue(s1, z, s2), b, e)
    ensures Marked(p, r, Glue(s1, z', s2), b, e)
  {
    var pre := p + r + s1;
    GlueAfter(p, r, s1, z, s2);
    GlueAfter(p, r, s1, z', s2);
    FirstMoves(pre, z, z', s2, b, |p|);
    FirstMoves(pre, z, z', s2, e, |p| + |r| - |e|);
  }

  /** An edit between the markers changes the block and nothing else. */
  lemma EditInside(p: string, r1: string, z: string, z': string, r2: string, s: string, b: string, e: string)
    requires Tag(b) && Tag(e) && Foreign(z) && Foreign(z') && Marked(p, Glue(r1, z, r2), s, b, e)
    requires |b| <= |r1| && |e| <= |r2|
    ensures Marked(p, Glue(r1, z', r2), s, b, e)
  {
    GlueInside(p, r1, z, r2, s);
    GlueInside(p, r1, z', r2, s);
    FirstMoves(p + r1, z, z', r2 + s, b, |p|);
    FirstMoves(p + r1, z, z', r2 + s, e, |p| + |r1| + |z| + |r2| - |e|);
  }

  /** Foreign text lies in front of the block, between its markers, or behind it. */
  lemma ForeignPlaces(pre: string, z: string, post: string, p: string, r: string, s: string, b: string, e: string)
    requires Tag(b) && Tag(e) && Foreign(z) && Marked(p, r, s, b, e) && Glue(pre, z, post) == Glue(p, r, s)
    ensures || |pre| + |z| <= |p|
            || |p| + |r| <= |pre|
            || (|p| + |b| <= |pre| && |pre| + |z| <= |p| + |r| - |e|)
  {
    TagAvoidsForeign(pre, z, post, b, |p|);
    TagAvoidsForeign(pre, z, post, e, |p| + |r| - |e|);
  }

  // ---- The block of a text, found by its markers ----

  /** Both markers are there, the first one first. */
  predicate Ordered(t: string, b: string, e: string) {
    Find(t, b).Some? && Find(t, e).Some? && Find(t, b).value + |b| <= Find(t, e).value
  }

  function Start(t: string, b: string, e: string): nat
    requires Ordered(t, b, e)
  {
    Find(t, b).value
  }

  function Stop(t: string, b: string, e: string): (r: nat)
    requires Ordered(t, b, e)
    ensures Start(t, b, e) + |b| + |e| <= r <= |t|
  {
    Find(t, e).value + |e|
  }

  /** The text from the first marker to the end of the second. */
  function Region(t: string, b: string, e: string): string
    requires Ordered(t, b, e)
  {
    t[Start(t, b, e)..Stop(t, b, e)]
  }

  function Replace(t: string, i: nat, j: nat, w: string): string
    requires i <= j <= |t|
  {
    t[..i] + w + t[j..]
  }

  lemma Pieces(t: string, i: nat, j: nat)
    requires i <= j <= |t|
    ensures t == Glue(t[..i], t[i..j], t[j..])
  {
  }

  lemma OrderedIsMarked(t: string, b: string, e: string)
    requires Ordered(t, b, e)
    ensures Marked(t[..Start(t, b, e)], Region(t, b, e), t[Stop(t, b, e)..], b, e)
    ensures t == Glue(t[..Start(t, b, e)], Region(t, b, e), t[Stop(t, b, e)..])
  {
    Pieces(t, Start(t, b, e), Stop(t, b, e));
  }

  lemma MarkedIsOrdered(p: string, r: string, s: string, b: string, e: string)
    requires Marked(p, r, s, b, e)
    ensures var t := Glue(p, r, s);
      Ordered(t, b, e) && Start(t, b, e) == |p| && Stop(t, b, e) == |p| + |r| && Region(t, b, e) == r
  {
    hide OccursAt;
    var t := Glue(p, r, s);
    FindIs(t, b, |p|);
    FindIs(t, e, |p| + |r| - |e|);
    GlueParts(p, r, s);
  }

  lemma ReplaceInside(t: string, i: nat, j: nat, w: string, x: nat, y: nat)
    requires x <= i <= j <= y <= |t|
    ensures t[x..y] == Glue(t[x..i], t[i..j], t[j..y])
    ensures Replace(t, i, j, w) == Glue(t[..x], Glue(t[x..i], w, t[j..y]), t[y..])
    ensures Replace(t[x..y], i - x, j - x, w) == Glue(t[x..i], w, t[j..y])
  {
    assert t[..i] == t[..x] + t[x..i];
    assert t[j..] == t[j..y] + t[y..];
    GlueInside(t[..x], t[x..i], w, t[j..y], t[y..]);
  }

  lemma ReplaceBefore(t: string, i: nat, j: nat, w: string, x: nat, y: nat)
    requires i <= j <= x <= y <= |t|
    ensures t[..x] == Glue(t[..i], t[i..j], t[j..x])
    ensures Replace(t, i, j, w) == Glue(Glue(t[..i], w, t[j..x]), t[x..y], t[y..])
  {
    GlueBefore(t[..i], w, t[j..x], t[x..y], t[y..]);
    assert t[j..] == t[j..x] + t[x..y] + t[y..];
  }

  lemma ReplaceAfter(t: string, i: nat, j: nat, w: string, x: nat, y: nat)
    requires x <= y <= i <= j <= |t|
    ensures t[y..] == Glue(t[y..i], t[i..j], t[j..])
    ensures Replace(t, i, j, w) == Glue(t[..x], t[x..y], Glue(t[y..i], w, t[j..]))
  {
    GlueAfter(t[..x], t[x..y], t[y..i], w, t[j..]);
    assert t[..i] == t[..x] + t[x..y] + t[y..i];
  }

  /** Replacing foreign text outside the block keeps the block. */
  lemma EditOutside(t: string, i: nat, j: nat, w: string, b: string, e: string)
    requires Tag(b) && Tag(e) && Ordered(t, b, e) && i <= j <= |t| && Foreign(t[i..j]) && Foreign(w)
    requires j <= Start(t, b, e) || Stop(t, b, e) <= i
    ensures Ordered(Replace(t, i, j, w), b, e) && Region(Replace(t, i, j, w), b, e) == Region(t, b, e)
    ensures var d := if j <= Start(t, b, e) then |w| - (j - i) else 0;
      Start(Replace(t, i, j, w), b, e) == Start(t, b, e) + d && Stop(Replace(t, i, j, w), b, e) == Stop(t, b, e) + d
  {
    hide Tag, Foreign, First, Find;
    var x, y := Start(t, b, e), Stop(t, b, e);
    OrderedIsMarked(t, b, e);
    if j <= x {
      ReplaceBefore(t, i, j, w, x, y);
      EditBefore(t[..i], t[i..j], w, t[j..x], t[x..y], t[y..], b, e);
      MarkedIsOrdered(Glue(t[..i], w, t[j..x]), t[x..y], t[y..], b, e);
    } else {
      ReplaceAfter(t, i, j, w, x, y);
      EditAfter(t[..x], t[x..y], t[y..i], t[i..j], w, t[j..], b, e);
      MarkedIsOrdered(t[..x], t[x..y], Glue(t[y..i], w, t[j..]), b, e);
    }
  }

  /** Replacing foreign text between the markers changes the block in that place only. */
  lemma EditBetween(t: string, i: nat, j: nat, w: string, b: string, e: string)
    requires Tag(b) && Tag(e) && Ordered(t, b, e) && i <= j <= |t| && Foreign(t[i..j]) && Foreign(w)
    requires Start(t, b, e) + |b| <= i && j + |e| <= Stop(t, b, e)
    ensures Ordered(Replace(t, i, j, w), b, e)
    ensures var x := Start(t, b, e);
      Region(Replace(t, i, j, w), b, e) == Replace(Region(t, b, e), i - x, j - x, w)
  {
    hide Tag, Foreign, First, Find;
    var x, y := Start(t, b, e), Stop(t, b, e);
    OrderedIsMarked(t, b, e);
    ReplaceInside(t, i, j, w, x, y);
    EditInside(t[..x], t[x..i], t[i..j], w, t[j..y], t[y..], b, e);
    MarkedIsOrdered(t[..x], Glue(t[x..i], w, t[j..y]), t[y..], b, e);
  }

  lemma EditPlaces(t: string, i: nat, j: nat, b: string, e: string)
    requires Tag(b) && Tag(e) && Ordered(t, b, e) && i <= j <= |t| && Foreign(t[i..j])
    ensures || j <= Start(t, b, e)
            || Stop(t, b, e) <= i
            || (Start(t, b, e) + |b| <= i && j + |e| <= Stop(t, b, e))
  {
    hide Tag, Foreign, First, Find;
    OrderedIsMarked(t, b, e);
    Pieces(t, i, j);
    ForeignPlaces(t[..i], t[i..j], t[j..], t[..Start(t, b, e)], Region(t, b, e), t[Stop(t, b, e)..], b, e);
  }
}
