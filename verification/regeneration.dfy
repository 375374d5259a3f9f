/** What the check mode of scripts/gen_doc_stats.py accepts, for every document. */
module Regeneration {
  import opened Text
  import opened Markers
  import opened DocStats
  import opened LaterHeaders
  import H = DocHeader

  // ---- The generated block ----

  /** The first ')' of the begin marker is at k, and " -" follows. */
  predicate Shut(b: string, k: nat) {
    k + 2 < |b| && b[k] == ')' && b[k + 1] == ' ' && b[k + 2] == '-' && forall i | 0 <= i < k :: b[i] != ')'
  }

  /** What the proofs need to know about the two markers. */
  predicate Pair(b: string, e: string, k: nat) {
    Tag(b) && Tag(e) && |b| > 5 && |e| > 5 && b[5] != e[5] && Shut(b, k)
  }

  /** A block starts with one marker on a line of its own, ends with the other, and has no angle bracket between them. */
  predicate IsBlock(r: string, b: string, e: string) {
    && |b| + 1 + |e| <= |r|
    && OccursAt(r, b, 0) && OccursAt(r, e, |r| - |e|)
    && r[|b|] == '\n'
    && forall i | |b| <= i < |r| - |e| :: r[i] != '<' && r[i] != '>'
  }

  /** The only '>' of a block that a blank can follow is its last character. */
  lemma BlockCloses(r: string, b: string, e: string, i: nat)
    requires Tag(b) && Tag(e) && IsBlock(r, b, e) && i < |r| && r[i] == '>'
    ensures i == |r| - 1 || (i == |b| - 1 && r[i + 1] == '\n')
  {
    if i < |b| {
      OccursChar(r, b, 0, i);
    } else if |r| - |e| <= i {
      OccursChar(r, e, |r| - |e|, i);
    }
  }

  /** The only '<' of a block are the first characters of its markers. */
  lemma BlockOpens(r: string, b: string, e: string, i: nat)
    requires Tag(b) && Tag(e) && IsBlock(r, b, e) && i < |r| && r[i] == '<'
    ensures i == 0 || i == |r| - |e|
  {
    if i < |b| {
      OccursChar(r, b, 0, i);
    } else if |r| - |e| <= i {
      OccursChar(r, e, |r| - |e|, i);
    }
  }

  // ---- Splicing ----

  lemma NoTagAcross(s: string, m: string, i: nat, x: nat)
    requires Tag(m) && OccursAt(s, m, i) && x < |s| && s[x] == '<'
    ensures x <= i || i + |m| <= x
  {
    if i < x < i + |m| {
      OccursChar(s, m, i, x);
    }
  }

  lemma OccursInPrefix(p: string, u: string, v: string, m: string, i: nat)
    requires OccursAt(p + u, m, i) && i + |m| <= |p|
    ensures OccursAt(p + v, m, i)
  {
    forall j | 0 <= j < |m|
      ensures (p + v)[i + j] == m[j]
    {
      assert (p + u)[i + j] == m[j];
    }
  }

  lemma OccursInside(p: string, r: string, s: string, m: string, i: nat)
    requires i + |m| <= |r|
    ensures OccursAt(Glue(p, r, s), m, |p| + i) <==> OccursAt(r, m, i)
  {
    var t := Glue(p, r, s);
    if OccursAt(t, m, |p| + i) {
      forall j | 0 <= j < |m|
        ensures r[i + j] == m[j]
      {
        assert t[|p| + i + j] == m[j];
        GlueAt(p, r, s, |p| + i + j);
      }
    }
    if OccursAt(r, m, i) {
      forall j | 0 <= j < |m|
        ensures t[|p| + i + j] == m[j]
      {
        assert r[i + j] == m[j];
        GlueAt(p, r, s, |p| + i + j);
      }
    }
  }

  /** The text in front of the new block holds no marker that reaches into it. */
  lemma NothingBefore(p: string, rest: string, s: string, block: string, b: string, e: string, m: string, i: nat)
    requires Tag(b) && Tag(m) && IsBlock(block, b, e) && OccursAt(Glue(p, block, s), m, i) && i < |p|
    ensures OccursAt(p + rest, m, i)
  {
    var t := Glue(p, block, s);
    OccursChar(block, b, 0, 0);
    GlueAt(p, block, s, |p|);
    NoTagAcross(t, m, i, |p|);
    Reassociate(p, block, s);
    OccursInPrefix(p, block + s, rest, m, i);
  }

  lemma SameSixth(s: string, i: nat, b: string, e: string)
    requires OccursAt(s, b, i) && OccursAt(s, e, i) && |b| > 5 && |e| > 5
    ensures b[5] == e[5]
  {
    OccursChar(s, b, i, i + 5);
    OccursChar(s, e, i, i + 5);
  }

  /** In the new block the end marker stands at the end only. */
  lemma InsideBlock(p: string, s: string, block: string, b: string, e: string, k: nat, i: nat)
    requires Pair(b, e, k) && IsBlock(block, b, e) && OccursAt(Glue(p, block, s), e, |p| + i) && i + |e| <= |block|
    ensures i == |block| - |e|
  {
    OccursInside(p, block, s, e, i);
    OccursChar(block, e, i, i);
    BlockOpens(block, b, e, i);
    if i == 0 {
      SameSixth(block, i, b, e);
    }
  }

  lemma SplicedIsMarked(p: string, r: string, s: string, block: string, b: string, e: string, k: nat)
    requires Pair(b, e, k) && IsBlock(block, b, e) && Marked(p, r, s, b, e)
    ensures Marked(p, block, s, b, e)
  {
    var t := Glue(p, block, s);
    Reassociate(p, r, s);
    OccursInside(p, block, s, b, 0);
    OccursInside(p, block, s, e, |block| - |e|);
    forall j | 0 <= j < |p|
      ensures !OccursAt(t, b, j)
    {
      if OccursAt(t, b, j) {
        NothingBefore(p, r + s, s, block, b, e, b, j);
      }
    }
    forall j | 0 <= j < |p| + |block| - |e|
      ensures !OccursAt(t, e, j)
    {
      if OccursAt(t, e, j) {
        if j < |p| {
          NothingBefore(p, r + s, s, block, b, e, e, j);
        } else {
          InsideBlock(p, s, block, b, e, k, j - |p|);
        }
      }
    }
  }

  /** Splicing puts the block between the markers and nothing else changes. */
  lemma SpliceOrdered(t: string, block: string, b: string, e: string, k: nat)
    requires Pair(b, e, k) && IsBlock(block, b, e) && Ordered(t, b, e)
    ensures Splice(t, block, b, e) == Some(Replace(t, Start(t, b, e), Stop(t, b, e), block))
    ensures var u := Replace(t, Start(t, b, e), Stop(t, b, e), block);
      && Ordered(u, b, e) && Region(u, b, e) == block
      && u[..Start(u, b, e)] == t[..Start(t, b, e)] && u[Stop(u, b, e)..] == t[Stop(t, b, e)..]
  {
    hide OccursAt, First, Find, Tag, IsBlock, Pair;
    var x, y := Start(t, b, e), Stop(t, b, e);
    OrderedIsMarked(t, b, e);
    SplicedIsMarked(t[..x], t[x..y], t[y..], block, b, e, k);
    MarkedIsOrdered(t[..x], block, t[y..], b, e);
    GlueParts(t[..x], block, t[y..]);
  }

  lemma SpliceSame(t: string, block: string, b: string, e: string)
    requires Ordered(t, b, e) && Region(t, b, e) == block
    ensures Splice(t, block, b, e) == Some(t)
  {
    hide OccursAt, First, Find;
    OrderedIsMarked(t, b, e);
  }

  // ---- The header lies outside the block ----

  /** The parenthesis of the begin marker ends no header's parenthesis. */
  lemma NoTailInMarker(s: string, b: string, x: nat, k: nat)
    requires Shut(b, k) && OccursAt(s, b, x)
    ensures H.TailAt(s, x + k + 1).None?
  {
    OccursChar(s, b, x, x + k + 1);
    OccursChar(s, b, x, x + k + 2);
    assert H.SpacesEnd(s, x + k + 1) == H.SpacesEnd(s, x + k + 2) == x + k + 2;
  }

  lemma CloseBefore(s: string, b: string, i: nat, x: nat, k: nat)
    requires Tag(b) && Shut(b, k) && OccursAt(s, b, x) && i <= x && H.CloseAt(s, i) >= x
    ensures H.CloseAt(s, i) == x + k
  {
    OccursChar(s, b, x, x + k);
    H.CloseStop(s, i, x + k);
    var c := H.CloseAt(s, i);
    if c < x + k {
      OccursChar(s, b, x, c);
    }
  }

  /** A header that starts in front of the begin marker ends in front of it. */
  lemma HeaderBefore(s: string, b: string, p: nat, x: nat, k: nat)
    requires Tag(b) && Shut(b, k) && OccursAt(s, b, x) && H.Hit(s, p) && p < x
    ensures H.MatchAt(s, p).value.end <= x
  {
    hide H.TailAt, H.OpenAt, H.CloseAt;
    H.HitParts(s, p);
    H.OpenChars(s, p);
    OccursChar(s, b, x, x);
    var a := H.OpenAt(s, p).value;
    var c := H.CloseAt(s, a + 1);
    if c >= x {
      CloseBefore(s, b, a + 1, x, k);
      NoTailInMarker(s, b, x, k);
      assert false;
    }
    H.TailChars(s, c + 1);
  }

  lemma RegionAt(t: string, b: string, e: string, i: nat)
    requires Ordered(t, b, e) && i < |Region(t, b, e)|
    ensures t[Start(t, b, e) + i] == Region(t, b, e)[i]
  {
    hide Find, Tag;
  }

  lemma HitStarts(s: string, p: nat)
    requires H.Hit(s, p)
    ensures p + 26 < |s| && s[p] == '>' && s[p + 1] == ' '
  {
  }

  /** A header is in front of a generated block or starts no earlier than its last character. */
  lemma HeaderOutside(t: string, b: string, e: string, k: nat, p: nat)
    requires Pair(b, e, k) && Ordered(t, b, e) && IsBlock(Region(t, b, e), b, e) && H.Hit(t, p)
    ensures H.MatchAt(t, p).value.end <= Start(t, b, e) || Stop(t, b, e) <= p + 1
  {
    hide H.MatchAt, H.OpenAt, IsBlock, Tag, Shut;
    var x, y := Start(t, b, e), Stop(t, b, e);
    if p < x {
      HeaderBefore(t, b, p, x, k);
    } else if p < y - 1 {
      H.HitParts(t, p);
      H.OpenChars(t, p);
      RegionAt(t, b, e, p - x);
      RegionAt(t, b, e, p + 1 - x);
      BlockCloses(Region(t, b, e), b, e, p - x);
      HitStarts(t, p);
    }
  }

  // ---- Stamping and blanking keep the block ----

  lemma VersionIsForeign(t: string, h: H.Header)
    requires h.version < h.end <= |t| && VersionEnd(t, h.version) == Some(h.end)
    ensures Foreign(t[h.version..h.end])
  {
    H.VersionChars(t, h.version);
  }

  lemma NewVersionIsForeign(v: string)
    requires ProjectVersion(v)
    ensures Foreign(v)
  {
    if IsVersion(v) {
      H.VersionChars(v, 0);
    }
  }

  lemma DateIsForeign(t: string, p: nat)
    requires H.DateAt(t, p + 16) && t[p + 14] == ':' && t[p + 15] == ' '
    ensures Foreign(t[p + 14..p + 26])
  {
    H.DateChars(t, p + 16);
  }

  lemma StampIsForeign(today: string)
    requires IsDate(today)
    ensures Foreign(": " + today)
  {
    H.DateChars(today, 0);
    assert today[0..10] == today;
  }

  /** A stamp is two edits: the version first, then the date with the two characters in front of it. */
  lemma StampedIsTwoEdits(t: string, p: nat, h: H.Header, today: string, version: string)
    requires h.date == p + 16 && p + 26 < h.version < h.end <= |t| && t[p + 14] == ':' && t[p + 15] == ' '
    ensures var u := Replace(t, h.version, h.end, version);
      && p + 26 <= |u| && u[p + 14..p + 26] == t[p + 14..p + 26]
      && Stamped(t, h, today, version) == Replace(u, p + 14, p + 26, ": " + today)
  {
    var u := Replace(t, h.version, h.end, version);
    assert u[..p + 14] == t[..p + 14];
    assert t[..p + 16] == t[..p + 14] + ": ";
    assert u[p + 26..] == t[p + 26..h.version] + version + t[h.end..];
    var pre, mid := t[..p + 14], t[p + 26..h.version];
    assert pre + (": " + today) == (pre + ": ") + today;
    Reassociate(pre + (": " + today), mid + version, t[h.end..]);
    Reassociate(pre + (": " + today), mid, version);
  }

  /** Stamping outside the block keeps the block. */
  lemma SyncKeepsBlock(t: string, b: string, e: string, k: nat, version: string, today: string)
    requires Pair(b, e, k) && Ordered(t, b, e) && IsBlock(Region(t, b, e), b, e)
    requires ProjectVersion(version) && IsDate(today) && H.Find(t).Some?
    ensures var n := Sync(t, version, today);
      n.Some? && Ordered(n.value, b, e) && Region(n.value, b, e) == Region(t, b, e)
  {
    hide H.MatchAt, IsBlock, Tag, Shut, H.Find, H.NoHitIn, ProjectVersion, IsDate, Find, Foreign, VersionEnd, H.DateAt, Region, Ordered, Stamped, Replace, Start, Stop;
    var p, h := HeaderOf(t);
    var _, _, n := SyncIs(t, version, today);
    HeaderOutside(t, b, e, k, p);
    VersionIsForeign(t, h);
    NewVersionIsForeign(version);
    EditOutside(t, h.version, h.end, version, b, e);
    var u := Replace(t, h.version, h.end, version);
    StampedIsTwoEdits(t, p, h, today, version);
    DateIsForeign(t, p);
    StampIsForeign(today);
    EditOutside(u, p + 14, p + 26, ": " + today, b, e);
  }

  const BLANK := ": " + PLACEHOLDER

  lemma BlankIsForeign()
    ensures Foreign(BLANK)
  {
    var w := BLANK;
    assert |w| == 14;
  }

  /** Blanking is an edit of the date and the two characters in front of it. */
  lemma BlankIsEdit(t: string, p: nat)
    requires p + 26 <= |t| && t[p + 14] == ':' && t[p + 15] == ' '
    ensures Replace(t, p + 16, p + 26, PLACEHOLDER) == Replace(t, p + 14, p + 26, BLANK)
  {
    assert t[..p + 16] == t[..p + 14] + ": ";
    Reassociate(t[..p + 14], ": ", PLACEHOLDER);
  }

  lemma BlankEdits(t: string) returns (p: nat)
    requires H.Find(t).Some?
    ensures H.Hit(t, p) && p + 26 < |t| && t[p] == '>' && BlankDate(t) == Replace(t, p + 14, p + 26, BLANK)
    ensures Foreign(t[p + 14..p + 26]) && Foreign(BLANK)
    ensures p + 26 < H.MatchAt(t, p).value.end
  {
    hide H.MatchAt, H.Find, H.NoHitIn, VersionEnd, H.DateAt, Replace, BlankDate, Foreign;
    var h: H.Header;
    p, h := HeaderOf(t);
    BlankIs(t, p);
    BlankIsEdit(t, p);
    DateIsForeign(t, p);
    BlankIsForeign();
  }

  /** Blanking keeps a generated block. */
  lemma BlankKeepsBlock(t: string, b: string, e: string, k: nat)
    requires Pair(b, e, k) && Ordered(t, b, e) && IsBlock(Region(t, b, e), b, e)
    ensures Ordered(BlankDate(t), b, e) && Region(BlankDate(t), b, e) == Region(t, b, e)
  {
    hide H.MatchAt, IsBlock, Tag, Shut, H.Find, Find, Foreign, Region, Ordered, Replace, Start, Stop;
    if H.Find(t).Some? {
      var p := BlankEdits(t);
      HeaderOutside(t, b, e, k, p);
      hide BlankDate;
      EditOutside(t, p + 14, p + 26, BLANK, b, e);
    }
  }

  /** An edited region still has every character in front of the edit. */
  lemma ReplaceChar(r: string, i: nat, j: nat, w: string, k: nat)
    requires i <= j <= |r| && k < i
    ensures Replace(r, i, j, w)[k] == r[k] && |Replace(r, i, j, w)| == |r| - (j - i) + |w|
  {
  }

  /** Where a header that ends in the region starts: no earlier than the last character of the begin marker. */
  lemma HeaderInside(t: string, b: string, p: nat, x: nat)
    requires Tag(b) && OccursAt(t, b, x) && H.Hit(t, p) && x + |b| <= p + 14
    ensures x <= x + |b| - 1 <= p
  {
    hide H.OpenAt;
    H.HitParts(t, p);
    H.OpenChars(t, p);
    OccursChar(t, b, x, x + |b| - 1);
  }

  lemma StartOccurs(t: string, b: string, e: string)
    requires Ordered(t, b, e)
    ensures OccursAt(t, b, Start(t, b, e)) && Start(t, b, e) + |b| + |e| <= Stop(t, b, e) <= |t|
  {
  }

  lemma RegionLength(t: string, b: string, e: string)
    requires Ordered(t, b, e)
    ensures |Region(t, b, e)| == Stop(t, b, e) - Start(t, b, e)
  {
  }

  /** A header between the markers shows after blanking that they do not enclose a generated block. */
  lemma BlankedOutside(t: string, b: string, e: string, p: nat)
    requires Tag(b) && Tag(e) && Ordered(t, b, e) && H.Hit(t, p) && p + 26 < |t| && t[p] == '>'
    requires Start(t, b, e) + |b| <= p + 14 && p + 26 + |e| <= Stop(t, b, e)
    ensures !IsBlock(Replace(Region(t, b, e), p + 14 - Start(t, b, e), p + 26 - Start(t, b, e), BLANK), b, e)
  {
    hide H.MatchAt, IsBlock, Tag, Ordered, Region, Start, Stop, Replace;
    var x, r := Start(t, b, e), Region(t, b, e);
    StartOccurs(t, b, e);
    HeaderInside(t, b, p, x);
    HitStarts(t, p);
    RegionLength(t, b, e);
    RegionAt(t, b, e, p - x);
    RegionAt(t, b, e, p + 1 - x);
    ReplaceChar(r, p + 14 - x, p + 26 - x, BLANK, p - x);
    ReplaceChar(r, p + 14 - x, p + 26 - x, BLANK, p + 1 - x);
    var r' := Replace(r, p + 14 - x, p + 26 - x, BLANK);
    if IsBlock(r', b, e) {
      BlockCloses(r', b, e, p - x);
    }
  }

  lemma BlankInBlock(t: string, b: string, e: string, p: nat)
    requires Tag(b) && Tag(e) && Ordered(t, b, e) && H.Hit(t, p) && p + 26 < |t| && t[p] == '>'
    requires Start(t, b, e) + |b| <= p + 14 && p + 26 + |e| <= Stop(t, b, e)
    requires Foreign(t[p + 14..p + 26]) && Foreign(BLANK)
    ensures var t' := Replace(t, p + 14, p + 26, BLANK); Ordered(t', b, e) && !IsBlock(Region(t', b, e), b, e)
  {
    hide H.MatchAt, IsBlock, Tag, Ordered, Region, Start, Stop, Replace, Foreign;
    EditBetween(t, p + 14, p + 26, BLANK, b, e);
    StartOccurs(t, b, e);
    RegionLength(t, b, e);
    BlankedOutside(t, b, e, p);
  }

  /** A block seen after blanking was there before. */
  lemma BlankShowsBlock(t: string, b: string, e: string)
    requires Tag(b) && Tag(e) && Ordered(t, b, e)
    ensures Ordered(BlankDate(t), b, e)
    ensures IsBlock(Region(BlankDate(t), b, e), b, e) ==> Region(t, b, e) == Region(BlankDate(t), b, e)
  {
    hide H.MatchAt, IsBlock, Tag, H.Find, Find, Foreign, Region, Ordered, Replace, Start, Stop;
    if H.Find(t).Some? {
      var p := BlankEdits(t);
      hide BlankDate;
      EditPlaces(t, p + 14, p + 26, b, e);
      if Start(t, b, e) + |b| <= p + 14 && p + 26 + |e| <= Stop(t, b, e) {
        BlankInBlock(t, b, e, p);
      } else {
        EditOutside(t, p + 14, p + 26, BLANK, b, e);
      }
    }
  }

  // ---- Texts whose markers are in the wrong order ----

  /** The number of '<' in a text. */
  function Opens(s: string): nat {
    multiset(s)['<']
  }

  lemma OpensGlue(p: string, r: string, s: string)
    ensures Opens(Glue(p, r, s)) == Opens(p) + Opens(r) + Opens(s)
  {
  }

  lemma NoOpens(w: string)
    requires forall i | 0 <= i < |w| :: w[i] != '<'
    ensures Opens(w) == 0
  {
  }

  lemma ReplaceOpens(t: string, i: nat, j: nat, w: string)
    requires i <= j <= |t|
    ensures Opens(Replace(t, i, j, w)) == Opens(t) - Opens(t[i..j]) + Opens(w)
  {
    hide Opens;
    Pieces(t, i, j);
    OpensGlue(t[..i], t[i..j], t[j..]);
    OpensGlue(t[..i], w, t[j..]);
  }

  lemma ForeignOpens(w: string)
    requires Foreign(w)
    ensures Opens(w) == 0
  {
    NoOpens(w);
  }

  lemma BlankOpens(t: string)
    ensures Opens(BlankDate(t)) == Opens(t)
  {
    hide Opens, H.Find, H.MatchAt, Foreign, Replace;
    if H.Find(t).Some? {
      var p := BlankEdits(t);
      hide BlankDate;
      ReplaceOpens(t, p + 14, p + 26, BLANK);
      ForeignOpens(BLANK);
      ForeignOpens(t[p + 14..p + 26]);
    }
  }

  lemma SyncOpens(t: string, version: string, today: string)
    requires ProjectVersion(version) && IsDate(today) && H.Find(t).Some?
    ensures Sync(t, version, today).Some? && Opens(Sync(t, version, today).value) == Opens(t)
  {
    hide Opens, H.Find, H.MatchAt, H.NoHitIn, Foreign, Replace, ProjectVersion, IsDate, VersionEnd, H.DateAt, Stamped;
    var p, h := HeaderOf(t);
    var _, _, n := SyncIs(t, version, today);
    VersionIsForeign(t, h);
    NewVersionIsForeign(version);
    var u := Replace(t, h.version, h.end, version);
    StampedIsTwoEdits(t, p, h, today, version);
    DateIsForeign(t, p);
    StampIsForeign(today);
    ReplaceOpens(t, h.version, h.end, version);
    ReplaceOpens(u, p + 14, p + 26, ": " + today);
    ForeignOpens(t[h.version..h.end]);
    ForeignOpens(version);
    ForeignOpens(t[p + 14..p + 26]);
    ForeignOpens(": " + today);
  }

  /** Both markers are there, the second one first. */
  predicate Misordered(t: string, b: string, e: string) {
    Find(t, b).Some? && Find(t, e).Some? && Find(t, e).value + |e| <= Find(t, b).value
  }

  lemma MarkersOrder(t: string, b: string, e: string, k: nat)
    requires Pair(b, e, k) && Find(t, b).Some? && Find(t, e).Some?
    ensures Ordered(t, b, e) <==> !Misordered(t, b, e)
  {
    var i, j := Find(t, b).value, Find(t, e).value;
    OccursChar(t, b, i, i);
    OccursChar(t, e, j, j);
    NoTagAcross(t, b, i, j);
    NoTagAcross(t, e, j, i);
    if i == j {
      SameSixth(t, i, b, e);
    }
  }

  lemma BlockOpensTwice(block: string, b: string, e: string)
    requires Tag(b) && Tag(e) && IsBlock(block, b, e)
    ensures Opens(block) >= 2
  {
    OccursChar(block, b, 0, 0);
    OccursChar(block, e, |block| - |e|, |block| - |e|);
    assert block == [block[0]] + block[1..];
    assert '<' in block[1..];
  }

  lemma OpensAppend(p: string, s: string)
    ensures Opens(p + s) == Opens(p) + Opens(s)
  {
  }

  /** With the markers in the wrong order every run duplicates text. */
  lemma SpliceMisordered(t: string, block: string, b: string, e: string)
    requires Tag(b) && Tag(e) && IsBlock(block, b, e) && Misordered(t, b, e)
    ensures var u := Splice(t, block, b, e); u.Some? && Opens(u.value) >= Opens(t) + 2 && |u.value| >= |t| + |block|
  {
    hide Opens, IsBlock, First;
    var i, j := Find(t, b).value, Find(t, e).value + |e|;
    BlockOpensTwice(block, b, e);
    assert j <= i <= |t|;
    assert t[j..] == t[j..i] + t[i..] && t == t[..i] + t[i..];
    OpensAppend(t[..i], t[i..]);
    OpensAppend(t[j..i], t[i..]);
    OpensGlue(t[..i], block, t[j..]);
  }

  // ---- What the check accepts ----

  lemma CheckMisordered(t: string, block: string, b: string, e: string, version: string, today: string)
    requires Tag(b) && Tag(e) && IsBlock(block, b, e) && Misordered(t, b, e) && ProjectVersion(version) && IsDate(today)
    ensures !UpToDate(t, Regenerated(t, block, b, e, version, today))
  {
    hide Opens, IsBlock, Find, H.Find, H.MatchAt, Stamped, ProjectVersion, IsDate, Tag, BlankDate;
    SpliceMisordered(t, block, b, e);
    var u := Splice(t, block, b, e).value;
    if H.Find(u).Some? {
      SyncOpens(u, version, today);
      BlankOpens(Sync(u, version, today).value);
      BlankOpens(t);
    }
  }

  lemma CheckOrdered(t: string, block: string, b: string, e: string, k: nat, version: string, today: string)
    requires Pair(b, e, k) && IsBlock(block, b, e) && Ordered(t, b, e) && ProjectVersion(version) && IsDate(today)
    requires UpToDate(t, Regenerated(t, block, b, e, version, today))
    ensures Region(t, b, e) == block
  {
    hide IsBlock, Find, H.Find, H.MatchAt, Stamped, ProjectVersion, IsDate, Tag, BlankDate, Ordered, Region, Start, Stop, Replace, Shut, Splice;
    SpliceOrdered(t, block, b, e, k);
    var u := Splice(t, block, b, e).value;
    assert H.Find(u).Some?;
    SyncKeepsBlock(u, b, e, k, version, today);
    var n := Sync(u, version, today).value;
    BlankKeepsBlock(n, b, e, k);
    BlankShowsBlock(t, b, e);
  }

  /** The check of the overview accepts exactly the texts that hold the generated block between ordered markers
      and the project's version in their first header, whatever the two dates are. */
  lemma OverviewCheck(t: string, block: string, b: string, e: string, k: nat, version: string, today: string)
    requires Pair(b, e, k) && IsBlock(block, b, e) && ProjectVersion(version) && IsDate(today)
    ensures UpToDate(t, Regenerated(t, block, b, e, version, today))
       <==> Ordered(t, b, e) && Region(t, b, e) == block && IsVersion(version) && VersionOf(t) == Some(version)
  {
    hide IsBlock, Find, H.Find, H.MatchAt, Stamped, ProjectVersion, IsDate, Tag, Region, Start, Stop, Shut, IsVersion, Sync, VersionOf;
    HeaderCheck(t, version, today);
    if Ordered(t, b, e) {
      if Region(t, b, e) == block {
        SpliceSame(t, block, b, e);
      } else if UpToDate(t, Regenerated(t, block, b, e, version, today)) {
        CheckOrdered(t, block, b, e, k, version, today);
      }
    } else if Find(t, b).Some? && Find(t, e).Some? {
      MarkersOrder(t, b, e, k);
      CheckMisordered(t, block, b, e, version, today);
    }
  }

  // ---- A run of the writing mode, then the check ----

  lemma SplicedMisordered(t: string, block: string, b: string, e: string)
    requires Tag(b) && Tag(e) && IsBlock(block, b, e) && Misordered(t, b, e)
    ensures var u := Splice(t, block, b, e); u.Some? && Misordered(u.value, b, e)
  {
    var i, j := Find(t, b).value, Find(t, e).value;
    var p, s := t[..i], t[j + |e|..];
    var u := Glue(p, block, s);
    assert p + t[i..] == t;
    Reassociate(p, block, s);
    OccursInside(p, block, s, b, 0);
    OccursInPrefix(p, t[i..], block + s, e, j);
    forall q | 0 <= q < i
      ensures !OccursAt(u, b, q)
    {
      if OccursAt(u, b, q) {
        NothingBefore(p, t[i..], s, block, b, e, b, q);
      }
    }
    forall q | 0 <= q < j
      ensures !OccursAt(u, e, q)
    {
      if OccursAt(u, e, q) {
        NothingBefore(p, t[i..], s, block, b, e, e, q);
      }
    }
    FindIs(u, b, i);
    FindIs(u, e, j);
  }

  lemma EditMisordered(t: string, i: nat, j: nat, w: string, b: string, e: string)
    requires Tag(b) && Tag(e) && i <= j <= |t| && Foreign(t[i..j]) && Foreign(w) && Misordered(t, b, e)
    ensures Misordered(Replace(t, i, j, w), b, e)
  {
    hide Tag, Foreign, First, OccursAt, Find;
    var x, y := Find(t, b).value, Find(t, e).value;
    Pieces(t, i, j);
    FirstMoves(t[..i], t[i..j], w, t[j..], b, x);
    FirstMoves(t[..i], t[i..j], w, t[j..], e, y);
    FindIs(Replace(t, i, j, w), b, if x + |b| <= i then x else x - (j - i) + |w|);
    FindIs(Replace(t, i, j, w), e, if y + |e| <= i then y else y - (j - i) + |w|);
  }

  lemma SyncMisordered(t: string, b: string, e: string, version: string, today: string)
    requires Tag(b) && Tag(e) && Misordered(t, b, e) && ProjectVersion(version) && IsDate(today) && H.Find(t).Some?
    ensures var n := Sync(t, version, today); n.Some? && Misordered(n.value, b, e)
  {
    hide H.MatchAt, Tag, H.Find, H.NoHitIn, ProjectVersion, IsDate, Find, Foreign, VersionEnd, H.DateAt, Misordered, Stamped, Replace;
    var p, h := HeaderOf(t);
    var _, _, n := SyncIs(t, version, today);
    VersionIsForeign(t, h);
    NewVersionIsForeign(version);
    EditMisordered(t, h.version, h.end, version, b, e);
    var u := Replace(t, h.version, h.end, version);
    StampedIsTwoEdits(t, p, h, today, version);
    DateIsForeign(t, p);
    StampIsForeign(today);
    EditMisordered(u, p + 14, p + 26, ": " + today, b, e);
  }

  lemma StampedTwice(t: string, h: H.Header, d1: string, d2: string, version: string)
    requires h.date + 10 <= h.version <= h.end <= |t| && |d1| == 10
    ensures var n, h' := Stamped(t, h, d1, version), H.Header(h.date, h.version, h.version + |version|);
      && h'.end <= |n| && n[h'.version..h'.end] == version
      && Stamped(n, h', d2, version) == Stamped(t, h, d2, version)
  {
    var n := Stamped(t, h, d1, version);
    assert n[..h.date] == t[..h.date];
    assert n[h.date + 10..h.version] == t[h.date + 10..h.version];
    assert n[h.version + |version|..] == t[h.end..];
  }

  /** Stamping again only changes the date. */
  lemma SyncTwice(t: string, version: string, d1: string, d2: string)
    requires IsVersion(version) && IsDate(d1) && IsDate(d2) && H.Find(t).Some?
    ensures var n := Sync(t, version, d1);
      n.Some? && VersionOf(n.value) == Some(version) && Sync(n.value, version, d2) == Sync(t, version, d2)
  {
    hide H.MatchAt, H.Find, H.NoHitIn, IsVersion, Stamped;
    var p, h, n := SyncIs(t, version, d1);
    H.FindIs(n, p);
    StampedTwice(t, h, d1, d2, version);
  }

  lemma WrittenOrdered(t: string, block: string, b: string, e: string, k: nat, version: string, today: string)
    requires Pair(b, e, k) && IsBlock(block, b, e) && ProjectVersion(version) && IsDate(today)
    requires Regenerated(t, block, b, e, version, today).Some?
    ensures var n := Regenerated(t, block, b, e, version, today).value;
      && (Ordered(n, b, e) <==> Ordered(t, b, e))
      && (if Ordered(t, b, e) then Region(n, b, e) == block else Misordered(n, b, e))
  {
    hide IsBlock, Find, H.Find, H.MatchAt, Stamped, ProjectVersion, IsDate, Tag, Region, Start, Stop, Shut;
    MarkersOrder(t, b, e, k);
    var u := Splice(t, block, b, e).value;
    var n := Sync(u, version, today).value;
    if Ordered(t, b, e) {
      SpliceOrdered(t, block, b, e, k);
      SyncKeepsBlock(u, b, e, k, version, today);
    } else {
      SplicedMisordered(t, block, b, e);
      SyncMisordered(u, b, e, version, today);
      MarkersOrder(n, b, e, k);
    }
  }

  lemma VersionOfWritten(t: string, block: string, b: string, e: string, version: string, today: string)
    requires ProjectVersion(version) && IsDate(today) && Regenerated(t, block, b, e, version, today).Some?
    ensures var u, n := Splice(t, block, b, e).value, Regenerated(t, block, b, e, version, today).value;
      VersionOf(n) == if IsVersion(version) then Some(version) else NextVersion(u)
  {
    hide H.Find, H.MatchAt, Stamped, IsDate, IsVersion, VersionOf, NextVersion, Splice;
    var u := Splice(t, block, b, e).value;
    SyncErrs(u, version, today);
    if IsVersion(version) {
      SyncTwice(u, version, today, today);
    } else {
      UnknownIsNoVersion();
      UnknownShowsNext(u, today);
    }
  }

  /** A run of the writing mode, and a check at any later time. It passes if and only if the markers were in order, the
      block is still the same, and the project has a version: the one written then, or, if there was none to write, the
      one in the next header line. */
  lemma WriteThenLaterCheck(t: string, b: string, e: string, k: nat, block: string, version: string, d1: string,
                            block': string, version': string, d2: string)
    requires Pair(b, e, k) && IsBlock(block, b, e) && ProjectVersion(version) && IsDate(d1)
    requires IsBlock(block', b, e) && ProjectVersion(version') && IsDate(d2)
    requires Regenerated(t, block, b, e, version, d1).Some?
    ensures var u, n := Splice(t, block, b, e).value, Regenerated(t, block, b, e, version, d1).value;
      UpToDate(n, Regenerated(n, block', b, e, version', d2))
      <==> Ordered(t, b, e) && block' == block && IsVersion(version')
           && (if IsVersion(version) then version' == version else NextVersion(u) == Some(version'))
  {
    hide IsBlock, Find, H.Find, H.MatchAt, Stamped, IsDate, Tag, Region, Start, Stop, Shut, IsVersion, VersionOf, Ordered, NextVersion;
    var n := Regenerated(t, block, b, e, version, d1).value;
    WrittenOrdered(t, block, b, e, k, version, d1);
    OverviewCheck(n, block', b, e, k, version', d2);
    VersionOfWritten(t, block, b, e, version, d1);
  }

  /** What a run of the writing mode leaves is accepted on every later day with the same version and rows if and only if
      the markers were in order and the project has a version. */
  lemma WriteThenCheck(t: string, block: string, b: string, e: string, k: nat, version: string, d1: string, d2: string)
    requires Pair(b, e, k) && IsBlock(block, b, e) && ProjectVersion(version) && IsDate(d1) && IsDate(d2)
    requires Regenerated(t, block, b, e, version, d1).Some?
    ensures var n := Regenerated(t, block, b, e, version, d1).value;
      UpToDate(n, Regenerated(n, block, b, e, version, d2)) <==> Ordered(t, b, e) && IsVersion(version)
  {
    hide IsBlock, Pair, IsDate, IsVersion, Ordered, Regenerated, NextVersion;
    WriteThenLaterCheck(t, b, e, k, block, version, d1, block, version, d2);
  }
}
