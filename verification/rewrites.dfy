/** A second run over a document that was written once. */
module Rewrites {
  import opened Text
  import opened Markers
  import opened DocStats
  import opened LaterHeaders
  import opened Regeneration
  import H = DocHeader

  // ---- Splicing neither makes nor destroys a header ----

  lemma MatchEnds(s: string, p: nat)
    requires H.Hit(s, p)
    ensures var m := H.MatchAt(s, p).value; m.version < m.end
  {
  }

  /** A header in front of a begin marker is one in every text that is the same up to the end of the marker. */
  lemma FrontHit(s: string, s': string, p: nat, b: string, x: nat, k: nat)
    requires Tag(b) && Shut(b, k) && OccursAt(s, b, x) && H.Hit(s, p) && p < x && H.Same(s, s', 0, x + |b|)
    ensures H.Hit(s', p)
  {
    hide H.OpenAt, H.CloseAt, H.TailAt, H.MatchAt;
    H.HitParts(s, p);
    HeaderBefore(s, b, p, x, k);
    MatchEnds(s, p);
    var a := H.OpenAt(s, p).value;
    var c := H.CloseAt(s, a + 1);
    H.OpenSame(s, s', p, x);
    H.CloseAtSame(s, s', a + 1, x);
    OccursChar(s, b, x, x + |b| - 1);
    H.TailSame(s, s', c + 1, x + |b| - 1);
    H.HitIs(s', p, a, c);
  }

  lemma NoHitInBlock(s: string, x: nat, block: string, b: string, e: string, p: nat)
    requires Tag(b) && Tag(e) && IsBlock(block, b, e) && OccursAt(s, block, x) && x <= p < x + |block| - 1
    ensures !H.Hit(s, p)
  {
    hide H.MatchAt, IsBlock, Tag;
    if H.Hit(s, p) {
      HitStarts(s, p);
      OccursChar(s, block, x, p);
      OccursChar(s, block, x, p + 1);
      BlockCloses(block, b, e, p - x);
    }
  }

  lemma GluedBlock(p: string, block: string, s: string, b: string, e: string)
    requires Tag(b) && Tag(e) && IsBlock(block, b, e)
    ensures OccursAt(Glue(p, block, s), block, |p|) && OccursAt(Glue(p, block, s), b, |p|)
  {
    OccursInside(p, block, s, b, 0);
    OccursInside(p, block, s, block, 0);
  }

  lemma SameFront(t: string, u: string, b: string, i: nat)
    requires OccursAt(t, b, i) && OccursAt(u, b, i) && t[..i] == u[..i]
    ensures H.Same(t, u, 0, i + |b|)
  {
    forall q | 0 <= q < i + |b|
      ensures t[q] == u[q]
    {
      if q < i {
        assert t[q] == t[..i][q] && u[q] == u[..i][q];
      } else {
        OccursChar(t, b, i, q);
        OccursChar(u, b, i, q);
      }
    }
  }

  lemma SameRest(t: string, j: nat, u: string, m: nat)
    requires 1 <= j <= |t| && 1 <= m <= |u| && t[j..] == u[m..] && t[j - 1] == u[m - 1]
    ensures SameFrom(t, j - 1, u, m - 1) && SameFrom(u, m - 1, t, j - 1)
  {
    forall q | j <= q < |t|
      ensures t[q] == u[q - j + m]
    {
      assert t[q] == t[j..][q - j];
    }
    forall q | m <= q < |u|
      ensures u[q] == t[q - m + j]
    {
      assert u[q] == u[m..][q - m];
    }
  }

  lemma BlockEnds(block: string, b: string, e: string)
    requires Tag(b) && Tag(e) && IsBlock(block, b, e)
    ensures |block| >= 1 && block[|block| - 1] == '>'
  {
    OccursChar(block, e, |block| - |e|, |block| - 1);
  }

  lemma TagEnds(t: string, e: string, j: nat)
    requires Tag(e) && |e| <= j && OccursAt(t, e, j - |e|)
    ensures 1 <= j <= |t| && t[j - 1] == '>'
  {
    OccursChar(t, e, j - |e|, j - 1);
  }

  lemma SplicedAt(t: string, block: string, b: string, e: string, i: nat, j: nat)
    requires Tag(b) && Tag(e) && IsBlock(block, b, e) && OccursAt(t, b, i) && |e| <= j && OccursAt(t, e, j - |e|)
    ensures i <= |t| && 1 <= j <= |t| && |block| >= 1
    ensures var u := Glue(t[..i], block, t[j..]);
      && OccursAt(u, b, i) && H.Same(t, u, 0, i + |b|) && OccursAt(u, block, i)
      && SameFrom(t, j - 1, u, i + |block| - 1) && SameFrom(u, i + |block| - 1, t, j - 1)
  {
    hide IsBlock, SameFrom, H.Same, Glue;
    var u := Glue(t[..i], block, t[j..]);
    GluedBlock(t[..i], block, t[j..], b, e);
    GlueParts(t[..i], block, t[j..]);
    SameFront(t, u, b, i);
    TagEnds(t, e, j);
    BlockEnds(block, b, e);
    OccursChar(u, block, i, i + |block| - 1);
    SameRest(t, j, u, i + |block|);
  }

  lemma SplicedText(t: string, block: string, b: string, e: string)
    requires Find(t, b).Some? && Find(t, e).Some? && Tag(b) && Tag(e) && IsBlock(block, b, e)
    ensures var i, j, u := Find(t, b).value, Find(t, e).value + |e|, Splice(t, block, b, e);
      && u.Some? && OccursAt(t, b, i) && OccursAt(u.value, b, i) && H.Same(t, u.value, 0, i + |b|)
      && |block| >= 1 && OccursAt(u.value, block, i) && 1 <= j <= |t|
      && SameFrom(t, j - 1, u.value, i + |block| - 1) && SameFrom(u.value, i + |block| - 1, t, j - 1)
  {
    hide IsBlock, SameFrom, H.Same, OccursAt, Tag;
    SplicedAt(t, block, b, e, Find(t, b).value, Find(t, e).value + |e|);
  }

  lemma HitSurvives(s: string, s': string, b: string, k: nat, i: nat, m: nat, m': nat, p: nat)
    requires Tag(b) && Shut(b, k) && OccursAt(s, b, i) && H.Same(s, s', 0, i + |b|) && SameFrom(s, m, s', m')
    requires H.Hit(s, p) && (p < i || m <= p)
    ensures H.Find(s').Some?
  {
    hide H.MatchAt, H.Find, Tag, Shut, H.Same, OccursAt;
    H.FindIsFirst(s');
    if p < i {
      FrontHit(s, s', p, b, i, k);
    } else {
      HitsBehind(s, m, s', m', p);
    }
  }

  lemma SameBack(s: string, s': string, n: nat)
    requires H.Same(s, s', 0, n)
    ensures H.Same(s', s, 0, n)
  {
  }

  lemma MatchAhead(t: string, p: nat)
    requires H.Hit(t, p)
    ensures p < H.MatchAt(t, p).value.end
  {
  }

  lemma PlaceOfHit(t: string, b: string, e: string, k: nat, p: nat)
    requires Pair(b, e, k) && Find(t, b).Some? && Find(t, e).Some? && H.Hit(t, p)
    requires Ordered(t, b, e) ==> IsBlock(Region(t, b, e), b, e)
    ensures p < Find(t, b).value || Find(t, e).value + |e| <= p + 1
  {
    hide H.MatchAt, IsBlock, Tag, Shut, Region, Find;
    MarkersOrder(t, b, e, k);
    if Ordered(t, b, e) {
      HeaderOutside(t, b, e, k, p);
      MatchAhead(t, p);
    }
  }

  /** Splicing a block in the place of another, or between markers in the wrong order, keeps a header in the document if
      there is one, and makes none if there is none. */
  lemma HeadersSurvive(t: string, block: string, b: string, e: string, k: nat)
    requires Pair(b, e, k) && IsBlock(block, b, e) && Find(t, b).Some? && Find(t, e).Some?
    requires Ordered(t, b, e) ==> IsBlock(Region(t, b, e), b, e)
    ensures var u := Splice(t, block, b, e); u.Some? && (H.Find(u.value).Some? <==> H.Find(t).Some?)
  {
    hide H.MatchAt, H.Find, IsBlock, Tag, Shut, Splice, H.Same, OccursAt, SameFrom, Region, Find;
    SplicedText(t, block, b, e);
    var i, j, u := Find(t, b).value, Find(t, e).value + |e|, Splice(t, block, b, e).value;
    H.FindIsFirst(t);
    H.FindIsFirst(u);
    if H.Find(t).Some? {
      var p := H.Find(t).value;
      PlaceOfHit(t, b, e, k, p);
      HitSurvives(t, u, b, k, i, j - 1, i + |block| - 1, p);
    }
    if H.Find(u).Some? {
      var p := H.Find(u).value;
      if i <= p < i + |block| - 1 {
        NoHitInBlock(u, i, block, b, e, p);
      } else {
        SameBack(t, u, i + |b|);
        HitSurvives(u, t, b, k, i, i + |block| - 1, j - 1, p);
      }
    }
  }

  // ---- A run after a run without a version ----

  lemma WrittenMarkers(t: string, block: string, b: string, e: string, k: nat, version: string, today: string)
    requires Pair(b, e, k) && IsBlock(block, b, e) && ProjectVersion(version) && IsDate(today)
    requires Regenerated(t, block, b, e, version, today).Some?
    ensures var n := Regenerated(t, block, b, e, version, today).value;
      Find(n, b).Some? && Find(n, e).Some? && (Ordered(n, b, e) ==> IsBlock(Region(n, b, e), b, e))
  {
    hide IsBlock, Find, IsDate, ProjectVersion, Pair, Region, Regenerated;
    WrittenOrdered(t, block, b, e, k, version, today);
  }

  /** After a run that stamped `unknown`, a run at any time, with any rows and version, ends in an error if and only if the
      document has no other header line. */
  lemma UnknownThenRun(t: string, b: string, e: string, k: nat, block: string, d1: string, block': string, version': string, d2: string)
    requires Pair(b, e, k) && IsBlock(block, b, e) && IsBlock(block', b, e) && IsDate(d1)
    requires Regenerated(t, block, b, e, "unknown", d1).Some?
    ensures var u, n := Splice(t, block, b, e).value, Regenerated(t, block, b, e, "unknown", d1).value;
      Regenerated(n, block', b, e, version', d2).None? <==> NextVersion(u).None?
  {
    hide IsBlock, Find, H.Find, H.MatchAt, Stamped, IsDate, Pair, Region, Ordered, NextVersion, IsVersion, ProjectVersion, Splice;
    UnknownIsNoVersion();
    var u, n := Splice(t, block, b, e).value, Regenerated(t, block, b, e, "unknown", d1).value;
    SyncErrs(u, "unknown", d1);
    UnknownShowsNext(u, d1);
    WrittenMarkers(t, block, b, e, k, "unknown", d1);
    HeadersSurvive(n, block', b, e, k);
    SyncErrs(Splice(n, block', b, e).value, version', d2);
  }

  // ---- A second run with the same rows and version ----

  /** The second run would stamp the next header line, which the first run on that day leaves alone. */
  lemma UnknownTwice(u: string, d1: string, d2: string)
    requires H.Find(u).Some? && IsDate(d1) && IsDate(d2)
    ensures var n, m := Sync(u, "unknown", d1), Sync(u, "unknown", d2);
      n.Some? && m.Some? && Sync(n.value, "unknown", d2) != m
  {
    hide H.Find, H.MatchAt, Stamped, IsDate, NextVersion, IsVersion, NextStart, VersionOf;
    UnknownIsNoVersion();
    UnknownShowsNext(u, d1);
    UnknownShowsNext(u, d2);
    var n, m := Sync(u, "unknown", d1).value, Sync(u, "unknown", d2).value;
    SyncErrs(n, "unknown", d2);
    if H.Find(n).Some? {
      var p, h, r := SyncIs(n, "unknown", d2);
      H.FindIsFirst(m);
      assert H.Hit(m, p) && !H.Hit(r, p);
    }
  }

  lemma MisorderedTwice(t: string, block: string, b: string, e: string, version: string, d1: string, d2: string)
    requires Tag(b) && Tag(e) && IsBlock(block, b, e) && Misordered(t, b, e)
    requires ProjectVersion(version) && IsDate(d1) && IsDate(d2) && Regenerated(t, block, b, e, version, d1).Some?
    ensures var n := Regenerated(t, block, b, e, version, d1).value;
      Regenerated(n, block, b, e, version, d2) != Regenerated(t, block, b, e, version, d2)
  {
    hide IsBlock, Find, H.Find, H.MatchAt, Stamped, IsDate, ProjectVersion, Tag, Opens, Splice;
    SpliceMisordered(t, block, b, e);
    SplicedMisordered(t, block, b, e);
    var u := Splice(t, block, b, e).value;
    SyncErrs(u, version, d1);
    SyncOpens(u, version, d1);
    SyncOpens(u, version, d2);
    SyncMisordered(u, b, e, version, d1);
    var n := Sync(u, version, d1).value;
    SpliceMisordered(n, block, b, e);
    var v := Splice(n, block, b, e).value;
    SyncErrs(v, version, d2);
    if H.Find(v).Some? {
      SyncOpens(v, version, d2);
    }
  }

  /** A second run gives what a first run on that day would have given, and so changes nothing on the same day, if and only if
      the markers were in order and the project has a version. */
  lemma WriteTwice(t: string, block: string, b: string, e: string, k: nat, version: string, d1: string, d2: string)
    requires Pair(b, e, k) && IsBlock(block, b, e) && ProjectVersion(version) && IsDate(d1) && IsDate(d2)
    requires Regenerated(t, block, b, e, version, d1).Some?
    ensures var n := Regenerated(t, block, b, e, version, d1).value;
      Regenerated(n, block, b, e, version, d2) == Regenerated(t, block, b, e, version, d2)
      <==> Ordered(t, b, e) && IsVersion(version)
  {
    hide IsBlock, Find, H.Find, H.MatchAt, Stamped, IsDate, Tag, Region, Start, Stop, Shut, IsVersion, Sync;
    var n, u := Regenerated(t, block, b, e, version, d1).value, Splice(t, block, b, e).value;
    WrittenOrdered(t, block, b, e, k, version, d1);
    MarkersOrder(t, b, e, k);
    SyncErrs(u, version, d1);
    if Ordered(t, b, e) {
      SpliceSame(n, block, b, e);
      if IsVersion(version) {
        SyncTwice(u, version, d1, d2);
      } else {
        UnknownTwice(u, d1, d2);
      }
    } else {
      MisorderedTwice(t, block, b, e, version, d1, d2);
    }
  }
}
