/** What a header line further down a document becomes when the first one is stamped with a version that is none. */
module LaterHeaders {
  import opened Text
  import opened DocStats
  import H = DocHeader

  // ---- Matching depends on the text from there on only ----

  /** The text of s from i on is that of s' from i' on. */
  predicate SameFrom(s: string, i: nat, s': string, i': nat) {
    i <= |s| && |s| - i == |s'| - i' && forall k | i <= k < |s| :: s[k] == s'[k - i + i']
  }

  lemma Lengths(s: string, i: nat, s': string, i': nat)
    requires SameFrom(s, i, s', i')
    ensures i <= |s| && i' <= |s'| && |s| - i == |s'| - i'
  {
  }

  /** So k characters further the same text follows. */
  lemma Further(s: string, i: nat, s': string, i': nat, k: nat)
    requires SameFrom(s, i, s', i') && i + k <= |s|
    ensures i' + k <= |s'| && |s'| - i' == |s| - i && SameFrom(s, i + k, s', i' + k)
    ensures i + k < |s| ==> i' + k < |s'| && s[i + k] == s'[i' + k]
  {
  }

  lemma SameSlice(s: string, i: nat, s': string, i': nat, k: nat, l: nat)
    requires SameFrom(s, i, s', i') && i + k <= i + l <= |s|
    ensures i' + k <= i' + l <= |s'| && s[i + k..i + l] == s'[i' + k..i' + l]
  {
    var u, u' := s[i + k..i + l], s'[i' + k..i' + l];
    assert forall j | 0 <= j < l - k :: u[j] == u'[j];
  }

  lemma {:induction false} SpacesShift(s: string, i: nat, s': string, i': nat)
    requires SameFrom(s, i, s', i')
    ensures H.SpacesEnd(s', i') - i' == H.SpacesEnd(s, i) - i
    decreases |s| - i
  {
    Further(s, i, s', i', 0);
    if i < |s| && IsSpace(s[i]) {
      Further(s, i, s', i', 1);
      SpacesShift(s, i + 1, s', i' + 1);
    }
  }

  lemma {:induction false} CloseShift(s: string, i: nat, s': string, i': nat)
    requires SameFrom(s, i, s', i')
    ensures H.CloseAt(s', i') - i' == H.CloseAt(s, i) - i
    decreases |s| - i
  {
    Further(s, i, s', i', 0);
    if i < |s| && s[i] != ')' {
      Further(s, i, s', i', 1);
      CloseShift(s, i + 1, s', i' + 1);
    }
  }

  lemma {:induction false} DigitsShift(s: string, i: nat, s': string, i': nat)
    requires SameFrom(s, i, s', i')
    ensures DigitsEnd(s', i') - i' == DigitsEnd(s, i) - i
    decreases |s| - i
  {
    Further(s, i, s', i', 0);
    if i < |s| && IsDigit(s[i]) {
      Further(s, i, s', i', 1);
      DigitsShift(s, i + 1, s', i' + 1);
    }
  }

  lemma VersionParts(s: string, i: nat) returns (a: nat, b: nat, c: nat)
    requires i <= |s| && VersionEnd(s, i).Some?
    ensures i < a && a + 1 < b && b + 1 < c <= |s| && s[a] == '.' && s[b] == '.'
    ensures DigitsEnd(s, i) == a && DigitsEnd(s, a + 1) == b && DigitsEnd(s, b + 1) == c
    ensures VersionEnd(s, i) == Some(c)
  {
    hide DigitsEnd;
    a := DigitsEnd(s, i);
    b := DigitsEnd(s, a + 1);
    c := DigitsEnd(s, b + 1);
  }

  lemma VersionShift(s: string, i: nat, s': string, i': nat)
    requires SameFrom(s, i, s', i') && VersionEnd(s, i).Some?
    ensures VersionEnd(s', i') == Some(VersionEnd(s, i).value - i + i')
  {
    hide DigitsEnd, VersionEnd, SameFrom;
    Further(s, i, s', i', 0);
    var a, b, c := VersionParts(s, i);
    Further(s, i, s', i', a - i);
    Further(s, i, s', i', a + 1 - i);
    Further(s, i, s', i', b - i);
    Further(s, i, s', i', b + 1 - i);
    DigitsShift(s, i, s', i');
    DigitsShift(s, a + 1, s', a + 1 - i + i');
    DigitsShift(s, b + 1, s', b + 1 - i + i');
    VersionFields(s', i', a - i + i', b - i + i', c - i + i');
  }

  lemma PrefixShift(s: string, p: nat, s': string, p': nat)
    requires SameFrom(s, p, s', p') && H.PrefixAt(s, p)
    ensures H.PrefixAt(s', p')
  {
  }

  lemma KeywordShift(s: string, p: nat, s': string, p': nat)
    requires SameFrom(s, p, s', p') && H.KeywordAt(s, p)
    ensures H.KeywordAt(s', p')
  {
  }

  lemma DateShift(s: string, p: nat, s': string, p': nat)
    requires SameFrom(s, p, s', p') && H.DateAt(s, p)
    ensures H.DateAt(s', p')
  {
    SameSlice(s, p, s', p', 0, 10);
  }

  lemma OpenShift(s: string, p: nat, s': string, p': nat)
    requires SameFrom(s, p, s', p') && H.OpenAt(s, p).Some?
    ensures H.OpenAt(s', p') == Some(H.OpenAt(s, p).value - p + p')
  {
    hide H.PrefixAt, H.DateAt;
    PrefixShift(s, p, s', p');
    Further(s, p, s', p', 16);
    DateShift(s, p + 16, s', p' + 16);
    Further(s, p, s', p', 26);
    SpacesShift(s, p + 26, s', p' + 26);
    Further(s, p, s', p', H.OpenAt(s, p).value - p);
  }

  lemma WordShift(s: string, i: nat, s': string, i': nat)
    requires SameFrom(s, i, s', i') && H.WordAt(s, i).Some?
    ensures H.WordAt(s', i') == Some(H.WordAt(s, i).value - i + i')
  {
    hide H.KeywordAt, H.SpacesEnd, SameFrom;
    Further(s, i, s', i', 0);
    var d := H.SpacesEnd(s, i);
    var e := H.SpacesEnd(s, d + 1);
    SpacesShift(s, i, s', i');
    Further(s, i, s', i', d - i);
    Further(s, i, s', i', d + 1 - i);
    SpacesShift(s, d + 1, s', d + 1 - i + i');
    Further(s, i, s', i', e - i);
    KeywordShift(s, e, s', e - i + i');
  }

  lemma NumberShift(s: string, w: nat, s': string, w': nat)
    requires SameFrom(s, w, s', w') && H.NumberAt(s, w).Some?
    ensures var v := H.NumberAt(s, w).value; H.NumberAt(s', w') == Some((v.0 - w + w', v.1 - w + w'))
  {
    hide VersionEnd;
    var f := H.SpacesEnd(s, w);
    SpacesShift(s, w, s', w');
    Further(s, w, s', w', f - w);
    VersionShift(s, f, s', f - w + w');
  }

  lemma TailShift(s: string, i: nat, s': string, i': nat)
    requires SameFrom(s, i, s', i') && H.TailAt(s, i).Some?
    ensures var v := H.TailAt(s, i).value; H.TailAt(s', i') == Some((v.0 - i + i', v.1 - i + i'))
  {
    hide H.WordAt, H.NumberAt;
    var w := H.WordAt(s, i).value;
    WordShift(s, i, s', i');
    Further(s, i, s', i', w - i);
    NumberShift(s, w, s', w - i + i');
  }

  /** A header matches wherever the same text follows. */
  lemma HitShift(s: string, p: nat, s': string, p': nat)
    requires SameFrom(s, p, s', p') && H.Hit(s, p)
    ensures var h := H.MatchAt(s, p).value;
      H.MatchAt(s', p') == Some(H.Header(p' + 16, h.version - p + p', h.end - p + p'))
  {
    hide H.OpenAt, H.CloseAt, H.TailAt;
    H.HitParts(s, p);
    var a := H.OpenAt(s, p).value;
    var c := H.CloseAt(s, a + 1);
    OpenShift(s, p, s', p');
    Further(s, p, s', p', a + 1 - p);
    CloseShift(s, a + 1, s', a + 1 - p + p');
    Further(s, p, s', p', c + 1 - p);
    TailShift(s, c + 1, s', c + 1 - p + p');
  }

  /** The version of the match at p. */
  function VersionAt(t: string, p: nat): Option<string> {
    match H.MatchAt(t, p)
    case None => None
    case Some(h) => Some(t[h.version..h.end])
  }

  lemma SameVersion(s: string, p: nat, s': string, p': nat)
    requires SameFrom(s, p, s', p') && H.Hit(s, p)
    ensures VersionAt(s, p) == VersionAt(s', p')
  {
    hide H.OpenAt, H.CloseAt, H.TailAt;
    HitShift(s, p, s', p');
    var h := H.MatchAt(s, p).value;
    var i, j := h.version - p, h.end - p;
    SameSlice(s, p, s', p', i, j);
  }

  lemma VersionAtShift(s: string, p: nat, s': string, p': nat)
    requires SameFrom(s, p, s', p')
    ensures VersionAt(s, p) == VersionAt(s', p')
  {
    hide H.MatchAt;
    if H.Hit(s, p) {
      SameVersion(s, p, s', p');
    } else if H.Hit(s', p') {
      HitShift(s', p', s, p);
    }
  }

  // ---- The text behind a stamp that is no version ----

  /** A match that starts inside another one up to its parenthesis ends in the same version. */
  lemma SharedTail(n: string, p: nat, a: nat, c: nat, q: nat)
    requires H.OpenAt(n, p) == Some(a) && H.CloseAt(n, a + 1) == c < |n| && p < q < c && H.Hit(n, q)
    ensures H.TailAt(n, c + 1).Some?
  {
    hide H.OpenAt, H.TailAt, H.MatchAt;
    H.HitParts(n, q);
    H.OpenChars(n, p);
    H.OpenChars(n, q);
    H.CloseChars(n, a + 1);
    var a' := H.OpenAt(n, q).value;
    H.CloseStop(n, a' + 1, c);
    assert H.CloseAt(n, a' + 1) == c;
  }

  lemma StampedParts(t: string, n: string, p: nat, h: H.Header) returns (a: nat, c: nat)
    requires H.Hit(t, p) && H.MatchAt(t, p) == Some(h) && H.Edited(t, n, p + 16, h.version) && h.version < |n|
    ensures H.OpenAt(n, p) == Some(a) && a < c < h.version && H.CloseAt(n, a + 1) == c
    ensures forall k | c < k < h.version :: n[k] != '>'
  {
    hide H.OpenAt, H.CloseAt, H.TailAt, H.DateAt;
    H.HitParts(t, p);
    a := H.OpenAt(t, p).value;
    c := H.CloseAt(t, a + 1);
    H.OpenEdited(t, n, p, h.version);
    H.CloseAtSame(t, n, a + 1, h.version);
    H.TailChars(t, c + 1);
  }

  lemma CloseIs(n: string, a: nat, c: nat)
    requires a + 1 <= |n| && H.CloseAt(n, a + 1) == c < |n|
    ensures n[c] == ')'
  {
  }

  /** Once the header at p does not match any more, nothing up to its version does. */
  lemma NothingInside(t: string, n: string, p: nat, h: H.Header, q: nat)
    requires H.Hit(t, p) && H.MatchAt(t, p) == Some(h) && H.Edited(t, n, p + 16, h.version) && h.version < |n|
    requires !H.Hit(n, p) && p < q < h.version
    ensures !H.Hit(n, q)
  {
    hide H.OpenAt, H.CloseAt, H.TailAt, H.DateAt, H.MatchAt, H.Edited;
    var a, c := StampedParts(t, n, p, h);
    if H.Hit(n, q) {
      DateOf(n, q);
      CloseIs(n, a, c);
      if q < c {
        SharedTail(n, p, a, c, q);
        H.HitIs(n, p, a, c);
      }
    }
  }

  lemma NothingInWord(n: string, i: nat, q: nat)
    requires i + 7 <= |n| && n[i..i + 7] == "unknown" && i <= q < i + 7
    ensures !H.Hit(n, q)
  {
    hide H.MatchAt;
    assert n[q] == n[i..i + 7][q - i];
    if H.Hit(n, q) {
      DateOf(n, q);
    }
  }

  /** Where the first header behind position i starts. */
  function FindBehind(t: string, i: nat): Option<nat>
    requires i <= |t|
  {
    H.FirstTrue((q: nat) => H.Hit(t, q), |t|, i)
  }

  lemma FindBehindIs(t: string, i: nat)
    requires i <= |t|
    ensures var r := FindBehind(t, i);
      if r.Some? then i <= r.value && H.Hit(t, r.value) && H.NoHitIn(t, i, r.value)
      else forall q: nat | i <= q :: !H.Hit(t, q)
  {
    var f := (q: nat) => H.Hit(t, q);
    var r := H.FirstTrue(f, |t|, i);
    forall q: nat | i <= q && q < (if r.Some? then r.value else |t| + 1)
      ensures !H.Hit(t, q)
    {
      assert !f(q);
    }
    if r.None? {
      forall q: nat | i <= q
        ensures !H.Hit(t, q)
      {
        if H.Hit(t, q) {
          H.HitInside(t, q);
        }
      }
    }
  }

  /** The version in the first header line that starts behind the first one. */
  function NextVersion(t: string): Option<string> {
    match H.Find(t)
    case None => None
    case Some(p) =>
      match H.MatchAt(t, p)
      case None => None
      case Some(h) => if FindBehind(t, h.end).Some? then VersionAt(t, FindBehind(t, h.end).value) else None
  }

  /** A position moved along with the text. */
  function Moved(r: Option<nat>, d: int): Option<int> {
    match r
    case None => None
    case Some(q) => Some(q + d)
  }

  /** Where that line starts once the first one is stamped `unknown`. */
  function NextStart(t: string): Option<int> {
    match H.Find(t)
    case None => None
    case Some(p) =>
      match H.MatchAt(t, p)
      case None => None
      case Some(h) => Moved(FindBehind(t, h.end), h.version + 7 - h.end)
  }

  lemma VersionOfIs(t: string)
    ensures VersionOf(t) == if H.Find(t).Some? then VersionAt(t, H.Find(t).value) else None
  {
    hide H.Find, H.MatchAt;
  }

  lemma StampedTail(t: string, h: H.Header, today: string, version: string)
    requires h.date + 10 <= h.version <= h.end <= |t| && |today| == 10
    ensures var n := Stamped(t, h, today, version);
      && SameFrom(n, h.version + |version|, t, h.end)
      && h.version + |version| <= |n| && n[h.version..h.version + |version|] == version
  {
    var n := Stamped(t, h, today, version);
    StampedChars(t, h, today, version);
    assert n[h.version..][..|version|] == version;
    var i := h.version + |version|;
    assert n[i..] == n[h.version..][|version|..] == t[h.end..];
    forall k | i <= k < |n|
      ensures n[k] == t[k - i + h.end]
    {
      assert n[k] == n[i..][k - i];
    }
  }

  lemma NoHitBehind(t: string, q: nat)
    requires q >= |t|
    ensures !H.Hit(t, q)
  {
    hide H.MatchAt;
    if H.Hit(t, q) {
      H.HitInside(t, q);
    }
  }

  lemma HitsBehind(n: string, i: nat, t: string, j: nat, q: nat)
    requires SameFrom(n, i, t, j) && q >= i
    ensures H.Hit(n, q) <==> H.Hit(t, q - i + j)
    ensures q <= |n| ==> VersionAt(n, q) == VersionAt(t, q - i + j)
  {
    hide H.MatchAt;
    if q <= |n| {
      Further(n, i, t, j, q - i);
      VersionAtShift(n, q, t, q - i + j);
    } else {
      NoHitBehind(n, q);
      NoHitBehind(t, q - i + j);
    }
  }

  /** If nothing matches in front of i and the rest is that of t from j on, the first header is the first one of t there. */
  lemma FirstBehind(n: string, i: nat, t: string, j: nat)
    requires H.NoHitIn(n, 0, i) && SameFrom(n, i, t, j)
    ensures VersionOf(n) == if FindBehind(t, j).Some? then VersionAt(t, FindBehind(t, j).value) else None
    ensures H.Find(n) == Moved(FindBehind(t, j), i - j)
  {
    hide H.MatchAt, H.Find, FindBehind, VersionAt, SameFrom, VersionOf;
    Lengths(n, i, t, j);
    FindBehindIs(t, j);
    VersionOfIs(n);
    var r := FindBehind(t, j);
    forall q: nat | q < (if r.Some? then r.value - j + i else q + 1)
      ensures !H.Hit(n, q)
    {
      if q >= i {
        HitsBehind(n, i, t, j, q);
      }
    }
    if r.Some? {
      var q := r.value - j + i;
      HitsBehind(n, i, t, j, q);
      H.HitInside(t, r.value);
      H.FindIs(n, q);
    } else {
      H.FindIsFirst(n);
    }
  }

  lemma DateLength(d: string)
    requires IsDate(d)
    ensures |d| == 10
  {
  }

  lemma FoundHasVersion(t: string, i: nat)
    requires i <= |t|
    ensures FindBehind(t, i).Some? ==> VersionAt(t, FindBehind(t, i).value).Some?
  {
    hide H.MatchAt, FindBehind;
    FindBehindIs(t, i);
  }

  /** Stamping `unknown` makes the next header line the first one. */
  lemma UnknownShowsNext(t: string, today: string)
    requires H.Find(t).Some? && IsDate(today) && ProjectVersion("unknown") && !IsVersion("unknown")
    ensures var n := Sync(t, "unknown", today);
      && n.Some? && VersionOf(n.value) == NextVersion(t) && (H.Find(n.value).Some? <==> NextVersion(t).Some?)
      && H.Find(n.value) == NextStart(t)
  {
    hide H.MatchAt, H.Find, FindBehind, VersionAt, SameFrom, Stamped, IsVersion, H.DateAt, IsDate, VersionOf;
    var p, h, n := SyncIs(t, "unknown", today);
    DateOf(t, p);
    DateLength(today);
    StampedTail(t, h, today, "unknown");
    StampedChars(t, h, today, "unknown");
    StampedIsEdited(t, n, h.date, h.version, today);
    var i := h.version + 7;
    forall q: nat | q < i
      ensures !H.Hit(n, q)
    {
      if h.version <= q {
        NothingInWord(n, h.version, q);
      } else if p < q {
        NothingInside(t, n, p, h, q);
      }
    }
    FirstBehind(n, i, t, h.end);
    FoundHasVersion(t, h.end);
  }

  lemma UnknownIsNoVersion()
    ensures ProjectVersion("unknown") && !IsVersion("unknown")
  {
    VersionStart("unknown");
  }

  lemma SyncErrs(t: string, version: string, today: string)
    ensures Sync(t, version, today).None? <==> H.Find(t).None?
  {
    hide H.Find, H.MatchAt;
    H.FindIsFirst(t);
  }

  /** A later check of a document that was stamped `unknown`: it passes if and only if the project has a version by then and
      the next header line of the document shows it; without such a line it ends in an error. */
  lemma UnknownThenCheck(t: string, d1: string, version: string, d2: string)
    requires H.Find(t).Some? && IsDate(d1) && ProjectVersion(version) && IsDate(d2)
    ensures var n := Sync(t, "unknown", d1);
      && n.Some?
      && (Sync(n.value, version, d2).None? <==> NextVersion(t).None?)
      && (UpToDate(n.value, Sync(n.value, version, d2)) <==> IsVersion(version) && NextVersion(t) == Some(version))
  {
    hide H.MatchAt, H.Find, Stamped, IsVersion, IsDate, VersionOf, NextVersion;
    UnknownIsNoVersion();
    UnknownShowsNext(t, d1);
    var n := Sync(t, "unknown", d1).value;
    HeaderCheck(n, version, d2);
    SyncErrs(n, version, d2);
  }
}
