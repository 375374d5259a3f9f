/** Regenerating the documents and checking them (scripts/gen_doc_stats.py). */
module DocStats {
  import opened Text
  import opened Markers
  import H = DocHeader

  const PLACEHOLDER := "DATE-IGNORED"

  /** `splice`; None stands for its SystemExit. */
  function Splice(t: string, block: string, b: string, e: string): Option<string> {
    match (Find(t, b), Find(t, e))
    case (Some(i), Some(j)) => Some(t[..i] + block + t[j + |e|..])
    case _ => None
  }

  /** The text with a new date and a new version in the header h. */
  function Stamped(t: string, h: H.Header, date: string, version: string): string
    requires h.date + 10 <= h.version <= h.end <= |t|
  {
    t[..h.date] + date + t[h.date + 10..h.version] + version + t[h.end..]
  }

  /** `sync_header`; None stands for its SystemExit. */
  function Sync(t: string, version: string, today: string): Option<string> {
    match H.Find(t)
    case None => None
    case Some(p) =>
      match H.MatchAt(t, p)
      case None => None
      case Some(h) => Some(Stamped(t, h, today, version))
  }

  /** `blank_header_date` */
  function BlankDate(t: string): string {
    match H.Find(t)
    case None => t
    case Some(p) => if p + 26 <= |t| then t[..p + 16] + PLACEHOLDER + t[p + 26..] else t
  }

  /** The version in the first header of the document. */
  function VersionOf(t: string): Option<string> {
    match H.Find(t)
    case None => None
    case Some(p) =>
      match H.MatchAt(t, p)
      case None => None
      case Some(h) => Some(t[h.version..h.end])
  }

  /** What `read_project_version` can return. */
  predicate ProjectVersion(v: string) {
    IsVersion(v) || v == "unknown"
  }

  /** The test the check mode applies to a document and its regenerated text. */
  predicate UpToDate(t: string, regenerated: Option<string>) {
    regenerated.Some? && BlankDate(t) == BlankDate(regenerated.value)
  }

  /** The regenerated overview document. */
  function Regenerated(t: string, block: string, b: string, e: string, version: string, today: string): Option<string> {
    match Splice(t, block, b, e)
    case None => None
    case Some(u) => Sync(u, version, today)
  }

  // ---- The header line ----

  lemma DateOf(t: string, p: nat)
    requires H.Hit(t, p)
    ensures H.DateAt(t, p + 16) && t[p] == '>' && t[p + 14] == ':' && t[p + 15] == ' '
  {
    H.HitParts(t, p);
    H.OpenChars(t, p);
  }

  lemma HeaderOf(t: string) returns (p: nat, h: H.Header)
    requires H.Find(t).Some?
    ensures H.Find(t) == Some(p) && H.Hit(t, p) && H.NoHitIn(t, 0, p) && H.MatchAt(t, p) == Some(h)
    ensures h.date == p + 16 && p + 26 < h.version < h.end <= |t|
    ensures H.DateAt(t, h.date) && t[p] == '>' && t[p + 14] == ':' && t[p + 15] == ' '
    ensures VersionEnd(t, h.version) == Some(h.end)
  {
    hide H.Find;
    H.FindIsFirst(t);
    p := H.Find(t).value;
    h := H.MatchAt(t, p).value;
    DateOf(t, p);
  }

  lemma StampedChars(t: string, h: H.Header, date: string, version: string)
    requires h.date + 10 <= h.version <= h.end <= |t| && |date| == 10
    ensures var n := Stamped(t, h, date, version);
      && H.Same(t, n, 0, h.date) && H.Same(t, n, h.date + 10, h.version)
      && n[h.date..h.date + 10] == date && n[h.version..] == version + t[h.end..]
      && n[..h.date] == t[..h.date] && n[h.date + 10..h.version] == t[h.date + 10..h.version]
  {
  }

  /** Where v stands in s and no digit follows. */
  predicate Stands(s: string, i: nat, v: string) {
    OccursAt(s, v, i) && (i + |v| == |s| || !IsDigit(s[i + |v|]))
  }

  lemma {:induction false} DigitsEndShift(s: string, i: nat, v: string, j: nat)
    requires j <= |v| && Stands(s, i, v)
    ensures DigitsEnd(s, i + j) == i + DigitsEnd(v, j)
    decreases |v| - j
  {
    if j < |v| {
      assert s[i + j] == v[j];
      DigitsEndShift(s, i, v, j + 1);
    }
  }

  lemma VersionFields(v: string, i: nat, a: nat, b: nat, c: nat)
    requires i <= a < b < c <= |v| && i < a && v[a] == '.' && v[b] == '.' && a + 1 < b && b + 1 < c
    requires DigitsEnd(v, i) == a && DigitsEnd(v, a + 1) == b && DigitsEnd(v, b + 1) == c
    ensures VersionEnd(v, i) == Some(c)
  {
    hide DigitsEnd;
  }

  lemma VersionDots(v: string) returns (a: nat, b: nat)
    requires IsVersion(v)
    ensures 0 < a && a + 1 < b && b + 1 < |v| && v[a] == '.' && v[b] == '.'
    ensures DigitsEnd(v, 0) == a && DigitsEnd(v, a + 1) == b && DigitsEnd(v, b + 1) == |v|
  {
    hide DigitsEnd;
    a := DigitsEnd(v, 0);
    b := DigitsEnd(v, a + 1);
  }

  /** A version is matched whole wherever it stands, unless a digit follows. */
  lemma VersionEndShift(s: string, i: nat, v: string)
    requires IsVersion(v) && Stands(s, i, v)
    ensures VersionEnd(s, i) == Some(i + |v|)
  {
    hide DigitsEnd;
    var a, b := VersionDots(v);
    DigitsEndShift(s, i, v, 0);
    DigitsEndShift(s, i, v, a + 1);
    DigitsEndShift(s, i, v, b + 1);
    assert s[i + a] == v[a] && s[i + b] == v[b];
    VersionFields(s, i, i + a, i + b, i + |v|);
  }

  lemma VersionStart(v: string)
    requires ProjectVersion(v)
    ensures v != "" && !IsSpace(v[0]) && (v == "unknown" ==> !IsDigit(v[0]))
  {
  }

  lemma StandsThere(s: string, i: nat, v: string, rest: string)
    requires i <= |s| && s[i..] == v + rest && (rest == "" || !IsDigit(rest[0]))
    ensures Stands(s, i, v)
  {
    forall j | 0 <= j < |v|
      ensures s[i + j] == v[j]
    {
      assert s[i + j] == s[i..][j];
    }
    if rest != "" {
      assert s[i + |v|] == s[i..][|v|];
    }
  }

  lemma VersionBehind(s: string, i: nat, v: string, rest: string)
    requires ProjectVersion(v) && i <= |s| && s[i..] == v + rest && (rest == "" || !IsDigit(rest[0]))
    ensures i < |s| && !IsSpace(s[i])
    ensures VersionEnd(s, i) == if IsVersion(v) then Some(i + |v|) else None
  {
    VersionStart(v);
    assert s[i] == s[i..][0] == v[0];
    if IsVersion(v) {
      StandsThere(s, i, v, rest);
      VersionEndShift(s, i, v);
    }
  }

  lemma RestHasNoDigit(t: string, i: nat)
    requires i <= |t| && VersionEnd(t, i).Some?
    ensures var k := VersionEnd(t, i).value; t[k..] == "" || !IsDigit(t[k..][0])
  {
    H.VersionChars(t, i);
  }

  lemma NothingEarlier(t: string, n: string, p: nat)
    requires H.Hit(t, p) && H.NoHitIn(t, 0, p) && H.Edited(t, n, p + 16, H.MatchAt(t, p).value.version)
    ensures H.NoHitIn(n, 0, p)
  {
    hide H.MatchAt, H.Edited;
    forall q: nat | q < p
      ensures !H.Hit(n, q)
    {
      if H.Hit(n, q) {
        H.NoEarlierHit(t, n, p, q);
      }
    }
  }

  lemma StampedIsEdited(t: string, n: string, x: nat, k: nat, today: string)
    requires x + 10 <= k <= |t| && k <= |n| && H.Same(t, n, 0, x) && H.Same(t, n, x + 10, k)
    requires H.DateAt(t, x) && n[x..x + 10] == today && IsDate(today)
    ensures H.Edited(t, n, x, k)
  {
  }

  /** The stamped header is matched where it was, and nothing before it. */
  lemma StampedHeader(t: string, p: nat, h: H.Header, version: string, today: string)
    requires H.Hit(t, p) && H.NoHitIn(t, 0, p) && H.MatchAt(t, p) == Some(h) && VersionEnd(t, h.version) == Some(h.end)
    requires H.DateAt(t, h.date) && ProjectVersion(version) && IsDate(today)
    ensures var n := Stamped(t, h, today, version);
      && H.NoHitIn(n, 0, p)
      && H.MatchAt(n, p) == if IsVersion(version) then Some(H.Header(h.date, h.version, h.version + |version|)) else None
  {
    hide VersionEnd, IsVersion, H.MatchAt, H.OpenAt, Stands;
    var n := Stamped(t, h, today, version);
    StampedChars(t, h, today, version);
    RestHasNoDigit(t, h.version);
    VersionBehind(n, h.version, version, t[h.end..]);
    StampedIsEdited(t, n, h.date, h.version, today);
    H.HeaderStays(t, n, p);
    NothingEarlier(t, n, p);
  }

  /** Where the header of a document is, and what `sync_header` makes of it. */
  lemma SyncIs(t: string, version: string, today: string) returns (p: nat, h: H.Header, n: string)
    requires H.Find(t).Some? && ProjectVersion(version) && IsDate(today)
    ensures H.Find(t) == Some(p) && H.Hit(t, p) && H.MatchAt(t, p) == Some(h)
    ensures h.date == p + 16 && p + 26 < h.version < h.end <= |t|
    ensures Sync(t, version, today) == Some(n) && n == Stamped(t, h, today, version)
    ensures H.NoHitIn(t, 0, p) && H.NoHitIn(n, 0, p)
    ensures H.MatchAt(n, p) == if IsVersion(version) then Some(H.Header(h.date, h.version, h.version + |version|)) else None
  {
    hide H.Find, H.MatchAt, VersionEnd, IsVersion, H.DateAt, IsDate, Stamped;
    p, h := HeaderOf(t);
    StampedHeader(t, p, h, version, today);
    n := Stamped(t, h, today, version);
  }

  lemma BlankIs(t: string, p: nat)
    requires H.Hit(t, p) && H.NoHitIn(t, 0, p) && p + 26 <= |t|
    ensures H.Find(t) == Some(p) && BlankDate(t) == Replace(t, p + 16, p + 26, PLACEHOLDER)
  {
    hide H.Find, H.Hit, H.NoHitIn;
    H.FindIs(t, p);
  }

  lemma SameMiddle(head: string, gap: string, u: string, v: string, tail: string)
    ensures head + (gap + u + tail) == head + (gap + v + tail) <==> u == v
  {
    var s, s' := head + (gap + u + tail), head + (gap + v + tail);
    if s == s' {
      var k := |head| + |gap|;
      assert |u| == |v|;
      assert u == s[k..k + |u|] && v == s'[k..k + |u|];
    }
  }

  lemma BlankStamped(t: string, h: H.Header, today: string, version: string)
    requires h.date + 10 <= h.version <= h.end <= |t| && |today| == 10
    ensures var n := Stamped(t, h, today, version);
      h.date + 10 <= |n| &&
      (Replace(t, h.date, h.date + 10, PLACEHOLDER) == Replace(n, h.date, h.date + 10, PLACEHOLDER)
       <==> t[h.version..h.end] == version)
  {
    var n, x := Stamped(t, h, today, version), h.date;
    var head, gap, tail := t[..x] + PLACEHOLDER, t[x + 10..h.version], t[h.end..];
    assert n[x + 10..] == gap + version + tail && n[..x] == t[..x];
    assert t[x + 10..] == gap + t[h.version..h.end] + tail;
    SameMiddle(head, gap, t[h.version..h.end], version, tail);
  }

  lemma FirstCharStays(n: string, q: nat, x: nat)
    requires H.Find(n) == Some(q) && x < q + 16 && x < |n|
    ensures x < |BlankDate(n)| && BlankDate(n)[x] == n[x]
  {
    hide H.Find;
  }

  /** A stamp that is no version leaves a digit where the blanked text has a letter. */
  lemma BlankUnknown(t: string, p: nat, h: H.Header, n: string, today: string, version: string)
    requires h.date == p + 16 && p + 26 < h.version <= h.end <= |t| && IsDate(today)
    requires n == Stamped(t, h, today, version)
    requires H.NoHitIn(n, 0, p) && !H.Hit(n, p)
    ensures Replace(t, h.date, h.date + 10, PLACEHOLDER) != BlankDate(n)
  {
    hide H.MatchAt, H.Find;
    H.FindIsFirst(n);
    assert Replace(t, h.date, h.date + 10, PLACEHOLDER)[h.date] == 'D';
    StampedChars(t, h, today, version);
    assert n[h.date] == n[h.date..h.date + 10][0] == today[0];
    if H.Find(n).Some? {
      FirstCharStays(n, H.Find(n).value, h.date);
    }
  }

  /** The check of the header accepts a document if and only if it shows the project's version, whatever the dates are. */
  lemma HeaderCheck(t: string, version: string, today: string)
    requires ProjectVersion(version) && IsDate(today)
    ensures UpToDate(t, Sync(t, version, today)) <==> IsVersion(version) && VersionOf(t) == Some(version)
  {
    hide H.Find, H.MatchAt, IsVersion, H.NoHitIn, Stamped, Replace, BlankDate;
    if H.Find(t).Some? {
      var p, h, n := SyncIs(t, version, today);
      BlankIs(t, p);
      BlankStamped(t, h, today, version);
      if IsVersion(version) {
        BlankIs(n, p);
      } else {
        BlankUnknown(t, p, h, n, today, version);
      }
    }
  }

  lemma Stamping(t: string, h: H.Header, date: string, version: string)
    requires h.date + 10 <= h.version <= h.end <= |t| && |date| == 10
    ensures var n := Stamped(t, h, date, version);
      && |n| == |t| - (h.end - h.version) + |version|
      && n[..h.date] == t[..h.date] && n[h.date..h.date + 10] == date
      && n[h.date + 10..h.version] == t[h.date + 10..h.version]
      && n[h.version..h.version + |version|] == version && n[h.version + |version|..] == t[h.end..]
  {
    var n, i := Stamped(t, h, date, version), h.version + |version|;
    StampedChars(t, h, date, version);
    assert n[h.version..][..|version|] == n[h.version..i];
    assert n[h.version..][|version|..] == n[i..];
  }

  /** What the writing mode does to a document with a header: in the first one, it puts today's date in the place of the date
      and the project's version in the place of the version, and it changes nothing else. */
  lemma SyncWrites(t: string, version: string, today: string)
    requires H.Find(t).Some? && ProjectVersion(version) && IsDate(today)
    ensures var n := Sync(t, version, today);
      var h := H.MatchAt(t, H.Find(t).value);
      && n.Some? && h.Some? && h.value.date + 10 <= h.value.version <= h.value.end <= |t|
      && |n.value| == |t| - (h.value.end - h.value.version) + |version|
      && n.value[..h.value.date] == t[..h.value.date]
      && n.value[h.value.date..h.value.date + 10] == today
      && n.value[h.value.date + 10..h.value.version] == t[h.value.date + 10..h.value.version]
      && n.value[h.value.version..h.value.version + |version|] == version
      && n.value[h.value.version + |version|..] == t[h.value.end..]
  {
    hide H.Find, H.MatchAt, ProjectVersion, VersionEnd, H.DateAt;
    var p, h := HeaderOf(t);
    Stamping(t, h, today, version);
  }
}
