/** The `> Last updated: DATE (...) | Version X.Y.Z` line of a document (scripts/gen_doc_stats.py). */
module DocHeader {
  import opened Text

  /** The text at p is `> Last updated: `. */
  predicate PrefixAt(s: string, p: nat) {
    && p + 16 <= |s|
    && s[p] == '>' && s[p + 1] == ' ' && s[p + 2] == 'L' && s[p + 3] == 'a'
    && s[p + 4] == 's' && s[p + 5] == 't' && s[p + 6] == ' ' && s[p + 7] == 'u'
    && s[p + 8] == 'p' && s[p + 9] == 'd' && s[p + 10] == 'a' && s[p + 11] == 't'
    && s[p + 12] == 'e' && s[p + 13] == 'd' && s[p + 14] == ':' && s[p + 15] == ' '
  }

  /** The text at p is `Version`. */
  predicate KeywordAt(s: string, p: nat) {
    && p + 7 <= |s|
    && s[p] == 'V' && s[p + 1] == 'e' && s[p + 2] == 'r' && s[p + 3] == 's'
    && s[p + 4] == 'i' && s[p + 5] == 'o' && s[p + 6] == 'n'
  }

  /** Where the date starts, where the version starts and where it ends. */
  datatype Header = Header(date: nat, version: nat, end: nat)

  predicate DateAt(s: string, i: nat) {
    i + 10 <= |s| && IsDate(s[i..i + 10])
  }

  /** The end of the white space that starts at i. */
  function SpacesEnd(s: string, i: nat): (r: nat)
    requires i <= |s|
    ensures i <= r <= |s| && (r == |s| || !IsSpace(s[r]))
    decreases |s| - i
  {
    if i < |s| && IsSpace(s[i]) then SpacesEnd(s, i + 1) else i
  }

  /** The first ')' at or after i, or |s|. */
  function CloseAt(s: string, i: nat): (r: nat)
    requires i <= |s|
    ensures i <= r <= |s| && (r == |s| || s[r] == ')')
    decreases |s| - i
  {
    if i < |s| && s[i] != ')' then CloseAt(s, i + 1) else i
  }

  /** The parenthesis behind the date, when a header can start at p. */
  function OpenAt(s: string, p: nat): (r: Option<nat>)
    ensures r.Some? ==> p + 26 <= r.value < |s| && s[r.value] == '('
  {
    if !PrefixAt(s, p) || !DateAt(s, p + 16) then None
    else
      var a := SpacesEnd(s, p + 26);
      if a == |s| || s[a] != '(' then None else Some(a)
  }

  /** The end of `\s*\|\s*Version` at i. */
  function WordAt(s: string, i: nat): (r: Option<nat>)
    requires i <= |s|
    ensures r.Some? ==> i + 7 < r.value <= |s|
  {
    var d := SpacesEnd(s, i);
    if d == |s| || s[d] != '|' then None
    else
      var e := SpacesEnd(s, d + 1);
      if KeywordAt(s, e) then Some(e + 7) else None
  }

  /** The start and the end of the version in `\s+\d+\.\d+\.\d+` at w. */
  function NumberAt(s: string, w: nat): (r: Option<(nat, nat)>)
    requires w <= |s|
    ensures r.Some? ==> w < r.value.0 < r.value.1 <= |s| && IsDigit(s[r.value.0])
  {
    var f := SpacesEnd(s, w);
    if f == w || VersionEnd(s, f).None? then None else Some((f, VersionEnd(s, f).value))
  }

  /** The version behind a closing parenthesis: its start and its end. */
  function TailAt(s: string, i: nat): (r: Option<(nat, nat)>)
    requires i <= |s|
    ensures r.Some? ==> i < r.value.0 < r.value.1 <= |s| && IsDigit(s[r.value.0])
  {
    match WordAt(s, i)
    case None => None
    case Some(w) => NumberAt(s, w)
  }

  /** The regular expression of the header line matches at p. */
  function MatchAt(s: string, p: nat): (r: Option<Header>)
    ensures r.Some? ==> r.value.date == p + 16 && p + 26 < r.value.version < r.value.end <= |s|
  {
    match OpenAt(s, p)
    case None => None
    case Some(a) =>
      var c := CloseAt(s, a + 1);
      if c == |s| then None
      else
        match TailAt(s, c + 1)
        case None => None
        case Some(v) => Some(Header(p + 16, v.0, v.1))
  }

  predicate Hit(s: string, p: nat) {
    MatchAt(s, p).Some?
  }

  predicate NoHitIn(s: string, i: nat, k: nat) {
    forall q: nat | i <= q < k :: !Hit(s, q)
  }

  /** The first number from p to n with property f. */
  function FirstTrue(f: nat -> bool, n: nat, p: nat): (r: Option<nat>)
    requires p <= n
    ensures r.Some? ==> p <= r.value <= n && f(r.value) && forall q: nat | p <= q < r.value :: !f(q)
    ensures r.None? ==> forall q: nat | p <= q <= n :: !f(q)
    decreases n - p
  {
    if f(p) then Some(p) else if p == n then None else FirstTrue(f, n, p + 1)
  }

  /** Where the first header line of the document starts. */
  function Find(s: string): Option<nat> {
    FirstTrue((p: nat) => Hit(s, p), |s|, 0)
  }

  lemma HitInside(s: string, p: nat)
    requires Hit(s, p)
    ensures p + 26 < |s|
  {
  }

  lemma FindIsFirst(s: string)
    ensures Find(s).Some? ==> Hit(s, Find(s).value) && NoHitIn(s, 0, Find(s).value)
    ensures Find(s).None? ==> forall p: nat :: !Hit(s, p)
  {
    var f := (p: nat) => Hit(s, p);
    var r := FirstTrue(f, |s|, 0);
    forall q: nat | q < (if r.Some? then r.value else |s| + 1)
      ensures !Hit(s, q)
    {
      assert !f(q);
    }
    if r.None? {
      forall p: nat
        ensures !Hit(s, p)
      {
        if Hit(s, p) {
          HitInside(s, p);
        }
      }
    }
  }

  lemma FindIs(s: string, p: nat)
    requires Hit(s, p) && NoHitIn(s, 0, p)
    ensures Find(s) == Some(p)
  {
    FindIsFirst(s);
  }

  // ---- What the parts of a match are made of ----

  lemma {:induction false} SpacesChars(s: string, i: nat)
    requires i <= |s|
    ensures forall k | i <= k < SpacesEnd(s, i) :: IsSpace(s[k])
    decreases |s| - i
  {
    if i < |s| && IsSpace(s[i]) {
      SpacesChars(s, i + 1);
    }
  }

  lemma {:induction false} CloseChars(s: string, i: nat)
    requires i <= |s|
    ensures forall k | i <= k < CloseAt(s, i) :: s[k] != ')'
    decreases |s| - i
  {
    if i < |s| && s[i] != ')' {
      CloseChars(s, i + 1);
    }
  }

  lemma DateChars(s: string, i: nat)
    requires DateAt(s, i)
    ensures forall k | i <= k < i + 10 :: IsDigit(s[k]) || s[k] == '-'
  {
    var d := s[i..i + 10];
    assert forall k | i <= k < i + 10 :: s[k] == d[k - i];
  }

  /** Between its first character and the parenthesis there is no angle bracket and no ')'. */
  lemma OpenChars(s: string, p: nat)
    requires OpenAt(s, p).Some?
    ensures s[p] == '>' && forall k | p < k <= OpenAt(s, p).value :: s[k] != '>' && s[k] != '<' && s[k] != ')'
    ensures s[p + 14] == ':' && s[p + 15] == ' '
  {
    DateChars(s, p + 16);
    SpacesChars(s, p + 26);
  }

  lemma {:induction false} DigitsChars(s: string, i: nat)
    requires i <= |s|
    ensures forall k | i <= k < DigitsEnd(s, i) :: IsDigit(s[k])
    decreases |s| - i
  {
    if i < |s| && IsDigit(s[i]) {
      DigitsChars(s, i + 1);
    }
  }

  lemma VersionChars(s: string, i: nat)
    requires i <= |s| && VersionEnd(s, i).Some?
    ensures forall k | i <= k < VersionEnd(s, i).value :: IsDigit(s[k]) || s[k] == '.'
    ensures VersionEnd(s, i).value == |s| || !IsDigit(s[VersionEnd(s, i).value])
  {
    var a := DigitsEnd(s, i);
    var b := DigitsEnd(s, a + 1);
    DigitsChars(s, i);
    DigitsChars(s, a + 1);
    DigitsChars(s, b + 1);
  }

  lemma WordChars(s: string, i: nat)
    requires i <= |s| && WordAt(s, i).Some?
    ensures forall k | i <= k < WordAt(s, i).value :: s[k] != '>' && s[k] != '<'
  {
    SpacesChars(s, i);
    SpacesChars(s, SpacesEnd(s, i) + 1);
  }

  lemma NumberChars(s: string, w: nat)
    requires w <= |s| && NumberAt(s, w).Some?
    ensures forall k | w <= k < NumberAt(s, w).value.1 :: s[k] != '>' && s[k] != '<'
  {
    SpacesChars(s, w);
    VersionChars(s, NumberAt(s, w).value.0);
  }

  lemma TailChars(s: string, i: nat)
    requires i <= |s| && TailAt(s, i).Some?
    ensures forall k | i <= k < TailAt(s, i).value.1 :: s[k] != '>' && s[k] != '<'
  {
    WordChars(s, i);
    NumberChars(s, WordAt(s, i).value);
  }

  // ---- Matching depends on a part of the text only ----

  predicate Same(s: string, s': string, i: nat, k: nat) {
    k <= |s| && k <= |s'| && forall j | i <= j < k :: s[j] == s'[j]
  }

  lemma {:induction false} SpacesEndSame(s: string, s': string, i: nat, k: nat)
    requires i < k && Same(s, s', i, k) && SpacesEnd(s, i) < k
    ensures SpacesEnd(s', i) == SpacesEnd(s, i)
    decreases k - i
  {
    if IsSpace(s[i]) {
      SpacesEndSame(s, s', i + 1, k);
    }
  }

  lemma {:induction false} CloseAtSame(s: string, s': string, i: nat, k: nat)
    requires i < k && Same(s, s', i, k) && CloseAt(s, i) < k
    ensures CloseAt(s', i) == CloseAt(s, i)
    decreases k - i
  {
    if s[i] != ')' {
      CloseAtSame(s, s', i + 1, k);
    }
  }

  lemma {:induction false} DigitsEndSame(s: string, s': string, i: nat, k: nat)
    requires i < k && Same(s, s', i, k) && DigitsEnd(s, i) < k
    ensures DigitsEnd(s', i) == DigitsEnd(s, i)
    decreases k - i
  {
    if IsDigit(s[i]) {
      DigitsEndSame(s, s', i + 1, k);
    }
  }

  lemma {:induction false} CloseStop(s: string, i: nat, k: nat)
    requires i <= k < |s| && s[k] == ')'
    ensures CloseAt(s, i) <= k
    decreases k - i
  {
    if i < k {
      CloseStop(s, i + 1, k);
    }
  }

  lemma {:induction false} DigitsStop(s: string, i: nat, k: nat)
    requires i <= k < |s| && !IsDigit(s[k])
    ensures DigitsEnd(s, i) <= k
    decreases k - i
  {
    if i < k {
      DigitsStop(s, i + 1, k);
    }
  }

  lemma VersionEndSame(s: string, s': string, i: nat, k: nat)
    requires i <= k && Same(s, s', i, k + 1) && !IsDigit(s[k]) && s[k] != '.'
    ensures VersionEnd(s', i) == VersionEnd(s, i)
  {
    DigitsStop(s, i, k);
    DigitsEndSame(s, s', i, k + 1);
    var a := DigitsEnd(s, i);
    if a < k {
      DigitsStop(s, a + 1, k);
      DigitsEndSame(s, s', a + 1, k + 1);
      var b := DigitsEnd(s, a + 1);
      if b < k {
        DigitsStop(s, b + 1, k);
        DigitsEndSame(s, s', b + 1, k + 1);
      }
    }
  }

  lemma WordSame(s: string, s': string, i: nat, k: nat)
    requires i <= k && Same(s, s', i, k + 1) && WordAt(s, i).Some? && WordAt(s, i).value <= k
    ensures WordAt(s', i) == WordAt(s, i)
  {
    var d := SpacesEnd(s, i);
    SpacesEndSame(s, s', i, k + 1);
    SpacesEndSame(s, s', d + 1, k + 1);
  }

  lemma NumberSame(s: string, s': string, w: nat, k: nat)
    requires w <= k && Same(s, s', w, k + 1) && !IsDigit(s[k]) && s[k] != '.'
    requires NumberAt(s, w).Some? && NumberAt(s, w).value.0 <= k
    ensures NumberAt(s', w) == NumberAt(s, w)
  {
    SpacesEndSame(s, s', w, k + 1);
    VersionEndSame(s, s', NumberAt(s, w).value.0, k);
  }

  /** A '>' ends every match of the part behind the parenthesis, so the text behind it does not matter. */
  lemma TailSame(s: string, s': string, i: nat, k: nat)
    requires i <= k && Same(s, s', i, k + 1) && s[k] == '>' && TailAt(s, i).Some?
    ensures TailAt(s', i) == TailAt(s, i)
  {
    TailChars(s, i);
    WordSame(s, s', i, k);
    NumberSame(s, s', WordAt(s, i).value, k);
  }

  lemma OpenSame(s: string, s': string, p: nat, k: nat)
    requires p <= k && Same(s, s', p, k) && OpenAt(s, p).Some? && OpenAt(s, p).value < k
    ensures OpenAt(s', p) == OpenAt(s, p)
  {
    assert s[p + 16..p + 26] == s'[p + 16..p + 26];
    SpacesEndSame(s, s', p + 26, k);
  }

  // ---- Editing the date and the version of a header ----

  /** Up to n the texts differ at most in the date at x. */
  predicate Edited(s: string, s': string, x: nat, n: nat) {
    x + 10 <= n && Same(s, s', 0, x) && Same(s, s', x + 10, n) && DateAt(s, x) && DateAt(s', x)
  }

  lemma {:induction false} CloseEdited(s: string, s': string, x: nat, n: nat, i: nat, c: nat)
    requires Edited(s, s', x, n) && i <= c < n && s[c] == ')'
    ensures CloseAt(s', i) == CloseAt(s, i) <= c
    decreases c - i
  {
    DateChars(s, x);
    DateChars(s', x);
    if i < c {
      CloseEdited(s, s', x, n, i + 1, c);
    }
  }

  lemma HitParts(s: string, p: nat)
    requires Hit(s, p)
    ensures OpenAt(s, p).Some? && CloseAt(s, OpenAt(s, p).value + 1) < |s|
    ensures TailAt(s, CloseAt(s, OpenAt(s, p).value + 1) + 1).Some?
    ensures CloseAt(s, OpenAt(s, p).value + 1) < MatchAt(s, p).value.version
  {
    hide OpenAt, CloseAt, TailAt;
  }

  lemma HitIs(s: string, p: nat, a: nat, c: nat)
    requires OpenAt(s, p) == Some(a) && CloseAt(s, a + 1) == c < |s| && TailAt(s, c + 1).Some?
    ensures Hit(s, p)
  {
    hide OpenAt, CloseAt, TailAt;
  }

  lemma EarlierOpen(s: string, s': string, p: nat, q: nat)
    requires OpenAt(s, p).Some? && OpenAt(s', q).Some? && Same(s, s', 0, p + 16) && q < p
    ensures OpenAt(s', q).value < p && OpenAt(s, q) == OpenAt(s', q)
  {
    OpenChars(s, p);
    OpenChars(s', q);
    assert s'[p] == '>';
    OpenSame(s', s, q, p);
  }

  lemma EarlierClose(s: string, p: nat, i: nat)
    requires OpenAt(s, p).Some? && i <= p
    requires CloseAt(s, i) < CloseAt(s, OpenAt(s, p).value + 1)
    ensures CloseAt(s, i) < p
  {
    OpenChars(s, p);
    CloseChars(s, OpenAt(s, p).value + 1);
  }

  lemma EarlierTail(s: string, s': string, p: nat, i: nat)
    requires i <= p && Same(s, s', 0, p + 16) && s[p] == '>' && TailAt(s', i).Some?
    ensures TailAt(s, i).Some?
  {
    TailSame(s', s, i, p);
  }

  lemma EarlierParts(s: string, s': string, p: nat, q: nat, a: nat, c: nat, n: nat, a': nat, c': nat)
    requires q < p && OpenAt(s, p) == Some(a) && CloseAt(s, a + 1) == c < n <= |s| && TailAt(s, c + 1).Some?
    requires OpenAt(s', q) == Some(a') && CloseAt(s', a' + 1) == c' < |s'| && TailAt(s', c' + 1).Some?
    requires Edited(s, s', p + 16, n)
    ensures OpenAt(s, q) == Some(a') && CloseAt(s, a' + 1) == c' < |s| && TailAt(s, c' + 1).Some?
  {
    hide OpenAt, CloseAt, TailAt, DateAt;
    EarlierOpen(s, s', p, q);
    CloseEdited(s, s', p + 16, n, a' + 1, c);
    if c' < c {
      EarlierClose(s, p, a' + 1);
      OpenChars(s, p);
      EarlierTail(s, s', p, c' + 1);
    }
  }

  /** The edit of the first header gives no earlier text the form of a header. */
  lemma NoEarlierHit(s: string, s': string, p: nat, q: nat)
    requires Hit(s, p) && Edited(s, s', p + 16, MatchAt(s, p).value.version) && q < p && Hit(s', q)
    ensures Hit(s, q)
  {
    hide OpenAt, CloseAt, TailAt, MatchAt, DateAt;
    HitParts(s, p);
    HitParts(s', q);
    var a, a' := OpenAt(s, p).value, OpenAt(s', q).value;
    var c, c' := CloseAt(s, a + 1), CloseAt(s', a' + 1);
    EarlierParts(s, s', p, q, a, c, MatchAt(s, p).value.version, a', c');
    HitIs(s, q, a', c');
  }

  lemma {:induction false} SpacesRun(s: string, s': string, i: nat, n: nat)
    requires i <= n <= |s| && SpacesEnd(s, i) == n && Same(s, s', i, n)
    requires n == |s'| || !IsSpace(s'[n])
    ensures SpacesEnd(s', i) == n
    decreases n - i
  {
    if i < n {
      SpacesRun(s, s', i + 1, n);
    }
  }

  lemma OpenEdited(s: string, s': string, p: nat, n: nat)
    requires OpenAt(s, p).Some? && OpenAt(s, p).value < n && Edited(s, s', p + 16, n)
    ensures OpenAt(s', p) == OpenAt(s, p)
  {
    SpacesEndSame(s, s', p + 26, n);
  }

  lemma NumberEdited(s: string, s': string, w: nat, n: nat)
    requires w < n < |s| && n < |s'| && SpacesEnd(s, w) == n && Same(s, s', w, n) && !IsSpace(s'[n])
    ensures NumberAt(s', w) == if VersionEnd(s', n).None? then None else Some((n, VersionEnd(s', n).value))
  {
    SpacesRun(s, s', w, n);
  }

  lemma TailEdited(s: string, s': string, i: nat)
    requires i <= |s| && TailAt(s, i).Some?
    requires var n := TailAt(s, i).value.0; Same(s, s', i, n) && n < |s'| && !IsSpace(s'[n])
    ensures var n := TailAt(s, i).value.0;
      TailAt(s', i) == if VersionEnd(s', n).None? then None else Some((n, VersionEnd(s', n).value))
  {
    var n, w := TailAt(s, i).value.0, WordAt(s, i).value;
    WordSame(s, s', i, n - 1);
    NumberEdited(s, s', w, n);
  }

  /** After the edit the header is matched where it was, up to what now stands where the version starts. */
  lemma HeaderStays(s: string, s': string, p: nat)
    requires Hit(s, p) && Edited(s, s', p + 16, MatchAt(s, p).value.version)
    requires var n := MatchAt(s, p).value.version; n < |s'| && !IsSpace(s'[n])
    ensures var n := MatchAt(s, p).value.version;
      MatchAt(s', p) == if VersionEnd(s', n).None? then None else Some(Header(p + 16, n, VersionEnd(s', n).value))
  {
    hide OpenAt, CloseAt, TailAt, DateAt, VersionEnd;
    HitParts(s, p);
    var n, a := MatchAt(s, p).value.version, OpenAt(s, p).value;
    var c := CloseAt(s, a + 1);
    OpenEdited(s, s', p, n);
    CloseAtSame(s, s', a + 1, n);
    TailEdited(s, s', c + 1);
  }
}
