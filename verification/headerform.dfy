/** The header matcher against the regular expression of scripts/gen_doc_stats.py, read piece by piece. */
module HeaderForm {
  import opened Text
  import opened Markers
  import opened DocStats
  import H = DocHeader

  predicate SpacesIn(s: string, i: nat, k: nat) {
    i <= k <= |s| && forall j | i <= j < k :: IsSpace(s[j])
  }

  /** The expression matches at p: a date, a parenthesis from a to c, a bar at d, the word at e, and the version from f to k,
      which no further digit follows. */
  predicate Form(s: string, p: nat, a: nat, c: nat, d: nat, e: nat, f: nat, k: nat) {
    && OccursAt(s, "> Last updated: ", p) && p + 26 <= |s| && IsDate(s[p + 16..p + 26])
    && SpacesIn(s, p + 26, a) && a < c < |s| && s[a] == '('
    && s[c] == ')' && (forall j | a < j < c :: s[j] != ')')
    && SpacesIn(s, c + 1, d) && d < |s| && s[d] == '|'
    && SpacesIn(s, d + 1, e) && OccursAt(s, "Version", e)
    && e + 7 < f && SpacesIn(s, e + 7, f)
    && f <= k <= |s| && IsVersion(s[f..k]) && (k == |s| || !IsDigit(s[k]))
  }

  lemma {:induction false} SpacesUntil(s: string, i: nat, k: nat)
    requires SpacesIn(s, i, k) && (k == |s| || !IsSpace(s[k]))
    ensures H.SpacesEnd(s, i) == k
    decreases k - i
  {
    if i < k {
      SpacesUntil(s, i + 1, k);
    }
  }

  lemma {:induction false} CloseUntil(s: string, i: nat, k: nat)
    requires i <= k < |s| && s[k] == ')' && forall j | i <= j < k :: s[j] != ')'
    ensures H.CloseAt(s, i) == k
    decreases k - i
  {
    if i < k {
      CloseUntil(s, i + 1, k);
    }
  }

  lemma PrefixIs(s: string, p: nat)
    ensures H.PrefixAt(s, p) <==> OccursAt(s, "> Last updated: ", p)
  {
    var m := "> Last updated: ";
    if OccursAt(s, m, p) {
      assert s[p + 0] == m[0] && s[p + 1] == m[1] && s[p + 2] == m[2] && s[p + 3] == m[3];
      assert s[p + 4] == m[4] && s[p + 5] == m[5] && s[p + 6] == m[6] && s[p + 7] == m[7];
      assert s[p + 8] == m[8] && s[p + 9] == m[9] && s[p + 10] == m[10] && s[p + 11] == m[11];
      assert s[p + 12] == m[12] && s[p + 13] == m[13] && s[p + 14] == m[14] && s[p + 15] == m[15];
    }
  }

  lemma KeywordIs(s: string, e: nat)
    ensures H.KeywordAt(s, e) <==> OccursAt(s, "Version", e)
  {
    var m := "Version";
    if OccursAt(s, m, e) {
      assert s[e + 0] == m[0] && s[e + 1] == m[1] && s[e + 2] == m[2] && s[e + 3] == m[3];
      assert s[e + 4] == m[4] && s[e + 5] == m[5] && s[e + 6] == m[6];
    }
  }

  lemma FormOpens(s: string, p: nat, a: nat, c: nat, d: nat, e: nat, f: nat, k: nat)
    requires Form(s, p, a, c, d, e, f, k)
    ensures H.OpenAt(s, p) == Some(a) && H.CloseAt(s, a + 1) == c
  {
    hide H.PrefixAt, IsVersion, IsDate, OccursAt;
    PrefixIs(s, p);
    SpacesUntil(s, p + 26, a);
    CloseUntil(s, a + 1, c);
  }

  lemma VersionStarts(s: string, f: nat)
    requires f <= |s| && VersionEnd(s, f).Some?
    ensures f < |s| && IsDigit(s[f])
  {
  }

  lemma VersionAtIs(s: string, f: nat, k: nat)
    requires f <= k <= |s| && IsVersion(s[f..k]) && (k == |s| || !IsDigit(s[k]))
    ensures VersionEnd(s, f) == Some(k) && f < k && IsDigit(s[f])
  {
    hide IsVersion, VersionEnd, IsDigit;
    var v := s[f..k];
    assert forall j | 0 <= j < |v| :: s[f + j] == v[j];
    VersionEndShift(s, f, v);
    VersionStarts(s, f);
  }

  lemma FormEnds(s: string, p: nat, a: nat, c: nat, d: nat, e: nat, f: nat, k: nat)
    requires Form(s, p, a, c, d, e, f, k)
    ensures H.TailAt(s, c + 1) == Some((f, k))
  {
    hide H.KeywordAt, IsVersion, VersionEnd, IsDate;
    KeywordIs(s, e);
    VersionAtIs(s, f, k);
    var m := "Version";
    assert s[e + 0] == m[0];
    SpacesUntil(s, c + 1, d);
    SpacesUntil(s, d + 1, e);
    SpacesUntil(s, e + 7, f);
  }

  lemma FormMatches(s: string, p: nat, a: nat, c: nat, d: nat, e: nat, f: nat, k: nat)
    requires Form(s, p, a, c, d, e, f, k)
    ensures H.MatchAt(s, p) == Some(H.Header(p + 16, f, k))
  {
    hide H.OpenAt, H.CloseAt, H.TailAt, IsVersion, IsDate, OccursAt;
    FormOpens(s, p, a, c, d, e, f, k);
    FormEnds(s, p, a, c, d, e, f, k);
  }

  // ---- The other way round ----

  lemma SpacesAre(s: string, i: nat)
    requires i <= |s|
    ensures SpacesIn(s, i, H.SpacesEnd(s, i))
  {
    H.SpacesChars(s, i);
  }

  lemma OpenIs(s: string, p: nat)
    requires H.OpenAt(s, p).Some?
    ensures var a := H.OpenAt(s, p).value;
      OccursAt(s, "> Last updated: ", p) && p + 26 <= |s| && IsDate(s[p + 16..p + 26]) && SpacesIn(s, p + 26, a) && s[a] == '('
  {
    hide H.PrefixAt, IsDate, OccursAt;
    PrefixIs(s, p);
    SpacesAre(s, p + 26);
  }

  lemma TailIs(s: string, i: nat) returns (d: nat, e: nat)
    requires i <= |s| && H.TailAt(s, i).Some?
    ensures var (f, k) := H.TailAt(s, i).value;
      && SpacesIn(s, i, d) && d < |s| && s[d] == '|'
      && SpacesIn(s, d + 1, e) && OccursAt(s, "Version", e)
      && e + 7 < f && SpacesIn(s, e + 7, f)
      && f <= k <= |s| && VersionEnd(s, f) == Some(k)
  {
    hide H.KeywordAt, VersionEnd, OccursAt;
    d := H.SpacesEnd(s, i);
    e := H.SpacesEnd(s, d + 1);
    KeywordIs(s, e);
    SpacesAre(s, i);
    SpacesAre(s, d + 1);
    SpacesAre(s, e + 7);
  }

  lemma VersionIs(v: string)
    requires VersionEnd(v, 0) == Some(|v|)
    ensures IsVersion(v)
  {
  }

  /** A run of digits ends in a piece of a text where it ends in the text, or with the piece. */
  lemma {:induction false} FieldEnds(v: string, i: nat, s: string, j: nat, k: nat)
    requires i <= |v| && j <= k <= |s| && DigitsEnd(s, j) == k && i + (k - j) <= |v|
    requires forall q | i <= q < |v| :: q - i + j < |s| && v[q] == s[q - i + j]
    ensures DigitsEnd(v, i) == i + (k - j)
    decreases k - j
  {
    if j < k {
      FieldEnds(v, i + 1, s, j + 1, k);
    }
  }

  lemma FieldsOf(s: string, f: nat) returns (a: nat, b: nat, k: nat)
    requires f <= |s| && VersionEnd(s, f).Some?
    ensures f < a && a + 1 < b && b + 1 < k <= |s| && s[a] == '.' && s[b] == '.' && VersionEnd(s, f) == Some(k)
    ensures DigitsEnd(s, f) == a && DigitsEnd(s, a + 1) == b && DigitsEnd(s, b + 1) == k && (k == |s| || !IsDigit(s[k]))
  {
    hide DigitsEnd;
    a := DigitsEnd(s, f);
    b := DigitsEnd(s, a + 1);
    k := DigitsEnd(s, b + 1);
  }

  /** v stands at f in s. */
  predicate Within(v: string, s: string, f: nat) {
    f + |v| <= |s| && forall j | 0 <= j < |v| :: v[j] == s[f + j]
  }

  lemma SliceWithin(s: string, f: nat, k: nat)
    requires f <= k <= |s|
    ensures Within(s[f..k], s, f)
  {
  }

  lemma FieldIn(v: string, s: string, f: nat, j: nat, k: nat)
    requires Within(v, s, f) && f <= j <= k <= f + |v| && k <= |s| && DigitsEnd(s, j) == k
    ensures DigitsEnd(v, j - f) == k - f
  {
    hide DigitsEnd;
    assert forall q | j - f <= q < |v| :: v[q] == s[f + q];
    FieldEnds(v, j - f, s, j, k);
  }

  lemma DotIn(v: string, s: string, f: nat, j: nat)
    requires Within(v, s, f) && f <= j < f + |v|
    ensures j < |s| && v[j - f] == s[j]
  {
    assert v[j - f] == s[f + (j - f)];
  }

  lemma VersionEndIs(s: string, f: nat)
    requires f <= |s| && VersionEnd(s, f).Some?
    ensures var k := VersionEnd(s, f).value; IsVersion(s[f..k]) && (k == |s| || !IsDigit(s[k]))
  {
    hide VersionEnd, DigitsEnd, IsVersion, IsDigit, Within;
    var a, b, k := FieldsOf(s, f);
    var v := s[f..k];
    SliceWithin(s, f, k);
    FieldIn(v, s, f, f, a);
    FieldIn(v, s, f, a + 1, b);
    FieldIn(v, s, f, b + 1, k);
    DotIn(v, s, f, a);
    DotIn(v, s, f, b);
    VersionFields(v, 0, a - f, b - f, k - f);
    VersionIs(v);
  }

  lemma CloseIsBracket(s: string, i: nat)
    requires i <= |s| && H.CloseAt(s, i) < |s|
    ensures s[H.CloseAt(s, i)] == ')' && i <= H.CloseAt(s, i)
  {
  }

  lemma MatchHasForm(s: string, p: nat) returns (a: nat, c: nat, d: nat, e: nat)
    requires H.Hit(s, p)
    ensures Form(s, p, a, c, d, e, H.MatchAt(s, p).value.version, H.MatchAt(s, p).value.end)
  {
    hide H.OpenAt, H.CloseAt, H.TailAt, IsVersion, IsDate, OccursAt, SpacesIn, VersionEnd;
    H.HitParts(s, p);
    a := H.OpenAt(s, p).value;
    c := H.CloseAt(s, a + 1);
    OpenIs(s, p);
    H.CloseChars(s, a + 1);
    CloseIsBracket(s, a + 1);
    d, e := TailIs(s, c + 1);
    VersionEndIs(s, H.MatchAt(s, p).value.version);
  }

  /** The matcher finds a header at p with its version from f to k exactly where the regular expression matches so. */
  lemma MatchIsForm(s: string, p: nat, f: nat, k: nat)
    ensures H.MatchAt(s, p) == Some(H.Header(p + 16, f, k)) <==> exists a, c, d, e :: Form(s, p, a, c, d, e, f, k)
  {
    hide H.MatchAt, Form;
    if H.MatchAt(s, p) == Some(H.Header(p + 16, f, k)) {
      var a, c, d, e := MatchHasForm(s, p);
      assert Form(s, p, a, c, d, e, f, k);
    }
    if a, c, d, e :| Form(s, p, a, c, d, e, f, k) {
      FormMatches(s, p, a, c, d, e, f, k);
    }
  }

  // ---- Versions ----

  predicate Digits(s: string) {
    s != "" && forall i | 0 <= i < |s| :: IsDigit(s[i])
  }

  lemma {:induction false} DigitsUntil(s: string, i: nat, k: nat)
    requires i <= k <= |s| && (forall j | i <= j < k :: IsDigit(s[j])) && (k == |s| || !IsDigit(s[k]))
    ensures DigitsEnd(s, i) == k
    decreases k - i
  {
    if i < k {
      DigitsUntil(s, i + 1, k);
    }
  }

  lemma ThreeNumbers(a: string, b: string, c: string)
    requires Digits(a) && Digits(b) && Digits(c)
    ensures IsVersion(a + "." + b + "." + c)
  {
    hide DigitsEnd;
    var s := a + "." + b + "." + c;
    DigitsUntil(s, 0, |a|);
    DigitsUntil(s, |a| + 1, |a| + 1 + |b|);
    DigitsUntil(s, |a| + |b| + 2, |s|);
    VersionFields(s, 0, |a|, |a| + 1 + |b|, |s|);
  }

  lemma DigitsSlice(s: string, i: nat, k: nat)
    requires i < k <= |s| && DigitsEnd(s, i) == k
    ensures Digits(s[i..k])
  {
    H.DigitsChars(s, i);
  }

  /** A version is three numbers with dots between them. */
  lemma VersionForm(s: string)
    ensures IsVersion(s) <==> exists a, b, c :: Digits(a) && Digits(b) && Digits(c) && s == a + "." + b + "." + c
  {
    hide DigitsEnd, Digits;
    if IsVersion(s) {
      var i, j := VersionDots(s);
      DigitsSlice(s, 0, i);
      DigitsSlice(s, i + 1, j);
      DigitsSlice(s, j + 1, |s|);
      assert s == s[0..i] + "." + s[i + 1..j] + "." + s[j + 1..|s|];
    }
    if a, b, c :| Digits(a) && Digits(b) && Digits(c) && s == a + "." + b + "." + c {
      ThreeNumbers(a, b, c);
    }
  }

  /** A date is four digits, two and two, with hyphens between them. */
  lemma DateForm(s: string)
    ensures IsDate(s) <==> exists y, m, d ::
      Digits(y) && |y| == 4 && Digits(m) && |m| == 2 && Digits(d) && |d| == 2 && s == y + "-" + m + "-" + d
  {
    if IsDate(s) {
      var y, m, d := s[..4], s[5..7], s[8..];
      assert Digits(y) && Digits(m) && Digits(d);
      assert s == y + "-" + m + "-" + d;
    }
    if y, m, d :| Digits(y) && |y| == 4 && Digits(m) && |m| == 2 && Digits(d) && |d| == 2 && s == y + "-" + m + "-" + d {
      assert IsDate(y + "-" + m + "-" + d);
    }
  }
}
