/** The working tree the release script changes: CHANGELOG.md and the files in changelog.d/. */
module Repository {
  import opened Text
  import opened Sections
  import opened RoundTrip
  import opened Canonical
  import opened Fragments
  import opened Changelog
  import opened Release
  import opened Framing
  import opened History

  // ---- Nothing is lost on the way ----

  /** The bullet of a fragment is in its section of the newest release. */
  predicate Recorded(changelog: string, e: Entry) {
    var p := ParseFragment(e);
    p.Clean? && Split(changelog).Some? && Split(changelog).value.tail != ""
    && StripNewlines(Tidy(p.body)) in Newest(changelog, p.section)
  }

  /** What is on disk at one moment. */
  datatype Snapshot = Snapshot(changelog: string, entries: seq<Entry>)

  /** Every fragment of `loaded` is still a file or already a bullet. */
  predicate NothingLost(s: Snapshot, loaded: seq<Entry>) {
    forall e | e in loaded && Considered(e) :: e in s.entries || Recorded(s.changelog, e)
  }

  lemma {:induction false} BodyIsListed(entries: seq<Entry>, e: Entry)
    requires e in entries && Considered(e) && ParseFragment(e).Clean?
    ensures ParseFragment(e).body in BodiesOf(entries, ParseFragment(e).section)
  {
    if entries[0] != e {
      BodyIsListed(entries[1..], e);
    }
  }

  lemma {:induction false} TrimmedHas(bodies: seq<string>, b: string)
    requires b in bodies
    ensures StripNewlines(Tidy(b)) in Trimmed(bodies)
  {
    if bodies[0] != b {
      TrimmedHas(bodies[1..], b);
    }
  }

  lemma {:induction false} CleanEntry(entries: seq<Entry>, e: Entry)
    requires LintsClean(entries) && e in entries && Considered(e)
    ensures ParseFragment(e).Clean?
  {
    if entries[0] != e {
      CleanEntry(entries[1..], e);
    }
  }

  lemma CutIsClean(t: string, entries: seq<Entry>, version: string, date: string)
    requires Cut(t, entries, version, date).Ok?
    ensures LintsClean(entries)
  {
  }

  /** Once the new text is written, every loaded fragment is one of its bullets. */
  lemma CutRecords(t: string, entries: seq<Entry>, version: string, date: string, e: Entry)
    requires Cut(t, entries, version, date).Ok? && NoHash(version) && NoHash(date)
    requires e in entries && Considered(e)
    ensures Recorded(Cut(t, entries, version, date).value, e)
  {
    CutIsClean(t, entries, version, date);
    CleanEntry(entries, e);
    var s := ParseFragment(e).section;
    CutKeepsBullets(t, entries, version, date, s);
    BodyIsListed(entries, e);
    TrimmedHas(BodiesOf(entries, s), ParseFragment(e).body);
  }

  lemma MergedHas(t: string, entries: seq<Entry>, version: string, date: string, e: Entry)
    requires Cut(t, entries, version, date).Ok? && e in entries && Considered(e) && ParseFragment(e).Clean?
    ensures Split(t).Some?
    ensures var p := ParseFragment(e); StripNewlines(Tidy(p.body)) in Get(Meaning(MergedOf(t, entries)), p.section)
  {
    hide Split, Parsed, Considered, ParseFragment, Tidy, StripNewlines, SECTIONS, Assemble, LintsClean, Grouping;
    var s, body := ParseFragment(e).section, Split(t).value.body;
    BodyIsListed(entries, e);
    TrimmedHas(BodiesOf(entries, s), ParseFragment(e).body);
    MergedPrintable(body, entries);
    MergedGet(t, entries, s);
    TrimmedAppend(Get(Parsed(body), s), BodiesOf(entries, s));
    assert Standard(MergedOf(t, entries));
    MeaningGet(MergedOf(t, entries), SECTIONS, s);
  }

  /** So every fragment consumed in a run is, at the end of the run, a bullet of its section in a block of the older text. */
  lemma FragmentStaysReadable(t: string, before: seq<Event>, entries: seq<Entry>, version: string, date: string,
                              after: seq<Event>, e: Entry)
    requires Split(t).Some? && AllAccepted(before + ([MakeRelease(entries, version, date)] + after))
    requires Cut(Run(t, before), entries, version, date).Ok?
    requires e in entries && Considered(e)
    ensures var end, p := Run(t, before + ([MakeRelease(entries, version, date)] + after)), ParseFragment(e);
      p.Clean? && Split(end).Some?
      && exists x :: x in Chopped(Split(end).value.tail) && x != "" && StripNewlines(Tidy(p.body)) in Get(Parsed(NewestBody(x)), p.section)
  {
    hide Split, Chopped, Parsed, NewestBody, Cut, Run, Considered, ParseFragment, NewBlock, AllAccepted, Merged, Tidy, StripNewlines;
    ReleaseStaysReadable(t, before, entries, version, date, after);
    var now := Run(t, before);
    CutIsClean(now, entries, version, date);
    CleanEntry(entries, e);
    MergedHas(now, entries, version, date, e);
    assert NewBlock(now, entries, version, date) in Chopped(Split(Run(t, before + ([MakeRelease(entries, version, date)] + after))).value.tail);
  }

  // ---- A cut uses its fragments up ----

  lemma {:induction false} NothingRenderedIn(g: Grouped, order: seq<string>)
    requires g == map[]
    ensures Present(g, order) == [] && RenderedIn(g, order) == ""
  {
    if order != [] {
      NothingRenderedIn(g, order[1..]);
    }
  }

  lemma NothingRendered(g: Grouped)
    requires g == map[]
    ensures Rendered(g) == ""
  {
    NothingRenderedIn(g, SECTIONS);
  }

  lemma EmptyBodyIsEmpty()
    ensures Parsed("\n") == map[]
  {
    assert Lines("\n") == [""];
    assert StripNewlines(Join([""])) == "";
  }

  /** A second cut with no new fragments and no hand edit fails, whatever its arguments. */
  lemma SecondCutFails(t: string, entries: seq<Entry>, version: string, date: string, version': string, date': string)
    requires Cut(t, entries, version, date).Ok?
    ensures Cut(Cut(t, entries, version, date).value, Remaining(entries), version', date') == Err(NothingToRelease)
  {
    CutFrame(t, entries, version, date);
    RemainingHasNoFragments(entries, map[]);
    EmptyBodyIsEmpty();
    MergedNothing(map[]);
    NothingRendered(map[]);
  }

  // ---- The script ----

  ghost predicate AllRecorded(changelog: string, entries: seq<Entry>) {
    forall e | e in entries && Considered(e) :: Recorded(changelog, e)
  }

  ghost predicate Safe(trace: seq<Snapshot>, loaded: seq<Entry>) {
    forall i | 0 <= i < |trace| :: NothingLost(trace[i], loaded)
  }

  lemma CutRecordsAll(t: string, entries: seq<Entry>, version: string, date: string)
    requires Cut(t, entries, version, date).Ok? && NoHash(version) && NoHash(date)
    ensures AllRecorded(Cut(t, entries, version, date).value, entries)
  {
    forall e | e in entries && Considered(e)
      ensures Recorded(Cut(t, entries, version, date).value, e)
    {
      CutRecords(t, entries, version, date, e);
    }
  }

  /**
   * What was on disk from the moment the changelog was written: first every loaded file was still there, then one
   * file less at a time, and nothing was lost at any point.
   */
  ghost predicate Logged(trace: seq<Snapshot>, changelog: string, loaded: seq<Entry>, entries: seq<Entry>,
                         removed: nat) {
    && |trace| == 1 + removed
    && trace[0] == Snapshot(changelog, loaded) && trace[removed] == Snapshot(changelog, entries)
    && Safe(trace, loaded)
    && forall i | 0 <= i < removed :: |trace[i + 1].entries| + 1 == |trace[i].entries|
  }

  lemma LoggedSnoc(trace: seq<Snapshot>, changelog: string, loaded: seq<Entry>, entries: seq<Entry>, removed: nat,
                   entries': seq<Entry>)
    requires Logged(trace, changelog, loaded, entries, removed) && AllRecorded(changelog, loaded)
    requires |entries'| + 1 == |entries|
    ensures Logged(trace + [Snapshot(changelog, entries')], changelog, loaded, entries', removed + 1)
  {
  }

  lemma {:induction false} RemainingAppend(a: seq<Entry>, b: seq<Entry>)
    ensures Remaining(a + b) == Remaining(a) + Remaining(b)
  {
    if a == [] {
      assert a + b == b;
    } else {
      RemainingAppend(a[1..], b);
      assert (a + b)[1..] == a[1..] + b;
      if !Considered(a[0]) {
        Reassociate([a[0]], Remaining(a[1..]), Remaining(b));
      }
    }
  }

  lemma RemainingSnoc(done: seq<Entry>, e: Entry)
    ensures Remaining(done + [e]) == if Considered(e) then Remaining(done) else Remaining(done) + [e]
  {
    RemainingAppend(done, [e]);
    assert Remaining([e]) == if Considered(e) then [] else [e];
    assert Remaining(done) + [] == Remaining(done);
  }

  /** What is in the directory once the removal loop has dealt with the first i files. */
  function Left(listing: seq<Entry>, i: nat): seq<Entry>
    requires i <= |listing|
  {
    Remaining(listing[..i]) + listing[i..]
  }

  lemma LeftStep(listing: seq<Entry>, i: nat)
    requires i < |listing|
    ensures var j, e := |Remaining(listing[..i])|, listing[i];
      && j < |Left(listing, i)|
      && (Considered(e) ==> Left(listing, i + 1) == Left(listing, i)[..j] + Left(listing, i)[j + 1..]
                            && |Remaining(listing[..i + 1])| == j)
      && (!Considered(e) ==> Left(listing, i + 1) == Left(listing, i) && |Remaining(listing[..i + 1])| == j + 1)
  {
    RemainingSnoc(listing[..i], listing[i]);
    assert listing[..i + 1] == listing[..i] + [listing[i]];
    assert listing[i..] == [listing[i]] + listing[i + 1..];
    Reassociate(Remaining(listing[..i]), [listing[i]], listing[i + 1..]);
  }

  lemma LeftEnds(listing: seq<Entry>)
    ensures Left(listing, 0) == listing && Left(listing, |listing|) == Remaining(listing)
  {
    assert listing[..|listing|] == listing;
  }

  /** The steps of `apply` up to the point where it writes. */
  method Plan(changelog: string, entries: seq<Entry>, version: string, date: string) returns (r: Result<string>)
    ensures r == Cut(changelog, entries, version, date)
  {
    var loaded := LoadFragments(entries);
    if loaded.Err? {
      return Err(loaded.error);
    }
    var parts := Split(changelog);
    if parts.None? {
      return Err(NoUnreleased);
    }
    var Parts(head, body, tail) := parts.value;
    var written := ParseSections(body);
    var merged := Merge(written, loaded.value);
    if !Standard(merged) {
      return Err(UnknownSections);
    }
    MergedPrintable(body, entries);
    var rendered := Render(merged);
    if rendered == "" {
      return Err(NothingToRelease);
    }
    r := Ok(Assemble(Parts(head, "\n", Release.Block(version, date, rendered) + LstripNewlines(tail))));
  }

  class Repo {
    var changelog: string
    var entries: seq<Entry>  // the files of changelog.d/, in filename order
    ghost var trace: seq<Snapshot>  // what was on disk after each write and each removal of the last command

    constructor (changelog: string, entries: seq<Entry>)
      ensures this.changelog == changelog && this.entries == entries
    {
      this.changelog, this.entries, trace := changelog, entries, [];
    }

    /** Removes the considered files one by one. */
    method Consume(ghost loaded: seq<Entry>) returns (removed: nat)
      requires entries == loaded && AllRecorded(changelog, loaded)
      requires Logged(trace, changelog, loaded, entries, 0)
      modifies this`entries, this`trace
      ensures entries == Remaining(loaded) && |entries| + removed == |loaded|
      ensures Logged(trace, changelog, loaded, entries, removed)
    {
      removed := 0;
      var listing := entries;
      LeftEnds(listing);
      for i := 0 to |listing|
        invariant entries == Left(listing, i)
        invariant |Remaining(listing[..i])| + removed == i
        invariant Logged(trace, changelog, loaded, entries, removed)
      {
        LeftStep(listing, i);
        if Considered(listing[i]) {
          var j := i - removed;
          ghost var before := entries;
          entries := entries[..j] + entries[j + 1..];
          LoggedSnoc(trace, changelog, loaded, before, removed, entries);
          removed := removed + 1;
          trace := trace + [Snapshot(changelog, entries)];
        }
      }
      assert listing[..|listing|] == listing;
    }

    /** `apply`: the number of removed files, or the error that stopped it. */
    method Apply(version: string, date: string, keep: bool) returns (r: Result<nat>)
      requires NoHash(version) && NoHash(date)
      modifies this
      ensures match Cut(old(changelog), old(entries), version, date)
              case Err(e) => r == Err(e) && changelog == old(changelog) && entries == old(entries)
              case Ok(t) =>
                && r.Ok? && changelog == t
                && entries == (if keep then old(entries) else Remaining(old(entries)))
                && |entries| + r.value == |old(entries)|
                && Logged(trace, t, old(entries), entries, r.value)
      ensures r.Ok? ==> Split(changelog).Some? && "## [" + version + "] - " + date + "\n" <= Split(changelog).value.tail
      ensures r.Err? ==> trace == []
    {
      hide Cut, Split, NoHash, Recorded;
      trace := [];
      var plan := Plan(changelog, entries, version, date);
      if plan.Err? {
        return Err(plan.error);
      }
      CutRecordsAll(changelog, entries, version, date);
      CutTitle(changelog, entries, version, date);
      changelog := plan.value;
      trace := [Snapshot(changelog, entries)];
      var removed := 0;
      if !keep {
        removed := Consume(entries);
      }
      r := Ok(removed);
    }

    /** `main` with the `apply` command. */
    method RunApply(version: string, date: string, keep: bool) returns (r: Result<nat>)
      modifies this
      ensures !ArgumentsOk(version, date) ==> r == Err(BadArguments)
      ensures ArgumentsOk(version, date) && Cut(old(changelog), old(entries), version, date).Ok? ==>
                && r.Ok? && changelog == Cut(old(changelog), old(entries), version, date).value
                && entries == (if keep then old(entries) else Remaining(old(entries)))
                && Logged(trace, changelog, old(entries), entries, r.value)
      ensures ArgumentsOk(version, date) && Cut(old(changelog), old(entries), version, date).Err? ==>
                r == Err(Cut(old(changelog), old(entries), version, date).error)
      ensures r.Ok? ==> Split(changelog).Some? && "## [" + version + "] - " + date + "\n" <= Split(changelog).value.tail
      ensures r.Err? ==> changelog == old(changelog) && entries == old(entries) && trace == []
    {
      trace := [];
      if !ArgumentsOk(version, date) {
        return Err(BadArguments);
      }
      AcceptedIsNoHash(version, date);
      r := Apply(version, date, keep);
    }
  }
}
