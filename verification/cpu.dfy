/** Sampling the processor: usage from counter deltas, and the clock from the first source that works
    (linux/nexis-core/Info/cpu_info.cpp). Times are whole jiffies, clocks are real numbers. */
module Cpu {
  import opened Arithmetic

  // ---- The quotient ----

  /** The quotient, truncated toward zero. */
  function TruncDiv(a: int, b: int): int
    requires b != 0
  {
    var q := (if a < 0 then -a else a) / (if b < 0 then -b else b);
    if (a < 0) == (b < 0) then q else -q
  }

  function Size(a: int): nat {
    if a < 0 then -a else a
  }

  lemma DivBounds(a: int, b: int)
    requires 0 <= a && 0 < b
    ensures 0 <= a - a / b * b < b
  {
  }

  lemma SignedQuotient(a: int, b: int, q0: nat)
    requires b != 0 && q0 == Size(a) / Size(b)
    ensures TruncDiv(a, b) == if (a < 0) == (b < 0) then q0 else 0 - q0
  {
  }

  lemma ZeroQuotient(y: int)
    requires y > 0
    ensures 0 / y == 0
  {
  }

  /** q is a / b without its fraction. */
  predicate Truncated(q: int, a: int, b: int) {
    && Size(q) * Size(b) <= Size(a) < Size(q) * Size(b) + Size(b)
    && (q > 0 ==> (a > 0) == (b > 0)) && (q < 0 ==> (a > 0) != (b > 0))
  }

  lemma Bounded(q: int, a: int, b: int, q0: nat)
    requires b != 0 && q == if (a < 0) == (b < 0) then q0 else 0 - q0
    requires 0 <= Size(a) - q0 * Size(b) < Size(b) && (a == 0 ==> q0 == 0)
    ensures Truncated(q, a, b)
  {
    assert Size(q) == q0;
  }

  lemma WholeQuotient(x: nat, y: nat) returns (q0: nat)
    requires y > 0
    ensures q0 == x / y && 0 <= x - q0 * y < y && (x == 0 ==> q0 == 0)
  {
    q0 := x / y;
    DivBounds(x, y);
    ZeroQuotient(y);
  }

  /** The quotient truncates toward zero: no larger than the exact one in size, by less than one, and of its sign. */
  lemma TruncDivIs(a: int, b: int)
    requires b != 0
    ensures Truncated(TruncDiv(a, b), a, b)
  {
    hide TruncDiv, Truncated;
    var q0 := WholeQuotient(Size(a), Size(b));
    SignedQuotient(a, b, q0);
    Bounded(TruncDiv(a, b), a, b, q0);
  }

  // ---- Samples ----

  /** The percentage shown for a tick. */
  function Percent(idle: int, total: int): (r: int)
    ensures 0 <= r <= 100
  {
    if total == 0 then 0 else Clamp(TruncDiv(100 * (total - idle), total))
  }

  function Sum(times: seq<nat>): nat {
    if times == [] then 0 else times[0] + Sum(times[1..])
  }

  lemma {:induction false} SumSnoc(times: seq<nat>, t: nat)
    ensures Sum(times + [t]) == Sum(times) + t
  {
    if times == [] {
      assert times + [t] == [t];
    } else {
      SumSnoc(times[1..], t);
      assert (times + [t])[1..] == times[1..] + [t];
    }
  }

  /** The counters of a core: idle with iowait, and everything. */
  datatype Sample = Sample(idle: int, total: int)

  /** A line of /proc/stat without its name is empty or has the idle and iowait columns. */
  predicate LineOk(times: seq<nat>) {
    times == [] || |times| >= 5
  }

  function SampleOf(times: seq<nat>): Sample
    requires |times| >= 5
  {
    Sample(times[3] + times[4], Sum(times))
  }

  function Shown(before: Sample, after: Sample): int {
    Percent(after.idle - before.idle, after.total - before.total)
  }

  function Samples(lines: seq<seq<nat>>): seq<Sample>
    requires forall i | 0 <= i < |lines| :: |lines[i]| >= 5
  {
    if lines == [] then [] else [SampleOf(lines[0])] + Samples(lines[1..])
  }

  function Percents(s: Sample, rest: seq<Sample>): seq<int>
    decreases |rest|
  {
    if rest == [] then [] else [Shown(s, rest[0])] + Percents(rest[0], rest[1..])
  }

  // ---- Truncation over a run ----

  function Busy(s: Sample): int {
    s.total - s.idle
  }

  /** Neither idle nor busy time runs backwards. */
  predicate Advances(s: Sample, rest: seq<Sample>)
    decreases |rest|
  {
    rest == [] || (0 <= rest[0].idle - s.idle <= rest[0].total - s.total && Advances(rest[0], rest[1..]))
  }

  function Final(s: Sample, rest: seq<Sample>): Sample
    decreases |rest|
  {
    if rest == [] then s else Final(rest[0], rest[1..])
  }

  /** The percentages shown, each weighted with the length of its tick. */
  function Weighted(us: seq<int>, s: Sample, rest: seq<Sample>): int
    requires |us| == |rest|
  {
    if rest == [] then 0 else us[0] * (rest[0].total - s.total) + Weighted(us[1..], rest[0], rest[1..])
  }

  lemma Cancel(x: int, y: int, b: int)
    requires 0 < b && x * b <= y * b
    ensures x <= y
  {
  }

  lemma DivAtMost(a: int, b: int)
    requires 0 <= a <= 100 * b && 0 < b
    ensures 0 <= a / b <= 100
  {
    DivBounds(a, b);
    Cancel(a / b, 100, b);
  }

  /** A tick loses less than one point of its length, and never shows too much. */
  lemma TickBound(idle: int, total: int)
    requires 0 <= idle <= total
    ensures total > 0 ==> 0 <= 100 * (total - idle) - Percent(idle, total) * total < total
    ensures total == 0 ==> Percent(idle, total) * total == 0
  {
    if total > 0 {
      var a := 100 * (total - idle);
      DivAtMost(a, total);
      DivBounds(a, total);
    }
  }

  lemma {:induction false} PercentsLength(s: Sample, rest: seq<Sample>)
    ensures |Percents(s, rest)| == |rest|
    decreases |rest|
  {
    if rest != [] {
      PercentsLength(rest[0], rest[1..]);
    }
  }

  lemma WeightedNext(s: Sample, rest: seq<Sample>)
    requires rest != []
    ensures |Percents(s, rest)| == |rest| && |Percents(rest[0], rest[1..])| == |rest[1..]|
    ensures Weighted(Percents(s, rest), s, rest)
         == Shown(s, rest[0]) * (rest[0].total - s.total) + Weighted(Percents(rest[0], rest[1..]), rest[0], rest[1..])
  {
    PercentsLength(s, rest);
    PercentsLength(rest[0], rest[1..]);
    assert Percents(s, rest)[1..] == Percents(rest[0], rest[1..]);
  }

  /** What the percentages of a run leave out, in hundredths of a jiffy. */
  function Lost(s: Sample, rest: seq<Sample>): int {
    PercentsLength(s, rest);
    100 * (Busy(Final(s, rest)) - Busy(s)) - Weighted(Percents(s, rest), s, rest)
  }

  function Passed(s: Sample, rest: seq<Sample>): int {
    Final(s, rest).total - s.total
  }

  /** Over a whole run the truncation adds up to less than one point of the time that passed. */
  lemma {:induction false} RunBound(s: Sample, rest: seq<Sample>)
    requires Advances(s, rest)
    ensures 0 <= Lost(s, rest) <= Passed(s, rest) && (Passed(s, rest) > 0 ==> Lost(s, rest) < Passed(s, rest))
    decreases |rest|
  {
    hide Percent;
    if rest == [] {
      PercentsLength(s, rest);
    } else {
      TickBound(rest[0].idle - s.idle, rest[0].total - s.total);
      RunBound(rest[0], rest[1..]);
      WeightedNext(s, rest);
    }
  }

  // ---- From the columns of /proc/stat ----

  predicate Complete(lines: seq<seq<nat>>) {
    forall i | 0 <= i < |lines| :: |lines[i]| >= 5
  }

  /** The time the columns of a line show as busy: all but idle and iowait. */
  function BusyColumns(times: seq<nat>): nat
    requires |times| >= 5
  {
    times[0] + times[1] + times[2] + Sum(times[5..])
  }

  lemma {:induction false} SumAppend(a: seq<nat>, b: seq<nat>)
    ensures Sum(a + b) == Sum(a) + Sum(b)
  {
    if a == [] {
      assert a + b == b;
    } else {
      SumAppend(a[1..], b);
      assert (a + b)[1..] == a[1..] + b;
    }
  }

  lemma SumCons(x: nat, rest: seq<nat>)
    ensures Sum([x] + rest) == x + Sum(rest)
  {
    assert ([x] + rest)[1..] == rest;
  }

  lemma SumFive(a: nat, b: nat, c: nat, d: nat, e: nat)
    ensures Sum([a, b, c, d, e]) == a + b + c + d + e
  {
    SumCons(a, [b, c, d, e]);
    SumCons(b, [c, d, e]);
    SumCons(c, [d, e]);
    SumCons(d, [e]);
    SumCons(e, []);
    assert [a] + [b, c, d, e] == [a, b, c, d, e] && [b] + [c, d, e] == [b, c, d, e];
    assert [c] + [d, e] == [c, d, e] && [d] + [e] == [d, e] && [e] + [] == [e];
  }

  /** The busy time of a sample is that of its line. */
  lemma SampleIsBusy(times: seq<nat>)
    requires |times| >= 5
    ensures Busy(SampleOf(times)) == BusyColumns(times) && SampleOf(times).total == BusyColumns(times) + times[3] + times[4]
  {
    var five := [times[0], times[1], times[2], times[3], times[4]];
    assert times == five + times[5..];
    SumAppend(five, times[5..]);
    SumFive(times[0], times[1], times[2], times[3], times[4]);
  }

  /** From line to line neither the busy columns nor the idle ones run backwards. */
  predicate ColumnsAdvance(first: seq<nat>, rest: seq<seq<nat>>)
    requires |first| >= 5 && Complete(rest)
    decreases |rest|
  {
    rest == [] || (
      && BusyColumns(first) <= BusyColumns(rest[0]) && first[3] + first[4] <= rest[0][3] + rest[0][4]
      && ColumnsAdvance(rest[0], rest[1..]))
  }

  predicate FollowsOn(first: seq<nat>, rest: seq<seq<nat>>) {
    |first| >= 5 && Complete(rest) && ColumnsAdvance(first, rest)
  }

  function LastLine(first: seq<nat>, rest: seq<seq<nat>>): seq<nat> {
    if rest == [] then first else rest[|rest| - 1]
  }

  /** The percentages of a run, each weighted with the length of its tick in the columns. */
  function WeightedColumns(us: seq<int>, first: seq<nat>, rest: seq<seq<nat>>): int
    requires |first| >= 5 && Complete(rest) && |us| == |rest|
  {
    if rest == [] then 0
    else us[0] * (Sum(rest[0]) - Sum(first)) + WeightedColumns(us[1..], rest[0], rest[1..])
  }

  /** The percentages weighted with the tick lengths do not exceed the growth of the busy columns, and fall short of it by less
      than one point of the time that passed. */
  predicate NearlyBusy(us: seq<int>, first: seq<nat>, rest: seq<seq<nat>>)
    requires FollowsOn(first, rest) && |us| == |rest|
  {
    var last := LastLine(first, rest);
    && |last| >= 5
    && var passed, lost := Sum(last) - Sum(first), 100 * (BusyColumns(last) - BusyColumns(first)) - WeightedColumns(us, first, rest);
       0 <= lost <= passed && (passed > 0 ==> lost < passed)
  }

  lemma {:induction false} RunOfLines(first: seq<nat>, rest: seq<seq<nat>>)
    requires |first| >= 5 && Complete(rest) && ColumnsAdvance(first, rest)
    ensures var s, ss := SampleOf(first), Samples(rest);
      && |ss| == |rest| && Advances(s, ss) && Final(s, ss) == SampleOf(LastLine(first, rest))
    decreases |rest|
  {
    hide SampleOf, Sum;
    if rest != [] {
      SampleIsBusy(first);
      SampleIsBusy(rest[0]);
      RunOfLines(rest[0], rest[1..]);
      assert Samples(rest)[1..] == Samples(rest[1..]);
      assert LastLine(first, rest) == LastLine(rest[0], rest[1..]);
    }
  }

  lemma {:induction false} WeightsOfLines(us: seq<int>, first: seq<nat>, rest: seq<seq<nat>>)
    requires |first| >= 5 && Complete(rest) && |us| == |rest|
    ensures |Samples(rest)| == |rest| && Weighted(us, SampleOf(first), Samples(rest)) == WeightedColumns(us, first, rest)
    decreases |rest|
  {
    if rest != [] {
      WeightsOfLines(us[1..], rest[0], rest[1..]);
      assert Samples(rest)[1..] == Samples(rest[1..]);
    }
  }

  /** So it is for every run over lines of /proc/stat. */
  lemma LinesBound(first: seq<nat>, rest: seq<seq<nat>>)
    requires FollowsOn(first, rest)
    ensures var us := Percents(SampleOf(first), Samples(rest)); |us| == |rest| && NearlyBusy(us, first, rest)
  {
    hide Sum, BusyColumns, Percents, Weighted, WeightedColumns, Advances, Final, Samples;
    var s, ss, last := SampleOf(first), Samples(rest), LastLine(first, rest);
    RunOfLines(first, rest);
    RunBound(s, ss);
    PercentsLength(s, ss);
    WeightsOfLines(Percents(s, ss), first, rest);
    SampleIsBusy(first);
    SampleIsBusy(last);
  }

  lemma PollBound(before: Sample, lines: seq<seq<nat>>)
    requires Complete(lines)
    ensures forall first: seq<nat> | FollowsOn(first, lines) && before == Sample(first[3] + first[4], Sum(first)) ::
      |Percents(before, Samples(lines))| == |lines| && NearlyBusy(Percents(before, Samples(lines)), first, lines)
  {
    forall first: seq<nat> | FollowsOn(first, lines) && before == Sample(first[3] + first[4], Sum(first))
      ensures |Percents(before, Samples(lines))| == |lines| && NearlyBusy(Percents(before, Samples(lines)), first, lines)
    {
      LinesBound(first, lines);
      assert before == SampleOf(first);
    }
  }

  // ---- The sampler ----

  class Sampler {
    const idles: array<int>
    const totals: array<int>

    ghost predicate Valid()
      reads this
    {
      idles != totals && idles.Length == totals.Length
    }

    ghost function At(p: nat): Sample
      requires Valid() && p < idles.Length
      reads this, idles, totals
    {
      Sample(idles[p], totals[p])
    }

    constructor (cores: nat)
      ensures Valid() && fresh(idles) && fresh(totals) && idles.Length == cores + 1
      ensures forall p | 0 <= p < idles.Length :: At(p) == Sample(0, 0)
    {
      idles := new int[cores + 1](_ => 0);
      totals := new int[cores + 1](_ => 0);
    }

    /** `getCpuPercent`: the usage since the last call for this core; the other cores are left alone. */
    method GetCpuPercent(times: seq<nat>, processor: nat) returns (utilisation: int)
      requires Valid() && processor < idles.Length && LineOk(times)
      modifies idles, totals
      ensures 0 <= utilisation <= 100
      ensures times != [] ==> idles[processor] == times[3] + times[4] && totals[processor] == Sum(times)
      ensures times == [] ==> utilisation == 0 && At(processor) == old(At(processor))
      ensures times != [] ==> At(processor) == SampleOf(times) && utilisation == Shown(old(At(processor)), SampleOf(times))
      ensures forall p | 0 <= p < idles.Length && p != processor :: At(p) == old(At(p))
    {
      hide TruncDiv;
      utilisation := 0;
      if |times| > 0 {
        var idle := times[3] + times[4];
        var total := 0;
        for i := 0 to |times|
          modifies {}
          invariant total == Sum(times[..i])
        {
          SumSnoc(times[..i], times[i]);
          assert times[..i + 1] == times[..i] + [times[i]];
          total := total + times[i];
        }
        assert times[..|times|] == times;
        var idleDelta := idle - idles[processor];
        var totalDelta := total - totals[processor];
        if totalDelta != 0 {
          utilisation := TruncDiv(100 * (totalDelta - idleDelta), totalDelta);
        }
        idles[processor] := idle;
        totals[processor] := total;
      }
      if utilisation > 100 {
        utilisation := 100;
      } else if utilisation < 0 {
        utilisation := 0;
      }
    }

    /** `getCpuPercents`: one value for the whole machine and one for each core, each from its own counters. */
    method GetCpuPercents(lines: seq<seq<nat>>) returns (percents: seq<int>)
      requires Valid() && (lines == [] || |lines| >= idles.Length)
      requires forall i | 0 <= i < |lines| && i < idles.Length :: |lines[i]| >= 5
      modifies idles, totals
      ensures |percents| == if lines == [] then 0 else idles.Length
      ensures forall i | 0 <= i < |percents| ::
        percents[i] == Shown(old(At(i)), SampleOf(lines[i])) && At(i) == SampleOf(lines[i])
      ensures lines == [] ==> forall p | 0 <= p < idles.Length :: At(p) == old(At(p))
    {
      percents := [];
      if lines != [] {
        for i := 0 to idles.Length
          invariant |percents| == i
          invariant forall k | 0 <= k < i :: percents[k] == Shown(old(At(k)), SampleOf(lines[k])) && At(k) == SampleOf(lines[k])
          invariant forall k | i <= k < idles.Length :: At(k) == old(At(k))
        {
          var u := GetCpuPercent(lines[i], i);
          percents := percents + [u];
        }
      }
    }

    /** A run of ticks for one core. If the counters were those of a line from which the run goes on, what is shown is nearly
        the busy time of the columns. */
    method Poll(lines: seq<seq<nat>>, processor: nat) returns (percents: seq<int>)
      requires Valid() && processor < idles.Length && Complete(lines)
      modifies idles, totals
      ensures percents == Percents(old(At(processor)), Samples(lines))
      ensures forall first: seq<nat> | FollowsOn(first, lines) && old(At(processor)) == Sample(first[3] + first[4], Sum(first)) ::
        |percents| == |lines| && NearlyBusy(percents, first, lines)
      ensures forall p | 0 <= p < idles.Length && p != processor :: At(p) == old(At(p))
    {
      percents := [];
      assert lines[0..] == lines;
      for i := 0 to |lines|
        invariant percents + Percents(At(processor), Samples(lines[i..])) == Percents(old(At(processor)), Samples(lines))
        invariant forall p | 0 <= p < idles.Length && p != processor :: At(p) == old(At(p))
      {
        assert lines[i..][1..] == lines[i + 1..];
        var u := GetCpuPercent(lines[i], processor);
        percents := percents + [u];
      }
      assert lines[|lines|..] == [];
      PollBound(old(At(processor)), lines);
    }
  }
}
