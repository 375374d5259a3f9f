/** The processor clock, from the first of three sources that gives one; dead sources are remembered
    (linux/nexis-core/Info/cpu_info.cpp). */
module Clock {
  import opened Text

  datatype Probe = Sysfs | ProcCpuinfo | Lscpu

  datatype Verdict = Unknown | Available | Unavailable

  /** What is known about the machine. */
  datatype Caps = Caps(sysfs: Verdict, lscpuUseful: bool)

  /** What the sources would give at a call: the frequency file of every core, the clocks in /proc/cpuinfo, and the clock
      lscpu prints if it runs. */
  datatype Sources = Sources(frequencies: seq<Option<real>>, clocks: seq<real>, lscpu: Option<real>)

  /** The usable readings. */
  function Positive(readings: seq<Option<real>>): seq<real> {
    if readings == [] then []
    else (if readings[0].Some? && readings[0].value > 0.0 then [readings[0].value] else []) + Positive(readings[1..])
  }

  function Sum(s: seq<real>): real {
    if s == [] then 0.0 else s[0] + Sum(s[1..])
  }

  function Mean(s: seq<real>): real {
    if s == [] then 0.0 else Sum(s) / |s| as real
  }

  /** What a source gives, in MHz; not positive if it gives nothing. */
  function Value(src: Sources, p: Probe): real {
    match p
    case Sysfs => Mean(Positive(src.frequencies)) / 1000.0
    case ProcCpuinfo => Mean(src.clocks)
    case Lscpu => if src.lscpu.Some? then src.lscpu.value else 0.0
  }

  /** The sources that may be asked, in order. */
  function Chain(caps: Caps): seq<Probe> {
    (if caps.sysfs.Unavailable? then [] else [Sysfs]) + [ProcCpuinfo] + if caps.lscpuUseful then [Lscpu] else []
  }

  /** Those that are asked: up to the first that gives a clock. */
  function Asked(src: Sources, chain: seq<Probe>): seq<Probe> {
    if chain == [] then []
    else if Value(src, chain[0]) > 0.0 then [chain[0]]
    else [chain[0]] + Asked(src, chain[1..])
  }

  /** The first positive value, 0 if there is none. */
  function FirstClock(src: Sources, chain: seq<Probe>): real {
    if chain == [] then 0.0 else if Value(src, chain[0]) > 0.0 then Value(src, chain[0]) else FirstClock(src, chain[1..])
  }

  /** What is known after a call. */
  function Learned(caps: Caps, src: Sources): Caps {
    Caps(
      if caps.sysfs != Unknown then caps.sysfs else if Value(src, Sysfs) > 0.0 then Available else Unavailable,
      caps.lscpuUseful && !(Lscpu in Asked(src, Chain(caps)) && Value(src, Lscpu) <= 0.0))
  }

  lemma PositiveCons(readings: seq<Option<real>>)
    requires readings != []
    ensures Positive(readings) == if readings[0].Some? && readings[0].value > 0.0
      then [readings[0].value] + Positive(readings[1..]) else Positive(readings[1..])
  {
    assert [] + Positive(readings[1..]) == Positive(readings[1..]);
  }

  lemma AskedCons(src: Sources, p: Probe, rest: seq<Probe>)
    ensures Asked(src, [p] + rest) == if Value(src, p) > 0.0 then [p] else [p] + Asked(src, rest)
    ensures FirstClock(src, [p] + rest) == if Value(src, p) > 0.0 then Value(src, p) else FirstClock(src, rest)
  {
    assert ([p] + rest)[1..] == rest;
  }

  /** What each possible chain asks. */
  lemma ChainParts(caps: Caps, src: Sources)
    ensures var s, p, l := Value(src, Sysfs) > 0.0, Value(src, ProcCpuinfo) > 0.0, Value(src, Lscpu) > 0.0;
      var head := if caps.sysfs.Unavailable? then [] else [Sysfs];
      Asked(src, Chain(caps)) == if head != [] && s then head
        else if p || !caps.lscpuUseful then head + [ProcCpuinfo] else head + [ProcCpuinfo, Lscpu]
    ensures FirstClock(src, Chain(caps)) == if !caps.sysfs.Unavailable? && Value(src, Sysfs) > 0.0 then Value(src, Sysfs)
      else if Value(src, ProcCpuinfo) > 0.0 then Value(src, ProcCpuinfo)
      else if caps.lscpuUseful && Value(src, Lscpu) > 0.0 then Value(src, Lscpu) else 0.0
  {
    hide Value;
    var tail := if caps.lscpuUseful then [Lscpu] else [];
    AskedCons(src, Lscpu, []);
    AskedCons(src, ProcCpuinfo, tail);
    AskedCons(src, Sysfs, [ProcCpuinfo] + tail);
    assert [] + [ProcCpuinfo] + tail == [ProcCpuinfo] + tail;
    assert [Sysfs] + [ProcCpuinfo] + tail == [Sysfs] + ([ProcCpuinfo] + tail);
    assert [Lscpu] + [] == [Lscpu];
  }

  /** The mean of the clocks, 0 if there are none. */
  method Average(clocks: seq<real>) returns (avg: real)
    ensures avg == Mean(clocks)
  {
    avg := 0.0;
    if clocks != [] {
      var sum := 0.0;
      assert clocks[0..] == clocks;
      for i := 0 to |clocks|
        invariant sum + Sum(clocks[i..]) == Sum(clocks)
      {
        assert clocks[i..][1..] == clocks[i + 1..];
        sum := sum + clocks[i];
      }
      avg := sum / |clocks| as real;
    }
  }

  lemma SumCons(x: real, s: seq<real>)
    ensures Sum([x] + s) == x + Sum(s)
  {
    assert ([x] + s)[1..] == s;
  }

  class ClockReader {
    var sysfs: Verdict
    var lscpuUseful: bool

    function Known(): Caps
      reads this
    {
      Caps(sysfs, lscpuUseful)
    }

    constructor ()
      ensures Known() == Caps(Unknown, true)
    {
      sysfs, lscpuUseful := Unknown, true;
    }

    /** `readSysfsAvgClockMhz` */
    method ReadSysfsAvgClockMhz(readings: seq<Option<real>>) returns (mhz: real)
      ensures mhz == Mean(Positive(readings)) / 1000.0
      ensures mhz > 0.0 <==> exists i :: 0 <= i < |readings| && readings[i].Some? && readings[i].value > 0.0
    {
      var sumKhz, samples := 0.0, 0;
      assert readings[0..] == readings;
      for i := 0 to |readings|
        invariant samples >= 0 && sumKhz >= 0.0 && (samples > 0 <==> sumKhz > 0.0)
        invariant samples > 0 <==> exists k :: 0 <= k < i && readings[k].Some? && readings[k].value > 0.0
        invariant sumKhz + Sum(Positive(readings[i..])) == Sum(Positive(readings))
        invariant samples + |Positive(readings[i..])| == |Positive(readings)|
      {
        assert readings[i..][1..] == readings[i + 1..];
        PositiveCons(readings[i..]);
        if readings[i].Some? && readings[i].value > 0.0 {
          SumCons(readings[i].value, Positive(readings[i + 1..]));
          sumKhz := sumKhz + readings[i].value;
          samples := samples + 1;
        }
      }
      if samples == 0 {
        return 0.0;
      }
      return sumKhz / samples as real / 1000.0;
    }

    /** `getAvgClock`, with the sources it asked. */
    method GetAvgClock(src: Sources) returns (mhz: real, asked: seq<Probe>)
      modifies this
      ensures var mayAsk, first, second, third := old(sysfs) != Unavailable, Value(src, Sysfs), Value(src, ProcCpuinfo), Value(src, Lscpu);
        && (mayAsk && first > 0.0 ==> mhz == first && asked == [Sysfs])
        && (!(mayAsk && first > 0.0) && second > 0.0 ==>
             mhz == second && asked == (if mayAsk then [Sysfs] else []) + [ProcCpuinfo])
        && (!(mayAsk && first > 0.0) && second <= 0.0 ==>
             && asked == (if mayAsk then [Sysfs] else []) + [ProcCpuinfo] + (if old(lscpuUseful) then [Lscpu] else [])
             && mhz == if old(lscpuUseful) && third > 0.0 then third else 0.0)
        && sysfs == (if old(sysfs) != Unknown then old(sysfs) else if first > 0.0 then Available else Unavailable)
        && (lscpuUseful <==> old(lscpuUseful) && !(Lscpu in asked && third <= 0.0))
      ensures asked == Asked(src, Chain(old(Known())))
      ensures mhz == FirstClock(src, Chain(old(Known())))
      ensures Known() == Learned(old(Known()), src)
    {
      hide Mean, Positive;
      ChainParts(Known(), src);
      asked := [];
      if sysfs != Unavailable {
        asked := asked + [Sysfs];
        mhz := ReadSysfsAvgClockMhz(src.frequencies);
        if mhz > 0.0 {
          sysfs := Available;
          return;
        }
        if sysfs == Unknown {
          sysfs := Unavailable;
        }
      }
      asked := asked + [ProcCpuinfo];
      var avg := Average(src.clocks);
      if avg > 0.0 {
        return avg, asked;
      }
      if lscpuUseful {
        asked := asked + [Lscpu];
        if src.lscpu.Some? && src.lscpu.value > 0.0 {
          return src.lscpu.value, asked;
        }
        lscpuUseful := false;
      }
      return 0.0, asked;
    }
  }

  // ---- Means ----

  lemma OneMore(x: real, n: nat)
    ensures x * (n + 1) as real == x + x * n as real
  {
  }

  lemma {:induction false} SumBetween(s: seq<real>, lo: real, hi: real)
    requires forall i | 0 <= i < |s| :: lo <= s[i] <= hi
    ensures lo * |s| as real <= Sum(s) <= hi * |s| as real
  {
    if s != [] {
      SumBetween(s[1..], lo, hi);
      OneMore(lo, |s[1..]|);
      OneMore(hi, |s[1..]|);
    }
  }

  lemma Larger(x: real, y: real, m: real)
    requires m > 0.0 && x > y
    ensures x * m > y * m
  {
  }

  lemma Smaller(x: real, y: real, m: real)
    requires m > 0.0 && x * m <= y * m
    ensures x <= y
  {
    if x > y {
      Larger(x, y, m);
    }
  }

  lemma QuotientBetween(sum: real, m: real, lo: real, hi: real)
    requires m > 0.0 && lo * m <= sum <= hi * m
    ensures lo <= sum / m <= hi && sum / m * m == sum
  {
    var x := sum / m;
    assert x * m == sum;
    Smaller(lo, x, m);
    Smaller(x, hi, m);
  }

  lemma DividedBetween(sum: real, n: nat, lo: real, hi: real)
    requires n > 0 && lo * n as real <= sum <= hi * n as real
    ensures lo <= sum / n as real <= hi && sum / n as real * n as real == sum
  {
    QuotientBetween(sum, n as real, lo, hi);
  }

  /** The clock of several readings lies between the smallest and the largest, and is theirs on average. */
  lemma MeanIsBetween(s: seq<real>, lo: real, hi: real)
    requires s != [] && forall i | 0 <= i < |s| :: lo <= s[i] <= hi
    ensures lo <= Mean(s) <= hi && Mean(s) * |s| as real == Sum(s)
  {
    hide Sum;
    SumBetween(s, lo, hi);
    DividedBetween(Sum(s), |s|, lo, hi);
  }

  lemma {:induction false} SumAppend(a: seq<real>, b: seq<real>)
    ensures Sum(a + b) == Sum(a) + Sum(b)
  {
    if a == [] {
      assert a + b == b;
    } else {
      SumAppend(a[1..], b);
      assert (a + b)[1..] == a[1..] + b;
    }
  }

  lemma {:induction false} PositiveIs(readings: seq<Option<real>>, x: real)
    ensures multiset(Positive(readings))[x] == if x > 0.0 then multiset(readings)[Some(x)] else 0
  {
    if readings != [] {
      PositiveIs(readings[1..], x);
      PositiveCons(readings);
      assert readings == [readings[0]] + readings[1..];
    }
  }

  /** Of the frequency files, in kHz, those with a positive number count, each once; their mean is shown in MHz. */
  lemma SysfsIsMean(src: Sources, lo: real, hi: real)
    requires forall i | 0 <= i < |src.frequencies| && src.frequencies[i].Some? && src.frequencies[i].value > 0.0 ::
      lo <= src.frequencies[i].value <= hi
    requires exists i :: 0 <= i < |src.frequencies| && src.frequencies[i].Some? && src.frequencies[i].value > 0.0
    ensures lo <= 1000.0 * Value(src, Sysfs) <= hi
  {
    hide Mean, Positive;
    var s := Positive(src.frequencies);
    forall i | 0 <= i < |s|
      ensures lo <= s[i] <= hi
    {
      PositiveIs(src.frequencies, s[i]);
      assert s[i] in multiset(s);
      assert Some(s[i]) in multiset(src.frequencies);
    }
    var k :| 0 <= k < |src.frequencies| && src.frequencies[k].Some? && src.frequencies[k].value > 0.0;
    PositiveIs(src.frequencies, src.frequencies[k].value);
    assert src.frequencies[k] in multiset(src.frequencies);
    assert src.frequencies[k].value in multiset(s);
    MeanIsBetween(s, lo, hi);
  }

  // ---- Runs of calls ----

  function LearnedAll(caps: Caps, calls: seq<Sources>): Caps
    decreases |calls|
  {
    if calls == [] then caps else LearnedAll(Learned(caps, calls[0]), calls[1..])
  }

  /** The number of calls in which p is asked and gives no clock. */
  function Wasted(caps: Caps, calls: seq<Sources>, p: Probe): nat
    decreases |calls|
  {
    if calls == [] then 0
    else
      var here := if p in Asked(calls[0], Chain(caps)) && Value(calls[0], p) <= 0.0 then 1 else 0;
      here + Wasted(Learned(caps, calls[0]), calls[1..], p)
  }

  /** The number of calls in which p is asked. */
  function Uses(caps: Caps, calls: seq<Sources>, p: Probe): nat
    decreases |calls|
  {
    if calls == [] then 0
    else
      var here := if p in Asked(calls[0], Chain(caps)) then 1 else 0;
      here + Uses(Learned(caps, calls[0]), calls[1..], p)
  }

  lemma {:induction false} VerdictStays(caps: Caps, calls: seq<Sources>)
    requires caps.sysfs != Unknown
    ensures LearnedAll(caps, calls).sysfs == caps.sysfs
    decreases |calls|
  {
    hide Value, Asked, Chain;
    if calls != [] {
      VerdictStays(Learned(caps, calls[0]), calls[1..]);
    }
  }

  /** The verdict on sysfs is the first call's, for ever. */
  lemma {:induction false} VerdictIsFirst(caps: Caps, calls: seq<Sources>)
    requires calls != [] && caps.sysfs == Unknown
    ensures LearnedAll(caps, calls).sysfs == if Value(calls[0], Sysfs) > 0.0 then Available else Unavailable
  {
    hide Value;
    VerdictStays(Learned(caps, calls[0]), calls[1..]);
  }

  /** After an unavailable verdict sysfs is never read again. */
  lemma {:induction false} DeadSysfsIsLeftAlone(caps: Caps, calls: seq<Sources>)
    requires caps.sysfs == Unavailable
    ensures Uses(caps, calls, Sysfs) == 0
    decreases |calls|
  {
    hide Value, Chain, Asked, FirstClock;
    if calls != [] {
      ChainParts(caps, calls[0]);
      DeadSysfsIsLeftAlone(Learned(caps, calls[0]), calls[1..]);
    }
  }

  lemma LscpuVerdict(caps: Caps, src: Sources)
    ensures Lscpu in Asked(src, Chain(caps)) ==> caps.lscpuUseful
  {
    hide Value;
    ChainParts(caps, src);
  }

  /** In a whole run at most one call of lscpu yields no clock. */
  lemma {:induction false} LscpuFailsOnce(caps: Caps, calls: seq<Sources>)
    ensures Wasted(caps, calls, Lscpu) <= if caps.lscpuUseful then 1 else 0
    decreases |calls|
  {
    hide Value, Chain, Asked;
    if calls != [] {
      LscpuVerdict(caps, calls[0]);
      LscpuFailsOnce(Learned(caps, calls[0]), calls[1..]);
    }
  }

  /** A run from start-up: sysfs wastes at most one call unless it worked in the first, and lscpu at most one. */
  lemma SourcesWasteLittle(calls: seq<Sources>)
    requires calls != []
    ensures var caps := Caps(Unknown, true);
      && Wasted(caps, calls, Lscpu) <= 1
      && (Value(calls[0], Sysfs) <= 0.0 ==> Uses(caps, calls, Sysfs) == 1)
  {
    hide Value, Chain, Asked, FirstClock;
    var caps := Caps(Unknown, true);
    LscpuFailsOnce(caps, calls);
    ChainParts(caps, calls[0]);
    if Value(calls[0], Sysfs) <= 0.0 {
      DeadSysfsIsLeftAlone(Learned(caps, calls[0]), calls[1..]);
    }
  }
}
