/** Finding batteries and adding them up (linux/nexis-core/Info/battery_info.cpp). Capacities are real numbers. */
module Battery {
  import opened Text
  import opened Arithmetic

  /** What is taken from the first battery alone. */
  datatype Primary = Primary(
    cycles: int, voltageMv: int, manufacturer: string, model: string, technology: string,
    startThreshold: int, stopThreshold: int)

  /** What is read of a battery; -1 stands for an unknown value. */
  datatype BatteryData = BatteryData(
    hasBattery: bool, charge: int, health: int, currentMah: real, maxMah: real, designMah: real,
    temperature: real, power: real, charging: bool, pluggedIn: bool, minutes: int, status: string, condition: string,
    primary: Primary)

  const NO_PRIMARY := Primary(-1, -1, "", "", "", -1, -1)
  const NO_DATA := BatteryData(false, -1, -1, -1.0, -1.0, -1.0, -1.0, -1.0, false, false, -1, "", "", NO_PRIMARY)

  /** `static_cast<int>` */
  function Trunc(x: real): int {
    if x >= 0.0 then x.Floor else -((-x).Floor)
  }

  function Condition(health: int): string {
    if health >= 80 then "Good" else if health >= 60 then "Fair" else "Replace"
  }

  /** Running totals over batteries. */
  datatype Totals = Totals(
    design: real, max: real, current: real, power: real, temperature: real, charge: real, health: real,
    charging: bool, pluggedIn: bool, full: bool)

  const ZERO := Totals(0.0, 0.0, 0.0, 0.0, -1.0, 0.0, 0.0, false, false, true)

  function Add(t: Totals, b: BatteryData): Totals {
    Totals(
      if b.designMah > 0.0 then t.design + b.designMah else t.design,
      if b.maxMah > 0.0 then t.max + b.maxMah else t.max,
      if b.currentMah >= 0.0 then t.current + b.currentMah else t.current,
      if b.power > 0.0 then t.power + b.power else t.power,
      if b.temperature >= 0.0 && b.temperature > t.temperature then b.temperature else t.temperature,
      if b.maxMah > 0.0 && b.charge >= 0 then t.charge + b.charge as real * b.maxMah else t.charge,
      if b.designMah > 0.0 && b.health >= 0 then t.health + b.health as real * b.designMah else t.health,
      t.charging || b.charging,
      t.pluggedIn || b.pluggedIn,
      t.full && b.status == "Full")
  }

  function AddAll(t: Totals, bs: seq<BatteryData>): Totals
    decreases |bs|
  {
    if bs == [] then t else AddAll(Add(t, bs[0]), bs[1..])
  }

  function Share(weighted: real, total: real): int {
    if total > 0.0 then Clamp(Trunc(weighted / total)) else -1
  }

  function HoursLeft(current: real, power: real, volts: real): real
    requires power > 0.0 && volts > 0.0
  {
    current / 1000.0 / (power / volts)
  }

  function Minutes(t: Totals, p: Primary): int {
    if !t.charging && t.power > 0.0 && t.current > 0.0 then
      Trunc(HoursLeft(t.current, t.power, if p.voltageMv > 0 then p.voltageMv as real / 1000.0 else 1.0) * 60.0)
    else -1
  }

  /** The battery shown for the given totals. */
  function Shown(t: Totals, p: Primary): BatteryData {
    var health := Share(t.health, t.design);
    BatteryData(
      true, Share(t.charge, t.max), health,
      if t.current > 0.0 then t.current else -1.0,
      if t.max > 0.0 then t.max else -1.0,
      if t.design > 0.0 then t.design else -1.0,
      if t.temperature >= 0.0 then t.temperature else -1.0,
      if t.power > 0.0 then t.power else -1.0,
      t.charging, t.pluggedIn, Minutes(t, p),
      if t.charging then "Charging" else if t.full then "Full" else "Discharging",
      if health >= 0 then Condition(health) else "",
      p)
  }

  function Combined(bs: seq<BatteryData>): BatteryData {
    if bs == [] then NO_DATA else if |bs| == 1 then bs[0] else Shown(AddAll(ZERO, bs), bs[0].primary)
  }

  /** A directory entry and the content of its type file. */
  datatype Entry = Entry(name: string, kind: string)

  /** Equality up to case. */
  predicate SameText(a: string, b: string) {
    |a| == |b| && forall i | 0 <= i < |a| :: LowerChar(a[i]) == LowerChar(b[i])
  }

  predicate IsBat(e: Entry) {
    |e.name| >= 3 && SameText(e.name[..3], "BAT")
  }

  predicate IsBattery(e: Entry) {
    SameText(e.kind, "Battery")
  }

  /** The batteries among the entries whose name does or does not start with BAT. */
  function Selected(es: seq<Entry>, bat: bool): seq<string> {
    if es == [] then []
    else
      var rest := Selected(es[1..], bat);
      if IsBattery(es[0]) && IsBat(es[0]) == bat then [es[0].name] + rest else rest
  }

  function Discovered(es: seq<Entry>): seq<string> {
    Selected(es, true) + Selected(es, false)
  }

  lemma SelectedNext(es: seq<Entry>, bat: bool)
    requires es != []
    ensures Selected(es, bat)
         == if IsBattery(es[0]) && IsBat(es[0]) == bat then [es[0].name] + Selected(es[1..], bat) else Selected(es[1..], bat)
  {
  }

  lemma SelectedNothing(bat: bool)
    ensures Selected([], bat) == []
  {
  }

  lemma AddAllNothing(t: Totals)
    ensures AddAll(t, []) == t
  {
  }

  lemma AddAllNext(t: Totals, bs: seq<BatteryData>)
    requires bs != []
    ensures AddAll(t, bs) == AddAll(Add(t, bs[0]), bs[1..])
  {
  }

  /** One of the two loops of `discoverBattery`. */
  method Collect(es: seq<Entry>, bat: bool) returns (found: seq<string>)
    ensures found == Selected(es, bat)
  {
    hide IsBattery, IsBat, Selected;
    found := [];
    assert es[0..] == es;
    for i := 0 to |es|
      invariant found + Selected(es[i..], bat) == Selected(es, bat)
    {
      assert es[i..][1..] == es[i + 1..];
      SelectedNext(es[i..], bat);
      if IsBat(es[i]) == bat && IsBattery(es[i]) {
        found := found + [es[i].name];
      }
    }
    assert es[|es|..] == [];
    SelectedNothing(bat);
  }

  /** The rest of `aggregate`: the fields that the totals give, over the defaults. */
  method Display(t: Totals, first: Primary) returns (d: BatteryData)
    ensures d == Shown(t, first)
  {
    hide Trunc, Clamp, HoursLeft;
    var charge, health, minutes := -1, -1, -1;
    var currentMah, maxMah, designMah, power, temperature := -1.0, -1.0, -1.0, -1.0, -1.0;
    var condition := "";
    if t.max > 0.0 {
      charge := Clamp(Trunc(t.charge / t.max));
      maxMah := t.max;
    }
    if t.design > 0.0 {
      health := Clamp(Trunc(t.health / t.design));
      designMah := t.design;
    }
    if t.current > 0.0 {
      currentMah := t.current;
    }
    if t.power > 0.0 {
      power := t.power;
    }
    if t.temperature >= 0.0 {
      temperature := t.temperature;
    }
    if health >= 0 {
      condition := Condition(health);
    }
    if !t.charging && power > 0.0 && currentMah > 0.0 {
      var volts := if first.voltageMv > 0 then first.voltageMv as real / 1000.0 else 1.0;
      minutes := Trunc(HoursLeft(currentMah, power, volts) * 60.0);
    }
    var status := if t.charging then "Charging" else if t.full then "Full" else "Discharging";
    d := BatteryData(true, charge, health, currentMah, maxMah, designMah, temperature, power, t.charging, t.pluggedIn,
                     minutes, status, condition, first);
  }

  class BatteryInfo {
    var data: BatteryData
    var paths: seq<string>
    var batteries: seq<BatteryData>

    constructor ()
      ensures data == NO_DATA && paths == [] && batteries == []
    {
      data, paths, batteries := NO_DATA, [], [];
    }

    /** `discoverBattery`, over the entries of the power supply directory if that exists. */
    method DiscoverBattery(entries: Option<seq<Entry>>)
      modifies this
      ensures paths == if entries.Some? then Discovered(entries.value) else []
      ensures data == NO_DATA.(hasBattery := paths != []) && batteries == []
    {
      data, paths, batteries := NO_DATA, [], [];
      if entries.None? {
        return;
      }
      var bats := Collect(entries.value, true);
      var others := Collect(entries.value, false);
      paths := bats + others;
      data := data.(hasBattery := paths != []);
    }

    /** The loop of `aggregate`. */
    method SumUp() returns (totals: Totals)
      ensures totals == AddAll(ZERO, batteries)
    {
      hide AddAll;
      var design, max, current, power, temperature := 0.0, 0.0, 0.0, 0.0, -1.0;
      var charge, health := 0.0, 0.0;
      var charging, pluggedIn, full := false, false, true;
      assert batteries[0..] == batteries;
      for i := 0 to |batteries|
        invariant AddAll(Totals(design, max, current, power, temperature, charge, health, charging, pluggedIn, full), batteries[i..])
               == AddAll(ZERO, batteries)
      {
        ghost var before := Totals(design, max, current, power, temperature, charge, health, charging, pluggedIn, full);
        assert batteries[i..][1..] == batteries[i + 1..];
        AddAllNext(before, batteries[i..]);
        var b := batteries[i];
        charging := charging || b.charging;
        pluggedIn := pluggedIn || b.pluggedIn;
        full := full && b.status == "Full";
        if b.maxMah > 0.0 {
          max := max + b.maxMah;
          if b.charge >= 0 {
            charge := charge + b.charge as real * b.maxMah;
          }
        }
        if b.designMah > 0.0 {
          design := design + b.designMah;
          if b.health >= 0 {
            health := health + b.health as real * b.designMah;
          }
        }
        if b.currentMah >= 0.0 {
          current := current + b.currentMah;
        }
        if b.power > 0.0 {
          power := power + b.power;
        }
        if b.temperature >= 0.0 {
          temperature := if b.temperature > temperature then b.temperature else temperature;
        }
        assert Totals(design, max, current, power, temperature, charge, health, charging, pluggedIn, full) == Add(before, b);
      }
      assert batteries[|batteries|..] == [];
      totals := Totals(design, max, current, power, temperature, charge, health, charging, pluggedIn, full);
      AddAllNothing(totals);
    }

    /** `aggregate` */
    method Aggregate()
      modifies this`data
      ensures data == Combined(batteries)
      ensures batteries == [] ==> data == NO_DATA && !data.hasBattery
      ensures |batteries| == 1 ==> data == batteries[0]
      ensures |batteries| >= 2 ==> data.primary == batteries[0].primary
      ensures (forall i | 0 <= i < |batteries| :: batteries[i].hasBattery) ==> (data.hasBattery <==> batteries != [])
    {
      hide AddAll;
      if batteries == [] {
        data := NO_DATA;
        return;
      }
      if |batteries| == 1 {
        data := batteries[0];
        return;
      }
      var totals := SumUp();
      data := Display(totals, batteries[0].primary);
    }
  }

  // ---- The weighted mean ----

  /** A battery that has a capacity has a charge between the bounds. */
  predicate Known(b: BatteryData, lo: int, hi: int) {
    b.maxMah > 0.0 ==> lo <= b.charge <= hi
  }

  lemma Between(x: real, m: real, c: real, lo: real, hi: real, k: real)
    requires lo * m <= x <= hi * m && lo <= c <= hi && k > 0.0
    ensures lo * (m + k) <= x + c * k <= hi * (m + k)
  {
    assert lo * k <= c * k;
    assert c * k <= hi * k;
  }

  lemma AddKnown(t: Totals, b: BatteryData, lo: int, hi: int)
    requires 0 <= lo && Known(b, lo, hi)
    ensures if b.maxMah > 0.0
      then Add(t, b).max == t.max + b.maxMah && Add(t, b).charge == t.charge + b.charge as real * b.maxMah
           && lo as real <= b.charge as real <= hi as real
      else Add(t, b).max == t.max && Add(t, b).charge == t.charge
  {
  }

  predicate ChargeIn(t: Totals, lo: int, hi: int) {
    t.max >= 0.0 && lo as real * t.max <= t.charge <= hi as real * t.max
  }

  lemma ChargeInNext(t: Totals, b: BatteryData, lo: int, hi: int)
    requires 0 <= lo <= hi && Known(b, lo, hi) && ChargeIn(t, lo, hi)
    ensures ChargeIn(Add(t, b), lo, hi)
  {
    hide Add;
    AddKnown(t, b, lo, hi);
    if b.maxMah > 0.0 {
      Between(t.charge, t.max, b.charge as real, lo as real, hi as real, b.maxMah);
    }
  }

  lemma {:induction false} ChargeBounds(t: Totals, bs: seq<BatteryData>, lo: int, hi: int)
    requires 0 <= lo <= hi && (forall i | 0 <= i < |bs| :: Known(bs[i], lo, hi)) && ChargeIn(t, lo, hi)
    ensures ChargeIn(AddAll(t, bs), lo, hi)
    decreases |bs|
  {
    hide Add, Known, ChargeIn;
    if bs != [] {
      ChargeInNext(t, bs[0], lo, hi);
      ChargeBounds(Add(t, bs[0]), bs[1..], lo, hi);
    }
  }

  lemma RealScale(x: real, y: real, m: real)
    requires m > 0.0 && x > y
    ensures x * m > y * m
  {
  }

  lemma RealCancel(x: real, y: real, m: real)
    requires m > 0.0 && x * m <= y * m
    ensures x <= y
  {
    if x > y {
      RealScale(x, y, m);
    }
  }

  lemma TruncBetween(x: real, m: real, lo: int, hi: int)
    requires 0 <= lo && m > 0.0 && lo as real * m <= x <= hi as real * m
    ensures lo <= Trunc(x / m) <= hi
  {
    assert x / m * m == x;
    RealCancel(lo as real, x / m, m);
    RealCancel(x / m, hi as real, m);
  }

  lemma {:induction false} SomeCapacity(t: Totals, bs: seq<BatteryData>)
    requires t.max >= 0.0
    ensures AddAll(t, bs).max >= 0.0
    ensures AddAll(t, bs).max > 0.0 <==> t.max > 0.0 || exists i :: 0 <= i < |bs| && bs[i].maxMah > 0.0
    decreases |bs|
  {
    if bs != [] {
      SomeCapacity(Add(t, bs[0]), bs[1..]);
      assert forall i | 1 <= i < |bs| :: bs[i] == bs[1..][i - 1];
    }
  }

  /** The charge shown for several batteries lies between the smallest and the largest of those that have a capacity. */
  lemma ChargeIsMean(bs: seq<BatteryData>, lo: int, hi: int)
    requires |bs| >= 2 && 0 <= lo <= hi <= 100 && forall i | 0 <= i < |bs| :: Known(bs[i], lo, hi)
    requires exists i :: 0 <= i < |bs| && bs[i].maxMah > 0.0
    ensures lo <= Combined(bs).charge <= hi
  {
    hide Known;
    ChargeBounds(ZERO, bs, lo, hi);
    SomeCapacity(ZERO, bs);
    var t := AddAll(ZERO, bs);
    TruncBetween(t.charge, t.max, lo, hi);
  }

  /** For several batteries the charge shown is a percentage exactly when one of them has a capacity; else it is unknown. */
  lemma ChargeIsKnown(bs: seq<BatteryData>)
    requires |bs| >= 2
    ensures if exists i :: 0 <= i < |bs| && bs[i].maxMah > 0.0 then 0 <= Combined(bs).charge <= 100 else Combined(bs).charge == -1
  {
    SomeCapacity(ZERO, bs);
  }

  /** The same for the health and the design capacity. */
  predicate KnownHealth(b: BatteryData, lo: int, hi: int) {
    b.designMah > 0.0 ==> lo <= b.health <= hi
  }

  lemma AddKnownHealth(t: Totals, b: BatteryData, lo: int, hi: int)
    requires 0 <= lo && KnownHealth(b, lo, hi)
    ensures if b.designMah > 0.0
      then Add(t, b).design == t.design + b.designMah && Add(t, b).health == t.health + b.health as real * b.designMah
           && lo as real <= b.health as real <= hi as real
      else Add(t, b).design == t.design && Add(t, b).health == t.health
  {
  }

  predicate HealthIn(t: Totals, lo: int, hi: int) {
    t.design >= 0.0 && lo as real * t.design <= t.health <= hi as real * t.design
  }

  lemma HealthInNext(t: Totals, b: BatteryData, lo: int, hi: int)
    requires 0 <= lo <= hi && KnownHealth(b, lo, hi) && HealthIn(t, lo, hi)
    ensures HealthIn(Add(t, b), lo, hi)
  {
    hide Add;
    AddKnownHealth(t, b, lo, hi);
    if b.designMah > 0.0 {
      Between(t.health, t.design, b.health as real, lo as real, hi as real, b.designMah);
    }
  }

  lemma {:induction false} HealthBounds(t: Totals, bs: seq<BatteryData>, lo: int, hi: int)
    requires 0 <= lo <= hi && (forall i | 0 <= i < |bs| :: KnownHealth(bs[i], lo, hi)) && HealthIn(t, lo, hi)
    ensures HealthIn(AddAll(t, bs), lo, hi)
    decreases |bs|
  {
    hide Add, KnownHealth, HealthIn;
    if bs != [] {
      HealthInNext(t, bs[0], lo, hi);
      HealthBounds(Add(t, bs[0]), bs[1..], lo, hi);
    }
  }

  lemma {:induction false} SomeDesign(t: Totals, bs: seq<BatteryData>)
    requires t.design >= 0.0
    ensures AddAll(t, bs).design >= 0.0
    ensures AddAll(t, bs).design > 0.0 <==> t.design > 0.0 || exists i :: 0 <= i < |bs| && bs[i].designMah > 0.0
    decreases |bs|
  {
    if bs != [] {
      SomeDesign(Add(t, bs[0]), bs[1..]);
      assert forall i | 1 <= i < |bs| :: bs[i] == bs[1..][i - 1];
    }
  }

  /** The health shown lies between theirs, and the condition word belongs to it. */
  lemma HealthIsMean(bs: seq<BatteryData>, lo: int, hi: int)
    requires |bs| >= 2 && 0 <= lo <= hi <= 100 && forall i | 0 <= i < |bs| :: KnownHealth(bs[i], lo, hi)
    requires exists i :: 0 <= i < |bs| && bs[i].designMah > 0.0
    ensures lo <= Combined(bs).health <= hi
    ensures Combined(bs).condition == Condition(Combined(bs).health)
  {
    hide KnownHealth;
    HealthBounds(ZERO, bs, lo, hi);
    SomeDesign(ZERO, bs);
    var t := AddAll(ZERO, bs);
    TruncBetween(t.health, t.design, lo, hi);
  }

  // ---- Totals, status and temperature ----

  function PositivePart(x: real): real {
    if x > 0.0 then x else 0.0
  }

  function MaxOf(b: BatteryData): real {
    b.maxMah
  }

  function DesignOf(b: BatteryData): real {
    b.designMah
  }

  function CurrentOf(b: BatteryData): real {
    b.currentMah
  }

  function PowerOf(b: BatteryData): real {
    b.power
  }

  function ChargeOf(b: BatteryData): int {
    b.charge
  }

  function HealthOf(b: BatteryData): int {
    b.health
  }

  /** The sums of the known capacities and powers. */
  function SumOf(bs: seq<BatteryData>, value: BatteryData -> real): real {
    if bs == [] then 0.0 else PositivePart(value(bs[0])) + SumOf(bs[1..], value)
  }

  lemma {:induction false} AddsUp(t: Totals, bs: seq<BatteryData>)
    ensures var r := AddAll(t, bs);
      && r.max == t.max + SumOf(bs, MaxOf)
      && r.design == t.design + SumOf(bs, DesignOf)
      && r.current == t.current + SumOf(bs, CurrentOf)
      && r.power == t.power + SumOf(bs, PowerOf)
    decreases |bs|
  {
    if bs != [] {
      AddsUp(Add(t, bs[0]), bs[1..]);
    }
  }

  /** A sum that is shown if it is positive, and unknown otherwise. */
  function IfPositive(sum: real): real {
    if sum > 0.0 then sum else -1.0
  }

  /** The capacities, the charge and the power shown for several batteries are the sums of the positive ones. */
  lemma TotalsAreSums(bs: seq<BatteryData>)
    requires |bs| >= 2
    ensures var d := Combined(bs);
      && d.maxMah == IfPositive(SumOf(bs, MaxOf))
      && d.designMah == IfPositive(SumOf(bs, DesignOf))
      && d.currentMah == IfPositive(SumOf(bs, CurrentOf))
      && d.power == IfPositive(SumOf(bs, PowerOf))
  {
    hide AddAll, SumOf;
    AddsUp(ZERO, bs);
  }

  function Weighted(v: int, w: real): real {
    if w > 0.0 && v >= 0 then v as real * w else 0.0
  }

  /** The sum of value times weight over the batteries that have both. */
  function WeightedOf(bs: seq<BatteryData>, value: BatteryData -> int, weight: BatteryData -> real): real {
    if bs == [] then 0.0 else Weighted(value(bs[0]), weight(bs[0])) + WeightedOf(bs[1..], value, weight)
  }

  lemma {:induction false} WeightsAddUp(t: Totals, bs: seq<BatteryData>)
    ensures var r := AddAll(t, bs);
      && r.charge == t.charge + WeightedOf(bs, ChargeOf, MaxOf)
      && r.health == t.health + WeightedOf(bs, HealthOf, DesignOf)
    decreases |bs|
  {
    if bs != [] {
      WeightsAddUp(Add(t, bs[0]), bs[1..]);
    }
  }

  predicate AtMost(bs: seq<BatteryData>, value: BatteryData -> int, hi: int) {
    forall i | 0 <= i < |bs| :: value(bs[i]) <= hi
  }

  lemma Product(v: int, w: real, hi: int)
    requires 0 <= v <= hi && w > 0.0
    ensures 0.0 <= v as real * w <= hi as real * w
  {
  }

  lemma Distribute(h: real, a: real, b: real)
    ensures h * (a + b) == h * a + h * b
  {
  }

  lemma WeightsAdd(p: real, a: real, w: real, sum: real, h: real)
    requires 0.0 <= p <= h * a && 0.0 <= w <= h * sum && a >= 0.0 && sum >= 0.0
    ensures 0.0 <= p + w <= h * (a + sum)
  {
    Distribute(h, a, sum);
  }

  lemma OneWeight(v: int, w: real, hi: int)
    requires v <= hi && 0 <= hi
    ensures 0.0 <= Weighted(v, w) <= hi as real * PositivePart(w) && PositivePart(w) >= 0.0
  {
    if w > 0.0 {
      if v >= 0 {
        Product(v, w, hi);
      } else {
        Product(0, w, hi);
      }
    }
  }

  lemma AtMostRest(bs: seq<BatteryData>, value: BatteryData -> int, hi: int)
    requires bs != [] && AtMost(bs, value, hi)
    ensures value(bs[0]) <= hi && AtMost(bs[1..], value, hi)
  {
  }

  lemma {:induction false} WeightedRange(bs: seq<BatteryData>, value: BatteryData -> int, weight: BatteryData -> real, hi: int)
    requires 0 <= hi && AtMost(bs, value, hi)
    ensures 0.0 <= WeightedOf(bs, value, weight) <= hi as real * SumOf(bs, weight) && SumOf(bs, weight) >= 0.0
  {
    hide AtMost, Weighted, PositivePart;
    if bs != [] {
      AtMostRest(bs, value, hi);
      WeightedRange(bs[1..], value, weight, hi);
      var v, w := value(bs[0]), weight(bs[0]);
      OneWeight(v, w, hi);
      WeightsAdd(Weighted(v, w), PositivePart(w), WeightedOf(bs[1..], value, weight), SumOf(bs[1..], weight), hi as real);
    }
  }

  lemma Scale(x: real, y: real, m: real)
    requires m > 0.0 && x <= y
    ensures x * m <= y * m
  {
    if x < y {
      RealScale(y, x, m);
    }
  }

  lemma Below(x: real, y: real, m: real, total: real)
    requires m > 0.0 && x < y + 1.0 && x * m == total
    ensures total < y * m + m
  {
    Distribute(m, y, 1.0);
    RealScale(y + 1.0, x, m);
    assert (y + 1.0) * m == m * (y + 1.0) && m * y == y * m;
  }

  lemma FloorTimes(x: real, q: int, m: real, total: real)
    requires m > 0.0 && q as real <= x < q as real + 1.0 && x * m == total
    ensures q as real * m <= total < q as real * m + m
  {
    Scale(q as real, x, m);
    Below(x, q as real, m, total);
  }

  lemma QuotientTimes(x: real, m: real)
    requires m > 0.0
    ensures x / m * m == x
  {
  }

  lemma FloorOf(x: real, m: real)
    requires m > 0.0 && 0.0 <= x <= 100.0 * m
    ensures var q := Trunc(x / m); 0 <= q <= 100 && q as real * m <= x < q as real * m + m
  {
    var y := x / m;
    QuotientTimes(x, m);
    RealCancel(0.0, y, m);
    RealCancel(y, 100.0, m);
    FloorTimes(y, Trunc(y), m, x);
  }

  lemma ShareIs(w: real, m: real)
    requires m > 0.0 && 0.0 <= w <= 100.0 * m
    ensures Share(w, m) as real * m <= w < Share(w, m) as real * m + m
  {
    FloorOf(w, m);
  }

  lemma SharesShown(bs: seq<BatteryData>)
    requires |bs| >= 2
    ensures var t := AddAll(ZERO, bs);
      Combined(bs).charge == Share(t.charge, t.max) && Combined(bs).health == Share(t.health, t.design)
  {
    hide AddAll, Share, Minutes, Condition;
  }

  /** The charge shown for several batteries is the mean weighted with the capacity, rounded down. */
  lemma ChargeIsWeighted(bs: seq<BatteryData>)
    requires |bs| >= 2 && AtMost(bs, ChargeOf, 100)
    ensures var q, m, w := Combined(bs).charge, SumOf(bs, MaxOf), WeightedOf(bs, ChargeOf, MaxOf);
      m > 0.0 ==> q as real * m <= w < q as real * m + m
  {
    hide AddAll, SumOf, WeightedOf, AtMost, Share, Combined;
    SharesShown(bs);
    AddsUp(ZERO, bs);
    WeightsAddUp(ZERO, bs);
    WeightedRange(bs, ChargeOf, MaxOf, 100);
    if SumOf(bs, MaxOf) > 0.0 {
      ShareIs(WeightedOf(bs, ChargeOf, MaxOf), SumOf(bs, MaxOf));
    }
  }

  /** And the health is the mean weighted with the design capacity. */
  lemma HealthIsWeighted(bs: seq<BatteryData>)
    requires |bs| >= 2 && AtMost(bs, HealthOf, 100)
    ensures var q, m, w := Combined(bs).health, SumOf(bs, DesignOf), WeightedOf(bs, HealthOf, DesignOf);
      m > 0.0 ==> q as real * m <= w < q as real * m + m
  {
    hide AddAll, SumOf, WeightedOf, AtMost, Share, Combined;
    SharesShown(bs);
    AddsUp(ZERO, bs);
    WeightsAddUp(ZERO, bs);
    WeightedRange(bs, HealthOf, DesignOf, 100);
    if SumOf(bs, DesignOf) > 0.0 {
      ShareIs(WeightedOf(bs, HealthOf, DesignOf), SumOf(bs, DesignOf));
    }
  }

  /** `static_cast<int>` drops the fraction. */
  lemma TruncIs(x: real)
    ensures x >= 0.0 ==> Trunc(x) as real <= x < Trunc(x) as real + 1.0
    ensures x <= 0.0 ==> Trunc(x) as real - 1.0 < x <= Trunc(x) as real
  {
  }

  lemma Regroup(h: real, amps: real, volts: real)
    ensures h * (amps * volts) == (h * amps) * volts
  {
  }

  lemma HoursAre(current: real, power: real, volts: real)
    requires power > 0.0 && volts > 0.0
    ensures HoursLeft(current, power, volts) * 60.0 * (1000.0 * power) == current * volts * 60.0
  {
    var h := HoursLeft(current, power, volts);
    var amps := power / volts;
    assert amps * volts == power;
    assert h * amps == current / 1000.0;
    Regroup(h, amps, volts);
    assert h * power == (current / 1000.0) * volts;
  }

  lemma Positive(a: real, b: real)
    requires a > 0.0 && b > 0.0
    ensures a * b * 60.0 > 0.0
  {
  }

  /** The minutes shown for several batteries that discharge: their charge, at the voltage of the first one, lasts that long
      and less than a minute longer at their power. */
  lemma MinutesLast(bs: seq<BatteryData>)
    requires |bs| >= 2
    ensures var d := Combined(bs);
      var volts := if bs[0].primary.voltageMv > 0 then bs[0].primary.voltageMv as real / 1000.0 else 1.0;
      if !d.charging && d.power > 0.0 && d.currentMah > 0.0
      then d.minutes >= 0
           && d.minutes as real * (1000.0 * d.power) <= d.currentMah * volts * 60.0 < d.minutes as real * (1000.0 * d.power) + 1000.0 * d.power
      else d.minutes == -1
  {
    hide AddAll, HoursLeft, Trunc;
    var d, t := Combined(bs), AddAll(ZERO, bs);
    var volts := if bs[0].primary.voltageMv > 0 then bs[0].primary.voltageMv as real / 1000.0 else 1.0;
    if !d.charging && d.power > 0.0 && d.currentMah > 0.0 {
      var x := HoursLeft(t.current, t.power, volts) * 60.0;
      HoursAre(t.current, t.power, volts);
      assert x >= 0.0 by {
        Positive(t.current, volts);
        RealCancel(0.0, x, 1000.0 * t.power);
      }
      TruncIs(x);
      FloorTimes(x, Trunc(x), 1000.0 * t.power, t.current * volts * 60.0);
    }
  }

  /** The word for a health shown. */
  lemma ConditionWords(bs: seq<BatteryData>)
    requires |bs| >= 2
    ensures var d := Combined(bs);
      && (d.health >= 80 ==> d.condition == "Good") && (60 <= d.health < 80 ==> d.condition == "Fair")
      && (0 <= d.health < 60 ==> d.condition == "Replace") && (d.health < 0 ==> d.condition == "")
  {
  }

  predicate Hottest(bs: seq<BatteryData>, x: real) {
    && (forall i | 0 <= i < |bs| && bs[i].temperature >= 0.0 :: bs[i].temperature <= x)
    && (x == -1.0 || exists i :: 0 <= i < |bs| && bs[i].temperature == x)
  }

  lemma {:induction false} AddAllSnoc(t: Totals, bs: seq<BatteryData>, b: BatteryData)
    ensures AddAll(t, bs + [b]) == Add(AddAll(t, bs), b)
    decreases |bs|
  {
    hide Add;
    if bs == [] {
      assert [] + [b] == [b] && [b][1..] == [];
    } else {
      assert (bs + [b])[1..] == bs[1..] + [b];
      AddAllSnoc(Add(t, bs[0]), bs[1..], b);
    }
  }

  lemma {:induction false} FlagsAndHeat(bs: seq<BatteryData>)
    ensures var r := AddAll(ZERO, bs);
      && (r.charging <==> exists i :: 0 <= i < |bs| && bs[i].charging)
      && (r.pluggedIn <==> exists i :: 0 <= i < |bs| && bs[i].pluggedIn)
      && (r.full <==> forall i | 0 <= i < |bs| :: bs[i].status == "Full")
      && Hottest(bs, r.temperature)
    decreases |bs|
  {
    if bs != [] {
      var n := |bs| - 1;
      var front, b := bs[..n], bs[n];
      assert bs == front + [b];
      FlagsAndHeat(front);
      hide AddAll;
      AddAllSnoc(ZERO, front, b);
      assert forall i | 0 <= i < n :: bs[i] == front[i];
      assert AddAll(ZERO, bs) == Add(AddAll(ZERO, front), b);
    }
  }

  lemma DifferentWords()
    ensures "Charging" != "Full" && "Discharging" != "Full"
  {
    assert |"Full"| == 4 && |"Charging"| == 8 && |"Discharging"| == 11;
  }

  /** Several batteries are charging if one is, full if all are and none is charging, and as warm as the warmest. */
  lemma StatusAndHeat(bs: seq<BatteryData>)
    requires |bs| >= 2
    ensures var d := Combined(bs);
      && (d.charging <==> exists i :: 0 <= i < |bs| && bs[i].charging)
      && (d.pluggedIn <==> exists i :: 0 <= i < |bs| && bs[i].pluggedIn)
      && (d.charging ==> d.status == "Charging")
      && (!d.charging && (forall i | 0 <= i < |bs| :: bs[i].status == "Full") ==> d.status == "Full")
      && (!d.charging && (exists i :: 0 <= i < |bs| && bs[i].status != "Full") ==> d.status == "Discharging")
      && Hottest(bs, d.temperature)
  {
    hide AddAll;
    FlagsAndHeat(bs);
    DifferentWords();
  }

  // ---- Unknown charges and healths ----

  function Emptied(b: BatteryData): BatteryData {
    b.(charge := if b.charge < 0 then 0 else b.charge, health := if b.health < 0 then 0 else b.health)
  }

  function AllEmptied(bs: seq<BatteryData>): (r: seq<BatteryData>)
    ensures |r| == |bs|
    ensures forall i | 0 <= i < |bs| :: r[i] == Emptied(bs[i])
  {
    if bs == [] then [] else [Emptied(bs[0])] + AllEmptied(bs[1..])
  }

  lemma EmptiedAdd(t: Totals, b: BatteryData)
    ensures Add(t, Emptied(b)) == Add(t, b)
  {
    assert 0 as real * b.maxMah == 0.0 && 0 as real * b.designMah == 0.0;
  }

  lemma {:induction false} EmptiedAdds(t: Totals, bs: seq<BatteryData>)
    ensures AddAll(t, AllEmptied(bs)) == AddAll(t, bs)
    decreases |bs|
  {
    hide Add, Emptied;
    if bs != [] {
      EmptiedAdd(t, bs[0]);
      EmptiedAdds(Add(t, bs[0]), bs[1..]);
      assert AllEmptied(bs)[1..] == AllEmptied(bs[1..]);
    }
  }

  /** A battery whose charge is unknown counts as an empty one, and one whose health is unknown as worn out. */
  lemma UnknownCountsAsEmpty(bs: seq<BatteryData>)
    requires |bs| >= 2
    ensures Combined(AllEmptied(bs)) == Combined(bs)
  {
    EmptiedAdds(ZERO, bs);
  }

  // ---- The order of the batteries ----

  lemma AddCommutes(t: Totals, a: BatteryData, b: BatteryData)
    ensures Add(Add(t, a), b) == Add(Add(t, b), a)
  {
  }

  lemma {:induction false} AddMoves(t: Totals, a: seq<BatteryData>, b: BatteryData, c: seq<BatteryData>)
    ensures AddAll(t, a + [b] + c) == AddAll(Add(t, b), a + c)
    decreases |a|
  {
    hide Add;
    if a == [] {
      assert a + [b] + c == [b] + c && ([b] + c)[1..] == c && a + c == c;
    } else {
      AddCommutes(t, b, a[0]);
      AddMoves(Add(t, a[0]), a[1..], b, c);
      assert (a + [b] + c)[1..] == a[1..] + [b] + c;
      assert (a + c)[1..] == a[1..] + c;
    }
  }

  lemma WithoutOne(s: seq<BatteryData>, i: nat)
    requires i < |s|
    ensures multiset(s[..i] + s[i + 1..]) == multiset(s) - multiset{s[i]}
  {
    assert s == s[..i] + [s[i]] + s[i + 1..];
  }

  /** The totals do not depend on the order of the batteries. */
  lemma {:induction false} TotalsOfAnyOrder(t: Totals, a: seq<BatteryData>, b: seq<BatteryData>)
    requires multiset(a) == multiset(b)
    ensures AddAll(t, a) == AddAll(t, b)
    decreases |a|
  {
    hide Add;
    if a == [] {
      assert multiset(b) == multiset{};
      assert b == [];
    } else {
      var x := a[0];
      assert x in multiset(b);
      var i :| 0 <= i < |b| && b[i] == x;
      assert b == b[..i] + [x] + b[i + 1..];
      assert a == [x] + a[1..];
      AddMoves(t, b[..i], x, b[i + 1..]);
      WithoutOne(a, 0);
      WithoutOne(b, i);
      assert a[..0] + a[1..] == a[1..];
      TotalsOfAnyOrder(Add(t, x), a[1..], b[..i] + b[i + 1..]);
    }
  }

  /** Totals, charge, health, status and temperature do not depend on the order; the remaining minutes and what is taken
      from the first battery do. */
  lemma OrderDoesNotMatter(a: seq<BatteryData>, b: seq<BatteryData>)
    requires multiset(a) == multiset(b)
    ensures |a| == |b|
    ensures Combined(a).(minutes := 0, primary := NO_PRIMARY) == Combined(b).(minutes := 0, primary := NO_PRIMARY)
  {
    hide AddAll;
    TotalsOfAnyOrder(ZERO, a, b);
    assert |a| == |multiset(a)| && |b| == |multiset(b)|;
    if |a| == 1 {
      assert a == [a[0]] && b == [b[0]];
      assert a[0] in multiset(b);
    }
  }

  // ---- Discovery ----

  predicate DistinctNames(es: seq<Entry>) {
    forall i, j | 0 <= i < j < |es| :: es[i].name != es[j].name
  }

  lemma {:induction false} SelectedIs(es: seq<Entry>, bat: bool, x: string)
    ensures x in Selected(es, bat) <==> exists i :: 0 <= i < |es| && es[i].name == x && IsBattery(es[i]) && IsBat(es[i]) == bat
  {
    hide IsBattery, IsBat;
    if es != [] {
      SelectedIs(es[1..], bat, x);
      assert forall i | 1 <= i < |es| :: es[i] == es[1..][i - 1];
    }
  }

  lemma {:induction false} SelectedOnce(es: seq<Entry>, bat: bool)
    requires DistinctNames(es)
    ensures Distinct(Selected(es, bat))
  {
    hide IsBattery, IsBat;
    if es != [] {
      SelectedOnce(es[1..], bat);
      SelectedIs(es[1..], bat, es[0].name);
    }
  }

  /** Discovery finds every battery exactly once, those called BAT first. */
  lemma DiscoveryIsExact(es: seq<Entry>, x: string)
    requires DistinctNames(es)
    ensures x in Discovered(es) <==> exists i :: 0 <= i < |es| && es[i].name == x && IsBattery(es[i])
    ensures Distinct(Discovered(es))
  {
    hide IsBattery, IsBat, Selected;
    SelectedIs(es, true, x);
    SelectedIs(es, false, x);
    SelectedOnce(es, true);
    SelectedOnce(es, false);
    var a, b := Selected(es, true), Selected(es, false);
    forall i, j | 0 <= i < |a| && 0 <= j < |b|
      ensures a[i] != b[j]
    {
      SelectedIs(es, true, a[i]);
      SelectedIs(es, false, b[j]);
    }
  }

  /** Which entries count: those whose type is Battery and, for the first scan, whose name starts with BAT, in any case. */
  lemma EntryIs(e: Entry)
    ensures IsBattery(e) <==> Lower(e.kind) == Lower("Battery")
    ensures IsBat(e) <==> |e.name| >= 3 && Lower(e.name[..3]) == Lower("BAT")
  {
    SameLower(e.kind, "Battery");
    if |e.name| >= 3 {
      SameLower(e.name[..3], "BAT");
    }
  }

  lemma {:induction false} SelectedAppend(a: seq<Entry>, b: seq<Entry>, bat: bool)
    ensures Selected(a + b, bat) == Selected(a, bat) + Selected(b, bat)
  {
    hide IsBattery, IsBat, Selected;
    if a == [] {
      SelectedNothing(bat);
      assert a + b == b;
    } else {
      SelectedAppend(a[1..], b, bat);
      assert (a + b)[1..] == a[1..] + b;
      SelectedNext(a, bat);
      SelectedNext(a + b, bat);
      Reassociate([a[0].name], Selected(a[1..], bat), Selected(b, bat));
    }
  }

  lemma SelectedAround(a: seq<Entry>, e: Entry, b: seq<Entry>, bat: bool)
    ensures Selected(a + [e] + b, bat)
         == Selected(a, bat) + (if IsBattery(e) && IsBat(e) == bat then [e.name] else []) + Selected(b, bat)
  {
    hide IsBattery, IsBat, Selected;
    SelectedAppend(a + [e], b, bat);
    SelectedAppend(a, [e], bat);
    SelectedNext([e], bat);
    SelectedNothing(bat);
    assert [e][1..] == [];
    assert [e.name] + [] == [e.name];
  }

  /** The order of discovery: the names with BAT come first, and of each kind the names come in the order of the directory. */
  lemma DiscoveryOrder(a: seq<Entry>, e: Entry, b: seq<Entry>)
    ensures Discovered(a + [e] + b)
         == (Selected(a, true) + (if IsBattery(e) && IsBat(e) then [e.name] else []) + Selected(b, true))
          + (Selected(a, false) + (if IsBattery(e) && !IsBat(e) then [e.name] else []) + Selected(b, false))
  {
    hide IsBattery, IsBat, Selected;
    SelectedAround(a, e, b, true);
    SelectedAround(a, e, b, false);
  }
}
