/** Runs of navigation events in any order: which page they end on. */
module Journeys {
  import opened Text
  import opened Slides
  import opened Navigation

  /** The page that an event asks for, if any. */
  function Asked(c: Config, kiosk: bool, e: Event): seq<string>
    requires c.order != []
  {
    match e
    case Navigate(id, _) => [if id in c.order then id else DASHBOARD]
    case Scan => [if CLEANER in c.order then CLEANER else DASHBOARD]
    case ToggleKiosk => if kiosk then [] else [DASHBOARD]
    case _ => []
  }

  function KioskAfter(kiosk: bool, e: Event): bool {
    if e.ToggleKiosk? then !kiosk else kiosk && !e.ExitKiosk?
  }

  /** The pages that the events of a run ask for, in order. */
  function Requests(c: Config, kiosk: bool, es: seq<Event>): seq<string>
    requires c.order != []
    decreases |es|
  {
    if es == [] then [] else Asked(c, kiosk, es[0]) + Requests(c, KioskAfter(kiosk, es[0]), es[1..])
  }

  function Last(first: string, rest: seq<string>): string {
    if rest == [] then first else rest[|rest| - 1]
  }

  lemma LastAppend(first: string, a: seq<string>, b: seq<string>)
    ensures Last(first, a + b) == Last(Last(first, a), b)
  {
  }

  /** What is on display when nothing is left to build. */
  predicate Shows(c: Config, v: View, id: string) {
    && v.pending == id && v.checked == id
    && v.target == (if id in c.buildable then PageOf(id) else Loading)
    && v.live == (if id in c.buildable && id in c.monitors then {PageOf(id)} else {})
    && (id in c.buildable ==> v.title == id)
  }

  lemma StartKeeps(c: Config, startPage: string)
    requires Registered(c)
    ensures Inv(c, Start(c, startPage))
    ensures Start(c, startPage).pending == if startPage in c.order then startPage else DASHBOARD
  {
    hide Inv, Go;
    var v := Initial(c);
    assert v.target in v.pages;
    GoOk(c, v, startPage);
  }

  lemma {:induction false} RunKeeps(c: Config, v: View, es: seq<Event>)
    requires Registered(c) && Inv(c, v)
    ensures Inv(c, Run(c, v, es)) && v.pages <= Run(c, v, es).pages
    decreases |es|
  {
    hide Inv, Step;
    if es != [] {
      StepKeeps(c, v, es[0]);
      RunKeeps(c, Step(c, v, es[0]), es[1..]);
    }
  }

  lemma StepPending(c: Config, v: View, e: Event)
    requires Registered(c) && Inv(c, v)
    ensures Step(c, v, e).pending == Last(v.pending, Asked(c, v.kiosk, e))
    ensures Step(c, v, e).kiosk == KioskAfter(v.kiosk, e)
  {
    hide Inv;
    if e.BuildAll? {
      EnsureFromKeeps(c, v, 0);
    } else if e.Fire? {
      FireKeeps(c, v, e.id);
    } else if e.ToggleKiosk? && !v.kiosk {
      EnterKeeps(c, v);
    } else if e.Navigate? {
      GoKeeps(c, v, e.id);
    } else if e.Scan? {
      GoKeeps(c, v, CLEANER);
    }
  }

  lemma {:induction false} RunPending(c: Config, v: View, es: seq<Event>)
    requires Registered(c) && Inv(c, v)
    ensures Run(c, v, es).pending == Last(v.pending, Requests(c, v.kiosk, es))
    decreases |es|
  {
    hide Inv, Step, Asked, KioskAfter;
    if es != [] {
      var w := Step(c, v, es[0]);
      StepKeeps(c, v, es[0]);
      StepPending(c, v, es[0]);
      RunPending(c, w, es[1..]);
      LastAppend(v.pending, Asked(c, v.kiosk, es[0]), Requests(c, w.kiosk, es[1..]));
    }
  }

  lemma SettledShows(c: Config, v: View)
    requires Inv(c, v) && v.pending !in v.timers
    ensures Shows(c, v, v.pending)
  {
  }

  /** Last navigation wins: after any events from start-up on, the pending id is the last one asked for, and once its
      timer has fired that page is on display, its button is checked and it alone is active. */
  lemma LastNavigationWins(c: Config, startPage: string, es: seq<Event>)
    requires Registered(c)
    ensures var v := Run(c, Start(c, startPage), es);
      var id := Last(if startPage in c.order then startPage else DASHBOARD, Requests(c, false, es));
      && Inv(c, v)
      && v.pending == id && v.checked == id
      && (id !in v.timers ==> Shows(c, v, id))
      && (id in v.timers ==> v.target == Loading || v.target == PageOf(id))
  {
    var s := Start(c, startPage);
    StartKeeps(c, startPage);
    RunKeeps(c, s, es);
    RunPending(c, s, es);
    var v := Run(c, s, es);
    if v.pending !in v.timers {
      SettledShows(c, v);
    }
  }

  // ---- Draining the queue ----

  function Fires(ids: seq<string>): seq<Event> {
    if ids == [] then [] else [Fire(ids[0])] + Fires(ids[1..])
  }

  lemma FireBuilds(c: Config, v: View, id: string, x: string)
    requires Inv(c, v) && id in v.timers
    ensures PageOf(x) in FireTimer(c, v, id).pages <==>
            PageOf(x) in v.pages || (x == id && x in c.buildable)
  {
  }

  lemma FirstOf(ids: seq<string>, timers: multiset<string>)
    requires multiset(ids) == timers && ids != []
    ensures ids[0] in timers && multiset(ids[1..]) == timers - multiset{ids[0]}
    ensures forall x :: x in timers <==> x == ids[0] || x in timers - multiset{ids[0]}
  {
    assert ids == [ids[0]] + ids[1..];
  }

  lemma {:induction false} DrainEmpties(c: Config, v: View, ids: seq<string>)
    requires Registered(c) && Inv(c, v) && multiset(ids) == v.timers
    ensures var w := Run(c, v, Fires(ids)); Inv(c, w) && w.timers == multiset{} && w.pending == v.pending
    decreases |ids|
  {
    hide Inv, FireTimer;
    if ids != [] {
      FirstOf(ids, v.timers);
      FireKeeps(c, v, ids[0]);
      DrainEmpties(c, FireTimer(c, v, ids[0]), ids[1..]);
      assert Fires(ids)[1..] == Fires(ids[1..]);
    }
  }

  lemma {:induction false} DrainBuilds(c: Config, v: View, ids: seq<string>, x: string)
    requires Registered(c) && Inv(c, v) && multiset(ids) == v.timers
    ensures PageOf(x) in Run(c, v, Fires(ids)).pages <==> PageOf(x) in v.pages || (x in v.timers && x in c.buildable)
    decreases |ids|
  {
    hide Inv, FireTimer;
    if ids != [] {
      FirstOf(ids, v.timers);
      FireKeeps(c, v, ids[0]);
      FireBuilds(c, v, ids[0], x);
      DrainBuilds(c, FireTimer(c, v, ids[0]), ids[1..], x);
      assert Fires(ids)[1..] == Fires(ids[1..]);
    }
  }

  /** Whatever the order in which the queued timers fire, the last navigation's page is on display at the end, and the
      same pages have been built. */
  lemma DrainShowsLast(c: Config, startPage: string, es: seq<Event>, ids: seq<string>)
    requires Registered(c) && multiset(ids) == Run(c, Start(c, startPage), es).timers
    ensures var v := Run(c, Start(c, startPage), es);
      var w := Run(c, v, Fires(ids));
      && w.timers == multiset{}
      && Shows(c, w, Last(if startPage in c.order then startPage else DASHBOARD, Requests(c, false, es)))
      && forall x :: PageOf(x) in w.pages <==> PageOf(x) in v.pages || (x in v.timers && x in c.buildable)
  {
    hide Inv, Step;
    var v := Run(c, Start(c, startPage), es);
    LastNavigationWins(c, startPage, es);
    DrainEmpties(c, v, ids);
    SettledShows(c, Run(c, v, Fires(ids)));
    forall x
      ensures PageOf(x) in Run(c, v, Fires(ids)).pages <==> PageOf(x) in v.pages || (x in v.timers && x in c.buildable)
    {
      DrainBuilds(c, v, ids, x);
    }
  }

  lemma LateTimer(c: Config, v: View, id: string)
    requires id != v.pending
    ensures var w := FireTimer(c, v, id); w == v.(pages := w.pages, timers := w.timers, runs := w.runs)
  {
  }

  /** Timers for pages that are no longer wanted, however many and in whatever order, build these pages at most and change
      nothing that is seen. */
  lemma {:induction false} LateTimers(c: Config, v: View, ids: seq<string>)
    requires c.order != [] && v.pending !in ids
    ensures var w := Run(c, v, Fires(ids)); w == v.(pages := w.pages, timers := w.timers, runs := w.runs)
    decreases |ids|
  {
    hide FireTimer;
    if ids != [] {
      LateTimer(c, v, ids[0]);
      LateTimers(c, FireTimer(c, v, ids[0]), ids[1..]);
      assert Fires(ids)[1..] == Fires(ids[1..]);
    }
  }

  // ---- Lazy construction and kiosk mode ----

  /** The factory of a page that can be built has run once if the page is in the stack, and never otherwise. */
  predicate RunsOk(c: Config, v: View) {
    forall id | id in c.buildable :: multiset(v.runs)[id] == if PageOf(id) in v.pages then 1 else 0
  }

  lemma RunsUnchanged(c: Config, v: View, w: View)
    requires RunsOk(c, v) && w.runs == v.runs && forall id :: PageOf(id) in w.pages <==> PageOf(id) in v.pages
    ensures RunsOk(c, w)
  {
  }

  lemma EnsureRuns(c: Config, v: View, id: string)
    requires RunsOk(c, v)
    ensures RunsOk(c, Ensure(c, v, id)) && v.runs <= Ensure(c, v, id).runs
  {
  }

  lemma {:induction false} EnsureFromRuns(c: Config, v: View, i: nat)
    requires RunsOk(c, v) && i <= |c.order|
    ensures RunsOk(c, EnsureFrom(c, v, i)) && v.runs <= EnsureFrom(c, v, i).runs
    decreases |c.order| - i
  {
    hide RunsOk, Ensure;
    if i < |c.order| {
      EnsureRuns(c, v, c.order[i]);
      EnsureFromRuns(c, Ensure(c, v, c.order[i]), i + 1);
    }
  }

  lemma GoRuns(c: Config, v: View, id: string)
    requires c.order != [] && RunsOk(c, v)
    ensures RunsOk(c, Go(c, v, id)) && v.runs == Go(c, v, id).runs
  {
    hide RunsOk, LiveAfter, TitleAfter;
    RunsUnchanged(c, v, Go(c, v, id));
  }

  lemma FireRuns(c: Config, v: View, id: string)
    requires RunsOk(c, v)
    ensures RunsOk(c, FireTimer(c, v, id)) && v.runs <= FireTimer(c, v, id).runs
  {
    hide RunsOk, Ensure, LiveAfter, TitleAfter;
    var u := v.(timers := v.timers - multiset{id});
    RunsUnchanged(c, v, u);
    EnsureRuns(c, u, id);
    if id in v.timers {
      RunsUnchanged(c, Ensure(c, u, id), FireTimer(c, v, id));
    }
  }

  lemma EnterRuns(c: Config, v: View)
    requires c.order != [] && RunsOk(c, v)
    ensures RunsOk(c, EnterKiosk(c, v)) && v.runs <= EnterKiosk(c, v).runs
  {
    hide RunsOk, Ensure, LiveAfter, TitleAfter;
    var u := v.(kiosk := true, pending := DASHBOARD);
    RunsUnchanged(c, v, u);
    EnsureRuns(c, u, c.order[0]);
    RunsUnchanged(c, Ensure(c, u, c.order[0]), EnterKiosk(c, v));
  }

  lemma StepRuns(c: Config, v: View, e: Event)
    requires c.order != [] && RunsOk(c, v)
    ensures RunsOk(c, Step(c, v, e)) && v.runs <= Step(c, v, e).runs
  {
    hide RunsOk, Ensure, Go, FireTimer, EnterKiosk;
    match e
    case Navigate(id, show) => GoRuns(c, v, id);
    case Fire(id) => FireRuns(c, v, id);
    case Build(id) => EnsureRuns(c, v, id);
    case BuildAll => EnsureFromRuns(c, v, 0);
    case Scan => GoRuns(c, v, CLEANER); EnsureRuns(c, Go(c, v, CLEANER), CLEANER);
    case ToggleKiosk => if v.kiosk { RunsUnchanged(c, v, v.(kiosk := false)); } else { EnterRuns(c, v); }
    case ExitKiosk => RunsUnchanged(c, v, v.(kiosk := false));
    case ToggleSidebar =>
    case ShowWindow(visible) =>
  }

  lemma {:induction false} RunRuns(c: Config, v: View, es: seq<Event>)
    requires c.order != [] && RunsOk(c, v)
    ensures RunsOk(c, Run(c, v, es)) && v.runs <= Run(c, v, es).runs
    decreases |es|
  {
    hide RunsOk, Step;
    if es != [] {
      StepRuns(c, v, es[0]);
      RunRuns(c, Step(c, v, es[0]), es[1..]);
    }
  }

  lemma StartRuns(c: Config, startPage: string)
    requires Registered(c)
    ensures RunsOk(c, Start(c, startPage))
  {
    hide Go;
    GoRuns(c, Initial(c), startPage);
  }

  /** A factory that yields a page runs at most once in a run: once if its page is in the stack, where it then stays. */
  lemma BuiltOnce(c: Config, startPage: string, before: seq<Event>, after: seq<Event>, id: string)
    requires Registered(c) && id in c.buildable
    ensures var v := Run(c, Start(c, startPage), before);
      var w := Run(c, v, after);
      && v.pages <= w.pages && Distinct(w.pages) && v.runs <= w.runs
      && multiset(w.runs)[id] == if PageOf(id) in w.pages then 1 else 0
  {
    hide Run, Start;
    var s := Start(c, startPage);
    StartKeeps(c, startPage);
    StartRuns(c, startPage);
    RunKeeps(c, s, before);
    RunRuns(c, s, before);
    RunKeeps(c, Run(c, s, before), after);
    RunRuns(c, Run(c, s, before), after);
  }

  /** The number of events that build the page outright. */
  function Builds(es: seq<Event>, id: string): nat {
    if es == [] then 0 else (if es[0] == Build(id) || es[0] == BuildAll then 1 else 0) + Builds(es[1..], id)
  }

  lemma EnsureFails(c: Config, v: View, x: string, id: string)
    requires Inv(c, v) && id in c.order && id !in c.buildable
    ensures multiset(Ensure(c, v, x).runs)[id] == multiset(v.runs)[id] + if x == id then 1 else 0
  {
  }

  lemma {:induction false} EnsureFromFails(c: Config, v: View, i: nat, id: string)
    requires Inv(c, v) && i <= |c.order| && id in c.order && id !in c.buildable
    ensures multiset(EnsureFrom(c, v, i).runs)[id] >= multiset(v.runs)[id] + if id in c.order[i..] then 1 else 0
    decreases |c.order| - i
  {
    hide Inv, Ensure;
    if i < |c.order| {
      EnsureFails(c, v, c.order[i], id);
      EnsureKeeps(c, v, c.order[i]);
      EnsureFromFails(c, Ensure(c, v, c.order[i]), i + 1, id);
      assert c.order[i..] == [c.order[i]] + c.order[i + 1..];
    }
  }

  lemma FireRunsMore(c: Config, v: View, x: string, id: string)
    ensures multiset(FireTimer(c, v, x).runs)[id] >= multiset(v.runs)[id]
  {
  }

  lemma EnterRunsMore(c: Config, v: View, id: string)
    requires c.order != []
    ensures multiset(EnterKiosk(c, v).runs)[id] >= multiset(v.runs)[id]
  {
  }

  lemma StepFails(c: Config, v: View, e: Event, id: string)
    requires Registered(c) && Inv(c, v) && id in c.order && id !in c.buildable
    ensures multiset(Step(c, v, e).runs)[id] >= multiset(v.runs)[id] + Builds([e], id)
  {
    hide Inv, Ensure, FireTimer, EnterKiosk;
    assert Builds([e], id) == if e == Build(id) || e == BuildAll then 1 else 0;
    match e
    case Navigate(_, _) =>
    case Fire(x) => FireRunsMore(c, v, x, id);
    case Build(x) => EnsureFails(c, v, x, id);
    case BuildAll => assert c.order[0..] == c.order; EnsureFromFails(c, v, 0, id);
    case Scan => GoKeeps(c, v, CLEANER); EnsureFails(c, Go(c, v, CLEANER), CLEANER, id);
    case ToggleKiosk => EnterRunsMore(c, v, id);
    case ExitKiosk =>
    case ToggleSidebar =>
    case ShowWindow(_) =>
  }

  /** A factory that yields none runs again each time its page is to be built, in every run. */
  lemma {:induction false} FailedFactoryRunsAgain(c: Config, v: View, es: seq<Event>, id: string)
    requires Registered(c) && Inv(c, v) && id in c.order && id !in c.buildable
    ensures multiset(Run(c, v, es).runs)[id] >= multiset(v.runs)[id] + Builds(es, id)
    decreases |es|
  {
    hide Inv, Step;
    if es != [] {
      StepKeeps(c, v, es[0]);
      StepFails(c, v, es[0], id);
      FailedFactoryRunsAgain(c, Step(c, v, es[0]), es[1..], id);
      assert Builds([es[0]], id) + Builds(es[1..], id) == Builds(es, id);
    }
  }

  predicate AsksForPage(e: Event) {
    e.Navigate? || e.Scan?
  }

  predicate Idle(es: seq<Event>) {
    es == [] || (!AsksForPage(es[0]) && Idle(es[1..]))
  }

  predicate OnDashboard(v: View) {
    v.pending == DASHBOARD && v.checked == DASHBOARD && v.target == PageOf(DASHBOARD)
  }

  lemma IdleStep(c: Config, v: View, e: Event)
    requires Registered(c) && Inv(c, v) && OnDashboard(v) && !AsksForPage(e)
    ensures OnDashboard(Step(c, v, e))
  {
    if e.BuildAll? {
      EnsureFromKeeps(c, v, 0);
    }
  }

  lemma {:induction false} IdleRun(c: Config, v: View, es: seq<Event>)
    requires Registered(c) && Inv(c, v) && OnDashboard(v) && Idle(es)
    ensures OnDashboard(Run(c, v, es))
    decreases |es|
  {
    hide Inv, Step;
    if es != [] {
      StepKeeps(c, v, es[0]);
      IdleStep(c, v, es[0]);
      IdleRun(c, Step(c, v, es[0]), es[1..]);
    }
  }

  lemma EntersChecked(c: Config, v: View)
    requires Registered(c)
    ensures EnterKiosk(c, v).checked == DASHBOARD
  {
  }

  /** Entering kiosk mode shows the dashboard, and no timer queued before can take it away. */
  lemma KioskStays(c: Config, v: View, es: seq<Event>)
    requires Registered(c) && Inv(c, v) && !v.kiosk && Idle(es)
    ensures OnDashboard(Run(c, Step(c, v, ToggleKiosk), es))
  {
    hide Inv;
    EnterKeeps(c, v);
    EntersChecked(c, v);
    IdleRun(c, EnterKiosk(c, v), es);
  }
}
