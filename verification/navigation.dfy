/** Navigation as its callers see it: the page stack switches at once, and queued timers build pages later
    (shared/nexis/app.cpp). */
module Navigation {
  import opened Text
  import opened Slides

  const DASHBOARD := "dashboard"
  const CLEANER := "systemCleaner"

  /** The registered slots: their ids in sidebar order, those whose factory yields a page, and those whose page is told
      when it is shown and when it is left. */
  datatype Config = Config(order: seq<string>, buildable: set<string>, monitors: set<string>)

  /** What start-up establishes: distinct ids, the dashboard first. */
  predicate Registered(c: Config) {
    Distinct(c.order) && c.order != [] && c.order[0] == DASHBOARD && DASHBOARD in c.buildable
  }

  /** The page stack, the page that is up or sliding in, the pending id, the queued timers, the checked button, the pages
      activated since they were last deactivated, the id of the page the window title names, kiosk mode, and the ids whose
      factory has run. */
  datatype View = View(
    pages: seq<Page>, target: Page, pending: string, timers: multiset<string>,
    checked: string, live: set<Page>, title: string, kiosk: bool, runs: seq<string>)

  datatype Event =
    | Navigate(id: string, show: bool)
    | Fire(id: string)
    | Build(id: string)
    | BuildAll
    | Scan
    | ToggleKiosk
    | ExitKiosk
    | ToggleSidebar
    | ShowWindow(visible: bool)

  predicate Monitored(c: Config, p: Page) {
    p.PageOf? && p.id in c.monitors
  }

  /** `slotIndexById`, with the fallback of `navigateTo`. */
  function Resolve(c: Config, id: string): string
    requires c.order != []
  {
    if id in c.order then id else c.order[0]
  }

  /** The active pages after a change from one page to another. */
  function LiveAfter(c: Config, live: set<Page>, from: Page, to: Page): set<Page> {
    var left := if from != to && Monitored(c, from) then live - {from} else live;
    if Monitored(c, to) then left + {to} else left
  }

  function TitleAfter(c: Config, title: string, to: Page): string {
    if to.PageOf? && to.id in c.order then to.id else title
  }

  /** `pageClick` on a page of the stack. */
  function Click(c: Config, v: View, p: Page): View {
    v.(target := p, live := LiveAfter(c, v.live, v.target, p), title := TitleAfter(c, v.title, p))
  }

  /** `ensurePageById`: a page that is not in the stack is made, if its factory yields one. */
  function Ensure(c: Config, v: View, id: string): View {
    if id !in c.order || PageOf(id) in v.pages then v
    else v.(runs := v.runs + [id], pages := if id in c.buildable then v.pages + [PageOf(id)] else v.pages)
  }

  /** `ensureAllPages`, from slot i on. */
  function EnsureFrom(c: Config, v: View, i: nat): View
    requires i <= |c.order|
    decreases |c.order| - i
  {
    if i == |c.order| then v else EnsureFrom(c, Ensure(c, v, c.order[i]), i + 1)
  }

  lemma EnsureFromNext(c: Config, v: View, i: nat)
    requires i < |c.order|
    ensures EnsureFrom(c, v, i) == EnsureFrom(c, Ensure(c, v, c.order[i]), i + 1)
    ensures PageOf(c.order[i]) in v.pages ==> EnsureFrom(c, v, i) == EnsureFrom(c, v, i + 1)
  {
  }

  lemma EnsureFromEnds(c: Config, v: View)
    ensures EnsureFrom(c, v, |c.order|) == v
  {
  }

  /** The placeholder comes up; it is added to the stack the first time. */
  function Wait(c: Config, v: View): View {
    Click(c, if Loading in v.pages then v else v.(pages := v.pages + [Loading]), Loading)
  }

  /** A built page comes up; otherwise the placeholder does, and a timer is queued. */
  function ShowOrQueue(c: Config, v: View, id: string): View {
    if PageOf(id) in v.pages then Click(c, v, PageOf(id))
    else
      var shown := Wait(c, v);
      shown.(timers := shown.timers + multiset{id})
  }

  /** `navigateTo` */
  function Go(c: Config, v: View, id: string): View
    requires c.order != []
    ensures Go(c, v, id).kiosk == v.kiosk
  {
    var r := Resolve(c, id);
    ShowOrQueue(c, v.(pending := r, checked := r), r)
  }

  /** The callback of the timer that `navigateTo` queues. */
  function FireTimer(c: Config, v: View, id: string): View {
    if id !in v.timers then v
    else
      var w := Ensure(c, v.(timers := v.timers - multiset{id}), id);
      if id in c.order && PageOf(id) in w.pages && w.pending == id then Click(c, w, PageOf(id)) else w
  }

  /** `pageClick(ensurePage(0))` */
  function ClickFirst(c: Config, v: View): View
    requires c.order != []
  {
    var w := Ensure(c, v, c.order[0]);
    if PageOf(c.order[0]) in w.pages then Click(c, w, PageOf(c.order[0])) else w
  }

  /** Entering kiosk mode. */
  function EnterKiosk(c: Config, v: View): View
    requires c.order != []
  {
    var shown := ClickFirst(c, v.(kiosk := true, pending := DASHBOARD));
    if DASHBOARD in c.order then shown.(checked := DASHBOARD) else shown
  }

  lemma EnterIgnoresKiosk(c: Config, v: View)
    requires c.order != []
    ensures EnterKiosk(c, v.(kiosk := true)) == EnterKiosk(c, v)
  {
  }

  function Step(c: Config, v: View, e: Event): View
    requires c.order != []
  {
    match e
    case Navigate(id, show) => Go(c, v, id)
    case Fire(id) => FireTimer(c, v, id)
    case Build(id) => Ensure(c, v, id)
    case BuildAll => EnsureFrom(c, v, 0)
    case Scan => Ensure(c, Go(c, v, CLEANER), CLEANER)
    case ToggleKiosk => if v.kiosk then v.(kiosk := false) else EnterKiosk(c, v)
    case ExitKiosk => v.(kiosk := false)
    case ToggleSidebar => v
    case ShowWindow(visible) => v
  }

  function Run(c: Config, v: View, es: seq<Event>): View
    requires c.order != []
    decreases |es|
  {
    if es == [] then v else Run(c, Step(c, v, es[0]), es[1..])
  }

  function Initial(c: Config): View
    requires c.order != []
  {
    View([PageOf(c.order[0])], PageOf(c.order[0]), "", multiset{}, "", {}, "", false, [c.order[0]])
  }

  /** Start-up: the dashboard is built, then the start page is asked for. */
  function Start(c: Config, startPage: string): View
    requires c.order != []
  {
    Go(c, Initial(c), startPage)
  }

  // ---- What the steps do ----

  /** A request names the page it asks for, or the dashboard if there is no such page. A page that is built comes up at once;
      for another one the placeholder comes up, with its timer in the queue. */
  lemma GoIs(c: Config, v: View, id: string)
    requires Registered(c)
    ensures var w, r := Go(c, v, id), if id in c.order then id else DASHBOARD;
      && w.pending == r && w.checked == r && w.kiosk == v.kiosk && w.runs == v.runs
      && (if PageOf(r) in v.pages
          then w.target == PageOf(r) && w.title == r && w.timers == v.timers && w.pages == v.pages
          else w.target == Loading && w.title == v.title && w.timers == v.timers + multiset{r}
               && w.pages == if Loading in v.pages then v.pages else v.pages + [Loading])
  {
  }

  lemma GoUnfolds(c: Config, v: View, id: string)
    requires Registered(c)
    ensures var r := if id in c.order then id else DASHBOARD;
      Go(c, v, id) == ShowOrQueue(c, v.(pending := r, checked := r), r)
  {
  }

  /** A timer builds its page, and shows it if it is still the pending one. */
  lemma FireIs(c: Config, v: View, id: string)
    requires id in v.timers && id in c.order
    ensures var w := FireTimer(c, v, id);
      && w.timers == v.timers - multiset{id} && w.pending == v.pending && w.checked == v.checked && w.kiosk == v.kiosk
      && w.pages == (if id in c.buildable && PageOf(id) !in v.pages then v.pages + [PageOf(id)] else v.pages)
      && (PageOf(id) in w.pages && id == v.pending ==> w.target == PageOf(id) && w.title == id)
      && (PageOf(id) !in w.pages || id != v.pending ==> w.target == v.target && w.title == v.title)
  {
  }

  /** Building a page shows nothing. */
  lemma BuildIs(c: Config, v: View, id: string)
    ensures var w := Ensure(c, v, id);
      && w == v.(pages := w.pages, runs := w.runs)
      && w.pages == (if id in c.order && id in c.buildable && PageOf(id) !in v.pages then v.pages + [PageOf(id)] else v.pages)
  {
  }

  /** Entering kiosk mode shows the dashboard. */
  lemma EnterIs(c: Config, v: View)
    requires Registered(c)
    ensures var w := EnterKiosk(c, v);
      && w.kiosk && w.pending == DASHBOARD && w.checked == DASHBOARD && w.target == PageOf(DASHBOARD) && w.title == DASHBOARD
      && w.timers == v.timers
      && w.pages == if PageOf(DASHBOARD) in v.pages then v.pages else v.pages + [PageOf(DASHBOARD)]
  {
  }

  /** Building all pages builds all that can be built. */
  lemma {:induction false} BuildAllIs(c: Config, v: View, i: nat)
    requires i <= |c.order|
    ensures var w := EnsureFrom(c, v, i);
      && w == v.(pages := w.pages, runs := w.runs) && v.pages <= w.pages
      && forall k | i <= k < |c.order| && c.order[k] in c.buildable :: PageOf(c.order[k]) in w.pages
    decreases |c.order| - i
  {
    hide Ensure;
    if i < |c.order| {
      var u := Ensure(c, v, c.order[i]);
      BuildIs(c, v, c.order[i]);
      BuildAllIs(c, u, i + 1);
      assert c.order[i] in c.buildable ==> PageOf(c.order[i]) in u.pages;
      assert forall p | p in u.pages :: p in EnsureFrom(c, u, i + 1).pages;
    }
  }

  // ---- What every reachable state satisfies ----

  predicate Known(c: Config, p: Page) {
    p.PageOf? ==> p.id in c.order && p.id in c.buildable
  }

  predicate StackOk(c: Config, v: View) {
    Distinct(v.pages) && (forall p | p in v.pages :: Known(c, p)) && PageOf(DASHBOARD) in v.pages && v.target in v.pages
  }

  predicate QueueOk(c: Config, v: View) {
    forall id | id in v.timers :: id in c.order
  }

  /** The page on display is the pending one, or the placeholder stands in and a timer for the pending id is queued. */
  predicate Follows(c: Config, v: View) {
    v.target == PageOf(v.pending) || (v.target == Loading && (v.pending in v.timers || v.pending !in c.buildable))
  }

  /** The pages that believe they are on display are the one that is, if it is a monitored page. */
  predicate LiveOk(c: Config, v: View) {
    v.live == if Monitored(c, v.target) then {v.target} else {}
  }

  predicate Inv(c: Config, v: View) {
    && StackOk(c, v) && QueueOk(c, v) && Follows(c, v) && LiveOk(c, v)
    && v.pending in c.order && v.checked == v.pending
    && (v.target.PageOf? ==> v.title == v.target.id)
  }

  /** No page but the one on display is active. */
  predicate LiveIn(c: Config, v: View) {
    v.live <= if Monitored(c, v.target) then {v.target} else {}
  }

  lemma ClickLive(c: Config, v: View, p: Page)
    requires LiveIn(c, v)
    ensures LiveOk(c, Click(c, v, p))
  {
  }

  lemma EnsureOk(c: Config, v: View, id: string)
    requires StackOk(c, v)
    ensures StackOk(c, Ensure(c, v, id)) && v.pages <= Ensure(c, v, id).pages
    ensures PageOf(id) in Ensure(c, v, id).pages <==> id in c.order && id in c.buildable
  {
  }

  lemma EnsureKeeps(c: Config, v: View, id: string)
    requires Inv(c, v)
    ensures Inv(c, Ensure(c, v, id)) && v.pages <= Ensure(c, v, id).pages
  {
    EnsureOk(c, v, id);
  }

  lemma {:induction false} EnsureFromKeeps(c: Config, v: View, i: nat)
    requires Inv(c, v) && i <= |c.order|
    ensures Inv(c, EnsureFrom(c, v, i)) && v.pages <= EnsureFrom(c, v, i).pages
    ensures EnsureFrom(c, v, i).(pages := v.pages, runs := v.runs) == v
    decreases |c.order| - i
  {
    if i < |c.order| {
      EnsureKeeps(c, v, c.order[i]);
      EnsureFromKeeps(c, Ensure(c, v, c.order[i]), i + 1);
    }
  }

  lemma WaitOk(c: Config, v: View)
    requires StackOk(c, v) && LiveIn(c, v)
    ensures var w := Wait(c, v); StackOk(c, w) && LiveOk(c, w) && w.target == Loading && v.pages <= w.pages
  {
    var w := if Loading in v.pages then v else v.(pages := v.pages + [Loading]);
    ClickLive(c, w, Loading);
  }

  lemma WaitFrame(c: Config, v: View)
    ensures Wait(c, v).timers == v.timers && Wait(c, v).pending == v.pending && Wait(c, v).checked == v.checked
  {
  }

  lemma SameStack(c: Config, v: View, w: View)
    requires w.pages == v.pages && w.target == v.target && w.live == v.live
    ensures StackOk(c, w) == StackOk(c, v) && LiveIn(c, w) == LiveIn(c, v) && LiveOk(c, w) == LiveOk(c, v)
  {
  }

  /** Showing the pending page is right in every state. */
  lemma ClickPending(c: Config, v: View)
    requires StackOk(c, v) && QueueOk(c, v) && LiveIn(c, v) && PageOf(v.pending) in v.pages
    requires v.checked == v.pending
    ensures Inv(c, Click(c, v, PageOf(v.pending)))
  {
    hide Distinct;
    ClickLive(c, v, PageOf(v.pending));
  }

  /** A request is followed in every state, whatever was pending before. */
  lemma GoOk(c: Config, v: View, id: string)
    requires Registered(c) && StackOk(c, v) && QueueOk(c, v) && LiveIn(c, v)
    ensures Inv(c, Go(c, v, id)) && v.pages <= Go(c, v, id).pages
    ensures Go(c, v, id).pending == if id in c.order then id else DASHBOARD
  {
    hide StackOk, LiveIn, LiveOk, Distinct, Wait;
    var r := Resolve(c, id);
    var w := v.(pending := r, checked := r);
    SameStack(c, v, w);
    if PageOf(r) in v.pages {
      ClickPending(c, w);
    } else {
      WaitOk(c, w);
      var q := Wait(c, w);
      SameStack(c, q, q.(timers := q.timers + multiset{r}));
      WaitFrame(c, w);
    }
  }

  lemma GoKeeps(c: Config, v: View, id: string)
    requires Registered(c) && Inv(c, v)
    ensures Inv(c, Go(c, v, id)) && v.pages <= Go(c, v, id).pages
    ensures Go(c, v, id).pending == (if id in c.order then id else DASHBOARD) && Go(c, v, id).kiosk == v.kiosk
  {
    hide Distinct;
    GoOk(c, v, id);
  }

  lemma DropTimer(timers: multiset<string>, id: string, x: string)
    ensures x in timers - multiset{id} ==> x in timers
    ensures x in timers && x != id ==> x in timers - multiset{id}
  {
  }

  lemma TimerGone(c: Config, v: View, id: string)
    requires Inv(c, v)
    ensures var u := v.(timers := v.timers - multiset{id});
      StackOk(c, u) && QueueOk(c, u) && LiveOk(c, u) && (id != v.pending || v.pending !in c.buildable ==> Inv(c, u))
  {
    hide Distinct;
    DropTimer(v.timers, id, v.pending);
    forall x | x in v.timers - multiset{id}
      ensures x in c.order
    {
      DropTimer(v.timers, id, x);
    }
  }

  lemma PendingFires(c: Config, v: View, u: View)
    requires Inv(c, v) && u == v.(timers := u.timers)
    requires StackOk(c, u) && QueueOk(c, u) && LiveOk(c, u) && (u.pending !in c.buildable ==> Inv(c, u))
    ensures var w := Ensure(c, u, u.pending);
      if PageOf(u.pending) in w.pages then Inv(c, Click(c, w, PageOf(u.pending))) else Inv(c, w)
  {
    hide Follows;
    EnsureOk(c, u, u.pending);
    var w := Ensure(c, u, u.pending);
    if PageOf(u.pending) in w.pages {
      ClickPending(c, w);
    } else {
      EnsureKeeps(c, u, u.pending);
    }
  }

  /** A timer that fires late leaves the display alone; the one for the pending id shows its page. */
  lemma FireKeeps(c: Config, v: View, id: string)
    requires Inv(c, v)
    ensures Inv(c, FireTimer(c, v, id)) && v.pages <= FireTimer(c, v, id).pages
    ensures FireTimer(c, v, id).pending == v.pending && FireTimer(c, v, id).kiosk == v.kiosk
    ensures FireTimer(c, v, id).timers == v.timers - multiset{id}
  {
    hide Inv, Follows, LiveOk, StackOk, QueueOk;
    if id in v.timers {
      var u := v.(timers := v.timers - multiset{id});
      TimerGone(c, v, id);
      EnsureOk(c, u, id);
      if id != v.pending {
        EnsureKeeps(c, u, id);
      } else {
        PendingFires(c, v, u);
      }
    }
  }

  lemma EnterKeeps(c: Config, v: View)
    requires Registered(c) && Inv(c, v)
    ensures Inv(c, EnterKiosk(c, v)) && v.pages <= EnterKiosk(c, v).pages
    ensures EnterKiosk(c, v).pending == DASHBOARD && EnterKiosk(c, v).target == PageOf(DASHBOARD)
  {
    var u := v.(kiosk := true, pending := DASHBOARD);
    EnsureOk(c, u, DASHBOARD);
    ClickLive(c, Ensure(c, u, DASHBOARD), PageOf(DASHBOARD));
  }

  /** Every event keeps the invariant, and no page ever leaves the stack. */
  lemma StepKeeps(c: Config, v: View, e: Event)
    requires Registered(c) && Inv(c, v)
    ensures Inv(c, Step(c, v, e)) && v.pages <= Step(c, v, e).pages
  {
    match e
    case Navigate(id, show) => GoKeeps(c, v, id);
    case Fire(id) => FireKeeps(c, v, id);
    case Build(id) => EnsureKeeps(c, v, id);
    case BuildAll => EnsureFromKeeps(c, v, 0);
    case Scan => GoKeeps(c, v, CLEANER); EnsureKeeps(c, Go(c, v, CLEANER), CLEANER);
    case ToggleKiosk => if !v.kiosk { EnterKeeps(c, v); }
    case ExitKiosk =>
    case ToggleSidebar =>
    case ShowWindow(visible) =>
  }
}
