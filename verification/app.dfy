/** The main window: lazily built pages over the sliding stack, the sidebar and kiosk mode (shared/nexis/app.cpp). */
module MainWindow {
  import opened Text
  import opened Slides
  import opened Navigation
  import opened Journeys
  import opened Sidebar

  /** A page slot: its id, and its page once that is built. */
  datatype Slot = Slot(id: string, widget: Option<Page>)

  predicate SlotOk(id: string, slot: Slot, pages: seq<Page>) {
    slot.id == id && slot.widget == if PageOf(id) in pages then Some(PageOf(id)) else None
  }

  predicate SlotsOk(order: seq<string>, slots: seq<Slot>, pages: seq<Page>) {
    |slots| == |order| && forall i | 0 <= i < |slots| :: SlotOk(order[i], slots[i], pages)
  }

  lemma SlotAt(order: seq<string>, slots: seq<Slot>, pages: seq<Page>, i: nat)
    requires SlotsOk(order, slots, pages) && i < |order|
    ensures |slots| == |order| && SlotOk(order[i], slots[i], pages)
  {
  }

  lemma LoadingAdded(order: seq<string>, slots: seq<Slot>, pages: seq<Page>)
    requires SlotsOk(order, slots, pages)
    ensures SlotsOk(order, slots, pages + [Loading])
  {
    forall i | 0 <= i < |slots|
      ensures SlotOk(order[i], slots[i], pages + [Loading])
    {
      assert SlotOk(order[i], slots[i], pages);
    }
  }

  lemma PageAdded(order: seq<string>, slots: seq<Slot>, pages: seq<Page>, index: nat)
    requires SlotsOk(order, slots, pages) && Distinct(order) && index < |order|
    ensures var page := PageOf(order[index]);
      SlotsOk(order, slots[index := Slot(order[index], Some(page))], pages + [page])
  {
    var page := PageOf(order[index]);
    var slots' := slots[index := Slot(order[index], Some(page))];
    forall i | 0 <= i < |slots|
      ensures SlotOk(order[i], slots'[i], pages + [page])
    {
      assert SlotOk(order[i], slots[i], pages);
      assert i != index ==> order[i] != order[index];
    }
  }

  function Unbuilt(order: seq<string>): (r: seq<Slot>)
    ensures |r| == |order| && forall i | 0 <= i < |r| :: r[i] == Slot(order[i], None)
  {
    if order == [] then [] else [Slot(order[0], None)] + Unbuilt(order[1..])
  }

  /** The number of a page's slot, -1 for the placeholder. */
  function SlotNumber(order: seq<string>, p: Page): int {
    if p.PageOf? then IndexOf(order, p.id) else -1
  }

  class App {
    const c: Config
    const stack: SlidingStack
    var slots: seq<Slot>
    var loadingPage: Option<Page>
    var pendingNavId: string
    var timers: multiset<string>
    var checkedButton: string
    var activePages: set<Page>
    var windowTitle: string
    var visible: bool
    var kioskMode: bool
    var kioskSetting: bool
    var sidebarCollapsed: bool
    var sidebarSetting: bool
    var preKioskCollapsed: bool
    var sidebarButtons: seq<Button>
    var feedbackButton: Button
    /** The ids of the slots whose factory has run. */
    ghost var factoryRuns: seq<string>

    /** Slots and stack agree on which pages are built. */
    ghost predicate Valid()
      reads this, stack
    {
      && stack.Valid() && Registered(c) && stack.pages != []
      && SlotsOk(c.order, slots, stack.pages)
      && loadingPage == (if Loading in stack.pages then Some(Loading) else None)
    }

    /** Navigation as callers see it. */
    ghost function Nav(): View
      requires Valid()
      reads this, stack
    {
      View(stack.pages, stack.Target(), pendingNavId, timers, checkedButton, activePages, windowTitle, kioskMode, factoryRuns)
    }

    ghost function Side(): Bar
      reads this
    {
      Bar(sidebarCollapsed, sidebarSetting, preKioskCollapsed, kioskMode, kioskSetting, sidebarButtons, feedbackButton)
    }

    /** The shell before the start page is asked for: the dashboard is built, nothing is saved or queued yet. */
    constructor (config: Config, labels: seq<string>, feedback: string, collapsedSetting: bool, kiosk: bool, width: int, height: int)
      requires Registered(config)
      ensures Valid() && fresh(stack) && c == config
      ensures Nav() == Initial(c)
      ensures Side() == Bar(false, collapsedSetting, false, false, kiosk, Sidebar.Fresh(labels), Button(feedback, ""))
    {
      hide SlidingStack.Valid, SlidingStack.Target, Distinct;
      c := config;
      stack := new SlidingStack(true, width, height);
      slots := Unbuilt(config.order);
      loadingPage, pendingNavId, timers := None, "", multiset{};
      checkedButton, activePages, windowTitle, visible := "", {}, "", false;
      kioskMode, kioskSetting := false, kiosk;
      sidebarCollapsed, sidebarSetting, preKioskCollapsed := false, collapsedSetting, false;
      sidebarButtons, feedbackButton := Sidebar.Fresh(labels), Button(feedback, "");
      factoryRuns := [config.order[0]];
      new;
      PageAdded(c.order, slots, stack.pages, 0);
      slots := slots[0 := Slot(c.order[0], Some(PageOf(c.order[0])))];
      stack.AddWidget(PageOf(c.order[0]));
      assert [] + [PageOf(c.order[0])] == [PageOf(c.order[0])];
    }

    method SlotIndexById(id: string) returns (index: int)
      requires Valid()
      ensures if id in c.order then 0 <= index < |c.order| && c.order[index] == id else index == -1
    {
      var i := 0;
      while i < |slots|
        invariant 0 <= i <= |slots|
        invariant forall k | 0 <= k < i :: c.order[k] != id
      {
        if slots[i].id == id {
          return i;
        }
        i := i + 1;
      }
      return -1;
    }

    method EnsurePage(index: int) returns (w: Option<Page>)
      requires Valid()
      modifies this`slots, this`factoryRuns, stack
      ensures Valid() && stack.active == old(stack.active)
      ensures if 0 <= index < |c.order|
        then Nav() == Ensure(c, old(Nav()), c.order[index])
          && w == if PageOf(c.order[index]) in stack.pages then Some(PageOf(c.order[index])) else None
        else Nav() == old(Nav()) && w == None
    {
      if index < 0 || index >= |slots| {
        return None;
      }
      var slot := slots[index];
      if slot.widget.Some? {
        return slot.widget;
      }
      factoryRuns := factoryRuns + [slot.id];
      if slot.id !in c.buildable {
        return None;
      }
      var page := PageOf(slot.id);
      PageAdded(c.order, slots, stack.pages, index);
      slots := slots[index := Slot(slot.id, Some(page))];
      stack.AddWidget(page);
      return Some(page);
    }

    method EnsurePageById(id: string) returns (w: Option<Page>)
      requires Valid()
      modifies this`slots, this`factoryRuns, stack
      ensures Valid() && stack.active == old(stack.active)
      ensures Nav() == Ensure(c, old(Nav()), id)
      ensures w == if id in c.order && PageOf(id) in stack.pages then Some(PageOf(id)) else None
    {
      hide SlidingStack.Valid, SlidingStack.Target, Registered, SlotsOk;
      var index := SlotIndexById(id);
      w := EnsurePage(index);
    }

    method EnsureAllPages()
      requires Valid()
      modifies this`slots, this`factoryRuns, stack
      ensures Valid() && stack.active == old(stack.active)
      ensures Nav() == EnsureFrom(c, old(Nav()), 0)
    {
      hide SlidingStack.Valid, SlidingStack.Target, Distinct, SlotsOk, Ensure, EnsureFrom;
      SlotAt(c.order, slots, stack.pages, 0);
      EnsureFromEnds(c, Nav());
      var i := 0;
      while i < |slots|
        invariant 0 <= i <= |slots| == |c.order| && Valid() && stack.active == old(stack.active)
        invariant EnsureFrom(c, Nav(), i) == EnsureFrom(c, old(Nav()), 0)
      {
        SlotAt(c.order, slots, stack.pages, i);
        EnsureFromNext(c, Nav(), i);
        if slots[i].widget.None? {
          var _ := EnsurePage(i);
        }
        SlotAt(c.order, slots, stack.pages, 0);
        i := i + 1;
      }
      EnsureFromEnds(c, Nav());
    }

    /** The slot of a page, -1 for the placeholder. */
    method SlotOfPage(p: Page) returns (index: int)
      requires Valid() && p in stack.pages
      ensures -1 <= index < |slots| && index == SlotNumber(c.order, p)
      ensures index >= 0 <==> p.PageOf? && p.id in c.order
      ensures index >= 0 ==> slots[index].id == p.id
    {
      var i := 0;
      while i < |slots|
        invariant 0 <= i <= |slots|
        invariant forall k | 0 <= k < i :: PageOf(c.order[k]) != p
      {
        if slots[i].widget == Some(p) {
          IndexOfAt(c.order, i);
          return i;
        }
        i := i + 1;
      }
      return -1;
    }

    /** Where the old page goes in a slide: up if the new page is further down the sidebar, else down. */
    ghost function Leaving(page: Page, current: Page): Point
      reads this, stack
    {
      Point(0, if SlotNumber(c.order, page) >= SlotNumber(c.order, current) then -stack.height else stack.height)
    }

    /** Brings a page up, sliding in from the side that its slot is on, or at once. */
    method BringUp(page: Page, current: Page, slide: bool)
      requires Valid() && page in stack.pages && current in stack.pages && !stack.active
      modifies stack
      ensures stack.Valid() && stack.pages == old(stack.pages) && stack.Target() == page
      ensures stack.active <==> slide && old(stack.Target()) != page
      ensures stack.active ==> stack.group.value.nowTo == Leaving(page, current)
    {
      hide SlidingStack.Valid, SlidingStack.Target, IndexOf, Registered, SlotsOk, Offset;
      if slide {
        var to := SlotOfPage(page);
        var from := SlotOfPage(current);
        var index := IndexOf(stack.pages, page);
        Within(index, |stack.pages|);
        var _ := stack.SlideInIdx(index, if to >= from then BottomToTop else TopToBottom);
      } else {
        stack.FinishAnimation();
        stack.SetCurrentWidget(page);
      }
    }

    /** The title names the page, unless it is the placeholder. */
    method SetTitle(page: Page)
      requires Valid() && page in stack.pages
      modifies this`windowTitle
      ensures windowTitle == TitleAfter(c, old(windowTitle), page)
    {
      hide SlidingStack.Valid, Registered, SlotsOk, SlotNumber;
      var slot := SlotOfPage(page);
      if slot >= 0 {
        windowTitle := slots[slot].id;
      }
    }

    /** Shows a page. A running slide is settled before the page that is left is looked up. */
    method PageClick(widget: Option<Page>, slide: bool)
      requires Valid() && (widget.Some? ==> widget.value in stack.pages)
      modifies this`activePages, this`windowTitle, stack
      ensures Valid()
      ensures Nav() == if widget.Some? then Click(c, old(Nav()), widget.value) else old(Nav())
      ensures widget.Some? ==>
        && (stack.active <==> slide && old(stack.Target()) != widget.value)
        && (stack.active ==> stack.group.value.nowTo == Leaving(widget.value, old(stack.Target())))
    {
      hide SlidingStack.Valid, SlidingStack.Target, SlidingStack.CurrentWidget, Registered, SlotsOk, SlotNumber, TitleAfter;
      if widget.None? {
        return;
      }
      var page := widget.value;
      stack.FinishAnimation();
      var current := stack.CurrentWidget();
      if current != page && Monitored(c, current) {
        activePages := activePages - {current};
      }
      BringUp(page, current, slide);
      if Monitored(c, page) {
        activePages := activePages + {page};
      }
      SetTitle(page);
    }

    method CheckSidebarButton(pageId: string)
      requires Valid()
      modifies this`checkedButton
      ensures checkedButton == if pageId in c.order then pageId else old(checkedButton)
    {
      var index := SlotIndexById(pageId);
      if index < 0 {
        return;
      }
      checkedButton := slots[index].id;
    }

    /** Brings up the placeholder, which is made the first time. */
    method ShowLoadingPage()
      requires Valid()
      modifies this`loadingPage, this`activePages, this`windowTitle, stack
      ensures Valid() && Nav() == Wait(c, old(Nav())) && !stack.active
    {
      hide SlidingStack.Valid, SlidingStack.Target, Click, Distinct, SlotsOk;
      if loadingPage.None? {
        loadingPage := Some(Loading);
        LoadingAdded(c.order, slots, stack.pages);
        stack.AddWidget(Loading);
      }
      PageClick(loadingPage, false);
    }

    /** The slot of a page, the first one for an unknown page. */
    method ResolveSlot(pageId: string) returns (index: int)
      requires Valid()
      ensures 0 <= index < |slots| && SlotOk(if pageId in c.order then pageId else DASHBOARD, slots[index], stack.pages)
    {
      hide SlidingStack.Valid, SlotsOk;
      index := SlotIndexById(pageId);
      if index < 0 {
        index := 0;
      }
      SlotAt(c.order, slots, stack.pages, index);
    }

    /** Shows the page of a slot, or the placeholder until a timer has built it. */
    method ShowOrWait(slot: Slot, slide: bool)
      requires Valid() && SlotOk(slot.id, slot, stack.pages)
      modifies this`loadingPage, this`timers, this`activePages, this`windowTitle, stack
      ensures Valid() && Nav() == ShowOrQueue(c, old(Nav()), slot.id)
      ensures stack.active <==> slide && slot.widget.Some? && old(stack.Target()) != PageOf(slot.id)
    {
      hide SlidingStack.Valid, SlidingStack.Target, Click, Registered, SlotsOk, Wait;
      if slot.widget.Some? {
        PageClick(slot.widget, slide);
      } else {
        ShowLoadingPage();
        timers := timers + multiset{slot.id};
      }
    }

    /** Makes the page of a slot the pending one, checks its button, and shows it or the placeholder. */
    method Follow(slot: Slot, slide: bool)
      requires Valid() && slot.id in c.order && SlotOk(slot.id, slot, stack.pages)
      modifies this`pendingNavId, this`checkedButton, this`loadingPage, this`timers, this`activePages, this`windowTitle, stack
      ensures Valid() && Nav() == ShowOrQueue(c, old(Nav()).(pending := slot.id, checked := slot.id), slot.id)
      ensures stack.active <==> slide && PageOf(slot.id) in old(stack.pages) && old(stack.Target()) != PageOf(slot.id)
    {
      hide SlidingStack.Valid, SlidingStack.Target, Distinct, SlotsOk, ShowOrQueue;
      pendingNavId := slot.id;
      CheckSidebarButton(slot.id);
      ShowOrWait(slot, slide);
    }

    method NavigateTo(pageId: string, isShow: bool)
      requires Valid()
      modifies this`pendingNavId, this`checkedButton, this`loadingPage, this`timers, this`visible,
               this`activePages, this`windowTitle, stack
      ensures Valid() && visible == isShow
      ensures Nav() == Go(c, old(Nav()), pageId)
      ensures var id := if pageId in c.order then pageId else DASHBOARD;
        && pendingNavId == checkedButton == id
        && (if PageOf(id) in old(stack.pages)
            then stack.Target() == PageOf(id) && timers == old(timers)
            else stack.Target() == Loading && timers == old(timers) + multiset{id})
        && (stack.active <==> isShow && old(visible) && PageOf(id) in old(stack.pages) && old(stack.Target()) != PageOf(id))
    {
      hide SlidingStack.Valid, SlidingStack.Target, Distinct, SlotsOk, ShowOrQueue, Go;
      GoIs(c, Nav(), pageId);
      GoUnfolds(c, Nav(), pageId);
      var index := ResolveSlot(pageId);
      Follow(slots[index], isShow && visible);
      visible := isShow;
    }

    /** A queued timer fires. */
    method TimerFires(id: string)
      requires Valid() && id in timers
      modifies this`timers, this`slots, this`factoryRuns, this`activePages, this`windowTitle, stack
      ensures Valid() && Nav() == FireTimer(c, old(Nav()), id)
    {
      hide SlidingStack.Valid, SlidingStack.Target, Click, IndexOf, Distinct, SlotsOk, Ensure;
      timers := timers - multiset{id};
      var w := EnsurePageById(id);
      if w.Some? && pendingNavId == id {
        PageClick(w, false);
      }
    }

    method RunCleanerScan()
      requires Valid()
      modifies this, stack
      ensures Valid() && Nav() == Ensure(c, Go(c, old(Nav()), CLEANER), CLEANER) && Side() == old(Side())
    {
      hide SlidingStack.Valid, SlidingStack.Target, Click, IndexOf, Distinct, SlotsOk, Ensure, Go;
      NavigateTo(CLEANER, true);
      var _ := EnsurePageById(CLEANER);
    }

    method ApplySidebarCollapse(collapsed: bool)
      modifies this`sidebarCollapsed, this`sidebarButtons, this`feedbackButton
      ensures Side() == Apply(old(Side()), collapsed)
    {
      sidebarCollapsed := collapsed;
      var i := 0;
      while i < |sidebarButtons|
        invariant sidebarCollapsed == collapsed && feedbackButton == old(feedbackButton)
        invariant 0 <= i <= |sidebarButtons| == |old(sidebarButtons)|
        invariant forall k | 0 <= k < i :: sidebarButtons[k] == Switched(old(sidebarButtons)[k], collapsed)
        invariant forall k | i <= k < |sidebarButtons| :: sidebarButtons[k] == old(sidebarButtons)[k]
      {
        var btn := sidebarButtons[i];
        if collapsed {
          btn := btn.(saved := btn.text);
          btn := btn.(text := "");
        } else {
          if btn.saved != "" {
            btn := btn.(text := btn.saved);
          }
        }
        sidebarButtons := sidebarButtons[i := btn];
        i := i + 1;
      }
      assert sidebarButtons == AllSwitched(old(sidebarButtons), collapsed);
      var feedback := feedbackButton;
      if collapsed {
        feedback := feedback.(saved := feedback.text);
        feedback := feedback.(text := "");
      } else {
        if feedback.saved != "" {
          feedback := feedback.(text := feedback.saved);
        }
      }
      feedbackButton := feedback;
    }

    method ToggleSidebarCollapse()
      modifies this`sidebarCollapsed, this`sidebarSetting, this`sidebarButtons, this`feedbackButton
      ensures Side() == Toggle(old(Side()))
    {
      sidebarCollapsed := !sidebarCollapsed;
      sidebarSetting := sidebarCollapsed;
      ApplySidebarCollapse(sidebarCollapsed);
    }

    method ShowFirstPage()
      requires Valid()
      modifies this`slots, this`factoryRuns, this`activePages, this`windowTitle, stack
      ensures Valid() && Nav() == ClickFirst(c, old(Nav()))
    {
      hide SlidingStack.Valid, SlidingStack.Target, Click, Distinct, SlotsOk, Ensure;
      var page := EnsurePage(0);
      PageClick(page, false);
    }

    /** Leaving kiosk mode brings back the sidebar as it was on entry. */
    method RestoreSidebar()
      modifies this`sidebarCollapsed, this`sidebarButtons, this`feedbackButton
      ensures Side() == ApplyKiosk(old(Side()), false)
    {
      hide Apply;
      if preKioskCollapsed != sidebarCollapsed {
        ApplySidebarCollapse(preKioskCollapsed);
      }
    }

    method ShowDashboard()
      requires Valid() && kioskMode
      modifies this`pendingNavId, this`checkedButton, this`slots, this`factoryRuns, this`activePages, this`windowTitle, stack
      ensures Valid() && Nav() == EnterKiosk(c, old(Nav()))
    {
      hide SlidingStack.Valid, SlidingStack.Target, ClickFirst, Distinct, SlotsOk;
      pendingNavId := DASHBOARD;
      ShowFirstPage();
      CheckSidebarButton(DASHBOARD);
    }

    method ApplyKioskMode(enable: bool)
      requires Valid() && kioskMode == enable
      modifies this`preKioskCollapsed, this`pendingNavId, this`checkedButton, this`slots, this`factoryRuns, this`activePages,
               this`windowTitle, this`visible, this`sidebarCollapsed, this`sidebarButtons, this`feedbackButton, stack
      ensures Valid() && visible
      ensures Nav() == if enable then EnterKiosk(c, old(Nav())) else old(Nav())
      ensures Side() == ApplyKiosk(old(Side()), enable)
    {
      hide SlidingStack.Valid, SlidingStack.Target, EnterKiosk, Distinct, SlotsOk, Apply;
      if enable {
        preKioskCollapsed := sidebarCollapsed;
        ShowDashboard();
      } else {
        RestoreSidebar();
      }
      visible := true;
    }

    method ToggleKioskMode()
      requires Valid()
      modifies this, stack
      ensures Valid() && Nav() == Step(c, old(Nav()), ToggleKiosk) && Side() == ToggleKioskBar(old(Side()))
    {
      hide SlidingStack.Valid, SlidingStack.Target, EnterKiosk, Distinct, SlotsOk, Apply;
      EnterIgnoresKiosk(c, Nav());
      kioskMode := !kioskMode;
      kioskSetting := kioskMode;
      ApplyKioskMode(kioskMode);
    }

    method ExitKioskMode()
      requires Valid()
      modifies this, stack
      ensures Valid() && Nav() == Step(c, old(Nav()), ExitKiosk) && Side() == ExitKioskBar(old(Side()))
    {
      hide SlidingStack.Valid, SlidingStack.Target, EnterKiosk, Distinct, SlotsOk, Apply;
      if !kioskMode {
        return;
      }
      kioskMode := false;
      kioskSetting := false;
      ApplyKioskMode(false);
    }

    method RestoreKiosk(launchInKiosk: bool)
      requires Valid() && !kioskMode
      modifies this, stack
      ensures Valid()
      ensures Nav() == if old(kioskSetting) || launchInKiosk then EnterKiosk(c, old(Nav())) else old(Nav())
      ensures Side() == KioskRestored(old(Side()), launchInKiosk)
    {
      hide SlidingStack.Valid, SlidingStack.Target, Distinct, SlotsOk, EnterKiosk;
      EnterIgnoresKiosk(c, Nav());
      if kioskSetting || launchInKiosk {
        kioskMode, kioskSetting := true, true;
        ApplyKioskMode(true);
      }
    }

    method RestoreSaved(launchInKiosk: bool)
      requires Valid() && !kioskMode
      modifies this, stack
      ensures Valid()
      ensures Nav() == if old(kioskSetting) || launchInKiosk then EnterKiosk(c, old(Nav())) else old(Nav())
      ensures Side() == Restored(old(Side()), launchInKiosk)
    {
      hide SlidingStack.Valid, SlidingStack.Target, Distinct, SlotsOk, EnterKiosk, Apply, KioskRestored;
      RestoreKiosk(launchInKiosk);
      if sidebarSetting {
        ApplySidebarCollapse(true);
      }
    }

    /** The rest of `init`: the start page is asked for, then kiosk mode and the sidebar are restored. */
    method Init(startPage: string, launchInKiosk: bool)
      requires Valid() && !kioskMode
      modifies this, stack
      ensures Valid()
      ensures var v := Go(c, old(Nav()), startPage);
        Nav() == if old(kioskSetting) || launchInKiosk then EnterKiosk(c, v) else v
      ensures Side() == Restored(old(Side()), launchInKiosk)
    {
      hide SlidingStack.Valid, SlidingStack.Target, Distinct, SlotsOk, Go, EnterKiosk, Restored;
      NavigateTo(startPage, false);
      RestoreSaved(launchInKiosk);
    }
  }

  // ---- The event loop ----

  /** What the event loop delivers: an event of the shell, a frame of the running slide, or its end. */
  datatype Signal = Of(event: Event) | Frame(nowAt: Point, nextAt: Point) | SlideEnds

  function Events(ss: seq<Signal>): seq<Event> {
    if ss == [] then [] else (if ss[0].Of? then [ss[0].event] else []) + Events(ss[1..])
  }

  lemma Unqueued(c: Config, v: View, id: string)
    requires id !in v.timers
    ensures FireTimer(c, v, id) == v
  {
  }

  /** Delivers an event of the window. */
  method DeliverToWindow(app: App, e: Event)
    requires app.Valid() && (e.ToggleKiosk? || e.ExitKiosk? || e.ToggleSidebar? || e.ShowWindow?)
    modifies app, app.stack
    ensures app.Valid()
    ensures app.Nav() == Step(app.c, old(app.Nav()), e) && app.Side() == SideStep(old(app.Side()), e)
  {
    hide SlidingStack.Valid, SlidingStack.Target, Registered, SlotsOk, Go, Ensure, FireTimer, EnterKiosk, Toggle, ToggleKioskBar, ExitKioskBar;
    match e
    case ToggleKiosk => app.ToggleKioskMode();
    case ExitKiosk => app.ExitKioskMode();
    case ToggleSidebar => app.ToggleSidebarCollapse();
    case ShowWindow(visible) => app.visible := visible;
  }

  /** Delivers one event to the shell. */
  method Deliver(app: App, e: Event)
    requires app.Valid()
    modifies app, app.stack
    ensures app.Valid()
    ensures app.Nav() == Step(app.c, old(app.Nav()), e) && app.Side() == SideStep(old(app.Side()), e)
  {
    hide SlidingStack.Valid, SlidingStack.Target, Registered, SlotsOk, Go, Ensure, FireTimer, EnterKiosk, Toggle, ToggleKioskBar, ExitKioskBar;
    match e
    case Navigate(id, show) => app.NavigateTo(id, show);
    case Fire(id) => if id in app.timers { app.TimerFires(id); } else { Unqueued(app.c, app.Nav(), id); }
    case Build(id) => var _ := app.EnsurePageById(id);
    case BuildAll => app.EnsureAllPages();
    case Scan => app.RunCleanerScan();
    case _ => DeliverToWindow(app, e);
  }

  lemma EventsFrom(ss: seq<Signal>, i: nat)
    requires i < |ss|
    ensures Events(ss[i..]) == if ss[i].Of? then [ss[i].event] + Events(ss[i + 1..]) else Events(ss[i + 1..])
  {
    assert ss[i..][1..] == ss[i + 1..];
  }

  lemma RunNothing(c: Config, v: View, b: Bar)
    requires c.order != []
    ensures Events([]) == [] && Run(c, v, []) == v && SideRun(b, []) == b
  {
  }

  lemma RunNextView(c: Config, v: View, e: Event, rest: seq<Event>)
    requires c.order != []
    ensures Run(c, v, [e] + rest) == Run(c, Step(c, v, e), rest)
  {
    assert ([e] + rest)[1..] == rest;
  }

  lemma RunNext(c: Config, v: View, b: Bar, e: Event, rest: seq<Event>)
    requires c.order != []
    ensures Run(c, v, [e] + rest) == Run(c, Step(c, v, e), rest)
    ensures SideRun(b, [e] + rest) == SideRun(SideStep(b, e), rest)
  {
    RunNextView(c, v, e, rest);
    assert ([e] + rest)[1..] == rest;
  }

  /** A run of the event loop. Frames and ends of slides may come at any time, and callers never notice them: the shell
      goes through the states of the switcher that changes pages at once. */
  method Play(app: App, signals: seq<Signal>)
    requires app.Valid()
    modifies app, app.stack
    ensures app.Valid()
    ensures app.Nav() == Run(app.c, old(app.Nav()), Events(signals))
    ensures app.Side() == SideRun(old(app.Side()), Events(signals))
  {
    hide SlidingStack.Valid, SlidingStack.Target, Distinct, SlotsOk, Step, SideStep, Run, SideRun, Events;
    var i := 0;
    assert signals[0..] == signals;
    while i < |signals|
      invariant 0 <= i <= |signals| && app.Valid()
      invariant Run(app.c, app.Nav(), Events(signals[i..])) == Run(app.c, old(app.Nav()), Events(signals))
      invariant SideRun(app.Side(), Events(signals[i..])) == SideRun(old(app.Side()), Events(signals))
    {
      var s := signals[i];
      EventsFrom(signals, i);
      match s {
        case Of(e) =>
          RunNext(app.c, app.Nav(), app.Side(), e, Events(signals[i + 1..]));
          Deliver(app, e);
        case Frame(nowAt, nextAt) => if app.stack.active { app.stack.Tick(nowAt, nextAt); }
        case SlideEnds => if app.stack.active { app.stack.AnimationDoneSlot(); }
      }
      i := i + 1;
    }
    assert signals[i..] == [];
    RunNothing(app.c, app.Nav(), app.Side());
  }

  /** The page of slot id is up and no other, every page is where it rests, and button and title are those of the slot. */
  ghost predicate OnlyUp(app: App, id: string)
    reads app, app.stack
  {
    && |app.stack.shown| == |app.stack.pages| == |app.stack.pos|
    && PageOf(id) in app.stack.pages
    && (forall k | 0 <= k < |app.stack.pages| ::
      (app.stack.shown[k] <==> app.stack.pages[k] == PageOf(id)) && app.stack.pos[k] == REST)
    && app.checkedButton == id && app.windowTitle == id
  }

  /** When no slide is running, the page on display is the only one that is up, and it is where it rests. */
  lemma OnDisplay(app: App, p: Page)
    requires app.Valid() && !app.stack.active && app.Nav().target == p
    ensures |app.stack.shown| == |app.stack.pages| == |app.stack.pos| && p in app.stack.pages
    ensures forall k | 0 <= k < |app.stack.pages| ::
      (app.stack.shown[k] <==> app.stack.pages[k] == p) && app.stack.pos[k] == REST
  {
  }

  /** Once the timers for it have fired and no slide is running, the one page that is up is the last one asked for. */
  lemma LastRequestIsOnDisplay(app: App, startPage: string, es: seq<Event>, id: string)
    requires app.Valid() && !app.stack.active && app.Nav() == Run(app.c, Start(app.c, startPage), es)
    requires id == Last(if startPage in app.c.order then startPage else DASHBOARD, Requests(app.c, false, es)) && id !in app.timers && id in app.c.buildable
    ensures OnlyUp(app, id)
  {
    hide SlidingStack.Valid, SlidingStack.Target, Run, Start, Requests;
    LastNavigationWins(app.c, startPage, es);
    OnDisplay(app, PageOf(id));
  }

  /** A launch into kiosk mode is a start whose first event enters it. */
  lemma LaunchedRun(c: Config, startPage: string, kiosk: bool, es: seq<Event>)
    requires c.order != []
    ensures var s := Start(c, startPage);
      Run(c, if kiosk then EnterKiosk(c, s) else s, es) == Run(c, s, (if kiosk then [ToggleKiosk] else []) + es)
  {
    hide Run, Go, EnterKiosk;
    var s := Start(c, startPage);
    if kiosk {
      RunNextView(c, s, ToggleKiosk, es);
    } else {
      assert [] + es == es;
    }
  }

  /** A whole session: start-up, then a run of the event loop. The shell has gone through the states of the two machines,
      the labels of the sidebar are intact, and if the timer for the last page asked for has fired and no slide is running,
      that page is the one that is up. */
  method Session(config: Config, startPage: string, labels: seq<string>, feedback: string, collapsedSetting: bool,
                 kiosk: bool, launchInKiosk: bool, width: int, height: int, signals: seq<Signal>) returns (app: App)
    requires Registered(config)
    ensures app.Valid() && app.c == config
    ensures var es := (if kiosk || launchInKiosk then [ToggleKiosk] else []) + Events(signals);
      var id := Last(if startPage in config.order then startPage else DASHBOARD, Requests(config, false, es));
      && app.Nav() == Run(config, Start(config, startPage), es)
      && app.Side() == SideRun(Launch(labels, feedback, collapsedSetting, kiosk, launchInKiosk), Events(signals))
      && LabelsOk(app.Side(), labels, feedback)
      && app.checkedButton == id
      && (id !in app.timers && id in config.buildable && !app.stack.active ==> OnlyUp(app, id))
  {
    hide SlidingStack.Valid, SlidingStack.Target, Run, SideRun, Go, EnterKiosk, Requests, LabelsOk, Restored, OnlyUp, Inv, Shows;
    app := new App(config, labels, feedback, collapsedSetting, kiosk, width, height);
    app.Init(startPage, launchInKiosk);
    Play(app, signals);
    var es := (if kiosk || launchInKiosk then [ToggleKiosk] else []) + Events(signals);
    LaunchedRun(config, startPage, kiosk || launchInKiosk, Events(signals));
    LabelsSurvive(labels, feedback, collapsedSetting, kiosk, launchInKiosk, Events(signals));
    LastNavigationWins(config, startPage, es);
    var id := Last(if startPage in config.order then startPage else DASHBOARD, Requests(config, false, es));
    if id !in app.timers && id in config.buildable && !app.stack.active {
      LastRequestIsOnDisplay(app, startPage, es, id);
    }
  }
}
