/** The collapsible sidebar and kiosk mode (shared/nexis/app.cpp). */
module Sidebar {
  import opened Navigation

  /** A button: the text it shows and its saved text, "" before there is one. */
  datatype Button = Button(text: string, saved: string)

  /** The applied state, its saved setting, the state before kiosk mode, kiosk mode and its setting, the page buttons and
      the feedback button. */
  datatype Bar = Bar(
    collapsed: bool, setting: bool, before: bool, kiosk: bool, kioskSetting: bool,
    buttons: seq<Button>, feedback: Button)

  function Switched(b: Button, collapse: bool): Button {
    if collapse then Button("", b.text) else if b.saved != "" then b.(text := b.saved) else b
  }

  function AllSwitched(bs: seq<Button>, collapse: bool): (r: seq<Button>)
    ensures |r| == |bs|
    ensures forall i | 0 <= i < |bs| :: r[i] == Switched(bs[i], collapse)
  {
    if bs == [] then [] else [Switched(bs[0], collapse)] + AllSwitched(bs[1..], collapse)
  }

  /** `applySidebarCollapse` */
  function Apply(s: Bar, collapse: bool): Bar {
    s.(collapsed := collapse, buttons := AllSwitched(s.buttons, collapse), feedback := Switched(s.feedback, collapse))
  }

  /** `toggleSidebarCollapse` */
  function Toggle(s: Bar): Bar {
    Apply(s.(setting := !s.collapsed), !s.collapsed)
  }

  /** `applyKioskMode`, as far as the sidebar goes. */
  function ApplyKiosk(s: Bar, enable: bool): Bar {
    if enable then s.(before := s.collapsed)
    else if s.before != s.collapsed then Apply(s, s.before)
    else s
  }

  function ToggleKioskBar(s: Bar): Bar {
    ApplyKiosk(s.(kiosk := !s.kiosk, kioskSetting := !s.kiosk), !s.kiosk)
  }

  function ExitKioskBar(s: Bar): Bar {
    if s.kiosk then ApplyKiosk(s.(kiosk := false, kioskSetting := false), false) else s
  }

  function SideStep(s: Bar, e: Event): Bar {
    match e
    case ToggleSidebar => Toggle(s)
    case ToggleKiosk => ToggleKioskBar(s)
    case ExitKiosk => ExitKioskBar(s)
    case _ => s
  }

  function SideRun(s: Bar, es: seq<Event>): Bar
    decreases |es|
  {
    if es == [] then s else SideRun(SideStep(s, es[0]), es[1..])
  }

  function Fresh(labels: seq<string>): seq<Button> {
    seq(|labels|, i requires 0 <= i < |labels| => Button(labels[i], ""))
  }

  function KioskRestored(s: Bar, launchInKiosk: bool): (r: Bar)
    ensures r.setting == s.setting
  {
    if s.kioskSetting || launchInKiosk then ApplyKiosk(s.(kiosk := true, kioskSetting := true), true) else s
  }

  /** Start-up: kiosk mode is restored first, then the saved state of the sidebar. */
  function Restored(s: Bar, launchInKiosk: bool): Bar {
    var k := KioskRestored(s, launchInKiosk);
    if s.setting then Apply(k, true) else k
  }

  function Launch(labels: seq<string>, feedback: string, setting: bool, kioskSetting: bool, launchInKiosk: bool): Bar {
    Restored(Bar(false, setting, false, false, kioskSetting, Fresh(labels), Button(feedback, "")), launchInKiosk)
  }

  // ---- Labels ----

  /** A button whose label is l: expanded it shows the label, collapsed it has it saved. */
  predicate ButtonOk(b: Button, l: string, collapsed: bool) {
    if collapsed then b == Button("", l) else b.text == l && (b.saved == "" || b.saved == l)
  }

  predicate LabelsOk(s: Bar, labels: seq<string>, feedback: string) {
    && |s.buttons| == |labels|
    && (forall i | 0 <= i < |labels| :: ButtonOk(s.buttons[i], labels[i], s.collapsed))
    && ButtonOk(s.feedback, feedback, s.collapsed)
  }

  lemma SwitchOk(b: Button, l: string, collapsed: bool, collapse: bool)
    requires ButtonOk(b, l, collapsed)
    ensures ButtonOk(Switched(b, collapse), l, collapse) <==> !(collapse && collapsed) || l == ""
  {
  }

  predicate Unlabelled(labels: seq<string>, feedback: string) {
    (forall i | 0 <= i < |labels| :: labels[i] == "") && feedback == ""
  }

  /** Applying a state keeps the labels unless it collapses a collapsed sidebar, which erases them. */
  lemma ApplyKeepsLabels(s: Bar, labels: seq<string>, feedback: string, collapse: bool)
    requires LabelsOk(s, labels, feedback)
    ensures LabelsOk(Apply(s, collapse), labels, feedback)
       <==> !(collapse && s.collapsed) || Unlabelled(labels, feedback)
  {
    var r := Apply(s, collapse);
    SwitchOk(s.feedback, feedback, s.collapsed, collapse);
    forall i | 0 <= i < |labels|
      ensures ButtonOk(r.buttons[i], labels[i], collapse) <==> !(collapse && s.collapsed) || labels[i] == ""
    {
      SwitchOk(s.buttons[i], labels[i], s.collapsed, collapse);
    }
  }

  lemma BarsWithSameLabels(s: Bar, t: Bar, labels: seq<string>, feedback: string)
    requires t.collapsed == s.collapsed && t.buttons == s.buttons && t.feedback == s.feedback
    ensures LabelsOk(t, labels, feedback) == LabelsOk(s, labels, feedback)
  {
  }

  lemma StepKeepsLabels(s: Bar, labels: seq<string>, feedback: string, e: Event)
    requires LabelsOk(s, labels, feedback)
    ensures LabelsOk(SideStep(s, e), labels, feedback)
  {
    hide Apply, LabelsOk;
    BarsWithSameLabels(s, s.(setting := !s.collapsed), labels, feedback);
    ApplyKeepsLabels(s.(setting := !s.collapsed), labels, feedback, !s.collapsed);
    var on := s.(kiosk := !s.kiosk, kioskSetting := !s.kiosk);
    var off := s.(kiosk := false, kioskSetting := false);
    BarsWithSameLabels(s, on, labels, feedback);
    BarsWithSameLabels(s, on.(before := s.collapsed), labels, feedback);
    BarsWithSameLabels(s, off, labels, feedback);
    ApplyKeepsLabels(on, labels, feedback, s.before);
    ApplyKeepsLabels(off, labels, feedback, s.before);
  }

  lemma LaunchLabels(labels: seq<string>, feedback: string, setting: bool, kioskSetting: bool, launchInKiosk: bool)
    ensures LabelsOk(Launch(labels, feedback, setting, kioskSetting, launchInKiosk), labels, feedback)
  {
    hide Apply;
    var s := Bar(false, setting, false, false, kioskSetting, Fresh(labels), Button(feedback, ""));
    var k := KioskRestored(s, launchInKiosk);
    assert LabelsOk(k, labels, feedback);
    ApplyKeepsLabels(k, labels, feedback, true);
  }

  lemma {:induction false} RunKeepsLabels(s: Bar, labels: seq<string>, feedback: string, es: seq<Event>)
    requires LabelsOk(s, labels, feedback)
    ensures LabelsOk(SideRun(s, es), labels, feedback)
    decreases |es|
  {
    hide LabelsOk, SideStep;
    if es != [] {
      StepKeepsLabels(s, labels, feedback, es[0]);
      RunKeepsLabels(SideStep(s, es[0]), labels, feedback, es[1..]);
    }
  }

  /** Sidebar labels survive every run. */
  lemma LabelsSurvive(labels: seq<string>, feedback: string, setting: bool, kioskSetting: bool, launchInKiosk: bool, es: seq<Event>)
    ensures LabelsOk(SideRun(Launch(labels, feedback, setting, kioskSetting, launchInKiosk), es), labels, feedback)
  {
    LaunchLabels(labels, feedback, setting, kioskSetting, launchInKiosk);
    RunKeepsLabels(Launch(labels, feedback, setting, kioskSetting, launchInKiosk), labels, feedback, es);
  }

  // ---- The saved setting ----

  /** The number of sidebar toggles in a run. */
  function Toggles(es: seq<Event>): nat {
    if es == [] then 0 else (if es[0].ToggleSidebar? then 1 else 0) + Toggles(es[1..])
  }

  predicate KioskEvent(e: Event) {
    e.ToggleKiosk? || e.ExitKiosk?
  }

  predicate WithoutKiosk(es: seq<Event>) {
    es == [] || (!KioskEvent(es[0]) && WithoutKiosk(es[1..]))
  }

  lemma ApplySets(s: Bar, collapse: bool)
    ensures Apply(s, collapse).(buttons := s.buttons, feedback := s.feedback) == s.(collapsed := collapse)
  {
  }

  /** Between kiosk events the toggles decide: their parity gives the state, and the first one makes the setting agree. */
  lemma {:induction false} TogglesCount(s: Bar, es: seq<Event>)
    requires WithoutKiosk(es)
    ensures var r := SideRun(s, es);
      && r.kiosk == s.kiosk && r.before == s.before
      && r.collapsed == (if Toggles(es) % 2 == 0 then s.collapsed else !s.collapsed)
      && r.setting == (if Toggles(es) == 0 then s.setting else r.collapsed)
    decreases |es|
  {
    hide Apply;
    if es != [] {
      ApplySets(s.(setting := !s.collapsed), !s.collapsed);
      TogglesCount(SideStep(s, es[0]), es[1..]);
    }
  }

  /** Entering kiosk mode saves that it is on and remembers the sidebar, which stays as it is. */
  lemma Enters(s: Bar)
    requires !s.kiosk
    ensures SideStep(s, ToggleKiosk) == s.(kiosk := true, kioskSetting := true, before := s.collapsed)
  {
  }

  /** Both ways out of kiosk mode are the same for the sidebar. */
  lemma Leaves(s: Bar, leave: Event)
    requires s.kiosk && KioskEvent(leave)
    ensures var r := SideStep(s, leave);
      !r.kiosk && !r.kioskSetting && r.setting == s.setting && r.collapsed == s.before
  {
    hide Apply;
    ApplySets(s.(kiosk := false, kioskSetting := false), s.before);
  }

  /** A stay in kiosk mode: afterwards the sidebar is as it was before. The setting agrees with it if and only if
      it was not toggled meanwhile and agreed before, or was toggled an even number of times. */
  lemma KioskRestores(s: Bar, es: seq<Event>, leave: Event)
    requires !s.kiosk && WithoutKiosk(es) && KioskEvent(leave)
    ensures var r := SideStep(SideRun(SideStep(s, ToggleKiosk), es), leave);
      && !r.kiosk && !r.kioskSetting && r.collapsed == s.collapsed
      && (r.collapsed == r.setting <==> if Toggles(es) == 0 then s.collapsed == s.setting else Toggles(es) % 2 == 0)
  {
    hide Apply, SideRun;
    var k := SideStep(s, ToggleKiosk);
    TogglesCount(k, es);
    Leaves(SideRun(k, es), leave);
  }

  lemma LaunchSets(labels: seq<string>, feedback: string, setting: bool, kioskSetting: bool, launchInKiosk: bool)
    ensures var l := Launch(labels, feedback, setting, kioskSetting, launchInKiosk);
      && l.collapsed == setting && l.setting == setting && !l.before
      && l.kiosk == (kioskSetting || launchInKiosk) && l.kioskSetting == l.kiosk
  {
    hide Apply;
    var s := Bar(false, setting, false, false, kioskSetting, Fresh(labels), Button(feedback, ""));
    ApplySets(KioskRestored(s, launchInKiosk), true);
  }

  /** A launch into kiosk mode and any stay there: leaving it expands the sidebar, whatever was saved. The setting agrees
      if and only if it was saved collapsed and toggled an odd number of times, or saved expanded and an even number. */
  lemma LaunchedKioskForgets(labels: seq<string>, feedback: string, setting: bool, kioskSetting: bool, launchInKiosk: bool,
                             es: seq<Event>, leave: Event)
    requires kioskSetting || launchInKiosk
    requires WithoutKiosk(es) && KioskEvent(leave)
    ensures var r := SideStep(SideRun(Launch(labels, feedback, setting, kioskSetting, launchInKiosk), es), leave);
      && !r.kiosk && !r.collapsed
      && r.setting == (if Toggles(es) % 2 == 0 then setting else !setting)
      && (r.collapsed == r.setting <==> (setting <==> Toggles(es) % 2 == 1))
  {
    hide Apply, SideRun, Launch, SideStep;
    var l := Launch(labels, feedback, setting, kioskSetting, launchInKiosk);
    LaunchSets(labels, feedback, setting, kioskSetting, launchInKiosk);
    TogglesCount(l, es);
    Leaves(SideRun(l, es), leave);
  }

  /** Away from kiosk events what is shown is what is saved if and only if it was so before or the sidebar was toggled. */
  lemma TogglingAgrees(s: Bar, es: seq<Event>)
    requires WithoutKiosk(es)
    ensures var r := SideRun(s, es); r.collapsed == r.setting <==> s.collapsed == s.setting || Toggles(es) > 0
  {
    hide SideRun;
    TogglesCount(s, es);
  }

  /** Outside kiosk mode and without it, what is shown is what is saved. */
  lemma ShownIsSaved(labels: seq<string>, feedback: string, setting: bool, es: seq<Event>)
    requires WithoutKiosk(es)
    ensures var r := SideRun(Launch(labels, feedback, setting, false, false), es); r.collapsed == r.setting
  {
    hide Launch;
    LaunchSets(labels, feedback, setting, false, false);
    TogglingAgrees(Launch(labels, feedback, setting, false, false), es);
  }
}
