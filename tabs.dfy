/**
  The tab controller (scripts.js, "TABS INTERACTIVITY"). Clicking a tab
  button walks the list of buttons, marking only the clicked one active and
  aria-selected, then walks the list of panels, showing exactly those whose
  id equals the clicked button's `data-tab`.
 */
module Tabs {
  import opened Wrappers

  /**
    A `.tab-btn` element: its `data-tab` attribute (None when absent), whether
    it has the `active` class, and its `aria-selected` attribute.
   */
  datatype Button = Button(tab: Option<string>, active: bool, ariaSelected: string)

  /** A `.tab-panel` element: its id, its `hidden` property and whether it has the `active` class. */
  datatype Panel = Panel(id: string, hidden: bool, active: bool)

  /** One step of the button loop: `active` and `aria-selected` follow `on`, nothing else changes. */
  function Selected(b: Button, on: bool): Button {
    b.(active := on, ariaSelected := if on then "true" else "false")
  }

  /** One step of the panel loop: the panel is shown and active exactly when its id is the target. */
  function Shown(p: Panel, target: Option<string>): Panel {
    var matches := target == Some(p.id);
    p.(hidden := !matches, active := matches)
  }

  /** The buttons after button number `clicked` was activated. */
  function SelectButtons(bs: seq<Button>, clicked: nat): (r: seq<Button>) {
    seq(|bs|, i requires 0 <= i < |bs| => Selected(bs[i], i == clicked))
  }

  /** The panels after a button whose `data-tab` is `target` was activated. */
  function ShowPanels(ps: seq<Panel>, target: Option<string>): (r: seq<Panel>) {
    seq(|ps|, i requires 0 <= i < |ps| => Shown(ps[i], target))
  }

  /**
    The click handler of button number `clicked`: both lists are updated in
    place, one element per loop iteration, in the order of the page.
   */
  method Activate(buttons: array<Button>, panels: array<Panel>, clicked: nat)
    requires clicked < buttons.Length
    modifies buttons, panels
    ensures buttons[..] == SelectButtons(old(buttons[..]), clicked)
    ensures panels[..] == ShowPanels(old(panels[..]), old(buttons[clicked].tab))
  {
    var targetId := buttons[clicked].tab;

    for i := 0 to buttons.Length
      invariant forall k :: 0 <= k < i ==> buttons[k] == Selected(old(buttons[k]), k == clicked)
      invariant forall k :: i <= k < buttons.Length ==> buttons[k] == old(buttons[k])
      invariant panels[..] == old(panels[..])
    {
      buttons[i] := Selected(buttons[i], i == clicked);
    }

    for i := 0 to panels.Length
      invariant forall k :: 0 <= k < i ==> panels[k] == Shown(old(panels[k]), targetId)
      invariant forall k :: i <= k < panels.Length ==> panels[k] == old(panels[k])
      invariant buttons[..] == SelectButtons(old(buttons[..]), clicked)
    {
      panels[i] := Shown(panels[i], targetId);
    }
  }

  /** The indices of the buttons that carry the `active` class. */
  function ActiveButtons(bs: seq<Button>): set<nat> {
    set i: nat | i < |bs| && bs[i].active
  }

  /**
    Exclusive selection: afterwards the clicked button is the only active one,
    its aria-selected is "true" and every other button's is "false"; the
    `data-tab` attributes are untouched.
   */
  lemma SelectionExclusive(bs: seq<Button>, clicked: nat)
    requires clicked < |bs|
    ensures ActiveButtons(SelectButtons(bs, clicked)) == {clicked}
    ensures forall i :: 0 <= i < |bs| ==>
      SelectButtons(bs, clicked)[i].ariaSelected == (if i == clicked then "true" else "false")
    ensures forall i :: 0 <= i < |bs| ==> SelectButtons(bs, clicked)[i].tab == bs[i].tab
  {
    var r := SelectButtons(bs, clicked);
    assert r[clicked].active;
    assert forall i :: i in ActiveButtons(r) ==> i == clicked;
  }

  /** Each panel is hidden exactly when its id differs from the target, and active exactly when shown. */
  lemma PanelsFollowTarget(ps: seq<Panel>, target: Option<string>)
    ensures |ShowPanels(ps, target)| == |ps|
    ensures forall k :: 0 <= k < |ps| ==>
      && (ShowPanels(ps, target)[k].hidden <==> target != Some(ps[k].id))
      && (ShowPanels(ps, target)[k].active <==> !ShowPanels(ps, target)[k].hidden)
      && ShowPanels(ps, target)[k].id == ps[k].id
  {
  }

  /** The number of panels that are not hidden. */
  function VisibleCount(ps: seq<Panel>): nat {
    if ps == [] then 0 else (if ps[0].hidden then 0 else 1) + VisibleCount(ps[1..])
  }

  /** The number of panels whose id is the target. */
  function MatchCount(ps: seq<Panel>, target: Option<string>): nat {
    if ps == [] then 0 else (if target == Some(ps[0].id) then 1 else 0) + MatchCount(ps[1..], target)
  }

  /** After activation, as many panels are visible as there are panels with the target id. */
  lemma {:induction false} VisibleIsMatching(ps: seq<Panel>, target: Option<string>)
    ensures VisibleCount(ShowPanels(ps, target)) == MatchCount(ps, target)
  {
    if ps != [] {
      assert ShowPanels(ps, target)[1..] == ShowPanels(ps[1..], target);
      VisibleIsMatching(ps[1..], target);
    }
  }

  /** No two panels share an id. */
  ghost predicate DistinctIds(ps: seq<Panel>) {
    forall i, j :: 0 <= i < j < |ps| ==> ps[i].id != ps[j].id
  }

  lemma {:induction false} NoMatchCount(ps: seq<Panel>, target: Option<string>)
    requires forall k :: 0 <= k < |ps| ==> target != Some(ps[k].id)
    ensures MatchCount(ps, target) == 0
  {
    if ps != [] {
      NoMatchCount(ps[1..], target);
    }
  }

  lemma {:induction false} SingleMatchCount(ps: seq<Panel>, k: nat)
    requires DistinctIds(ps) && k < |ps|
    ensures MatchCount(ps, Some(ps[k].id)) == 1
  {
    if k == 0 {
      NoMatchCount(ps[1..], Some(ps[0].id));
    } else {
      assert ps[0].id != ps[k].id;
      assert ps[1..][k - 1] == ps[k];
      SingleMatchCount(ps[1..], k - 1);
    }
  }

  /**
    With distinct panel ids and a button whose `data-tab` names one of them,
    exactly one panel is visible after activation: the one with that id.
   */
  lemma ExactlyOneVisible(ps: seq<Panel>, k: nat)
    requires DistinctIds(ps) && k < |ps|
    ensures VisibleCount(ShowPanels(ps, Some(ps[k].id))) == 1
    ensures !ShowPanels(ps, Some(ps[k].id))[k].hidden
  {
    VisibleIsMatching(ps, Some(ps[k].id));
    SingleMatchCount(ps, k);
  }

  /**
    Nothing guards against a target that names no panel, or a button with no
    `data-tab`: then every panel is hidden.
   */
  lemma NoMatchHidesAll(ps: seq<Panel>, target: Option<string>)
    requires forall k :: 0 <= k < |ps| ==> target != Some(ps[k].id)
    ensures VisibleCount(ShowPanels(ps, target)) == 0
    ensures forall k :: 0 <= k < |ps| ==> ShowPanels(ps, target)[k].hidden
  {
    VisibleIsMatching(ps, target);
    NoMatchCount(ps, target);
  }

  /**
    Activating the same button twice leaves the page as one activation does:
    the clicked button keeps its `data-tab`, and both updates are idempotent.
   */
  lemma ActivateTwice(bs: seq<Button>, ps: seq<Panel>, clicked: nat)
    requires clicked < |bs|
    ensures SelectButtons(bs, clicked)[clicked].tab == bs[clicked].tab
    ensures SelectButtons(SelectButtons(bs, clicked), clicked) == SelectButtons(bs, clicked)
    ensures ShowPanels(ShowPanels(ps, bs[clicked].tab), bs[clicked].tab) == ShowPanels(ps, bs[clicked].tab)
  {
  }

  /** Three buttons targeting "p1", "p2" and "p3", the first one selected. */
  const ThreeButtons := [Button(Some("p1"), true, "true"), Button(Some("p2"), false, "false"), Button(Some("p3"), false, "false")]

  /** The three panels they target, the first one shown. */
  const ThreePanels := [Panel("p1", false, true), Panel("p2", true, false), Panel("p3", true, false)]

  /** Clicking the second of three tabs makes it the only active button and shows p2 alone. */
  lemma SecondTabScenario()
    ensures ActiveButtons(SelectButtons(ThreeButtons, 1)) == {1}
    ensures ShowPanels(ThreePanels, ThreeButtons[1].tab) == [Panel("p1", true, false), Panel("p2", false, true), Panel("p3", true, false)]
  {
    SelectionExclusive(ThreeButtons, 1);
    assert "p1" != "p2" && "p3" != "p2";
  }
}
