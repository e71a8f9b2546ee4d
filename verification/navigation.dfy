/**
 * Tab navigation and the mobile menu (script.js, hamburger handler and
 * handleTabClick): which tab buttons and content panels carry the `active`
 * class, and whether the mobile menu is shown.
 */
module Navigation {

  /** A `.tab-btn`: its `data-tab` key and whether it has the `active` class. */
  datatype Tab = Tab(key: string, active: bool)

  /** A `.content-panel`: its `id` and whether it has the `active` class. */
  datatype Panel = Panel(id: string, active: bool)

  /** The tabs after selecting `target`: each keeps its key; exactly those with key `target` are active. */
  function SelectTabs(tabs: seq<Tab>, target: string): (r: seq<Tab>)
    ensures |r| == |tabs|
    ensures forall i :: 0 <= i < |r| ==> r[i].key == tabs[i].key
    ensures forall i :: 0 <= i < |r| ==> (r[i].active <==> tabs[i].key == target)
  {
    seq(|tabs|, i requires 0 <= i < |tabs| => Tab(tabs[i].key, tabs[i].key == target))
  }

  /** The panels after selecting `target`: exactly the panel(s) with id `target` are active. */
  function SelectPanels(panels: seq<Panel>, target: string): (r: seq<Panel>)
    ensures |r| == |panels|
    ensures forall i :: 0 <= i < |r| ==> r[i].id == panels[i].id
    ensures forall i :: 0 <= i < |r| ==> (r[i].active <==> panels[i].id == target)
  {
    seq(|panels|, i requires 0 <= i < |panels| => Panel(panels[i].id, panels[i].id == target))
  }

  predicate DistinctKeys(tabs: seq<Tab>) {
    forall i, j :: 0 <= i < j < |tabs| ==> tabs[i].key != tabs[j].key
  }

  // ---------------------------------------------------------------- lemmas

  /**
   * `allTabs` holds the buttons of both navigations, the desktop ones and the
   * mobile ones, so each key appears once per navigation. When each navigation
   * has distinct keys and both offer `target`, selecting it leaves exactly one
   * button active in each: the desktop button `kd` and the mobile button `km`.
   */
  lemma ExactlyOneTabActive(desktop: seq<Tab>, mobile: seq<Tab>, target: string, kd: nat, km: nat)
    requires DistinctKeys(desktop) && kd < |desktop| && desktop[kd].key == target
    requires DistinctKeys(mobile) && km < |mobile| && mobile[km].key == target
    ensures var r := SelectTabs(desktop + mobile, target);
      && r[kd].active && r[|desktop| + km].active
      && forall i :: 0 <= i < |r| && i != kd && i != |desktop| + km ==> !r[i].active
  {
    var all := desktop + mobile;
    forall i | 0 <= i < |all| && i != kd && i != |desktop| + km
      ensures all[i].key != target
    {
      if i < |desktop| {
        assert all[i] == desktop[i];
      } else {
        assert all[i] == mobile[i - |desktop|];
      }
    }
  }

  /** Selecting a key no tab has leaves no tab active. */
  lemma NoTabActiveForUnknownKey(tabs: seq<Tab>, target: string)
    requires forall i :: 0 <= i < |tabs| ==> tabs[i].key != target
    ensures forall i :: 0 <= i < |tabs| ==> !SelectTabs(tabs, target)[i].active
  {
  }

  /** The result does not depend on which tabs were active before: clicking twice is clicking once. */
  lemma SelectIgnoresPreviousState(tabs: seq<Tab>, panels: seq<Panel>, target: string, other: string)
    ensures SelectTabs(SelectTabs(tabs, other), target) == SelectTabs(tabs, target)
    ensures SelectPanels(SelectPanels(panels, other), target) == SelectPanels(panels, target)
  {
  }

  // ---------------------------------------------------------------- the page

  class Page {
    var tabs: seq<Tab>
    var panels: seq<Panel>
    /** `.mobile-nav` has the `show` class. */
    var menuShown: bool
    /** `.hamburger-menu` has the `active` class. */
    var hamburgerActive: bool

    /** The two classes are only ever toggled together. */
    ghost predicate Valid()
      reads this
    {
      menuShown == hamburgerActive
    }

    /** The page as loaded: the given tabs and panels, mobile menu closed. */
    constructor (tabs: seq<Tab>, panels: seq<Panel>)
      ensures Valid() && this.tabs == tabs && this.panels == panels
      ensures !menuShown && !hamburgerActive
    {
      this.tabs := tabs;
      this.panels := panels;
      menuShown := false;
      hamburgerActive := false;
    }

    /** The hamburger button's click handler: toggles both classes. */
    method ToggleMenu()
      modifies this
      ensures menuShown == !old(menuShown) && hamburgerActive == !old(hamburgerActive)
      ensures tabs == old(tabs) && panels == old(panels)
      ensures old(Valid()) ==> Valid()
    {
      hamburgerActive := !hamburgerActive;
      menuShown := !menuShown;
    }

    /**
     * Activates the tabs keyed `target` and the panel(s) with id `target`,
     * deactivates all others, and closes the mobile menu if it is open.
     */
    method HandleTabClick(target: string)
      modifies this
      ensures tabs == SelectTabs(old(tabs), target)
      ensures panels == SelectPanels(old(panels), target)
      ensures !menuShown
      ensures hamburgerActive == (old(hamburgerActive) && !old(menuShown))
      ensures old(Valid()) ==> Valid() && !hamburgerActive
    {
      var i := 0;
      while i < |tabs|
        invariant 0 <= i <= |tabs| == |old(tabs)|
        invariant forall k :: 0 <= k < i ==> tabs[k] == SelectTabs(old(tabs), target)[k]
        invariant forall k :: i <= k < |tabs| ==> tabs[k] == old(tabs)[k]
        invariant panels == old(panels) && menuShown == old(menuShown)
        invariant hamburgerActive == old(hamburgerActive)
      {
        var t := tabs[i];
        if t.key == target {
          t := t.(active := true);
        } else {
          t := t.(active := false);
        }
        tabs := tabs[i := t];
        i := i + 1;
      }
      assert tabs == SelectTabs(old(tabs), target);

      var j := 0;
      while j < |panels|
        invariant 0 <= j <= |panels| == |old(panels)|
        invariant forall k :: 0 <= k < j ==> panels[k] == SelectPanels(old(panels), target)[k]
        invariant forall k :: j <= k < |panels| ==> panels[k] == old(panels)[k]
        invariant tabs == SelectTabs(old(tabs), target)
        invariant menuShown == old(menuShown) && hamburgerActive == old(hamburgerActive)
      {
        var p := panels[j].(active := false);
        if p.id == target {
          p := p.(active := true);
        }
        panels := panels[j := p];
        j := j + 1;
      }
      assert panels == SelectPanels(old(panels), target);

      if menuShown {
        menuShown := false;
        hamburgerActive := false;
      }
    }
  }
}
