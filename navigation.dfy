/** The top navigation bar: which item is active, and the `scrolled` style flag. */
module Navigation {
  datatype NavItem = NavItem(caption: string, href: string)

  /** A rendered nav link; `active` selects the highlight colour. */
  datatype NavLink = NavLink(href: string, caption: string, active: bool, underline: bool)

  const NavItems: seq<NavItem> := [NavItem("Home", "/"), NavItem("Work", "/work"), NavItem("Experience", "/experience")]

  /** Pixels scrolled past which the bar switches to its compact style. */
  const ScrollThreshold: real := 50.0

  /** An item is active only when the path equals its href exactly. */
  predicate IsActive(pathname: string, item: NavItem) {
    pathname == item.href
  }

  /** One link: highlighted and underlined exactly when its item is active. */
  function RenderItem(pathname: string, item: NavItem): (l: NavLink)
    ensures l.href == item.href && l.caption == item.caption
    ensures l.active <==> pathname == item.href
    ensures l.underline <==> l.active
  {
    var active := IsActive(pathname, item);
    NavLink(item.href, item.caption, active, active)
  }

  /** The links, one per item, in order. */
  function Render(pathname: string, items: seq<NavItem>): (r: seq<NavLink>)
    ensures |r| == |items|
    ensures forall i :: 0 <= i < |r| ==> r[i] == RenderItem(pathname, items[i])
  {
    seq(|items|, i requires 0 <= i < |items| => RenderItem(pathname, items[i]))
  }

  /** How many links come out active. */
  function ActiveCount(pathname: string, items: seq<NavItem>): (n: nat)
    ensures n <= |items|
  {
    if items == [] then 0
    else (if IsActive(pathname, items[0]) then 1 else 0) + ActiveCount(pathname, items[1..])
  }

  predicate DistinctHrefs(items: seq<NavItem>) {
    forall i, j :: 0 <= i < j < |items| ==> items[i].href != items[j].href
  }

  /** No link is active exactly when the path is no item's href. */
  lemma {:induction false} NoneActiveIffNoMatch(pathname: string, items: seq<NavItem>)
    ensures ActiveCount(pathname, items) == 0 <==> forall i :: 0 <= i < |items| ==> items[i].href != pathname
  {
    if items != [] {
      NoneActiveIffNoMatch(pathname, items[1..]);
      assert forall i :: 1 <= i < |items| ==> items[i] == items[1..][i - 1];
    }
  }

  /** With distinct hrefs, at most one link is active. */
  lemma {:induction false} AtMostOneActive(pathname: string, items: seq<NavItem>)
    requires DistinctHrefs(items)
    ensures ActiveCount(pathname, items) <= 1
  {
    if items != [] {
      AtMostOneActive(pathname, items[1..]);
      if IsActive(pathname, items[0]) {
        NoneActiveIffNoMatch(pathname, items[1..]);
      }
    }
  }

  /** The site's three items have distinct hrefs, so each of them is the only active one on its own path. */
  lemma NavItemsActivation(i: nat)
    requires i < |NavItems|
    ensures DistinctHrefs(NavItems)
    ensures ActiveCount(NavItems[i].href, NavItems) == 1
    ensures forall j :: 0 <= j < |NavItems| ==> (Render(NavItems[i].href, NavItems)[j].active <==> j == i)
  {
  }

  /** A path below an item's href activates nothing: there is no prefix matching. */
  lemma ExactMatchOnly()
    ensures ActiveCount("/work/x", NavItems) == 0
  {
    NoneActiveIffNoMatch("/work/x", NavItems);
  }

  /** The bar's one piece of state, set by the window's and the snap container's scroll listeners. */
  class NavigationBar {
    const pathname: string
    var scrolled: bool

    constructor (pathname: string)
      ensures this.pathname == pathname && !scrolled
    {
      this.pathname := pathname;
      scrolled := false;
    }

    /** A scroll of the window to `scrollY`. */
    method OnWindowScroll(scrollY: real)
      modifies this
      ensures scrolled <==> scrollY > ScrollThreshold
    {
      scrolled := scrollY > ScrollThreshold;
    }

    /** A scroll of the snap container to `scrollTop`; only attached when the container exists. */
    method OnSnapContainerScroll(scrollTop: real)
      modifies this
      ensures scrolled <==> scrollTop > ScrollThreshold
    {
      scrolled := scrollTop > ScrollThreshold;
    }

    function Links(): (r: seq<NavLink>)
      reads this
      ensures ActiveCount(pathname, NavItems) <= 1
      ensures |r| == |NavItems|
      ensures forall i :: 0 <= i < |r| ==> (r[i].active <==> pathname == NavItems[i].href)
      ensures forall i, j :: 0 <= i < j < |r| ==> !(r[i].active && r[j].active)
    {
      AtMostOneActive(pathname, NavItems);
      Render(pathname, NavItems)
    }
  }
}
