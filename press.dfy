/**
 * The press and talks list: the "selected only" filter, and the card whose
 * id equals the `highlightId` prop, which is marked and scrolled to.
 */
module Press {
  import opened Wrappers
  import opened Js
  import opened Html
  import opened ListView

  datatype PressKind = Article | Talk

  datatype PressItem = PressItem(
    id: int, title: string, source: string, kind: PressKind, date: string,
    selected: bool, link: Option<string>, image: string)

  function IsSelected(p: PressItem): bool {
    p.selected
  }

  /** `displayedItems` */
  function Displayed(items: seq<PressItem>, selectedOnly: bool): seq<PressItem> {
    SelectedView(items, IsSelected, selectedOnly)
  }

  /** The header: the number of items and the number of selected ones. */
  datatype HeaderCounts = HeaderCounts(total: nat, selected: nat)

  function Header(items: seq<PressItem>): HeaderCounts {
    HeaderCounts(|items|, |Keep(items, IsSelected)|)
  }

  /**
   * With the filter on, the list is exactly the selected items in array
   * order, as many as the header's "selected" count; with it off, all items.
   */
  lemma DisplayedContents(items: seq<PressItem>)
    ensures OrderedSelection(Displayed(items, true), items, IsSelected)
    ensures Displayed(items, false) == items
    ensures |Displayed(items, true)| == Header(items).selected <= Header(items).total == |Displayed(items, false)|
  {
    KeepIsOrderedSelection(items, IsSelected);
  }

  /** `item.id === highlightId`: an absent `highlightId` matches no item. */
  predicate Matches(item: PressItem, highlightId: Option<int>) {
    highlightId == Some(item.id)
  }

  /**
   * What a card decides: its element, the `highlight-card` marker, whether
   * the scroll ref is attached to it, the "Selected" badge and the chevron.
   */
  datatype PressCard = PressCard(element: Element, highlighted: bool, holdsRef: bool, badge: bool, chevron: bool)

  /**
   * A card is an anchor opening a new tab iff its link is truthy, else a
   * div; the chevron shows iff the link is truthy; the marker and the ref
   * go to the card whose id equals `highlightId`; the badge iff selected.
   */
  function Card(item: PressItem, highlightId: Option<int>): (c: PressCard)
    ensures c.element.Anchor? <==> StringTruthy(item.link)
    ensures c.element.Anchor? ==> OpensNewTab(c.element) && c.element.href == item.link.value
    ensures c.chevron <==> c.element.Anchor?
    ensures c.highlighted <==> Matches(item, highlightId)
    ensures c.holdsRef <==> c.highlighted
    ensures c.badge <==> item.selected
  {
    var element := if StringTruthy(item.link) then Anchor(item.link.value, Some(Blank), Some(NoOpener)) else Div;
    var matches := Matches(item, highlightId);
    PressCard(element, matches, matches, item.selected, StringTruthy(item.link))
  }

  /**
   * The displayed card the ref object ends up on: refs are attached in
   * render order, so the last matching card holds it.
   */
  function RefHolder(displayed: seq<PressItem>, highlightId: Option<int>): (r: Option<nat>)
    ensures r.Some? ==> r.value < |displayed| && Matches(displayed[r.value], highlightId)
    ensures r.Some? ==> forall j :: r.value < j < |displayed| ==> !Matches(displayed[j], highlightId)
    ensures r.None? ==> forall j :: 0 <= j < |displayed| ==> !Matches(displayed[j], highlightId)
  {
    if displayed == [] then None
    else if Matches(displayed[|displayed| - 1], highlightId) then Some(|displayed| - 1)
    else RefHolder(displayed[..|displayed| - 1], highlightId)
  }

  /**
   * The effect on `highlightId`: the index of the card scrolled into view, if
   * any. It scrolls only when `highlightId` is truthy and some card holds the ref.
   */
  function ScrollTarget(displayed: seq<PressItem>, highlightId: Option<int>): Option<nat> {
    if NumberTruthy(highlightId) then RefHolder(displayed, highlightId) else None
  }

  /**
   * A scroll is requested iff `highlightId` is truthy (not null, undefined
   * or 0) and a displayed card matches it; the card scrolled to is marked
   * and holds the ref.
   */
  lemma ScrollTargetCases(displayed: seq<PressItem>, highlightId: Option<int>)
    ensures ScrollTarget(displayed, highlightId).Some? <==>
      NumberTruthy(highlightId) && exists i :: 0 <= i < |displayed| && displayed[i].id == highlightId.value
    ensures ScrollTarget(displayed, highlightId).Some? ==>
      var i := ScrollTarget(displayed, highlightId).value;
      i < |displayed| && Card(displayed[i], highlightId).highlighted && Card(displayed[i], highlightId).holdsRef
  {
    if NumberTruthy(highlightId) && RefHolder(displayed, highlightId).None? {
      assert forall i :: 0 <= i < |displayed| ==> displayed[i].id != highlightId.value by {
        forall i | 0 <= i < |displayed| ensures displayed[i].id != highlightId.value {
          assert !Matches(displayed[i], highlightId);
        }
      }
    }
  }

  predicate DistinctIds(items: seq<PressItem>) {
    forall i, j :: 0 <= i < j < |items| ==> items[i].id != items[j].id
  }

  /** With distinct ids, a truthy `highlightId` scrolls to the one displayed card with that id. */
  lemma ScrollsToTheMatchingCard(displayed: seq<PressItem>, highlightId: Option<int>, i: nat)
    requires DistinctIds(displayed)
    requires NumberTruthy(highlightId) && i < |displayed| && displayed[i].id == highlightId.value
    ensures ScrollTarget(displayed, highlightId) == Some(i)
  {
    var r := RefHolder(displayed, highlightId);
    if r.None? {
      assert false;
    } else if r.value != i {
      assert false;
    }
  }

  /**
   * An item hidden by the filter is never scrolled to: when every item with
   * that id is unselected, the selected-only view requests no scroll.
   */
  lemma FilteredOutIsNotScrolled(items: seq<PressItem>, highlightId: Option<int>)
    requires forall i :: 0 <= i < |items| && Matches(items[i], highlightId) ==> !items[i].selected
    ensures ScrollTarget(Displayed(items, true), highlightId) == None
  {
    var shown := Displayed(items, true);
    KeepMembers(items, IsSelected);
    if ScrollTarget(shown, highlightId).Some? {
      assert false;
    }
  }

  /** The `PressSection` component's state; `highlightId` is its prop. */
  class PressSection {
    const items: seq<PressItem>
    const highlightId: Option<int>
    var showSelectedOnly: bool

    constructor (items: seq<PressItem>, highlightId: Option<int>)
      ensures this.items == items && this.highlightId == highlightId && !showSelectedOnly
    {
      this.items, this.highlightId := items, highlightId;
      showSelectedOnly := false;
    }

    function DisplayedItems(): seq<PressItem>
      reads this
    {
      Displayed(items, showSelectedOnly)
    }

    /** The header counts as rendered: they depend on the list alone, not on the filter. */
    function HeaderShown(): HeaderCounts
      reads this
    {
      Header(items)
    }

    /**
     * The effect as it runs on mount, with the filter still off: it scrolls
     * to the matching item of the whole list, if any.
     */
    method MountEffect() returns (target: Option<nat>)
      requires !showSelectedOnly
      ensures target == ScrollTarget(items, highlightId)
      ensures target.Some? ==> target.value < |items| && items[target.value].id == highlightId.value
    {
      target := if NumberTruthy(highlightId) then RefHolder(DisplayedItems(), highlightId) else None;
    }

    /**
     * The filter button: flips the flag; the header stays as it was. The
     * effect depends on `highlightId` only, so the toggle scrolls nothing.
     */
    method ToggleSelectedOnly()
      modifies this
      ensures showSelectedOnly == !old(showSelectedOnly)
      ensures HeaderShown() == old(HeaderShown())
    {
      showSelectedOnly := !showSelectedOnly;
    }
  }
}
