/** The honors and awards list with its "selected only" filter. */
module Awards {
  import opened ListView

  datatype Award = Award(
    id: int, title: string, organization: string, description: string, year: int,
    selected: bool, link: string, image: string)

  function IsSelected(a: Award): bool {
    a.selected
  }

  /** `displayedAwards` */
  function Displayed(awards: seq<Award>, selectedOnly: bool): seq<Award> {
    SelectedView(awards, IsSelected, selectedOnly)
  }

  /** The header: the number of awards and the number of selected ones. */
  datatype HeaderCounts = HeaderCounts(total: nat, selected: nat)

  function Header(awards: seq<Award>): HeaderCounts {
    HeaderCounts(|awards|, |Keep(awards, IsSelected)|)
  }

  /**
   * With the filter on, the list is exactly the selected awards in array
   * order, as many as the header's "selected" count; with it off, all
   * awards in array order.
   */
  lemma DisplayedContents(awards: seq<Award>)
    ensures OrderedSelection(Displayed(awards, true), awards, IsSelected)
    ensures Displayed(awards, false) == awards
    ensures |Displayed(awards, true)| == Header(awards).selected <= Header(awards).total == |Displayed(awards, false)|
  {
    KeepIsOrderedSelection(awards, IsSelected);
    KeepMembers(awards, IsSelected);
  }

  /**
   * A rendered card: the award it shows, its link, the "Selected" badge and
   * the emphasised border and background that selected awards get.
   */
  datatype AwardCard = AwardCard(item: Award, href: string, badge: bool, emphasised: bool)

  function Card(x: Award): AwardCard {
    AwardCard(x, x.link, x.selected, x.selected)
  }

  function CardItem(c: AwardCard): Award {
    c.item
  }

  function CardBadge(c: AwardCard): bool {
    c.badge
  }

  /** The cards of the list as displayed, one per award, in order. */
  function Cards(awards: seq<Award>, selectedOnly: bool): (cards: seq<AwardCard>)
    ensures |cards| == |Displayed(awards, selectedOnly)|
    ensures forall i :: 0 <= i < |cards| ==>
      cards[i].item == Displayed(awards, selectedOnly)[i] && cards[i].href == cards[i].item.link &&
      (cards[i].badge <==> cards[i].item.selected) && cards[i].emphasised == cards[i].badge
  {
    var shown := Displayed(awards, selectedOnly);
    seq(|shown|, i requires 0 <= i < |shown| => Card(shown[i]))
  }

  /**
   * In either view the badged cards, in order, show exactly the selected
   * awards, so the badges number the header's "selected" count; with the
   * filter on, every card is badged.
   */
  lemma BadgesMatchSelection(awards: seq<Award>, selectedOnly: bool)
    ensures BadgedItems(Cards(awards, selectedOnly), CardItem, CardBadge) == Displayed(awards, true)
    ensures |BadgedItems(Cards(awards, selectedOnly), CardItem, CardBadge)| == Header(awards).selected
    ensures selectedOnly ==> forall i :: 0 <= i < |Cards(awards, selectedOnly)| ==> Cards(awards, selectedOnly)[i].badge
  {
    var shown := Displayed(awards, selectedOnly);
    BadgedItemsAreKept(shown, Cards(awards, selectedOnly), IsSelected, CardItem, CardBadge);
    SelectionOfView(awards, IsSelected, selectedOnly);
    KeepMembers(awards, IsSelected);
  }

  /** The `AwardsSection` component's state. */
  class AwardsSection {
    const awards: seq<Award>
    var showSelectedOnly: bool

    constructor (awards: seq<Award>)
      ensures this.awards == awards && !showSelectedOnly
    {
      this.awards := awards;
      showSelectedOnly := false;
    }

    /** The header counts as rendered: they depend on the list alone, not on the filter. */
    function HeaderShown(): HeaderCounts
      reads this
    {
      Header(awards)
    }

    function DisplayedAwards(): seq<Award>
      reads this
    {
      Displayed(awards, showSelectedOnly)
    }

    /** The filter button: flips the flag; the header counts stay as they were. */
    method ToggleSelectedOnly()
      modifies this
      ensures showSelectedOnly == !old(showSelectedOnly)
      ensures HeaderShown() == old(HeaderShown())
    {
      showSelectedOnly := !showSelectedOnly;
    }
  }
}
