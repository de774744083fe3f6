/** The publications list with its "selected only" filter. */
module Publications {
  import opened ListView

  datatype Publication = Publication(
    id: int, title: string, authors: string, venue: string, year: int,
    selected: bool, link: string, image: string)

  function IsSelected(p: Publication): bool {
    p.selected
  }

  /** `displayedPubs` */
  function Displayed(pubs: seq<Publication>, selectedOnly: bool): seq<Publication> {
    SelectedView(pubs, IsSelected, selectedOnly)
  }

  /** The header: the number of publications and the number of selected ones. */
  datatype HeaderCounts = HeaderCounts(total: nat, selected: nat)

  function Header(pubs: seq<Publication>): HeaderCounts {
    HeaderCounts(|pubs|, |Keep(pubs, IsSelected)|)
  }

  /**
   * With the filter on, the list is exactly the selected publications in
   * array order, as many as the header's
   * "selected" count; with it off, all publications in array order.
   */
  lemma DisplayedContents(pubs: seq<Publication>)
    ensures OrderedSelection(Displayed(pubs, true), pubs, IsSelected)
    ensures Displayed(pubs, false) == pubs
    ensures |Displayed(pubs, true)| == Header(pubs).selected <= Header(pubs).total == |Displayed(pubs, false)|
  {
    KeepIsOrderedSelection(pubs, IsSelected);
    KeepMembers(pubs, IsSelected);
  }

  /**
   * A rendered card: the publication it shows, its link, the "Selected" badge and
   * the emphasised border and background that selected publications get.
   */
  datatype PublicationCard = PublicationCard(item: Publication, href: string, badge: bool, emphasised: bool)

  function Card(x: Publication): PublicationCard {
    PublicationCard(x, x.link, x.selected, x.selected)
  }

  function CardItem(c: PublicationCard): Publication {
    c.item
  }

  function CardBadge(c: PublicationCard): bool {
    c.badge
  }

  /** The cards of the list as displayed, one per publication, in order. */
  function Cards(pubs: seq<Publication>, selectedOnly: bool): (cards: seq<PublicationCard>)
    ensures |cards| == |Displayed(pubs, selectedOnly)|
    ensures forall i :: 0 <= i < |cards| ==>
      cards[i].item == Displayed(pubs, selectedOnly)[i] && cards[i].href == cards[i].item.link &&
      (cards[i].badge <==> cards[i].item.selected) && cards[i].emphasised == cards[i].badge
  {
    var shown := Displayed(pubs, selectedOnly);
    seq(|shown|, i requires 0 <= i < |shown| => Card(shown[i]))
  }

  /**
   * In either view the badged cards, in order, show exactly the selected
   * publications, so the badges number the header's "selected" count; with the
   * filter on, every card is badged.
   */
  lemma BadgesMatchSelection(pubs: seq<Publication>, selectedOnly: bool)
    ensures BadgedItems(Cards(pubs, selectedOnly), CardItem, CardBadge) == Displayed(pubs, true)
    ensures |BadgedItems(Cards(pubs, selectedOnly), CardItem, CardBadge)| == Header(pubs).selected
    ensures selectedOnly ==> forall i :: 0 <= i < |Cards(pubs, selectedOnly)| ==> Cards(pubs, selectedOnly)[i].badge
  {
    var shown := Displayed(pubs, selectedOnly);
    BadgedItemsAreKept(shown, Cards(pubs, selectedOnly), IsSelected, CardItem, CardBadge);
    SelectionOfView(pubs, IsSelected, selectedOnly);
    KeepMembers(pubs, IsSelected);
  }

  /** The `PublicationsSection` component's state. */
  class PublicationsSection {
    const publications: seq<Publication>
    var showSelectedOnly: bool

    constructor (publications: seq<Publication>)
      ensures this.publications == publications && !showSelectedOnly
    {
      this.publications := publications;
      showSelectedOnly := false;
    }

    /** The header counts as rendered: they depend on the list alone, not on the filter. */
    function HeaderShown(): HeaderCounts
      reads this
    {
      Header(publications)
    }

    function DisplayedPubs(): seq<Publication>
      reads this
    {
      Displayed(publications, showSelectedOnly)
    }

    /** The filter button: flips the flag; the header counts stay as they were. */
    method ToggleSelectedOnly()
      modifies this
      ensures showSelectedOnly == !old(showSelectedOnly)
      ensures HeaderShown() == old(HeaderShown())
    {
      showSelectedOnly := !showSelectedOnly;
    }
  }

  /** Two clicks on the filter button bring back the list the reader started from. */
  method ToggleTwice(section: PublicationsSection)
    modifies section
    ensures section.DisplayedPubs() == old(section.DisplayedPubs())
  {
    section.ToggleSelectedOnly();
    section.ToggleSelectedOnly();
  }
}
