/** The projects grid with its "selected only" filter and tag chips. */
module Projects {
  import opened ListView

  datatype Project = Project(
    id: int, title: string, description: string, tags: seq<string>,
    selected: bool, link: string, image: string)

  function IsSelected(p: Project): bool {
    p.selected
  }

  /** `displayedProjects` */
  function Displayed(projects: seq<Project>, selectedOnly: bool): seq<Project> {
    SelectedView(projects, IsSelected, selectedOnly)
  }

  /** The header: the number of projects and the number of selected ones. */
  datatype HeaderCounts = HeaderCounts(total: nat, selected: nat)

  function Header(projects: seq<Project>): HeaderCounts {
    HeaderCounts(|projects|, |Keep(projects, IsSelected)|)
  }

  /**
   * With the filter on, the grid is exactly the selected projects in array
   * order, as many as the header's "selected" count; with it off, all
   * projects in array order.
   */
  lemma DisplayedContents(projects: seq<Project>)
    ensures OrderedSelection(Displayed(projects, true), projects, IsSelected)
    ensures Displayed(projects, false) == projects
    ensures |Displayed(projects, true)| == Header(projects).selected <= Header(projects).total == |Displayed(projects, false)|
  {
    KeepIsOrderedSelection(projects, IsSelected);
    KeepMembers(projects, IsSelected);
  }

  /** A tag chip, keyed and labelled by its tag. */
  datatype Chip = Chip(key: string, text: string)

  /** One chip per tag of the project, in the order of its `tags`. */
  function TagChips(p: Project): (chips: seq<Chip>)
    ensures |chips| == |p.tags|
    ensures forall i :: 0 <= i < |chips| ==> chips[i].text == p.tags[i] && chips[i].key == p.tags[i]
  {
    seq(|p.tags|, i requires 0 <= i < |p.tags| => Chip(p.tags[i], p.tags[i]))
  }

  /**
   * A rendered card: the project it shows, its link, the "Selected" badge,
   * the emphasised border and background that selected projects get, and
   * its tag chips.
   */
  datatype ProjectCard = ProjectCard(item: Project, href: string, badge: bool, emphasised: bool, chips: seq<Chip>)

  function Card(x: Project): ProjectCard {
    ProjectCard(x, x.link, x.selected, x.selected, TagChips(x))
  }

  function CardItem(c: ProjectCard): Project {
    c.item
  }

  function CardBadge(c: ProjectCard): bool {
    c.badge
  }

  /** The cards of the list as displayed, one per project, in order. */
  function Cards(projects: seq<Project>, selectedOnly: bool): (cards: seq<ProjectCard>)
    ensures |cards| == |Displayed(projects, selectedOnly)|
    ensures forall i :: 0 <= i < |cards| ==>
      cards[i].item == Displayed(projects, selectedOnly)[i] && cards[i].href == cards[i].item.link &&
      (cards[i].badge <==> cards[i].item.selected) && cards[i].emphasised == cards[i].badge &&
      cards[i].chips == TagChips(cards[i].item)
  {
    var shown := Displayed(projects, selectedOnly);
    seq(|shown|, i requires 0 <= i < |shown| => Card(shown[i]))
  }

  /**
   * In either view the badged cards, in order, show exactly the selected
   * projects, so the badges number the header's "selected" count; with the
   * filter on, every card is badged.
   */
  lemma BadgesMatchSelection(projects: seq<Project>, selectedOnly: bool)
    ensures BadgedItems(Cards(projects, selectedOnly), CardItem, CardBadge) == Displayed(projects, true)
    ensures |BadgedItems(Cards(projects, selectedOnly), CardItem, CardBadge)| == Header(projects).selected
    ensures selectedOnly ==> forall i :: 0 <= i < |Cards(projects, selectedOnly)| ==> Cards(projects, selectedOnly)[i].badge
  {
    var shown := Displayed(projects, selectedOnly);
    BadgedItemsAreKept(shown, Cards(projects, selectedOnly), IsSelected, CardItem, CardBadge);
    SelectionOfView(projects, IsSelected, selectedOnly);
    KeepMembers(projects, IsSelected);
  }

  /** The `ProjectsSection` component's state. */
  class ProjectsSection {
    const projects: seq<Project>
    var showSelectedOnly: bool

    constructor (projects: seq<Project>)
      ensures this.projects == projects && !showSelectedOnly
    {
      this.projects := projects;
      showSelectedOnly := false;
    }

    /** The header counts as rendered: they depend on the list alone, not on the filter. */
    function HeaderShown(): HeaderCounts
      reads this
    {
      Header(projects)
    }

    function DisplayedProjects(): seq<Project>
      reads this
    {
      Displayed(projects, showSelectedOnly)
    }

    /** The filter button: flips the flag; the header counts stay as they were. */
    method ToggleSelectedOnly()
      modifies this
      ensures showSelectedOnly == !old(showSelectedOnly)
      ensures HeaderShown() == old(HeaderShown())
    {
      showSelectedOnly := !showSelectedOnly;
    }
  }
}
