/** The Work page: four tabs, each showing one section. */
module Work {
  import opened Wrappers
  import Press

  datatype Tab = Tab(id: string, caption: string)

  datatype Section = PublicationsSection | ProjectsSection | PressSection | AwardsSection

  const Tabs: seq<Tab> := [
    Tab("publications", "Publications"), Tab("projects", "Projects"),
    Tab("press", "Press & Talks"), Tab("awards", "Honors & Awards")]

  /** The section each tab stands for, in the order of `Tabs`. */
  const TabSections: seq<Section> := [PublicationsSection, ProjectsSection, PressSection, AwardsSection]

  const InitialTab := "publications"

  /** The four `activeTab === id && <Section />` guards, in render order. */
  function RenderedSections(activeTab: string): seq<Section> {
    (if activeTab == "publications" then [PublicationsSection] else [])
    + (if activeTab == "projects" then [ProjectsSection] else [])
    + (if activeTab == "press" then [PressSection] else [])
    + (if activeTab == "awards" then [AwardsSection] else [])
  }

  predicate IsTabId(id: string) {
    exists i :: 0 <= i < |Tabs| && Tabs[i].id == id
  }

  /** A tab button carries the active style iff its id equals `activeTab`. */
  predicate IsActiveTab(activeTab: string, tab: Tab) {
    activeTab == tab.id
  }

  /** Tab ids are distinct. */
  lemma TabIdsDistinct()
    ensures forall i, j :: 0 <= i < j < |Tabs| ==> Tabs[i].id != Tabs[j].id
  {
  }

  /**
   * Each tab's id renders exactly its own section; any other string renders
   * no section at all.
   */
  lemma {:induction false} RenderedSectionsCases(activeTab: string)
    ensures forall i :: 0 <= i < |Tabs| && Tabs[i].id == activeTab ==> RenderedSections(activeTab) == [TabSections[i]]
    ensures !IsTabId(activeTab) ==> RenderedSections(activeTab) == []
    ensures |RenderedSections(activeTab)| == 1 <==> IsTabId(activeTab)
  {
    if !IsTabId(activeTab) {
      assert Tabs[0].id != activeTab && Tabs[1].id != activeTab && Tabs[2].id != activeTab && Tabs[3].id != activeTab;
    } else {
      var i :| 0 <= i < |Tabs| && Tabs[i].id == activeTab;
      assert i == 0 || i == 1 || i == 2 || i == 3;
    }
  }

  /** When `activeTab` is a tab id, exactly that tab gets the active style. */
  lemma ExactlyOneActiveTab(i: nat)
    requires i < |Tabs|
    ensures forall j :: 0 <= j < |Tabs| ==> (IsActiveTab(Tabs[i].id, Tabs[j]) <==> j == i)
  {
    TabIdsDistinct();
  }

  /**
   * The Work page mounts `<PressSection />` without a `highlightId`, so no
   * press card is marked and no scroll is requested, whatever the filter.
   */
  lemma PressTabHighlightsNothing(items: seq<Press.PressItem>, selectedOnly: bool)
    ensures Press.ScrollTarget(Press.Displayed(items, selectedOnly), None) == None
    ensures forall i :: 0 <= i < |items| ==> !Press.Card(items[i], None).highlighted
  {
  }

  /** The page's `activeTab` state. */
  class WorkPage {
    var activeTab: string

    predicate Valid()
      reads this
    {
      IsTabId(activeTab)
    }

    constructor ()
      ensures activeTab == InitialTab && Valid()
    {
      activeTab := InitialTab;
      assert Tabs[0].id == InitialTab;
    }

    /** A click on the `i`th tab button. */
    method SelectTab(i: nat)
      requires i < |Tabs|
      modifies this
      ensures activeTab == Tabs[i].id && Valid()
    {
      activeTab := Tabs[i].id;
    }

    /** The page always shows exactly one section: the one of the active tab. */
    function Sections(): (r: seq<Section>)
      requires Valid()
      reads this
      ensures |r| == 1
      ensures forall i :: 0 <= i < |Tabs| && Tabs[i].id == activeTab ==> r == [TabSections[i]]
    {
      RenderedSectionsCases(activeTab);
      RenderedSections(activeTab)
    }
  }
}
