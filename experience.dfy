/**
 * The experience timeline: the first five entries in array order, and the
 * rest after "Show More".
 */
module Experience {
  import opened Js
  import opened ListView

  datatype Category = Education | Work | Research
  datatype Icon = GraduationCap | Briefcase | FlaskConical

  datatype CategoryConfig = CategoryConfig(icon: Icon, color: string, bgColor: string, caption: string)

  datatype TimelineItem = TimelineItem(
    id: int, category: Category, title: string, organization: string,
    period: string, impact: string, link: string)

  /** The number of entries shown before "Show More". */
  const CollapsedCount := 5

  /** `categoryConfig`, a record with one entry per category. */
  function Config(c: Category): CategoryConfig {
    match c
    case Education => CategoryConfig(GraduationCap, "text-chart-2", "bg-chart-2/20", "Education")
    case Work => CategoryConfig(Briefcase, "text-primary", "bg-primary/20", "Work")
    case Research => CategoryConfig(FlaskConical, "text-chart-3", "bg-chart-3/20", "Research")
  }

  /** The legend lists the entries of `categoryConfig` in declaration order. */
  const Legend: seq<Category> := [Education, Work, Research]

  /**
   * Every category has its own entry: distinct categories get distinct
   * icons and labels, and the legend lists each category exactly once.
   */
  lemma ConfigCoversEachCategoryOnce(c: Category, d: Category)
    ensures c != d ==> Config(c).icon != Config(d).icon && Config(c).caption != Config(d).caption
    ensures multiset(Legend)[c] == 1
  {
  }

  /** `displayedItems` (computed but not used by the markup). */
  function Displayed(items: seq<TimelineItem>, showAll: bool): seq<TimelineItem> {
    ToggledView(items, CollapsedCount, showAll)
  }

  /** `hiddenItems` */
  function Hidden(items: seq<TimelineItem>): seq<TimelineItem> {
    SliceFrom(items, CollapsedCount)
  }

  /** The cards in render order: `slice(0, 5)`, then `hiddenItems` when `showAll`. */
  function Rendered(items: seq<TimelineItem>, showAll: bool): seq<TimelineItem> {
    ExpandableView(items, CollapsedCount, showAll)
  }

  /**
   * Collapsed, the page shows the first min(length, 5) entries in array
   * order (no sorting); expanded, the whole array, each entry once.
   * Either way that is what `displayedItems` holds.
   */
  lemma RenderedContents(items: seq<TimelineItem>, showAll: bool)
    ensures Rendered(items, false) == items[..Min(|items|, CollapsedCount)]
    ensures Rendered(items, true) == items
    ensures Rendered(items, showAll) == Displayed(items, showAll)
  {
    ExpandableIsToggled(items, CollapsedCount, false);
    ExpandableIsToggled(items, CollapsedCount, true);
    ExpandableIsToggled(items, CollapsedCount, showAll);
    PrefixViewContents(items, CollapsedCount);
  }

  /** The button condition `timelineItems.length > 5`. */
  predicate ShowsToggle(items: seq<TimelineItem>) {
    HasToggle(items, CollapsedCount)
  }

  /** The "N more" of the collapsed label. */
  function MoreCount(items: seq<TimelineItem>): int {
    |items| - CollapsedCount
  }

  /**
   * The button appears iff entries are hidden, and its "N more" is exactly
   * the number of hidden entries, at least one.
   */
  lemma MoreCountIsHiddenCount(items: seq<TimelineItem>)
    ensures ShowsToggle(items) <==> Hidden(items) != []
    ensures ShowsToggle(items) ==> MoreCount(items) == |Hidden(items)| >= 1
  {
    ToggleIffSomethingHidden(items, CollapsedCount);
  }

  /** The `ExperiencePageContent` component's state. */
  class ExperiencePage {
    const timelineItems: seq<TimelineItem>
    var showAll: bool
    var isAnimating: bool

    constructor (timelineItems: seq<TimelineItem>)
      ensures this.timelineItems == timelineItems && !showAll && !isAnimating
    {
      this.timelineItems := timelineItems;
      showAll, isAnimating := false, false;
    }

    /** `handleToggle`: starts the expand animation and flips `showAll`. */
    method HandleToggle()
      modifies this
      ensures showAll == !old(showAll) && isAnimating
    {
      isAnimating := true;
      showAll := !showAll;
    }

    /** The 400 ms timer that `handleToggle` starts: it ends the animation only. */
    method AnimationTimerFired()
      modifies this
      ensures !isAnimating && showAll == old(showAll)
    {
      isAnimating := false;
    }
  }
}
