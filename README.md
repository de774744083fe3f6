# Portfolio list views in Dafny

This project models the list-view logic of a static personal portfolio site.
The site's React components are mostly markup. The decisions they make about
what to show are modelled here:

- the news feed: sorted newest first, cut to ten items, with a visible prefix,
  a hidden rest and a Show More/Less toggle;
- the experience timeline and the about section's interests and skills:
  the first few items, with the rest revealed on demand;
- the "selected only" filter and header counts of the publications, projects,
  awards and press sections;
- the press section's highlight: which card is marked, which card holds the
  scroll ref, and when a scroll is requested;
- the small decision functions: link-button labels and icons, the
  anchor-or-div choice of a linkable card, the navigation bar's active item
  and `scrolled` flag, and the Work page's tab-to-section dispatch.

Layout, one module per component file plus four shared modules:

- `wrappers.dfy` (`Wrappers`): `Option`, standing for JavaScript's `undefined`/`null` and `??`.
- `js.dfy` (`Js`): `Array.prototype.slice` with negative indices, string and number truthiness, `startsWith`.
- `html.dfy` (`Html`): the rendered element: an anchor with its `href`/`target`/`rel`, or a div.
- `list_view.dfy` (`ListView`): the order-preserving filter `Keep` with its characterisation, and the expandable prefix views.
- `news.dfy`, `experience.dfy`, `about.dfy`, `publications.dfy`, `projects.dfy`, `awards.dfy`, `press.dfy`, `link_buttons.dfy`, `linkable_card.dfy`, `navigation.dfy`, `work_page.dfy`: one module per component.

Component state kept by `useState` is a class whose fields the event handlers
update (`modifies this`). Values derived during rendering are functions of that
state. The news feed's sort is the one in-place algorithm. The site copies the
news array and sorts the copy. `News.SortNewestFirst` does the same on an
array, by adjacent swaps. It is proved equal to `News.NewestFirst`, a
functional stable insertion sort. `NewestFirst` is in turn proved to be a
sorted permutation that keeps the order of items with the same (year, month).
`News.StableSortIsUnique` shows that these properties fix the result
completely.

Some behaviour of the code worth stating plainly:

- The navigation bar marks an item active only on exact path equality. There
  is no prefix matching, so `/work/x` activates nothing.
- The publications, projects, awards and press sections neither sort nor
  paginate. They show the array in its own order, filtered or not.
- The experience timeline renders in array order, with no date sorting.
  `displayedItems` is computed but not used for rendering: the collapsed part
  is `timelineItems.slice(0, 5)` directly.

## Model

| member | source | states |
|---|---|---|
| Js.SlicesPartition | src/components/sections/news-section.tsx:105-118 | `slice(0, k)` followed by `slice(k)` is the whole list, for any k, including negative k |
| Js.SliceToIsFirstItems | src/components/sections/news-section.tsx:54 | for k >= 0, `slice(0, k)` is the first min(length, k) items |
| ListView.SelectionOfView | src/components/sections/publications-section.tsx:73 | filtering the displayed list by `selected` gives the selected items of the whole list, with the filter on or off |
| ListView.BadgedItemsAreKept | src/components/sections/awards-section.tsx:115 | when each card shows one displayed item and is badged iff the item satisfies the predicate, the badged cards show the filtered list, in order |
| ListView.KeepIsOrderedSelection | src/components/sections/publications-section.tsx:73 | `filter` keeps exactly the items satisfying the predicate, at strictly increasing positions of the input, so the order is kept |
| ListView.PrefixViewContents | src/components/pages/experience-page.tsx:121-122 | the collapsed view is the first min(length, k) items; the expanded view is the whole list |
| ListView.ToggleIffSomethingHidden | src/components/pages/experience-page.tsx:214 | "length > k" holds iff `slice(k)` is non-empty, iff the collapsed and expanded views differ |
| News.CompareIsNewestFirst | src/components/sections/news-section.tsx:50-53 | the comparator is <= 0 iff a is at least as new as b, is 0 iff they share (year, month), and is antisymmetric |
| News.NewestFirstIsStableSort | src/components/sections/news-section.tsx:49-53 | the sort is a permutation of its input, newest first, and keeps the input order of the items of each (year, month) |
| News.StableSortIsUnique | src/components/sections/news-section.tsx:49-53 | two lists that are sorted newest first and stable with respect to the same input are equal |
| News.SortNewestFirst | src/components/sections/news-section.tsx:49-53 | sorting the copied array in place leaves exactly the stable newest-first order of its old contents |
| News.BuildSortedNews | src/components/sections/news-section.tsx:49-54 | `sortedNewsData` has min(length, 10) items, is newest first, and takes each item from `newsData` at most as often as it occurs there |
| News.TruncationKeepsNewest | src/components/sections/news-section.tsx:54 | every item kept by `slice(0, 10)` is at least as new as every item cut off |
| News.NewsCard | src/components/sections/news-section.tsx:75-94 | a card is an anchor to `item.link` iff the link is truthy, with no target or rel; otherwise a div |
| News.NewsSection.constructor | src/components/sections/news-section.tsx:101-102 | the component starts collapsed and not animating, over the sorted and truncated news |
| News.NewsSection.WithDefaultCount | src/components/sections/news-section.tsx:97-102 | without props, the initial count is 5; the component starts collapsed over the sorted and truncated news |
| News.NewsSection.Rendered | src/components/sections/news-section.tsx:118-128 | expanded, the cards are the whole sorted list, each once; collapsed with count k >= 0, the first min(length, k) |
| News.NewsSection.ShowsToggleButton | src/components/sections/news-section.tsx:133 | the button shows iff the sorted list is longer than `initialDisplayCount`; for a count >= 0, iff `hiddenNews` is non-empty |
| News.NewsSection.HandleToggle | src/components/sections/news-section.tsx:107-109 | `isAnimating` becomes true and `showAll` is negated |
| News.NewsSection.AnimationTimerFired | src/components/sections/news-section.tsx:110 | the timer clears `isAnimating` and leaves `showAll` alone |
| News.ToggleTwice | src/components/sections/news-section.tsx:107-111 | two toggles bring back the rendered cards of before |
| Experience.ConfigCoversEachCategoryOnce | src/components/pages/experience-page.tsx:93-115 | distinct categories have distinct icons and labels, and the legend lists each category exactly once |
| Experience.RenderedContents | src/components/pages/experience-page.tsx:141-178 | collapsed, the timeline is `slice(0, 5)` in array order; expanded, it is the whole array, and it equals `displayedItems` |
| Experience.MoreCountIsHiddenCount | src/components/pages/experience-page.tsx:214-228 | the button shows iff `slice(5)` is non-empty, and then "N more" reports its length, at least 1 |
| Experience.ExperiencePage.constructor | src/components/pages/experience-page.tsx:118-119 | the page starts collapsed and not animating |
| Experience.ExperiencePage.HandleToggle | src/components/pages/experience-page.tsx:124-126 | `isAnimating` becomes true and `showAll` is negated |
| Experience.ExperiencePage.AnimationTimerFired | src/components/pages/experience-page.tsx:127 | the timer clears `isAnimating` and leaves `showAll` alone |
| About.RenderSocial | src/components/sections/about-section.tsx:89-116 | a social link opens a new tab with `noopener noreferrer` iff its href does not start with "mailto:"; a mailto link gets neither; only "Blog" gets the tooltip |
| About.MailtoStaysInTab | src/components/sections/about-section.tsx:94-95 | any "mailto:" link stays in the current tab |
| About.InterestsView | src/components/sections/about-section.tsx:48 | collapsed, the first min(length, 3) interests; expanded, all of them; the button (line 138) shows iff more than 3 |
| About.SkillsView | src/components/sections/about-section.tsx:47 | collapsed, the first min(length, 4) skills; expanded, all of them; the button (line 173) shows iff more than 4 |
| About.AboutSection.constructor | src/components/sections/about-section.tsx:44-45 | both lists start collapsed |
| About.AboutSection.ToggleInterests | src/components/sections/about-section.tsx:142 | negates `showAllInterests` and leaves `showAllSkills` unchanged |
| About.AboutSection.ToggleSkills | src/components/sections/about-section.tsx:177 | negates `showAllSkills` and leaves `showAllInterests` unchanged |
| Publications.DisplayedContents | src/components/sections/publications-section.tsx:73-79 | with the filter on, exactly the selected publications, in order; off, all publications; the header's counts match both views |
| Publications.Cards | src/components/sections/publications-section.tsx:98-107 | one card per displayed publication, in order, linking to it, badged and emphasised iff it is selected |
| Publications.BadgesMatchSelection | src/components/sections/publications-section.tsx:120 | in either view the badged cards show exactly the selected publications in order, as many as the header's selected count; filtered, every card is badged |
| Publications.PublicationsSection.constructor | src/components/sections/publications-section.tsx:72 | the filter starts off |
| Publications.PublicationsSection.ToggleSelectedOnly | src/components/sections/publications-section.tsx:84 | negates the filter flag; the header counts do not change |
| Publications.ToggleTwice | src/components/sections/publications-section.tsx:84 | two toggles bring back the displayed list of before |
| Projects.DisplayedContents | src/components/sections/projects-section.tsx:59-65 | with the filter on, exactly the selected projects, in order; off, all projects; the header's counts match both views |
| Projects.TagChips | src/components/sections/projects-section.tsx:120-124 | one chip per tag, in tag order, keyed and labelled by the tag |
| Projects.Cards | src/components/sections/projects-section.tsx:84-93 | one card per displayed project, in order, linking to it, badged and emphasised iff it is selected, with its tag chips |
| Projects.BadgesMatchSelection | src/components/sections/projects-section.tsx:106 | in either view the badged cards show exactly the selected projects in order, as many as the header's selected count; filtered, every card is badged |
| Projects.ProjectsSection.constructor | src/components/sections/projects-section.tsx:58 | the filter starts off |
| Projects.ProjectsSection.ToggleSelectedOnly | src/components/sections/projects-section.tsx:70 | negates the filter flag; the header counts do not change |
| Awards.DisplayedContents | src/components/sections/awards-section.tsx:68-74 | with the filter on, exactly the selected awards, in order; off, all awards; the header's counts match both views |
| Awards.Cards | src/components/sections/awards-section.tsx:93-102 | one card per displayed award, in order, linking to it, badged and emphasised iff it is selected |
| Awards.BadgesMatchSelection | src/components/sections/awards-section.tsx:115 | in either view the badged cards show exactly the selected awards in order, as many as the header's selected count; filtered, every card is badged |
| Awards.AwardsSection.constructor | src/components/sections/awards-section.tsx:67 | the filter starts off |
| Awards.AwardsSection.ToggleSelectedOnly | src/components/sections/awards-section.tsx:79 | negates the filter flag; the header counts do not change |
| Press.DisplayedContents | src/components/sections/press-section.tsx:38 | with the filter on, exactly the selected items, in order; off, all items; the header's counts (line 96) match both views |
| Press.Card | src/components/sections/press-section.tsx:118-142 | anchor opening a new tab iff the link is truthy, else a div; chevron iff anchor; `highlight-card` and the ref iff the id equals `highlightId`; badge iff selected |
| Press.RefHolder | src/components/sections/press-section.tsx:126-137 | the ref ends on the last displayed card whose id equals `highlightId`, or on none when no card matches |
| Press.ScrollTargetCases | src/components/sections/press-section.tsx:41-45 | a scroll is requested iff `highlightId` is truthy and a displayed card has that id; the card scrolled to is marked and holds the ref |
| Press.ScrollsToTheMatchingCard | src/components/sections/press-section.tsx:41-45 | with distinct ids, a truthy `highlightId` scrolls to the one displayed card with that id |
| Press.FilteredOutIsNotScrolled | src/components/sections/press-section.tsx:38-45 | an item hidden by the selected-only filter is never scrolled to |
| Press.PressSection.constructor | src/components/sections/press-section.tsx:36-37 | the filter starts off; `highlightId` is the prop |
| Press.PressSection.MountEffect | src/components/sections/press-section.tsx:41-45 | on mount, the effect scrolls to the card of the whole list whose id is `highlightId`, if any |
| Press.PressSection.ToggleSelectedOnly | src/components/sections/press-section.tsx:101 | negates the filter flag; the header counts do not change |
| LinkButtons.Config | src/components/ui/link-buttons.tsx:28-37 | the table has an entry for every link type except "custom", and no entry's label is "Link" |
| LinkButtons.RenderButton | src/components/ui/link-buttons.tsx:50-54 | every button links to its url and opens a new tab with `noopener noreferrer` |
| LinkButtons.CaptionResolution | src/components/ui/link-buttons.tsx:45-47 | a given label wins, even "" ; otherwise the table label; the label is "Link" iff the link is custom and has no label; a custom link's icon is the external-link icon |
| LinkButtons.ArxivCaption | src/components/ui/link-buttons.tsx:31 | an arXiv link without a label reads "arXiv" |
| LinkButtons.Render | src/components/ui/link-buttons.tsx:39-68 | nothing iff the list is absent or empty; otherwise one button per link, in input order |
| LinkableCard.WithDefaults | src/components/ui/linkable-card.tsx:24 | `unstyled` and `sameTab` default to false |
| LinkableCard.Render | src/components/ui/linkable-card.tsx:25-50 | an anchor to the link iff it is truthy, opening a new tab unless `sameTab` (then no target or rel); classes are `group` first, the card styles unless `unstyled`, `className`, and `cursor-pointer` on the anchor only |
| LinkableCard.UnstyledAddsOnlyGroup | src/components/ui/linkable-card.tsx:25-26 | unstyled, the classes are only `group`, `className` and, on an anchor, `cursor-pointer` |
| LinkableCard.DefaultsOpenNewTab | src/components/ui/linkable-card.tsx:38-39 | with the default props, a card with a link opens a new tab with `noopener noreferrer` |
| Navigation.RenderItem | src/components/navigation.tsx:56-60 | a link is highlighted iff the path equals its href exactly, and underlined iff highlighted |
| Navigation.Render | src/components/navigation.tsx:50-63 | one link per item, in order |
| Navigation.NoneActiveIffNoMatch | src/components/navigation.tsx:56 | no link is active iff the path is no item's href |
| Navigation.AtMostOneActive | src/components/navigation.tsx:56 | with distinct hrefs, at most one link is active |
| Navigation.NavItemsActivation | src/components/navigation.tsx:7-11 | the three hrefs are distinct, and on each of them exactly its own link is active |
| Navigation.ExactMatchOnly | src/components/navigation.tsx:56 | "/work/x" activates no link |
| Navigation.NavigationBar.constructor | src/components/navigation.tsx:14 | `scrolled` starts false |
| Navigation.NavigationBar.OnWindowScroll | src/components/navigation.tsx:18 | `scrolled` becomes true iff the window's offset is over 50 |
| Navigation.NavigationBar.OnSnapContainerScroll | src/components/navigation.tsx:23-27 | `scrolled` becomes true iff the snap container's offset is over 50 |
| Navigation.NavigationBar.Links | src/components/navigation.tsx:50-63 | each link is active iff its href equals the path, and no two links are active |
| Work.TabIdsDistinct | src/components/pages/work-page.tsx:10-15 | the four tab ids are distinct |
| Work.RenderedSectionsCases | src/components/pages/work-page.tsx:44-47 | each tab id renders exactly its own section; any other string renders none |
| Work.ExactlyOneActiveTab | src/components/pages/work-page.tsx:32-36 | exactly the tab whose id equals `activeTab` gets the active style |
| Work.PressTabHighlightsNothing | src/components/pages/work-page.tsx:46 | the press section mounted without `highlightId` marks no card and requests no scroll |
| Work.WorkPage.constructor | src/components/pages/work-page.tsx:18 | `activeTab` starts as "publications" |
| Work.WorkPage.SelectTab | src/components/pages/work-page.tsx:31 | a click sets `activeTab` to that tab's id, which stays a tab id |
| Work.WorkPage.Sections | src/components/pages/work-page.tsx:44-47 | the page always shows exactly one section, the active tab's |

## Left out

- Timers: the 400 ms `setTimeout` that clears `isAnimating` is an event method (`AnimationTimerFired`). Its timing is not modelled.
- `scrollIntoView` and smooth scrolling: the model says only whether a scroll is requested, and to which card.
- Listener wiring: adding and removing the scroll listeners, and which of the two scroll sources writes `scrolled` last, is not modelled. Each listener is an event method.
- Press: a change of the `highlightId` prop after mount is not modelled. The effect is modelled as it runs on mount.
- `cn`/`twMerge` conflict resolution between class names, CSS strings, icons, images and animation classes are not modelled. Only classes that encode a decision are kept.
- The literal content arrays (news, timeline, publications, projects, awards, press, skills, interests, social links) are not modelled. The components are modelled over arbitrary sequences of records.
- JavaScript numbers: years, months, ids and counts are unbounded integers. Scroll offsets are reals. NaN, fractional display counts and the comparator's float arithmetic are not modelled.
- News.NewsSection.Rendered: for a negative `initialDisplayCount`, the collapsed view is stated only as the JavaScript slice.
- News.NewsSection.ShowsToggleButton: for a negative `initialDisplayCount`, the button can show with nothing hidden. Only the source's own condition is stated then.
- `theme-toggle.tsx`, `tech-badge.tsx`, `scroll-indicator.tsx`, `scroll-to-top.tsx`, `highlights-section.tsx`, `footer.tsx`, `page-shell.tsx` and the page shells are static markup, third-party wrappers or DOM geometry, and are not part of this model.
- The tab and card markup beyond the modelled decisions (titles, dates, venue lines) is not modelled.
