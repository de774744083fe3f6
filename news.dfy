/**
 * The news feed: the news data sorted newest first and cut to ten items,
 * shown as a visible prefix and, after "Show More", the hidden rest.
 */
module News {
  import opened Wrappers
  import opened Js
  import opened Html
  import opened ListView

  datatype NewsType = Publication | Talk | Project | Award | Collaboration | Press | Notice

  /** A news entry; `date` is only a display string, the order comes from `year` and `month`. */
  datatype NewsItem = NewsItem(year: int, month: int, date: string, content: string, kind: NewsType, link: Option<string>)

  /** The feed never shows more than this many items. */
  const MaxNewsItems := 10
  /** The default of the `initialDisplayCount` prop. */
  const DefaultInitialDisplayCount := 5

  /** The sort comparator: a negative result puts `a` before `b`. */
  function Compare(a: NewsItem, b: NewsItem): int {
    if b.year != a.year then b.year - a.year else b.month - a.month
  }

  /** `a` may precede `b` in a newest-first list: (a.year, a.month) >= (b.year, b.month) lexicographically. */
  predicate NewerOrSame(a: NewsItem, b: NewsItem) {
    a.year > b.year || (a.year == b.year && a.month >= b.month)
  }

  predicate SameDate(a: NewsItem, b: NewsItem) {
    a.year == b.year && a.month == b.month
  }

  /**
   * The comparator orders by (year, month) descending: it never puts an older
   * item first, it ties exactly the items of the same month, and it is
   * antisymmetric, so a stable sort with it is well defined.
   */
  lemma CompareIsNewestFirst(a: NewsItem, b: NewsItem)
    ensures Compare(a, b) <= 0 <==> NewerOrSame(a, b)
    ensures Compare(a, b) == 0 <==> SameDate(a, b)
    ensures Compare(a, b) == -Compare(b, a)
  {
  }

  predicate NewestFirstOrder(s: seq<NewsItem>) {
    forall i, j :: 0 <= i < j < |s| ==> NewerOrSame(s[i], s[j])
  }

  /** The items of s dated (y, m), in their order in s. */
  function DatedAs(s: seq<NewsItem>, y: int, m: int): seq<NewsItem> {
    Keep(s, (n: NewsItem) => n.year == y && n.month == m)
  }

  /** For every month, s and t hold the same items of that month in the same order. */
  ghost predicate SameMonthlyOrder(s: seq<NewsItem>, t: seq<NewsItem>) {
    forall y, m :: DatedAs(s, y, m) == DatedAs(t, y, m)
  }

  /** Inserts x before the first item it is newer than or as new as. */
  function InsertFirst(x: NewsItem, t: seq<NewsItem>): seq<NewsItem> {
    if t == [] || NewerOrSame(x, t[0]) then [x] + t else [t[0]] + InsertFirst(x, t[1..])
  }

  /** The stable sort of s by (year, month), newest first. */
  function NewestFirst(s: seq<NewsItem>): seq<NewsItem> {
    if s == [] then [] else InsertFirst(s[0], NewestFirst(s[1..]))
  }

  lemma {:induction false} DatedAsCons(x: NewsItem, t: seq<NewsItem>, y: int, m: int)
    ensures DatedAs([x] + t, y, m) == (if x.year == y && x.month == m then [x] else []) + DatedAs(t, y, m)
  {
    assert ([x] + t)[0] == x && ([x] + t)[1..] == t;
  }

  lemma {:induction false} InsertFirstContents(x: NewsItem, t: seq<NewsItem>)
    ensures |InsertFirst(x, t)| == |t| + 1
    ensures multiset(InsertFirst(x, t)) == multiset(t) + multiset{x}
  {
    if t != [] && !NewerOrSame(x, t[0]) {
      InsertFirstContents(x, t[1..]);
      assert t == [t[0]] + t[1..];
    }
  }

  /** Everything ahead of x after the insertion is strictly newer, so x lands behind none of its own month. */
  lemma {:induction false} InsertFirstDatedAs(x: NewsItem, t: seq<NewsItem>, y: int, m: int)
    ensures DatedAs(InsertFirst(x, t), y, m) == (if x.year == y && x.month == m then [x] else []) + DatedAs(t, y, m)
  {
    if t == [] || NewerOrSame(x, t[0]) {
      DatedAsCons(x, t, y, m);
    } else {
      InsertFirstDatedAs(x, t[1..], y, m);
      DatedAsCons(t[0], InsertFirst(x, t[1..]), y, m);
      DatedAsCons(t[0], t[1..], y, m);
      assert t == [t[0]] + t[1..];
    }
  }

  lemma {:induction false} InsertFirstSorted(x: NewsItem, t: seq<NewsItem>)
    requires NewestFirstOrder(t)
    ensures NewestFirstOrder(InsertFirst(x, t))
  {
    if t != [] && !NewerOrSame(x, t[0]) {
      InsertFirstSorted(x, t[1..]);
      InsertFirstContents(x, t[1..]);
      var r := InsertFirst(x, t[1..]);
      forall j | 0 <= j < |r| ensures NewerOrSame(t[0], r[j]) {
        assert r[j] in multiset(r);
        assert r[j] == x || r[j] in t[1..];
      }
    }
  }

  /**
   * The specification of `sortedNewsData` before truncation: newest first,
   * a permutation of the data, and stable — items of the same month keep
   * their order in the data.
   */
  lemma {:induction false} NewestFirstIsStableSort(s: seq<NewsItem>)
    ensures |NewestFirst(s)| == |s|
    ensures multiset(NewestFirst(s)) == multiset(s)
    ensures NewestFirstOrder(NewestFirst(s))
    ensures SameMonthlyOrder(NewestFirst(s), s)
  {
    if s != [] {
      NewestFirstIsStableSort(s[1..]);
      InsertFirstContents(s[0], NewestFirst(s[1..]));
      InsertFirstSorted(s[0], NewestFirst(s[1..]));
      assert s == [s[0]] + s[1..];
      forall y, m ensures DatedAs(NewestFirst(s), y, m) == DatedAs(s, y, m) {
        InsertFirstDatedAs(s[0], NewestFirst(s[1..]), y, m);
        DatedAsCons(s[0], s[1..], y, m);
      }
    }
  }

  lemma {:induction false} DatedAsMembers(s: seq<NewsItem>, y: int, m: int)
    ensures forall i :: 0 <= i < |DatedAs(s, y, m)| ==> DatedAs(s, y, m)[i] in s
  {
    if s != [] {
      DatedAsMembers(s[1..], y, m);
      DatedAsCons(s[0], s[1..], y, m);
      assert s == [s[0]] + s[1..];
    }
  }

  lemma {:induction false} DatedAsHead(s: seq<NewsItem>)
    requires s != []
    ensures DatedAs(s, s[0].year, s[0].month) != [] && DatedAs(s, s[0].year, s[0].month)[0] == s[0]
  {
    DatedAsCons(s[0], s[1..], s[0].year, s[0].month);
    assert s == [s[0]] + s[1..];
  }

  /**
   * A newest-first order that keeps every month's items in their given order
   * is unique: the stable sort is the only sorted arrangement of that kind.
   */
  lemma {:induction false} StableSortIsUnique(s: seq<NewsItem>, t: seq<NewsItem>)
    requires NewestFirstOrder(s) && NewestFirstOrder(t)
    requires SameMonthlyOrder(s, t)
    ensures s == t
  {
    if s == [] || t == [] {
      if s != [] {
        DatedAsHead(s);
        assert false;
      } else if t != [] {
        DatedAsHead(t);
        assert false;
      }
    } else {
      var x, z := s[0], t[0];
      DatedAsHead(s);
      DatedAsHead(t);
      var ds, dt := DatedAs(s, x.year, x.month), DatedAs(t, z.year, z.month);
      DatedAsMembers(t, x.year, x.month);
      DatedAsMembers(s, z.year, z.month);
      assert x in t && z in s;
      assert SameDate(x, z) by {
        var i :| 0 <= i < |t| && t[i] == x;
        var k :| 0 <= k < |s| && s[k] == z;
        assert i == 0 || NewerOrSame(z, x);
        assert k == 0 || NewerOrSame(x, z);
      }
      assert x == z;
      assert s == [x] + s[1..] && t == [z] + t[1..];
      forall y, m ensures DatedAs(s[1..], y, m) == DatedAs(t[1..], y, m) {
        DatedAsCons(x, s[1..], y, m);
        DatedAsCons(z, t[1..], y, m);
        var h := if x.year == y && x.month == m then [x] else [];
        assert h + DatedAs(s[1..], y, m) == h + DatedAs(t[1..], y, m);
        assert (h + DatedAs(s[1..], y, m))[|h|..] == DatedAs(s[1..], y, m);
        assert (h + DatedAs(t[1..], y, m))[|h|..] == DatedAs(t[1..], y, m);
      }
      StableSortIsUnique(s[1..], t[1..]);
    }
  }

  /** Swapping two neighbours of different months leaves every month's order alone. */
  lemma SwapKeepsMonthlyOrder(s: seq<NewsItem>, k: nat)
    requires k + 1 < |s| && !SameDate(s[k], s[k + 1])
    ensures SameMonthlyOrder(s[k := s[k + 1]][k + 1 := s[k]], s)
  {
    var t := s[k := s[k + 1]][k + 1 := s[k]];
    assert s == s[..k] + [s[k], s[k + 1]] + s[k + 2..];
    assert t == s[..k] + [s[k + 1], s[k]] + s[k + 2..];
    forall y, m ensures DatedAs(t, y, m) == DatedAs(s, y, m) {
      var p := (n: NewsItem) => n.year == y && n.month == m;
      KeepConcat(s[..k] + [s[k], s[k + 1]], s[k + 2..], p);
      KeepConcat(s[..k], [s[k], s[k + 1]], p);
      KeepConcat(s[..k] + [s[k + 1], s[k]], s[k + 2..], p);
      KeepConcat(s[..k], [s[k + 1], s[k]], p);
      KeepConcat([s[k]], [s[k + 1]], p);
      KeepConcat([s[k + 1]], [s[k]], p);
    }
  }

  /**
   * Sorts the array in place, newest first and stably; the result is the
   * specification's `NewestFirst` of the old contents.
   */
  method SortNewestFirst(a: array<NewsItem>)
    modifies a
    ensures a[..] == NewestFirst(old(a[..]))
  {
    if a.Length == 0 {
      return;
    }
    var i := 1;
    while i < a.Length
      invariant 1 <= i <= a.Length
      invariant NewestFirstOrder(a[..i])
      invariant SameMonthlyOrder(a[..], old(a[..]))
    {
      var j := i;
      while j > 0 && !NewerOrSame(a[j - 1], a[j])
        invariant 0 <= j <= i
        invariant forall p, q :: 0 <= p < q <= i && p != j && q != j ==> NewerOrSame(a[p], a[q])
        invariant forall q :: j < q <= i ==> NewerOrSame(a[j], a[q])
        invariant SameMonthlyOrder(a[..], old(a[..]))
      {
        SwapKeepsMonthlyOrder(a[..], j - 1);
        a[j - 1], a[j] := a[j], a[j - 1];
        j := j - 1;
      }
      i := i + 1;
    }
    assert a[..a.Length] == a[..];
    NewestFirstIsStableSort(old(a[..]));
    StableSortIsUnique(a[..], NewestFirst(old(a[..])));
  }

  /**
   * `sortedNewsData`: a sorted copy of the data cut to its first ten items.
   * The data itself is a value and is not reordered.
   */
  method BuildSortedNews(newsData: seq<NewsItem>) returns (sorted: seq<NewsItem>)
    ensures sorted == SliceTo(NewestFirst(newsData), MaxNewsItems)
    ensures |sorted| == Min(|newsData|, MaxNewsItems)
    ensures NewestFirstOrder(sorted)
    ensures multiset(sorted) <= multiset(newsData)
  {
    var a := new NewsItem[|newsData|](i requires 0 <= i < |newsData| => newsData[i]);
    assert a[..] == newsData;
    SortNewestFirst(a);
    sorted := SliceTo(a[..], MaxNewsItems);
    NewestFirstIsStableSort(newsData);
    SliceToIsFirstItems(a[..], MaxNewsItems);
    assert a[..] == sorted + a[|sorted|..];
  }

  /**
   * Cutting the sorted list keeps the newest items: every item shown is at
   * least as new as every item cut off.
   */
  lemma TruncationKeepsNewest(newsData: seq<NewsItem>)
    ensures var all := NewestFirst(newsData);
      forall i, j :: 0 <= i < |SliceTo(all, MaxNewsItems)| <= j < |all| ==>
        NewerOrSame(SliceTo(all, MaxNewsItems)[i], all[j])
  {
    NewestFirstIsStableSort(newsData);
    SliceToIsFirstItems(NewestFirst(newsData), MaxNewsItems);
  }

  /** `NewsCard`: an anchor to `item.link` when the link is truthy, else a div. */
  function NewsCard(item: NewsItem): (e: Element)
    ensures e.Anchor? <==> StringTruthy(item.link)
    ensures e.Anchor? ==> e.href == item.link.value && e.target.None? && e.rel.None?
  {
    if StringTruthy(item.link) then Anchor(item.link.value, None, None) else Div
  }

  /** The `NewsSection` component's state over the module's sorted news. */
  class NewsSection {
    const sortedNews: seq<NewsItem>
    const initialDisplayCount: int
    var showAll: bool
    var isAnimating: bool

    constructor (newsData: seq<NewsItem>, initialDisplayCount: int)
      ensures sortedNews == SliceTo(NewestFirst(newsData), MaxNewsItems)
      ensures this.initialDisplayCount == initialDisplayCount
      ensures !showAll && !isAnimating
    {
      var sorted := BuildSortedNews(newsData);
      sortedNews := sorted;
      this.initialDisplayCount := initialDisplayCount;
      showAll, isAnimating := false, false;
    }

    /** `<NewsSection />` with no props: the initial count takes its default. */
    constructor WithDefaultCount(newsData: seq<NewsItem>)
      ensures sortedNews == SliceTo(NewestFirst(newsData), MaxNewsItems)
      ensures initialDisplayCount == DefaultInitialDisplayCount
      ensures !showAll && !isAnimating
    {
      var sorted := BuildSortedNews(newsData);
      sortedNews := sorted;
      initialDisplayCount := DefaultInitialDisplayCount;
      showAll, isAnimating := false, false;
    }

    /** `hiddenNews` */
    function Hidden(): seq<NewsItem>
      reads this
    {
      SliceFrom(sortedNews, initialDisplayCount)
    }

    /**
     * The cards in render order: the visible prefix, then `hiddenNews` when
     * `showAll`. Expanded, that is the whole sorted list, each item once;
     * collapsed with a count k >= 0, the first min(length, k) items.
     */
    function Rendered(): (r: seq<NewsItem>)
      reads this
      ensures showAll ==> r == sortedNews
      ensures !showAll && initialDisplayCount >= 0 ==>
        r == sortedNews[..Min(|sortedNews|, initialDisplayCount)]
    {
      ExpandableIsToggled(sortedNews, initialDisplayCount, showAll);
      if initialDisplayCount >= 0 then
        PrefixViewContents(sortedNews, initialDisplayCount);
        ExpandableView(sortedNews, initialDisplayCount, showAll)
      else
        ExpandableView(sortedNews, initialDisplayCount, showAll)
    }

    /**
     * The Show More/Less button is rendered iff the sorted list is longer
     * than the initial count; for a count >= 0 that is iff something is hidden.
     */
    predicate ShowsToggleButton()
      reads this
      ensures ShowsToggleButton() <==> |sortedNews| > initialDisplayCount
      ensures initialDisplayCount >= 0 ==> (ShowsToggleButton() <==> Hidden() != [])
    {
      if initialDisplayCount >= 0 then
        ToggleIffSomethingHidden(sortedNews, initialDisplayCount);
        HasToggle(sortedNews, initialDisplayCount)
      else
        HasToggle(sortedNews, initialDisplayCount)
    }

    /** `handleToggle`: starts the expand animation and flips `showAll`. */
    method HandleToggle()
      modifies this
      ensures showAll == !old(showAll) && isAnimating
    {
      isAnimating := true;
      showAll := !showAll;
    }

    /** The 400 ms timer that `handleToggle` starts: it ends the animation only. */
    method AnimationTimerFired()
      modifies this
      ensures !isAnimating && showAll == old(showAll)
    {
      isAnimating := false;
    }
  }

  /** Two clicks on the toggle bring back the view the reader started from. */
  method ToggleTwice(section: NewsSection)
    modifies section
    ensures section.Rendered() == old(section.Rendered())
  {
    section.HandleToggle();
    section.HandleToggle();
  }
}
