/**
 * The list-view logic the sections share: the "selected only" filter
 * (`items.filter(p)`) and the show-more/less prefix views.
 */
module ListView {
  import opened Js

  /** `s.filter(p)`: the items of s that satisfy p, in their order in s. */
  function Keep<T>(s: seq<T>, p: T -> bool): (r: seq<T>)
    ensures |r| <= |s|
  {
    if s == [] then [] else (if p(s[0]) then [s[0]] else []) + Keep(s[1..], p)
  }

  /** An item is shown by the filter iff it is in the list and satisfies p. */
  lemma {:induction false} KeepMembers<T>(s: seq<T>, p: T -> bool)
    ensures forall i :: 0 <= i < |Keep(s, p)| ==> Keep(s, p)[i] in s && p(Keep(s, p)[i])
    ensures forall i :: 0 <= i < |s| && p(s[i]) ==> s[i] in Keep(s, p)
  {
    if s != [] {
      KeepMembers(s[1..], p);
      assert s == [s[0]] + s[1..];
    }
  }

  /** The positions i >= from of s with p(s[i]), ascending. */
  function KeptPositions<T>(s: seq<T>, p: T -> bool, from: nat): seq<nat>
    requires from <= |s|
    decreases |s| - from
  {
    if from == |s| then []
    else (if p(s[from]) then [from] else []) + KeptPositions(s, p, from + 1)
  }

  /** The kept positions lie in [from, |s|), ascend strictly, and are exactly the positions where p holds. */
  lemma {:induction false} KeptPositionsAscend<T>(s: seq<T>, p: T -> bool, from: nat)
    requires from <= |s|
    ensures forall j :: 0 <= j < |KeptPositions(s, p, from)| ==> from <= KeptPositions(s, p, from)[j] < |s|
    ensures forall j, k :: 0 <= j < k < |KeptPositions(s, p, from)| ==>
      KeptPositions(s, p, from)[j] < KeptPositions(s, p, from)[k]
    ensures forall i :: from <= i < |s| ==> (i in KeptPositions(s, p, from) <==> p(s[i]))
    decreases |s| - from
  {
    if from < |s| {
      KeptPositionsAscend(s, p, from + 1);
      var ix := KeptPositions(s, p, from + 1);
      var headAt := if p(s[from]) then [from] else [];
      assert KeptPositions(s, p, from) == headAt + ix;
    }
  }

  /** The j-th item the filter keeps from s[from..] is s at the j-th kept position. */
  lemma {:induction false} KeepAtKeptPositions<T>(s: seq<T>, p: T -> bool, from: nat)
    requires from <= |s|
    ensures |Keep(s[from..], p)| == |KeptPositions(s, p, from)|
    ensures forall j :: 0 <= j < |KeptPositions(s, p, from)| ==>
      KeptPositions(s, p, from)[j] < |s| && Keep(s[from..], p)[j] == s[KeptPositions(s, p, from)[j]]
    decreases |s| - from
  {
    if from < |s| {
      KeepAtKeptPositions(s, p, from + 1);
      KeptPositionsAscend(s, p, from);
      var t := s[from..];
      assert t[0] == s[from] && t[1..] == s[from + 1..];
      var head := if p(s[from]) then [s[from]] else [];
      var headAt := if p(s[from]) then [from] else [];
      assert Keep(t, p) == head + Keep(s[from + 1..], p);
      assert KeptPositions(s, p, from) == headAt + KeptPositions(s, p, from + 1);
    }
  }

  /**
   * r is the selection of s by p: its j-th item is s at the j-th position
   * (ascending) where p holds, and it has one item per such position.
   */
  ghost predicate OrderedSelection<T>(r: seq<T>, s: seq<T>, p: T -> bool) {
    var at := KeptPositions(s, p, 0);
    && |r| == |at|
    && (forall j :: 0 <= j < |at| ==> at[j] < |s| && r[j] == s[at[j]])
    && (forall j, k :: 0 <= j < k < |at| ==> at[j] < at[k])
    && (forall i :: 0 <= i < |s| ==> (i in at <==> p(s[i])))
  }

  /** The filter keeps exactly the items satisfying p, in their order in s. */
  lemma KeepIsOrderedSelection<T>(s: seq<T>, p: T -> bool)
    ensures OrderedSelection(Keep(s, p), s, p)
  {
    KeptPositionsAscend(s, p, 0);
    KeepAtKeptPositions(s, p, 0);
    assert s[0..] == s;
  }

  /** Filtering a concatenation filters each part. */
  lemma {:induction false} KeepConcat<T>(a: seq<T>, b: seq<T>, p: T -> bool)
    ensures Keep(a + b, p) == Keep(a, p) + Keep(b, p)
  {
    if a != [] {
      assert (a + b)[0] == a[0] && (a + b)[1..] == a[1..] + b;
      KeepConcat(a[1..], b, p);
      var head := if p(a[0]) then [a[0]] else [];
      assert Keep(a + b, p) == head + Keep(a[1..] + b, p);
      assert Keep(a, p) == head + Keep(a[1..], p);
    } else {
      assert a + b == b;
    }
  }

  /** When every item satisfies p, the filter shows the list unchanged. */
  lemma {:induction false} KeepAll<T>(s: seq<T>, p: T -> bool)
    requires forall i :: 0 <= i < |s| ==> p(s[i])
    ensures Keep(s, p) == s
  {
    if s != [] {
      KeepAll(s[1..], p);
    }
  }

  /** `selectedOnly ? items.filter(p) : items` */
  function SelectedView<T>(items: seq<T>, p: T -> bool, selectedOnly: bool): seq<T> {
    if selectedOnly then Keep(items, p) else items
  }

  /**
   * Filtering either view by p gives the same items as filtering the whole
   * list: the filter loses none of the items that satisfy p.
   */
  lemma SelectionOfView<T>(items: seq<T>, p: T -> bool, selectedOnly: bool)
    ensures Keep(SelectedView(items, p, selectedOnly), p) == Keep(items, p)
  {
    if selectedOnly {
      KeepMembers(items, p);
      KeepAll(Keep(items, p), p);
    }
  }

  /**
   * The items behind the rendered cards that carry a badge, in card order;
   * `item` gives the item a card shows and `badge` whether it has the badge.
   */
  function BadgedItems<T, C>(cards: seq<C>, item: C -> T, badge: C -> bool): (r: seq<T>)
    ensures |r| <= |cards|
  {
    if cards == [] then []
    else (if badge(cards[0]) then [item(cards[0])] else []) + BadgedItems(cards[1..], item, badge)
  }

  /**
   * When the cards show the items of `shown` one by one, badged exactly for
   * the items satisfying p, the badged cards show `shown.filter(p)`.
   */
  lemma {:induction false} BadgedItemsAreKept<T, C>(shown: seq<T>, cards: seq<C>, p: T -> bool, item: C -> T, badge: C -> bool)
    requires |cards| == |shown|
    requires forall i :: 0 <= i < |cards| ==> item(cards[i]) == shown[i] && (badge(cards[i]) <==> p(shown[i]))
    ensures BadgedItems(cards, item, badge) == Keep(shown, p)
  {
    if cards != [] {
      assert forall i :: 0 <= i < |cards[1..]| ==> cards[1..][i] == cards[i + 1] && shown[1..][i] == shown[i + 1];
      BadgedItemsAreKept(shown[1..], cards[1..], p, item, badge);
    }
  }

  /** `s.slice(0, k)`, followed by `s.slice(k)` when expanded. */
  function ExpandableView<T>(s: seq<T>, k: int, expanded: bool): seq<T> {
    SliceTo(s, k) + (if expanded then SliceFrom(s, k) else [])
  }

  /** `expanded ? s : s.slice(0, k)` */
  function ToggledView<T>(s: seq<T>, k: int, expanded: bool): seq<T> {
    if expanded then s else SliceTo(s, k)
  }

  /** The show-more/less button condition `s.length > k`. */
  predicate HasToggle<T>(s: seq<T>, k: int) {
    |s| > k
  }

  /**
   * Rendering the prefix and then, when expanded, the hidden rest shows the
   * same list as choosing between the whole list and its prefix.
   */
  lemma ExpandableIsToggled<T>(s: seq<T>, k: int, expanded: bool)
    ensures ExpandableView(s, k, expanded) == ToggledView(s, k, expanded)
  {
    SlicesPartition(s, k);
  }

  /**
   * Collapsed, a prefix view shows exactly the first min(|s|, k) items;
   * expanded, it shows all of s, each item once and in order.
   */
  lemma PrefixViewContents<T>(s: seq<T>, k: int)
    requires k >= 0
    ensures ToggledView(s, k, false) == s[..Min(|s|, k)]
    ensures |ToggledView(s, k, false)| == Min(|s|, k)
    ensures ToggledView(s, k, true) == s
  {
    SliceToIsFirstItems(s, k);
  }

  /**
   * For a count k >= 0, the toggle button is offered exactly when the
   * collapsed view hides something.
   */
  lemma ToggleIffSomethingHidden<T>(s: seq<T>, k: int)
    requires k >= 0
    ensures HasToggle(s, k) <==> SliceFrom(s, k) != []
    ensures HasToggle(s, k) <==> ToggledView(s, k, false) != ToggledView(s, k, true)
  {
    SliceToIsFirstItems(s, k);
    if !HasToggle(s, k) {
      assert s[..|s|] == s;
    }
  }
}
