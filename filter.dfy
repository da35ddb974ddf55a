/** The filter engine of the gallery: which items a category filter shows, in which
    order, and which filter button is highlighted. */
module Filter {

  /** One `.gallery-item` of the page: its `data-category` attribute and the metadata
      the lightbox copies out of it (image source and alt text, title, description,
      photographer credit). Items are fixed for the whole session. */
  datatype Item = Item(
    category: string,
    src: string,
    alt: string,
    title: string,
    description: string,
    photographer: string)

  /** The filter value that shows every item. */
  const All: string := "all"

  /** The show/hide test that both the staggered transition and the recomputation of
      the visible set apply to an item's category: the sentinel shows every category,
      any other filter shows its own category only. */
  function ShouldShow(filter: string, category: string): (shown: bool)
    ensures filter == All ==> shown
    ensures filter != All ==> (shown <==> category == filter)
  {
    filter == All || category == filter
  }

  /** Page order without repetition. */
  predicate StrictlyIncreasing(s: seq<nat>)
  {
    forall i, j :: 0 <= i < j < |s| ==> s[i] < s[j]
  }

  /** The visible set: positions into `items` of the items the filter shows. */
  function Matching(items: seq<Item>, filter: string): (r: seq<nat>)
    ensures |r| <= |items|
    ensures StrictlyIncreasing(r)
    ensures forall j :: 0 <= j < |r| ==> r[j] < |items| && ShouldShow(filter, items[r[j]].category)
  {
    if items == [] then []
    else
      var last := |items| - 1;
      var rest := Matching(items[..last], filter);
      if ShouldShow(filter, items[last].category) then rest + [last] else rest
  }

  /** Every item the filter shows is in the visible set, and no other item is. */
  lemma {:induction false} MatchingComplete(items: seq<Item>, filter: string, k: nat)
    requires k < |items|
    ensures k in Matching(items, filter) <==> ShouldShow(filter, items[k].category)
  {
    var last := |items| - 1;
    var rest := Matching(items[..last], filter);
    if k < last {
      MatchingComplete(items[..last], filter, k);
      assert items[..last][k] == items[k];
    } else {
      assert forall j :: 0 <= j < |rest| ==> rest[j] < last;
    }
  }

  /** With the filter "all" the visible set is every position, in order. */
  lemma {:induction false} MatchingAll(items: seq<Item>)
    ensures |Matching(items, All)| == |items|
    ensures forall j :: 0 <= j < |items| ==> Matching(items, All)[j] == j
  {
    if items != [] {
      MatchingAll(items[..|items| - 1]);
    }
  }

  /** The items themselves at a sequence of positions. */
  function Select(items: seq<Item>, positions: seq<nat>): seq<Item>
    requires forall j :: 0 <= j < |positions| ==> positions[j] < |items|
  {
    seq(|positions|, j requires 0 <= j < |positions| => items[positions[j]])
  }

  /** A reference definition of the visible items, written front to back as an
      array `filter` call computes them. */
  function FilterItems(items: seq<Item>, filter: string): seq<Item>
  {
    if items == [] then []
    else (if ShouldShow(filter, items[0].category) then [items[0]] else []) + FilterItems(items[1..], filter)
  }

  lemma {:induction false} FilterItemsSnoc(items: seq<Item>, x: Item, filter: string)
    ensures FilterItems(items + [x], filter)
         == FilterItems(items, filter) + (if ShouldShow(filter, x.category) then [x] else [])
  {
    var tail := if ShouldShow(filter, x.category) then [x] else [];
    if items == [] {
      assert items + [x] == [x];
      assert [x][1..] == [];
      assert FilterItems([x], filter) == tail + FilterItems([], filter);
    } else {
      var head := if ShouldShow(filter, items[0].category) then [items[0]] else [];
      assert (items + [x])[0] == items[0];
      assert (items + [x])[1..] == items[1..] + [x];
      FilterItemsSnoc(items[1..], x, filter);
      calc {
        FilterItems(items + [x], filter);
        head + FilterItems(items[1..] + [x], filter);
        head + (FilterItems(items[1..], filter) + tail);
        (head + FilterItems(items[1..], filter)) + tail;
        FilterItems(items, filter) + tail;
      }
    }
  }

  /** The positions of the visible set pick out exactly the items an array `filter`
      keeps, in the same order. */
  lemma {:induction false} MatchingSelectsFiltered(items: seq<Item>, filter: string)
    ensures Select(items, Matching(items, filter)) == FilterItems(items, filter)
  {
    if items != [] {
      var last := |items| - 1;
      var init := items[..last];
      var rest := Matching(init, filter);
      MatchingSelectsFiltered(init, filter);
      assert items == init + [items[last]];
      FilterItemsSnoc(init, items[last], filter);
      assert Select(items, rest) == Select(init, rest);
      if ShouldShow(filter, items[last].category) {
        assert Select(items, rest + [last]) == Select(items, rest) + [items[last]];
      }
    }
  }

  /** `MatchingComplete` for every position at once. */
  lemma MatchingCompleteAll(items: seq<Item>, filter: string)
    ensures forall k :: 0 <= k < |items| ==> (k in Matching(items, filter) <==> ShouldShow(filter, items[k].category))
  {
    forall k | 0 <= k < |items|
      ensures k in Matching(items, filter) <==> ShouldShow(filter, items[k].category)
    {
      MatchingComplete(items, filter, k);
    }
  }

  /** The final `visible`/`hidden` marking of every item once a filter's transition
      has played out: true for an item marked visible. The items marked visible are
      exactly the visible set of the same filter. */
  function Marks(items: seq<Item>, filter: string): (r: seq<bool>)
    ensures |r| == |items|
    ensures forall k :: 0 <= k < |items| ==> (r[k] <==> k in Matching(items, filter))
  {
    MatchingCompleteAll(items, filter);
    seq(|items|, k requires 0 <= k < |items| => ShouldShow(filter, items[k].category))
  }

  /** How many buttons carry the `active` class. */
  function CountActive(s: seq<bool>): nat
  {
    if s == [] then 0 else CountActive(s[..|s| - 1]) + (if s[|s| - 1] then 1 else 0)
  }

  lemma {:induction false} CountSingle(s: seq<bool>, b: nat)
    requires forall k :: 0 <= k < |s| ==> (s[k] <==> k == b)
    ensures CountActive(s) == if b < |s| then 1 else 0
  {
    if s != [] {
      CountSingle(s[..|s| - 1], b);
    }
  }

  /** The `active` marking of `n` filter buttons after a click on button `b`: every
      button is cleared, then `b` is set, so exactly one button is active when `b` is
      one of them. */
  function OnlyActive(n: nat, b: nat): (r: seq<bool>)
    ensures |r| == n
    ensures forall k :: 0 <= k < n ==> (r[k] <==> k == b)
    ensures CountActive(r) == if b < n then 1 else 0
  {
    var r := seq(n, k => k == b);
    CountSingle(r, b);
    r
  }
}
