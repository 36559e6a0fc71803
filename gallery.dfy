/**
 * The portfolio gallery: a fixed list of tagged pictures, the category
 * filter selected by the user, and the delayed transition that recomputes
 * the visible pictures after each change of filter.
 */
module Gallery {

  /** The closed set of tags a picture carries. */
  datatype Category = Facilities | Equipment | Classes | Transformations

  /** What a filter button selects: every picture, or one category. */
  datatype CategoryFilter = All | Only(category: Category)

  datatype GalleryItem = GalleryItem(id: nat, src: string, alt: string, caption: string, category: Category)

  /** The gallery's data, in declaration order. */
  const GalleryItems: seq<GalleryItem> := [
    GalleryItem(1, "/images/gym-facility-1.jpg", "אולם אימונים מרכזי",
                "אולם האימונים המרכזי שלנו עם ציוד חדיש", Facilities),
    GalleryItem(2, "/images/gym-equipment-1.jpg", "משקולות חופשיות",
                "מגוון רחב של משקולות חופשיות לאימון מקצועי", Equipment),
    GalleryItem(3, "/images/gym-class-1.jpg", "שיעור ספינינג",
                "שיעור ספינינג אנרגטי בהדרכת מאמנים מוסמכים", Classes),
    GalleryItem(4, "/images/transformation-1.jpg", "סיפור הצלחה - דני",
                "דני הוריד 15 ק״ג תוך 3 חודשים בליווי המאמנים שלנו", Transformations),
    GalleryItem(5, "/images/gym-facility-2.jpg", "אזור קרדיו",
                "אזור הקרדיו המרווח שלנו עם נוף לעיר", Facilities),
    GalleryItem(6, "/images/gym-equipment-2.jpg", "מכונות כוח",
                "מכונות כוח מתקדמות לאימון מדויק של קבוצות שרירים", Equipment),
    GalleryItem(7, "/images/gym-class-2.jpg", "שיעור יוגה",
                "שיעורי יוגה להגמשת הגוף והרגעת הנפש", Classes),
    GalleryItem(8, "/images/transformation-2.jpg", "סיפור הצלחה - מיכל",
                "מיכל שיפרה את הכושר והבריאות שלה תוך חצי שנה", Transformations)
  ]

  /** `a` is obtained from `b` by deleting elements, keeping the order of the rest. */
  ghost predicate IsSubsequence<T>(a: seq<T>, b: seq<T>)
    decreases |b|
  {
    if a == [] then true
    else if b == [] then false
    else (a[0] == b[0] && IsSubsequence(a[1..], b[1..])) || IsSubsequence(a, b[1..])
  }

  /** The pictures of `items` tagged `c`, in their original order. */
  function FilterByCategory(items: seq<GalleryItem>, c: Category): (r: seq<GalleryItem>)
    ensures |r| <= |items|
    ensures forall i :: 0 <= i < |r| ==> r[i].category == c
  {
    if items == [] then []
    else if items[0].category == c then [items[0]] + FilterByCategory(items[1..], c)
    else FilterByCategory(items[1..], c)
  }

  /** The list the transition shows for filter `f`. */
  function Visible(items: seq<GalleryItem>, f: CategoryFilter): seq<GalleryItem>
  {
    match f
    case All => items
    case Only(c) => FilterByCategory(items, c)
  }

  /** Every picture the filter keeps carries the selected tag; with `All` nothing is dropped. */
  lemma VisibleMatchesFilter(items: seq<GalleryItem>, f: CategoryFilter)
    ensures f == All ==> Visible(items, f) == items
    ensures f.Only? ==> forall x :: x in Visible(items, f) ==> x.category == f.category
  {
  }

  lemma {:induction false} FilterIsSubsequence(items: seq<GalleryItem>, c: Category)
    ensures IsSubsequence(FilterByCategory(items, c), items)
  {
    if items != [] {
      var r := FilterByCategory(items, c);
      FilterIsSubsequence(items[1..], c);
      if items[0].category == c {
        assert r[0] == items[0] && r[1..] == FilterByCategory(items[1..], c);
      } else {
        assert r == FilterByCategory(items[1..], c);
        if r != [] {
          assert IsSubsequence(r, items[1..]);
        }
      }
    }
  }

  /** The filter keeps each picture of category `c` as often as it occurs and drops all others. */
  lemma {:induction false} FilterCount(items: seq<GalleryItem>, c: Category, x: GalleryItem)
    ensures multiset(FilterByCategory(items, c))[x] ==
            if x.category == c then multiset(items)[x] else 0
  {
    if items != [] {
      FilterCount(items[1..], c, x);
      assert items == [items[0]] + items[1..];
      assert multiset(items) == multiset{items[0]} + multiset(items[1..]);
    }
  }

  /** Completeness: a picture of category `c` is never dropped by the filter for `c`. */
  lemma FilterIsComplete(items: seq<GalleryItem>, c: Category, x: GalleryItem)
    requires x in items && x.category == c
    ensures x in FilterByCategory(items, c)
  {
    FilterCount(items, c, x);
    assert multiset(items)[x] > 0;
  }

  /** The lists of two different categories have no picture in common. */
  lemma FilterDisjoint(items: seq<GalleryItem>, c1: Category, c2: Category)
    requires c1 != c2
    ensures multiset(FilterByCategory(items, c1)) !! multiset(FilterByCategory(items, c2))
  {
    forall x
      ensures multiset(FilterByCategory(items, c1))[x] == 0 || multiset(FilterByCategory(items, c2))[x] == 0
    {
      FilterCount(items, c1, x);
      FilterCount(items, c2, x);
    }
  }

  /** The four category lists together hold every picture of the full list exactly once. */
  lemma FilterPartition(items: seq<GalleryItem>)
    ensures multiset(FilterByCategory(items, Facilities)) + multiset(FilterByCategory(items, Equipment))
          + multiset(FilterByCategory(items, Classes)) + multiset(FilterByCategory(items, Transformations))
         == multiset(items)
    ensures |FilterByCategory(items, Facilities)| + |FilterByCategory(items, Equipment)|
          + |FilterByCategory(items, Classes)| + |FilterByCategory(items, Transformations)|
         == |items|
  {
    var f := multiset(FilterByCategory(items, Facilities));
    var e := multiset(FilterByCategory(items, Equipment));
    var c := multiset(FilterByCategory(items, Classes));
    var t := multiset(FilterByCategory(items, Transformations));
    forall x
      ensures (f + e + c + t)[x] == multiset(items)[x]
    {
      FilterCount(items, Facilities, x);
      FilterCount(items, Equipment, x);
      FilterCount(items, Classes, x);
      FilterCount(items, Transformations, x);
    }
    assert f + e + c + t == multiset(items);
    assert |f + e + c + t| == |items|;
  }

  /** With the gallery's own data every filter shows at least one picture. */
  lemma EveryFilterShowsSomething(f: CategoryFilter)
    ensures Visible(GalleryItems, f) != []
  {
    match f
    case All =>
    case Only(c) =>
      assert GalleryItems[FirstOf(c)].category == c;
      FilterIsComplete(GalleryItems, c, GalleryItems[FirstOf(c)]);
  }

  /** One step of the filter over a suffix of a list. */
  lemma FilterStep(items: seq<GalleryItem>, k: nat, c: Category)
    requires k < |items|
    ensures FilterByCategory(items[k..], c) ==
              (if items[k].category == c then [items[k]] else []) + FilterByCategory(items[k + 1..], c)
  {
    assert items[k..][1..] == items[k + 1..];
  }

  /** The position of a category's first picture in the gallery's data. */
  function FirstOf(c: Category): nat
  {
    match c
    case Facilities => 0
    case Equipment => 1
    case Classes => 2
    case Transformations => 3
  }

  /** Eight pictures tagged facilities, equipment, classes, transformations, twice over in that order. */
  predicate GalleryLayout(items: seq<GalleryItem>)
  {
    |items| == 8 && forall i :: 0 <= i < 8 ==> items[i].category == CategoryAt(i)
  }

  /** The category the layout gives position `i`. */
  function CategoryAt(i: nat): Category
  {
    var j := if i < 4 then i else i - 4;
    if j == 0 then Facilities else if j == 1 then Equipment else if j == 2 then Classes else Transformations
  }

  /** In the layout, a category sits exactly at its first position and four places later. */
  lemma CategoryAtFirst(k: nat, c: Category)
    requires k < 8
    ensures CategoryAt(k) == c <==> k == FirstOf(c) || k == FirstOf(c) + 4
  {
  }

  /** With that layout, a category's list is its first picture and the one four places later. */
  lemma LayoutFilter(items: seq<GalleryItem>, c: Category)
    requires GalleryLayout(items)
    ensures FilterByCategory(items, c) == [items[FirstOf(c)], items[FirstOf(c) + 4]]
  {
    LayoutSuffix(items, c, 0);
    assert items[0..] == items;
  }

  /** The filter of the layout's suffix from `k`: the category's positions at or after `k`. */
  lemma {:induction false} LayoutSuffix(items: seq<GalleryItem>, c: Category, k: nat)
    requires GalleryLayout(items) && k <= 8
    ensures FilterByCategory(items[k..], c) ==
              (if k <= FirstOf(c) then [items[FirstOf(c)]] else [])
              + (if k <= FirstOf(c) + 4 then [items[FirstOf(c) + 4]] else [])
    decreases 8 - k
  {
    if k == 8 {
      assert items[8..] == [];
    } else {
      LayoutSuffix(items, c, k + 1);
      FilterStep(items, k, c);
      CategoryAtFirst(k, c);
      assert items[k].category == CategoryAt(k);
    }
  }

  /**
   * Each category button shows exactly two pictures of the gallery's data:
   * the category's first picture and the one four places later, in that order.
   */
  lemma GalleryCategories(c: Category)
    ensures Visible(GalleryItems, Only(c)) == [GalleryItems[FirstOf(c)], GalleryItems[FirstOf(c) + 4]]
  {
    assert GalleryLayout(GalleryItems);
    LayoutFilter(GalleryItems, c);
  }

  /**
   * The gallery component. `effectFilter` is the filter the filter effect
   * last ran with (React re-runs the effect only when `activeFilter`
   * differs from it); `transitionPending` is the scheduled timer whose
   * callback applies `effectFilter`. `shown` is the filter whose list is on
   * screen.
   */
  class PortfolioGallery {
    var activeFilter: CategoryFilter
    var filteredItems: seq<GalleryItem>
    var isLoading: bool
    var effectFilter: CategoryFilter
    var transitionPending: bool
    ghost var shown: CategoryFilter

    ghost predicate Valid()
      reads this
    {
      && filteredItems == Visible(GalleryItems, shown)
      && isLoading == transitionPending
      && (!transitionPending ==> shown == effectFilter)
    }

    /** The effect has run for the current `activeFilter`, as it has whenever a timer can fire. */
    predicate Settled()
      reads this
    {
      effectFilter == activeFilter
    }

    /** Mounting: the initial state, after the effect has run once for `All`. */
    constructor ()
      ensures Valid() && Settled()
      ensures activeFilter == All && filteredItems == GalleryItems && isLoading
      ensures transitionPending
    {
      activeFilter := All;
      filteredItems := GalleryItems;
      isLoading := true;
      shown := All;
      effectFilter := All;
      transitionPending := true;
    }

    /** The click handler: records the selection and nothing else. */
    method HandleFilterChange(f: CategoryFilter)
      requires Valid()
      modifies this`activeFilter
      ensures Valid()
      ensures activeFilter == f
    {
      activeFilter := f;
    }

    /**
     * The filter effect after a render: when the selection changed, the
     * cleanup cancels the pending timer (if any) and the effect dims the grid
     * and schedules a transition for the new selection, so the one pending
     * transition is replaced by a transition for `activeFilter`; otherwise
     * nothing happens.
     */
    method RunFilterEffect()
      requires Valid()
      modifies this
      ensures Valid() && Settled()
      ensures activeFilter == old(activeFilter) && filteredItems == old(filteredItems)
      ensures old(Settled()) ==> isLoading == old(isLoading) && transitionPending == old(transitionPending)
      ensures !old(Settled()) ==> isLoading && transitionPending
    {
      if activeFilter != effectFilter {
        isLoading := true;
        effectFilter := activeFilter;
        transitionPending := true;
      }
    }

    /** A click on filter button `f`: the handler, then the render's effect. */
    method SelectFilter(f: CategoryFilter)
      requires Valid() && Settled()
      modifies this
      ensures Valid() && Settled()
      ensures activeFilter == f && filteredItems == old(filteredItems)
      ensures f != old(activeFilter) ==> isLoading && transitionPending
      ensures f == old(activeFilter) ==>
                isLoading == old(isLoading) && transitionPending == old(transitionPending)
    {
      HandleFilterChange(f);
      RunFilterEffect();
    }

    /** The transition timer fires: the list now reflects the current selection. */
    method TransitionFires()
      requires Valid() && Settled() && transitionPending
      modifies this
      ensures Valid() && Settled()
      ensures activeFilter == old(activeFilter)
      ensures filteredItems == Visible(GalleryItems, activeFilter)
      ensures activeFilter == All ==> filteredItems == GalleryItems
      ensures activeFilter.Only? ==> IsSubsequence(filteredItems, GalleryItems)
      ensures !isLoading && !transitionPending
    {
      filteredItems := if effectFilter == All then GalleryItems
                       else FilterByCategory(GalleryItems, effectFilter.category);
      isLoading := false;
      transitionPending := false;
      shown := effectFilter;
      assert filteredItems == Visible(GalleryItems, activeFilter);
      if activeFilter.Only? {
        FilterIsSubsequence(GalleryItems, activeFilter.category);
      }
    }

    /** Whether the "no results" panel is on screen; with the gallery's data it never is. */
    method EmptyStateShown() returns (b: bool)
      requires Valid()
      ensures b == (|filteredItems| == 0 && !isLoading)
      ensures !b
    {
      b := |filteredItems| == 0 && !isLoading;
      EveryFilterShowsSomething(shown);
    }
  }
}
