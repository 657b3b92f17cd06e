/** The selection state of the product filter panel: the price slider, the
    checked categories, brands and ratings (each an ordered list of ids, in
    the order they were checked), and the in-stock flag. The handlers are pure
    transitions; the panel derives the number of active filters and the
    badges of the "Active Filters" card from the state. */
module ProductFilters {

  import opened Optional
  import opened Lists

  datatype Filters = Filters(
    priceRange: seq<int>,
    categories: seq<string>,
    brands: seq<string>,
    ratings: seq<int>,
    inStockOnly: bool)

  const Initial := Filters([0, 1000], [], [], [], false)

  // ---------------------------------------------------------------------------
  // The shared checkbox handler

  function Other<T(==)>(x: T): T -> bool
  {
    (y: T) => y != x
  }

  /** The body of each selection handler: checking appends the id, however
      often it is already present; unchecking removes every occurrence. */
  function Toggle<T(==,!new)>(list: seq<T>, x: T, checked: bool): (r: seq<T>)
    ensures checked ==> |r| == |list| + 1 && r[..|list|] == list && r[|list|] == x
    ensures checked ==> multiset(r) == multiset(list) + multiset{x}
    ensures !checked ==> forall i :: 0 <= i < |r| ==> r[i] != x
    ensures !checked ==> forall y :: multiset(r)[y] == if y == x then 0 else multiset(list)[y]
  {
    ToggleCounts(list, x);
    if checked then list + [x] else Filter(Other(x), list)
  }

  /** What checking and unchecking `x` do to the list's positions and counts. */
  lemma ToggleCounts<T(!new)>(list: seq<T>, x: T)
    ensures (list + [x])[..|list|] == list
    ensures forall y :: multiset(Filter(Other(x), list))[y] == if y == x then 0 else multiset(list)[y]
  {
    assert (list + [x])[..|list|] == list;
    forall y
      ensures multiset(Filter(Other(x), list))[y] == if y == x then 0 else multiset(list)[y]
    {
      FilterCount(Other(x), list, y);
    }
  }

  /** A checkbox event as the panel produces it: each box shows whether its id
      is selected, so its change event asks for the opposite. */
  predicate FromCheckbox<T(==)>(list: seq<T>, x: T, checked: bool)
  {
    checked == (x !in list)
  }

  predicate NoDuplicates<T(==)>(s: seq<T>)
  {
    forall i, j :: 0 <= i < j < |s| ==> s[i] != s[j]
  }

  // ---------------------------------------------------------------------------
  // Handlers

  function CategoryChange(f: Filters, id: string, checked: bool): (r: Filters)
    ensures r == f.(categories := r.categories)
    ensures checked ==> r.categories == f.categories + [id]
    ensures !checked ==> id !in r.categories
    ensures !checked ==> forall y :: y != id ==> multiset(r.categories)[y] == multiset(f.categories)[y]
  {
    f.(categories := Toggle(f.categories, id, checked))
  }

  function BrandChange(f: Filters, id: string, checked: bool): (r: Filters)
    ensures r == f.(brands := r.brands)
    ensures checked ==> r.brands == f.brands + [id]
    ensures !checked ==> id !in r.brands
    ensures !checked ==> forall y :: y != id ==> multiset(r.brands)[y] == multiset(f.brands)[y]
  {
    f.(brands := Toggle(f.brands, id, checked))
  }

  function RatingChange(f: Filters, rating: int, checked: bool): (r: Filters)
    ensures r == f.(ratings := r.ratings)
    ensures checked ==> r.ratings == f.ratings + [rating]
    ensures !checked ==> rating !in r.ratings
    ensures !checked ==> forall y :: y != rating ==> multiset(r.ratings)[y] == multiset(f.ratings)[y]
  {
    f.(ratings := Toggle(f.ratings, rating, checked))
  }

  /** The availability checkbox. */
  function SetInStockOnly(f: Filters, checked: bool): (r: Filters)
    ensures r == f.(inStockOnly := r.inStockOnly)
    ensures r.inStockOnly == checked
  {
    f.(inStockOnly := checked)
  }

  /** The slider's change event stores the new range as given. */
  function SetPriceRange(f: Filters, range: seq<int>): (r: Filters)
    ensures r == f.(priceRange := r.priceRange)
    ensures r.priceRange == range
  {
    f.(priceRange := range)
  }

  /** The "Clear All" button. */
  function ClearFilters(f: Filters): (r: Filters)
    ensures ActiveFiltersCount(r) == 0
    ensures r.priceRange == [0, 1000]
    ensures forall x :: x !in r.categories && x !in r.brands
    ensures forall n :: n !in r.ratings
  {
    Initial
  }

  // ---------------------------------------------------------------------------
  // Derived values

  /** One per checked category, brand and rating, plus one for the in-stock
      flag; the price range never counts. */
  function ActiveFiltersCount(f: Filters): (r: nat)
    ensures r == 0 <==> f.categories == [] && f.brands == [] && f.ratings == [] && !f.inStockOnly
  {
    |f.categories| + |f.brands| + |f.ratings| + (if f.inStockOnly then 1 else 0)
  }

  /** The "Active Filters" card is rendered only when something is active:
      some id or rating is checked, or the in-stock flag is set. */
  predicate ShowsActiveCard(f: Filters)
    ensures ShowsActiveCard(f) <==> f.categories != [] || f.brands != [] || f.ratings != [] || f.inStockOnly
  {
    ActiveFiltersCount(f) > 0
  }

  /** The label of one badge of the card. A category or brand id with no
      entry in its fixed table renders an empty badge. */
  datatype Badge =
    | CategoryBadge(name: Option<string>)
    | BrandBadge(name: Option<string>)
    | RatingBadge(stars: int)
    | InStockBadge

  /** The category table of the panel, id to display name. */
  function CategoryName(id: string): Option<string>
  {
    if id == "electronics" then Some("Electronics")
    else if id == "fashion" then Some("Fashion")
    else if id == "home-garden" then Some("Home & Garden")
    else if id == "sports" then Some("Sports")
    else if id == "beauty" then Some("Beauty")
    else if id == "books" then Some("Books")
    else None
  }

  /** The brand table of the panel, id to display name. */
  function BrandName(id: string): Option<string>
  {
    if id == "techsound" then Some("TechSound")
    else if id == "fittech" then Some("FitTech")
    else if id == "brewmaster" then Some("BrewMaster")
    else if id == "comfortpro" then Some("ComfortPro")
    else if id == "soundwave" then Some("SoundWave")
    else if id == "chargetech" then Some("ChargeTech")
    else None
  }

  function CategoryBadges(ids: seq<string>): (r: seq<Badge>)
    ensures |r| == |ids|
    ensures forall i :: 0 <= i < |ids| ==> r[i] == CategoryBadge(CategoryName(ids[i]))
  {
    if |ids| == 0 then [] else [CategoryBadge(CategoryName(ids[0]))] + CategoryBadges(ids[1..])
  }

  function BrandBadges(ids: seq<string>): (r: seq<Badge>)
    ensures |r| == |ids|
    ensures forall i :: 0 <= i < |ids| ==> r[i] == BrandBadge(BrandName(ids[i]))
  {
    if |ids| == 0 then [] else [BrandBadge(BrandName(ids[0]))] + BrandBadges(ids[1..])
  }

  function RatingBadges(stars: seq<int>): (r: seq<Badge>)
    ensures |r| == |stars|
    ensures forall i :: 0 <= i < |stars| ==> r[i] == RatingBadge(stars[i])
  {
    if |stars| == 0 then [] else [RatingBadge(stars[0])] + RatingBadges(stars[1..])
  }

  /** The in-stock badge, when the flag is set. */
  function StockBadges(f: Filters): seq<Badge>
  {
    if f.inStockOnly then [InStockBadge] else []
  }

  /** The badges of the card, in rendering order: the categories, then the
      brands, then the ratings, then the in-stock badge. */
  function Badges(f: Filters): (r: seq<Badge>)
    ensures |r| == ActiveFiltersCount(f)
    ensures forall i :: 0 <= i < |f.categories| ==> r[i] == CategoryBadge(CategoryName(f.categories[i]))
    ensures forall i :: 0 <= i < |f.brands| ==>
              r[|f.categories| + i] == BrandBadge(BrandName(f.brands[i]))
    ensures forall i :: 0 <= i < |f.ratings| ==>
              r[|f.categories| + |f.brands| + i] == RatingBadge(f.ratings[i])
  {
    CategoryBadgesFirst(f);
    BrandBadgesSecond(f);
    RatingBadgesThird(f);
    CategoryBadges(f.categories) + BrandBadges(f.brands) + RatingBadges(f.ratings) + StockBadges(f)
  }

  // Each part of the card sits where `Badges` promises; one lemma per part
  // keeps each proof small.

  lemma CategoryBadgesFirst(f: Filters)
    ensures var r := CategoryBadges(f.categories) + BrandBadges(f.brands) + RatingBadges(f.ratings) + StockBadges(f);
            forall i :: 0 <= i < |f.categories| ==> r[i] == CategoryBadge(CategoryName(f.categories[i]))
  {
    Concat4(CategoryBadges(f.categories), BrandBadges(f.brands), RatingBadges(f.ratings), StockBadges(f));
  }

  lemma BrandBadgesSecond(f: Filters)
    ensures var r := CategoryBadges(f.categories) + BrandBadges(f.brands) + RatingBadges(f.ratings) + StockBadges(f);
            forall i :: 0 <= i < |f.brands| ==> r[|f.categories| + i] == BrandBadge(BrandName(f.brands[i]))
  {
    Concat4(CategoryBadges(f.categories), BrandBadges(f.brands), RatingBadges(f.ratings), StockBadges(f));
  }

  lemma RatingBadgesThird(f: Filters)
    ensures var r := CategoryBadges(f.categories) + BrandBadges(f.brands) + RatingBadges(f.ratings) + StockBadges(f);
            forall i :: 0 <= i < |f.ratings| ==>
              r[|f.categories| + |f.brands| + i] == RatingBadge(f.ratings[i])
  {
    Concat4(CategoryBadges(f.categories), BrandBadges(f.brands), RatingBadges(f.ratings), StockBadges(f));
  }

  // ---------------------------------------------------------------------------
  // Lemmas

  /** The card shows exactly `activeFiltersCount` badges, and shows at all
      exactly when it has a badge to show. */
  lemma BadgesMatchCount(f: Filters)
    ensures |Badges(f)| == ActiveFiltersCount(f)
    ensures ShowsActiveCard(f) <==> |Badges(f)| > 0
    ensures InStockBadge in Badges(f) <==> f.inStockOnly
  {
    var cb, bb, rb := CategoryBadges(f.categories), BrandBadges(f.brands), RatingBadges(f.ratings);
    Concat4Members(cb, bb, rb, StockBadges(f));
    assert InStockBadge !in cb && InStockBadge !in bb && InStockBadge !in rb;
  }

  /** Unchecking keeps the remaining ids in their order: it distributes over
      any split of the list. */
  lemma UncheckKeepsOrder<T(!new)>(a: seq<T>, b: seq<T>, x: T)
    ensures Toggle(a + b, x, false) == Toggle(a, x, false) + Toggle(b, x, false)
  {
    FilterAppend(Other(x), a, b);
  }

  /** Unchecking an id that was just checked, on a list that did not hold it,
      restores the list. */
  lemma CheckThenUncheck<T(!new)>(list: seq<T>, x: T)
    requires x !in list
    ensures Toggle(Toggle(list, x, true), x, false) == list
  {
    var p := Other(x);
    FilterAppend(p, list, [x]);
    FilterAll(p, list);
    FilterNone(p, [x]);
    assert list + [] == list;
  }

  /** Checkbox events keep a list free of duplicates. */
  lemma ToggleKeepsNoDuplicates<T(!new)>(list: seq<T>, x: T, checked: bool)
    requires NoDuplicates(list) && FromCheckbox(list, x, checked)
    ensures NoDuplicates(Toggle(list, x, checked))
  {
    var r := Toggle(list, x, checked);
    if !checked {
      var key := (y: T) => y;
      assert UniqueBy(key, list) by {
        forall i, j | 0 <= i < j < |list| ensures key(list[i]) != key(list[j]) {
          assert list[i] != list[j];
        }
      }
      FilterKeepsUnique(key, Other(x), list);
      forall i, j | 0 <= i < j < |r| ensures r[i] != r[j] {
        assert key(r[i]) != key(r[j]);
      }
    }
  }

  /** The handler itself does not deduplicate: two "checked" events for the
      same id leave it in the list twice. */
  lemma DoubleCheckDuplicates<T(!new)>(x: T)
    ensures Toggle(Toggle([], x, true), x, true) == [x, x]
    ensures !NoDuplicates(Toggle(Toggle([], x, true), x, true))
  {
    var r := Toggle(Toggle([], x, true), x, true);
    assert r[0] == r[1];
  }

  /** Each selection handler moves the count by the change in its own list;
      the price slider leaves it alone. */
  lemma HandlersAndCount(f: Filters, id: string, rating: int, range: seq<int>, checked: bool)
    ensures ActiveFiltersCount(CategoryChange(f, id, true)) == ActiveFiltersCount(f) + 1
    ensures ActiveFiltersCount(BrandChange(f, id, true)) == ActiveFiltersCount(f) + 1
    ensures ActiveFiltersCount(RatingChange(f, rating, true)) == ActiveFiltersCount(f) + 1
    ensures ActiveFiltersCount(CategoryChange(f, id, false)) == ActiveFiltersCount(f) - multiset(f.categories)[id]
    ensures ActiveFiltersCount(BrandChange(f, id, false)) == ActiveFiltersCount(f) - multiset(f.brands)[id]
    ensures ActiveFiltersCount(RatingChange(f, rating, false)) == ActiveFiltersCount(f) - multiset(f.ratings)[rating]
    ensures ActiveFiltersCount(SetPriceRange(f, range)) == ActiveFiltersCount(f)
    ensures ActiveFiltersCount(SetInStockOnly(f, checked))
              == ActiveFiltersCount(f) - (if f.inStockOnly then 1 else 0) + (if checked then 1 else 0)
  {
    MultisetSize(f.categories, id);
    MultisetSize(f.brands, id);
    MultisetSize(f.ratings, rating);
  }

  /** Unchecking shortens the list by the number of occurrences of the id. */
  lemma {:induction false} MultisetSize<T(!new)>(list: seq<T>, x: T)
    ensures |Toggle(list, x, false)| == |list| - multiset(list)[x]
  {
    if |list| > 0 {
      MultisetSize(list[1..], x);
      assert list == [list[0]] + list[1..];
    }
  }

  /** Clearing returns to the initial state from anywhere, so it is idempotent. */
  lemma ClearRestoresInitial(f: Filters)
    ensures ClearFilters(f) == Initial
    ensures ClearFilters(ClearFilters(f)) == ClearFilters(f)
  {
  }
}
