/** The listing page (App.tsx): the catalogue held in state, the filter
    state with its initial and cleared values, the sort menu, and the
    derived product view shown in the grid. */
module Catalog {
  import opened Types
  import opened Seqs
  import opened Sorting

  /** The top of the price slider's range and the initial price ceiling. */
  const PriceCap: int := 5000

  /** The filter state the page starts with. */
  const InitialFilters: FilterState := FilterState([], 0, PriceCap, Newest)

  // ---------------------------------------------------------------------
  // Filter-state updates owned by the page
  // ---------------------------------------------------------------------

  /** "Clear all filters": replaces whatever was selected by the literal
      defaults written at the button, which are the initial state. */
  function ClearAll(f: FilterState): (r: FilterState)
    ensures r == InitialFilters
    ensures r.category == [] && r.maxPrice == PriceCap && r.sort == Newest
  {
    FilterState([], 0, 5000, Newest)
  }

  /** A sort-menu entry: sets the ordering and keeps every other criterion. */
  function SelectSort(f: FilterState, mode: SortMode): (r: FilterState)
    ensures r.sort == mode
    ensures r.category == f.category && r.minPrice == f.minPrice && r.maxPrice == f.maxPrice
  {
    f.(sort := mode)
  }

  // ---------------------------------------------------------------------
  // The derived view
  // ---------------------------------------------------------------------

  /** The comparator each sort mode passes to `Array.prototype.sort`, as
      written: negative means the first argument goes first. */
  function Compare(mode: SortMode, a: Product, b: Product): int {
    match mode
    case PriceAsc => a.price - b.price
    case PriceDesc => b.price - a.price
    case Newest => (if IsNew(b) then 1 else 0) - (if IsNew(a) then 1 else 0)
  }

  /** The key each comparator orders by: price, negated price, or 0 for new
      items and 1 for the rest. */
  function SortKey(mode: SortMode): Product -> int {
    match mode
    case PriceAsc => (p: Product) => p.price
    case PriceDesc => (p: Product) => -p.price
    case Newest => (p: Product) => if IsNew(p) then 0 else 1
  }

  /** Every comparator is the difference of the keys, so sorting with it
      (stably) is sorting by ascending key. */
  lemma CompareIsKeyDifference(mode: SortMode, a: Product, b: Product)
    ensures Compare(mode, a, b) == SortKey(mode)(a) - SortKey(mode)(b)
    ensures Compare(mode, a, b) < 0 <==> SortKey(mode)(a) < SortKey(mode)(b)
  {
  }

  function InCategories(cats: seq<string>): Product -> bool {
    (p: Product) => p.category in cats
  }

  function AtMost(maxPrice: int): Product -> bool {
    (p: Product) => p.price <= maxPrice
  }

  /** The category step: a non-empty selection keeps the listed
      categories; an empty one keeps everything. */
  function CategoryStep(items: seq<Product>, cats: seq<string>): seq<Product> {
    if |cats| > 0 then Filter(items, InCategories(cats)) else items
  }

  /** The price step: the ceiling is inclusive. */
  function PriceStep(items: seq<Product>, maxPrice: int): seq<Product> {
    Filter(items, AtMost(maxPrice))
  }

  /** `filteredProducts`: category step, price step, then a stable sort by
      the selected mode's key. */
  function FilteredProducts(products: seq<Product>, f: FilterState): (view: seq<Product>)
    ensures |view| <= |products|
    ensures forall i :: 0 <= i < |view| ==>
      && view[i] in products && view[i].price <= f.maxPrice
      && (|f.category| == 0 || view[i].category in f.category)
  {
    var picked := PriceStep(CategoryStep(products, f.category), f.maxPrice);
    var view := SortBy(picked, SortKey(f.sort));
    assert forall i :: 0 <= i < |view| ==> view[i] in picked by {
      forall i | 0 <= i < |view| ensures view[i] in picked {
        assert view[i] in multiset(view);
      }
    }
    view
  }

  /** Whether a product meets the filter criteria, stated in one place. */
  predicate Passes(f: FilterState, p: Product) {
    (|f.category| == 0 || p.category in f.category) && p.price <= f.maxPrice
  }

  function PassTest(f: FilterState): Product -> bool {
    (p: Product) => Passes(f, p)
  }

  /** The catalogue items that meet the criteria, in catalogue order. */
  function Selected(products: seq<Product>, f: FilterState): seq<Product> {
    Filter(products, PassTest(f))
  }

  /** The two filter steps together select exactly the passing items. */
  lemma StepsSelect(products: seq<Product>, f: FilterState)
    ensures PriceStep(CategoryStep(products, f.category), f.maxPrice) == Selected(products, f)
  {
    if |f.category| > 0 {
      FilterFilter(products, InCategories(f.category), AtMost(f.maxPrice), PassTest(f));
    } else {
      FilterSameTest(products, AtMost(f.maxPrice), PassTest(f));
    }
  }

  lemma ViewIsSortedSelection(products: seq<Product>, f: FilterState)
    ensures FilteredProducts(products, f) == SortBy(Selected(products, f), SortKey(f.sort))
  {
    StepsSelect(products, f);
  }

  /** Each group of equal-key items appears in the view in catalogue order. */
  lemma ViewStable(products: seq<Product>, f: FilterState, k: int)
    ensures KeyClass(FilteredProducts(products, f), SortKey(f.sort), k) == KeyClass(Selected(products, f), SortKey(f.sort), k)
  {
    ViewIsSortedSelection(products, f);
    SortByStable(Selected(products, f), SortKey(f.sort), k);
  }

  /** Nothing invented, nothing lost: every item of the view meets the
      criteria, and each catalogue item that meets them appears in the view
      exactly as often as in the catalogue. */
  lemma ViewMembers(products: seq<Product>, f: FilterState)
    ensures forall i :: 0 <= i < |FilteredProducts(products, f)| ==>
      FilteredProducts(products, f)[i] in products && Passes(f, FilteredProducts(products, f)[i])
    ensures forall p :: multiset(FilteredProducts(products, f))[p] == if Passes(f, p) then multiset(products)[p] else 0
  {
    var v := FilteredProducts(products, f);
    ViewIsSortedSelection(products, f);
    assert multiset(v) == multiset(Selected(products, f));
    forall p ensures multiset(v)[p] == if Passes(f, p) then multiset(products)[p] else 0 {
      FilterMultiset(products, PassTest(f), p);
    }
    forall i | 0 <= i < |v| ensures v[i] in products && Passes(f, v[i]) {
      assert v[i] in multiset(v);
    }
  }

  /** A non-empty category list admits only its categories; an empty one
      lets every category through. */
  lemma ViewCategories(products: seq<Product>, f: FilterState)
    ensures |f.category| > 0 ==>
      forall i :: 0 <= i < |FilteredProducts(products, f)| ==> FilteredProducts(products, f)[i].category in f.category
    ensures |f.category| == 0 ==> forall p ::
      multiset(FilteredProducts(products, f))[p] == if p.price <= f.maxPrice then multiset(products)[p] else 0
  {
    ViewMembers(products, f);
  }

  /** The minimum price plays no part: changing it leaves the view as it is. */
  lemma ViewIgnoresMinPrice(products: seq<Product>, f: FilterState, minPrice: int)
    ensures FilteredProducts(products, f.(minPrice := minPrice)) == FilteredProducts(products, f)
  {
  }

  /** The items of `s` priced exactly `price`, in their order in `s`. */
  function PricedAt(s: seq<Product>, price: int): seq<Product> {
    Filter(s, PriceIs(price))
  }

  function PriceIs(price: int): Product -> bool {
    (p: Product) => p.price == price
  }

  lemma KeyClassIsPriceGroup(s: seq<Product>, price: int)
    ensures KeyClass(s, SortKey(PriceAsc), price) == PricedAt(s, price)
  {
    FilterSameTest(s, HasKey(SortKey(PriceAsc), price), PriceIs(price));
  }

  /** Under the negated-price key, the group of key `k` is the group priced `-k`. */
  lemma KeyClassIsNegatedPriceGroup(s: seq<Product>, price: int, k: int)
    requires k + price == 0
    ensures KeyClass(s, SortKey(PriceDesc), k) == PricedAt(s, price)
  {
    FilterSameTest(s, HasKey(SortKey(PriceDesc), k), PriceIs(price));
  }

  lemma PriceDescGroupsKept(products: seq<Product>, f: FilterState, price: int, k: int)
    requires f.sort == PriceDesc
    requires k + price == 0
    ensures PricedAt(FilteredProducts(products, f), price) == PricedAt(Selected(products, f), price)
  {
    ViewStable(products, f, k);
    KeyClassIsNegatedPriceGroup(FilteredProducts(products, f), price, k);
    KeyClassIsNegatedPriceGroup(Selected(products, f), price, k);
  }

  /** Price low to high: prices never decrease, and items of equal price
      keep their catalogue order. */
  lemma PriceAscOrder(products: seq<Product>, f: FilterState, price: int)
    requires f.sort == PriceAsc
    ensures forall i, j :: 0 <= i < j < |FilteredProducts(products, f)| ==>
      FilteredProducts(products, f)[i].price <= FilteredProducts(products, f)[j].price
    ensures PricedAt(FilteredProducts(products, f), price) == PricedAt(Selected(products, f), price)
  {
    ViewIsSortedSelection(products, f);
    SortBySorted(Selected(products, f), SortKey(PriceAsc));
    ViewStable(products, f, price);
    KeyClassIsPriceGroup(FilteredProducts(products, f), price);
    KeyClassIsPriceGroup(Selected(products, f), price);
  }

  /** The sort's key order for price high to low is falling price. */
  lemma DescendingKeysAreFallingPrices(v: seq<Product>)
    requires Sorted(v, SortKey(PriceDesc))
    ensures forall i, j :: 0 <= i < j < |v| ==> v[i].price >= v[j].price
  {
    forall i, j | 0 <= i < j < |v| ensures v[i].price >= v[j].price {
      assert SortKey(PriceDesc)(v[i]) <= SortKey(PriceDesc)(v[j]);
    }
  }

  /** Price high to low: prices never increase, and items of equal price
      keep their catalogue order. */
  lemma PriceDescOrder(products: seq<Product>, f: FilterState, price: int)
    requires f.sort == PriceDesc
    ensures forall i, j :: 0 <= i < j < |FilteredProducts(products, f)| ==>
      FilteredProducts(products, f)[i].price >= FilteredProducts(products, f)[j].price
    ensures PricedAt(FilteredProducts(products, f), price) == PricedAt(Selected(products, f), price)
  {
    ViewIsSortedSelection(products, f);
    SortBySorted(Selected(products, f), SortKey(PriceDesc));
    DescendingKeysAreFallingPrices(FilteredProducts(products, f));
    PriceDescGroupsKept(products, f, price, -price);
  }

  function NewTest(isNew: bool): Product -> bool {
    (p: Product) => IsNew(p) == isNew
  }

  /** The new items of `s`, in their order in `s`. */
  function NewItems(s: seq<Product>): seq<Product> {
    Filter(s, NewTest(true))
  }

  /** The items of `s` that are not new, in their order in `s`. */
  function OtherItems(s: seq<Product>): seq<Product> {
    Filter(s, NewTest(false))
  }

  /** Newest: the new items in catalogue order, then the rest in catalogue
      order (a missing flag counts as not new). */
  lemma NewestIsStablePartition(products: seq<Product>, f: FilterState)
    requires f.sort == Newest
    ensures FilteredProducts(products, f) == NewItems(Selected(products, f)) + OtherItems(Selected(products, f))
  {
    var s := Selected(products, f);
    ViewIsSortedSelection(products, f);
    SortTwoKeysIsPartition(s, SortKey(Newest));
    FilterSameTest(s, HasKey(SortKey(Newest), 0), NewTest(true));
    FilterSameTest(s, HasKey(SortKey(Newest), 1), NewTest(false));
  }

  /** Newest: every new item comes before every item that is not new. */
  lemma NewestPutsNewFirst(products: seq<Product>, f: FilterState)
    requires f.sort == Newest
    ensures forall i, j ::
      && 0 <= i < |FilteredProducts(products, f)| && 0 <= j < |FilteredProducts(products, f)|
      && IsNew(FilteredProducts(products, f)[i]) && !IsNew(FilteredProducts(products, f)[j])
      ==> i < j
  {
    var v := FilteredProducts(products, f);
    ViewIsSortedSelection(products, f);
    SortBySorted(Selected(products, f), SortKey(Newest));
    assert forall i :: 0 <= i < |v| ==> SortKey(Newest)(v[i]) == if IsNew(v[i]) then 0 else 1;
  }

  /** The view of a view is the view: it is already filtered and sorted. */
  lemma ViewIdempotent(products: seq<Product>, f: FilterState)
    ensures FilteredProducts(FilteredProducts(products, f), f) == FilteredProducts(products, f)
  {
    var v := FilteredProducts(products, f);
    ViewMembers(products, f);
    ViewIsSortedSelection(v, f);
    FilterKeepsAll(v, PassTest(f));
    ViewIsSortedSelection(products, f);
    SortBySorted(Selected(products, f), SortKey(f.sort));
    SortSortedIsIdentity(v, SortKey(f.sort));
  }

  /** Changing the sort mode changes the order of the view but never which
      items it holds. */
  lemma SelectSortKeepsItems(products: seq<Product>, f: FilterState, mode: SortMode)
    ensures multiset(FilteredProducts(products, SelectSort(f, mode))) == multiset(FilteredProducts(products, f))
  {
    ViewIsSortedSelection(products, f);
    ViewIsSortedSelection(products, SelectSort(f, mode));
    FilterSameTest(products, PassTest(f), PassTest(SelectSort(f, mode)));
  }

  // ---------------------------------------------------------------------
  // Adding a listing
  // ---------------------------------------------------------------------

  /** `handleAddProduct`: the new product goes in front of the catalogue. */
  function AddProduct(products: seq<Product>, p: Product): (r: seq<Product>)
    ensures |r| == |products| + 1
    ensures r[0] == p && r[1..] == products
  {
    [p] + products
  }

  /** After adding, the view holds what it held before plus the new product
      if and only if the product meets the criteria. */
  lemma AddProductView(products: seq<Product>, p: Product, f: FilterState)
    ensures multiset(FilteredProducts(AddProduct(products, p), f)) ==
      multiset(FilteredProducts(products, f)) + if Passes(f, p) then multiset{p} else multiset{}
  {
    ViewIsSortedSelection(products, f);
    ViewIsSortedSelection(AddProduct(products, p), f);
    assert AddProduct(products, p)[1..] == products;
  }

  /** Under the default ordering a new listing that passes the filters is
      shown first. */
  lemma NewListingShownFirst(products: seq<Product>, p: Product, f: FilterState)
    requires f.sort == Newest && IsNew(p) && Passes(f, p)
    ensures FilteredProducts(AddProduct(products, p), f)[0] == p
  {
    var c := AddProduct(products, p);
    ViewIsSortedSelection(c, f);
    assert c[1..] == products;
    assert Selected(c, f) == [p] + Selected(products, f);
    var s := Selected(c, f);
    assert s[0] == p && s[1..] == Selected(products, f);
    var sorted := SortBy(s[1..], SortKey(Newest));
    assert SortBy(s, SortKey(Newest)) == Insert(p, sorted, SortKey(Newest));
    assert |sorted| == 0 || SortKey(Newest)(p) <= SortKey(Newest)(sorted[0]);
  }

  /** Catalogue identifiers are pairwise distinct. */
  predicate UniqueIds(products: seq<Product>) {
    forall i, j :: 0 <= i < j < |products| ==> products[i].id != products[j].id
  }

  /** A product whose identifier exceeds every identifier present (a later
      clock reading) keeps identifiers distinct. */
  lemma AddProductKeepsIdsUnique(products: seq<Product>, p: Product)
    requires UniqueIds(products)
    requires forall i :: 0 <= i < |products| ==> products[i].id < p.id
    ensures UniqueIds(AddProduct(products, p))
  {
    var r := AddProduct(products, p);
    forall i, j | 0 <= i < j < |r| ensures r[i].id != r[j].id {
      assert r[j] == products[j - 1];
      if i > 0 {
        assert r[i] == products[i - 1];
      }
    }
  }

  /** Sorting two items swaps them exactly when the first has the larger key. */
  lemma SortTwo(a: Product, b: Product, key: Product -> int)
    ensures SortBy([a, b], key) == if key(a) <= key(b) then [a, b] else [b, a]
  {
    assert [a, b][1..] == [b];
    assert SortBy([b], key) == [b];
  }

  /** The worked example of the listing page, an older item at 100 and a
      new one at 50: both pass the initial ceiling, newest and price low to
      high put the new one first, price high to low the older one. */
  lemma ExampleOrder(older: Product, newer: Product, mode: SortMode)
    requires older.price == 100 && !IsNew(older) && newer.price == 50 && IsNew(newer)
    ensures FilteredProducts([older, newer], InitialFilters.(sort := mode)) ==
      if mode == PriceDesc then [older, newer] else [newer, older]
  {
    var both := [older, newer];
    var f := InitialFilters.(sort := mode);
    FilterKeepsAll(both, AtMost(PriceCap));
    assert PriceStep(CategoryStep(both, f.category), f.maxPrice) == both;
    SortTwo(older, newer, SortKey(mode));
  }

  /** With a ceiling of 40 neither item of the worked example is shown. */
  lemma ExampleCeiling(older: Product, newer: Product)
    requires older.price == 100 && newer.price == 50
    ensures FilteredProducts([older, newer], InitialFilters.(maxPrice := 40)) == []
  {
    FilterDropsAll([older, newer], AtMost(40));
  }
}
