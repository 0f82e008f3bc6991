/** The filter sidebar (components/FilterSidebar.tsx): category check
    boxes, the price-ceiling slider and the collapsible sections. */
module Sidebar {
  import opened Types
  import opened Seqs
  import Catalog

  // ---------------------------------------------------------------------
  // Category check boxes
  // ---------------------------------------------------------------------

  function Other(c: string): string -> bool {
    (d: string) => d != c
  }

  /** `cats` with every occurrence of `c` removed. */
  function Without(cats: seq<string>, c: string): seq<string> {
    Filter(cats, Other(c))
  }

  predicate NoDuplicates(cats: seq<string>) {
    forall i, j :: 0 <= i < j < |cats| ==> cats[i] != cats[j]
  }

  /** The list update of `handleCategoryChange`: a listed category is
      removed (all its occurrences), an unlisted one is appended. */
  function Toggle(cats: seq<string>, c: string): (r: seq<string>)
    ensures c in r <==> c !in cats
    ensures forall i :: 0 <= i < |cats| && cats[i] != c ==> cats[i] in r
    ensures forall i :: 0 <= i < |r| && r[i] != c ==> r[i] in cats
  {
    if c in cats then Without(cats, c) else cats + [c]
  }

  /** Either way, the other categories are left in the order they had. */
  lemma ToggleKeepsOthersInOrder(cats: seq<string>, c: string)
    ensures Without(Toggle(cats, c), c) == Without(cats, c)
    ensures c !in cats ==> Toggle(cats, c) == cats + [c]
  {
    if c in cats {
      FilterKeepsAll(Without(cats, c), Other(c));
    } else {
      FilterAppend(cats, [c], Other(c));
      assert Filter([c], Other(c)) == [];
    }
  }

  lemma {:induction false} FilterKeepsNoDuplicates(cats: seq<string>, keep: string -> bool)
    requires NoDuplicates(cats)
    ensures NoDuplicates(Filter(cats, keep))
    decreases |cats|
  {
    if |cats| > 0 {
      var tail := cats[1..];
      FilterKeepsNoDuplicates(tail, keep);
      var ft := Filter(tail, keep);
      assert cats[0] !in tail;
    }
  }

  /** A list without duplicates stays without duplicates. */
  lemma ToggleKeepsNoDuplicates(cats: seq<string>, c: string)
    requires NoDuplicates(cats)
    ensures NoDuplicates(Toggle(cats, c))
  {
    if c in cats {
      FilterKeepsNoDuplicates(cats, Other(c));
    }
  }

  /** Checking and then unchecking a category that was not selected gives
      back the list exactly. */
  lemma ToggleTwiceRestores(cats: seq<string>, c: string)
    requires c !in cats
    ensures Toggle(Toggle(cats, c), c) == cats
  {
    var once := cats + [c];
    FilterAppend(cats, [c], Other(c));
    FilterKeepsAll(cats, Other(c));
    assert Filter([c], Other(c)) == [];
  }

  /** Unchecking and then re-checking a selected category moves it to the
      end of the list, so the list is restored only up to order. */
  lemma UntoggleRetoggleMovesToEnd(cats: seq<string>, c: string)
    requires c in cats
    ensures Toggle(Toggle(cats, c), c) == Without(cats, c) + [c]
  {
  }

  /** `handleCategoryChange` on the whole filter state: only the category
      list changes. */
  function ChangeCategory(f: FilterState, c: string): (r: FilterState)
    ensures r.category == Toggle(f.category, c)
    ensures c in r.category <==> c !in f.category
    ensures r.minPrice == f.minPrice && r.maxPrice == f.maxPrice && r.sort == f.sort
  {
    f.(category := Toggle(f.category, c))
  }

  // ---------------------------------------------------------------------
  // Price slider
  // ---------------------------------------------------------------------

  const SliderMin: int := 0
  const SliderMax: int := 5000
  const SliderStep: int := 100

  /** The number of steps between the two ends of the slider. */
  const SliderPositions: nat := (SliderMax - SliderMin) / SliderStep

  predicate IsSliderValue(v: int) {
    SliderMin <= v <= SliderMax && (v - SliderMin) % SliderStep == 0
  }

  /** The value the slider reports at a given step. */
  function SliderValue(position: nat): (v: int)
    requires position <= SliderPositions
    ensures IsSliderValue(v)
  {
    SliderMin + position * SliderStep
  }

  /** The slider's values are exactly the multiples of 100 from 0 to 5000. */
  lemma SliderValuesAreSteps(v: int)
    ensures IsSliderValue(v) <==> exists position: nat :: position <= SliderPositions && SliderValue(position) == v
  {
    if IsSliderValue(v) {
      var position: nat := (v - SliderMin) / SliderStep;
      assert SliderValue(position) == v;
    }
  }

  /** Moving the slider: only the price ceiling changes. */
  function MoveSlider(f: FilterState, position: nat): (r: FilterState)
    requires position <= SliderPositions
    ensures r.maxPrice == SliderValue(position) && IsSliderValue(r.maxPrice)
    ensures r.category == f.category && r.minPrice == f.minPrice && r.sort == f.sort
  {
    f.(maxPrice := SliderValue(position))
  }

  /** The slider's top value is the page's initial ceiling. */
  lemma SliderTopIsInitialCeiling()
    ensures SliderValue(SliderPositions) == Catalog.InitialFilters.maxPrice
  {
  }

  /** Nothing sets the ceiling above the slider's top, so a product priced
      above it is never shown. */
  lemma AboveSliderTopNeverShown(products: seq<Product>, f: FilterState, p: Product)
    requires f.maxPrice <= SliderMax && p.price > SliderMax
    ensures multiset(Catalog.FilteredProducts(products, f))[p] == 0
  {
    Catalog.ViewMembers(products, f);
  }

  // ---------------------------------------------------------------------
  // Collapsible sections
  // ---------------------------------------------------------------------

  const InitialSections: map<string, bool> := map["category" := true, "price" := true]

  /** Whether a section is shown; a key never set reads as undefined, which
      is falsy. */
  function IsOpen(sections: map<string, bool>, key: string): bool {
    key in sections && sections[key]
  }

  /** `toggleSection`: flips the named flag and copies every other one. */
  function ToggleSection(sections: map<string, bool>, key: string): (r: map<string, bool>)
    ensures IsOpen(r, key) == !IsOpen(sections, key)
    ensures r.Keys == sections.Keys + {key}
    ensures forall k :: k in sections && k != key ==> r[k] == sections[k]
  {
    sections[key := !IsOpen(sections, key)]
  }

  /** Toggling a section that has a flag twice restores the flags. */
  lemma ToggleSectionTwice(sections: map<string, bool>, key: string)
    requires key in sections
    ensures ToggleSection(ToggleSection(sections, key), key) == sections
  {
  }

  lemma BothSectionsStartOpen()
    ensures IsOpen(InitialSections, "category") && IsOpen(InitialSections, "price")
  {
  }
}
