/**
 * The product listing page: the derived list (category filter, title search,
 * optional sort), its pagination into pages of eight, and the page's
 * selection state with the handlers that change it.
 */
module Listing {
  import opened Wrappers
  import opened Text
  import opened Sorting
  import opened ProductModel

  /** The sentinel category that disables the category filter. */
  const AllCategories: string := "All"

  /** Number of products shown per page. */
  const ItemsPerPage: nat := 8

  datatype SortField = Price | Title

  /** The sort buttons' state: no field (no sort) or a field, with a direction. */
  datatype SortCriteria = SortCriteria(field: Option<SortField>, order: SortOrder)

  const NoSort: SortCriteria := SortCriteria(None, Asc)

  // ---------------------------------------------------------------------------
  // The derived list, one step at a time
  // ---------------------------------------------------------------------------

  /** The category filter's test: exact, case-sensitive equality of labels. */
  function InCategory(category: string): Product -> bool
  {
    (p: Product) => p.category == category
  }

  /** The search filter's test: the lower-cased title contains `needle`. */
  function TitleMatches(needle: string): Product -> bool
  {
    (p: Product) => Contains(ToLower(p.title), needle)
  }

  /** What the comparator compares: the price (a missing one as 0) or the lower-cased title. */
  function KeyOf(field: SortField): Product -> Key
  {
    match field
    case Price => (p: Product) => Num(p.price.OrElse(0.0))
    case Title => (p: Product) => Str(ToLower(p.title))
  }

  function CategoryStep(products: seq<Product>, category: string): seq<Product>
  {
    if category != AllCategories then Keep(products, InCategory(category)) else products
  }

  function SearchStep(products: seq<Product>, searchTerm: string): seq<Product>
  {
    if Trim(searchTerm) != [] then Keep(products, TitleMatches(ToLower(Trim(searchTerm)))) else products
  }

  function SortStep(products: seq<Product>, criteria: SortCriteria): seq<Product>
  {
    match criteria.field
    case None => products
    case Some(field) => SortBy(products, KeyOf(field), criteria.order)
  }

  /** The filtered and sorted list the page derives from its products and selection. */
  function DerivedList(products: seq<Product>, category: string, searchTerm: string, criteria: SortCriteria): seq<Product>
  {
    SortStep(SearchStep(CategoryStep(products, category), searchTerm), criteria)
  }

  /** A product passes both filters of the selection. */
  predicate Selected(p: Product, category: string, searchTerm: string)
  {
    (category == AllCategories || p.category == category) &&
    (Trim(searchTerm) == [] || Contains(ToLower(p.title), ToLower(Trim(searchTerm))))
  }

  /** With the `All` sentinel the category step keeps the list; otherwise exactly the products of that category, in order. */
  lemma CategoryStepKeeps(products: seq<Product>, category: string)
    ensures category == AllCategories ==> CategoryStep(products, category) == products
    ensures category != AllCategories ==>
      var r := CategoryStep(products, category);
      (forall p :: multiset(r)[p] == if p.category == category then multiset(products)[p] else 0) &&
      IsSubsequence(r, products)
  {
    if category != AllCategories {
      KeepExactly(products, InCategory(category));
    }
  }

  /** An empty or all-whitespace term keeps the list; otherwise exactly the products whose lower-cased title contains the trimmed, lower-cased term. */
  lemma SearchStepKeeps(products: seq<Product>, searchTerm: string)
    ensures IsBlank(searchTerm) ==> SearchStep(products, searchTerm) == products
    ensures !IsBlank(searchTerm) ==>
      var needle := ToLower(Trim(searchTerm));
      var r := SearchStep(products, searchTerm);
      (forall p :: multiset(r)[p] == if Contains(ToLower(p.title), needle) then multiset(products)[p] else 0) &&
      IsSubsequence(r, products)
  {
    TrimEmptyIffBlank(searchTerm);
    if !IsBlank(searchTerm) {
      KeepExactly(products, TitleMatches(ToLower(Trim(searchTerm))));
    }
  }

  /**
   * Without a sort field the list is returned as it is. With one, the result is
   * a permutation of the filtered list, non-decreasing in the key for `asc` and
   * non-increasing for `desc`, and products with equal keys keep their order.
   */
  lemma SortStepOrders(products: seq<Product>, criteria: SortCriteria)
    ensures criteria.field.None? ==> SortStep(products, criteria) == products
    ensures criteria.field.Some? ==>
      var key := KeyOf(criteria.field.value);
      var r := SortStep(products, criteria);
      && multiset(r) == multiset(products)
      && (forall i, j :: 0 <= i < j < |r| ==>
            if criteria.order == Asc then !KeyLess(key(r[j]), key(r[i])) else !KeyLess(key(r[i]), key(r[j])))
      && (forall k :: WithKey(r, key, k) == WithKey(products, key, k))
  {
    if criteria.field.Some? {
      var key := KeyOf(criteria.field.value);
      var r := SortStep(products, criteria);
      SortByPermutes(products, key, criteria.order);
      SortBySorted(products, key, criteria.order);
      SortedByMeaning(r, key, criteria.order);
      forall k ensures WithKey(r, key, k) == WithKey(products, key, k) {
        SortByStable(products, key, criteria.order, k);
      }
    }
  }

  /**
   * The derived list holds every selected product as often as the input does
   * and nothing else; so every product shown passes the category and search filters.
   */
  lemma DerivedListSelects(products: seq<Product>, category: string, searchTerm: string, criteria: SortCriteria)
    ensures var r := DerivedList(products, category, searchTerm, criteria);
      forall p :: multiset(r)[p] == if Selected(p, category, searchTerm) then multiset(products)[p] else 0
  {
    var afterCategory := CategoryStep(products, category);
    var afterSearch := SearchStep(afterCategory, searchTerm);
    CategoryStepKeeps(products, category);
    SearchStepKeeps(afterCategory, searchTerm);
    SortStepOrders(afterSearch, criteria);
    TrimEmptyIffBlank(searchTerm);
  }

  /** Without a sort the derived list keeps the products' original relative order. */
  lemma DerivedListUnsortedKeepsOrder(products: seq<Product>, category: string, searchTerm: string)
    ensures IsSubsequence(DerivedList(products, category, searchTerm, NoSort), products)
  {
    var afterCategory := CategoryStep(products, category);
    var afterSearch := SearchStep(afterCategory, searchTerm);
    CategoryStepKeeps(products, category);
    SearchStepKeeps(afterCategory, searchTerm);
    if category == AllCategories {
      SubsequenceOfSelf(products);
    }
    if IsBlank(searchTerm) {
      SubsequenceOfSelf(afterCategory);
    }
    SubsequenceTransitive(afterSearch, afterCategory, products);
  }

  // ---------------------------------------------------------------------------
  // Pagination
  // ---------------------------------------------------------------------------

  /** `Math.ceil(n / 8)`: the fewest pages of eight that hold `n` products. */
  function PageCount(n: nat): (pages: nat)
    ensures pages == 0 <==> n == 0
    ensures n > 0 ==> (pages - 1) * ItemsPerPage < n <= pages * ItemsPerPage
  {
    (n + ItemsPerPage - 1) / ItemsPerPage
  }

  /** How `Array.prototype.slice` resolves an index: negative counts from the end, then clamped to `[0, len]`. */
  function ResolveIndex(index: int, len: nat): (k: nat)
    ensures k <= len
    ensures 0 <= index <= len ==> k == index
  {
    if index < 0 then (if len + index < 0 then 0 else len + index)
    else if index > len then len
    else index
  }

  /** `s.slice(start, end)`. */
  function Slice<T>(s: seq<T>, start: int, end: int): seq<T>
  {
    var from := ResolveIndex(start, |s|);
    var to := ResolveIndex(end, |s|);
    if from < to then s[from..to] else []
  }

  /** The products of page `page`: the slice from `(page - 1) * 8` to eight further on. */
  function Paginate<T>(s: seq<T>, page: int): seq<T>
  {
    var startIndex := (page - 1) * ItemsPerPage;
    Slice(s, startIndex, startIndex + ItemsPerPage)
  }

  function Min(a: int, b: int): int
  {
    if a < b then a else b
  }

  /** For a page number of at least 1 the page is the window `[(page-1)*8, page*8)` cut to the list's bounds. */
  lemma PaginateWindow<T>(s: seq<T>, page: int)
    requires page >= 1
    ensures var lo := Min((page - 1) * ItemsPerPage, |s|);
      Paginate(s, page) == s[lo..Min(lo + ItemsPerPage, |s|)]
  {
  }

  /** A page never holds more than eight products, whatever the page number. */
  lemma PaginateAtMostEight<T>(s: seq<T>, page: int)
    ensures |Paginate(s, page)| <= ItemsPerPage
    ensures forall x :: x in Paginate(s, page) ==> x in s
  {
  }

  /** A page from 1 on is empty exactly when it lies past the last page. */
  lemma PageEmptyIffPastEnd<T>(s: seq<T>, page: int)
    requires page >= 1
    ensures Paginate(s, page) == [] <==> page > PageCount(|s|)
  {
    var pages := PageCount(|s|);
    if page > pages {
      assert (page - 1) * ItemsPerPage >= pages * ItemsPerPage;
    } else {
      assert (page - 1) * ItemsPerPage <= (pages - 1) * ItemsPerPage;
    }
  }

  /** The pages from `page` to the last, one after another. */
  function PagesFrom<T>(s: seq<T>, page: nat): seq<T>
    requires page >= 1
    decreases PageCount(|s|) + 1 - page
  {
    if page > PageCount(|s|) then [] else Paginate(s, page) + PagesFrom(s, page + 1)
  }

  lemma {:induction false} PagesFromSuffix<T>(s: seq<T>, page: nat)
    requires 1 <= page <= PageCount(|s|) + 1
    ensures PagesFrom(s, page) == s[Min((page - 1) * ItemsPerPage, |s|)..]
    decreases PageCount(|s|) + 1 - page
  {
    var pages := PageCount(|s|);
    if page <= pages {
      PagesFromSuffix(s, page + 1);
      PaginateWindow(s, page);
      var lo := (page - 1) * ItemsPerPage;
      assert lo < |s| by {
        assert lo <= (pages - 1) * ItemsPerPage;
      }
      assert s[lo..] == s[lo..Min(lo + ItemsPerPage, |s|)] + s[Min(lo + ItemsPerPage, |s|)..];
    } else {
      assert (page - 1) * ItemsPerPage >= |s|;
    }
  }

  /** The pages, read in turn, give back the whole list: no product is skipped or shown twice. */
  lemma PagesPartition<T>(s: seq<T>)
    ensures PagesFrom(s, 1) == s
  {
    PagesFromSuffix(s, 1);
  }

  /** The product at index `i` is shown on page `i / 8 + 1`, at position `i % 8`. */
  lemma ProductOnItsPage<T>(s: seq<T>, i: nat)
    requires i < |s|
    ensures var page := i / ItemsPerPage + 1;
      page <= PageCount(|s|) && i % ItemsPerPage < |Paginate(s, page)| &&
      Paginate(s, page)[i % ItemsPerPage] == s[i]
  {
    var page := i / ItemsPerPage + 1;
    PaginateWindow(s, page);
    assert (page - 1) * ItemsPerPage + i % ItemsPerPage == i;
    PageEmptyIffPastEnd(s, page);
  }

  /** The page numbers the page keeps reach a non-empty page whenever there is anything to show. */
  lemma ValidPageShowsProducts<T>(s: seq<T>, page: int)
    requires page >= 1 && (page == 1 || page <= PageCount(|s|))
    requires s != []
    ensures Paginate(s, page) != []
  {
    PageEmptyIffPastEnd(s, page);
  }

  // ---------------------------------------------------------------------------
  // Selection state
  // ---------------------------------------------------------------------------

  function FlipOrder(order: SortOrder): SortOrder
  {
    if order == Asc then Desc else Asc
  }

  /** The sort criteria after a click on the `field` button. */
  function NextSort(previous: SortCriteria, field: SortField): (next: SortCriteria)
    ensures next.field == Some(field)
    ensures previous.field == Some(field) ==> next.order != previous.order
    ensures previous.field != Some(field) ==> next.order == Asc
  {
    if previous.field == Some(field) then SortCriteria(Some(field), FlipOrder(previous.order))
    else SortCriteria(Some(field), Asc)
  }

  /** Two clicks on the active field restore the criteria; two clicks on a new one leave it descending. */
  lemma NextSortTwice(previous: SortCriteria, field: SortField)
    ensures previous.field == Some(field) ==> NextSort(NextSort(previous, field), field) == previous
    ensures previous.field != Some(field) ==> NextSort(NextSort(previous, field), field) == SortCriteria(Some(field), Desc)
  {
  }

  /**
   * The listing page's state: its products (fixed for the page's lifetime)
   * and the four state cells the handlers update. The reset of the page number
   * that follows every change to the category, the search term or the sort
   * criteria is applied as part of the handler that made the change.
   */
  class ProductsPage {
    const initialProducts: seq<Product>
    var searchTerm: string
    var selectedCategory: string
    var sortCriteria: SortCriteria
    var currentPage: int

    /** The current page is at least 1, and past page 1 only while it exists. */
    ghost predicate Valid()
      reads this
    {
      currentPage >= 1 && (currentPage == 1 || currentPage <= TotalPages())
    }

    constructor (products: seq<Product>)
      ensures initialProducts == products
      ensures searchTerm == "" && selectedCategory == AllCategories
      ensures sortCriteria == NoSort && currentPage == 1
      ensures Valid()
    {
      initialProducts := products;
      searchTerm := "";
      selectedCategory := AllCategories;
      sortCriteria := NoSort;
      currentPage := 1;
    }

    function FilteredAndSortedProducts(): seq<Product>
      reads this`selectedCategory, this`searchTerm, this`sortCriteria
    {
      DerivedList(initialProducts, selectedCategory, searchTerm, sortCriteria)
    }

    function TotalPages(): nat
      reads this`selectedCategory, this`searchTerm, this`sortCriteria
    {
      PageCount(|FilteredAndSortedProducts()|)
    }

    function PaginatedProducts(): seq<Product>
      reads this
    {
      Paginate(FilteredAndSortedProducts(), currentPage)
    }

    /** The memoised derivation: a local list reassigned by each step that applies. */
    method ComputeFilteredAndSorted() returns (processed: seq<Product>)
      ensures processed == FilteredAndSortedProducts()
    {
      processed := initialProducts;
      if selectedCategory != AllCategories {
        processed := Keep(processed, InCategory(selectedCategory));
      }
      if Trim(searchTerm) != [] {
        processed := Keep(processed, TitleMatches(ToLower(Trim(searchTerm))));
      }
      if sortCriteria.field.Some? {
        processed := SortBy(processed, KeyOf(sortCriteria.field.value), sortCriteria.order);
      }
    }

    /** Whenever a page is kept that has products on it, the page shows at least one. */
    lemma ShowsProductsWhenAnyMatch()
      requires Valid()
      ensures FilteredAndSortedProducts() != [] ==> PaginatedProducts() != []
    {
      if FilteredAndSortedProducts() != [] {
        ValidPageShowsProducts(FilteredAndSortedProducts(), currentPage);
      }
    }

    /** Typing in the search box: a new term replaces the old one and returns to page 1. */
    method HandleSearchChange(value: string)
      requires Valid()
      modifies this
      ensures searchTerm == value
      ensures selectedCategory == old(selectedCategory) && sortCriteria == old(sortCriteria)
      ensures currentPage == if value == old(searchTerm) then old(currentPage) else 1
      ensures Valid()
    {
      if value != searchTerm {
        searchTerm := value;
        currentPage := 1;
      }
    }

    /** Choosing a category: a new one replaces the old one and returns to page 1. */
    method HandleCategoryChange(value: string)
      requires Valid()
      modifies this
      ensures selectedCategory == value
      ensures searchTerm == old(searchTerm) && sortCriteria == old(sortCriteria)
      ensures currentPage == if value == old(selectedCategory) then old(currentPage) else 1
      ensures Valid()
    {
      if value != selectedCategory {
        selectedCategory := value;
        currentPage := 1;
      }
    }

    /** Clicking a sort button: the criteria advance by `NextSort` and the page returns to 1. */
    method HandleSort(field: SortField)
      requires Valid()
      modifies this
      ensures sortCriteria == NextSort(old(sortCriteria), field)
      ensures searchTerm == old(searchTerm) && selectedCategory == old(selectedCategory)
      ensures currentPage == 1
      ensures Valid()
    {
      sortCriteria := NextSort(sortCriteria, field);
      currentPage := 1;
    }

    /** A page change takes effect only for a page between 1 and the page count. */
    method HandlePageChange(newPage: int)
      requires Valid()
      modifies this
      ensures searchTerm == old(searchTerm) && selectedCategory == old(selectedCategory)
      ensures sortCriteria == old(sortCriteria)
      ensures currentPage == if 1 <= newPage <= old(TotalPages()) then newPage else old(currentPage)
      ensures Valid()
    {
      var totalPages := TotalPages();
      if 1 <= newPage <= totalPages {
        currentPage := newPage;
        assert TotalPages() == totalPages;
      }
    }
  }

  // ---------------------------------------------------------------------------
  // A worked example
  // ---------------------------------------------------------------------------

  function Sample(id: int, title: string, price: real, category: string): Product
  {
    Product(id, title, Some(price), "", category, "", Rating(0.0, 0))
  }

  /**
   * A shirt, a hat and a scarf; category `men`, no search term, price descending:
   * the hat comes before the shirt, on a single page.
   */
  lemma MenByPriceDescending()
    ensures var shirt := Sample(1, "Red Shirt", 10.0, "men");
      var hat := Sample(2, "Blue Hat", 20.0, "men");
      var scarf := Sample(3, "Green Scarf", 5.0, "women");
      var r := DerivedList([shirt, hat, scarf], "men", "", SortCriteria(Some(Price), Desc));
      r == [hat, shirt] && PageCount(|r|) == 1 && Paginate(r, 1) == [hat, shirt]
  {
    var shirt := Sample(1, "Red Shirt", 10.0, "men");
    var hat := Sample(2, "Blue Hat", 20.0, "men");
    var scarf := Sample(3, "Green Scarf", 5.0, "women");
    var ps := [shirt, hat, scarf];
    assert "women" != "men" by { assert "women"[0] != "men"[0]; }
    assert ps[1..] == [hat, scarf] && ps[1..][1..] == [scarf] && ps[1..][1..][1..] == [];
    var men := InCategory("men");
    assert Keep([scarf], men) == [];
    assert Keep([hat, scarf], men) == [hat];
    assert Keep(ps, men) == [shirt, hat];
    assert CategoryStep(ps, "men") == [shirt, hat];
    assert SearchStep([shirt, hat], "") == [shirt, hat];
    var key := KeyOf(Price);
    assert [shirt, hat][..1] == [shirt];
    assert SortBy([shirt], key, Desc) == [shirt];
    assert Compare(key(shirt), key(hat), Desc) > 0;
    assert SortBy([shirt, hat], key, Desc) == Insert(hat, [shirt], key, Desc);
  }
}
