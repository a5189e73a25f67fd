/**
 * The listing page's build-time loader: it turns the outcome of
 * `getAllProducts` into the page's props (the products, the category options
 * of the filter, an error message) and the regeneration interval.
 */
module ListingLoader {
  import opened Wrappers
  import opened Text
  import opened Sorting
  import opened ProductModel
  import opened Api
  import opened Listing

  /** The page's props: `error` is present only when loading failed. */
  datatype ListingProps = ListingProps(products: seq<Product>, categories: seq<string>, error: Option<string>)

  /** What the loader returns: the props and the seconds before the page is regenerated. */
  datatype StaticProps = StaticProps(props: ListingProps, revalidate: nat)

  const SuccessRevalidate: nat := 600
  const FailureRevalidate: nat := 60

  const UnexpectedValueMessage: string := "Failed to fetch products (unexpected return value)."
  const UnknownErrorMessage: string := "An unknown error occurred during data fetching."

  predicate NoDuplicates<T(==)>(s: seq<T>)
  {
    forall i, j :: 0 <= i < j < |s| ==> s[i] != s[j]
  }

  /**
   * `Array.from(new Set(s))`: each element once, in the order of its first
   * occurrence.
   */
  function Distinct(s: seq<string>): (r: seq<string>)
    ensures forall x :: x in r <==> x in s
    ensures NoDuplicates(r)
  {
    if s == [] then []
    else
      var d := Distinct(s[..|s| - 1]);
      var last := s[|s| - 1];
      assert s == s[..|s| - 1] + [last];
      if last in d then d else d + [last]
  }

  /** Distinct, as a count: nothing occurs twice. */
  lemma {:induction false} NoDuplicatesCount<T>(s: seq<T>, x: T)
    requires NoDuplicates(s)
    ensures multiset(s)[x] <= 1
  {
    if s != [] {
      assert s == [s[0]] + s[1..];
      assert NoDuplicates(s[1..]) by {
        forall i, j | 0 <= i < j < |s[1..]| ensures s[1..][i] != s[1..][j] {
          assert s[1..][i] == s[i + 1] && s[1..][j] == s[j + 1];
        }
      }
      NoDuplicatesCount(s[1..], x);
      if x == s[0] {
        assert x !in s[1..] by {
          forall k | 0 <= k < |s[1..]| ensures s[1..][k] != x {
            assert s[1..][k] == s[k + 1];
          }
        }
      }
    }
  }

  /** Two equal elements at different positions count twice. */
  lemma RepeatCountsTwice<T>(b: seq<T>, i: nat, j: nat)
    requires i < j < |b|
    ensures b[i] == b[j] ==> multiset(b)[b[i]] >= 2
  {
    assert b == b[..j] + b[j..];
    assert b[i] == b[..j][i] && b[j] == b[j..][0];
    assert multiset(b)[b[i]] == multiset(b[..j])[b[i]] + multiset(b[j..])[b[i]];
  }

  /** A permutation of a sequence without duplicates has none either. */
  lemma PermutationKeepsNoDuplicates<T>(a: seq<T>, b: seq<T>)
    requires NoDuplicates(a) && multiset(a) == multiset(b)
    ensures NoDuplicates(b)
  {
    forall i, j | 0 <= i < j < |b| ensures b[i] != b[j] {
      NoDuplicatesCount(a, b[i]);
      RepeatCountsTwice(b, i, j);
    }
  }

  /** The default `sort()` order of strings, as a sort key. */
  function TextKey(): string -> Key
  {
    (c: string) => Str(c)
  }

  function ProductCategories(products: seq<Product>): (cs: seq<string>)
    ensures |cs| == |products|
    ensures forall i :: 0 <= i < |products| ==> cs[i] == products[i].category
  {
    if products == [] then [] else [products[0].category] + ProductCategories(products[1..])
  }

  /** The filter's options: `All`, then the products' distinct categories, sorted. */
  function CategoryOptions(products: seq<Product>): seq<string>
  {
    [AllCategories] + SortBy(Distinct(ProductCategories(products)), TextKey(), Asc)
  }

  /**
   * The options start with `All`; the rest are in strictly increasing string
   * order (so without repeats) and are exactly the categories some product has.
   */
  lemma CategoryOptionsSpec(products: seq<Product>)
    ensures var options := CategoryOptions(products);
      && options != [] && options[0] == AllCategories
      && (forall i, j :: 1 <= i < j < |options| ==> StrLess(options[i], options[j]))
      && (forall c :: c in options[1..] <==> exists k :: 0 <= k < |products| && products[k].category == c)
  {
    var cats := ProductCategories(products);
    var d := Distinct(cats);
    var sorted := SortBy(d, TextKey(), Asc);
    var options := CategoryOptions(products);
    assert options[1..] == sorted;
    SortByPermutes(d, TextKey(), Asc);
    SortBySorted(d, TextKey(), Asc);
    PermutationKeepsNoDuplicates(d, sorted);
    forall i, j | 0 <= i < j < |sorted| ensures StrLess(sorted[i], sorted[j]) {
      CompareZeroIffEqual(Str(sorted[i]), Str(sorted[j]), Asc);
    }
    forall c ensures c in sorted <==> exists k :: 0 <= k < |products| && products[k].category == c {
      assert c in sorted <==> c in multiset(sorted);
      assert c in d <==> c in multiset(d);
      if c in cats {
        var k :| 0 <= k < |cats| && cats[k] == c;
        assert products[k].category == c;
      }
      if exists k :: 0 <= k < |products| && products[k].category == c {
        var k :| 0 <= k < |products| && products[k].category == c;
        assert cats[k] == c;
      }
    }
  }

  /** `All` is listed twice exactly when some product's category is itself `All`. */
  lemma CategoryOptionsRepeatIffAllIsACategory(products: seq<Product>)
    ensures !NoDuplicates(CategoryOptions(products)) <==>
      exists k :: 0 <= k < |products| && products[k].category == AllCategories
  {
    var options := CategoryOptions(products);
    CategoryOptionsSpec(products);
    if exists k :: 0 <= k < |products| && products[k].category == AllCategories {
      assert AllCategories in options[1..];
      var m :| 0 <= m < |options[1..]| && options[1..][m] == AllCategories;
      assert options[0] == options[m + 1];
    }
    if !NoDuplicates(options) {
      var i, j :| 0 <= i < j < |options| && options[i] == options[j];
      if i >= 1 {
        assert StrLess(options[i], options[j]);
        StrLessIrreflexive(options[i]);
      } else {
        assert options[1..][j - 1] == AllCategories;
        assert AllCategories in options[1..];
      }
    }
  }

  /** Every option of the filter selects at least one product. */
  lemma EveryOptionSelectsAProduct(products: seq<Product>, c: string)
    requires products != []
    requires c in CategoryOptions(products)
    ensures CategoryStep(products, c) != []
  {
    CategoryOptionsSpec(products);
    CategoryStepKeeps(products, c);
    if c != AllCategories {
      var options := CategoryOptions(products);
      var m :| 0 <= m < |options| && options[m] == c;
      assert options[1..][m - 1] == c;
      var k :| 0 <= k < |products| && products[k].category == c;
      assert products[k] in multiset(products);
      assert multiset(CategoryStep(products, c))[products[k]] > 0;
    }
  }

  /** The failure props: no products, no options, the message, and a one-minute interval. */
  function FailureProps(message: string): StaticProps
  {
    StaticProps(ListingProps([], [], Some(message)), FailureRevalidate)
  }

  /**
   * `getStaticProps`, given how `getAllProducts` settled: the products and their
   * category options with a ten-minute interval on success; on a thrown `Error`
   * its message, on any other thrown value or a falsy result a fixed message,
   * with empty lists and a one-minute interval.
   */
  function GetStaticProps(outcome: Outcome<Option<seq<Product>>>): (r: StaticProps)
    ensures r.props.error.None? <==> outcome.Returned? && outcome.value.Some?
    ensures r.props.error.None? ==>
      && r.revalidate == SuccessRevalidate
      && r.props.products == outcome.value.value
      && r.props.categories == CategoryOptions(outcome.value.value)
    ensures r.props.error.Some? ==>
      && r.revalidate == FailureRevalidate
      && r.props.products == [] && r.props.categories == []
      && r.props.error.value == (
        match outcome
        case Returned(_) => UnexpectedValueMessage
        case Threw(ErrorObject(message)) => message
        case Threw(NonErrorValue) => UnknownErrorMessage)
  {
    match outcome
    case Returned(None) => FailureProps(UnexpectedValueMessage)
    case Returned(Some(products)) =>
      StaticProps(ListingProps(products, CategoryOptions(products), None), SuccessRevalidate)
    case Threw(ErrorObject(message)) => FailureProps(message)
    case Threw(NonErrorValue) => FailureProps(UnknownErrorMessage)
  }

  /** The loader over the answer of the product list request. */
  function LoadListing(response: Response<seq<Product>>): StaticProps
  {
    GetStaticProps(GetAllProducts(response))
  }

  /**
   * A 2xx answer with a product list is the only way to a page without an
   * error; a non-2xx status always yields an error message naming the status.
   */
  lemma LoadListingOutcomes(response: Response<seq<Product>>)
    ensures LoadListing(response).props.error.None? <==>
      response.Http? && IsOk(response.status) && response.body.Json?
    ensures response.Http? && !IsOk(response.status) ==>
      var r := LoadListing(response);
      r.props.error.Some? && Contains(r.props.error.value, IntToString(response.status)) &&
      r.revalidate == FailureRevalidate
  {
  }

  /** An empty catalogue still loads: no products, and `All` as the only option. */
  lemma EmptyCatalogueLoads()
    ensures GetStaticProps(Returned(Some([]))) ==
      StaticProps(ListingProps([], [AllCategories], None), SuccessRevalidate)
  {
    assert Distinct([]) == [];
    assert SortBy<string>([], TextKey(), Asc) == [];
  }

  /** Scenario: the list endpoint answers 500; the page gets the error naming 500 and retries after a minute. */
  lemma ServerErrorPage(body: Body<seq<Product>>)
    ensures var r := LoadListing(Http(500, body));
      r.props.products == [] && r.props.categories == [] &&
      r.props.error.Some? && Contains(r.props.error.value, "500") && r.revalidate == 60
  {
    ServerErrorNamesStatus(body);
  }
}
