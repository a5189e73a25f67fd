# Pixel-Shop product listing, modelled in Dafny

Pixel-Shop is a Next.js storefront over the Fake Store API. This project models the three parts of it that make decisions.

- **The listing page's derived list.** The page keeps four pieces of selection state: a search term, a category (`All` by default), sort criteria (no field, or price or title, ascending or descending) and a page number. The derived list filters the products by category, then by title search (case-insensitive, on the trimmed term). It then optionally sorts them with a three-way comparator, counts pages of eight and cuts out the current page.
- **The page's state machine.** Handlers change the state. A change to the category, the search term or the sort criteria sends the page back to 1. A page change is accepted only within `1..totalPages`. A click on a sort button toggles the direction of the active field, or starts a new field ascending.
- **The loader and the API adapter.**
  - The build-time loader turns the outcome of `getAllProducts` into props. On success these are the products and `["All"]` followed by the sorted distinct categories, regenerated every 600 s. On failure they are empty lists plus an error message, regenerated every 60 s.
  - `getAllProducts`, `getProductById` and `getAllProductIds` classify a request's answer as a value, an absent value (`null`) or a thrown error. `getProductById` first validates its id.

The modules follow the program:

| module | file | models |
|---|---|---|
| `Wrappers` | `wrappers.dfy` | `Option`, standing for `null`/`undefined`, with `??` as `OrElse` |
| `ProductModel` | `product.dfy` | the `Product` record of `src/types/product.ts` |
| `Text` | `text.dfy` | the JavaScript string operations the core relies on: `<` on strings, `trim`, `toLowerCase`, `includes`, `String(n)` for integers, and whether `Number(s)` is NaN |
| `Sorting` | `sorting.dfy` | `filter`, the comparator, and a stable sort (`Array.prototype.sort` with that comparator), with permutation, order and stability proved |
| `Listing` | `listing.dfy` | the derived list, pagination, the sort reducer, and the `ProductsPage` class holding the selection state and its handlers |
| `Api` | `api.dfy` | `src/lib/api.ts`, with the network answer as an input value |
| `ListingLoader` | `listing_loader.dfy` | the listing page's `getStaticProps` |

Network answers are inputs. A `Response` is either a transport fault, which is the thrown value itself, or an HTTP status with what `res.json()` gives. That body is a falsy value, a value of the expected shape, or a rejection with a message. An async function's result is an `Outcome`: `Returned(v)` or `Threw(e)`. `e` is either an `Error` with its message or some other thrown value.

`getProductById`'s id guard follows the code, `!id || isNaN(Number(id))`, rather than the plain reading "present and numeric". Blank text such as `" "` is truthy, and `Number` turns it into 0, so it passes and a request is made. The text `"0"` passes as well. Only the number 0 and the empty string are refused as falsy.

The derived list is specified by the pure function `Listing.DerivedList`. `ProductsPage.ComputeFilteredAndSorted` computes it the way the source does: it reassigns a local list through the three guarded steps. The class's functions `FilteredAndSortedProducts`, `TotalPages` and `PaginatedProducts` are the page's memoised values. The invariant `Valid` says the page number is at least 1. It is 1 or at most the page count.

## Model

| member | source | states |
|---|---|---|
| Text.StrLess | src/pages/products/index.tsx:89-90 | JavaScript `<` on two strings; specified by `StrLessIsLexLess`, `StrLessIrreflexive`, `StrLessTransitive` and `StrLessTotal` |
| Text.StrLessIsLexLess | src/pages/products/index.tsx:89-90 | string `<` holds exactly when the first difference has the smaller character, or when the first string is a proper prefix of the second |
| Text.StrLessIrreflexive | src/pages/products/index.tsx:89-90 | no string is less than itself |
| Text.StrLessTransitive | src/pages/products/index.tsx:89-90 | string `<` is transitive |
| Text.StrLessTotal | src/pages/products/index.tsx:89-90 | of two distinct strings, one is less than the other |
| Text.Trim | src/pages/products/index.tsx:63-65 | `s.trim()`, the leading then the trailing strip; specified by `TrimStart`, `TrimEnd` and `TrimEmptyIffBlank` |
| Text.TrimStart | src/pages/products/index.tsx:63 | drops exactly the leading whitespace: what is removed is all whitespace, and the result is a suffix that does not start with whitespace |
| Text.TrimEnd | src/pages/products/index.tsx:63 | drops exactly the trailing whitespace, symmetrically |
| Text.TrimEmptyIffBlank | src/pages/products/index.tsx:63 | `s.trim()` is empty (falsy) exactly when every character of `s` is whitespace |
| Text.ToLower | src/pages/products/index.tsx:65 | keeps the length and lower-cases each character on its own |
| Text.Contains | src/pages/products/index.tsx:65 | `hay.includes(needle)`; specified by `ContainsIffOccurs` |
| Text.ContainsIffOccurs | src/pages/products/index.tsx:65 | `hay.includes(needle)` holds exactly when `needle` occurs at some position of `hay` |
| Text.IntToString | src/lib/api.ts:81 | `String(n)` for an integer; specified by `NatToString`, `ParseIntToString` and `IntToStringConverts` |
| Text.NatToString | src/lib/api.ts:81 | `String(n)` is a non-empty run of decimal digits, without a leading zero |
| Text.ParseIntToString | src/lib/api.ts:81 | `String(n)` is digits with an optional minus sign, and reading it back gives `n` |
| Text.ConvertsToNumber | src/lib/api.ts:28 | `!isNaN(Number(s))`: after trimming, empty or a decimal, `Infinity` or 0x/0o/0b literal; exercised by `IntToStringConverts`, `LetterFirstIsNaN` and the id examples |
| Text.IntToStringConverts | src/lib/api.ts:28 | `Number(String(n))` is never NaN |
| Text.LetterFirstIsNaN | src/lib/api.ts:28 | text without whitespace that starts with a lower-case letter gives NaN |
| Sorting.Keep | src/pages/products/index.tsx:59 | `filter` keeps only elements that pass the test, and never more than the input |
| Sorting.KeepExactly | src/pages/products/index.tsx:55-67 | `filter` keeps every passing element as often as the input has it, drops every other one, and keeps the input's relative order |
| Sorting.SubsequenceTransitive | src/pages/products/index.tsx:55-67 | a subsequence of a subsequence is a subsequence, so chained filters keep the original order |
| Sorting.Compare | src/pages/products/index.tsx:74-91 | the three-way comparator with the direction's multiplier; specified by `CompareZeroIffEqual`, `CompareAntisymmetric`, `CompareTransitive` and `SortedByMeaning` |
| Sorting.CompareZeroIffEqual | src/pages/products/index.tsx:88-91 | the comparator returns 0 exactly on equal keys, in both directions |
| Sorting.CompareAntisymmetric | src/pages/products/index.tsx:88-91 | swapping the arguments negates the comparator's answer |
| Sorting.CompareTransitive | src/pages/products/index.tsx:88-91 | "not after" is transitive, and stays strict when either step is strict |
| Sorting.SortBy | src/pages/products/index.tsx:72-92 | `[...s].sort(comparator)`; specified by `SortByPermutes`, `SortBySorted` and `SortByStable` |
| Sorting.InsertPermutes | src/pages/products/index.tsx:72 | inserting one element adds exactly that element |
| Sorting.SortByPermutes | src/pages/products/index.tsx:72-92 | the sort returns a permutation of its input |
| Sorting.SortBySorted | src/pages/products/index.tsx:72-92 | the sort's output is ordered by the comparator |
| Sorting.SortByStable | src/pages/products/index.tsx:72-92 | for every key, the elements with that key keep their relative order |
| Sorting.SortedByMeaning | src/pages/products/index.tsx:74-90 | being ordered by the comparator means: ascending, no key is less than an earlier one; descending, no key is greater than an earlier one |
| Listing.KeyOf | src/pages/products/index.tsx:79-86 | the value compared: the price with `?? 0` for a missing one, or the lower-cased title; used by `SortStepOrders`, which states the order in these keys |
| Listing.CategoryStep | src/pages/products/index.tsx:57-60 | the category filter; specified by `CategoryStepKeeps` |
| Listing.SearchStep | src/pages/products/index.tsx:62-67 | the title search; specified by `SearchStepKeeps` |
| Listing.SortStep | src/pages/products/index.tsx:69-93 | the optional sort; specified by `SortStepOrders` |
| Listing.DerivedList | src/pages/products/index.tsx:53-97 | `filteredAndSortedProducts`, the three steps in turn; specified by `DerivedListSelects`, `DerivedListUnsortedKeepsOrder` and the step lemmas, and computed by `ProductsPage.ComputeFilteredAndSorted` |
| Listing.CategoryStepKeeps | src/pages/products/index.tsx:55-60 | with `All` every product is kept; otherwise exactly the products whose category equals the selected one (case-sensitive), in their original order |
| Listing.SearchStepKeeps | src/pages/products/index.tsx:62-67 | a blank term keeps every product; otherwise exactly the products whose lower-cased title contains the trimmed, lower-cased term, in order |
| Listing.SortStepOrders | src/pages/products/index.tsx:69-93 | with no sort field the list is unchanged; otherwise the result is a permutation, non-decreasing in the key for `asc` and non-increasing for `desc`, and stable on ties |
| Listing.DerivedListSelects | src/pages/products/index.tsx:53-97 | the derived list holds each product that passes both filters as often as the input does, and nothing else |
| Listing.DerivedListUnsortedKeepsOrder | src/pages/products/index.tsx:53-97 | without a sort the derived list is a subsequence of the products |
| Listing.PageCount | src/pages/products/index.tsx:100 | `ceil(n/8)` is 0 exactly for an empty list, and otherwise `(pages-1)*8 < n <= pages*8` |
| Listing.ResolveIndex | src/pages/products/index.tsx:106 | a slice index resolves to a position within the list, and an index already in range is kept |
| Listing.Slice | src/pages/products/index.tsx:106 | `Array.prototype.slice` with both indices resolved by `ResolveIndex`; specified through `PaginateWindow` |
| Listing.Paginate | src/pages/products/index.tsx:103-107 | `paginatedProducts`; specified by `PaginateWindow`, `PaginateAtMostEight`, `PageEmptyIffPastEnd`, `PagesPartition` and `ProductOnItsPage` |
| Listing.PaginateWindow | src/pages/products/index.tsx:103-107 | for a page of at least 1, the page is the window `[(page-1)*8, page*8)` cut to the list's bounds |
| Listing.PaginateAtMostEight | src/pages/products/index.tsx:103-107 | a page holds at most eight products, all of them from the list |
| Listing.PageEmptyIffPastEnd | src/pages/products/index.tsx:100-107 | a page numbered 1 or more is empty exactly when it lies past the page count |
| Listing.PagesPartition | src/pages/products/index.tsx:100-107 | the pages, read in turn, are the whole list: nothing is skipped or repeated |
| Listing.ProductOnItsPage | src/pages/products/index.tsx:100-107 | the product at index `i` is on page `i/8 + 1`, at position `i%8` |
| Listing.ValidPageShowsProducts | src/pages/products/index.tsx:100-107 | a page number the page can hold shows something whenever the list is non-empty |
| Listing.NextSort | src/pages/products/index.tsx:128-137 | after a click the field is the clicked one; the order flips when that field was already active, and is `asc` otherwise |
| Listing.NextSortTwice | src/pages/products/index.tsx:128-137 | two clicks on the active field restore the criteria; two clicks on another field leave it descending |
| Listing.ProductsPage.constructor | src/pages/products/index.tsx:43-46 | the initial state is the empty search, `All`, no sort and page 1 |
| Listing.ProductsPage.ComputeFilteredAndSorted | src/pages/products/index.tsx:53-97 | the step-by-step reassignment of the local list computes the derived list |
| Listing.ProductsPage.ShowsProductsWhenAnyMatch | src/pages/products/index.tsx:99-115 | in every reachable state, a non-empty derived list gives a non-empty current page |
| Listing.ProductsPage.HandleSearchChange | src/pages/products/index.tsx:111-120 | a new term replaces the old one and sends the page to 1; the same term changes nothing; the other state is kept |
| Listing.ProductsPage.HandleCategoryChange | src/pages/products/index.tsx:111-124 | a new category replaces the old one and sends the page to 1; the same category changes nothing; the other state is kept |
| Listing.ProductsPage.HandleSort | src/pages/products/index.tsx:111-138 | the criteria advance by `NextSort`, and the page goes to 1 |
| Listing.ProductsPage.HandlePageChange | src/pages/products/index.tsx:141-151 | the page changes exactly when `1 <= newPage <= totalPages`, so never when there are no pages; nothing else changes |
| Listing.MenByPriceDescending | src/pages/products/index.tsx:53-107 | two `men` products and a `women` one, filtered by `men` and sorted by price descending, give the dearer product first, on a single page |
| Api.GetAllProducts | src/lib/api.ts:6-19 | a non-2xx status throws an error whose message contains the status; a 2xx parsed list is returned unchanged; a transport fault and a JSON rejection are re-thrown |
| Api.IsValidId | src/lib/api.ts:28 | the negation of `!id \|\| isNaN(Number(id))`; specified by `ProductRequest`, `InvalidIdMakesNoRequest` and the id examples |
| Api.ProductRequest | src/lib/api.ts:28-36 | a request is made exactly for a valid id, and goes to `/products/` under the API URL |
| Api.GetProductById | src/lib/api.ts:21-72 | `null` exactly for an invalid id, a 404, or a falsy 2xx body; the product exactly for a 2xx product body; an error naming the status for any other non-2xx status; a transport fault is re-thrown |
| Api.InvalidIdMakesNoRequest | src/lib/api.ts:28-34 | an invalid id gives `null` whatever the network would answer |
| Api.InvalidIdExamples | src/lib/api.ts:28 | the number 0, the empty string and `"abc"` are refused |
| Api.ValidIdExamples | src/lib/api.ts:28 | the number 7 and the strings `"12"` and `"0"` pass: a non-empty string is truthy even when it reads as 0 |
| Api.BlankIdPasses | src/lib/api.ts:28 | a blank string passes too, since it is truthy and `Number(" ")` is 0 |
| Api.GetAllProductIds | src/lib/api.ts:76-88 | `getAllProductIds()`: one path per product when the list is fetched, none otherwise; specified by `AllProductIdsRoundTrip` |
| Api.IdParams | src/lib/api.ts:79-83 | one path per product, in order, whose id is `String(product.id)` |
| Api.AllProductIdsRoundTrip | src/lib/api.ts:76-88 | on success each path's id reads back as its product's id and passes `getProductById`'s guard; any failure gives no paths |
| Api.DistinctIdsGiveDistinctPaths | src/lib/api.ts:79-83 | distinct product ids give distinct paths |
| Api.ServerErrorNamesStatus | src/lib/api.ts:9-11 | a 500 answer throws an error whose message contains `500` |
| ListingLoader.Distinct | src/pages/products/index.tsx:312 | `Array.from(new Set(s))` has exactly the elements of `s`, none twice |
| ListingLoader.ProductCategories | src/pages/products/index.tsx:312 | `products.map(p => p.category)`, position by position |
| ListingLoader.PermutationKeepsNoDuplicates | src/pages/products/index.tsx:312 | sorting a list without repeats leaves it without repeats |
| ListingLoader.CategoryOptions | src/pages/products/index.tsx:312-320 | `['All', ...Array.from(new Set(categories)).sort()]`; specified by `CategoryOptionsSpec` and `CategoryOptionsRepeatIffAllIsACategory` |
| ListingLoader.CategoryOptionsSpec | src/pages/products/index.tsx:312-320 | the options start with `All`; the rest are strictly increasing in string order and are exactly the categories some product has |
| ListingLoader.CategoryOptionsRepeatIffAllIsACategory | src/pages/products/index.tsx:312-320 | `All` appears twice exactly when some product's category is `All` |
| ListingLoader.EveryOptionSelectsAProduct | src/pages/products/index.tsx:312-320 | for a non-empty catalogue every option of the filter keeps at least one product |
| ListingLoader.GetStaticProps | src/pages/products/index.tsx:295-341 | success exactly for a returned list: its products and category options, 600 s; otherwise empty lists, 60 s, and the `Error`'s message or the fixed message for a falsy result or a non-`Error` throw |
| ListingLoader.LoadListing | src/pages/products/index.tsx:295-341 | `getStaticProps` over the answer to the product list request; specified by `LoadListingOutcomes` and `ServerErrorPage` |
| ListingLoader.LoadListingOutcomes | src/pages/products/index.tsx:295-341 | the page loads without an error exactly on a 2xx list answer, and a non-2xx status leads to an error message naming it |
| ListingLoader.EmptyCatalogueLoads | src/pages/products/index.tsx:301-322 | an empty list is not falsy: it loads with no products and `All` as the only option |
| ListingLoader.ServerErrorPage | src/pages/products/index.tsx:326-340 | a 500 answer leads to empty lists, an error naming 500, and a retry after 60 s |

## Left out

- Presentational components, routing configuration and the JSX branches of the listing page: they only render, and decide nothing.
- `console` logging, and the `scrollIntoView` call of `handlePageChange`: these are side effects with no bearing on state or results.
- `fetch` and JSON parsing are not modelled; the answer to a request is an input value. Bodies that are truthy but of the wrong shape are not represented.
- React scheduling and `useMemo` caching: the model recomputes derived values from the state. The reset effect is applied atomically inside the handler that changes the selection. The render in which the old page number is briefly paired with the new filters is not modelled.
- React's identity comparison of effect dependencies is not modelled as a mechanism; its outcome is written into each handler. Setting the same search term or category again changes nothing, and a sort click, which always creates a fresh criteria object, always resets the page.
- Prices are real numbers with `?? 0` for a missing one. NaN, infinities and floating-point rounding are not modelled. Product ids are integers, so a non-integer `id` is not represented.
- `Text.ToLower`: it lower-cases ASCII letters only. Unicode case mapping, including length-changing mappings, is not modelled.
- `Text.StrLessIsLexLess`: strings are sequences of characters. Comparing by UTF-16 code units differs from this only for characters outside the Basic Multilingual Plane.
- `Text.NatToString`: it gives the decimal digits of an integer. The exponent form that `String` uses from 1e21 up is not modelled.
- `Api.IsValidId`: for a numeric id, only `0` is caught by `!id`. NaN ids are not representable.
- Product titles are the non-null strings that the `Product` type declares. The `?? ''` fallback of the title comparator therefore never applies. A null title would make the search filter throw, which is not modelled.
- The empty-list fallback for missing products on line 55 is not modelled: the products are always a list.
- The revalidation intervals are returned as numbers. The regeneration timer itself is not modelled.
- The detail page's loader in `src/pages/products/[id].tsx` is not part of this model. It is a caller of `getProductById`, whose outcomes are modelled.
- The sort's copy-before-sort (`[...processedProducts]`) is implicit. The model works on values, so the filtered list cannot be mutated.
