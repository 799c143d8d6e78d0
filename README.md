# Storefront state engine

This project models the logic of a small storefront page (`src/App.jsx`). The rest of the
page is markup. The model has two parts.

- **Catalog query** (`filteredProducts`): start from a copy of the six built-in products.
  Keep the products whose lowered title includes the lowered search text; this step is
  skipped when the search text is empty. Keep the products of the selected category; this
  step is skipped for `"All"`. Then sort by price: `"low"` sorts ascending, `"high"` sorts
  descending, and any other selection leaves the order alone. `Array.prototype.sort` is
  stable (section 23.1.3.30 of ECMA-262), so the model sorts with a stable insertion sort.
  The lemma `PriceSort.SortedByIsTheStableSort` shows that any ordered, stable permutation
  is exactly that insertion sort's result, so the choice of algorithm does not matter.
- **Cart ledger**: a map from product id to a cart line. A line is the product's fields plus
  a quantity. The three handlers are `addToCart`, `updateQty` and `removeItem`. The two
  totals are `totalItems` and `totalPrice`.

Modules:

| file | module | contents |
|---|---|---|
| `text.dfy` | `Text` | ASCII lower-casing and substring search |
| `catalog.dfy` | `Catalog` | products, the catalog, `filter`, the search and category steps |
| `price_sort.dfy` | `PriceSort` | the price comparators, the stable sort as a function, the in-place array sort |
| `query.dfy` | `CatalogQuery` | the whole query as a function and as a step-by-step method |
| `cart.dfy` | `CartLedger` | cart lines, the three handlers, the totals |

The query method `CatalogQuery.FilteredProducts` follows the source step by step. It
reassigns a local sequence through the active filters, copies it into an array, and sorts
that array in place with `PriceSort.SortInPlace`. Its postcondition ties the result to the
function `CatalogQuery.Query`, and the lemmas in `query.dfy` state what that function
promises. The catalog is a Dafny value, so the query cannot change it.

The cart handlers build new maps, as the source does with object spread. They are
functions over `map<int, Entry>`. The totals are an order-free sum over the map. The
lemma `CartLedger.TotalsAsReduce` shows that the page's left fold over
`Object.values(cart)` gives that sum whatever order the keys are listed in.

## Model

| member | source | states |
|---|---|---|
| `Catalog.CatalogIdsDistinct` | src/App.jsx:4-11 | the six catalog products carry pairwise distinct ids, and no product occurs twice |
| `Text.LowerChar` | src/App.jsx:28 | lower-casing one character produces no capital; capitals move to their lower-case letter, everything else is kept |
| `Text.ToLower` | src/App.jsx:28 | lower-casing keeps the length, maps every character by `LowerChar`, and leaves no capital letter |
| `Text.ToLowerIdempotent` | src/App.jsx:28 | lower-casing a lowered string changes nothing |
| `Text.Includes` | src/App.jsx:28 | `includes` fails when the search text is longer than the title and always holds for the empty text; `IncludesIffOccurs` characterises it |
| `Text.IncludesIffOccurs` | src/App.jsx:28 | `includes` holds exactly when the search text occurs at some index of the title |
| `Text.LacksFirstChar` | src/App.jsx:28 | a title without the first character of the search text does not include it |
| `Catalog.Filter` | src/App.jsx:26-34 | `filter` never grows the sequence and keeps only elements that pass the test |
| `Catalog.FilterMembership` | src/App.jsx:26-34 | an element is kept exactly when it was present and passes the test |
| `Catalog.FilterMultiset` | src/App.jsx:26-34 | every copy of a passing element is kept and every copy of a failing one dropped |
| `Catalog.FilterIsSubsequence` | src/App.jsx:26-34 | `filter` keeps the relative order |
| `Catalog.FilterAllPass` | src/App.jsx:26-34 | a test every element passes returns the input |
| `Catalog.FilterAppend` | src/App.jsx:26-34 | filtering distributes over concatenation |
| `Catalog.FilterCongruent` | src/App.jsx:26-34 | tests that agree on the elements give the same result |
| `Catalog.FilterFilter` | src/App.jsx:26-34 | two filters in a row keep exactly what passes both |
| `Catalog.SearchTest` | src/App.jsx:27-29 | definition, no contract: the callback `p => MatchesSearch(p, search)` handed to the search filter |
| `Catalog.CategoryTest` | src/App.jsx:33 | definition, no contract: the callback `p => InCategory(p, category)` handed to the category filter |
| `Catalog.MatchesSearch` | src/App.jsx:27-29 | a product matches exactly when its lowered title has the lowered search text at some index |
| `Catalog.InCategory` | src/App.jsx:33 | definition, no contract: the category equals the selection |
| `Catalog.SearchStep` | src/App.jsx:26-30 | the search step never grows the list and keeps only listed products that match a non-empty search |
| `Catalog.CategoryStep` | src/App.jsx:32-34 | the category step never grows the list and keeps only listed products of the category, unless `"All"` |
| `Catalog.Filtered` | src/App.jsx:24-34 | the two steps never grow the catalog and keep only catalog products that are selected; `FilteredMembership` gives the converse |
| `Catalog.Selected` | src/App.jsx:26-34 | definition, no contract: the search is empty or matches, and the category is `"All"` or equal |
| `Catalog.EmptySearchKeepsAll` | src/App.jsx:26-30 | filtering by the empty search text keeps every product |
| `Catalog.FilteredIsOneFilter` | src/App.jsx:24-34 | the search step then the category step equal one filter by the combined selection |
| `Catalog.FilteredMembership` | src/App.jsx:24-34 | a product is kept exactly when it is in the catalog, matches the search (if non-empty) and is in the category (unless `"All"`) |
| `Catalog.FilteredCountsAndOrder` | src/App.jsx:24-34 | the filters keep every copy of a selected product and none of any other, in catalog order |
| `Catalog.NoFilterKeepsCatalog` | src/App.jsx:24-34 | with an empty search and `"All"` the whole catalog is kept |
| `PriceSort.Compare` | src/App.jsx:36-40 | ascending, a non-positive result means `a.price <= b.price`; descending, `a.price >= b.price`; zero means equal prices |
| `PriceSort.Insert` | src/App.jsx:36-40 | insertion adds one element; `InsertMultiset` and `InsertPlacement` fix its contents |
| `PriceSort.SortedBy` | src/App.jsx:36-40 | the sort keeps the length; its contents are fixed by the lemmas below |
| `PriceSort.InsertMultiset` | src/App.jsx:36-40 | inserting one product adds exactly that product |
| `PriceSort.InsertOrdered` | src/App.jsx:36-40 | inserting into an ordered sequence keeps it ordered |
| `PriceSort.PriceClassSingle` | src/App.jsx:36-40 | the products of price `v` in a one-product sequence |
| `PriceSort.InsertPriceClass` | src/App.jsx:36-40 | inserting puts the new product after every other product of its price |
| `PriceSort.SortedByPermutation` | src/App.jsx:36-40 | the sort output is a permutation of its input |
| `PriceSort.SortedByOrdered` | src/App.jsx:36-40 | the sort output is ordered by the comparator |
| `PriceSort.SortedByStable` | src/App.jsx:36-40 | for every price, the products of that price keep their input order |
| `PriceSort.SortedByMembers` | src/App.jsx:36-40 | the sort introduces no product that was not in its input |
| `PriceSort.PriceClassOfCons` | src/App.jsx:36-40 | the products of price `v` in a sequence with a known first product |
| `PriceSort.HeadsCostTheSame` | src/App.jsx:36-40 | two ordered sequences with the same price classes start with the same price |
| `PriceSort.NonEmptyHasPriceClass` | src/App.jsx:36-40 | the first product's price class is never empty |
| `PriceSort.StableSortIsUnique` | src/App.jsx:36-40 | two ordered sequences with the same price classes are equal |
| `PriceSort.SortedByIsTheStableSort` | src/App.jsx:36-40 | any ordered, stable rearrangement of the input is the insertion sort's result |
| `PriceSort.SortedByOfOrdered` | src/App.jsx:36-40 | sorting an ordered sequence changes nothing |
| `PriceSort.InsertPlacement` | src/App.jsx:36-40 | insertion places the product just after the last element that does not sort after it |
| `PriceSort.SwapWithPrevious` | src/App.jsx:36-40 | exchanges two neighbouring array slots and nothing else |
| `PriceSort.InsertInPlace` | src/App.jsx:36-40 | sinks slot `i` of the array into the sorted prefix before it, as the sort function's insertion does |
| `PriceSort.SortInPlace` | src/App.jsx:36-40 | sorts the array in place to exactly the stable sort of its old contents |
| `CatalogQuery.SortOrder` | src/App.jsx:36-40 | `"low"` selects ascending, `"high"` selects descending, and nothing else selects either |
| `CatalogQuery.Query` | src/App.jsx:23-43 | the listing never grows the catalog and shows only selected catalog products; the lemmas below give the rest |
| `CatalogQuery.FilteredProducts` | src/App.jsx:23-43 | the in-place query returns exactly the query function's listing |
| `CatalogQuery.QueryPermutesFiltered` | src/App.jsx:36-40 | the listing is a permutation of the filtered products |
| `CatalogQuery.QueryMembership` | src/App.jsx:23-43 | a product is listed exactly when it is in the catalog and selected, as often as the catalog holds it |
| `CatalogQuery.QueryNoDuplicates` | src/App.jsx:23-43 | a catalog without repeats gives a listing without repeats |
| `CatalogQuery.CatalogListingNoDuplicates` | src/App.jsx:4-43 | the page's own listing never shows a product twice, for every search, category and sort |
| `CatalogQuery.QueryUnsorted` | src/App.jsx:36-42 | any other sort selection returns the filtered products in catalog order |
| `CatalogQuery.QueryLowToHigh` | src/App.jsx:36-37 | `"low"` lists prices in non-decreasing order |
| `CatalogQuery.QueryHighToLow` | src/App.jsx:38-39 | `"high"` lists prices in non-increasing order |
| `CatalogQuery.QueryStable` | src/App.jsx:36-40 | products of equal price keep their filtered order under every sort selection |
| `CatalogQuery.QueryIdempotent` | src/App.jsx:23-43 | running the query on its own listing returns the same listing |
| `CatalogQuery.LaptopNoSh` | src/App.jsx:5 | "Laptop" does not match the search "sh" |
| `CatalogQuery.PhoneNoSh` | src/App.jsx:6 | "Phone" does not match the search "sh" |
| `CatalogQuery.ShoesSh` | src/App.jsx:7 | "Shoes" matches the search "sh" |
| `CatalogQuery.WatchNoSh` | src/App.jsx:8 | "Watch" does not match the search "sh" |
| `CatalogQuery.ChairNoSh` | src/App.jsx:9 | "Chair" does not match the search "sh" |
| `CatalogQuery.TableNoSh` | src/App.jsx:10 | "Table" does not match the search "sh" |
| `CatalogQuery.SearchShFindsShoes` | src/App.jsx:23-43 | searching "sh" in all categories, unsorted, lists only the shoes |
| `CatalogQuery.FashionFilter` | src/App.jsx:32-34 | the Fashion category holds the shoes and then the watch |
| `CatalogQuery.FashionHighToLow` | src/App.jsx:23-43 | Fashion, high to low, lists the watch before the shoes |
| `CartLedger.EntryOf` | src/App.jsx:52 | definition, no contract: the product's fields plus a quantity |
| `CartLedger.CurrentQty` | src/App.jsx:48 | definition, no contract: the line's quantity, 0 when there is no line |
| `CartLedger.AddToCart` | src/App.jsx:46-55 | at or over stock the cart is unchanged; otherwise the product's line becomes its fields with one more unit; other lines are unchanged; the ledger invariant is kept |
| `CartLedger.UpdateQty` | src/App.jsx:57-61 | a quantity outside `[1, stock]` is ignored; otherwise only that line's quantity changes; with the line's own stock the invariant is kept |
| `CartLedger.RemoveItem` | src/App.jsx:63-69 | exactly the key `id` is gone, the other lines are unchanged, an absent id is a no-op, the invariant is kept |
| `CartLedger.RemoveItemIdempotent` | src/App.jsx:63-69 | removing twice is removing once |
| `CartLedger.Apply` | src/App.jsx:166-193 | each add, quantity edit (with the line's own id and stock) or removal keeps the ledger invariant |
| `CartLedger.Run` | src/App.jsx:166-193 | definition, no contract: the actions applied in turn |
| `CartLedger.RunPreservesWellFormed` | src/App.jsx:46-69 | any sequence of adds, quantity edits and removals keeps `1 <= qty <= stock` on every line |
| `CartLedger.ReachableCartsWellFormed` | src/App.jsx:17 | every cart reachable from the empty cart satisfies the invariant |
| `CartLedger.SumRemove` | src/App.jsx:71-75 | the total is the same whichever line is taken out first |
| `CartLedger.SumUpdate` | src/App.jsx:71-75 | replacing or adding one line moves the total by that line's change |
| `CartLedger.SumMonotone` | src/App.jsx:71-75 | a summand that is larger on every line gives a larger total |
| `CartLedger.SumOne` | src/App.jsx:71-75 | summing 1 per line counts the lines |
| `CartLedger.ZeroSum` | src/App.jsx:71-75 | summing 0 per line gives 0 |
| `CartLedger.QtyOf` | src/App.jsx:71-72 | definition, no contract: the line's quantity |
| `CartLedger.LineTotal` | src/App.jsx:73-75 | definition, no contract: the line's quantity times its price |
| `CartLedger.TotalItems` | src/App.jsx:71-72 | definition, no contract: the sum of the quantities |
| `CartLedger.TotalPrice` | src/App.jsx:73-75 | definition, no contract: the sum of quantity times price |
| `CartLedger.ValuesAt` | src/App.jsx:71-75 | definition, no contract: `Object.values(cart)` listed in a given key order |
| `CartLedger.Reduce` | src/App.jsx:71-75 | definition, no contract: the left fold `reduce((a, b) => a + f(b), 0)`; `ReduceMatchesSum` ties it to the sum |
| `CartLedger.TotalItemsBounds` | src/App.jsx:71-72 | a well-formed cart has at least one unit per line and no more units than its lines' stock |
| `CartLedger.TotalPriceNonNegative` | src/App.jsx:73-75 | a well-formed cart with non-negative prices never totals less than 0 |
| `CartLedger.ReduceMatchesSum` | src/App.jsx:71-75 | the left fold over the values, in any enumeration of the keys, equals the order-free sum |
| `CartLedger.TotalsAsReduce` | src/App.jsx:71-75 | the page's two `reduce` folds compute the item count and the price total |
| `CartLedger.AddToCartTotals` | src/App.jsx:46-75 | a successful add raises the items by 1 and the price by the product's price; a refused add changes neither |
| `CartLedger.UpdateQtyTotals` | src/App.jsx:57-75 | an accepted quantity change moves the items by the change and the price by the change times the line's price |
| `CartLedger.RemoveItemTotals` | src/App.jsx:63-75 | a removal takes the line's units and amount out of the totals |
| `CartLedger.TotalsExamples` | src/App.jsx:71-75 | the empty cart totals (0, 0); one line of 2 units at 1500 totals (2, 3000) |
| `CartLedger.PhoneCannotBeAdded` | src/App.jsx:48-49 | the phone (stock 0) cannot be added to a cart without it |
| `CartLedger.LaptopSession` | src/App.jsx:46-69 | three adds of the laptop give quantity 3; setting 10 over stock 5 is ignored; removing empties the cart |
| `CartLedger.TableStopsAtStock` | src/App.jsx:46-55 | the table (stock 2) stops at 2 units |

## Left out

- React machinery is not modelled: `useState`, `useMemo` and the `setCart(prev => ...)`
  wrappers. State is passed and returned as values.
- Rendering is not modelled: the markup, the stylesheet import, the login and sign-up dialogs
  and the button wiring. They hold no logic.
- Lower-casing covers only the ASCII capitals `A`-`Z`. Full Unicode case mapping is a
  library routine that is not part of this model.
- Prices, quantities and stock are integers. `Number(e.target.value)` can produce a
  fraction or NaN. NaN passes the range check of `updateQty`, because both comparisons
  with NaN are false. Floating point is not modelled.
- CartLedger.UpdateQty: requires `id` to be in the cart. For an absent id the source stores
  a partial line holding only `qty`. The page only calls it with the id and stock of a line
  it shows.
- CartLedger.AddToCartTotals: requires that an existing line carries the product's own
  fields. Every line `addToCart` creates does.
- The order of keys in the cart object is not modelled. The totals are proved independent
  of it, and the display order is presentation only.
- The sort algorithm the JavaScript engine uses is not modelled. The sort is specified
  as a stable insertion sort, and `PriceSort.SortedByIsTheStableSort` shows that every
  ordered, stable rearrangement equals it.
- `removeItem` copies the object and deletes a key from the copy. The model removes the
  key from a map value, which has the same result; the copy cannot be seen from outside.
- The totals are ghost functions: an order-free sum over a map must pick its keys by
  choice. `CartLedger.Reduce` is the fold the page computes over a given key order.
