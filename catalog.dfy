/** The static product catalog and the two filtering steps of the catalog query:
    search by title, then restrict to one category. */
module Catalog {
  import opened Text

  datatype Product = Product(id: int, title: string, price: int, category: string, stock: int)

  const LAPTOP: Product := Product(1, "Laptop", 50000, "Electronics", 5)
  const PHONE: Product := Product(2, "Phone", 30000, "Electronics", 0)
  const SHOES: Product := Product(3, "Shoes", 2000, "Fashion", 10)
  const WATCH: Product := Product(4, "Watch", 4000, "Fashion", 3)
  const CHAIR: Product := Product(5, "Chair", 1500, "Furniture", 6)
  const TABLE: Product := Product(6, "Table", 3500, "Furniture", 2)

  /** The hard-coded catalog, in display order. */
  const PRODUCTS: seq<Product> := [LAPTOP, PHONE, SHOES, WATCH, CHAIR, TABLE]

  /** The category selection that disables the category filter. */
  const ALL: string := "All"

  /** Product ids in the catalog are pairwise distinct, and no product occurs twice. */
  lemma CatalogIdsDistinct()
    ensures forall i, j :: 0 <= i < j < |PRODUCTS| ==> PRODUCTS[i].id != PRODUCTS[j].id
    ensures forall p :: multiset(PRODUCTS)[p] <= 1
  {
    DistinctOccursOnce(PRODUCTS);
  }

  /** In a sequence of pairwise distinct elements each element occurs at most once. */
  lemma {:induction false} DistinctOccursOnce<T>(s: seq<T>)
    requires forall i, j :: 0 <= i < j < |s| ==> s[i] != s[j]
    ensures forall x :: multiset(s)[x] <= 1
  {
    if s != [] {
      DistinctOccursOnce(s[1..]);
      assert s == [s[0]] + s[1..];
      assert s[0] !in s[1..];
    }
  }

  // ---------------------------------------------------------------------
  // `Array.prototype.filter`
  // ---------------------------------------------------------------------

  /** The elements of `s` that satisfy `keep`, in their order in `s`. */
  function Filter<T>(s: seq<T>, keep: T -> bool): (r: seq<T>)
    ensures |r| <= |s|
    ensures forall x :: x in r ==> x in s && keep(x)
  {
    if s == [] then []
    else (if keep(s[0]) then [s[0]] else []) + Filter(s[1..], keep)
  }

  /** `a` can be obtained from `b` by deleting elements. */
  ghost predicate IsSubsequence<T>(a: seq<T>, b: seq<T>)
    decreases |b|
  {
    if a == [] then true
    else if b == [] then false
    else (a[0] == b[0] && IsSubsequence(a[1..], b[1..])) || IsSubsequence(a, b[1..])
  }

  /** Filtering keeps an element exactly when it was there and passes the test. */
  lemma {:induction false} FilterMembership<T>(s: seq<T>, keep: T -> bool, x: T)
    ensures x in Filter(s, keep) <==> x in s && keep(x)
  {
    if s != [] {
      FilterMembership(s[1..], keep, x);
      assert s == [s[0]] + s[1..];
    }
  }

  /** Filtering keeps every copy of a passing element and drops every copy of a failing one. */
  lemma {:induction false} FilterMultiset<T>(s: seq<T>, keep: T -> bool, x: T)
    ensures multiset(Filter(s, keep))[x] == if keep(x) then multiset(s)[x] else 0
  {
    if s != [] {
      FilterMultiset(s[1..], keep, x);
      assert s == [s[0]] + s[1..];
      assert multiset(s) == multiset{s[0]} + multiset(s[1..]);
      var head := if keep(s[0]) then [s[0]] else [];
      assert Filter(s, keep) == head + Filter(s[1..], keep);
      assert multiset(Filter(s, keep)) == multiset(head) + multiset(Filter(s[1..], keep));
    }
  }

  /** Filtering preserves the relative order of what it keeps. */
  lemma {:induction false} FilterIsSubsequence<T>(s: seq<T>, keep: T -> bool)
    ensures IsSubsequence(Filter(s, keep), s)
  {
    if s != [] {
      FilterIsSubsequence(s[1..], keep);
      var rest := Filter(s[1..], keep);
      if keep(s[0]) {
        assert Filter(s, keep) == [s[0]] + rest;
        assert ([s[0]] + rest)[1..] == rest;
      } else {
        assert Filter(s, keep) == rest;
      }
    }
  }

  /** A filter that every element passes returns its input. */
  lemma {:induction false} FilterAllPass<T>(s: seq<T>, keep: T -> bool)
    requires forall x :: x in s ==> keep(x)
    ensures Filter(s, keep) == s
  {
    if s != [] {
      FilterAllPass(s[1..], keep);
      assert s == [s[0]] + s[1..];
    }
  }

  /** Filtering distributes over concatenation. */
  lemma {:induction false} FilterAppend<T>(a: seq<T>, b: seq<T>, keep: T -> bool)
    ensures Filter(a + b, keep) == Filter(a, keep) + Filter(b, keep)
  {
    if a == [] {
      assert a + b == b;
    } else {
      var head := if keep(a[0]) then [a[0]] else [];
      calc {
        Filter(a + b, keep);
      == { assert (a + b)[0] == a[0]; assert (a + b)[1..] == a[1..] + b; }
        head + Filter(a[1..] + b, keep);
      == { FilterAppend(a[1..], b, keep); }
        head + (Filter(a[1..], keep) + Filter(b, keep));
      ==
        (head + Filter(a[1..], keep)) + Filter(b, keep);
      }
    }
  }

  /** Filters that agree on the elements of `s` select the same elements. */
  lemma {:induction false} FilterCongruent<T>(s: seq<T>, k1: T -> bool, k2: T -> bool)
    requires forall x :: x in s ==> k1(x) == k2(x)
    ensures Filter(s, k1) == Filter(s, k2)
  {
    if s != [] {
      FilterCongruent(s[1..], k1, k2);
    }
  }

  /** Two filters in a row keep what passes both. */
  lemma {:induction false} FilterFilter<T>(s: seq<T>, k1: T -> bool, k2: T -> bool, both: T -> bool)
    requires forall x :: both(x) == (k1(x) && k2(x))
    ensures Filter(Filter(s, k1), k2) == Filter(s, both)
  {
    if s != [] {
      FilterFilter(s[1..], k1, k2, both);
      FilterAppend(if k1(s[0]) then [s[0]] else [], Filter(s[1..], k1), k2);
    }
  }

  // ---------------------------------------------------------------------
  // The two filtering steps of the query
  // ---------------------------------------------------------------------

  /** A product matches the search when its lowered title includes the lowered search text. */
  function MatchesSearch(p: Product, search: string): (r: bool)
    ensures r ==> exists i :: OccursAt(ToLower(p.title), ToLower(search), i)
    ensures (exists i :: OccursAt(ToLower(p.title), ToLower(search), i)) ==> r
  {
    IncludesIffOccurs(ToLower(p.title), ToLower(search));
    Includes(ToLower(p.title), ToLower(search))
  }

  /** A product matches a category when the names are equal. */
  predicate InCategory(p: Product, category: string) {
    p.category == category
  }

  /** The callback handed to the search filter. */
  function SearchTest(search: string): Product -> bool {
    p => MatchesSearch(p, search)
  }

  /** The callback handed to the category filter. */
  function CategoryTest(category: string): Product -> bool {
    p => InCategory(p, category)
  }

  /** The search step: skipped for the empty (falsy) search text. */
  function SearchStep(data: seq<Product>, search: string): (r: seq<Product>)
    ensures |r| <= |data|
    ensures forall p :: p in r ==> p in data && (search == "" || MatchesSearch(p, search))
  {
    if search != "" then Filter(data, SearchTest(search)) else data
  }

  /** The category step: skipped for the selection "All". */
  function CategoryStep(data: seq<Product>, category: string): (r: seq<Product>)
    ensures |r| <= |data|
    ensures forall p :: p in r ==> p in data && (category == ALL || InCategory(p, category))
  {
    if category != ALL then Filter(data, CategoryTest(category)) else data
  }

  /** The catalog after both filtering steps, before any sorting. */
  function Filtered(catalog: seq<Product>, search: string, category: string): (r: seq<Product>)
    ensures |r| <= |catalog|
    ensures forall p :: p in r ==> p in catalog && Selected(p, search, category)
  {
    CategoryStep(SearchStep(catalog, search), category)
  }

  /** What the two filtering steps together ask of a product. */
  predicate Selected(p: Product, search: string, category: string) {
    (search == "" || MatchesSearch(p, search)) && (category == ALL || InCategory(p, category))
  }

  /** The single test equivalent to both filtering steps. */
  function SelectionTest(search: string, category: string): Product -> bool {
    p => Selected(p, search, category)
  }

  /** Skipping the search step for "" is only a shortcut: filtering by "" keeps everything. */
  lemma EmptySearchKeepsAll(data: seq<Product>)
    ensures Filter(data, SearchTest("")) == data
  {
    forall p | p in data ensures MatchesSearch(p, "") {
      assert ToLower("") == [];
    }
    FilterAllPass(data, SearchTest(""));
  }

  /** The filtering steps are one filter by `Selected`. */
  lemma FilteredIsOneFilter(catalog: seq<Product>, search: string, category: string)
    ensures Filtered(catalog, search, category) == Filter(catalog, SelectionTest(search, category))
  {
    var ks := (p: Product) => search == "" || MatchesSearch(p, search);
    var kc := (p: Product) => category == ALL || InCategory(p, category);
    var sel := SelectionTest(search, category);
    assert SearchStep(catalog, search) == Filter(catalog, ks) by {
      if search == "" {
        FilterAllPass(catalog, ks);
      } else {
        FilterCongruent(catalog, SearchTest(search), ks);
      }
    }
    var afterSearch := Filter(catalog, ks);
    assert Filtered(catalog, search, category) == Filter(afterSearch, kc) by {
      if category == ALL {
        FilterAllPass(afterSearch, kc);
      } else {
        FilterCongruent(afterSearch, CategoryTest(category), kc);
      }
    }
    FilterFilter(catalog, ks, kc, sel);
  }

  /** Soundness and completeness of the filtering steps: a product is listed exactly
      when it is in the catalog and passes both active filters. */
  lemma FilteredMembership(catalog: seq<Product>, search: string, category: string, p: Product)
    ensures p in Filtered(catalog, search, category) <==> p in catalog && Selected(p, search, category)
  {
    FilteredIsOneFilter(catalog, search, category);
    FilterMembership(catalog, SelectionTest(search, category), p);
  }

  /** The filtering steps keep every copy of a selected product and no copy of another,
      and they keep the catalog order. */
  lemma FilteredCountsAndOrder(catalog: seq<Product>, search: string, category: string, p: Product)
    ensures multiset(Filtered(catalog, search, category))[p]
         == if Selected(p, search, category) then multiset(catalog)[p] else 0
    ensures IsSubsequence(Filtered(catalog, search, category), catalog)
  {
    FilteredIsOneFilter(catalog, search, category);
    FilterMultiset(catalog, SelectionTest(search, category), p);
    FilterIsSubsequence(catalog, SelectionTest(search, category));
  }

  /** With an empty search and "All", the whole catalog is listed. */
  lemma NoFilterKeepsCatalog(catalog: seq<Product>)
    ensures Filtered(catalog, "", ALL) == catalog
  {
  }
}
