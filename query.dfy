/** The catalog query: search, category filter and price sort applied in turn to a copy
    of the catalog (`filteredProducts`). */
module CatalogQuery {
  import opened Text
  import opened Catalog
  import opened PriceSort

  datatype Option<T> = None | Some(value: T)

  /** The sort selection: "low" and "high" sort by price; any other value leaves the order. */
  function SortOrder(sort: string): (r: Option<Order>)
    ensures r == Some(Ascending) <==> sort == "low"
    ensures r == Some(Descending) <==> sort == "high"
  {
    if sort == "low" then Some(Ascending)
    else if sort == "high" then Some(Descending)
    else None
  }

  /** The listing shown for the given search text, category and sort selection. */
  function Query(catalog: seq<Product>, search: string, category: string, sort: string): (r: seq<Product>)
    ensures |r| <= |catalog|
    ensures forall p :: p in r ==> p in catalog && Selected(p, search, category)
  {
    var data := Filtered(catalog, search, category);
    match SortOrder(sort)
    case None => data
    case Some(o) => SortedByMembers(o, data); SortedBy(o, data)
  }

  /** The query computed step by step: copy the catalog, narrow the copy by each active
      filter, then sort the working array in place. The catalog itself is a value and
      cannot change. */
  method FilteredProducts(catalog: seq<Product>, search: string, category: string, sort: string)
    returns (listing: seq<Product>)
    ensures listing == Query(catalog, search, category, sort)
  {
    var data := catalog;
    if search != "" {
      data := Filter(data, SearchTest(search));
    }
    if category != ALL {
      data := Filter(data, CategoryTest(category));
    }
    var working := new Product[|data|](k requires 0 <= k < |data| => data[k]);
    assert working[..] == data;
    if sort == "low" {
      SortInPlace(working, Ascending);
    } else if sort == "high" {
      SortInPlace(working, Descending);
    }
    listing := working[..];
  }

  // ---------------------------------------------------------------------
  // Properties of the listing
  // ---------------------------------------------------------------------

  /** Sorting rearranges the filtered products: each product occurs in the listing exactly as
      often as in the filtered sequence. */
  lemma QueryPermutesFiltered(catalog: seq<Product>, search: string, category: string, sort: string)
    ensures multiset(Query(catalog, search, category, sort)) == multiset(Filtered(catalog, search, category))
  {
    var data := Filtered(catalog, search, category);
    match SortOrder(sort)
    case None =>
    case Some(o) => SortedByPermutation(o, data);
  }

  /** The listing is sound and complete: it shows exactly the catalog products that pass
      both active filters, each as often as the catalog holds it. */
  lemma QueryMembership(catalog: seq<Product>, search: string, category: string, sort: string, p: Product)
    ensures p in Query(catalog, search, category, sort) <==> p in catalog && Selected(p, search, category)
    ensures multiset(Query(catalog, search, category, sort))[p]
         == if Selected(p, search, category) then multiset(catalog)[p] else 0
  {
    QueryPermutesFiltered(catalog, search, category, sort);
    FilteredMembership(catalog, search, category, p);
    FilteredCountsAndOrder(catalog, search, category, p);
  }

  /** A product that occurs at most once in the catalog occurs at most once in the listing. */
  lemma QueryNoDuplicates(catalog: seq<Product>, search: string, category: string, sort: string)
    requires forall p :: multiset(catalog)[p] <= 1
    ensures forall p :: multiset(Query(catalog, search, category, sort))[p] <= 1
  {
    forall p ensures multiset(Query(catalog, search, category, sort))[p] <= 1 {
      QueryMembership(catalog, search, category, sort, p);
    }
  }

  /** The page's own listing never shows a product twice. */
  lemma CatalogListingNoDuplicates(search: string, category: string, sort: string)
    ensures forall p :: multiset(Query(PRODUCTS, search, category, sort))[p] <= 1
  {
    CatalogIdsDistinct();
    QueryNoDuplicates(PRODUCTS, search, category, sort);
  }

  /** Without a recognised sort selection the listing keeps the catalog order. */
  lemma QueryUnsorted(catalog: seq<Product>, search: string, category: string, sort: string)
    requires sort != "low" && sort != "high"
    ensures Query(catalog, search, category, sort) == Filtered(catalog, search, category)
    ensures IsSubsequence(Query(catalog, search, category, sort), catalog)
  {
    FilteredIsOneFilter(catalog, search, category);
    FilterIsSubsequence(catalog, SelectionTest(search, category));
  }

  /** "low" lists prices in non-decreasing order. */
  lemma QueryLowToHigh(catalog: seq<Product>, search: string, category: string)
    ensures var r := Query(catalog, search, category, "low");
      forall i, j :: 0 <= i < j < |r| ==> r[i].price <= r[j].price
  {
    SortedByOrdered(Ascending, Filtered(catalog, search, category));
  }

  /** "high" lists prices in non-increasing order. */
  lemma QueryHighToLow(catalog: seq<Product>, search: string, category: string)
    ensures var r := Query(catalog, search, category, "high");
      forall i, j :: 0 <= i < j < |r| ==> r[i].price >= r[j].price
  {
    SortedByOrdered(Descending, Filtered(catalog, search, category));
  }

  /** Both price sorts are stable: products of equal price keep their filtered order. */
  lemma QueryStable(catalog: seq<Product>, search: string, category: string, sort: string, v: int)
    ensures PriceClass(Query(catalog, search, category, sort), v) == PriceClass(Filtered(catalog, search, category), v)
  {
    match SortOrder(sort)
    case None =>
    case Some(o) => SortedByStable(o, Filtered(catalog, search, category));
  }

  /** Running the query on its own listing changes nothing. */
  lemma QueryIdempotent(catalog: seq<Product>, search: string, category: string, sort: string)
    ensures Query(Query(catalog, search, category, sort), search, category, sort)
         == Query(catalog, search, category, sort)
  {
    var listing := Query(catalog, search, category, sort);
    forall p | p in listing ensures SelectionTest(search, category)(p) {
      QueryMembership(catalog, search, category, sort, p);
    }
    FilteredIsOneFilter(listing, search, category);
    FilterAllPass(listing, SelectionTest(search, category));
    match SortOrder(sort)
    case None =>
    case Some(o) =>
      SortedByOrdered(o, Filtered(catalog, search, category));
      SortedByOfOrdered(o, listing);
  }

  // ---------------------------------------------------------------------
  // Scenarios on the built-in catalog
  // ---------------------------------------------------------------------

  lemma LaptopNoSh() ensures !SearchTest("sh")(LAPTOP) {
    assert ToLower("sh") == "sh";
    assert ToLower("Laptop") == "laptop";
    LacksFirstChar("laptop", "sh");
  }

  lemma PhoneNoSh() ensures !SearchTest("sh")(PHONE) {
    assert ToLower("sh") == "sh";
    assert ToLower("Phone") == "phone";
    LacksFirstChar("phone", "sh");
  }

  lemma ShoesSh() ensures SearchTest("sh")(SHOES) {
    assert ToLower("Shoes") == "shoes";
    assert ToLower("sh") == "sh";
  }

  lemma WatchNoSh() ensures !SearchTest("sh")(WATCH) {
    assert ToLower("sh") == "sh";
    assert ToLower("Watch") == "watch";
    LacksFirstChar("watch", "sh");
  }

  lemma ChairNoSh() ensures !SearchTest("sh")(CHAIR) {
    assert ToLower("sh") == "sh";
    assert ToLower("Chair") == "chair";
    LacksFirstChar("chair", "sh");
  }

  lemma TableNoSh() ensures !SearchTest("sh")(TABLE) {
    assert ToLower("sh") == "sh";
    assert ToLower("Table") == "table";
    LacksFirstChar("table", "sh");
  }

  /** Searching "sh" over all categories, unsorted, lists only the shoes. */
  lemma SearchShFindsShoes()
    ensures Query(PRODUCTS, "sh", ALL, "") == [SHOES]
  {
    var t := SearchTest("sh");
    LaptopNoSh(); PhoneNoSh(); ShoesSh(); WatchNoSh(); ChairNoSh(); TableNoSh();
    assert Filter([TABLE], t) == [];
    assert Filter([CHAIR, TABLE], t) == [];
    assert Filter([WATCH, CHAIR, TABLE], t) == [];
    assert Filter([SHOES, WATCH, CHAIR, TABLE], t) == [SHOES];
    assert Filter([PHONE, SHOES, WATCH, CHAIR, TABLE], t) == [SHOES];
  }

  /** The Fashion category holds the shoes and then the watch. */
  lemma FashionFilter()
    ensures Filtered(PRODUCTS, "", "Fashion") == [SHOES, WATCH]
  {
    var t := CategoryTest("Fashion");
    assert Filter([TABLE], t) == [];
    assert Filter([CHAIR, TABLE], t) == [];
    assert Filter([WATCH, CHAIR, TABLE], t) == [WATCH];
    assert Filter([SHOES, WATCH, CHAIR, TABLE], t) == [SHOES, WATCH];
    assert Filter([PHONE, SHOES, WATCH, CHAIR, TABLE], t) == [SHOES, WATCH];
    assert Filter(PRODUCTS, t) == [SHOES, WATCH];
  }

  /** Fashion, high to low: the watch before the shoes. */
  lemma FashionHighToLow()
    ensures Query(PRODUCTS, "", "Fashion", "high") == [WATCH, SHOES]
  {
    FashionFilter();
    assert [SHOES, WATCH][..1] == [SHOES];
    assert SortedBy(Descending, [SHOES]) == [SHOES];
    assert Insert(Descending, [SHOES], WATCH) == [WATCH, SHOES];
    assert SortedBy(Descending, [SHOES, WATCH]) == [WATCH, SHOES];
  }
}
