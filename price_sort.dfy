/** The sorting step of the catalog query: `data.sort` with a price comparator.
    `Array.prototype.sort` is required to be stable (section 23.1.3.30 of ECMA-262,
    2023 edition); it is modelled by a stable insertion sort, `SortedBy`, and
    `StableSortIsUnique` shows that every stable sort by the same comparator
    gives the same result. */
module PriceSort {
  import opened Catalog

  /** The two sort selections: "low" (low to high) and "high" (high to low). */
  datatype Order = Ascending | Descending

  /** The comparator handed to `data.sort`: negative or zero lets `a` stay before `b`. */
  function Compare(o: Order, a: Product, b: Product): (r: int)
    ensures o == Ascending ==> (r <= 0 <==> a.price <= b.price)
    ensures o == Descending ==> (r <= 0 <==> a.price >= b.price)
    ensures r == 0 <==> a.price == b.price
  {
    match o
    case Ascending => a.price - b.price
    case Descending => b.price - a.price
  }

  /** `a` may stand before `b` in the sorted output. */
  predicate InOrder(o: Order, a: Product, b: Product) {
    Compare(o, a, b) <= 0
  }

  /** Every element may stand before every later one. */
  ghost predicate Ordered(o: Order, s: seq<Product>) {
    forall i, j :: 0 <= i < j < |s| ==> InOrder(o, s[i], s[j])
  }

  /** The test "costs `v`". */
  function CostsExactly(v: int): Product -> bool {
    (p: Product) => p.price == v
  }

  /** The products of `s` whose price is `v`, in their order in `s`. */
  function PriceClass(s: seq<Product>, v: int): seq<Product> {
    Filter(s, CostsExactly(v))
  }

  /** Stability: the products of each price appear in the same relative order. */
  ghost predicate SamePriceClasses(s: seq<Product>, t: seq<Product>) {
    forall v :: PriceClass(s, v) == PriceClass(t, v)
  }

  /** Inserts `x` after the last element of `s` that does not compare greater than it,
      scanning from the back as an insertion sort does. */
  function Insert(o: Order, s: seq<Product>, x: Product): (r: seq<Product>)
    ensures |r| == |s| + 1
    decreases |s|
  {
    if s == [] then [x]
    else if Compare(o, s[|s| - 1], x) <= 0 then s + [x]
    else Insert(o, s[..|s| - 1], x) + [s[|s| - 1]]
  }

  /** Insertion sort of `s`: the sorted prefix grows by one element at a time. */
  function SortedBy(o: Order, s: seq<Product>): (r: seq<Product>)
    ensures |r| == |s|
    decreases |s|
  {
    if s == [] then [] else Insert(o, SortedBy(o, s[..|s| - 1]), s[|s| - 1])
  }

  // ---------------------------------------------------------------------
  // Insert
  // ---------------------------------------------------------------------

  lemma {:induction false} InsertMultiset(o: Order, s: seq<Product>, x: Product)
    ensures multiset(Insert(o, s, x)) == multiset(s) + multiset{x}
    decreases |s|
  {
    if s != [] && Compare(o, s[|s| - 1], x) > 0 {
      var init, last := s[..|s| - 1], s[|s| - 1];
      InsertMultiset(o, init, x);
      assert s == init + [last];
    }
  }

  lemma {:induction false} InsertOrdered(o: Order, s: seq<Product>, x: Product)
    requires Ordered(o, s)
    ensures Ordered(o, Insert(o, s, x))
    decreases |s|
  {
    if s != [] && Compare(o, s[|s| - 1], x) > 0 {
      var init, last := s[..|s| - 1], s[|s| - 1];
      InsertOrdered(o, init, x);
      InsertMultiset(o, init, x);
      var r := Insert(o, init, x);
      forall i | 0 <= i < |r| ensures InOrder(o, r[i], last) {
        assert r[i] in multiset(init) + multiset{x};
        if r[i] != x {
          assert r[i] in init;
          var k :| 0 <= k < |init| && init[k] == r[i];
          assert s[k] == r[i];
        }
      }
    }
  }

  lemma PriceClassSingle(x: Product, v: int)
    ensures PriceClass([x], v) == if x.price == v then [x] else []
  {
    assert [x][1..] == [];
  }

  lemma {:induction false} InsertPriceClass(o: Order, s: seq<Product>, x: Product, v: int)
    ensures PriceClass(Insert(o, s, x), v) == PriceClass(s, v) + PriceClass([x], v)
    decreases |s|
  {
    if s == [] {
      assert Insert(o, s, x) == [x];
      assert PriceClass(s, v) == [];
    } else if Compare(o, s[|s| - 1], x) <= 0 {
      FilterAppend(s, [x], CostsExactly(v));
    } else {
      var init, last := s[..|s| - 1], s[|s| - 1];
      assert s == init + [last];
      calc {
        PriceClass(Insert(o, s, x), v);
        == { FilterAppend(Insert(o, init, x), [last], CostsExactly(v)); }
        PriceClass(Insert(o, init, x), v) + PriceClass([last], v);
        == { InsertPriceClass(o, init, x, v); }
        PriceClass(init, v) + PriceClass([x], v) + PriceClass([last], v);
        == { PriceClassSingle(x, v); PriceClassSingle(last, v); }
        PriceClass(init, v) + PriceClass([last], v) + PriceClass([x], v);
        == { FilterAppend(init, [last], CostsExactly(v)); }
        PriceClass(s, v) + PriceClass([x], v);
      }
    }
  }

  // ---------------------------------------------------------------------
  // SortedBy
  // ---------------------------------------------------------------------

  /** The sorted output is a permutation of its input. */
  lemma {:induction false} SortedByPermutation(o: Order, s: seq<Product>)
    ensures multiset(SortedBy(o, s)) == multiset(s)
    decreases |s|
  {
    if s != [] {
      var init, last := s[..|s| - 1], s[|s| - 1];
      SortedByPermutation(o, init);
      InsertMultiset(o, SortedBy(o, init), last);
      assert SortedBy(o, s) == Insert(o, SortedBy(o, init), last);
      assert s == init + [last];
      assert multiset(s) == multiset(init) + multiset{last};
    }
  }

  /** The sorted output is ordered by the comparator. */
  lemma {:induction false} SortedByOrdered(o: Order, s: seq<Product>)
    ensures Ordered(o, SortedBy(o, s))
    decreases |s|
  {
    if s != [] {
      SortedByOrdered(o, s[..|s| - 1]);
      InsertOrdered(o, SortedBy(o, s[..|s| - 1]), s[|s| - 1]);
    }
  }

  /** The sort is stable: the products of each price keep their relative order. */
  lemma {:induction false} SortedByStable(o: Order, s: seq<Product>)
    ensures SamePriceClasses(SortedBy(o, s), s)
    decreases |s|
  {
    if s != [] {
      var init, last := s[..|s| - 1], s[|s| - 1];
      SortedByStable(o, init);
      forall v ensures PriceClass(SortedBy(o, s), v) == PriceClass(s, v) {
        InsertPriceClass(o, SortedBy(o, init), last, v);
        assert s == init + [last];
        FilterAppend(init, [last], CostsExactly(v));
      }
    }
  }

  lemma PriceClassOfCons(x: Product, r: seq<Product>, v: int)
    ensures PriceClass([x] + r, v) == if x.price == v then [x] + PriceClass(r, v) else PriceClass(r, v)
  {
    FilterAppend([x], r, CostsExactly(v));
    PriceClassSingle(x, v);
  }

  /** The first elements of two ordered sequences with the same price classes cost the same. */
  lemma HeadsCostTheSame(o: Order, t1: seq<Product>, t2: seq<Product>)
    requires t1 != [] && t2 != []
    requires Ordered(o, t1) && Ordered(o, t2)
    requires SamePriceClasses(t1, t2)
    ensures t1[0].price == t2[0].price
  {
    var a, b := t1[0], t2[0];
    assert b in t1 by {
      FilterMembership(t1, CostsExactly(b.price), b);
      FilterMembership(t2, CostsExactly(b.price), b);
      assert PriceClass(t1, b.price) == PriceClass(t2, b.price);
    }
    assert a in t2 by {
      FilterMembership(t1, CostsExactly(a.price), a);
      FilterMembership(t2, CostsExactly(a.price), a);
      assert PriceClass(t1, a.price) == PriceClass(t2, a.price);
    }
    var k1 :| 0 <= k1 < |t1| && t1[k1] == b;
    var k2 :| 0 <= k2 < |t2| && t2[k2] == a;
    assert InOrder(o, a, b) by {
      if k1 > 0 { assert InOrder(o, t1[0], t1[k1]); }
    }
    assert InOrder(o, b, a) by {
      if k2 > 0 { assert InOrder(o, t2[0], t2[k2]); }
    }
  }

  /** A non-empty sequence has a non-empty price class: the one of its first element. */
  lemma NonEmptyHasPriceClass(t: seq<Product>)
    requires t != []
    ensures PriceClass(t, t[0].price) != []
  {
    assert t == [t[0]] + t[1..];
    PriceClassOfCons(t[0], t[1..], t[0].price);
  }

  /** Two comparator-ordered sequences with the same price classes are equal: a stable
      sort's result is determined by its input, whatever algorithm computes it. */
  lemma {:induction false} StableSortIsUnique(o: Order, t1: seq<Product>, t2: seq<Product>)
    requires Ordered(o, t1) && Ordered(o, t2)
    requires SamePriceClasses(t1, t2)
    ensures t1 == t2
    decreases |t1|
  {
    if t1 == [] || t2 == [] {
      if t1 != [] {
        NonEmptyHasPriceClass(t1);
      } else if t2 != [] {
        NonEmptyHasPriceClass(t2);
      }
    } else {
      HeadsCostTheSame(o, t1, t2);
      var a, b, r1, r2 := t1[0], t2[0], t1[1..], t2[1..];
      assert t1 == [a] + r1 && t2 == [b] + r2;
      forall v ensures PriceClass(r1, v) == PriceClass(r2, v) {
        PriceClassOfCons(a, r1, v);
        PriceClassOfCons(b, r2, v);
        assert PriceClass(t1, v) == PriceClass(t2, v);
        if v == a.price {
          assert ([a] + PriceClass(r1, v))[1..] == PriceClass(r1, v);
          assert ([b] + PriceClass(r2, v))[1..] == PriceClass(r2, v);
        }
      }
      assert a == b by {
        PriceClassOfCons(a, r1, a.price);
        PriceClassOfCons(b, r2, a.price);
        assert PriceClass(t1, a.price) == PriceClass(t2, a.price);
        assert ([a] + PriceClass(r1, a.price))[0] == a;
        assert ([b] + PriceClass(r2, a.price))[0] == b;
      }
      StableSortIsUnique(o, r1, r2);
    }
  }

  /** Any ordered rearrangement of `s` that keeps each price class in order is `SortedBy(o, s)`. */
  lemma SortedByIsTheStableSort(o: Order, s: seq<Product>, t: seq<Product>)
    requires Ordered(o, t)
    requires SamePriceClasses(t, s)
    ensures t == SortedBy(o, s)
  {
    SortedByOrdered(o, s);
    SortedByStable(o, s);
    StableSortIsUnique(o, t, SortedBy(o, s));
  }

  /** Sorting introduces no product that was not in the input. */
  lemma SortedByMembers(o: Order, s: seq<Product>)
    ensures forall x :: x in SortedBy(o, s) ==> x in s
  {
    SortedByPermutation(o, s);
    forall x | x in SortedBy(o, s) ensures x in s {
      assert x in multiset(SortedBy(o, s));
    }
  }

  /** Sorting an already ordered sequence changes nothing. */
  lemma SortedByOfOrdered(o: Order, s: seq<Product>)
    requires Ordered(o, s)
    ensures SortedBy(o, s) == s
  {
    SortedByIsTheStableSort(o, s, s);
  }

  // ---------------------------------------------------------------------
  // The in-place sort of the query's working array
  // ---------------------------------------------------------------------

  /** `x` lands right after the prefix `s[..j]` when the element before it does not compare
      greater than `x` and every element after it does. */
  lemma {:induction false} InsertPlacement(o: Order, s: seq<Product>, x: Product, j: int)
    requires 0 <= j <= |s|
    requires j == 0 || Compare(o, s[j - 1], x) <= 0
    requires forall k :: j <= k < |s| ==> Compare(o, s[k], x) > 0
    ensures Insert(o, s, x) == s[..j] + [x] + s[j..]
    decreases |s|
  {
    if j == |s| {
      assert s[..j] == s && s[j..] == [];
    } else {
      var init, last := s[..|s| - 1], s[|s| - 1];
      assert s == init + [last];
      SplitAfterSnoc(init, last, j);
      assert Compare(o, last, x) > 0;
      InsertPlacement(o, init, x, j);
    }
  }

  /** Cutting `init + [last]` at an index of `init`. */
  lemma SplitAfterSnoc<T>(init: seq<T>, last: T, j: int)
    requires 0 <= j <= |init|
    ensures (init + [last])[..j] == init[..j]
    ensures (init + [last])[j..] == init[j..] + [last]
  {
  }

  /** Exchanges `a[j - 1]` and `a[j]`. */
  method SwapWithPrevious(a: array<Product>, j: nat)
    requires 0 < j < a.Length
    modifies a
    ensures a[j - 1] == old(a[j]) && a[j] == old(a[j - 1])
    ensures forall k :: 0 <= k < a.Length && k != j - 1 && k != j ==> a[k] == old(a[k])
  {
    a[j - 1], a[j] := a[j], a[j - 1];
  }

  /** One pass of the insertion sort: `a[..i]` is sorted, and `a[i]` is swapped towards
      the front while its predecessor compares greater than it. */
  method InsertInPlace(a: array<Product>, i: nat, o: Order)
    requires i < a.Length
    modifies a
    ensures a[..i + 1] == Insert(o, old(a[..i]), old(a[i]))
    ensures forall k :: i < k < a.Length ==> a[k] == old(a[k])
  {
    ghost var sorted := a[..i];
    var x := a[i];
    var j := i;
    while j > 0 && Compare(o, a[j - 1], a[j]) > 0
      invariant 0 <= j <= i
      invariant forall k :: 0 <= k < j ==> a[k] == sorted[k]
      invariant a[j] == x
      invariant forall k :: j < k <= i ==> a[k] == sorted[k - 1]
      invariant forall k :: i < k < a.Length ==> a[k] == old(a[k])
      invariant forall k :: j <= k < i ==> Compare(o, sorted[k], x) > 0
    {
      SwapWithPrevious(a, j);
      j := j - 1;
    }
    InsertPlacement(o, sorted, x, j);
    assert a[..i + 1] == sorted[..j] + [x] + sorted[j..];
  }

  /** `data.sort(comparator)`, in place. */
  method SortInPlace(a: array<Product>, o: Order)
    modifies a
    ensures a[..] == SortedBy(o, old(a[..]))
  {
    ghost var input := a[..];
    var i := 0;
    while i < a.Length
      invariant 0 <= i <= a.Length
      invariant a[..i] == SortedBy(o, input[..i])
      invariant forall k :: i <= k < a.Length ==> a[k] == input[k]
    {
      ghost var prefix := input[..i + 1];
      assert prefix[..i] == input[..i];
      assert SortedBy(o, prefix) == Insert(o, SortedBy(o, input[..i]), input[i]);
      InsertInPlace(a, i, o);
      assert a[..i + 1] == SortedBy(o, prefix);
      i := i + 1;
    }
    assert a[..] == a[..a.Length] && input == input[..a.Length];
  }
}
