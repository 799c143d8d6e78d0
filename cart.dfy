/** The cart ledger: a map from product id to a cart line, the three handlers that rebuild
    it, and the two totals derived from it. */
module CartLedger {
  import opened Catalog

  /** A cart line: a copy of the product's fields plus the chosen quantity. */
  datatype Entry = Entry(id: int, title: string, price: int, category: string, stock: int, qty: int)

  type Cart = map<int, Entry>

  /** `{ ...product, qty }` */
  function EntryOf(p: Product, qty: int): Entry {
    Entry(p.id, p.title, p.price, p.category, p.stock, qty)
  }

  /** `prev[id]?.qty || 0`: the quantity in the cart, 0 when the product has no line. */
  function CurrentQty(cart: Cart, id: int): int {
    if id in cart then cart[id].qty else 0
  }

  /** The ledger invariant: each line sits under its own product id and holds between 1
      and `stock` units. */
  ghost predicate WellFormed(cart: Cart) {
    forall id :: id in cart ==> cart[id].id == id && 1 <= cart[id].qty <= cart[id].stock
  }

  // ---------------------------------------------------------------------
  // Handlers
  // ---------------------------------------------------------------------

  /** `addToCart`: one more unit of `product`, unless its quantity has reached its stock. */
  function AddToCart(cart: Cart, product: Product): (r: Cart)
    ensures CurrentQty(cart, product.id) >= product.stock ==> r == cart
    ensures CurrentQty(cart, product.id) < product.stock ==>
      && r.Keys == cart.Keys + {product.id}
      && r[product.id] == EntryOf(product, CurrentQty(cart, product.id) + 1)
    ensures forall id :: id in cart && id != product.id ==> id in r && r[id] == cart[id]
    ensures WellFormed(cart) ==> WellFormed(r)
  {
    var qty := CurrentQty(cart, product.id);
    if qty >= product.stock then cart
    else cart[product.id := EntryOf(product, qty + 1)]
  }

  /** `updateQty`: set the quantity of a line already in the cart, ignoring values outside
      `[1, stock]`. */
  function UpdateQty(cart: Cart, id: int, qty: int, stock: int): (r: Cart)
    requires id in cart
    ensures qty < 1 || qty > stock ==> r == cart
    ensures 1 <= qty <= stock ==> r.Keys == cart.Keys && r[id] == cart[id].(qty := qty)
    ensures forall k :: k in cart && k != id ==> k in r && r[k] == cart[k]
    ensures WellFormed(cart) && stock == cart[id].stock ==> WellFormed(r)
  {
    if qty < 1 || qty > stock then cart
    else cart[id := cart[id].(qty := qty)]
  }

  /** `removeItem`: drop the line for `id`, if there is one. */
  function RemoveItem(cart: Cart, id: int): (r: Cart)
    ensures r.Keys == cart.Keys - {id}
    ensures forall k :: k in r ==> r[k] == cart[k]
    ensures id !in cart ==> r == cart
    ensures WellFormed(cart) ==> WellFormed(r)
  {
    cart - {id}
  }

  /** Removing twice is removing once. */
  lemma RemoveItemIdempotent(cart: Cart, id: int)
    ensures RemoveItem(RemoveItem(cart, id), id) == RemoveItem(cart, id)
  {
  }

  // ---------------------------------------------------------------------
  // A session: the actions the page can issue, from an empty cart
  // ---------------------------------------------------------------------

  /** What the page can ask of the ledger. A quantity is edited through the input of a
      line shown in the cart, which passes that line's own id and stock. */
  datatype Action = Add(product: Product) | EditQty(id: int, qty: int) | Remove(id: int)

  /** Each action keeps the ledger invariant. */
  function Apply(cart: Cart, a: Action): (r: Cart)
    ensures WellFormed(cart) ==> WellFormed(r)
  {
    match a
    case Add(p) => AddToCart(cart, p)
    case EditQty(id, qty) => if id in cart then UpdateQty(cart, id, qty, cart[id].stock) else cart
    case Remove(id) => RemoveItem(cart, id)
  }

  function Run(cart: Cart, actions: seq<Action>): Cart
    decreases |actions|
  {
    if actions == [] then cart else Run(Apply(cart, actions[0]), actions[1..])
  }

  /** Every cart the page can reach from the empty cart satisfies the ledger invariant. */
  lemma {:induction false} RunPreservesWellFormed(cart: Cart, actions: seq<Action>)
    requires WellFormed(cart)
    ensures WellFormed(Run(cart, actions))
    decreases |actions|
  {
    if actions != [] {
      RunPreservesWellFormed(Apply(cart, actions[0]), actions[1..]);
    }
  }

  lemma ReachableCartsWellFormed(actions: seq<Action>)
    ensures WellFormed(Run(map[], actions))
  {
    RunPreservesWellFormed(map[], actions);
  }

  // ---------------------------------------------------------------------
  // Totals
  // ---------------------------------------------------------------------

  /** The summand of `totalItems`: the line's quantity. */
  function QtyOf(e: Entry): int { e.qty }

  /** The summand of `totalPrice`: the line's quantity times its price. */
  function LineTotal(e: Entry): int { e.qty * e.price }

  /** The line's stock, the most units it may hold. */
  function StockOf(e: Entry): int { e.stock }

  /** One per line, for counting lines. */
  function One(e: Entry): int { 1 }

  /** A non-empty cart has a line to pick. */
  lemma HasKey(cart: Cart)
    requires cart != map[]
    ensures exists k :: k in cart
  {
    if forall k :: k !in cart {
      assert false;
    }
  }

  /** Some key of a non-empty cart. */
  ghost function PickKey(cart: Cart): (k: int)
    requires cart != map[]
    ensures k in cart
  {
    HasKey(cart);
    var k :| k in cart; k
  }

  /** The sum of `f` over the lines of the cart, in no particular order. */
  ghost function Sum(cart: Cart, f: Entry -> int): int
    decreases |cart|
  {
    if cart == map[] then 0
    else
      var k := PickKey(cart);
      assert |cart - {k}| < |cart| by {
        assert (cart - {k}).Keys == cart.Keys - {k};
      }
      f(cart[k]) + Sum(cart - {k}, f)
  }

  /** Removing any one line first gives the same sum: the sum does not depend on order. */
  lemma {:induction false} SumRemove(cart: Cart, f: Entry -> int, k: int)
    requires k in cart
    ensures Sum(cart, f) == f(cart[k]) + Sum(cart - {k}, f)
    decreases |cart|
  {
    var j := PickKey(cart);
    assert (cart - {j}).Keys == cart.Keys - {j};
    assert Sum(cart, f) == f(cart[j]) + Sum(cart - {j}, f);
    if j != k {
      assert (cart - {k}).Keys == cart.Keys - {k};
      SumRemove(cart - {j}, f, k);
      SumRemove(cart - {k}, f, j);
      assert cart - {j} - {k} == cart - {k} - {j};
    }
  }

  /** Replacing or adding the line under `k`. */
  lemma SumUpdate(cart: Cart, f: Entry -> int, k: int, e: Entry)
    ensures Sum(cart[k := e], f) == Sum(cart, f) - (if k in cart then f(cart[k]) else 0) + f(e)
  {
    SumRemove(cart[k := e], f, k);
    if k in cart {
      SumRemove(cart, f, k);
      assert cart[k := e] - {k} == cart - {k};
    } else {
      assert cart[k := e] - {k} == cart;
    }
  }

  /** A larger summand on every line gives a larger sum. */
  lemma {:induction false} SumMonotone(cart: Cart, f: Entry -> int, g: Entry -> int)
    requires forall k :: k in cart ==> f(cart[k]) <= g(cart[k])
    ensures Sum(cart, f) <= Sum(cart, g)
    decreases |cart|
  {
    if cart != map[] {
      var k := PickKey(cart);
      assert (cart - {k}).Keys == cart.Keys - {k};
      SumMonotone(cart - {k}, f, g);
    }
  }

  /** Counting the lines. */
  lemma {:induction false} SumOne(cart: Cart)
    ensures Sum(cart, One) == |cart|
    decreases |cart|
  {
    if cart != map[] {
      var k := PickKey(cart);
      assert (cart - {k}).Keys == cart.Keys - {k};
      SumOne(cart - {k});
    }
  }

  /** `totalItems`: the number of units in the cart. */
  ghost function TotalItems(cart: Cart): int {
    Sum(cart, QtyOf)
  }

  /** `totalPrice`: the amount to pay, quantity times price summed over the lines. */
  ghost function TotalPrice(cart: Cart): int {
    Sum(cart, LineTotal)
  }

  /** In a well-formed cart there are at least as many units as lines and no more units
      than the lines' stock allows. */
  lemma TotalItemsBounds(cart: Cart)
    requires WellFormed(cart)
    ensures |cart| <= TotalItems(cart) <= Sum(cart, StockOf)
  {
    SumOne(cart);
    SumMonotone(cart, One, QtyOf);
    SumMonotone(cart, QtyOf, StockOf);
  }

  /** With no negative prices, a well-formed cart never costs less than nothing. */
  lemma TotalPriceNonNegative(cart: Cart)
    requires WellFormed(cart)
    requires forall id :: id in cart ==> cart[id].price >= 0
    ensures TotalPrice(cart) >= 0
  {
    assert Sum(cart, (e: Entry) => 0) == 0 by {
      ZeroSum(cart);
    }
    SumMonotone(cart, (e: Entry) => 0, LineTotal);
  }

  lemma {:induction false} ZeroSum(cart: Cart)
    ensures Sum(cart, (e: Entry) => 0) == 0
    decreases |cart|
  {
    if cart != map[] {
      var k := PickKey(cart);
      assert (cart - {k}).Keys == cart.Keys - {k};
      ZeroSum(cart - {k});
    }
  }

  // ---------------------------------------------------------------------
  // `Object.values(cart).reduce(...)`
  // ---------------------------------------------------------------------

  /** The lines listed in the order of `keys`. */
  function ValuesAt(cart: Cart, keys: seq<int>): seq<Entry>
    requires forall i :: 0 <= i < |keys| ==> keys[i] in cart
  {
    seq(|keys|, i requires 0 <= i < |keys| => cart[keys[i]])
  }

  /** `values.reduce((a, b) => a + f(b), 0)`, a left fold. */
  function Reduce(values: seq<Entry>, f: Entry -> int): int
    decreases |values|
  {
    if values == [] then 0 else Reduce(values[..|values| - 1], f) + f(values[|values| - 1])
  }

  /** `keys` lists every key of the cart exactly once. */
  ghost predicate Enumerates(keys: seq<int>, cart: Cart) {
    && (forall i, j :: 0 <= i < j < |keys| ==> keys[i] != keys[j])
    && (forall i :: 0 <= i < |keys| ==> keys[i] in cart)
    && (forall k :: k in cart ==> k in keys)
  }

  /** Folding over the values in any enumeration order gives the order-free sum, so the
      page's totals do not depend on the cart's key order. */
  lemma {:induction false} ReduceMatchesSum(cart: Cart, keys: seq<int>, f: Entry -> int)
    requires Enumerates(keys, cart)
    ensures Reduce(ValuesAt(cart, keys), f) == Sum(cart, f)
    decreases |keys|
  {
    if keys == [] {
      if cart != map[] {
        HasKey(cart);
        assert false;
      }
    } else {
      var n := |keys|;
      var k := keys[n - 1];
      var rest := cart - {k};
      var front := keys[..n - 1];
      assert k !in front;
      assert Enumerates(front, rest) by {
        forall x | x in rest ensures x in front {
          var i :| 0 <= i < n && keys[i] == x;
          assert i < n - 1;
        }
      }
      ReduceMatchesSum(rest, front, f);
      assert ValuesAt(cart, keys)[..n - 1] == ValuesAt(rest, front);
      SumRemove(cart, f, k);
    }
  }

  /** The totals as the page computes them, over any ordering of `Object.values(cart)`. */
  lemma TotalsAsReduce(cart: Cart, keys: seq<int>)
    requires Enumerates(keys, cart)
    ensures Reduce(ValuesAt(cart, keys), QtyOf) == TotalItems(cart)
    ensures Reduce(ValuesAt(cart, keys), LineTotal) == TotalPrice(cart)
  {
    ReduceMatchesSum(cart, keys, QtyOf);
    ReduceMatchesSum(cart, keys, LineTotal);
  }

  // ---------------------------------------------------------------------
  // How each handler moves the totals
  // ---------------------------------------------------------------------

  /** Distributing a price over a change in quantity. */
  lemma ScaleDifference(a: int, b: int, price: int)
    ensures a * price == b * price + (a - b) * price
  {
  }

  /** One more unit adds one price. */
  lemma ScaleSucc(q: int, price: int)
    ensures (q + 1) * price == q * price + price
  {
  }

  /** A successful add puts one more unit, at the product's price, in the cart. */
  lemma AddToCartTotals(cart: Cart, product: Product)
    requires product.id in cart ==> cart[product.id] == EntryOf(product, cart[product.id].qty)
    ensures var added := CurrentQty(cart, product.id) < product.stock;
      && TotalItems(AddToCart(cart, product)) == TotalItems(cart) + (if added then 1 else 0)
      && TotalPrice(AddToCart(cart, product)) == TotalPrice(cart) + (if added then product.price else 0)
  {
    var q := CurrentQty(cart, product.id);
    var r := AddToCart(cart, product);
    if q < product.stock {
      var e := EntryOf(product, q + 1);
      assert r == cart[product.id := e];
      var before := if product.id in cart then LineTotal(cart[product.id]) else 0;
      assert before == q * product.price by {
        if product.id in cart {
          assert cart[product.id].qty == q && cart[product.id].price == product.price;
        }
      }
      SumUpdate(cart, QtyOf, product.id, e);
      SumUpdate(cart, LineTotal, product.id, e);
      assert TotalPrice(r) == TotalPrice(cart) - before + LineTotal(e);
      assert LineTotal(e) == (q + 1) * product.price;
      ScaleSucc(q, product.price);
    }
  }

  /** An accepted quantity change moves the totals by the change in units. */
  lemma UpdateQtyTotals(cart: Cart, id: int, qty: int, stock: int)
    requires id in cart
    ensures var accepted := 1 <= qty <= stock;
      var delta := if accepted then qty - cart[id].qty else 0;
      && TotalItems(UpdateQty(cart, id, qty, stock)) == TotalItems(cart) + delta
      && TotalPrice(UpdateQty(cart, id, qty, stock)) == TotalPrice(cart) + delta * cart[id].price
  {
    if 1 <= qty <= stock {
      var e := cart[id].(qty := qty);
      SumUpdate(cart, QtyOf, id, e);
      SumUpdate(cart, LineTotal, id, e);
      ScaleDifference(qty, cart[id].qty, e.price);
    }
  }

  /** Removing a line takes its units and its amount out of the totals. */
  lemma RemoveItemTotals(cart: Cart, id: int)
    ensures TotalItems(RemoveItem(cart, id)) == TotalItems(cart) - CurrentQty(cart, id)
    ensures TotalPrice(RemoveItem(cart, id)) == TotalPrice(cart) - (if id in cart then LineTotal(cart[id]) else 0)
  {
    if id in cart {
      SumRemove(cart, QtyOf, id);
      SumRemove(cart, LineTotal, id);
    }
  }

  // ---------------------------------------------------------------------
  // Scenarios
  // ---------------------------------------------------------------------

  /** The empty cart totals (0, 0); one line of 2 units at 1500 totals (2, 3000). */
  lemma TotalsExamples()
    ensures TotalItems(map[]) == 0 && TotalPrice(map[]) == 0
    ensures var cart := map[5 := EntryOf(CHAIR, 2)];
      TotalItems(cart) == 2 && TotalPrice(cart) == 3000
  {
    var cart := map[5 := EntryOf(CHAIR, 2)];
    SumRemove(cart, QtyOf, 5);
    SumRemove(cart, LineTotal, 5);
    assert cart - {5} == map[];
  }

  /** The phone is out of stock: adding it to a cart without it changes nothing. */
  lemma PhoneCannotBeAdded(cart: Cart)
    requires PHONE.id !in cart
    ensures AddToCart(cart, PHONE) == cart
  {
  }

  /** The laptop added three times has quantity 3; setting it to 10 (over its stock of 5)
      is ignored; removing it empties the cart. */
  lemma LaptopSession()
    ensures var c := AddToCart(AddToCart(AddToCart(map[], LAPTOP), LAPTOP), LAPTOP);
      && c == map[1 := EntryOf(LAPTOP, 3)]
      && UpdateQty(c, 1, 10, 5) == c
      && RemoveItem(c, 1) == map[]
  {
    assert AddToCart(map[], LAPTOP) == map[1 := EntryOf(LAPTOP, 1)];
    assert AddToCart(map[1 := EntryOf(LAPTOP, 1)], LAPTOP) == map[1 := EntryOf(LAPTOP, 2)];
    assert AddToCart(map[1 := EntryOf(LAPTOP, 2)], LAPTOP) == map[1 := EntryOf(LAPTOP, 3)];
  }

  /** The table has 2 in stock: a third add is a no-op. */
  lemma TableStopsAtStock()
    ensures var c := AddToCart(AddToCart(map[], TABLE), TABLE);
      AddToCart(c, TABLE) == c && c[6].qty == 2
  {
    assert AddToCart(map[], TABLE) == map[6 := EntryOf(TABLE, 1)];
    assert AddToCart(map[6 := EntryOf(TABLE, 1)], TABLE) == map[6 := EntryOf(TABLE, 2)];
  }
}
