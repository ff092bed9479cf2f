/** Guest checkout (crates/web/src/routes/checkout.rs): a cart is expanded into unit order lines at current
  * catalog prices, the order is created in one transaction, and the cart is cleared in another. */
module Checkout {
  import opened Prelude
  import opened Cart
  import Orders
  import Projection

  type OrderItem = Orders.NewOrderItem

  /** `get_card_by_id`: the published product with this id. */
  type Lookup = string -> Option<CardView>

  predicate ById(lookup: Lookup, product: string) {
    lookup(product).Some? ==> lookup(product).value.id == product
  }

  /** One row for one unit. */
  function Unit(line: CartItem, card: CardView, id: string): OrderItem {
    Orders.NewOrderItem(id, "", card.id, card.seller, line.variant, card.title, card.price, card.currency)
  }

  /** The first `n` units of a line; their ids are the generated ones from `next` on. */
  function Units(line: CartItem, card: CardView, n: nat, uuid: nat -> string, next: nat): (units: seq<OrderItem>)
    ensures |units| == n
  {
    seq(n, i requires 0 <= i < n => Unit(line, card, uuid(next + i)))
  }

  /** The lines in order, each as many times as its quantity; or the first line that is no longer for sale. */
  function Expand(lines: seq<CartItem>, lookup: Lookup, uuid: nat -> string): Result<seq<OrderItem>, CartItem> {
    if lines == [] then Ok([]) else
    var before := Expand(lines[..|lines| - 1], lookup, uuid);
    var line := lines[|lines| - 1];
    if before.Err? then before
    else if lookup(line.product).None? then Err(line)
    else Ok(before.value + Units(line, lookup(line.product).value, Max(0, line.qty), uuid, |before.value|))
  }

  datatype Shop = Shop(carts: CartDb, orders: Orders.OrderDb)

  /** Which database calls fail: finding or listing the cart, the catalog lookup of one line; and how the commit
    * of the order and that of the clearing end. */
  datatype Outages = Outages(cart: bool, catalog: Option<nat>, order: Orders.Commit, clear: Orders.Commit)

  /** `contact` is `None` when the form does not validate. */
  datatype Submission = Submission(cookie: Option<string>, contact: Option<Orders.Contact>, orderId: string,
                                   buyer: string, uuid: nat -> string, outages: Outages, now: Int64)

  datatype Outcome =
    | RedirectToCart
    | Unreachable
    | InvalidContact
    | NotForSale(line: CartItem)
    | NothingToOrder
    | MixedCurrencies
    | OrderFailed(error: Orders.OrderError)
    | ClearFailed(order: string)
    | Done(order: string)

  predicate OneCurrencyIn(items: seq<OrderItem>, currency: string) {
    forall i :: 0 <= i < |items| ==> items[i].currency == currency
  }

  /** The catalog fails at a line that the expansion reaches. */
  predicate CatalogFails(lines: seq<CartItem>, lookup: Lookup, uuid: nat -> string, fails: Option<nat>) {
    fails.Some? && fails.value < |lines| && Expand(lines[..fails.value], lookup, uuid).Ok?
  }

  function Submit(shop: Shop, lookup: Lookup, s: Submission): (Shop, Outcome) {
    if s.cookie.Some? && s.outages.cart then (shop, Unreachable) else
    var cart := FindCart(shop.carts, s.cookie);
    if cart.None? then (shop, RedirectToCart) else
    var lines := ItemsOf(shop.carts.items, cart.value);
    if lines == [] then (shop, RedirectToCart)
    else if s.contact.None? then (shop, InvalidContact)
    else if CatalogFails(lines, lookup, s.uuid, s.outages.catalog) then (shop, Unreachable) else
    var expanded := Expand(lines, lookup, s.uuid);
    if expanded.Err? then (shop, NotForSale(expanded.error)) else
    var items := expanded.value;
    if items == [] then (shop, NothingToOrder)
    else if !OneCurrencyIn(items, items[0].currency) then (shop, MixedCurrencies) else
    var (orders, failure) := Orders.Attempt(shop.orders, s.orderId, s.buyer, items[0].currency, items, s.contact,
        s.now, s.outages.order);
    if failure.Some? then (shop.(orders := orders), OrderFailed(failure.value))
    else (Shop(AfterClearing(shop.carts, cart.value, s), orders),
          if s.outages.clear.Committed? then Done(s.orderId) else ClearFailed(s.orderId))
  }

  function AfterClearing(carts: CartDb, cart: string, s: Submission): CartDb {
    if s.outages.clear.RolledBack? then carts else Clear(carts, cart, s.now)
  }

  // -----------------------------------------------------------------
  // Conservation
  // -----------------------------------------------------------------

  /** How many rows are units of this product and variant. */
  function CountUnits(items: seq<OrderItem>, product: string, variant: Option<string>): nat {
    if items == [] then 0
    else CountUnits(items[..|items| - 1], product, variant) +
         if items[|items| - 1].product == product && items[|items| - 1].variant == variant then 1 else 0
  }

  lemma {:induction false} CountUnitsConcat(a: seq<OrderItem>, b: seq<OrderItem>, product: string,
      variant: Option<string>)
    ensures CountUnits(a + b, product, variant) == CountUnits(a, product, variant) + CountUnits(b, product, variant)
  {
    if b == [] {
      assert a + b == a;
    } else {
      assert (a + b)[..|a + b| - 1] == a + b[..|b| - 1];
      CountUnitsConcat(a, b[..|b| - 1], product, variant);
    }
  }

  lemma {:induction false} CountUnitsOfLine(line: CartItem, card: CardView, n: nat, uuid: nat -> string, next: nat,
      product: string, variant: Option<string>)
    ensures CountUnits(Units(line, card, n, uuid, next), product, variant) ==
            if card.id == product && line.variant == variant then n else 0
  {
    if n > 0 {
      assert Units(line, card, n, uuid, next)[..n - 1] == Units(line, card, n - 1, uuid, next);
      assert Units(line, card, n, uuid, next)[n - 1] == Unit(line, card, uuid(next + (n - 1)));
      CountUnitsOfLine(line, card, n - 1, uuid, next, product, variant);
    }
  }

  /** What a list of cart lines asks for in all, by product and variant. */
  function Wanted(lines: seq<CartItem>, product: string, variant: Option<string>): nat {
    if lines == [] then 0
    else Wanted(lines[..|lines| - 1], product, variant) +
         var line := lines[|lines| - 1];
         if line.product == product && line.variant == variant then Max(0, line.qty) else 0
  }

  lemma {:induction false} WantedIsQty(lines: seq<CartItem>, k: nat)
    requires k < |lines| && KeysDistinct(lines) && (forall i :: 0 <= i < |lines| ==> lines[i].cart == lines[k].cart)
    ensures Wanted(lines, lines[k].product, lines[k].variant) == Max(0, lines[k].qty)
  {
    var init, last := lines[..|lines| - 1], lines[|lines| - 1];
    if k < |init| {
      WantedIsQty(init, k);
      assert !SameKey(lines[k], last.cart, last.product, last.variant);
    } else {
      forall i | 0 <= i < |init|
        ensures !(init[i].product == last.product && init[i].variant == last.variant)
      {
        assert !SameKey(lines[i], last.cart, last.product, last.variant);
      }
      WantedNone(init, last.product, last.variant);
    }
  }

  lemma {:induction false} WantedNone(lines: seq<CartItem>, product: string, variant: Option<string>)
    requires forall i :: 0 <= i < |lines| ==> !(lines[i].product == product && lines[i].variant == variant)
    ensures Wanted(lines, product, variant) == 0
  {
    if lines != [] {
      WantedNone(lines[..|lines| - 1], product, variant);
    }
  }

  /** The current price of everything in the cart. */
  function CurrentTotal(lines: seq<CartItem>, lookup: Lookup): int {
    if lines == [] then 0 else
    var line := lines[|lines| - 1];
    CurrentTotal(lines[..|lines| - 1], lookup) +
        if lookup(line.product).Some? then lookup(line.product).value.price * Max(0, line.qty) else 0
  }

  lemma {:induction false} SumPricesConcat(a: seq<OrderItem>, b: seq<OrderItem>)
    ensures Orders.SumPrices(a + b) == Orders.SumPrices(a) + Orders.SumPrices(b)
  {
    if b == [] {
      assert a + b == a;
    } else {
      assert (a + b)[..|a + b| - 1] == a + b[..|b| - 1];
      SumPricesConcat(a, b[..|b| - 1]);
    }
  }

  lemma {:induction false} SumPricesOfLine(line: CartItem, card: CardView, n: nat, uuid: nat -> string, next: nat)
    ensures Orders.SumPrices(Units(line, card, n, uuid, next)) == card.price * n
  {
    if n > 0 {
      assert Units(line, card, n, uuid, next)[..n - 1] == Units(line, card, n - 1, uuid, next);
      assert Units(line, card, n, uuid, next)[n - 1] == Unit(line, card, uuid(next + (n - 1)));
      SumPricesOfLine(line, card, n - 1, uuid, next);
      assert card.price * (n - 1) + card.price == card.price * n;
    }
  }

  /** The unit carries the current catalog data and the variant of line `k`. */
  predicate SnapshotOf(u: OrderItem, lines: seq<CartItem>, k: int, lookup: Lookup)
    requires 0 <= k < |lines|
  {
    && lookup(lines[k].product).Some?
    && var card := lookup(lines[k].product).value;
       && u.product == card.id && u.seller == card.seller && u.variant == lines[k].variant
       && u.title == card.title && u.price == card.price && u.currency == card.currency
  }

  predicate HasLine(u: OrderItem, lines: seq<CartItem>, lookup: Lookup) {
    exists k :: 0 <= k < |lines| && SnapshotOf(u, lines, k, lookup)
  }

  lemma {:induction false} ExpandCounts(lines: seq<CartItem>, lookup: Lookup, uuid: nat -> string, product: string,
      variant: Option<string>)
    requires Expand(lines, lookup, uuid).Ok? && forall p :: ById(lookup, p)
    ensures CountUnits(Expand(lines, lookup, uuid).value, product, variant) == Wanted(lines, product, variant)
  {
    if lines != [] {
      var init, line := lines[..|lines| - 1], lines[|lines| - 1];
      var before, card := Expand(init, lookup, uuid).value, lookup(line.product).value;
      ExpandCounts(init, lookup, uuid, product, variant);
      assert ById(lookup, line.product);
      CountUnitsConcat(before, Units(line, card, Max(0, line.qty), uuid, |before|), product, variant);
      CountUnitsOfLine(line, card, Max(0, line.qty), uuid, |before|, product, variant);
    }
  }

  lemma {:induction false} ExpandSums(lines: seq<CartItem>, lookup: Lookup, uuid: nat -> string)
    requires Expand(lines, lookup, uuid).Ok?
    ensures Orders.SumPrices(Expand(lines, lookup, uuid).value) == CurrentTotal(lines, lookup)
  {
    if lines != [] {
      var init, line := lines[..|lines| - 1], lines[|lines| - 1];
      var before, card := Expand(init, lookup, uuid).value, lookup(line.product).value;
      ExpandSums(init, lookup, uuid);
      SumPricesConcat(before, Units(line, card, Max(0, line.qty), uuid, |before|));
      SumPricesOfLine(line, card, Max(0, line.qty), uuid, |before|);
    }
  }

  lemma {:induction false} ExpandSnapshots(lines: seq<CartItem>, lookup: Lookup, uuid: nat -> string)
    requires Expand(lines, lookup, uuid).Ok?
    ensures var items := Expand(lines, lookup, uuid).value;
            forall i :: 0 <= i < |items| ==> HasLine(items[i], lines, lookup) && items[i].order == ""
  {
    if lines != [] {
      var init, line := lines[..|lines| - 1], lines[|lines| - 1];
      var before, items := Expand(init, lookup, uuid).value, Expand(lines, lookup, uuid).value;
      ExpandSnapshots(init, lookup, uuid);
      forall i | 0 <= i < |items|
        ensures HasLine(items[i], lines, lookup) && items[i].order == ""
      {
        if i < |before| {
          assert HasLine(before[i], init, lookup);
          var k :| 0 <= k < |init| && SnapshotOf(before[i], init, k, lookup);
          assert lines[k] == init[k] && items[i] == before[i];
          assert SnapshotOf(items[i], lines, k, lookup);
        } else {
          assert items[i] == Unit(line, lookup(line.product).value, uuid(|before| + (i - |before|)));
          assert SnapshotOf(items[i], lines, |init|, lookup);
        }
      }
    }
  }

  /** The units get the generated ids one after the other. */
  lemma {:induction false} ExpandIds(lines: seq<CartItem>, lookup: Lookup, uuid: nat -> string)
    requires Expand(lines, lookup, uuid).Ok?
    ensures var items := Expand(lines, lookup, uuid).value; forall i :: 0 <= i < |items| ==> items[i].id == uuid(i)
  {
    if lines != [] {
      var init, line := lines[..|lines| - 1], lines[|lines| - 1];
      var before, items := Expand(init, lookup, uuid).value, Expand(lines, lookup, uuid).value;
      ExpandIds(init, lookup, uuid);
      forall i | 0 <= i < |items|
        ensures items[i].id == uuid(i)
      {
        if i < |before| {
          assert items[i] == before[i];
        } else {
          assert items[i] == Unit(line, lookup(line.product).value, uuid(|before| + (i - |before|)));
        }
      }
    }
  }

  /** What a successful submit does to the orders, in terms of the cart it started from. */
  predicate Conserved(before: Orders.OrderDb, after: Orders.OrderDb, lines: seq<CartItem>, lookup: Lookup,
      s: Submission) {
    var n, order := |before.items|, s.orderId;
    && lines != [] && s.contact.Some? && order !in before.orders
    // nothing but the new order changes
    && n <= |after.items| && after.items[..n] == before.items
    && order in after.orders && after.orders == before.orders[order := after.orders[order]]
    // exactly q unit rows for each line of quantity q, each a snapshot of the current catalog entry
    && (forall i :: n <= i < |after.items| ==> after.items[i].order == order)
    && (forall k :: 0 <= k < |lines| ==>
        CountUnits(after.items[n..], lines[k].product, lines[k].variant) == lines[k].qty)
    && (forall i :: n <= i < |after.items| ==> HasLine(after.items[i].(order := ""), lines, lookup))
    // the total, one currency, one contact, one event
    && after.orders[order].total == CurrentTotal(lines, lookup)
    && (forall i :: n <= i < |after.items| ==> after.items[i].currency == after.orders[order].currency)
    && after.contacts == before.contacts[order := s.contact.value]
    && after.outbox == before.outbox + [Orders.OrderCreated(order, s.buyer, after.orders[order].currency)]
  }

  /** A successful submit creates, for each cart line of quantity q, exactly q unit rows with the current
    * catalog data and the line's variant; the order's total is the sum of current price times quantity; one
    * currency, one contact, one event, an emptied cart; other orders and other carts stay as they were. */
  lemma CheckoutConserves(shop: Shop, lookup: Lookup, s: Submission)
    requires CartInv(shop.carts) && Orders.Ledger(shop.orders)
    requires forall p :: ById(lookup, p)
    requires Submit(shop, lookup, s).1.Done?
    ensures s.cookie.Some? && Submit(shop, lookup, s).1.order == s.orderId
    ensures Conserved(shop.orders, Submit(shop, lookup, s).0.orders, ItemsOf(shop.carts.items, s.cookie.value),
        lookup, s)
    ensures Emptied(shop.carts, Submit(shop, lookup, s).0.carts, s.cookie.value)
  {
    var lines := ItemsOf(shop.carts.items, s.cookie.value);
    OrderConserves(shop, lookup, s, lines, Expand(lines, lookup, s.uuid).value);
    ClearingEmpties(shop.carts, s.cookie.value, s.now);
  }

  /** The cart has no items any more, and no other cart has changed. */
  ghost predicate Emptied(before: CartDb, after: CartDb, cart: string) {
    && ItemsOf(after.items, cart) == []
    && forall other :: other != cart ==> SameCart(before, after, other)
  }

  predicate SameCart(before: CartDb, after: CartDb, cart: string) {
    && ItemsOf(after.items, cart) == ItemsOf(before.items, cart)
    && (cart in after.carts <==> cart in before.carts)
    && (cart in before.carts ==> after.carts[cart] == before.carts[cart])
  }

  lemma ClearingEmpties(db: CartDb, cart: string, now: Int64)
    ensures Emptied(db, Clear(db, cart, now), cart)
  {
    ClearEmpties(db, cart, now);
    forall other | other != cart
      ensures SameCart(db, Clear(db, cart, now), other)
    {
      CallsAreIsolated(db, OpClear(cart), now, other);
    }
  }

  lemma OrderConserves(shop: Shop, lookup: Lookup, s: Submission, lines: seq<CartItem>, items: seq<OrderItem>)
    requires CartInv(shop.carts) && Orders.Ledger(shop.orders) && s.cookie.Some? && s.contact.Some?
    requires lines == ItemsOf(shop.carts.items, s.cookie.value)
    requires Expand(lines, lookup, s.uuid) == Ok(items) && items != [] && forall p :: ById(lookup, p)
    requires Orders.Checkout(shop.orders, s.orderId, s.buyer, items[0].currency, items, s.contact, s.now).Ok?
    ensures Conserved(shop.orders,
        Orders.Checkout(shop.orders, s.orderId, s.buyer, items[0].currency, items, s.contact, s.now).value,
                      lines, lookup, s)
  {
    var before := shop.orders;
    var after := Orders.Checkout(before, s.orderId, s.buyer, items[0].currency, items, s.contact, s.now).value;
    var n := |before.items|;
    Orders.CheckoutEffect(before, s.orderId, s.buyer, items[0].currency, items, s.contact, s.now);
    ExpandSums(lines, lookup, s.uuid);
    ExpandSnapshots(lines, lookup, s.uuid);
    assert after.items[n..] == Orders.Filed(items, s.orderId);
    forall k | 0 <= k < |lines|
      ensures CountUnits(after.items[n..], lines[k].product, lines[k].variant) == lines[k].qty
    {
      LineCount(shop, lookup, s, lines, items, k);
    }
    forall i | n <= i < |after.items|
      ensures after.items[i].order == s.orderId && HasLine(after.items[i].(order := ""), lines, lookup)
      ensures after.items[i].currency == items[0].currency
    {
      assert after.items[i] == Orders.Filed(items, s.orderId)[i - n];
      assert after.items[i].(order := "") == items[i - n];
    }
  }

  lemma {:induction false} FilingKeepsCount(items: seq<OrderItem>, order: string, product: string,
      variant: Option<string>)
    ensures CountUnits(Orders.Filed(items, order), product, variant) == CountUnits(items, product, variant)
  {
    if items != [] {
      assert Orders.Filed(items, order)[..|items| - 1] == Orders.Filed(items[..|items| - 1], order);
      FilingKeepsCount(items[..|items| - 1], order, product, variant);
    }
  }

  lemma LineCount(shop: Shop, lookup: Lookup, s: Submission, lines: seq<CartItem>, items: seq<OrderItem>, k: nat)
    requires CartInv(shop.carts) && s.cookie.Some? && lines == ItemsOf(shop.carts.items, s.cookie.value) && k < |lines|
    requires Expand(lines, lookup, s.uuid) == Ok(items) && forall p :: ById(lookup, p)
    ensures CountUnits(Orders.Filed(items, s.orderId), lines[k].product, lines[k].variant) == lines[k].qty
  {
    ListMeaning(shop.carts, s.cookie.value);
    FilingKeepsCount(items, s.orderId, lines[k].product, lines[k].variant);
    ExpandCounts(lines, lookup, s.uuid, lines[k].product, lines[k].variant);
    assert forall i :: 0 <= i < |lines| ==> lines[i] in lines;
    assert lines[k] in shop.carts.items;
    WantedIsQty(lines, k);
  }

  /** The expansion succeeds exactly when every line is still for sale. */
  lemma {:induction false} ExpandSucceedsExactly(lines: seq<CartItem>, lookup: Lookup, uuid: nat -> string)
    ensures Expand(lines, lookup, uuid).Ok? <==> forall i :: 0 <= i < |lines| ==> lookup(lines[i].product).Some?
  {
    if lines != [] {
      ExpandSucceedsExactly(lines[..|lines| - 1], lookup, uuid);
    }
  }

  /** `get_card_by_id` over the projection: unpublished products are not found. */
  function PublishedCard(t: Projection.Tables, id: string): Option<CardView> {
    if id in t.cards && t.cards[id].status == Projection.PUBLISHED
    then Some(CardView(id, t.cards[id].seller, t.cards[id].title, t.cards[id].price, t.cards[id].currency))
    else None
  }

  /** What the lines cost at the catalog's prices. */
  function CatalogTotal(t: Projection.Tables, lines: seq<CartItem>): int
    requires forall i :: 0 <= i < |lines| ==> lines[i].product in t.cards
  {
    if lines == [] then 0 else
    var last := lines[|lines| - 1];
    assert last.product in t.cards;
    CatalogTotal(t, lines[..|lines| - 1]) + t.cards[last.product].price * last.qty
  }

  lemma {:induction false} CurrentTotalAtCatalog(t: Projection.Tables, lines: seq<CartItem>)
    requires forall i :: 0 <= i < |lines| ==>
               lines[i].product in t.cards && t.cards[lines[i].product].status == "published" && lines[i].qty >= 0
    ensures CurrentTotal(lines, p => PublishedCard(t, p)) == CatalogTotal(t, lines)
  {
    if lines != [] {
      CurrentTotalAtCatalog(t, lines[..|lines| - 1]);
    }
  }

  /** The order row is a unit of a product of the catalog, as the catalog shows it. */
  predicate SoldAsShown(t: Projection.Tables, u: OrderItem) {
    && u.product in t.cards && u.seller == t.cards[u.product].seller && u.title == t.cards[u.product].title
    && u.price == t.cards[u.product].price && u.currency == t.cards[u.product].currency
  }

  /** Against a catalog: everything in the cart is published, every order row has the seller, title, price and
    * currency that the catalog shows of its product, and the total is that of the catalog's prices. */
  lemma CheckoutAtCatalogPrices(shop: Shop, t: Projection.Tables, s: Submission)
    requires CartInv(shop.carts) && Orders.Ledger(shop.orders)
    requires Submit(shop, p => PublishedCard(t, p), s).1.Done?
    ensures s.cookie.Some?
    ensures var lines := ItemsOf(shop.carts.items, s.cookie.value);
            var after := Submit(shop, p => PublishedCard(t, p), s).0.orders;
            && (forall i :: 0 <= i < |lines| ==>
                  lines[i].product in t.cards && t.cards[lines[i].product].status == "published")
            && (forall i :: |shop.orders.items| <= i < |after.items| ==> SoldAsShown(t, after.items[i]))
            && s.orderId in after.orders && after.orders[s.orderId].total == CatalogTotal(t, lines)
            && Conserved(shop.orders, after, lines, p => PublishedCard(t, p), s)
  {
    var lookup: Lookup := p => PublishedCard(t, p);
    var lines, after := ItemsOf(shop.carts.items, s.cookie.value), Submit(shop, lookup, s).0.orders;
    assert forall p :: ById(lookup, p);
    CheckoutConserves(shop, lookup, s);
    ExpandSucceedsExactly(lines, lookup, s.uuid);
    QuantitiesArePositive(shop.carts, s.cookie.value);
    CurrentTotalAtCatalog(t, lines);
    forall i | |shop.orders.items| <= i < |after.items|
      ensures SoldAsShown(t, after.items[i])
    {
      assert HasLine(after.items[i].(order := ""), lines, lookup);
      var k :| 0 <= k < |lines| && SnapshotOf(after.items[i].(order := ""), lines, k, lookup);
    }
  }

  lemma QuantitiesArePositive(db: CartDb, cart: string)
    requires CartInv(db)
    ensures forall i :: 0 <= i < |ItemsOf(db.items, cart)| ==> ItemsOf(db.items, cart)[i].qty >= 1
  {
    ListMeaning(db, cart);
    forall i | 0 <= i < |ItemsOf(db.items, cart)|
      ensures ItemsOf(db.items, cart)[i].qty >= 1
    {
      assert ItemsOf(db.items, cart)[i] in db.items;
    }
  }

  lemma {:induction false} FirstUnavailable(lines: seq<CartItem>, lookup: Lookup, uuid: nat -> string, k: nat)
    requires k < |lines| && lookup(lines[k].product).None? && forall i :: 0 <= i < k ==> lookup(lines[i].product).Some?
    ensures Expand(lines, lookup, uuid) == Err(lines[k])
  {
    if k == |lines| - 1 {
      ExpandSucceedsExactly(lines[..k], lookup, uuid);
    } else {
      FirstUnavailable(lines[..|lines| - 1], lookup, uuid, k);
    }
  }

  /** A line whose product is missing from the catalog, or in it but not published, stops the checkout: the first
    * such line is named, and nothing changes. */
  lemma UnavailableIsRefused(shop: Shop, t: Projection.Tables, s: Submission, k: nat)
    requires s.cookie.Some? && s.cookie.value in shop.carts.carts && s.contact.Some?
    requires !s.outages.cart && s.outages.catalog.None?
    requires var lines := ItemsOf(shop.carts.items, s.cookie.value);
             && k < |lines| && !(lines[k].product in t.cards && t.cards[lines[k].product].status == "published")
             && forall i :: 0 <= i < k ==>
                  lines[i].product in t.cards && t.cards[lines[i].product].status == "published"
    ensures Submit(shop, p => PublishedCard(t, p), s)
         == (shop, NotForSale(ItemsOf(shop.carts.items, s.cookie.value)[k]))
  {
    FirstUnavailable(ItemsOf(shop.carts.items, s.cookie.value), p => PublishedCard(t, p), s.uuid, k);
  }

  lemma {:induction false} ExpandIsLong(lines: seq<CartItem>, lookup: Lookup, uuid: nat -> string)
    requires Expand(lines, lookup, uuid).Ok? && forall i :: 0 <= i < |lines| ==> lines[i].qty >= 1
    ensures |Expand(lines, lookup, uuid).value| >= |lines|
  {
    if lines != [] {
      ExpandIsLong(lines[..|lines| - 1], lookup, uuid);
    }
  }

  /** When a submit succeeds: the visitor has a cart with something in it, the form is valid, every line is for
    * sale, all units can be ordered under one new order, and no database call or commit fails. */
  lemma SubmitSucceedsExactly(shop: Shop, lookup: Lookup, s: Submission)
    requires CartInv(shop.carts) && Orders.Ledger(shop.orders)
    ensures Submit(shop, lookup, s).1.Done? <==>
            && s.cookie.Some? && s.cookie.value in shop.carts.carts && s.contact.Some?
            && var lines := ItemsOf(shop.carts.items, s.cookie.value);
               && lines != [] && (forall i :: 0 <= i < |lines| ==> lookup(lines[i].product).Some?)
               && Expand(lines, lookup, s.uuid).Ok?
               && var units := Expand(lines, lookup, s.uuid).value;
                  && units != [] && (forall i :: 0 <= i < |units| ==> units[i].id == s.uuid(i))
                  && Orders.Orderable(shop.orders, s.orderId, units[0].currency, units, s.contact)
                  && !s.outages.cart && (s.outages.catalog.None? || s.outages.catalog.value >= |lines|)
                  && s.outages.order.Committed? && s.outages.clear.Committed?
  {
    if s.cookie.Some? && s.cookie.value in shop.carts.carts {
      var lines := ItemsOf(shop.carts.items, s.cookie.value);
      var expanded := Expand(lines, lookup, s.uuid);
      ExpandSucceedsExactly(lines, lookup, s.uuid);
      QuantitiesArePositive(shop.carts, s.cookie.value);
      if expanded.Ok? {
        ExpandIsLong(lines, lookup, s.uuid);
        ExpandIds(lines, lookup, s.uuid);
        if s.outages.catalog.Some? && s.outages.catalog.value < |lines| {
          ExpandSucceedsExactly(lines[..s.outages.catalog.value], lookup, s.uuid);
        }
        if expanded.value != [] {
          Orders.CheckoutSucceedsExactly(shop.orders, s.orderId, s.buyer, expanded.value[0].currency, expanded.value,
                                         s.contact, s.now);
        }
      }
    }
  }

  /** What a submit answers before it looks at the catalog: a visitor without a cart, or with an empty one, is sent
    * to the cart page; one whose contact does not validate gets the form back; and nothing changes. */
  lemma EarlyAnswers(shop: Shop, lookup: Lookup, s: Submission)
    requires s.cookie.Some? ==> !s.outages.cart
    ensures var (shop', outcome) := Submit(shop, lookup, s);
            var empty := s.cookie.None? || s.cookie.value !in shop.carts.carts
                         || forall row :: row in shop.carts.items ==> row.cart != s.cookie.value;
            && (outcome == RedirectToCart <==> empty)
            && (outcome == InvalidContact <==> !empty && s.contact.None?)
            && (empty || s.contact.None? ==> shop' == shop)
  {
    if s.cookie.Some? {
      ItemsOfIsSubsequence(shop.carts.items, s.cookie.value);
      var lines := ItemsOf(shop.carts.items, s.cookie.value);
      if lines != [] {
        var at := SubsequenceFrom(lines, shop.carts.items);
        assert shop.carts.items[at[0]] == lines[0] && lines[0].cart == s.cookie.value;
      }
    }
  }

  /** When the lines are for sale but not all in one currency, the submit is refused and nothing changes. */
  lemma MixedIsRefused(shop: Shop, t: Projection.Tables, s: Submission, i: nat, j: nat)
    requires CartInv(shop.carts)
    requires s.cookie.Some? && s.cookie.value in shop.carts.carts && s.contact.Some?
    requires !s.outages.cart && s.outages.catalog.None?
    requires var lines := ItemsOf(shop.carts.items, s.cookie.value);
             && (forall k :: 0 <= k < |lines| ==>
                   lines[k].product in t.cards && t.cards[lines[k].product].status == "published")
             && i < |lines| && j < |lines|
             && t.cards[lines[i].product].currency != t.cards[lines[j].product].currency
    ensures Submit(shop, p => PublishedCard(t, p), s) == (shop, MixedCurrencies)
  {
    var lines, lookup: Lookup := ItemsOf(shop.carts.items, s.cookie.value), p => PublishedCard(t, p);
    ExpandSucceedsExactly(lines, lookup, s.uuid);
    QuantitiesArePositive(shop.carts, s.cookie.value);
    var a := LineHasUnit(lines, lookup, s.uuid, i);
    var b := LineHasUnit(lines, lookup, s.uuid, j);
  }

  lemma {:induction false} LineHasUnit(lines: seq<CartItem>, lookup: Lookup, uuid: nat -> string, k: nat)
    returns (i: nat)
    requires Expand(lines, lookup, uuid).Ok? && k < |lines| && lines[k].qty >= 1 && lookup(lines[k].product).Some?
    ensures i < |Expand(lines, lookup, uuid).value|
    ensures Expand(lines, lookup, uuid).value[i].currency == lookup(lines[k].product).value.currency
  {
    var init, items := lines[..|lines| - 1], Expand(lines, lookup, uuid).value;
    var before := Expand(init, lookup, uuid).value;
    if k == |init| {
      i := |before|;
      assert items[i] == Unit(lines[k], lookup(lines[k].product).value, uuid(|before| + 0));
    } else {
      i := LineHasUnit(init, lookup, uuid, k);
      assert items[i] == before[i];
    }
  }

  /** All or nothing, on every path: the orders are as they were, or they hold one complete order for the
    * whole cart; the carts are as they were, or that order stands and its cart is empty. Success is answered
    * exactly when the cart was cleared by a commit that was reported as such. The order can stand with the cart
    * still full in two ways only: its clearing was rolled back, or the order's commit was reported as failed
    * although it was durable. */
  lemma SubmitIsAllOrNothing(shop: Shop, lookup: Lookup, s: Submission)
    requires CartInv(shop.carts) && Orders.Ledger(shop.orders) && forall p :: ById(lookup, p)
    ensures var (shop', outcome) := Submit(shop, lookup, s);
            var ordered, cleared := shop'.orders != shop.orders, shop'.carts != shop.carts;
            && (ordered ==> s.cookie.Some? && Conserved(shop.orders, shop'.orders,
                    ItemsOf(shop.carts.items, s.cookie.value), lookup, s))
            && (cleared ==> ordered && Emptied(shop.carts, shop'.carts, s.cookie.value))
            && (outcome.Done? <==> cleared && s.outages.clear.Committed?)
            && (outcome.ClearFailed? <==> ordered && s.outages.order.Committed? && !s.outages.clear.Committed?)
            && (ordered && !cleared <==>
                (outcome.ClearFailed? && s.outages.clear.RolledBack?) || (ordered && s.outages.order.Unreported?))
            && (ordered && s.outages.order.Unreported? ==> outcome == OrderFailed(Orders.DatabaseFailed))
  {
    var (shop', outcome) := Submit(shop, lookup, s);
    if outcome.Done? || outcome.ClearFailed? || shop'.orders != shop.orders {
      var lines := ItemsOf(shop.carts.items, s.cookie.value);
      OrderConserves(shop, lookup, s, lines, Expand(lines, lookup, s.uuid).value);
      assert s.orderId in shop'.orders.orders && s.orderId !in shop.orders.orders;
      ClearingEmpties(shop.carts, s.cookie.value, s.now);
      assert ItemsOf(Clear(shop.carts, s.cookie.value, s.now).items, s.cookie.value) != lines;
    }
  }

  // -----------------------------------------------------------------
  // The total on the page
  // -----------------------------------------------------------------

  function Saturate(n: int): Int64 {
    if n > INT64_MAX then INT64_MAX else if n < INT64_MIN then INT64_MIN else n
  }

  /** The fold of `summary_table` and `cart_table`: `saturating_mul` inside `saturating_add`. */
  function ShownTotal(lines: seq<CartItem>): Int64 {
    if lines == [] then 0
    else Saturate(ShownTotal(lines[..|lines| - 1]) + Saturate(lines[|lines| - 1].price * lines[|lines| - 1].qty))
  }

  function ExactTotal(lines: seq<CartItem>): int {
    if lines == [] then 0
    else ExactTotal(lines[..|lines| - 1]) + lines[|lines| - 1].price * lines[|lines| - 1].qty
  }

  /** For non-negative prices the shown total is exact up to the largest `i64`. */
  lemma {:induction false} ShownTotalIsExactToTheBound(lines: seq<CartItem>)
    requires forall i :: 0 <= i < |lines| ==> lines[i].price >= 0 && lines[i].qty >= 0
    ensures ExactTotal(lines) >= 0 && ShownTotal(lines) == Min(ExactTotal(lines), INT64_MAX)
  {
    if lines != [] {
      ShownTotalIsExactToTheBound(lines[..|lines| - 1]);
      ProductNonNegative(lines[|lines| - 1].price, lines[|lines| - 1].qty);
    }
  }

  lemma ProductNonNegative(a: int, b: int)
    requires a >= 0 && b >= 0
    ensures a * b >= 0
  {
  }

  /** The cart still shows what the catalog says. */
  predicate UpToDate(lines: seq<CartItem>, lookup: Lookup) {
    forall i :: 0 <= i < |lines| ==>
        lookup(lines[i].product).Some? && lookup(lines[i].product).value.price == lines[i].price
  }

  lemma {:induction false} UpToDateTotals(lines: seq<CartItem>, lookup: Lookup)
    requires UpToDate(lines, lookup) && forall i :: 0 <= i < |lines| ==> lines[i].qty >= 0
    ensures CurrentTotal(lines, lookup) == ExactTotal(lines)
  {
    if lines != [] {
      UpToDateTotals(lines[..|lines| - 1], lookup);
    }
  }

  /** When the cart is up to date and its total fits, the order costs what the page showed. */
  lemma OrderCostsWhatWasShown(shop: Shop, lookup: Lookup, s: Submission)
    requires CartInv(shop.carts) && Orders.Ledger(shop.orders)
    requires (forall p :: ById(lookup, p)) && Submit(shop, lookup, s).1.Done?
    requires var lines := ItemsOf(shop.carts.items, s.cookie.value);
             && UpToDate(lines, lookup) && ExactTotal(lines) <= INT64_MAX
             && forall i :: 0 <= i < |lines| ==> lines[i].price >= 0
    ensures var (shop', outcome) := Submit(shop, lookup, s);
            && outcome.order in shop'.orders.orders
            && shop'.orders.orders[outcome.order].total == ShownTotal(ItemsOf(shop.carts.items, s.cookie.value))
  {
    var lines := ItemsOf(shop.carts.items, s.cookie.value);
    CheckoutConserves(shop, lookup, s);
    ListMeaning(shop.carts, s.cookie.value);
    forall i | 0 <= i < |lines|
      ensures lines[i].qty >= 0
    {
      assert lines[i] in shop.carts.items;
    }
    UpToDateTotals(lines, lookup);
    ShownTotalIsExactToTheBound(lines);
  }

  // -----------------------------------------------------------------
  // The handler
  // -----------------------------------------------------------------

  method SumShown(lines: seq<CartItem>) returns (total: Int64)
    ensures total == ShownTotal(lines)
  {
    total := 0;
    for k := 0 to |lines|
      invariant total == ShownTotal(lines[..k])
    {
      assert lines[..k + 1][..k] == lines[..k];
      total := Saturate(total + Saturate(lines[k].price * lines[k].qty));
    }
    assert lines[..|lines|] == lines;
  }

  /** The nested loops of `render_submit`; `None` when the catalog fails at line `fails`. */
  method BuildOrderItems(lines: seq<CartItem>, lookup: Lookup, uuid: nat -> string, fails: Option<nat>)
    returns (r: Option<Result<seq<OrderItem>, CartItem>>)
    ensures r == if CatalogFails(lines, lookup, uuid, fails) then None else Some(Expand(lines, lookup, uuid))
  {
    var items: seq<OrderItem> := [];
    for k := 0 to |lines|
      invariant Expand(lines[..k], lookup, uuid) == Ok(items)
      invariant fails.Some? ==> fails.value >= k
    {
      assert lines[..k + 1][..k] == lines[..k];
      if fails == Some(k) {
        return None;
      }
      var line := lines[k];
      var card := lookup(line.product);
      if card.None? {
        UnavailableStays(lines, lookup, uuid, k + 1);
        if fails.Some? && fails.value < |lines| {
          assert lines[..fails.value][..k + 1] == lines[..k + 1];
          UnavailableStays(lines[..fails.value], lookup, uuid, k + 1);
        }
        return Some(Err(line));
      }
      var built, n := items, 0;
      while n < line.qty
        invariant 0 <= n <= Max(0, line.qty)
        invariant items == built + Units(line, card.value, n, uuid, |built|)
      {
        items := items + [Unit(line, card.value, uuid(|items|))];
        n := n + 1;
      }
    }
    assert lines[..|lines|] == lines;
    return Some(Ok(items));
  }

  lemma {:induction false} UnavailableStays(lines: seq<CartItem>, lookup: Lookup, uuid: nat -> string, k: nat)
    requires k <= |lines| && Expand(lines[..k], lookup, uuid).Err?
    ensures Expand(lines, lookup, uuid) == Expand(lines[..k], lookup, uuid)
    decreases |lines| - k
  {
    if k == |lines| {
      assert lines[..k] == lines;
    } else {
      assert lines[..k + 1][..k] == lines[..k];
      UnavailableStays(lines, lookup, uuid, k + 1);
    }
  }

  method RenderSubmit(carts: CartRepo, orders: Orders.OrderRepo, lookup: Lookup, s: Submission)
    returns (outcome: Outcome)
    modifies carts, orders
    ensures var shop := old(Shop(carts.State(), orders.State()));
            (Shop(carts.State(), orders.State()), outcome) == Submit(shop, lookup, s)
  {
    if s.cookie.Some? && s.outages.cart {
      return Unreachable;
    }
    if s.cookie.None? || s.cookie.value !in carts.carts {
      return RedirectToCart;
    }
    var cart := s.cookie.value;
    var lines := carts.List(cart);
    if lines == [] {
      return RedirectToCart;
    }
    if s.contact.None? {
      return InvalidContact;
    }
    var built := BuildOrderItems(lines, lookup, s.uuid, s.outages.catalog);
    if built.None? {
      return Unreachable;
    }
    if built.value.Err? {
      return NotForSale(built.value.error);
    }
    var items := built.value.value;
    if items == [] {
      return NothingToOrder;
    }
    var currency := items[0].currency;
    if exists i :: 0 <= i < |items| && items[i].currency != currency {
      return MixedCurrencies;
    }
    var r := orders.CheckOut(s.orderId, s.buyer, currency, items, s.contact, s.now, s.outages.order);
    if r.Err? {
      return OrderFailed(r.error);
    }
    if !s.outages.clear.RolledBack? {
      carts.ClearAll(cart, s.now);
    }
    return if s.outages.clear.Committed? then Done(r.value) else ClearFailed(r.value);
  }
}
