/** Orders (crates/orders/src/repository.rs): orders, their items, guest contacts and the outbox, written in
  * transactions that commit fully or leave everything as it was. */
module Orders {
  import opened Prelude

  /** A row of `orders`; nothing here changes the status from `created`. */
  datatype Order = Order(buyer: string, total: Int64, currency: string, createdAt: Int64)

  /** What a caller asks to store; `checkout` ignores `order` and files the item under its own order. */
  datatype NewOrderItem = NewOrderItem(id: string, order: string, product: string, seller: string,
                                       variant: Option<string>,
                                       title: string, price: Int64, currency: string)

  datatype Contact = Contact(email: string, name: Option<string>)

  datatype OrderCreated = OrderCreated(order: string, buyer: string, currency: string)

  /** `items` in rowid order. */
  datatype OrderDb = OrderDb(orders: map<string, Order>, items: seq<NewOrderItem>, contacts: map<string, Contact>,
                             outbox: seq<OrderCreated>)

  datatype OrderError = EmptyCheckout | CurrencyMismatch(currency: string, found: string) | ConstraintFailed
                      | IntegerOverflow | DatabaseFailed

  const EMPTY_DB := OrderDb(map[], [], map[], [])

  predicate HasItem(items: seq<NewOrderItem>, id: string) {
    exists i :: 0 <= i < |items| && items[i].id == id
  }

  /** The prices of the items of an order, added up on exact integers. */
  function SumOf(items: seq<NewOrderItem>, order: string): int {
    if items == [] then 0
    else SumOf(items[..|items| - 1], order) + if items[|items| - 1].order == order then items[|items| - 1].price else 0
  }

  /** The sum as SQLite computes it: an overflow on the way is an error. */
  predicate SumFits(items: seq<NewOrderItem>, order: string) {
    (items == [] || SumFits(items[..|items| - 1], order)) && INT64_MIN <= SumOf(items, order) <= INT64_MAX
  }

  /** The order with its total computed anew. */
  function Recalculated(db: OrderDb, order: string): OrderDb
    requires order in db.orders && SumFits(db.items, order)
  {
    db.(orders := db.orders[order := db.orders[order].(total := SumOf(db.items, order))])
  }

  function CreateOrder(db: OrderDb, id: string, buyer: string, currency: string, now: Int64)
    : Result<OrderDb, OrderError>
  {
    if id in db.orders then Err(ConstraintFailed)
    else Ok(db.(orders := db.orders[id := Order(buyer, 0, currency, now)],
                outbox := db.outbox + [OrderCreated(id, buyer, currency)]))
  }

  function AddItem(db: OrderDb, item: NewOrderItem): Result<OrderDb, OrderError> {
    if HasItem(db.items, item.id) || item.order !in db.orders then Err(ConstraintFailed)  // primary key, foreign key
    else if !SumFits(db.items + [item], item.order) then Err(IntegerOverflow)
    else Ok(Recalculated(db.(items := db.items + [item]), item.order))
  }

  /** The inserts of `checkout`, one by one; `None` when a primary key is taken. */
  function Insert(items: seq<NewOrderItem>, order: string, more: seq<NewOrderItem>): Option<seq<NewOrderItem>> {
    if more == [] then Some(items) else
    var before := Insert(items, order, more[..|more| - 1]);
    var item := more[|more| - 1];
    if before.None? || HasItem(before.value, item.id) then None
    else Some(before.value + [item.(order := order)])
  }

  /** The first item in another currency. */
  function Mismatch(items: seq<NewOrderItem>, currency: string): Option<string> {
    if items == [] then None
    else if items[0].currency != currency then Some(items[0].currency)
    else Mismatch(items[1..], currency)
  }

  /** What the contact table demands of an email address. */
  predicate NotBlank(email: string) {
    exists i :: 0 <= i < |email| && email[i] != ' '
  }

  /** `id` is the generated order id. */
  function Checkout(db: OrderDb, id: string, buyer: string, currency: string, items: seq<NewOrderItem>,
      contact: Option<Contact>, now: Int64): Result<OrderDb, OrderError> {
    if items == [] then Err(EmptyCheckout)
    else if Mismatch(items, currency).Some? then Err(CurrencyMismatch(currency, Mismatch(items, currency).value))
    else if id in db.orders then Err(ConstraintFailed) else
    var inserted := Insert(db.items, id, items);
    if inserted.None? then Err(ConstraintFailed)
    else if !SumFits(inserted.value, id) then Err(IntegerOverflow)
    else if contact.Some? && (!NotBlank(contact.value.email) || id in db.contacts) then Err(ConstraintFailed)
    else Ok(OrderDb(db.orders[id := Order(buyer, SumOf(inserted.value, id), currency, now)], inserted.value,
                    if contact.Some? then db.contacts[id := contact.value] else db.contacts,
                    db.outbox + [OrderCreated(id, buyer, currency)]))
  }

  /** How a commit can end. `Unreported`: it is durable, and the caller is told of an error all the same. */
  datatype Commit = Committed | RolledBack | Unreported

  /** The orders after a checkout whose commit ends as `commit`, and the error that is reported. */
  function Attempt(db: OrderDb, id: string, buyer: string, currency: string, items: seq<NewOrderItem>,
                   contact: Option<Contact>, now: Int64, commit: Commit): (OrderDb, Option<OrderError>)
  {
    match Checkout(db, id, buyer, currency, items, contact, now)
    case Err(error) => (db, Some(error))
    case Ok(after) =>
      match commit
      case Committed => (after, None)
      case RolledBack => (db, Some(DatabaseFailed))
      case Unreported => (after, Some(DatabaseFailed))
  }

  // -----------------------------------------------------------------
  // The ledger invariant, over every run
  // -----------------------------------------------------------------

  /** How often an order was announced. */
  function Announced(outbox: seq<OrderCreated>, order: string): nat {
    if outbox == [] then 0
    else Announced(outbox[..|outbox| - 1], order) + if outbox[|outbox| - 1].order == order then 1 else 0
  }

  predicate Ledger(db: OrderDb) {
    && (forall id :: id in db.orders ==> db.orders[id].total == SumOf(db.items, id))
    && (forall i :: 0 <= i < |db.items| ==> db.items[i].order in db.orders)
    && (forall i, j :: 0 <= i < j < |db.items| ==> db.items[i].id != db.items[j].id)
    && db.contacts.Keys <= db.orders.Keys
  }

  ghost predicate EachAnnouncedOnce(db: OrderDb) {
    forall id :: Announced(db.outbox, id) == if id in db.orders then 1 else 0
  }

  lemma AnnouncedAppend(outbox: seq<OrderCreated>, e: OrderCreated)
    ensures forall id :: Announced(outbox + [e], id) == Announced(outbox, id) + if e.order == id then 1 else 0
  {
    assert (outbox + [e])[..|outbox|] == outbox;
  }

  lemma SumOfAppend(items: seq<NewOrderItem>, item: NewOrderItem)
    ensures forall order ::
              SumOf(items + [item], order) == SumOf(items, order) + if item.order == order then item.price else 0
  {
    assert (items + [item])[..|items|] == items;
  }

  lemma {:induction false} NoItemsNoSum(items: seq<NewOrderItem>, order: string)
    requires forall i :: 0 <= i < |items| ==> items[i].order != order
    ensures SumOf(items, order) == 0 && SumFits(items, order)
  {
    if items != [] {
      NoItemsNoSum(items[..|items| - 1], order);
    }
  }

  function Filed(items: seq<NewOrderItem>, order: string): (filed: seq<NewOrderItem>)
    ensures |filed| == |items| && forall i :: 0 <= i < |items| ==> filed[i] == items[i].(order := order)
  {
    seq(|items|, i requires 0 <= i < |items| => items[i].(order := order))
  }

  function SumPrices(items: seq<NewOrderItem>): int {
    if items == [] then 0 else SumPrices(items[..|items| - 1]) + items[|items| - 1].price
  }

  /** The inserts append the items, filed under the order, keep ids unique and move only this order's sum. */
  lemma {:induction false} InsertMeaning(items: seq<NewOrderItem>, order: string, more: seq<NewOrderItem>)
    requires Insert(items, order, more).Some?
    ensures Insert(items, order, more).value == items + Filed(more, order)
    ensures (forall i, j :: 0 <= i < j < |items| ==> items[i].id != items[j].id) ==>
            var all := Insert(items, order, more).value; forall i, j :: 0 <= i < j < |all| ==> all[i].id != all[j].id
    ensures var all := Insert(items, order, more).value;
            forall other :: SumOf(all, other) == SumOf(items, other) + if other == order then SumPrices(more) else 0
  {
    if more == [] {
      assert items + Filed(more, order) == items;
    } else {
      var init, item := more[..|more| - 1], more[|more| - 1];
      InsertMeaning(items, order, init);
      SumOfAppend(Insert(items, order, init).value, item.(order := order));
      assert Filed(more, order) == Filed(init, order) + [item.(order := order)];
    }
  }

  lemma CreateOrderKeepsLedger(db: OrderDb, id: string, buyer: string, currency: string, now: Int64)
    requires Ledger(db) && EachAnnouncedOnce(db) && CreateOrder(db, id, buyer, currency, now).Ok?
    ensures var db' := CreateOrder(db, id, buyer, currency, now).value; Ledger(db') && EachAnnouncedOnce(db')
  {
    NoItemsNoSum(db.items, id);
    AnnouncedAppend(db.outbox, OrderCreated(id, buyer, currency));
  }

  lemma AddItemKeepsLedger(db: OrderDb, item: NewOrderItem)
    requires Ledger(db) && EachAnnouncedOnce(db) && AddItem(db, item).Ok?
    ensures Ledger(AddItem(db, item).value) && EachAnnouncedOnce(AddItem(db, item).value)
  {
    SumOfAppend(db.items, item);
  }

  lemma CheckoutKeepsLedger(db: OrderDb, id: string, buyer: string, currency: string, items: seq<NewOrderItem>,
      contact: Option<Contact>, now: Int64)
    requires Ledger(db) && EachAnnouncedOnce(db) && Checkout(db, id, buyer, currency, items, contact, now).Ok?
    ensures var db' := Checkout(db, id, buyer, currency, items, contact, now).value;
            && Ledger(db') && EachAnnouncedOnce(db')
            && db'.orders[id].total == SumPrices(items)
  {
    var db' := Checkout(db, id, buyer, currency, items, contact, now).value;
    InsertMeaning(db.items, id, items);
    NoItemsNoSum(db.items, id);
    assert db'.items == db.items + Filed(items, id);
    forall order | order in db'.orders
      ensures db'.orders[order].total == SumOf(db'.items, order)
    {
      assert order != id ==> db'.orders[order] == db.orders[order];
    }
    forall i | 0 <= i < |db'.items|
      ensures db'.items[i].order in db'.orders
    {
      assert i < |db.items| ==> db'.items[i] == db.items[i];
    }
    AnnouncedAppend(db.outbox, OrderCreated(id, buyer, currency));
    assert forall order :: Announced(db'.outbox, order) == Announced(db.outbox, order) + if id == order then 1 else 0;
  }

  /** Everything a successful checkout changes. */
  lemma CheckoutEffect(db: OrderDb, id: string, buyer: string, currency: string, items: seq<NewOrderItem>,
      contact: Option<Contact>, now: Int64)
    requires Ledger(db) && Checkout(db, id, buyer, currency, items, contact, now).Ok?
    ensures var db' := Checkout(db, id, buyer, currency, items, contact, now).value;
            && id !in db.orders && items != []
            && db'.items == db.items + Filed(items, id)
            && SumPrices(items) == SumOf(db'.items, id)
            && INT64_MIN <= SumPrices(items) <= INT64_MAX
            && db'.orders == db.orders[id := Order(buyer, SumPrices(items), currency, now)]
            && db'.contacts == (if contact.Some? then db.contacts[id := contact.value] else db.contacts)
            && db'.outbox == db.outbox + [OrderCreated(id, buyer, currency)]
            && forall i :: 0 <= i < |items| ==> items[i].currency == currency
  {
    InsertMeaning(db.items, id, items);
    NoItemsNoSum(db.items, id);
    MismatchMeaning(items, currency);
  }

  /** What creating an order leaves, and when it is refused. */
  lemma CreateOrderEffect(db: OrderDb, id: string, buyer: string, currency: string, now: Int64)
    ensures CreateOrder(db, id, buyer, currency, now).Ok? <==> id !in db.orders
    ensures var r := CreateOrder(db, id, buyer, currency, now);
            r.Ok? ==>
              && r.value.orders.Keys == db.orders.Keys + {id}
              && (forall other :: other in db.orders ==> r.value.orders[other] == db.orders[other])
              && r.value.orders[id].buyer == buyer && r.value.orders[id].currency == currency
              && r.value.orders[id].createdAt == now && r.value.orders[id].total == 0
              && r.value.items == db.items && r.value.contacts == db.contacts
              && r.value.outbox == db.outbox + [OrderCreated(id, buyer, currency)]
  {
  }

  /** Adding an item stores it last and moves the total of its order by its price, and nothing else; it is refused
    * when its id is taken, its order does not exist, or the sum of the order overflows on the way. */
  lemma AddItemEffect(db: OrderDb, item: NewOrderItem)
    requires Ledger(db)
    ensures AddItem(db, item).Ok? <==>
            && (forall i :: 0 <= i < |db.items| ==> db.items[i].id != item.id)
            && item.order in db.orders
            && SumFits(db.items, item.order)
            && INT64_MIN <= db.orders[item.order].total + item.price <= INT64_MAX
    ensures var r := AddItem(db, item);
            r.Ok? ==>
              && r.value.items == db.items + [item]
              && r.value.orders.Keys == db.orders.Keys
              && (forall other :: other in db.orders && other != item.order ==>
                    r.value.orders[other] == db.orders[other])
              && r.value.orders[item.order]
                 == db.orders[item.order].(total := db.orders[item.order].total + item.price)
              && r.value.contacts == db.contacts && r.value.outbox == db.outbox
  {
    SumOfAppend(db.items, item);
    assert (db.items + [item])[..|db.items|] == db.items;
    assert HasItem(db.items, item.id) <==> !(forall i :: 0 <= i < |db.items| ==> db.items[i].id != item.id);
  }

  // -----------------------------------------------------------------
  // When a checkout succeeds
  // -----------------------------------------------------------------

  /** No id is taken, and none is used twice. */
  ghost predicate IdsFree(items: seq<NewOrderItem>, more: seq<NewOrderItem>) {
    && (forall i, j :: 0 <= i < |items| && 0 <= j < |more| ==> items[i].id != more[j].id)
    && (forall i, j :: 0 <= i < j < |more| ==> more[i].id != more[j].id)
  }

  lemma IdsFreeSnoc(items: seq<NewOrderItem>, order: string, more: seq<NewOrderItem>)
    requires more != [] && IdsFree(items, more[..|more| - 1])
    ensures IdsFree(items, more) <==> !HasItem(items + Filed(more[..|more| - 1], order), more[|more| - 1].id)
  {
    var init, item := more[..|more| - 1], more[|more| - 1];
    var all := items + Filed(init, order);
    if !IdsFree(items, more) {
      if i :| 0 <= i < |items| && items[i].id == item.id {
        assert all[i].id == item.id;
      } else {
        var j :| 0 <= j < |init| && init[j].id == item.id;
        assert all[|items| + j].id == item.id;
      }
    }
    if k :| 0 <= k < |all| && all[k].id == item.id {
      if k >= |items| {
        assert more[k - |items|].id == more[|more| - 1].id;
      }
    }
  }

  lemma {:induction false} InsertSucceedsExactly(items: seq<NewOrderItem>, order: string, more: seq<NewOrderItem>)
    ensures Insert(items, order, more).Some? <==> IdsFree(items, more)
  {
    if more != [] {
      var init := more[..|more| - 1];
      InsertSucceedsExactly(items, order, init);
      if Insert(items, order, init).Some? {
        InsertMeaning(items, order, init);
        IdsFreeSnoc(items, order, more);
      } else {
        assert IdsFree(items, more) ==> IdsFree(items, init);
      }
    }
  }

  /** Every partial sum of the prices fits an i64. */
  ghost predicate PricesFit(more: seq<NewOrderItem>) {
    forall n :: 0 <= n <= |more| ==> INT64_MIN <= SumPrices(more[..n]) <= INT64_MAX
  }

  lemma PricesFitSnoc(more: seq<NewOrderItem>)
    requires more != []
    ensures PricesFit(more) <==> PricesFit(more[..|more| - 1]) && INT64_MIN <= SumPrices(more) <= INT64_MAX
  {
    var init := more[..|more| - 1];
    assert forall n :: 0 <= n <= |init| ==> init[..n] == more[..n];
    assert more[..|more|] == more;
    if PricesFit(more) {
      forall n | 0 <= n <= |init|
        ensures INT64_MIN <= SumPrices(init[..n]) <= INT64_MAX
      {
        assert INT64_MIN <= SumPrices(more[..n]) <= INT64_MAX;
      }
    }
  }

  lemma FiledSnoc(items: seq<NewOrderItem>, order: string, more: seq<NewOrderItem>)
    requires more != []
    ensures var all, before := items + Filed(more, order), items + Filed(more[..|more| - 1], order);
            all == before + [more[|more| - 1].(order := order)] && all[..|all| - 1] == before
  {
  }

  lemma {:induction false} NewSumFitsExactly(items: seq<NewOrderItem>, order: string, more: seq<NewOrderItem>)
    requires forall i :: 0 <= i < |items| ==> items[i].order != order
    ensures SumFits(items + Filed(more, order), order) <==> PricesFit(more)
    ensures SumOf(items + Filed(more, order), order) == SumPrices(more)
  {
    if more == [] {
      assert items + Filed(more, order) == items;
      NoItemsNoSum(items, order);
    } else {
      NewSumFitsExactly(items, order, more[..|more| - 1]);
      FiledSnoc(items, order, more);
      PricesFitSnoc(more);
    }
  }

  lemma {:induction false} MismatchMeaning(items: seq<NewOrderItem>, currency: string)
    ensures Mismatch(items, currency).None? <==> forall i :: 0 <= i < |items| ==> items[i].currency == currency
  {
    if items != [] {
      MismatchMeaning(items[1..], currency);
      assert forall i :: 1 <= i < |items| ==> items[i] == items[1..][i - 1];
    }
  }

  /** Whether a checkout can succeed: there is something to order, all in one currency, under ids that are free, at
    * prices whose sum fits, for a contact whose email address is more than spaces. */
  ghost predicate Orderable(db: OrderDb, id: string, currency: string, items: seq<NewOrderItem>,
                            contact: Option<Contact>) {
    && items != [] && (forall i :: 0 <= i < |items| ==> items[i].currency == currency)
    && id !in db.orders && IdsFree(db.items, items) && PricesFit(items)
    && (contact.Some? ==> exists i :: 0 <= i < |contact.value.email| && contact.value.email[i] != ' ')
  }

  lemma CheckoutSucceedsExactly(db: OrderDb, id: string, buyer: string, currency: string, items: seq<NewOrderItem>,
                                contact: Option<Contact>, now: Int64)
    requires Ledger(db)
    ensures Checkout(db, id, buyer, currency, items, contact, now).Ok? <==> Orderable(db, id, currency, items, contact)
  {
    MismatchMeaning(items, currency);
    if id !in db.orders {
      InsertedFitsExactly(db, id, items);
    }
  }

  /** Why a checkout is refused, in the order in which it is found out: nothing to order; an item in another
    * currency, the first of which is named; an id that is taken or used twice; prices whose sum does not fit; an
    * email address of nothing but spaces. */
  lemma CheckoutRefusal(db: OrderDb, id: string, buyer: string, currency: string, items: seq<NewOrderItem>,
                        contact: Option<Contact>, now: Int64)
    requires Ledger(db)
    ensures var r := Checkout(db, id, buyer, currency, items, contact, now);
            && (items == [] ==> r == Err(EmptyCheckout))
            && (forall k :: 0 <= k < |items| && items[k].currency != currency
                            && (forall i :: 0 <= i < k ==> items[i].currency == currency) ==>
                  r == Err(CurrencyMismatch(currency, items[k].currency)))
            && (items != [] && (forall i :: 0 <= i < |items| ==> items[i].currency == currency) && r.Err? ==>
                  r == Err(if id !in db.orders && IdsFree(db.items, items) && !PricesFit(items) then IntegerOverflow
                           else ConstraintFailed))
  {
    MismatchMeaning(items, currency);
    FirstMismatch(items, currency);
    if id !in db.orders {
      InsertSucceedsExactly(db.items, id, items);
      InsertedFitsExactly(db, id, items);
    }
  }

  lemma {:induction false} FirstMismatch(items: seq<NewOrderItem>, currency: string)
    ensures forall k :: 0 <= k < |items| && items[k].currency != currency
                        && (forall i :: 0 <= i < k ==> items[i].currency == currency) ==>
              Mismatch(items, currency) == Some(items[k].currency)
  {
    if items != [] {
      FirstMismatch(items[1..], currency);
      forall k | 0 <= k < |items| && items[k].currency != currency
                 && (forall i :: 0 <= i < k ==> items[i].currency == currency)
        ensures Mismatch(items, currency) == Some(items[k].currency)
      {
        if k > 0 {
          assert items[0].currency == currency && items[1..][k - 1] == items[k];
          assert forall i :: 0 <= i < k - 1 ==> items[1..][i] == items[i + 1];
        }
      }
    }
  }

  lemma InsertedFitsExactly(db: OrderDb, id: string, items: seq<NewOrderItem>)
    requires Ledger(db) && id !in db.orders
    ensures var inserted := Insert(db.items, id, items);
            inserted.Some? && SumFits(inserted.value, id) <==> IdsFree(db.items, items) && PricesFit(items)
  {
    InsertSucceedsExactly(db.items, id, items);
    if Insert(db.items, id, items).Some? {
      InsertMeaning(db.items, id, items);
      NewSumFitsExactly(db.items, id, items);
    }
  }

  datatype OrderOp =
    | OpCreate(id: string, buyer: string, currency: string)
    | OpAdd(item: NewOrderItem)
    | OpCheckout(id: string, buyer: string, currency: string, items: seq<NewOrderItem>, contact: Option<Contact>)

  /** One repository call; a failed one is rolled back. */
  function Call(db: OrderDb, op: OrderOp, now: Int64): OrderDb {
    var r := match op
      case OpCreate(id, buyer, currency) => CreateOrder(db, id, buyer, currency, now)
      case OpAdd(item) => AddItem(db, item)
      case OpCheckout(id, buyer, currency, items, contact) => Checkout(db, id, buyer, currency, items, contact, now);
    if r.Ok? then r.value else db
  }

  function Calls(ops: seq<(OrderOp, Int64)>): OrderDb {
    if ops == [] then EMPTY_DB
    else Call(Calls(ops[..|ops| - 1]), ops[|ops| - 1].0, ops[|ops| - 1].1)
  }

  /** In every reachable state, failed calls included: each order's total is the sum of its items, each item
    * belongs to an order, and each order was announced exactly once (and nothing else was). */
  lemma {:induction false} LedgerInvariant(ops: seq<(OrderOp, Int64)>)
    ensures Ledger(Calls(ops)) && EachAnnouncedOnce(Calls(ops))
  {
    if ops != [] {
      var db, op, now := Calls(ops[..|ops| - 1]), ops[|ops| - 1].0, ops[|ops| - 1].1;
      LedgerInvariant(ops[..|ops| - 1]);
      if Call(db, op, now) != db {
        match op {
          case OpCreate(id, buyer, currency) => CreateOrderKeepsLedger(db, id, buyer, currency, now);
          case OpAdd(item) => AddItemKeepsLedger(db, item);
          case OpCheckout(id, buyer, currency, items, contact) =>
              CheckoutKeepsLedger(db, id, buyer, currency, items, contact, now);
        }
      }
    }
  }

  // -----------------------------------------------------------------
  // The repository
  // -----------------------------------------------------------------

  class OrderRepo {
    var orders: map<string, Order>
    var items: seq<NewOrderItem>
    var contacts: map<string, Contact>
    var outbox: seq<OrderCreated>

    constructor ()
      ensures State() == EMPTY_DB
    {
      orders, items, contacts, outbox := map[], [], map[], [];
    }

    ghost function State(): OrderDb
      reads this
    {
      OrderDb(orders, items, contacts, outbox)
    }

    method Create(id: string, buyer: string, currency: string, now: Int64) returns (r: Result<(), OrderError>)
      modifies this
      ensures r.Err? ==> CreateOrder(old(State()), id, buyer, currency, now) == Err(r.error) && State() == old(State())
      ensures r.Ok? ==> CreateOrder(old(State()), id, buyer, currency, now) == Ok(State())
    {
      if id in orders {
        return Err(ConstraintFailed);
      }
      orders := orders[id := Order(buyer, 0, currency, now)];
      outbox := outbox + [OrderCreated(id, buyer, currency)];
      return Ok(());
    }

    method Add(item: NewOrderItem) returns (r: Result<(), OrderError>)
      modifies this
      ensures r.Err? ==> AddItem(old(State()), item) == Err(r.error) && State() == old(State())
      ensures r.Ok? ==> AddItem(old(State()), item) == Ok(State())
    {
      if HasItem(items, item.id) || item.order !in orders {
        return Err(ConstraintFailed);
      }
      var items0 := items;
      items := items + [item];
      var total := Total(item.order);
      if total.None? {
        items := items0;
        return Err(IntegerOverflow);
      }
      orders := orders[item.order := orders[item.order].(total := total.value)];
      return Ok(());
    }

    /** Adds up the items of one order. */
    method Total(order: string) returns (total: Option<Int64>)
      ensures total == if SumFits(items, order) then Some(SumOf(items, order)) else None
    {
      var sum: int := 0;
      for k := 0 to |items|
        invariant sum == SumOf(items[..k], order) && SumFits(items[..k], order)
      {
        assert items[..k + 1][..k] == items[..k];
        if items[k].order == order {
          sum := sum + items[k].price;
        }
        if !(INT64_MIN <= sum <= INT64_MAX) {
          OverflowStays(items, order, k + 1);
          return None;
        }
      }
      assert items[..|items|] == items;
      return Some(sum);
    }

    /** One transaction: on any error of a statement everything is rolled back; an error of the commit leaves
      * everything or nothing. */
    method CheckOut(id: string, buyer: string, currency: string, newItems: seq<NewOrderItem>,
                    contact: Option<Contact>, now: Int64, commit: Commit)
      returns (r: Result<string, OrderError>)
      modifies this
      ensures var (after, failure) := Attempt(old(State()), id, buyer, currency, newItems, contact, now, commit);
              State() == after && r == if failure.Some? then Err(failure.value) else Ok(id)
    {
      if newItems == [] {
        return Err(EmptyCheckout);
      }
      var mismatch := Mismatch(newItems, currency);
      if mismatch.Some? {
        return Err(CurrencyMismatch(currency, mismatch.value));
      }
      var orders0, items0, contacts0, outbox0 := orders, items, contacts, outbox;
      var failure := Statements(id, buyer, currency, newItems, contact, now);
      if failure.Some? || commit.RolledBack? {
        orders, items, contacts, outbox := orders0, items0, contacts0, outbox0;
      }
      if failure.None? && commit.Committed? {
        return Ok(id);
      }
      return Err(if failure.Some? then failure.value else DatabaseFailed);
    }

    /** The statements of a checkout: the order, then every item, then the total, the contact and the event.
      * A failing statement leaves the earlier ones in place. */
    method Statements(id: string, buyer: string, currency: string, newItems: seq<NewOrderItem>,
                      contact: Option<Contact>, now: Int64)
      returns (failure: Option<OrderError>)
      requires newItems != [] && Mismatch(newItems, currency).None?
      modifies this
      ensures var after := Checkout(old(State()), id, buyer, currency, newItems, contact, now);
              after == if failure.Some? then Err(failure.value) else Ok(State())
    {
      if id in orders {
        return Some(ConstraintFailed);
      }
      orders := orders[id := Order(buyer, 0, currency, now)];
      var inserted := InsertItems(id, newItems);
      if !inserted {
        return Some(ConstraintFailed);
      }
      var total := Total(id);
      if total.None? {
        return Some(IntegerOverflow);
      }
      orders := orders[id := orders[id].(total := total.value)];
      assert orders == old(orders)[id := Order(buyer, total.value, currency, now)];
      if contact.Some? {
        if !NotBlank(contact.value.email) || id in contacts {
          return Some(ConstraintFailed);
        }
        contacts := contacts[id := contact.value];
      }
      outbox := outbox + [OrderCreated(id, buyer, currency)];
      return None;
    }

    method InsertItems(order: string, newItems: seq<NewOrderItem>) returns (done: bool)
      modifies this`items
      ensures done <==> Insert(old(items), order, newItems).Some?
      ensures done ==> items == Insert(old(items), order, newItems).value
    {
      for k := 0 to |newItems|
        invariant Insert(old(items), order, newItems[..k]) == Some(items)
      {
        assert newItems[..k + 1][..k] == newItems[..k];
        if HasItem(items, newItems[k].id) {
          InsertFailureStays(old(items), order, newItems, k + 1);
          return false;
        }
        items := items + [newItems[k].(order := order)];
      }
      assert newItems[..|newItems|] == newItems;
      return true;
    }
  }

  lemma {:induction false} OverflowStays(items: seq<NewOrderItem>, order: string, k: nat)
    requires k <= |items| && !SumFits(items[..k], order)
    ensures !SumFits(items, order)
    decreases |items| - k
  {
    if k == |items| {
      assert items[..k] == items;
    } else {
      assert items[..k + 1][..k] == items[..k];
      OverflowStays(items, order, k + 1);
    }
  }

  lemma {:induction false} InsertFailureStays(items: seq<NewOrderItem>, order: string, more: seq<NewOrderItem>, k: nat)
    requires k <= |more| && Insert(items, order, more[..k]).None?
    ensures Insert(items, order, more).None?
    decreases |more| - k
  {
    if k == |more| {
      assert more[..k] == more;
    } else {
      assert more[..k + 1][..k] == more[..k];
      InsertFailureStays(items, order, more, k + 1);
    }
  }
}
