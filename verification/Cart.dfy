/** Carts (crates/orders/src/cart_repo.rs) and the handlers that drive them (crates/web/src/routes/cart.rs). */
module Cart {
  import opened Prelude

  const MAX_QTY := 999

  /** What a caller adds; `qty` is unchecked. */
  datatype NewItem = NewItem(product: string, variant: Option<string>, qty: Int64, title: string, price: Int64,
      currency: string)

  datatype CartItem = CartItem(id: nat, cart: string, product: string, variant: Option<string>, qty: int,
                               title: string, price: Int64, currency: string, addedAt: Int64)

  datatype CartRow = CartRow(createdAt: Int64, updatedAt: Int64)

  /** `carts` by token hash, `cart_items` in id order, and the next AUTOINCREMENT id. */
  datatype CartDb = CartDb(carts: map<string, CartRow>, items: seq<CartItem>, nextId: nat)

  datatype CartError = InvalidQty(qty: int) | ConstraintFailed

  const EMPTY_DB := CartDb(map[], [], 0)

  /** A missing variant counts as the empty one. */
  function VariantKey(variant: Option<string>): string {
    if variant.Some? then variant.value else ""
  }

  /** The unique index of `cart_items`. */
  predicate SameKey(i: CartItem, cart: string, product: string, variant: Option<string>) {
    i.cart == cart && i.product == product && VariantKey(i.variant) == VariantKey(variant)
  }

  /** The position of the row with this key, or the length of the table. */
  function Find(items: seq<CartItem>, cart: string, product: string, variant: Option<string>): (k: nat)
    ensures k <= |items|
    ensures k < |items| ==> SameKey(items[k], cart, product, variant)
    ensures forall i :: 0 <= i < k ==> !SameKey(items[i], cart, product, variant)
  {
    if items == [] then 0
    else if SameKey(items[0], cart, product, variant) then 0
    else
      var rest := Find(items[1..], cart, product, variant);
      assert forall i :: 0 < i < 1 + rest ==> items[i] == items[1..][i - 1];
      1 + rest
  }

  function Touch(carts: map<string, CartRow>, cart: string, now: Int64): map<string, CartRow> {
    if cart in carts then carts[cart := carts[cart].(updatedAt := now)] else carts
  }

  function Merged(row: CartItem, item: NewItem, now: Int64): CartItem {
    row.(qty := Min(row.qty + item.qty, MAX_QTY), title := item.title, price := item.price,
         currency := item.currency, addedAt := now)
  }

  function AddItem(db: CartDb, cart: string, item: NewItem, now: Int64): Result<CartDb, CartError> {
    if item.qty <= 0 || item.qty > MAX_QTY then Err(InvalidQty(item.qty))
    else if item.variant == Some("") || cart !in db.carts then Err(ConstraintFailed)  // CHECK, foreign key
    else
      var k := Find(db.items, cart, item.product, item.variant);
      var carts := Touch(db.carts, cart, now);
      if k < |db.items| then Ok(CartDb(carts, db.items[k := Merged(db.items[k], item, now)], db.nextId))
      else Ok(CartDb(carts, db.items + [CartItem(db.nextId, cart, item.product, item.variant, item.qty, item.title,
                                                 item.price, item.currency, now)], db.nextId + 1))
  }

  predicate Matches(i: CartItem, cart: string, id: int) {
    i.id == id && i.cart == cart
  }

  /** The rows that remain when one row of the cart is deleted. */
  function DeleteRow(items: seq<CartItem>, cart: string, id: int): seq<CartItem> {
    if items == [] then []
    else if Matches(items[0], cart, id) then DeleteRow(items[1..], cart, id)
    else [items[0]] + DeleteRow(items[1..], cart, id)
  }

  /** The rows after one row of the cart has got a new quantity. */
  function SetQty(items: seq<CartItem>, cart: string, id: int, qty: int): seq<CartItem> {
    if items == [] then []
    else [if Matches(items[0], cart, id) then items[0].(qty := qty) else items[0]] + SetQty(items[1..], cart, id, qty)
  }

  predicate Affects(items: seq<CartItem>, cart: string, id: int) {
    exists i :: 0 <= i < |items| && Matches(items[i], cart, id)
  }

  function UpdateQty(db: CartDb, cart: string, id: int, qty: Int64, now: Int64): Result<CartDb, CartError> {
    if qty < 0 || qty > MAX_QTY then Err(InvalidQty(qty))
    else if !Affects(db.items, cart, id) then Ok(db)
    else Ok(db.(items := if qty == 0 then DeleteRow(db.items, cart, id) else SetQty(db.items, cart, id, qty),
                carts := Touch(db.carts, cart, now)))
  }

  function RemoveItem(db: CartDb, cart: string, id: int, now: Int64): CartDb {
    if !Affects(db.items, cart, id) then db
    else db.(items := DeleteRow(db.items, cart, id), carts := Touch(db.carts, cart, now))
  }

  /** The rows of one cart, in id order. */
  function ItemsOf(items: seq<CartItem>, cart: string): seq<CartItem> {
    if items == [] then []
    else if items[0].cart == cart then [items[0]] + ItemsOf(items[1..], cart)
    else ItemsOf(items[1..], cart)
  }

  function DropCart(items: seq<CartItem>, cart: string): seq<CartItem> {
    if items == [] then []
    else if items[0].cart == cart then DropCart(items[1..], cart)
    else [items[0]] + DropCart(items[1..], cart)
  }

  function Clear(db: CartDb, cart: string, now: Int64): CartDb {
    if ItemsOf(db.items, cart) == [] then db
    else db.(items := DropCart(db.items, cart), carts := Touch(db.carts, cart, now))
  }

  function CreateCart(db: CartDb, hash: string, now: Int64): CartDb {
    db.(carts := db.carts[hash := CartRow(now, now)])
  }

  // -----------------------------------------------------------------
  // The cart invariant, over every run
  // -----------------------------------------------------------------

  predicate KeysDistinct(items: seq<CartItem>) {
    forall i, j :: 0 <= i < j < |items| ==> !SameKey(items[i], items[j].cart, items[j].product, items[j].variant)
  }

  predicate IdsAscend(items: seq<CartItem>, nextId: nat) {
    && (forall i, j :: 0 <= i < j < |items| ==> items[i].id < items[j].id)
    && (forall i :: 0 <= i < |items| ==> items[i].id < nextId)
  }

  /** One row per (cart, product, variant or none), quantities in 1..999, ids in insertion order. */
  predicate CartInv(db: CartDb) {
    && KeysDistinct(db.items) && IdsAscend(db.items, db.nextId)
    && forall i :: 0 <= i < |db.items| ==> 1 <= db.items[i].qty <= MAX_QTY && db.items[i].cart in db.carts
  }

  /** `b` is obtained from `a` by leaving rows out. */
  predicate Subsequence(b: seq<CartItem>, a: seq<CartItem>) {
    if b == [] then true
    else if a == [] then false
    else if b[0] == a[0] then Subsequence(b[1..], a[1..])
    else Subsequence(b, a[1..])
  }

  lemma {:induction false} SubsequenceFrom(b: seq<CartItem>, a: seq<CartItem>) returns (at: seq<nat>)
    requires Subsequence(b, a)
    ensures |at| == |b| && forall i :: 0 <= i < |b| ==> at[i] < |a| && b[i] == a[at[i]]
    ensures forall i, j :: 0 <= i < j < |b| ==> at[i] < at[j]
  {
    if b == [] {
      at := [];
    } else if b[0] == a[0] {
      var rest := SubsequenceFrom(b[1..], a[1..]);
      at := [0] + seq(|rest|, i requires 0 <= i < |rest| => rest[i] + 1);
    } else {
      var rest := SubsequenceFrom(b, a[1..]);
      at := seq(|rest|, i requires 0 <= i < |rest| => rest[i] + 1);
    }
  }

  lemma {:induction false} DeletionsAreSubsequences(items: seq<CartItem>, cart: string, id: int)
    ensures Subsequence(DeleteRow(items, cart, id), items) && Subsequence(DropCart(items, cart), items)
  {
    if items != [] {
      DeletionsAreSubsequences(items[1..], cart, id);
      SubsequenceOfLonger(DeleteRow(items[1..], cart, id), items);
      SubsequenceOfLonger(DropCart(items[1..], cart), items);
    }
  }

  lemma {:induction false} SubsequenceOfLonger(b: seq<CartItem>, a: seq<CartItem>)
    requires a != [] && Subsequence(b, a[1..])
    ensures Subsequence(b, a)
  {
    if b != [] && b[0] == a[0] {
      SubsequenceTail(b, a[1..]);
    }
  }

  lemma {:induction false} SubsequenceTail(b: seq<CartItem>, a: seq<CartItem>)
    requires b != [] && Subsequence(b, a)
    ensures Subsequence(b[1..], a)
  {
    if b[0] == a[0] {
      SubsequenceOfLonger(b[1..], a);
    } else {
      SubsequenceTail(b, a[1..]);
      SubsequenceOfLonger(b[1..], a);
    }
  }

  lemma SubsequenceKeepsInv(db: CartDb, items: seq<CartItem>, carts: map<string, CartRow>)
    requires CartInv(db) && Subsequence(items, db.items) && carts.Keys == db.carts.Keys
    ensures CartInv(CartDb(carts, items, db.nextId))
  {
    var at := SubsequenceFrom(items, db.items);
    forall i, j | 0 <= i < j < |items|
      ensures !SameKey(items[i], items[j].cart, items[j].product, items[j].variant) && items[i].id < items[j].id
    {
      assert at[i] < at[j];
    }
  }

  lemma {:induction false} SetQtyRows(items: seq<CartItem>, cart: string, id: int, qty: int)
    ensures |SetQty(items, cart, id, qty)| == |items|
    ensures forall i :: 0 <= i < |items| ==>
                SetQty(items, cart, id, qty)[i] ==
                if Matches(items[i], cart, id) then items[i].(qty := qty) else items[i]
  {
    if items != [] {
      SetQtyRows(items[1..], cart, id, qty);
    }
  }

  datatype CartOp =
    | OpCreate(hash: string)
    | OpAdd(cart: string, item: NewItem)
    | OpUpdate(cart: string, id: int, qty: Int64)
    | OpRemove(cart: string, id: int)
    | OpClear(cart: string)

  /** One repository call; an error changes nothing. */
  function Call(db: CartDb, op: CartOp, now: Int64): CartDb {
    match op
    case OpCreate(hash) => if hash in db.carts then db else CreateCart(db, hash, now)
    case OpAdd(cart, item) => var r := AddItem(db, cart, item, now); if r.Ok? then r.value else db
    case OpUpdate(cart, id, qty) => var r := UpdateQty(db, cart, id, qty, now); if r.Ok? then r.value else db
    case OpRemove(cart, id) => RemoveItem(db, cart, id, now)
    case OpClear(cart) => Clear(db, cart, now)
  }

  lemma AddKeepsInv(db: CartDb, cart: string, item: NewItem, now: Int64)
    requires CartInv(db) && AddItem(db, cart, item, now).Ok?
    ensures CartInv(AddItem(db, cart, item, now).value)
  {
    var items, items' := db.items, AddItem(db, cart, item, now).value.items;
    var k := Find(items, cart, item.product, item.variant);
    assert forall i :: 0 <= i < |items| && i != k ==> items'[i] == items[i];
    if k < |items| {
      var row := items'[k];
      assert row.id == items[k].id && row.cart == items[k].cart;
      assert row.product == items[k].product && row.variant == items[k].variant;
    } else {
      assert items' == items + [items'[|items|]];
    }
  }

  lemma SetQtyKeepsInv(db: CartDb, cart: string, id: int, qty: int, now: Int64)
    requires CartInv(db) && 1 <= qty <= MAX_QTY
    ensures CartInv(db.(items := SetQty(db.items, cart, id, qty), carts := Touch(db.carts, cart, now)))
  {
    SetQtyRows(db.items, cart, id, qty);
  }

  lemma CallKeepsInv(db: CartDb, op: CartOp, now: Int64)
    requires CartInv(db)
    ensures CartInv(Call(db, op, now))
  {
    match op {
      case OpCreate(_) =>
      case OpAdd(cart, item) =>
        if AddItem(db, cart, item, now).Ok? {
          AddKeepsInv(db, cart, item, now);
        }
      case OpUpdate(cart, id, qty) =>
        if 1 <= qty <= MAX_QTY {
          SetQtyKeepsInv(db, cart, id, qty, now);
        } else {
          DeletionsAreSubsequences(db.items, cart, id);
          SubsequenceKeepsInv(db, DeleteRow(db.items, cart, id), Touch(db.carts, cart, now));
        }
      case OpRemove(cart, id) =>
        DeletionsAreSubsequences(db.items, cart, id);
        SubsequenceKeepsInv(db, DeleteRow(db.items, cart, id), Touch(db.carts, cart, now));
      case OpClear(cart) =>
        DeletionsAreSubsequences(db.items, cart, 0);
        SubsequenceKeepsInv(db, DropCart(db.items, cart), Touch(db.carts, cart, now));
    }
  }

  function Calls(ops: seq<(CartOp, Int64)>): CartDb {
    if ops == [] then EMPTY_DB
    else Call(Calls(ops[..|ops| - 1]), ops[|ops| - 1].0, ops[|ops| - 1].1)
  }

  lemma {:induction false} CallsKeepInv(ops: seq<(CartOp, Int64)>)
    ensures CartInv(Calls(ops))
  {
    if ops != [] {
      CallsKeepInv(ops[..|ops| - 1]);
      CallKeepsInv(Calls(ops[..|ops| - 1]), ops[|ops| - 1].0, ops[|ops| - 1].1);
    }
  }

  // -----------------------------------------------------------------
  // Listing
  // -----------------------------------------------------------------

  lemma {:induction false} ItemsOfIsSubsequence(items: seq<CartItem>, cart: string)
    ensures Subsequence(ItemsOf(items, cart), items)
    ensures forall i :: 0 <= i < |ItemsOf(items, cart)| ==> ItemsOf(items, cart)[i].cart == cart
    ensures forall row :: row in items && row.cart == cart ==> row in ItemsOf(items, cart)
  {
    if items != [] {
      ItemsOfIsSubsequence(items[1..], cart);
      SubsequenceOfLonger(ItemsOf(items[1..], cart), items);
    }
  }

  /** `list_items` returns all rows of the cart, only those, in the order of their first insertion: a later
    * add to the same key changes a row in place and keeps its id. */
  lemma ListMeaning(db: CartDb, cart: string)
    requires CartInv(db)
    ensures var list := ItemsOf(db.items, cart);
            && (forall row :: row in list <==> row in db.items && row.cart == cart)
            && (forall i, j :: 0 <= i < j < |list| ==> list[i].id < list[j].id)
            && KeysDistinct(list)
  {
    ItemsOfIsSubsequence(db.items, cart);
    var at := SubsequenceFrom(ItemsOf(db.items, cart), db.items);
    SubsequenceKeepsInv(db, ItemsOf(db.items, cart), db.carts);
    assert CartInv(CartDb(db.carts, ItemsOf(db.items, cart), db.nextId));
    forall row | row in ItemsOf(db.items, cart)
      ensures row in db.items
    {
      var i :| 0 <= i < |ItemsOf(db.items, cart)| && ItemsOf(db.items, cart)[i] == row;
      assert db.items[at[i]] == row;
    }
  }

  // -----------------------------------------------------------------
  // Isolation
  // -----------------------------------------------------------------

  lemma {:induction false} ItemsOfAppend(items: seq<CartItem>, row: CartItem, cart: string)
    ensures ItemsOf(items + [row], cart) == ItemsOf(items, cart) + if row.cart == cart then [row] else []
  {
    if items != [] {
      assert (items + [row])[1..] == items[1..] + [row];
      ItemsOfAppend(items[1..], row, cart);
    }
  }

  lemma {:induction false} ItemsOfOthers(items: seq<CartItem>, cart: string, other: string, id: int, qty: int)
    requires other != cart
    ensures ItemsOf(DeleteRow(items, cart, id), other) == ItemsOf(items, other)
    ensures ItemsOf(DropCart(items, cart), other) == ItemsOf(items, other)
    ensures ItemsOf(SetQty(items, cart, id, qty), other) == ItemsOf(items, other)
  {
    if items != [] {
      ItemsOfOthers(items[1..], cart, other, id, qty);
      if items[0].cart == cart {
        var row := if Matches(items[0], cart, id) then items[0].(qty := qty) else items[0];
        assert SetQty(items, cart, id, qty)[1..] == SetQty(items[1..], cart, id, qty);
      } else {
        assert DeleteRow(items, cart, id)[1..] == DeleteRow(items[1..], cart, id);
        assert DropCart(items, cart)[1..] == DropCart(items[1..], cart);
        assert SetQty(items, cart, id, qty)[1..] == SetQty(items[1..], cart, id, qty);
      }
    }
  }

  lemma {:induction false} ItemsOfReplace(items: seq<CartItem>, k: nat, row: CartItem, other: string)
    requires k < |items| && items[k].cart != other && row.cart != other
    ensures ItemsOf(items[k := row], other) == ItemsOf(items, other)
  {
    if k == 0 {
      assert items[k := row][1..] == items[1..];
    } else {
      assert items[k := row][1..] == items[1..][k - 1 := row];
      ItemsOfReplace(items[1..], k - 1, row, other);
    }
  }

  lemma AddIsIsolated(db: CartDb, cart: string, item: NewItem, now: Int64, other: string)
    requires other != cart && AddItem(db, cart, item, now).Ok?
    ensures ItemsOf(AddItem(db, cart, item, now).value.items, other) == ItemsOf(db.items, other)
  {
    var k := Find(db.items, cart, item.product, item.variant);
    if k < |db.items| {
      ItemsOfReplace(db.items, k, Merged(db.items[k], item, now), other);
    } else {
      ItemsOfAppend(db.items, CartItem(db.nextId, cart, item.product, item.variant, item.qty, item.title,
                                       item.price, item.currency, now), other);
    }
  }

  function CartOf(op: CartOp): string {
    match op
    case OpCreate(hash) => hash
    case OpAdd(cart, _) => cart
    case OpUpdate(cart, _, _) => cart
    case OpRemove(cart, _) => cart
    case OpClear(cart) => cart
  }

  lemma CallsLeaveOtherCarts(db: CartDb, op: CartOp, now: Int64, other: string)
    requires other != CartOf(op)
    ensures var carts := Call(db, op, now).carts;
            (other in carts <==> other in db.carts) && (other in db.carts ==> carts[other] == db.carts[other])
  {
  }

  lemma CallsLeaveOtherItems(db: CartDb, op: CartOp, now: Int64, other: string)
    requires other != CartOf(op)
    ensures ItemsOf(Call(db, op, now).items, other) == ItemsOf(db.items, other)
  {
    match op {
      case OpCreate(_) =>
      case OpAdd(cart, item) =>
        if AddItem(db, cart, item, now).Ok? {
          AddIsIsolated(db, cart, item, now, other);
        }
      case OpUpdate(cart, id, qty) => ItemsOfOthers(db.items, cart, other, id, qty);
      case OpRemove(cart, id) => ItemsOfOthers(db.items, cart, other, id, 0);
      case OpClear(cart) => ItemsOfOthers(db.items, cart, other, 0, 0);
    }
  }

  /** A call on one cart never changes the items or the timestamp of another, whatever item id it names. */
  lemma CallsAreIsolated(db: CartDb, op: CartOp, now: Int64, other: string)
    requires other != CartOf(op)
    ensures var db' := Call(db, op, now);
            && ItemsOf(db'.items, other) == ItemsOf(db.items, other)
            && (other in db'.carts <==> other in db.carts)
            && (other in db.carts ==> db'.carts[other] == db.carts[other])
  {
    CallsLeaveOtherCarts(db, op, now, other);
    CallsLeaveOtherItems(db, op, now, other);
  }

  lemma {:induction false} DeletionMeaning(items: seq<CartItem>, cart: string, id: int, row: CartItem)
    ensures row in DeleteRow(items, cart, id) <==> row in items && !(row.id == id && row.cart == cart)
    ensures row in DropCart(items, cart) <==> row in items && row.cart != cart
  {
    if items != [] {
      DeletionMeaning(items[1..], cart, id, row);
      assert items == [items[0]] + items[1..];
    }
  }

  /** Setting a quantity changes only the named row of this cart; zero deletes it; an id that the cart does
    * not have changes nothing at all. */
  lemma UpdateMeaning(db: CartDb, cart: string, id: int, qty: Int64, now: Int64)
    requires UpdateQty(db, cart, id, qty, now).Ok?
    ensures var items' := UpdateQty(db, cart, id, qty, now).value.items;
            && (qty == 0 ==> forall row :: row in items' <==> row in db.items && !(row.id == id && row.cart == cart))
            && (qty > 0 ==> |items'| == |db.items| && forall i :: 0 <= i < |items'| ==>
                 var row := db.items[i];
                 items'[i] == if row.id == id && row.cart == cart then row.(qty := qty) else row)
  {
    SetQtyRows(db.items, cart, id, qty);
    forall row {
      DeletionMeaning(db.items, cart, id, row);
    }
    if !Affects(db.items, cart, id) {
      assert forall i :: 0 <= i < |db.items| ==> !Matches(db.items[i], cart, id);
    }
  }

  /** A call that changes the items of a cart stamps the cart; no call changes when it was created. */
  lemma ChangesAreStamped(db: CartDb, op: CartOp, now: Int64, cart: string)
    requires CartInv(db) && cart in db.carts
    ensures var db' := Call(db, op, now);
            && cart in db'.carts && db'.carts[cart].createdAt == db.carts[cart].createdAt
            && (ItemsOf(db'.items, cart) != ItemsOf(db.items, cart) ==> db'.carts[cart].updatedAt == now)
  {
    if CartOf(op) != cart {
      CallsAreIsolated(db, op, now, cart);
    } else if Call(db, op, now).items != db.items {
      assert op.OpClear? ==> ItemsOf(db.items, cart) != [];
    }
  }

  lemma {:induction false} DropCartEmpties(items: seq<CartItem>, cart: string)
    ensures ItemsOf(DropCart(items, cart), cart) == []
    ensures ItemsOf(items, cart) == [] ==> DropCart(items, cart) == items
  {
    if items != [] {
      DropCartEmpties(items[1..], cart);
      if items[0].cart != cart {
        assert DropCart(items, cart)[1..] == DropCart(items[1..], cart);
      }
    }
  }

  /** `clear` leaves nothing of the cart behind. */
  lemma ClearEmpties(db: CartDb, cart: string, now: Int64)
    ensures ItemsOf(Clear(db, cart, now).items, cart) == []
  {
    DropCartEmpties(db.items, cart);
  }

  /** Clearing takes every row of the cart and no other, in place, and stamps the cart; a cart without rows is not
    * touched. */
  lemma ClearMeaning(db: CartDb, cart: string, now: Int64)
    ensures var db' := Call(db, OpClear(cart), now);
            && (forall row :: row in db'.items <==> row in db.items && row.cart != cart)
            && Subsequence(db'.items, db.items) && db'.nextId == db.nextId
            && ((exists row :: row in db.items && row.cart == cart) && cart in db.carts ==>
                  db'.carts == db.carts[cart := CartRow(db.carts[cart].createdAt, now)])
            && ((forall row :: row in db.items ==> row.cart != cart) ==> db' == db)
            && Handle(db, ClearAfterCheckout(cart), now) == db'
  {
    DropCartEmpties(db.items, cart);
    DeletionsAreSubsequences(db.items, cart, 0);
    WholeIsSubsequence(db.items);
    ItemsOfIsSubsequence(db.items, cart);
    forall row
      ensures row in DropCart(db.items, cart) <==> row in db.items && row.cart != cart
    {
      DeletionMeaning(db.items, cart, 0, row);
    }
    if ItemsOf(db.items, cart) != [] {
      var at := SubsequenceFrom(ItemsOf(db.items, cart), db.items);
      assert db.items[at[0]].cart == cart && db.items[at[0]] in db.items;
    }
  }

  /** An add leaves one row for its key with the new snapshot, whatever the row showed before; a row that was
    * there keeps its id and place, and every other row is as it was. */
  lemma AddMeaning(db: CartDb, cart: string, item: NewItem, now: Int64)
    requires CartInv(db) && AddItem(db, cart, item, now).Ok?
    ensures var items, items' := db.items, AddItem(db, cart, item, now).value.items;
            var k := Find(items', cart, item.product, item.variant);
            && k == Find(items, cart, item.product, item.variant) < |items'|
            && (forall i :: 0 <= i < |items| && i != k ==> items'[i] == items[i])
            && |items'| == Max(|items|, k + 1)
            && items'[k].title == item.title && items'[k].price == item.price && items'[k].currency == item.currency
            && items'[k].qty == Min(MAX_QTY, (if k < |items| then items[k].qty else 0) + item.qty)
            && items'[k].addedAt == now
            && items'[k].cart == cart && items'[k].product == item.product
            && (k < |items| ==>
                  && items'[k].id == items[k].id && items'[k].variant == items[k].variant
                  && items[k].cart == cart && items[k].product == item.product
                  && (items[k].variant == item.variant || items[k].variant == Some("")))
            && (k == |items| ==>
                  && items'[k].id == db.nextId && items'[k].variant == item.variant
                  && forall row :: row in items ==>
                       !(row.cart == cart && row.product == item.product && row.variant == item.variant))
  {
    var items, items' := db.items, AddItem(db, cart, item, now).value.items;
    var k := Find(items, cart, item.product, item.variant);
    assert forall i :: 0 <= i < k ==> items'[i] == items[i];
    assert SameKey(items'[k], cart, item.product, item.variant);
  }

  /** An add is accepted exactly when the quantity is between 1 and 999, the variant is not the empty one and the
    * cart exists; it stamps the cart. */
  lemma AddSucceedsExactly(db: CartDb, cart: string, item: NewItem, now: Int64)
    ensures AddItem(db, cart, item, now).Ok? <==> 1 <= item.qty <= 999 && item.variant != Some("") && cart in db.carts
    ensures AddItem(db, cart, item, now) == Err(InvalidQty(item.qty)) <==> !(1 <= item.qty <= 999)
    ensures AddItem(db, cart, item, now).Ok? ==>
              AddItem(db, cart, item, now).value.carts == db.carts[cart := CartRow(db.carts[cart].createdAt, now)]
  {
  }

  /** Every row but the named one of this cart stays, in its place; and the cart is stamped if there was one. */
  ghost predicate RowRemoved(db: CartDb, db': CartDb, cart: string, id: int, now: Int64) {
    && (forall row :: row in db'.items <==> row in db.items && !(row.id == id && row.cart == cart))
    && Subsequence(db'.items, db.items) && db'.nextId == db.nextId
    && ((exists row :: row in db.items && row.id == id && row.cart == cart) && cart in db.carts ==>
          db'.carts == db.carts[cart := CartRow(db.carts[cart].createdAt, now)])
    && ((forall row :: row in db.items ==> !(row.id == id && row.cart == cart)) ==> db' == db)
  }

  lemma AffectsMeaning(items: seq<CartItem>, cart: string, id: int)
    ensures Affects(items, cart, id) <==> exists row :: row in items && row.id == id && row.cart == cart
  {
    if Affects(items, cart, id) {
      var i :| 0 <= i < |items| && Matches(items[i], cart, id);
      assert items[i] in items;
    }
    if row :| row in items && row.id == id && row.cart == cart {
      var i :| 0 <= i < |items| && items[i] == row;
      assert Matches(items[i], cart, id);
    }
  }

  /** Removing an item deletes the named row of this cart and nothing else; an id that the cart does not have
    * changes nothing. Setting its quantity to zero does the same. */
  lemma RemovalMeaning(db: CartDb, cart: string, id: int, now: Int64)
    ensures RowRemoved(db, Call(db, OpRemove(cart, id), now), cart, id, now)
    ensures RowRemoved(db, Call(db, OpUpdate(cart, id, 0), now), cart, id, now)
  {
    AffectsMeaning(db.items, cart, id);
    DeletionsAreSubsequences(db.items, cart, id);
    WholeIsSubsequence(db.items);
    forall row
      ensures row in DeleteRow(db.items, cart, id) <==> row in db.items && !(row.id == id && row.cart == cart)
    {
      DeletionMeaning(db.items, cart, id, row);
    }
  }

  lemma {:induction false} WholeIsSubsequence(items: seq<CartItem>)
    ensures Subsequence(items, items)
  {
    if items != [] {
      WholeIsSubsequence(items[1..]);
    }
  }

  // -----------------------------------------------------------------
  // Adding the same thing again and again
  // -----------------------------------------------------------------

  function AddAll(db: CartDb, cart: string, adds: seq<(NewItem, Int64)>): CartDb {
    if adds == [] then db
    else Call(AddAll(db, cart, adds[..|adds| - 1]), OpAdd(cart, adds[|adds| - 1].0), adds[|adds| - 1].1)
  }

  function SumQty(adds: seq<(NewItem, Int64)>): int {
    if adds == [] then 0 else SumQty(adds[..|adds| - 1]) + adds[|adds| - 1].0.qty
  }

  predicate Accepted(item: NewItem) {
    0 < item.qty <= MAX_QTY && item.variant != Some("")
  }

  lemma {:induction false} SumQtyAtLeast(adds: seq<(NewItem, Int64)>)
    requires forall i :: 0 <= i < |adds| ==> Accepted(adds[i].0)
    ensures SumQty(adds) >= |adds|
  {
    if adds != [] {
      SumQtyAtLeast(adds[..|adds| - 1]);
    }
  }

  /** Adds to one key, starting without it, leave one row whose quantity is `min(999, sum)`. */
  lemma {:induction false} AddsAccumulate(db: CartDb, cart: string, product: string, variant: Option<string>,
      adds: seq<(NewItem, Int64)>)
    requires CartInv(db) && cart in db.carts && Find(db.items, cart, product, variant) == |db.items|
    requires forall i :: 0 <= i < |adds| ==>
        Accepted(adds[i].0) && adds[i].0.product == product && adds[i].0.variant == variant
    ensures var db' := AddAll(db, cart, adds);
            var k := Find(db'.items, cart, product, variant);
            && cart in db'.carts
            && (adds == [] ==> db' == db)
            && (adds != [] ==> k == |db.items| == |db'.items| - 1 && db'.items[k].qty == Min(MAX_QTY, SumQty(adds)))
            && db'.items[..|db.items|] == db.items
  {
    if adds != [] {
      var init, item := adds[..|adds| - 1], adds[|adds| - 1].0;
      AddsAccumulate(db, cart, product, variant, init);
      SumQtyAtLeast(init);
      assert Accepted(item) && item.product == product && item.variant == variant;
      var before, after := AddAll(db, cart, init), AddAll(db, cart, adds);
      var n := |db.items|;
      assert SameKey(after.items[n], cart, product, variant);
      assert forall i :: 0 <= i < n ==> after.items[i] == db.items[i];
    }
  }

  // -----------------------------------------------------------------
  // One currency per cart
  // -----------------------------------------------------------------

  predicate OneCurrency(items: seq<CartItem>) {
    forall i, j :: 0 <= i < |items| && 0 <= j < |items| && items[i].cart == items[j].cart ==>
        items[i].currency == items[j].currency
  }

  /** What the catalog shows of a published product. */
  datatype CardView = CardView(id: string, seller: string, title: string, price: Int64, currency: string)

  datatype Response = ToProductPage | ToCart | BadRequest | Failed(error: CartError)

  /** Handlers see a cookie only as the hash it stands for; `token` is the hash of a new random token. */
  datatype Request =
    | PostAdd(cookie: Option<string>, token: string, card: Option<CardView>, qty: Int64)
    | PostUpdate(cookie: Option<string>, id: int, qty: Int64)
    | PostRemove(cookie: Option<string>, id: int)
    | ClearAfterCheckout(cart: string)

  function FindCart(db: CartDb, cookie: Option<string>): Option<string> {
    if cookie.Some? && cookie.value in db.carts then cookie else None
  }

  /** `render_add`: only the first listed item is compared with the new one. */
  function HandleAdd(db: CartDb, cookie: Option<string>, token: string, card: Option<CardView>, qty: Int64,
      now: Int64): (CartDb, Response) {
    if card.None? then (db, ToProductPage) else
    var found := FindCart(db, cookie);
    if found.None? && token in db.carts then (db, Failed(ConstraintFailed)) else  // two random tokens with one hash
    var db1 := if found.Some? then db else CreateCart(db, token, now);
    var cart := if found.Some? then found.value else token;
    AddToOpen(db1, cart, card.value, qty, now)
  }

  /** The add itself, once the cart is open. */
  function AddToOpen(db1: CartDb, cart: string, card: CardView, qty: Int64, now: Int64): (CartDb, Response) {
    var listed := ItemsOf(db1.items, cart);
    if listed != [] && listed[0].currency != card.currency then (db1, BadRequest) else
    var r := AddItem(db1, cart, NewItem(card.id, None, qty, card.title, card.price, card.currency), now);
    if r.Ok? then (r.value, ToCart) else (db1, Failed(r.error))
  }

  function Hash(cookie: Option<string>): string {
    if cookie.Some? then cookie.value else ""
  }

  /** A handler that finds no cart changes nothing. */
  function HandleCall(db: CartDb, cookie: Option<string>, op: CartOp, now: Int64): CartDb {
    if FindCart(db, cookie).None? then db else Call(db, op, now)
  }

  function Handle(db: CartDb, request: Request, now: Int64): CartDb {
    match request
    case PostAdd(cookie, token, card, qty) => HandleAdd(db, cookie, token, card, qty, now).0
    case PostUpdate(cookie, id, qty) => HandleCall(db, cookie, OpUpdate(Hash(cookie), id, qty), now)
    case PostRemove(cookie, id) => HandleCall(db, cookie, OpRemove(Hash(cookie), id), now)
    case ClearAfterCheckout(cart) => Call(db, OpClear(cart), now)
  }

  // -----------------------------------------------------------------
  // What each request does
  // -----------------------------------------------------------------

  /** The visitor's own cart loses the named row; without a cart nothing happens. */
  lemma RemoveRequestMeaning(db: CartDb, cookie: Option<string>, id: int, now: Int64)
    ensures var db' := Handle(db, PostRemove(cookie, id), now);
            if cookie.Some? && cookie.value in db.carts then RowRemoved(db, db', cookie.value, id, now) else db' == db
  {
    if cookie.Some? {
      RemovalMeaning(db, cookie.value, id, now);
    }
  }

  /** The named row of the visitor's own cart gets the quantity, or goes when it is zero; a quantity that is not
    * between 0 and 999 changes nothing. */
  lemma UpdateRequestMeaning(db: CartDb, cookie: Option<string>, id: int, qty: Int64, now: Int64)
    ensures var db' := Handle(db, PostUpdate(cookie, id, qty), now);
            if cookie.None? || cookie.value !in db.carts || !(0 <= qty <= 999) then db' == db
            else if qty == 0 then RowRemoved(db, db', cookie.value, id, now)
            else && |db'.items| == |db.items| && db'.nextId == db.nextId
                 && (forall i :: 0 <= i < |db.items| ==>
                       var row := db.items[i];
                       db'.items[i] == if row.id == id && row.cart == cookie.value then row.(qty := qty) else row)
                 && db'.carts == if exists row :: row in db.items && row.id == id && row.cart == cookie.value
                                 then db.carts[cookie.value := CartRow(db.carts[cookie.value].createdAt, now)]
                                 else db.carts
  {
    if cookie.Some? && cookie.value in db.carts && 0 <= qty <= 999 {
      RemovalMeaning(db, cookie.value, id, now);
      AffectsMeaning(db.items, cookie.value, id);
      UpdateMeaning(db, cookie.value, id, qty, now);
    }
  }

  /** The row that an accepted add leaves: what the catalog shows of the product, the quantity added to what was
    * there and cut at 999, the time of the request. */
  predicate RowAdded(row: CartItem, before: int, cart: string, card: CardView, qty: Int64, now: Int64) {
    && row.cart == cart && row.product == card.id && (row.variant.None? || row.variant == Some(""))
    && row.title == card.title && row.price == card.price && row.currency == card.currency
    && row.qty == Min(999, before + qty) && row.addedAt == now
  }

  /** Which cart an add goes into: the visitor's, or a new one. */
  ghost predicate AddsInto(db: CartDb, cookie: Option<string>, token: string, cart: string) {
    if cookie.Some? && cookie.value in db.carts then cart == cookie.value else cart == token && token !in db.carts
  }

  /** The oldest row of the cart, if any, has this currency. */
  ghost predicate OldestHas(items: seq<CartItem>, cart: string, currency: string) {
    forall row :: row in items && row.cart == cart &&
                  (forall other :: other in items && other.cart == cart ==> row.id <= other.id) ==>
      row.currency == currency
  }

  /** The list starts with the row of the least id. */
  lemma FirstListed(db: CartDb, cart: string)
    requires CartInv(db)
    ensures var listed := ItemsOf(db.items, cart);
            && (listed != [] ==> listed[0] in db.items && listed[0].cart == cart)
            && (forall row :: row in db.items && row.cart == cart ==>
                  listed != [] && (row == listed[0] || listed[0].id < row.id))
  {
    ListMeaning(db, cart);
    var listed := ItemsOf(db.items, cart);
    if listed != [] {
      assert listed[0] in listed;
    }
    forall row | row in db.items && row.cart == cart
      ensures listed != [] && (row == listed[0] || listed[0].id < row.id)
    {
      assert row in listed;
      var i :| 0 <= i < |listed| && listed[i] == row;
    }
  }

  lemma OldestIsListedFirst(db: CartDb, cart: string, currency: string)
    requires CartInv(db)
    ensures var listed := ItemsOf(db.items, cart);
            OldestHas(db.items, cart, currency) <==> (listed != [] ==> listed[0].currency == currency)
  {
    FirstListed(db, cart);
  }

  /** Row `k` is the added one, in place of the row of the same product or behind all others. */
  ghost predicate RowAddedAt(items: seq<CartItem>, items': seq<CartItem>, k: nat, cart: string, card: CardView,
                             qty: Int64, now: Int64) {
    && k <= |items| && |items'| == Max(|items|, k + 1)
    && (forall i :: 0 <= i < |items| && i != k ==> items'[i] == items[i])
    && RowAdded(items'[k], if k < |items| then items[k].qty else 0, cart, card, qty, now)
    && (k < |items| ==> items'[k].id == items[k].id && items[k].cart == cart
                           && items[k].product == card.id)
  }

  /** What an accepted add does to the rows and to the cart. */
  lemma AddedRow(db: CartDb, cart: string, card: CardView, qty: Int64, now: Int64)
    requires CartInv(db) && cart in db.carts && 1 <= qty <= 999
    ensures var r := AddItem(db, cart, NewItem(card.id, None, qty, card.title, card.price, card.currency), now);
            && r.Ok? && r.value.carts == db.carts[cart := CartRow(db.carts[cart].createdAt, now)]
            && exists k: nat :: RowAddedAt(db.items, r.value.items, k, cart, card, qty, now)
  {
    var item := NewItem(card.id, None, qty, card.title, card.price, card.currency);
    AddSucceedsExactly(db, cart, item, now);
    AddMeaning(db, cart, item, now);
    var k := Find(db.items, cart, item.product, item.variant);
    assert SameKey(AddItem(db, cart, item, now).value.items[k], cart, card.id, None);
    assert RowAddedAt(db.items, AddItem(db, cart, item, now).value.items, k, cart, card, qty, now);
  }

  /** The cart that an add goes into, with its rows, before the add. */
  lemma OpenedCart(db: CartDb, cookie: Option<string>, token: string, cart: string, now: Int64)
    requires CartInv(db) && AddsInto(db, cookie, token, cart)
    ensures var db1 := if FindCart(db, cookie).Some? then db else CreateCart(db, token, now);
            && CartInv(db1) && db1.items == db.items && cart in db1.carts
            && db1.carts == db.carts[cart := if cart in db.carts then db.carts[cart] else CartRow(now, now)]
  {
  }

  lemma AddToOpenMeaning(db: CartDb, cart: string, card: CardView, qty: Int64, now: Int64)
    requires CartInv(db) && cart in db.carts
    ensures var (db', response) := AddToOpen(db, cart, card, qty, now);
            && response == (if !OldestHas(db.items, cart, card.currency) then BadRequest
                            else if !(1 <= qty <= 999) then Failed(InvalidQty(qty)) else ToCart)
            && (response != ToCart ==> db' == db)
            && (response == ToCart ==>
                  && db'.carts == db.carts[cart := CartRow(db.carts[cart].createdAt, now)]
                  && exists k: nat :: RowAddedAt(db.items, db'.items, k, cart, card, qty, now))
  {
    OldestIsListedFirst(db, cart, card.currency);
    AddSucceedsExactly(db, cart, NewItem(card.id, None, qty, card.title, card.price, card.currency), now);
    if 1 <= qty <= 999 {
      AddedRow(db, cart, card, qty, now);
    }
  }

  /** What the visitor is answered, and why: an add succeeds exactly when the product is on sale, the cart's oldest
    * item has the same currency and the quantity is between 1 and 999. Then one row has the product, as the
    * catalog shows it, and every other row is as it was; otherwise no row changes. */
  lemma AddRequestMeaning(db: CartDb, cookie: Option<string>, token: string, card: Option<CardView>, qty: Int64,
                          now: Int64, cart: string)
    requires CartInv(db) && AddsInto(db, cookie, token, cart)
    ensures var (db', response) := HandleAdd(db, cookie, token, card, qty, now);
            && response == (if card.None? then ToProductPage
                            else if !OldestHas(db.items, cart, card.value.currency) then BadRequest
                            else if !(1 <= qty <= 999) then Failed(InvalidQty(qty)) else ToCart)
            && (response != ToCart ==> db'.items == db.items)
            && (card.None? ==> db' == db)
            && (response == ToCart ==>
                  && db'.carts == db.carts[
                                    cart := CartRow(if cart in db.carts then db.carts[cart].createdAt else now, now)]
                  && exists k: nat :: RowAddedAt(db.items, db'.items, k, cart, card.value, qty, now))
  {
    if card.Some? {
      var db1 := if FindCart(db, cookie).Some? then db else CreateCart(db, token, now);
      OpenedCart(db, cookie, token, cart, now);
      AddToOpenMeaning(db1, cart, card.value, qty, now);
      CartsAgain(db, db1, cart, now);
    }
  }

  /** A new cart whose token is taken already is not opened. */
  lemma AddWithTakenToken(db: CartDb, cookie: Option<string>, token: string, card: Option<CardView>, qty: Int64,
                          now: Int64)
    requires (cookie.None? || cookie.value !in db.carts) && token in db.carts
    ensures HandleAdd(db, cookie, token, card, qty, now)
         == (db, if card.None? then ToProductPage else Failed(ConstraintFailed))
  {
  }

  lemma CartsAgain(db: CartDb, db1: CartDb, cart: string, now: Int64)
    requires db1.carts == db.carts[cart := if cart in db.carts then db.carts[cart] else CartRow(now, now)]
    ensures db1.carts[cart := CartRow(db1.carts[cart].createdAt, now)]
         == db.carts[cart := CartRow(if cart in db.carts then db.carts[cart].createdAt else now, now)]
  {
  }

  /** The repository alone does not keep a cart in one currency: an add does so exactly when it brings the
    * currency of every other row of the cart. */
  lemma AddKeepsOneCurrencyExactly(db: CartDb, cart: string, item: NewItem, now: Int64)
    requires CartInv(db) && OneCurrency(db.items) && AddItem(db, cart, item, now).Ok?
    ensures OneCurrency(AddItem(db, cart, item, now).value.items) <==>
            forall row :: row in db.items && row.cart == cart && !SameKey(row, cart, item.product, item.variant) ==>
                row.currency == item.currency
  {
    var items' := AddItem(db, cart, item, now).value.items;
    var k := Find(db.items, cart, item.product, item.variant);
    assert items'[k].cart == cart && items'[k].currency == item.currency;
    assert forall i :: 0 <= i < |db.items| && i != k ==> items'[i] == db.items[i];
    if OneCurrency(items') {
      forall row | row in db.items && row.cart == cart && !SameKey(row, cart, item.product, item.variant)
        ensures row.currency == item.currency
      {
        var i :| 0 <= i < |db.items| && db.items[i] == row;
        assert items'[i] == row;
      }
    }
    if k < |db.items| {
      assert forall i :: 0 <= i < |db.items| && i != k ==> !SameKey(db.items[i], cart, item.product, item.variant);
    }
  }

  lemma SubsequenceKeepsOneCurrency(items: seq<CartItem>, sub: seq<CartItem>)
    requires OneCurrency(items) && Subsequence(sub, items)
    ensures OneCurrency(sub)
  {
    var at := SubsequenceFrom(sub, items);
  }

  lemma HandleAddKeeps(db: CartDb, cookie: Option<string>, token: string, card: Option<CardView>, qty: Int64,
      now: Int64)
    requires CartInv(db) && OneCurrency(db.items)
    ensures var db' := HandleAdd(db, cookie, token, card, qty, now).0; CartInv(db') && OneCurrency(db'.items)
  {
    var found := FindCart(db, cookie);
    var db1 := if found.Some? then db else CreateCart(db, token, now);
    var cart := if found.Some? then found.value else token;
    assert found.None? && token !in db.carts ==> CartInv(db1);
    if card.Some? && (found.Some? || token !in db.carts) {
      var item := NewItem(card.value.id, None, qty, card.value.title, card.value.price, card.value.currency);
      var r := AddItem(db1, cart, item, now);
      var listed := ItemsOf(db1.items, cart);
      if r.Ok? && (listed == [] || listed[0].currency == item.currency) {
        AddKeepsInv(db1, cart, item, now);
        ListMeaning(db1, cart);
        forall row | row in db1.items && row.cart == cart
          ensures row.currency == item.currency
        {
          assert row in listed && listed[0] in db1.items;
        }
        AddKeepsOneCurrencyExactly(db1, cart, item, now);
      }
    }
  }

  /** Only adds can bring in a currency. */
  lemma CallKeepsOneCurrency(db: CartDb, op: CartOp, now: Int64)
    requires OneCurrency(db.items) && !op.OpAdd?
    ensures OneCurrency(Call(db, op, now).items)
  {
    match op {
      case OpCreate(_) =>
      case OpUpdate(cart, id, qty) =>
        DeletionsAreSubsequences(db.items, cart, id);
        SubsequenceKeepsOneCurrency(db.items, DeleteRow(db.items, cart, id));
        SetQtyRows(db.items, cart, id, qty);
      case OpRemove(cart, id) =>
        DeletionsAreSubsequences(db.items, cart, id);
        SubsequenceKeepsOneCurrency(db.items, DeleteRow(db.items, cart, id));
      case OpClear(cart) =>
        DeletionsAreSubsequences(db.items, cart, 0);
        SubsequenceKeepsOneCurrency(db.items, DropCart(db.items, cart));
    }
  }

  lemma HandleKeepsOneCurrency(db: CartDb, request: Request, now: Int64)
    requires CartInv(db) && OneCurrency(db.items)
    ensures CartInv(Handle(db, request, now)) && OneCurrency(Handle(db, request, now).items)
  {
    match request {
      case PostAdd(cookie, token, card, qty) => HandleAddKeeps(db, cookie, token, card, qty, now);
      case PostUpdate(cookie, id, qty) =>
        CallKeepsInv(db, OpUpdate(Hash(cookie), id, qty), now);
        CallKeepsOneCurrency(db, OpUpdate(Hash(cookie), id, qty), now);
      case PostRemove(cookie, id) =>
        CallKeepsInv(db, OpRemove(Hash(cookie), id), now);
        CallKeepsOneCurrency(db, OpRemove(Hash(cookie), id), now);
      case ClearAfterCheckout(cart) =>
        CallKeepsInv(db, OpClear(cart), now);
        CallKeepsOneCurrency(db, OpClear(cart), now);
    }
  }

  function Serve(requests: seq<(Request, Int64)>): CartDb {
    if requests == [] then EMPTY_DB
    else Handle(Serve(requests[..|requests| - 1]), requests[|requests| - 1].0, requests[|requests| - 1].1)
  }

  /** For every run of handlers executed one at a time, whatever the catalog shows at each moment, all items
    * of a cart share one currency. */
  lemma {:induction false} SingleCurrencyCarts(requests: seq<(Request, Int64)>)
    ensures CartInv(Serve(requests)) && OneCurrency(Serve(requests).items)
  {
    if requests != [] {
      SingleCurrencyCarts(requests[..|requests| - 1]);
      HandleKeepsOneCurrency(Serve(requests[..|requests| - 1]), requests[|requests| - 1].0, requests[|requests| - 1].1);
    }
  }

  // -----------------------------------------------------------------
  // The repository
  // -----------------------------------------------------------------

  class CartRepo {
    var carts: map<string, CartRow>
    var items: seq<CartItem>
    var nextId: nat

    constructor ()
      ensures State() == EMPTY_DB
    {
      carts, items, nextId := map[], [], 0;
    }

    ghost function State(): CartDb
      reads this
    {
      CartDb(carts, items, nextId)
    }

    /** A clash of token hashes is refused by the primary key. */
    method Create(hash: string, now: Int64) returns (ok: bool)
      modifies this
      ensures ok <==> hash !in old(carts)
      ensures carts == if ok then old(carts)[hash := CartRow(now, now)] else old(carts)
      ensures State() == Call(old(State()), OpCreate(hash), now)
    {
      ok := hash !in carts;
      if ok {
        carts := carts[hash := CartRow(now, now)];
      }
    }

    method Add(cart: string, item: NewItem, now: Int64) returns (r: Result<(), CartError>)
      modifies this
      ensures r.Err? ==> AddItem(old(State()), cart, item, now) == Err(r.error) && State() == old(State())
      ensures r.Ok? ==> AddItem(old(State()), cart, item, now) == Ok(State())
    {
      if item.qty <= 0 || item.qty > MAX_QTY {
        return Err(InvalidQty(item.qty));
      }
      if item.variant == Some("") || cart !in carts {
        return Err(ConstraintFailed);
      }
      var k := Find(items, cart, item.product, item.variant);
      if k < |items| {
        items := items[k := Merged(items[k], item, now)];
      } else {
        items := items + [CartItem(nextId, cart, item.product, item.variant, item.qty, item.title, item.price,
            item.currency, now)];
        nextId := nextId + 1;
      }
      carts := Touch(carts, cart, now);
      return Ok(());
    }

    method Update(cart: string, id: int, qty: Int64, now: Int64) returns (r: Result<(), CartError>)
      modifies this
      ensures r.Err? ==> UpdateQty(old(State()), cart, id, qty, now) == Err(r.error) && State() == old(State())
      ensures r.Ok? ==> UpdateQty(old(State()), cart, id, qty, now) == Ok(State())
    {
      if !(0 <= qty <= MAX_QTY) {
        return Err(InvalidQty(qty));
      }
      if Affects(items, cart, id) {
        items := if qty == 0 then DeleteRow(items, cart, id) else SetQty(items, cart, id, qty);
        carts := Touch(carts, cart, now);
      }
      return Ok(());
    }

    method Remove(cart: string, id: int, now: Int64)
      modifies this
      ensures State() == RemoveItem(old(State()), cart, id, now)
      ensures forall row :: row in items <==> row in old(items) && !(row.id == id && row.cart == cart)
    {
      RemovalMeaning(State(), cart, id, now);
      if Affects(items, cart, id) {
        items := DeleteRow(items, cart, id);
        carts := Touch(carts, cart, now);
      }
    }

    method List(cart: string) returns (list: seq<CartItem>)
      ensures list == ItemsOf(items, cart)
    {
      list := [];
      var k := 0;
      while k < |items|
        invariant k <= |items|
        invariant list + ItemsOf(items[k..], cart) == ItemsOf(items, cart)
      {
        assert items[k..][1..] == items[k + 1..];
        if items[k].cart == cart {
          list := list + [items[k]];
        }
        k := k + 1;
      }
    }

    method ClearAll(cart: string, now: Int64)
      modifies this
      ensures State() == Clear(old(State()), cart, now)
    {
      var rows := List(cart);
      if rows != [] {
        items := DropCart(items, cart);
        carts := Touch(carts, cart, now);
      }
    }
  }

  // -----------------------------------------------------------------
  // The handlers
  // -----------------------------------------------------------------

  /** `get_or_create_cart`: the cart of the cookie, or a new one. */
  method GetOrCreateCart(carts: CartRepo, cookie: Option<string>, token: string, now: Int64)
    returns (cart: Option<string>)
    modifies carts
    ensures var found := FindCart(old(carts.State()), cookie);
            && (found.Some? ==> cart == found && carts.State() == old(carts.State()))
            && (found.None? && token in old(carts.carts) ==> cart == None && carts.State() == old(carts.State()))
            && (found.None? && token !in old(carts.carts) ==>
                cart == Some(token) && carts.State() == CreateCart(old(carts.State()), token, now))
  {
    if cookie.Some? && cookie.value in carts.carts {
      return cookie;
    }
    var ok := carts.Create(token, now);
    cart := if ok then Some(token) else None;
  }

  method RenderAdd(carts: CartRepo, cookie: Option<string>, token: string, card: Option<CardView>, qty: Int64,
      now: Int64)
    returns (response: Response)
    modifies carts
    ensures (carts.State(), response) == HandleAdd(old(carts.State()), cookie, token, card, qty, now)
  {
    if card.None? {
      return ToProductPage;
    }
    var cart := GetOrCreateCart(carts, cookie, token, now);
    if cart.None? {
      return Failed(ConstraintFailed);
    }
    var listed := carts.List(cart.value);
    if listed != [] && listed[0].currency != card.value.currency {
      return BadRequest;
    }
    var item := NewItem(card.value.id, None, qty, card.value.title, card.value.price, card.value.currency);
    var r := carts.Add(cart.value, item, now);
    response := if r.Ok? then ToCart else Failed(r.error);
  }

  method RenderUpdate(carts: CartRepo, cookie: Option<string>, id: int, qty: Int64, now: Int64)
    returns (response: Response)
    modifies carts
    ensures carts.State() == Handle(old(carts.State()), PostUpdate(cookie, id, qty), now)
    ensures response == if cookie.Some? && cookie.value in old(carts.carts) && !(0 <= qty <= 999)
                        then Failed(InvalidQty(qty)) else ToCart
  {
    response := ToCart;
    if cookie.Some? && cookie.value in carts.carts {
      var r := carts.Update(cookie.value, id, qty, now);
      if r.Err? {
        response := Failed(r.error);
      }
    }
  }

  method RenderRemove(carts: CartRepo, cookie: Option<string>, id: int, now: Int64)
    modifies carts
    ensures carts.State() == Handle(old(carts.State()), PostRemove(cookie, id), now)
  {
    if cookie.Some? && cookie.value in carts.carts {
      carts.Remove(cookie.value, id, now);
    }
  }
}
