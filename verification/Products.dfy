/** The seller's side (crates/product/src/repository.rs, crates/product/src/extras.rs): every write changes
  * the product tables and appends its event in one transaction. */
module Products {
  import opened Prelude
  import opened Projection
  import opened Outbox

  datatype ProductStatus = Draft | Published | Archived

  function StatusName(s: ProductStatus): string {
    match s
    case Draft => "draft"
    case Published => PUBLISHED
    case Archived => "archived"
  }

  datatype Product = Product(seller: string, title: string, slug: string, description: string, price: Int64,
                             currency: string, status: ProductStatus, createdAt: Int64, updatedAt: Int64)

  datatype DataType = StringType | NumberType | EnumType | BoolType

  datatype AttrValue = AttrValue(dataType: DataType, text: Option<string>, num: Option<real>)

  /** `products` and `product_attribute_values`, keyed as in the migration. */
  datatype Source = Source(products: map<string, Product>, values: map<AttrKey, AttrValue>)

  const EMPTY_SOURCE := Source(map[], map[])

  /** The child writes that touch nothing the catalog reads but still announce the product as updated. */
  datatype ChildWrite = DigitalConfigSet | VariantAdded | VariantUpdated | VariantRemoved | MediaAdded
                      | MediaRemoved | TranslationSet

  /** The writes that insert a row with a foreign key on `products`. */
  predicate ChecksProduct(w: ChildWrite) {
    w.DigitalConfigSet? || w.VariantAdded? || w.MediaAdded?
  }

  function Reason(w: ChildWrite): (r: string)
    ensures r != "" && r != ATTRIBUTE_VALUE_SET && r != ATTRIBUTE_VALUE_CLEARED
  {
    match w
    case DigitalConfigSet => "digital_config"
    case VariantAdded => "variant_added"
    case VariantUpdated => "variant_updated"
    case VariantRemoved => "variant_removed"
    case MediaAdded => "media_added"
    case MediaRemoved => "media_removed"
    case TranslationSet => "translation_set"
  }

  datatype Op =
    | CreateProduct(id: string, product: Product)
    | UpdateProduct(id: string, title: string, slug: string, description: string, price: Int64, currency: string)
    | SetStatusOf(id: string, status: ProductStatus)
    | DeleteProduct(id: string)
    | SetAttributeValue(id: string, attribute: string, val: AttrValue)
    | ClearAttributeValue(id: string, attribute: string)
    | WriteChild(id: string, write: ChildWrite)

  datatype ProductError = ConstraintFailed(table: string)

  // -----------------------------------------------------------------
  // Payloads
  // -----------------------------------------------------------------

  function Json(text: Option<string>): Json {
    if text.Some? then JStr(text.value) else JNull
  }

  function JsonNum(num: Option<real>): Json {
    if num.Some? then JReal(num.value) else JNull
  }

  function Snapshot(id: string, p: Product): Event {
    Event(ProductCreated, map[
      KId := JStr(id), KSellerId := JStr(p.seller), KTitle := JStr(p.title), KSlug := JStr(p.slug),
      KDescription := JStr(p.description), KPriceMinor := JInt(p.price), KCurrency := JStr(p.currency),
      KStatus := JStr(StatusName(p.status)), KCreatedAt := JInt(p.createdAt), KUpdatedAt := JInt(p.updatedAt)])
  }

  function CoreUpdated(op: Op, now: Int64): Event
    requires op.UpdateProduct?
  {
    Event(ProductUpdated, map[
      KId := JStr(op.id), KTitle := JStr(op.title), KSlug := JStr(op.slug), KDescription := JStr(op.description),
      KPriceMinor := JInt(op.price), KCurrency := JStr(op.currency), KUpdatedAt := JInt(now)])
  }

  function ValueSet(id: string, attribute: string, v: AttrValue, now: Int64): Event {
    Event(ProductUpdated, map[
      KId := JStr(id), KReason := JStr(ATTRIBUTE_VALUE_SET), KAttributeId := JStr(attribute),
      KValText := Json(v.text), KValNum := JsonNum(v.num), KUpdatedAt := JInt(now)])
  }

  function ValueCleared(id: string, attribute: string, now: Int64): Event {
    Event(ProductUpdated, map[
      KId := JStr(id), KReason := JStr(ATTRIBUTE_VALUE_CLEARED), KAttributeId := JStr(attribute),
      KUpdatedAt := JInt(now)])
  }

  function ChildWritten(id: string, w: ChildWrite, now: Int64): Event {
    Event(ProductUpdated, map[KId := JStr(id), KReason := JStr(Reason(w)), KUpdatedAt := JInt(now)])
  }

  function StatusChanged(kind: EventType, id: string, to: ProductStatus, now: Int64): Event {
    Event(kind, map[KId := JStr(id), KTo := JStr(StatusName(to)), KUpdatedAt := JInt(now)])
  }

  function Deleted(id: string): Event {
    Event(ProductDeleted, map[KId := JStr(id)])
  }

  /** The event of a status transition; most transitions have none. */
  function StatusTransitionEvent(from: ProductStatus, to: ProductStatus): Option<EventType> {
    match (from, to)
    case (Draft, Published) => Some(ProductPublished)
    case (Published, Archived) => Some(ProductArchived)
    case (Published, Draft) => Some(ProductUnpublished)
    case _ => None
  }

  // -----------------------------------------------------------------
  // One write: new tables and the events of the same transaction
  // -----------------------------------------------------------------

  /** Another product of this seller holds the slug. */
  predicate SellerSlugTaken(products: map<string, Product>, id: string, seller: string, slug: string) {
    exists other :: other in products && other != id && products[other].seller == seller && products[other].slug == slug
  }

  /** The constraint that makes the database refuse a write. */
  predicate Refused(s: Source, op: Op) {
    match op
    case CreateProduct(id, p) => id in s.products || SellerSlugTaken(s.products, id, p.seller, p.slug)
    case UpdateProduct(id, _, slug, _, _, _) =>
      id in s.products && SellerSlugTaken(s.products, id, s.products[id].seller, slug)
    case SetAttributeValue(id, _, _) => id !in s.products  // foreign key
    case WriteChild(id, w) => ChecksProduct(w) && id !in s.products  // foreign key
    case _ => false
  }

  function Edited(p: Product, op: Op, now: Int64): Product
    requires op.UpdateProduct?
  {
    p.(title := op.title, slug := op.slug, description := op.description, price := op.price,
       currency := op.currency, updatedAt := now)
  }

  function NextProducts(products: map<string, Product>, op: Op, now: Int64): map<string, Product> {
    match op
    case CreateProduct(id, p) => products[id := p]
    case UpdateProduct(id, _, _, _, _, _) =>
      if id in products then products[id := Edited(products[id], op, now)] else products
    case SetStatusOf(id, to) =>
      if id !in products || products[id].status == to then products
      else products[id := products[id].(status := to, updatedAt := now)]
    case DeleteProduct(id) => products - {id}
    case _ => products
  }

  function NextValues(values: map<AttrKey, AttrValue>, op: Op): map<AttrKey, AttrValue> {
    match op
    case SetAttributeValue(id, attribute, v) => values[(id, attribute) := v]
    case ClearAttributeValue(id, attribute) => values - {(id, attribute)}
    case DeleteProduct(id) => map k | k in values && k.0 != id :: values[k]  // ON DELETE CASCADE
    case _ => values
  }

  /** The product tables after a write. */
  function After(s: Source, op: Op, now: Int64): Source {
    Source(NextProducts(s.products, op, now), NextValues(s.values, op))
  }

  /** The event of the same transaction. An update, a cleared value and most child writes announce
    * themselves even when no such product exists. */
  function EventOf(s: Source, op: Op, now: Int64): Option<Event> {
    match op
    case CreateProduct(id, p) => Some(Snapshot(id, p))
    case UpdateProduct(_, _, _, _, _, _) => Some(CoreUpdated(op, now))
    case SetStatusOf(id, to) =>
      if id !in s.products || s.products[id].status == to then None else
      var kind := StatusTransitionEvent(s.products[id].status, to);
      if kind.Some? then Some(StatusChanged(kind.value, id, to, now)) else None
    case DeleteProduct(id) => if id in s.products then Some(Deleted(id)) else None
    case SetAttributeValue(id, attribute, v) => Some(ValueSet(id, attribute, v, now))
    case ClearAttributeValue(id, attribute) => Some(ValueCleared(id, attribute, now))
    case WriteChild(id, w) => Some(ChildWritten(id, w, now))
  }

  function CardOf(p: Product): Card {
    Card(p.seller, p.title, p.slug, p.description, p.price, p.currency, StatusName(p.status), p.createdAt, p.updatedAt)
  }

  /** What the catalog is meant to do about a write. */
  function ChangeOf(s: Source, op: Op, now: Int64): Change {
    match op
    case CreateProduct(id, p) => Create(id, CardOf(p))
    case UpdateProduct(id, title, slug, description, price, currency) =>
        Core(id, title, slug, description, price, currency, now)
    case SetStatusOf(id, to) =>
      if id !in s.products || s.products[id].status == to then Ignore
      else if StatusTransitionEvent(s.products[id].status, to).None? then Ignore
      else SetStatus(id, StatusName(to), now)
    case DeleteProduct(id) => if id in s.products then Delete(id) else Ignore
    case SetAttributeValue(id, attribute, v) => SetAttr(id, attribute, v.text, v.num)
    case ClearAttributeValue(id, attribute) => ClearAttr(id, attribute)
    case WriteChild(id, w) => Touch(id, now)
  }

  lemma SnapshotDecodes(id: string, p: Product)
    ensures Decode(Snapshot(id, p)) == Create(id, CardOf(p))
  {
  }

  lemma CoreUpdatedDecodes(op: Op, now: Int64)
    requires op.UpdateProduct?
    ensures Decode(CoreUpdated(op, now)) == Core(op.id, op.title, op.slug, op.description, op.price, op.currency, now)
  {
    assert StrVal(CoreUpdated(op, now).payload, KReason) == "";
  }

  lemma ValueSetDecodes(id: string, attribute: string, v: AttrValue, now: Int64)
    ensures Decode(ValueSet(id, attribute, v, now)) == SetAttr(id, attribute, v.text, v.num)
  {
    var p := ValueSet(id, attribute, v, now).payload;
    assert StrVal(p, KReason) == ATTRIBUTE_VALUE_SET;
    assert AsStr(p, KValText) == v.text;
    assert AsNum(p, KValNum) == v.num;
  }

  lemma ValueClearedDecodes(id: string, attribute: string, now: Int64)
    ensures Decode(ValueCleared(id, attribute, now)) == ClearAttr(id, attribute)
  {
    assert StrVal(ValueCleared(id, attribute, now).payload, KReason) == ATTRIBUTE_VALUE_CLEARED;
    assert |ATTRIBUTE_VALUE_CLEARED| != |ATTRIBUTE_VALUE_SET|;
  }

  lemma ChildWrittenDecodes(id: string, w: ChildWrite, now: Int64)
    ensures Decode(ChildWritten(id, w, now)) == Touch(id, now)
  {
    assert StrVal(ChildWritten(id, w, now).payload, KReason) == Reason(w);
  }

  /** The payload contract between the two contexts: the consumer reads from the event of a write exactly
    * the change that was meant, and a write without an event means no change. */
  lemma PayloadRoundTrip(s: Source, op: Op, now: Int64)
    ensures var event := EventOf(s, op, now);
            ChangeOf(s, op, now) == if event.Some? then Decode(event.value) else Ignore
  {
    match op {
      case CreateProduct(id, p) => SnapshotDecodes(id, p);
      case UpdateProduct(_, _, _, _, _, _) => CoreUpdatedDecodes(op, now);
      case SetStatusOf(_, _) =>
      case DeleteProduct(_) =>
      case SetAttributeValue(id, attribute, v) => ValueSetDecodes(id, attribute, v, now);
      case ClearAttributeValue(id, attribute) => ValueClearedDecodes(id, attribute, now);
      case WriteChild(id, w) => ChildWrittenDecodes(id, w, now);
    }
  }

  /** Three changes of status are announced, each under its own event type, and no other one is. */
  lemma StatusEvents(s: Source, id: string, to: ProductStatus, now: Int64)
    requires id in s.products && s.products[id].status != to
    ensures var event, from := EventOf(s, SetStatusOf(id, to), now), s.products[id].status;
            if from == Draft && to == Published then
              event == Some(Event(ProductPublished, map[
                                    KId := JStr(id), KTo := JStr("published"), KUpdatedAt := JInt(now)]))
            else if from == Published && to == Archived then
              event == Some(Event(ProductArchived, map[
                                    KId := JStr(id), KTo := JStr("archived"), KUpdatedAt := JInt(now)]))
            else if from == Published && to == Draft then
              event == Some(Event(ProductUnpublished, map[
                                    KId := JStr(id), KTo := JStr("draft"), KUpdatedAt := JInt(now)]))
            else event == None
  {
  }

  /** A creation or an update is refused exactly when the id is taken, or when another product of the same
    * seller has the slug. */
  lemma RefusedExactly(s: Source, op: Op)
    ensures op.CreateProduct? ==>
              (Refused(s, op) <==>
               op.id in s.products
               || exists other :: other in s.products && s.products[other].seller == op.product.seller
                                  && s.products[other].slug == op.product.slug)
    ensures op.UpdateProduct? && op.id in s.products ==>
              (Refused(s, op) <==>
               exists other :: other in s.products && other != op.id
                               && s.products[other].seller == s.products[op.id].seller
                               && s.products[other].slug == op.slug)
    ensures op.UpdateProduct? && op.id !in s.products ==> !Refused(s, op)
    ensures op.SetAttributeValue? ==> (Refused(s, op) <==> op.id !in s.products)
    ensures op.WriteChild? ==>
              (Refused(s, op) <==>
               op.id !in s.products
               && (op.write == VariantAdded || op.write == MediaAdded || op.write == DigitalConfigSet))
    ensures op.SetStatusOf? || op.DeleteProduct? || op.ClearAttributeValue? ==> !Refused(s, op)
  {
  }

  /** No two live products of one seller share a slug. */
  ghost predicate SellerSlugsDistinct(products: map<string, Product>) {
    forall a, b :: a in products && b in products && a != b && products[a].seller == products[b].seller ==>
      products[a].slug != products[b].slug
  }

  lemma WriteKeepsSellerSlugs(s: Source, op: Op, now: Int64)
    requires SellerSlugsDistinct(s.products) && !Refused(s, op)
    ensures SellerSlugsDistinct(After(s, op, now).products)
  {
    match op {
      case CreateProduct(_, _) =>
      case UpdateProduct(_, _, _, _, _, _) =>
      case SetStatusOf(_, _) =>
      case DeleteProduct(_) =>
      case SetAttributeValue(_, _, _) =>
      case ClearAttributeValue(_, _) =>
      case WriteChild(_, _) =>
    }
  }

  // -----------------------------------------------------------------
  // Agreement with a catalog that has seen every event, in order
  // -----------------------------------------------------------------

  /** No two live products share a slug, whoever sells them. */
  ghost predicate SlugsDistinct(products: map<string, Product>) {
    forall a, b :: a in products && b in products && a != b ==> products[a].slug != products[b].slug
  }

  /** The catalog shows this product: every field but status and `updated_at`. */
  predicate Shows(c: Card, p: Product) {
    && c.seller == p.seller && c.title == p.title && c.slug == p.slug && c.description == p.description
    && c.price == p.price && c.currency == p.currency && c.createdAt == p.createdAt
  }

  ghost predicate CardsAgree(products: map<string, Product>, cards: map<string, Card>) {
    && cards.Keys == products.Keys
    && forall id :: id in products ==> Shows(cards[id], products[id])
  }

  /** The attribute values that the taxonomy knows, joined with the category of their attribute. */
  function Indexed(values: map<AttrKey, AttrValue>, taxonomy: map<string, string>): map<AttrKey, AttrRow> {
    map k | k in values && k.1 in taxonomy :: AttrRow(taxonomy[k.1], values[k].text, values[k].num)
  }

  ghost predicate Agrees(taxonomy: map<string, string>, s: Source, t: Tables) {
    CardsAgree(s.products, t.cards) && t.attrs == Indexed(s.values, taxonomy)
  }

  /** Attribute values belong to a product and go with it. */
  ghost predicate ValuesOwned(s: Source) {
    forall k :: k in s.values ==> k.0 in s.products
  }

  lemma WriteKeepsValuesOwned(s: Source, op: Op, now: Int64)
    requires ValuesOwned(s) && !Refused(s, op)
    ensures ValuesOwned(After(s, op, now))
  {
  }

  /** One write and its event keep the two sides in agreement exactly when the write leaves all live slugs
    * distinct. The source checks slugs per seller only, the catalog across all sellers. */
  lemma WriteKeepsAgreement(taxonomy: map<string, string>, s: Source, t: Tables, op: Op, now: Int64)
    requires Agrees(taxonomy, s, t) && ValuesOwned(s) && CardSlugsDistinct(t.cards) && !Refused(s, op)
    ensures Agrees(taxonomy, After(s, op, now), Step(taxonomy, t, ChangeOf(s, op, now))) <==>
        SlugsDistinct(After(s, op, now).products)
  {
    assert SlugsDistinct(s.products);
    if op.CreateProduct? {
      CreateAgreement(s.products, t.cards, op.id, op.product);
    } else if op.UpdateProduct? && op.id in s.products {
      UpdateAgreement(s.products, t.cards, op, now);
    } else if !op.UpdateProduct? {
      OtherCardsAgree(s, t.cards, op, now);
    }
    WriteKeepsIndex(taxonomy, s, op, now);
  }

  lemma CreateAgreement(products: map<string, Product>, cards: map<string, Card>, id: string, p: Product)
    requires CardsAgree(products, cards) && SlugsDistinct(products) && id !in products
    ensures SlugTaken(cards, id, p.slug) ==> !SlugsDistinct(products[id := p]) && !CardsAgree(products[id := p], cards)
    ensures !SlugTaken(cards, id, p.slug) ==>
        SlugsDistinct(products[id := p]) && CardsAgree(products[id := p], cards[id := CardOf(p)])
  {
    var products' := products[id := p];
    if SlugTaken(cards, id, p.slug) {
      var other :| other in cards && other != id && cards[other].slug == p.slug;
      assert products'[other].slug == products'[id].slug;
      assert id in products' && id !in cards;
    }
  }

  lemma UpdateAgreement(products: map<string, Product>, cards: map<string, Card>, op: Op, now: Int64)
    requires CardsAgree(products, cards) && SlugsDistinct(products) && op.UpdateProduct? && op.id in products
    ensures var products' := products[op.id := Edited(products[op.id], op, now)];
            var change := Core(op.id, op.title, op.slug, op.description, op.price, op.currency, now);
            && (SlugTaken(cards, op.id, op.slug) ==> !SlugsDistinct(products') && !CardsAgree(products', cards))
            && (!SlugTaken(cards, op.id, op.slug) ==>
                  && SlugsDistinct(products')
                  && CardsAgree(products', cards[op.id := WithCore(cards[op.id], change)]))
  {
    var products' := products[op.id := Edited(products[op.id], op, now)];
    if SlugTaken(cards, op.id, op.slug) {
      var other :| other in cards && other != op.id && cards[other].slug == op.slug;
      assert products'[other].slug == products'[op.id].slug;
      assert cards[op.id].slug != op.slug;
    }
  }

  lemma StatusAgreement(products: map<string, Product>, cards: map<string, Card>, id: string, to: ProductStatus,
      now: Int64)
    requires CardsAgree(products, cards) && SlugsDistinct(products) && id in products
    ensures var products' := products[id := products[id].(status := to, updatedAt := now)];
            && SlugsDistinct(products')
            && CardsAgree(products', cards)
            && CardsAgree(products', cards[id := cards[id].(status := StatusName(to), updatedAt := now)])
  {
  }

  lemma RemovalAgreement(products: map<string, Product>, cards: map<string, Card>, id: string)
    requires CardsAgree(products, cards) && SlugsDistinct(products)
    ensures SlugsDistinct(products - {id}) && CardsAgree(products - {id}, cards - {id})
    ensures id !in products ==> products - {id} == products
  {
  }

  lemma TouchAgreement(products: map<string, Product>, cards: map<string, Card>, id: string, now: Int64)
    requires CardsAgree(products, cards) && id in cards
    ensures CardsAgree(products, cards[id := cards[id].(updatedAt := now)])
  {
  }

  lemma StatusCardsAgree(s: Source, cards: map<string, Card>, op: Op, now: Int64)
    requires CardsAgree(s.products, cards) && SlugsDistinct(s.products) && op.SetStatusOf?
    ensures SlugsDistinct(NextProducts(s.products, op, now))
    ensures NextCards(cards, ChangeOf(s, op, now)).Some?
    ensures CardsAgree(NextProducts(s.products, op, now), NextCards(cards, ChangeOf(s, op, now)).value)
  {
    var change := ChangeOf(s, op, now);
    assert change.Ignore? || change == SetStatus(op.id, StatusName(op.status), now);
    if op.id in s.products && s.products[op.id].status != op.status {
      StatusAgreement(s.products, cards, op.id, op.status, now);
    }
  }

  lemma OtherCardsAgree(s: Source, cards: map<string, Card>, op: Op, now: Int64)
    requires CardsAgree(s.products, cards) && SlugsDistinct(s.products) && !op.CreateProduct? && !op.UpdateProduct?
    ensures SlugsDistinct(NextProducts(s.products, op, now))
    ensures NextCards(cards, ChangeOf(s, op, now)).Some?
    ensures CardsAgree(NextProducts(s.products, op, now), NextCards(cards, ChangeOf(s, op, now)).value)
  {
    var change := ChangeOf(s, op, now);
    match op {
      case SetStatusOf(_, _) => StatusCardsAgree(s, cards, op, now);
      case DeleteProduct(id) => RemovalAgreement(s.products, cards, id);
      case WriteChild(id, _) =>
        assert change == Touch(id, now);
        if id in cards {
          TouchAgreement(s.products, cards, id, now);
        }
      case SetAttributeValue(_, _, _) => assert change.SetAttr?;
      case ClearAttributeValue(_, _) => assert change.ClearAttr?;
    }
  }

  lemma IndexedSet(values: map<AttrKey, AttrValue>, taxonomy: map<string, string>, id: string, attribute: string,
      v: AttrValue)
    ensures Indexed(values[(id, attribute) := v], taxonomy) ==
            NextAttrs(taxonomy, Indexed(values, taxonomy), SetAttr(id, attribute, v.text, v.num))
  {
  }

  lemma IndexedClear(values: map<AttrKey, AttrValue>, taxonomy: map<string, string>, id: string, attribute: string)
    ensures Indexed(values - {(id, attribute)}, taxonomy) ==
        NextAttrs(taxonomy, Indexed(values, taxonomy), ClearAttr(id, attribute))
  {
  }

  lemma IndexedDelete(values: map<AttrKey, AttrValue>, taxonomy: map<string, string>, id: string)
    ensures Indexed(map k | k in values && k.0 != id :: values[k], taxonomy) ==
            NextAttrs(taxonomy, Indexed(values, taxonomy), Delete(id))
  {
  }

  lemma WriteKeepsIndex(taxonomy: map<string, string>, s: Source, op: Op, now: Int64)
    requires ValuesOwned(s) && !Refused(s, op)
    ensures NextAttrs(taxonomy, Indexed(s.values, taxonomy), ChangeOf(s, op, now)) ==
        Indexed(NextValues(s.values, op), taxonomy)
  {
    var change := ChangeOf(s, op, now);
    match op {
      case SetAttributeValue(id, attribute, v) =>
        IndexedSet(s.values, taxonomy, id, attribute, v);
      case ClearAttributeValue(id, attribute) =>
        IndexedClear(s.values, taxonomy, id, attribute);
      case DeleteProduct(id) =>
        IndexedDelete(s.values, taxonomy, id);
        if id !in s.products {
          assert change.Ignore? && NextValues(s.values, op) == s.values;
        }
      case CreateProduct(_, _) => assert change.Create?;
      case UpdateProduct(_, _, _, _, _, _) => assert change.Core?;
      case SetStatusOf(_, _) => assert change.Ignore? || change.SetStatus?;
      case WriteChild(_, _) => assert change.Touch?;
    }
  }

  // -----------------------------------------------------------------
  // The repository
  // -----------------------------------------------------------------

  /** What one write does to the outbox. */
  function Emitted(rows: seq<Row<Event>>, event: Option<Event>): seq<Row<Event>> {
    if event.Some? then rows + [Fresh(event.value)] else rows
  }

  /** A refused write is an error and rolls back; an accepted one commits tables and event together. */
  ghost predicate Commits(s: Source, rows: seq<Row<Event>>, op: Op, now: Int64, r: Result<(), ProductError>,
                          s': Source, rows': seq<Row<Event>>) {
    && (r.Err? <==> Refused(s, op))
    && (r.Err? ==> s' == s && rows' == rows)
    && (r.Ok? ==> s' == After(s, op, now) && rows' == Emitted(rows, EventOf(s, op, now)))
  }

  class ProductRepo {
    var products: map<string, Product>
    var values: map<AttrKey, AttrValue>
    const outbox: OutboxTable<Event>

    constructor ()
      ensures State() == EMPTY_SOURCE && fresh(outbox) && outbox.rows == []
    {
      products, values := map[], map[];
      outbox := new OutboxTable();
    }

    ghost function State(): Source
      reads this
    {
      Source(products, values)
    }

    method CreateNewProduct(id: string, p: Product, now: Int64) returns (r: Result<(), ProductError>)
      modifies this, outbox
      ensures Commits(old(State()), old(outbox.rows), CreateProduct(id, p), now, r, State(), outbox.rows)
    {
      if id in products || SellerSlugTaken(products, id, p.seller, p.slug) {
        return Err(ConstraintFailed("products"));
      }
      products := products[id := p];
      var _ := outbox.Enqueue(Snapshot(id, p));
      return Ok(());
    }

    method Update(id: string, title: string, slug: string, description: string, price: Int64, currency: string,
        now: Int64)
      returns (r: Result<(), ProductError>)
      modifies this, outbox
      ensures Commits(old(State()), old(outbox.rows), UpdateProduct(id, title, slug, description, price, currency), now,
                      r, State(), outbox.rows)
    {
      if id in products {
        var p := products[id];
        if SellerSlugTaken(products, id, p.seller, slug) {
          return Err(ConstraintFailed("products"));
        }
        products := products[id := p.(title := title, slug := slug, description := description, price := price,
                                      currency := currency, updatedAt := now)];
      }
      var _ := outbox.Enqueue(CoreUpdated(UpdateProduct(id, title, slug, description, price, currency), now));
      return Ok(());
    }

    method ChangeStatus(id: string, to: ProductStatus, now: Int64) returns (r: Result<(), ProductError>)
      modifies this, outbox
      ensures Commits(old(State()), old(outbox.rows), SetStatusOf(id, to), now, r, State(), outbox.rows)
      ensures id !in old(products) || old(products)[id].status == to ==> outbox.rows == old(outbox.rows)
      ensures id in old(products) && old(products)[id].status != to ==>
                var from, n := old(products)[id].status, |old(outbox.rows)|;
                if from == Draft && to == Published then
                  |outbox.rows| == n + 1 && outbox.rows[n].event.kind == ProductPublished
                else if from == Published && to == Archived then
                  |outbox.rows| == n + 1 && outbox.rows[n].event.kind == ProductArchived
                else if from == Published && to == Draft then
                  |outbox.rows| == n + 1 && outbox.rows[n].event.kind == ProductUnpublished
                else |outbox.rows| == n
    {
      if id !in products {
        return Ok(());
      }
      var from := products[id].status;
      if from == to {
        return Ok(());
      }
      products := products[id := products[id].(status := to, updatedAt := now)];
      var event := StatusTransitionEvent(from, to);
      if event.Some? {
        var _ := outbox.Enqueue(StatusChanged(event.value, id, to, now));
      }
      return Ok(());
    }

    method Remove(id: string, now: Int64) returns (r: Result<(), ProductError>)
      modifies this, outbox
      ensures Commits(old(State()), old(outbox.rows), DeleteProduct(id), now, r, State(), outbox.rows)
    {
      var found := id in products;
      products := products - {id};
      values := map k | k in values && k.0 != id :: values[k];
      if found {
        var _ := outbox.Enqueue(Deleted(id));
      }
      return Ok(());
    }

    method SetValue(id: string, attribute: string, v: AttrValue, now: Int64) returns (r: Result<(), ProductError>)
      modifies this, outbox
      ensures Commits(old(State()), old(outbox.rows), SetAttributeValue(id, attribute, v), now, r, State(), outbox.rows)
    {
      if id !in products {
        return Err(ConstraintFailed("product_attribute_values"));
      }
      values := values[(id, attribute) := v];
      var _ := outbox.Enqueue(ValueSet(id, attribute, v, now));
      return Ok(());
    }

    method ClearValue(id: string, attribute: string, now: Int64) returns (r: Result<(), ProductError>)
      modifies this, outbox
      ensures Commits(old(State()), old(outbox.rows), ClearAttributeValue(id, attribute), now, r, State(), outbox.rows)
    {
      values := values - {(id, attribute)};
      var _ := outbox.Enqueue(ValueCleared(id, attribute, now));
      return Ok(());
    }

    /** A child write that its own table accepts. */
    method Child(id: string, w: ChildWrite, now: Int64) returns (r: Result<(), ProductError>)
      modifies this, outbox
      ensures Commits(old(State()), old(outbox.rows), WriteChild(id, w), now, r, State(), outbox.rows)
    {
      if ChecksProduct(w) && id !in products {
        return Err(ConstraintFailed("products"));
      }
      var _ := outbox.Enqueue(ChildWritten(id, w, now));
      return Ok(());
    }
  }
}
