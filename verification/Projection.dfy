/** The catalog projection (crates/catalog/src/projection.rs): a consumer that folds product events into
  * three linked tables. `CatalogProjection` is the consumer; `Decode` and `Apply` are its specification. */
module Projection {
  import opened Prelude

  // -----------------------------------------------------------------
  // Events as they travel: an event type and a JSON payload
  // -----------------------------------------------------------------

  /** The payload keys that a handler reads; any other key is ignored. */
  datatype Key = KId | KSellerId | KTitle | KSlug | KDescription | KPriceMinor | KCurrency | KStatus
               | KCreatedAt | KUpdatedAt | KReason | KAttributeId | KValText | KValNum | KTo

  datatype Json = JNull | JStr(s: string) | JInt(n: int) | JReal(r: real)

  type Payload = map<Key, Json>

  datatype EventType = ProductCreated | ProductUpdated | ProductPublished | ProductUnpublished
                     | ProductArchived | ProductDeleted | OtherEvent(name: string)

  datatype Event = Event(kind: EventType, payload: Payload)

  /** The one status under which a product is shown to visitors. */
  const PUBLISHED := "published"

  const ATTRIBUTE_VALUE_SET := "attribute_value_set"
  const ATTRIBUTE_VALUE_CLEARED := "attribute_value_cleared"

  function At(p: Payload, key: Key): Json {
    if key in p then p[key] else JNull
  }

  /** `p[key].as_str()`. */
  function AsStr(p: Payload, key: Key): Option<string> {
    if At(p, key).JStr? then Some(At(p, key).s) else None
  }

  /** `p[key].as_i64()`: integers only, and only those that fit. */
  function AsInt64(p: Payload, key: Key): Option<Int64> {
    if At(p, key).JInt? && INT64_MIN <= At(p, key).n <= INT64_MAX then Some(At(p, key).n) else None
  }

  /** `p[key].as_f64()`, on exact numbers. */
  function AsNum(p: Payload, key: Key): Option<real> {
    match At(p, key)
    case JInt(n) => Some(n as real)
    case JReal(r) => Some(r)
    case _ => None
  }

  function StrVal(p: Payload, key: Key): string {
    if AsStr(p, key).Some? then AsStr(p, key).value else ""
  }

  function IntVal(p: Payload, key: Key): Int64 {
    if AsInt64(p, key).Some? then AsInt64(p, key).value else 0
  }

  /** A missing field, or one of the wrong type, reads as the empty text or as zero; a number is a decimal or an
    * integer; an integer that does not fit is no integer. */
  lemma FieldMeaning(p: Payload, key: Key)
    ensures StrVal(p, key) == if key in p && p[key].JStr? then p[key].s else ""
    ensures IntVal(p, key)
         == if key in p && p[key].JInt? && -0x8000_0000_0000_0000 <= p[key].n <= 0x7fff_ffff_ffff_ffff then p[key].n
            else 0
    ensures AsStr(p, key).Some? <==> key in p && p[key].JStr?
    ensures AsNum(p, key)
         == if key in p && p[key].JReal? then Some(p[key].r)
            else if key in p && p[key].JInt? then Some(p[key].n as real) else None
  {
  }

  // -----------------------------------------------------------------
  // The three tables
  // -----------------------------------------------------------------

  /** A row of `product_projection` without `category_id` and `thumb`, which no event sets. */
  datatype Card = Card(seller: string, title: string, slug: string, description: string, price: Int64,
                       currency: string, status: string, createdAt: Int64, updatedAt: Int64)

  /** A row of `product_attr_index` without its key (product, attribute). */
  datatype AttrRow = AttrRow(category: string, text: Option<string>, num: Option<real>)

  /** A row of `product_fts`. The table has no key. GROUP_CONCAT promises no order, so `attrs` is the
    * multiset of the concatenated values. */
  datatype FtsRow = FtsRow(product: string, title: string, description: string, attrs: multiset<string>)

  type AttrKey = (string, string)

  /** The two keyed tables. */
  datatype Tables = Tables(cards: map<string, Card>, attrs: map<AttrKey, AttrRow>)

  datatype Catalog = Catalog(tables: Tables, fts: seq<FtsRow>)

  const EMPTY_TABLES := Tables(map[], map[])
  const EMPTY_CATALOG := Catalog(EMPTY_TABLES, [])

  /** Another product holds this slug; the index is unique over all sellers. */
  predicate SlugTaken(cards: map<string, Card>, id: string, slug: string) {
    exists other :: other in cards && other != id && cards[other].slug == slug
  }

  ghost predicate CardSlugsDistinct(cards: map<string, Card>) {
    forall a, b :: a in cards && b in cards && a != b ==> cards[a].slug != cards[b].slug
  }

  /** The attribute rows of one product. */
  function AttrsOf(attrs: map<AttrKey, AttrRow>, id: string): map<AttrKey, AttrRow> {
    map k | k in attrs && k.0 == id :: attrs[k]
  }

  /** What one attribute row adds to the search text: its text, unless missing or empty. */
  function TextOf(row: AttrRow): multiset<string> {
    if row.text.Some? && row.text.value != "" then multiset{row.text.value} else multiset{}
  }

  ghost function AnyKey(rows: map<AttrKey, AttrRow>): (k: AttrKey)
    requires rows != map[]
    ensures k in rows
  {
    var k :| k in rows; k
  }

  function Without(rows: map<AttrKey, AttrRow>, k: AttrKey): (r: map<AttrKey, AttrRow>)
    ensures r.Keys == rows.Keys - {k}
  {
    map j | j in rows && j != k :: rows[j]
  }

  ghost function TextsOf(rows: map<AttrKey, AttrRow>): multiset<string>
    decreases |rows|
  {
    if rows == map[] then multiset{} else
    var k := AnyKey(rows);
    assert |Without(rows, k).Keys| < |rows.Keys|;
    TextsOf(Without(rows, k)) + TextOf(rows[k])
  }

  /** The sum does not depend on the order in which the rows are visited. */
  lemma {:induction false} TextsOfRemove(rows: map<AttrKey, AttrRow>, k: AttrKey)
    requires k in rows
    ensures TextsOf(rows) == TextsOf(Without(rows, k)) + TextOf(rows[k])
    decreases |rows|
  {
    var j := AnyKey(rows);
    if j != k {
      assert |Without(rows, j).Keys| < |rows.Keys| && |Without(rows, k).Keys| < |rows.Keys|;
      TextsOfRemove(Without(rows, j), k);
      TextsOfRemove(Without(rows, k), j);
      assert Without(Without(rows, k), j) == Without(Without(rows, j), k);
    }
  }

  ghost function FtsRowOf(t: Tables, id: string): FtsRow
    requires id in t.cards
  {
    FtsRow(id, t.cards[id].title, t.cards[id].description, TextsOf(AttrsOf(t.attrs, id)))
  }

  function DeleteFts(fts: seq<FtsRow>, id: string): seq<FtsRow> {
    if fts == [] then []
    else if fts[0].product == id then DeleteFts(fts[1..], id)
    else [fts[0]] + DeleteFts(fts[1..], id)
  }

  ghost function UpsertFts(t: Tables, fts: seq<FtsRow>, id: string): seq<FtsRow> {
    if id in t.cards then DeleteFts(fts, id) + [FtsRowOf(t, id)] else fts
  }

  // -----------------------------------------------------------------
  // The specification: what an event means and what it does
  // -----------------------------------------------------------------

  datatype Change =
    | Create(id: string, card: Card)
    | Core(id: string, title: string, slug: string, description: string, price: Int64, currency: string, at: Int64)
    | SetAttr(id: string, attribute: string, text: Option<string>, num: Option<real>)
    | ClearAttr(id: string, attribute: string)
    | Touch(id: string, at: Int64)
    | SetStatus(id: string, status: string, at: Int64)
    | Delete(id: string)
    | Ignore

  function Decode(e: Event): Change {
    var p := e.payload;
    var id := StrVal(p, KId);
    match e.kind
    case ProductCreated =>
      Create(id, Card(StrVal(p, KSellerId), StrVal(p, KTitle), StrVal(p, KSlug), StrVal(p, KDescription),
                      IntVal(p, KPriceMinor), StrVal(p, KCurrency), StrVal(p, KStatus),
                      IntVal(p, KCreatedAt), IntVal(p, KUpdatedAt)))
    case ProductUpdated =>
      var reason := StrVal(p, KReason);
      if reason == ATTRIBUTE_VALUE_SET then SetAttr(id, StrVal(p, KAttributeId), AsStr(p, KValText), AsNum(p, KValNum))
      else if reason == ATTRIBUTE_VALUE_CLEARED then ClearAttr(id, StrVal(p, KAttributeId))
      else if reason == "" then
        Core(id, StrVal(p, KTitle), StrVal(p, KSlug), StrVal(p, KDescription), IntVal(p, KPriceMinor),
             StrVal(p, KCurrency), IntVal(p, KUpdatedAt))
      else if AsInt64(p, KUpdatedAt).Some? then Touch(id, AsInt64(p, KUpdatedAt).value)
      else Ignore
    case ProductPublished => SetStatus(id, StrVal(p, KTo), IntVal(p, KUpdatedAt))
    case ProductUnpublished => SetStatus(id, StrVal(p, KTo), IntVal(p, KUpdatedAt))
    case ProductArchived => SetStatus(id, StrVal(p, KTo), IntVal(p, KUpdatedAt))
    case ProductDeleted => Delete(id)
    case OtherEvent(_) => Ignore
  }

  function WithCore(card: Card, c: Change): Card
    requires c.Core?
  {
    card.(title := c.title, slug := c.slug, description := c.description, price := c.price,
          currency := c.currency, updatedAt := c.at)
  }

  /** The projected products after a change, or `None` when the unique slug index refuses it. */
  function NextCards(cards: map<string, Card>, c: Change): Option<map<string, Card>> {
    match c
    case Create(id, card) =>
      // a taken id or slug drops the row in silence
      if id in cards || SlugTaken(cards, id, card.slug) then Some(cards) else Some(cards[id := card])
    case Core(id, _, slug, _, _, _, _) =>
      if id !in cards then Some(cards)
      else if SlugTaken(cards, id, slug) then None
      else Some(cards[id := WithCore(cards[id], c)])
    case Touch(id, at) =>
      if id !in cards then Some(cards) else Some(cards[id := cards[id].(updatedAt := at)])
    case SetStatus(id, status, at) =>
      if id !in cards then Some(cards) else Some(cards[id := cards[id].(status := status, updatedAt := at)])
    case Delete(id) => Some(cards - {id})
    case _ => Some(cards)
  }

  /** The attribute index after a change. Attributes the taxonomy does not know are not indexed. */
  function NextAttrs(taxonomy: map<string, string>, attrs: map<AttrKey, AttrRow>, c: Change): map<AttrKey, AttrRow> {
    match c
    case SetAttr(id, attribute, text, num) =>
      if attribute !in taxonomy then attrs
      else attrs[(id, attribute) := AttrRow(taxonomy[attribute], text, num)]
    case ClearAttr(id, attribute) => attrs - {(id, attribute)}
    case Delete(id) => map k | k in attrs && k.0 != id :: attrs[k]
    case _ => attrs
  }

  function ApplyTables(taxonomy: map<string, string>, t: Tables, c: Change): Option<Tables> {
    if NextCards(t.cards, c).None? then None
    else Some(Tables(NextCards(t.cards, c).value, NextAttrs(taxonomy, t.attrs, c)))
  }

  ghost function ApplyFts(after: Tables, fts: seq<FtsRow>, c: Change): seq<FtsRow> {
    match c
    case Create(id, _) => UpsertFts(after, fts, id)
    case Core(id, _, _, _, _, _, _) => UpsertFts(after, fts, id)
    case SetAttr(id, _, _, _) => UpsertFts(after, fts, id)
    case ClearAttr(id, _) => UpsertFts(after, fts, id)
    case Delete(id) => DeleteFts(fts, id)
    case _ => fts
  }

  /** One transaction: all three tables change, or none does. */
  ghost function Apply(taxonomy: map<string, string>, c: Catalog, change: Change): Option<Catalog> {
    var t := ApplyTables(taxonomy, c.tables, change);
    if t.None? then None else Some(Catalog(t.value, ApplyFts(t.value, c.fts, change)))
  }

  /** What the consumer makes of events it was not made for: an unknown type is skipped; a second creation, or one
    * under a taken slug, is dropped; an update for another reason moves the time of its product at most; and only
    * a creation adds a product. */
  lemma StrangeEvents(taxonomy: map<string, string>, t: Tables, e: Event)
    ensures var id, t' := StrVal(e.payload, KId), ApplyTables(taxonomy, t, Decode(e));
            && (e.kind.OtherEvent? ==> t' == Some(t))
            && (e.kind.ProductCreated? &&
                (exists p :: p in t.cards && (p == id || t.cards[p].slug == StrVal(e.payload, KSlug))) ==>
                  t' == Some(t))
            && (e.kind.ProductUpdated? && StrVal(e.payload, KReason) != "" &&
                StrVal(e.payload, KReason) != "attribute_value_set" &&
                StrVal(e.payload, KReason) != "attribute_value_cleared" ==>
                  t' == Some(if id in t.cards && AsInt64(e.payload, KUpdatedAt).Some?
                             then t.(cards := t.cards[
                                         id := t.cards[id].(updatedAt := AsInt64(e.payload, KUpdatedAt).value)])
                             else t))
            && (!e.kind.ProductCreated? && id !in t.cards ==> t'.Some? && t'.value.cards == t.cards)
  {
  }

  // -----------------------------------------------------------------
  // Index coherence
  // -----------------------------------------------------------------

  /** `product_fts` holds exactly one row per projected product, its text is that of the other two
    * tables, and it holds nothing else. */
  ghost predicate Coherent(c: Catalog) {
    && CardSlugsDistinct(c.tables.cards)
    && forall row: FtsRow :: RowCoherent(c, row)
  }

  lemma {:induction false} DeleteFtsRows(fts: seq<FtsRow>, id: string, row: FtsRow)
    ensures multiset(DeleteFts(fts, id))[row] == if row.product == id then 0 else multiset(fts)[row]
  {
    if fts != [] {
      assert fts == [fts[0]] + fts[1..];
      DeleteFtsRows(fts[1..], id, row);
    }
  }

  /** A change never reaches the row of another product. */
  lemma OtherProductsKeepFtsRow(taxonomy: map<string, string>, t: Tables, c: Change, other: string)
    requires ApplyTables(taxonomy, t, c).Some? && (c.Ignore? || other != c.id)
    ensures var t' := ApplyTables(taxonomy, t, c).value;
            && (other in t'.cards <==> other in t.cards)
            && AttrsOf(t'.attrs, other) == AttrsOf(t.attrs, other)
            && (other in t.cards ==> t'.cards[other] == t.cards[other])
  {
  }

  lemma ApplyKeepsCardSlugsDistinct(taxonomy: map<string, string>, t: Tables, c: Change)
    requires CardSlugsDistinct(t.cards) && ApplyTables(taxonomy, t, c).Some?
    ensures CardSlugsDistinct(ApplyTables(taxonomy, t, c).value.cards)
  {
  }

  /** How often the full-text table holds `row`. */
  ghost predicate RowCoherent(c: Catalog, row: FtsRow) {
    multiset(c.fts)[row] == if row.product in c.tables.cards && row == FtsRowOf(c.tables, row.product) then 1 else 0
  }

  lemma ApplyKeepsRowCoherent(taxonomy: map<string, string>, c: Catalog, change: Change, row: FtsRow)
    requires RowCoherent(c, row) && Apply(taxonomy, c, change).Some?
    ensures RowCoherent(Apply(taxonomy, c, change).value, row)
  {
    var t, t' := c.tables, Apply(taxonomy, c, change).value.tables;
    if !change.Ignore? {
      DeleteFtsRows(c.fts, change.id, row);
      if row.product != change.id {
        OtherProductsKeepFtsRow(taxonomy, t, change, row.product);
      } else if change.Touch? || change.SetStatus? {
        assert t'.attrs == t.attrs;
      }
    }
  }

  /** Every event keeps the index coherent, whatever its payload and however wrong its order. */
  lemma ApplyKeepsCoherent(taxonomy: map<string, string>, c: Catalog, change: Change)
    requires Coherent(c) && Apply(taxonomy, c, change).Some?
    ensures Coherent(Apply(taxonomy, c, change).value)
  {
    ApplyKeepsCardSlugsDistinct(taxonomy, c.tables, change);
    forall row: FtsRow
      ensures RowCoherent(Apply(taxonomy, c, change).value, row)
    {
      assert RowCoherent(c, row);
      ApplyKeepsRowCoherent(taxonomy, c, change, row);
    }
  }

  /** The catalog after a log, event by event; a refused event leaves it as it was. */
  ghost function ApplyOrKeep(taxonomy: map<string, string>, c: Catalog, change: Change): Catalog {
    if Apply(taxonomy, c, change).Some? then Apply(taxonomy, c, change).value else c
  }

  ghost function FoldCatalog(taxonomy: map<string, string>, c: Catalog, log: seq<Change>): Catalog {
    if log == [] then c
    else ApplyOrKeep(taxonomy, FoldCatalog(taxonomy, c, log[..|log| - 1]), log[|log| - 1])
  }

  lemma {:induction false} FoldKeepsCoherent(taxonomy: map<string, string>, c: Catalog, log: seq<Change>)
    requires Coherent(c)
    ensures Coherent(FoldCatalog(taxonomy, c, log))
  {
    if log != [] {
      var before := FoldCatalog(taxonomy, c, log[..|log| - 1]);
      FoldKeepsCoherent(taxonomy, c, log[..|log| - 1]);
      if Apply(taxonomy, before, log[|log| - 1]).Some? {
        ApplyKeepsCoherent(taxonomy, before, log[|log| - 1]);
      }
    }
  }

  lemma EmptyCatalogIsCoherent()
    ensures Coherent(EMPTY_CATALOG)
  {
    forall row: FtsRow
      ensures RowCoherent(EMPTY_CATALOG, row)
    {
    }
  }

  /** Index coherence over every sequence of dispatches: any payloads, any order, any refusals. */
  lemma IndexCoherence(taxonomy: map<string, string>, events: seq<Event>)
    ensures Coherent(FoldCatalog(taxonomy, EMPTY_CATALOG, Changes(events)))
  {
    EmptyCatalogIsCoherent();
    FoldKeepsCoherent(taxonomy, EMPTY_CATALOG, Changes(events));
  }

  /** Coherence leaves the full-text table no freedom: equal keyed tables mean equal full-text rows. */
  lemma CoherentIndexIsDetermined(a: Catalog, b: Catalog)
    requires Coherent(a) && Coherent(b) && a.tables == b.tables
    ensures multiset(a.fts) == multiset(b.fts)
  {
    forall row: FtsRow
      ensures multiset(a.fts)[row] == multiset(b.fts)[row]
    {
      assert RowCoherent(a, row) && RowCoherent(b, row);
    }
  }

  /** How many of the product's indexed values have the text `v`. */
  function ValuesWith(attrs: map<AttrKey, AttrRow>, id: string, v: string): nat {
    |set k | k in attrs && k.0 == id && attrs[k].text == Some(v)|
  }

  function Holders(rows: map<AttrKey, AttrRow>, v: string): set<AttrKey> {
    set k | k in rows && rows[k].text == Some(v)
  }

  lemma OneHolder(rows: map<AttrKey, AttrRow>, k: AttrKey, v: string)
    requires k in rows
    ensures |Holders(rows, v)| == |Holders(Without(rows, k), v)| + if rows[k].text == Some(v) then 1 else 0
    ensures v != "" ==> TextOf(rows[k])[v] == if rows[k].text == Some(v) then 1 else 0
    ensures TextOf(rows[k])[""] == 0
  {
    var others := Holders(Without(rows, k), v);
    assert Holders(rows, v) == if rows[k].text == Some(v) then others + {k} else others;
    assert k !in others;
  }

  /** The sum of texts counts every value with a text once, and the empty text never. */
  lemma {:induction false} TextsCount(rows: map<AttrKey, AttrRow>, v: string)
    ensures TextsOf(rows)[v] == if v == "" then 0 else |Holders(rows, v)|
    decreases |rows|
  {
    if rows == map[] {
      assert Holders(rows, v) == {};
    } else {
      var k := AnyKey(rows);
      assert |Without(rows, k).Keys| < |rows.Keys|;
      TextsCount(Without(rows, k), v);
      OneHolder(rows, k, v);
    }
  }

  lemma TextsOfProduct(attrs: map<AttrKey, AttrRow>, id: string, v: string)
    ensures TextsOf(AttrsOf(attrs, id))[v] == if v == "" then 0 else ValuesWith(attrs, id, v)
  {
    TextsCount(AttrsOf(attrs, id), v);
    assert Holders(AttrsOf(attrs, id), v) == set k | k in attrs && k.0 == id && attrs[k].text == Some(v);
  }

  /** Row `i` is the one full-text row of product `id`: its title, its description, and each text of its indexed
    * values as often as it occurs, except the empty one. */
  ghost predicate OnlyRowOf(c: Catalog, id: string, i: nat)
    requires id in c.tables.cards
  {
    && i < |c.fts| && c.fts[i].product == id
    && (forall j :: 0 <= j < |c.fts| && c.fts[j].product == id ==> j == i)
    && c.fts[i].title == c.tables.cards[id].title
    && c.fts[i].description == c.tables.cards[id].description
    && c.fts[i].attrs[""] == 0
    && forall v :: v != "" ==> c.fts[i].attrs[v] == ValuesWith(c.tables.attrs, id, v)
  }

  lemma OccursTwice(fts: seq<FtsRow>, i: nat, j: nat)
    requires i < j < |fts| && fts[i] == fts[j]
    ensures multiset(fts)[fts[i]] >= 2
  {
    assert fts == fts[..i] + [fts[i]] + fts[i + 1..j] + [fts[j]] + fts[j + 1..];
  }

  lemma OccursOnce(fts: seq<FtsRow>, i: nat, j: nat)
    requires i < |fts| && j < |fts| && fts[i] == fts[j] && multiset(fts)[fts[i]] == 1
    ensures i == j
  {
    if i < j {
      OccursTwice(fts, i, j);
    } else if j < i {
      OccursTwice(fts, j, i);
    }
  }

  lemma CoherentRow(c: Catalog, i: nat)
    requires Coherent(c) && i < |c.fts|
    ensures c.fts[i].product in c.tables.cards && c.fts[i] == FtsRowOf(c.tables, c.fts[i].product)
    ensures multiset(c.fts)[c.fts[i]] == 1
  {
    assert RowCoherent(c, c.fts[i]);
    assert c.fts[i] in multiset(c.fts);
  }

  /** What coherence means: every projected product has exactly one full-text row, with its own title,
    * description and texts, and no other product has one. */
  lemma FullTextMeaning(c: Catalog)
    requires Coherent(c)
    ensures forall i :: 0 <= i < |c.fts| ==> c.fts[i].product in c.tables.cards
    ensures forall id :: id in c.tables.cards ==> exists i: nat :: OnlyRowOf(c, id, i)
  {
    forall i | 0 <= i < |c.fts|
      ensures c.fts[i].product in c.tables.cards
    {
      CoherentRow(c, i);
    }
    forall id | id in c.tables.cards
      ensures exists i: nat :: OnlyRowOf(c, id, i)
    {
      var own := FtsRowOf(c.tables, id);
      assert RowCoherent(c, own);
      assert own in c.fts;
      var i: nat :| i < |c.fts| && c.fts[i] == own;
      forall j: nat | j < |c.fts| && c.fts[j].product == id
        ensures j == i
      {
        CoherentRow(c, j);
        OccursOnce(c.fts, i, j);
      }
      forall v
        ensures own.attrs[v] == if v == "" then 0 else ValuesWith(c.tables.attrs, id, v)
      {
        TextsOfProduct(c.tables.attrs, id, v);
      }
      assert OnlyRowOf(c, id, i);
    }
  }

  /** After any events, with any payloads and in any order: one full-text row per projected product, made of that
    * product's title, description and indexed texts, and no other row. */
  lemma FullTextAfterEvents(taxonomy: map<string, string>, events: seq<Event>)
    ensures var c := FoldCatalog(taxonomy, EMPTY_CATALOG, Changes(events));
            && (forall i :: 0 <= i < |c.fts| ==> c.fts[i].product in c.tables.cards)
            && (forall id :: id in c.tables.cards ==> exists i: nat :: OnlyRowOf(c, id, i))
  {
    IndexCoherence(taxonomy, events);
    FullTextMeaning(FoldCatalog(taxonomy, EMPTY_CATALOG, Changes(events)));
  }

  // -----------------------------------------------------------------
  // Logs of changes
  // -----------------------------------------------------------------

  /** The keyed tables after a change; a refused change leaves them as they were. */
  function Step(taxonomy: map<string, string>, t: Tables, c: Change): Tables {
    if ApplyTables(taxonomy, t, c).Some? then ApplyTables(taxonomy, t, c).value else t
  }

  function Fold(taxonomy: map<string, string>, t: Tables, log: seq<Change>): Tables
    decreases |log|
  {
    if log == [] then t else Fold(taxonomy, Step(taxonomy, t, log[0]), log[1..])
  }

  function Changes(events: seq<Event>): (log: seq<Change>)
    ensures |log| == |events| && forall i :: 0 <= i < |log| ==> log[i] == Decode(events[i])
  {
    seq(|events|, i requires 0 <= i < |events| => Decode(events[i]))
  }

  lemma {:induction false} FoldAppend(taxonomy: map<string, string>, t: Tables, log: seq<Change>, c: Change)
    ensures Fold(taxonomy, t, log + [c]) == Step(taxonomy, Fold(taxonomy, t, log), c)
    decreases |log|
  {
    if log == [] {
      assert [c][1..] == [];
      assert log + [c] == [c];
    } else {
      assert (log + [c])[1..] == log[1..] + [c];
      FoldAppend(taxonomy, Step(taxonomy, t, log[0]), log[1..], c);
    }
  }

  lemma {:induction false} FoldKeepsCardSlugsDistinct(taxonomy: map<string, string>, t: Tables, log: seq<Change>)
    requires CardSlugsDistinct(t.cards)
    ensures CardSlugsDistinct(Fold(taxonomy, t, log).cards)
    decreases |log|
  {
    if log != [] {
      if ApplyTables(taxonomy, t, log[0]).Some? {
        ApplyKeepsCardSlugsDistinct(taxonomy, t, log[0]);
      }
      FoldKeepsCardSlugsDistinct(taxonomy, Step(taxonomy, t, log[0]), log[1..]);
    }
  }

  // -----------------------------------------------------------------
  // The consumer
  // -----------------------------------------------------------------

  class CatalogProjection {
    /** The `attributes` table of the same database: attribute id to category id. */
    const taxonomy: map<string, string>
    var cards: map<string, Card>
    var attrs: map<AttrKey, AttrRow>
    var fts: seq<FtsRow>

    constructor (taxonomy: map<string, string>)
      ensures this.taxonomy == taxonomy && State() == EMPTY_CATALOG
    {
      this.taxonomy := taxonomy;
      cards, attrs, fts := map[], map[], [];
    }

    ghost function State(): Catalog
      reads this
    {
      Catalog(Tables(cards, attrs), fts)
    }

    /** One event in one transaction. `io` is an error of the database itself, at `begin` or `commit`; a `late`
      * one is reported by a commit that has become durable all the same. */
    method Dispatch(event: Event, io: Option<string>, late: bool) returns (failure: Option<string>)
      modifies this
      ensures var after := Apply(taxonomy, old(State()), Decode(event));
              && (failure.None? <==> io.None? && after.Some?)
              && State() == if after.Some? && (io.None? || late) then after.value else old(State())
    {
      var cards0, attrs0, fts0 := cards, attrs, fts;
      var refused := false;
      match event.kind {
        case ProductCreated => ApplyCreated(event.payload);
        case ProductUpdated => refused := ApplyUpdated(event.payload);
        case ProductPublished => ApplyStatusChanged(event.payload);
        case ProductUnpublished => ApplyStatusChanged(event.payload);
        case ProductArchived => ApplyStatusChanged(event.payload);
        case ProductDeleted => ApplyDeleted(event.payload);
        case OtherEvent(_) =>
      }
      if refused || (io.Some? && !late) {
        cards, attrs, fts := cards0, attrs0, fts0;
      }
      return if refused && io.None? then Some("UNIQUE constraint failed: product_projection.slug") else io;
    }

    method ApplyCreated(p: Payload)
      modifies this
      ensures Apply(taxonomy, old(State()), Decode(Event(ProductCreated, p))) == Some(State())
    {
      var id := StrVal(p, KId);
      if id !in cards && !SlugTaken(cards, id, StrVal(p, KSlug)) {
        cards := cards[id := Card(StrVal(p, KSellerId), StrVal(p, KTitle), StrVal(p, KSlug), StrVal(p, KDescription),
                                  IntVal(p, KPriceMinor), StrVal(p, KCurrency), StrVal(p, KStatus),
                                  IntVal(p, KCreatedAt), IntVal(p, KUpdatedAt))];
      }
      UpsertFtsRow(id);
    }

    /** True when the unique slug index refuses the update; nothing has been written then. */
    method ApplyUpdated(p: Payload) returns (refused: bool)
      modifies this
      ensures refused <==> Apply(taxonomy, old(State()), Decode(Event(ProductUpdated, p))).None?
      ensures refused ==> State() == old(State())
      ensures !refused ==> Apply(taxonomy, old(State()), Decode(Event(ProductUpdated, p))) == Some(State())
    {
      var id := StrVal(p, KId);
      var reason := StrVal(p, KReason);
      refused := false;
      if reason == ATTRIBUTE_VALUE_SET {
        var attribute := StrVal(p, KAttributeId);
        if attribute in taxonomy {
          attrs := attrs[(id, attribute) := AttrRow(taxonomy[attribute], AsStr(p, KValText), AsNum(p, KValNum))];
        }
        UpsertFtsRow(id);
      } else if reason == ATTRIBUTE_VALUE_CLEARED {
        attrs := attrs - {(id, StrVal(p, KAttributeId))};
        UpsertFtsRow(id);
      } else if reason == "" {
        if id in cards {
          if SlugTaken(cards, id, StrVal(p, KSlug)) {
            return true;
          }
          cards := cards[id := cards[id].(title := StrVal(p, KTitle), slug := StrVal(p, KSlug),
                                          description := StrVal(p, KDescription), price := IntVal(p, KPriceMinor),
                                          currency := StrVal(p, KCurrency), updatedAt := IntVal(p, KUpdatedAt))];
        }
        UpsertFtsRow(id);
      } else {
        var at := AsInt64(p, KUpdatedAt);
        if at.Some? && id in cards {
          cards := cards[id := cards[id].(updatedAt := at.value)];
        }
      }
    }

    method ApplyStatusChanged(p: Payload)
      modifies this
      ensures Apply(taxonomy, old(State()), Decode(Event(ProductPublished, p))) == Some(State())
    {
      var id := StrVal(p, KId);
      if id in cards {
        cards := cards[id := cards[id].(status := StrVal(p, KTo), updatedAt := IntVal(p, KUpdatedAt))];
      }
    }

    method ApplyDeleted(p: Payload)
      modifies this
      ensures Apply(taxonomy, old(State()), Decode(Event(ProductDeleted, p))) == Some(State())
    {
      var id := StrVal(p, KId);
      attrs := map k | k in attrs && k.0 != id :: attrs[k];
      fts := DeleteFts(fts, id);
      cards := cards - {id};
    }

    /** Rebuilds the full-text row of a product from the other two tables; no-op if it is not projected. */
    method UpsertFtsRow(id: string)
      modifies this`fts
      ensures fts == UpsertFts(Tables(cards, attrs), old(fts), id)
      ensures id in cards ==> var row := fts[|fts| - 1];
                              row.product == id && row.title == cards[id].title
                              && row.description == cards[id].description
    {
      if id in cards {
        var texts := GroupConcat(id);
        fts := DeleteFts(fts, id);
        fts := fts + [FtsRow(id, cards[id].title, cards[id].description, texts)];
      }
    }

    /** Collects the texts of one product, from rows in no particular order. */
    method GroupConcat(id: string) returns (texts: multiset<string>)
      ensures texts == TextsOf(AttrsOf(attrs, id))
    {
      texts := multiset{};
      var rest := AttrsOf(attrs, id);
      while rest != map[]
        invariant texts + TextsOf(rest) == TextsOf(AttrsOf(attrs, id))
        decreases |rest|
      {
        var k :| k in rest;
        TextsOfRemove(rest, k);
        texts := texts + TextOf(rest[k]);
        assert |Without(rest, k).Keys| < |rest.Keys|;
        rest := Without(rest, k);
      }
    }
  }
}
