/** Catalog search (crates/catalog/src/search.rs): a query is compiled into the conditions of one SQL
  * statement over the projection's tables. `Satisfies` and `Matches` say directly what a query asks for;
  * `Select` says what the compiled conditions select. */
module Search {
  import opened Prelude
  import opened Projection
  import opened Ranking

  const MAX_LIMIT: UInt32 := 100

  datatype FilterCond =
    | CheckboxOr(attribute: string, values: seq<string>)
    | EnumAnd(attribute: string, values: seq<string>)
    | Number(attribute: string, value: real)
    | RangeGeneric(attribute: string, min: Option<real>, max: Option<real>)
    | RangePrice(minMinor: Option<Int64>, maxMinor: Option<Int64>)

  datatype Sort = Relevance | PriceAsc | PriceDesc | Newest

  datatype Pagination = Pagination(offset: UInt32, limit: UInt32)

  datatype Query = Query(text: Option<string>, category: Option<string>, filters: seq<FilterCond>,
                         sort: Sort, page: Pagination)

  datatype ProductCard = ProductCard(id: string, title: string, slug: string, price: Int64, currency: string)

  datatype SearchResult = SearchResult(items: seq<ProductCard>, total: nat)

  /** The full-text engine: how user input becomes a search term, and whether a term hits a row. */
  datatype TextEngine = TextEngine(term: string -> string, hit: (string, FtsRow) -> bool)

  // -----------------------------------------------------------------
  // The SQL that is produced, with its three-valued logic
  // -----------------------------------------------------------------

  datatype Truth = True | False | Null

  function And(a: Truth, b: Truth): Truth {
    if a == False || b == False then False else if a == Null || b == Null then Null else True
  }

  function Known(b: bool): Truth {
    if b then True else False
  }

  /** A conjunct inside a subquery over `product_attr_index`. */
  datatype RowTest =
    | AttributeIs(attribute: string)
    | CategoryIs(category: string)
    | TextIn(values: seq<string>)
    | NumEq(value: real)
    | NumGe(value: real)
    | NumLe(value: real)

  function Test(t: RowTest, key: AttrKey, row: AttrRow): Truth {
    match t
    case AttributeIs(a) => Known(key.1 == a)
    case CategoryIs(c) => Known(row.category == c)
    case TextIn(values) => if row.text.None? then Null else Known(row.text.value in values)
    case NumEq(v) => if row.num.None? then Null else Known(row.num.value == v)
    case NumGe(v) => if row.num.None? then Null else Known(row.num.value >= v)
    case NumLe(v) => if row.num.None? then Null else Known(row.num.value <= v)
  }

  function TestAll(tests: seq<RowTest>, key: AttrKey, row: AttrRow): Truth {
    if tests == [] then True else And(Test(tests[0], key, row), TestAll(tests[1..], key, row))
  }

  /** The products of the index rows that pass all tests; when `having` is present, only those whose rows,
    * grouped by product, show that many distinct texts. */
  datatype Subquery = Subquery(tests: seq<RowTest>, having: Option<nat>)

  /** A row is kept when the condition is true; false and NULL both drop it. */
  function Kept(attrs: map<AttrKey, AttrRow>, tests: seq<RowTest>): (rows: map<AttrKey, AttrRow>) {
    map k | k in attrs && TestAll(tests, k, attrs[k]) == True :: attrs[k]
  }

  /** The non-NULL texts of one group. */
  function GroupTexts(rows: map<AttrKey, AttrRow>, id: string): set<string> {
    set k | k in rows && k.0 == id && rows[k].text.Some? :: rows[k].text.value
  }

  function Answer(attrs: map<AttrKey, AttrRow>, q: Subquery): set<string> {
    var rows := Kept(attrs, q.tests);
    set k | k in rows && (q.having.None? || |GroupTexts(rows, k.0)| == q.having.value) :: k.0
  }

  /** A condition of the statement, on the row of one product. */
  datatype Cond =
    | StatusIs(status: string)
    | IdMatches(term: string)
    | PriceGe(n: Int64)
    | PriceLe(n: Int64)
    | IdIn(query: Subquery)

  predicate Holds(engine: TextEngine, c: Catalog, id: string, cond: Cond)
    requires id in c.tables.cards
  {
    var card := c.tables.cards[id];
    match cond
    case StatusIs(s) => card.status == s
    case IdMatches(term) => exists i :: 0 <= i < |c.fts| && c.fts[i].product == id && engine.hit(term, c.fts[i])
    case PriceGe(n) => card.price >= n
    case PriceLe(n) => card.price <= n
    case IdIn(q) => id in Answer(c.tables.attrs, q)
  }

  predicate AllHold(engine: TextEngine, c: Catalog, id: string, conds: seq<Cond>)
    requires id in c.tables.cards
  {
    forall i :: 0 <= i < |conds| ==> Holds(engine, c, id, conds[i])
  }

  /** The products on which every condition holds. */
  function Select(engine: TextEngine, c: Catalog, conds: seq<Cond>): set<string> {
    set id | id in c.tables.cards && AllHold(engine, c, id, conds)
  }

  // -----------------------------------------------------------------
  // The compiler, as a function
  // -----------------------------------------------------------------

  function PriceBounds(f: FilterCond): seq<Cond>
    requires f.RangePrice?
  {
    (if f.minMinor.Some? then [PriceGe(f.minMinor.value)] else [])
    + (if f.maxMinor.Some? then [PriceLe(f.maxMinor.value)] else [])
  }

  function RangeTests(f: FilterCond): seq<RowTest>
    requires f.RangeGeneric?
  {
    [AttributeIs(f.attribute)]
    + (if f.min.Some? then [NumGe(f.min.value)] else [])
    + (if f.max.Some? then [NumLe(f.max.value)] else [])
  }

  function CompileFilter(f: FilterCond): seq<Cond> {
    match f
    case RangePrice(_, _) => PriceBounds(f)
    case CheckboxOr(a, values) =>
      if values == [] then [] else [IdIn(Subquery([AttributeIs(a), TextIn(values)], None))]
    case EnumAnd(a, values) =>
      if values == [] then [] else [IdIn(Subquery([AttributeIs(a), TextIn(values)], Some(|values|)))]
    case Number(a, v) => [IdIn(Subquery([AttributeIs(a), NumEq(v)], None))]
    case RangeGeneric(_, _, _) => [IdIn(Subquery(RangeTests(f), None))]
  }

  function CompileFilters(filters: seq<FilterCond>): seq<Cond> {
    if filters == [] then [] else CompileFilters(filters[..|filters| - 1]) + CompileFilter(filters[|filters| - 1])
  }

  lemma CompileFiltersStep(filters: seq<FilterCond>, i: nat)
    requires i < |filters|
    ensures CompileFilters(filters[..i + 1]) == CompileFilters(filters[..i]) + CompileFilter(filters[i])
  {
    assert filters[..i + 1][..i] == filters[..i];
  }

  /** An empty term is dropped: no text condition at all. */
  function Term(engine: TextEngine, q: Query): Option<string> {
    if q.text.Some? && engine.term(q.text.value) != "" then Some(engine.term(q.text.value)) else None
  }

  /** Everything but the filters. */
  function CompileHead(q: Query, term: Option<string>): seq<Cond> {
    [StatusIs(PUBLISHED)]
    + (if term.Some? then [IdMatches(term.value)] else [])
    + (if q.category.Some? then [IdIn(Subquery([CategoryIs(q.category.value)], None))] else [])
  }

  function CompileWhere(q: Query, term: Option<string>): seq<Cond> {
    CompileHead(q, term) + CompileFilters(q.filters)
  }

  // -----------------------------------------------------------------
  // The meaning, without SQL
  // -----------------------------------------------------------------

  /** The product carries this text for this attribute. */
  predicate HasText(t: Tables, id: string, attribute: string, value: string) {
    (id, attribute) in t.attrs && t.attrs[(id, attribute)].text == Some(value)
  }

  predicate HasNum(t: Tables, id: string, attribute: string) {
    (id, attribute) in t.attrs && t.attrs[(id, attribute)].num.Some?
  }

  predicate Satisfies(t: Tables, id: string, f: FilterCond)
    requires id in t.cards
  {
    match f
    case CheckboxOr(a, values) => values == [] || exists v :: v in values && HasText(t, id, a, v)
    case EnumAnd(a, values) => forall v :: v in values ==> HasText(t, id, a, v)
    case Number(a, v) => HasNum(t, id, a) && t.attrs[(id, a)].num.value == v
    case RangeGeneric(a, min, max) =>
      // without bounds the product still has to have the attribute, though not a number in it
      && (id, a) in t.attrs
      && (min.Some? ==> HasNum(t, id, a) && min.value <= t.attrs[(id, a)].num.value)
      && (max.Some? ==> HasNum(t, id, a) && t.attrs[(id, a)].num.value <= max.value)
    case RangePrice(min, max) =>
      && (min.Some? ==> min.value <= t.cards[id].price)
      && (max.Some? ==> t.cards[id].price <= max.value)
  }

  /** The product has some attribute that belongs to the category. */
  ghost predicate InCategory(t: Tables, id: string, category: string) {
    exists a :: (id, a) in t.attrs && t.attrs[(id, a)].category == category
  }

  ghost predicate Matches(engine: TextEngine, t: Tables, q: Query, id: string) {
    && id in t.cards
    && t.cards[id].status == PUBLISHED
    && (Term(engine, q).Some? ==> engine.hit(Term(engine, q).value, FtsRowOf(t, id)))
    && (q.category.Some? ==> InCategory(t, id, q.category.value))
    && forall f :: f in q.filters ==> Satisfies(t, id, f)
  }

  // -----------------------------------------------------------------
  // One filter
  // -----------------------------------------------------------------

  /** What HAVING COUNT(DISTINCT) = n decides: with n the length of the value list, all values are
    * present and the list has no duplicates. `texts` is any set of texts, of any size. */
  lemma {:induction false} CountDecidesAllPresent(values: seq<string>, texts: set<string>)
    ensures |texts * Elements(values)| == |values| <==> Distinct(values) && forall v :: v in values ==> v in texts
    ensures |texts * Elements(values)| <= |Elements(values)| <= |values|
  {
    if values == [] {
      assert texts * Elements(values) == {} && Elements(values) == {};
    } else {
      var init, last := values[..|values| - 1], values[|values| - 1];
      CountDecidesAllPresent(init, texts);
      assert values == init + [last];
      DistinctSnoc(init, last);
      assert Elements(values) == Elements(init) + {last};
      if last in init {
        assert Elements(values) == Elements(init);
      } else if last in texts {
        assert texts * Elements(values) == texts * Elements(init) + {last};
      } else {
        assert texts * Elements(values) == texts * Elements(init);
      }
    }
  }

  /** The rows a text filter keeps: the product's own row, if its text is listed. */
  lemma TextRowsKept(t: Tables, id: string, a: string, values: seq<string>)
    ensures var rows := Kept(t.attrs, [AttributeIs(a), TextIn(values)]);
            && (forall k :: k in rows ==> k.1 == a && rows[k].text.Some? && rows[k].text.value in values)
            && ((id, a) in rows <==> exists v :: v in values && HasText(t, id, a, v))
            && GroupTexts(rows, id) == (set v | v in values && HasText(t, id, a, v))
  {
    var tests := [AttributeIs(a), TextIn(values)];
    var rows := Kept(t.attrs, tests);
    assert tests[1..] == [TextIn(values)] && tests[1..][1..] == [];
    assert forall k :: k in rows ==> Test(tests[0], k, rows[k]) == True && TestAll(tests[1..], k, rows[k]) == True;
    assert forall k :: k in rows ==> Test(TextIn(values), k, rows[k]) == True;
    assert forall k :: k in t.attrs && Test(tests[0], k, t.attrs[k]) == True && Test(tests[1], k, t.attrs[k]) == True
             ==> TestAll(tests[1..], k, t.attrs[k]) == True;
    forall v | v in values && HasText(t, id, a, v)
      ensures v in GroupTexts(rows, id) && (id, a) in rows
    {
      assert (id, a) in rows;
    }
  }

  lemma SetFilterMeaning(t: Tables, id: string, f: FilterCond)
    requires (f.CheckboxOr? || f.EnumAnd?) && f.values != []
    ensures var tests := [AttributeIs(f.attribute), TextIn(f.values)];
            && (id in Answer(t.attrs, Subquery(tests, None)) <==>
                exists v :: v in f.values && HasText(t, id, f.attribute, v))
            && (id in Answer(t.attrs, Subquery(tests, Some(|f.values|))) <==>
                Distinct(f.values) && forall v :: v in f.values ==> HasText(t, id, f.attribute, v))
  {
    var a, values := f.attribute, f.values;
    var rows := Kept(t.attrs, [AttributeIs(a), TextIn(values)]);
    TextRowsKept(t, id, a, values);
    assert (id, a) in rows <==> exists k :: k in rows && k.0 == id by {
      forall k | k in rows && k.0 == id
        ensures k == (id, a)
      {
      }
    }
    var present := set v | v in values && HasText(t, id, a, v);
    CountDecidesAllPresent(values, present);
    assert present * Elements(values) == present;
    if forall v :: v in values ==> HasText(t, id, a, v) {
      assert values[0] in values && HasText(t, id, a, values[0]);
    }
    if |present| == |values| {
      assert present != {};
    }
  }

  /** The numeric subqueries: a row without a number passes no comparison. */
  lemma NumberFilterMeaning(t: Tables, id: string, f: FilterCond)
    requires f.Number? || f.RangeGeneric?
    requires id in t.cards
    ensures var tests := if f.Number? then [AttributeIs(f.attribute), NumEq(f.value)] else RangeTests(f);
            id in Answer(t.attrs, Subquery(tests, None)) <==> Satisfies(t, id, f)
  {
    var a := f.attribute;
    var tests := if f.Number? then [AttributeIs(a), NumEq(f.value)] else RangeTests(f);
    var rows := Kept(t.attrs, tests);
    forall k | k in t.attrs
      ensures k in rows <==> k.1 == a && forall i :: 1 <= i < |tests| ==> Test(tests[i], k, t.attrs[k]) == True
    {
      TestAllMeaning(tests, k, t.attrs[k]);
      assert Test(tests[0], k, t.attrs[k]) == Known(k.1 == a);
    }
    if f.RangeGeneric? {
      assert f.min.Some? ==> tests[1] == NumGe(f.min.value);
      assert f.max.Some? ==> tests[|tests| - 1] == NumLe(f.max.value);
    } else {
      assert tests[1] == NumEq(f.value);
    }
    assert id in Answer(t.attrs, Subquery(tests, None)) <==> (id, a) in rows by {
      forall k | k in rows && k.0 == id
        ensures k == (id, a)
      {
      }
    }
  }

  /** A conjunction is true exactly when every conjunct is: no NULL slips through. */
  lemma {:induction false} TestAllMeaning(tests: seq<RowTest>, key: AttrKey, row: AttrRow)
    ensures TestAll(tests, key, row) == True <==> forall i :: 0 <= i < |tests| ==> Test(tests[i], key, row) == True
  {
    if tests != [] {
      TestAllMeaning(tests[1..], key, row);
      forall i | 0 < i < |tests|
        ensures tests[i] == tests[1..][i - 1]
      {
      }
      if TestAll(tests, key, row) == True {
        forall i | 0 <= i < |tests|
          ensures Test(tests[i], key, row) == True
        {
          if i > 0 {
            assert tests[i] == tests[1..][i - 1];
          }
        }
      }
    }
  }

  /** The value list of an EnumAnd filter is free of duplicates. */
  ghost predicate Sound(f: FilterCond) {
    f.EnumAnd? ==> Distinct(f.values)
  }

  /** A compiled filter keeps a product exactly when the product satisfies the filter, except that an
    * EnumAnd filter with a repeated value keeps nothing. */
  lemma FilterMeaning(engine: TextEngine, c: Catalog, id: string, f: FilterCond)
    requires id in c.tables.cards
    ensures AllHold(engine, c, id, CompileFilter(f)) <==> Satisfies(c.tables, id, f) && Sound(f)
  {
    var conds := CompileFilter(f);
    if f.RangePrice? {
      assert f.minMinor.Some? ==> conds[0] == PriceGe(f.minMinor.value);
      assert f.maxMinor.Some? ==> conds[|conds| - 1] == PriceLe(f.maxMinor.value);
    } else if conds != [] {
      assert AllHold(engine, c, id, conds) <==> Holds(engine, c, id, conds[0]);
      if f.CheckboxOr? || f.EnumAnd? {
        SetFilterMeaning(c.tables, id, f);
      } else {
        NumberFilterMeaning(c.tables, id, f);
      }
    }
  }

  /** The same, filter by filter, in terms of the product's own row of the index and its price. */
  lemma FilterSays(engine: TextEngine, c: Catalog, id: string, f: FilterCond)
    requires id in c.tables.cards
    ensures var attrs, price := c.tables.attrs, c.tables.cards[id].price;
            AllHold(engine, c, id, CompileFilter(f)) <==>
              match f
              case CheckboxOr(a, values) =>
                values == [] || ((id, a) in attrs && exists v :: v in values && attrs[(id, a)].text == Some(v))
              case EnumAnd(a, values) =>
                Distinct(values) && forall v :: v in values ==> (id, a) in attrs && attrs[(id, a)].text == Some(v)
              case Number(a, v) => (id, a) in attrs && attrs[(id, a)].num == Some(v)
              case RangeGeneric(a, min, max) =>
                && (id, a) in attrs
                && (min.Some? ==> attrs[(id, a)].num.Some? && attrs[(id, a)].num.value >= min.value)
                && (max.Some? ==> attrs[(id, a)].num.Some? && attrs[(id, a)].num.value <= max.value)
              case RangePrice(min, max) =>
                (min.Some? ==> price >= min.value) && (max.Some? ==> price <= max.value)
  {
    FilterMeaning(engine, c, id, f);
  }

  /** An index has one row per product and attribute, so an EnumAnd filter that lists two different
    * values selects no product of any catalog. */
  lemma EnumAndOnTwoValuesSelectsNothing(engine: TextEngine, c: Catalog, id: string, f: FilterCond)
    requires id in c.tables.cards && f.EnumAnd?
    requires exists v, w :: v in f.values && w in f.values && v != w
    ensures !AllHold(engine, c, id, CompileFilter(f)) && !Satisfies(c.tables, id, f)
  {
    FilterMeaning(engine, c, id, f);
    var v, w :| v in f.values && w in f.values && v != w;
    assert !(HasText(c.tables, id, f.attribute, v) && HasText(c.tables, id, f.attribute, w));
  }

  ghost predicate Faithful(engine: TextEngine, f: FilterCond) {
    forall c: Catalog, id :: id in c.tables.cards ==>
      (AllHold(engine, c, id, CompileFilter(f)) <==> Satisfies(c.tables, id, f))
  }

  /** Which filters mean what they say on every catalog: all but an EnumAnd filter that repeats one value. */
  lemma FaithfulExactly(engine: TextEngine, f: FilterCond)
    ensures Faithful(engine, f) <==> !(f.EnumAnd? && |f.values| >= 2 && forall v :: v in f.values ==> v == f.values[0])
  {
    if f.EnumAnd? && |f.values| >= 2 && forall v :: v in f.values ==> v == f.values[0] {
      var card := Card("", "", "", "", 0, "", PUBLISHED, 0, 0);
      var row := AttrRow("", Some(f.values[0]), None);
      var c := Catalog(Tables(map["p" := card], map[("p", f.attribute) := row]), []);
      assert f.values[1] in f.values && f.values[0] in f.values;
      FilterMeaning(engine, c, "p", f);
      assert "p" in c.tables.cards && Satisfies(c.tables, "p", f) && !Sound(f);
    } else {
      forall c: Catalog, id | id in c.tables.cards
        ensures AllHold(engine, c, id, CompileFilter(f)) <==> Satisfies(c.tables, id, f)
      {
        FilterMeaning(engine, c, id, f);
        if !Sound(f) {
          var v :| v in f.values && v != f.values[0];
          assert f.values[0] in f.values;
          EnumAndOnTwoValuesSelectsNothing(engine, c, id, f);
        }
      }
    }
  }

  // -----------------------------------------------------------------
  // The whole statement
  // -----------------------------------------------------------------

  lemma AllHoldAppend(engine: TextEngine, c: Catalog, id: string, a: seq<Cond>, b: seq<Cond>)
    requires id in c.tables.cards
    ensures AllHold(engine, c, id, a + b) <==> AllHold(engine, c, id, a) && AllHold(engine, c, id, b)
  {
    if AllHold(engine, c, id, a + b) {
      assert forall i :: 0 <= i < |a| ==> a[i] == (a + b)[i];
      forall i | 0 <= i < |b|
        ensures Holds(engine, c, id, b[i])
      {
        assert b[i] == (a + b)[|a| + i];
      }
    }
  }

  lemma {:induction false} FiltersMeaning(engine: TextEngine, c: Catalog, id: string, filters: seq<FilterCond>)
    requires id in c.tables.cards
    ensures AllHold(engine, c, id, CompileFilters(filters))
       <==> forall f :: f in filters ==> Satisfies(c.tables, id, f) && Sound(f)
  {
    if filters != [] {
      var init, last := filters[..|filters| - 1], filters[|filters| - 1];
      FiltersMeaning(engine, c, id, init);
      FilterMeaning(engine, c, id, last);
      AllHoldAppend(engine, c, id, CompileFilters(init), CompileFilter(last));
      assert filters == init + [last];
    }
  }

  /** In a coherent index the text condition looks at the product's own title, description and texts. */
  lemma TextMeaning(engine: TextEngine, c: Catalog, id: string, term: string)
    requires Coherent(c) && id in c.tables.cards
    ensures Holds(engine, c, id, IdMatches(term)) <==> engine.hit(term, FtsRowOf(c.tables, id))
  {
    var own := FtsRowOf(c.tables, id);
    assert RowCoherent(c, own);
    assert own in c.fts by {
      assert multiset(c.fts)[own] == 1;
    }
    forall i | 0 <= i < |c.fts| && c.fts[i].product == id
      ensures c.fts[i] == own
    {
      assert RowCoherent(c, c.fts[i]);
      assert c.fts[i] in multiset(c.fts);
    }
  }

  lemma CategoryMeaning(t: Tables, id: string, category: string)
    ensures id in Answer(t.attrs, Subquery([CategoryIs(category)], None)) <==> InCategory(t, id, category)
  {
    var tests := [CategoryIs(category)];
    forall k | k in t.attrs
      ensures k in Kept(t.attrs, tests) <==> t.attrs[k].category == category
    {
      TestAllMeaning(tests, k, t.attrs[k]);
      assert Test(tests[0], k, t.attrs[k]) == Known(t.attrs[k].category == category);
    }
    if InCategory(t, id, category) {
      var a :| (id, a) in t.attrs && t.attrs[(id, a)].category == category;
      assert (id, a) in Kept(t.attrs, tests);
    }
  }

  /** Compilation preserves meaning: over a coherent catalog the statement selects exactly the products
    * that match the query, unless some EnumAnd filter repeats a value, when it selects nothing. */
  lemma WhereMeaning(engine: TextEngine, c: Catalog, q: Query, id: string)
    requires Coherent(c)
    ensures id in Select(engine, c, CompileWhere(q, Term(engine, q)))
       <==> Matches(engine, c.tables, q, id) && forall f :: f in q.filters ==> Sound(f)
  {
    if id in c.tables.cards {
      var term := Term(engine, q);
      var status: seq<Cond> := [StatusIs(PUBLISHED)];
      var text := if term.Some? then [IdMatches(term.value)] else [];
      var category := if q.category.Some? then [IdIn(Subquery([CategoryIs(q.category.value)], None))] else [];
      AllHoldAppend(engine, c, id, status + text + category, CompileFilters(q.filters));
      AllHoldAppend(engine, c, id, status + text, category);
      AllHoldAppend(engine, c, id, status, text);
      FiltersMeaning(engine, c, id, q.filters);
      assert AllHold(engine, c, id, status) <==> Holds(engine, c, id, status[0]);
      if term.Some? {
        assert AllHold(engine, c, id, text) <==> Holds(engine, c, id, text[0]);
        TextMeaning(engine, c, id, term.value);
      }
      if q.category.Some? {
        assert AllHold(engine, c, id, category) <==> Holds(engine, c, id, category[0]);
        CategoryMeaning(c.tables, id, q.category.value);
      }
    }
  }

  /** What a query asks for, over a coherent catalog: the product is published; when the text means anything, its
    * row of the full-text table is hit; it has an indexed attribute of the category; and it satisfies every
    * filter. A text without a search term asks for nothing. */
  lemma QueryMeaning(engine: TextEngine, c: Catalog, q: Query, id: string)
    requires Coherent(c)
    ensures Matches(engine, c.tables, q, id) <==>
            && id in c.tables.cards && c.tables.cards[id].status == "published"
            && (q.text.Some? && engine.term(q.text.value) != "" ==>
                  exists row :: row in c.fts && row.product == id && engine.hit(engine.term(q.text.value), row))
            && (q.category.Some? ==>
                  exists a :: (id, a) in c.tables.attrs && c.tables.attrs[(id, a)].category == q.category.value)
            && forall f :: f in q.filters ==> Satisfies(c.tables, id, f)
  {
    if id in c.tables.cards && q.text.Some? && engine.term(q.text.value) != "" {
      TextMeaning(engine, c, id, engine.term(q.text.value));
      assert Term(engine, q) == Some(engine.term(q.text.value));
      assert Holds(engine, c, id, IdMatches(engine.term(q.text.value))) <==>
             exists row :: row in c.fts && row.product == id && engine.hit(engine.term(q.text.value), row);
    }
  }

  // -----------------------------------------------------------------
  // Order and pages
  // -----------------------------------------------------------------

  /** Relevance is ordered like Newest: no rank of the text engine takes part. */
  function Rank(sort: Sort, card: Card): int {
    match sort
    case PriceAsc => card.price as int
    case PriceDesc => -(card.price as int)
    case Newest => -(card.createdAt as int)
    case Relevance => -(card.createdAt as int)
  }

  function Entries(c: Catalog, ids: set<string>, sort: Sort): set<Entry>
    requires ids <= c.tables.cards.Keys
  {
    set id | id in ids :: Entry(Rank(sort, c.tables.cards[id]), id)
  }

  lemma {:induction false} EntriesCount(c: Catalog, ids: set<string>, sort: Sort)
    requires ids <= c.tables.cards.Keys
    ensures |Entries(c, ids, sort)| == |ids|
    decreases |ids|
  {
    if ids != {} {
      var id :| id in ids;
      EntriesCount(c, ids - {id}, sort);
      assert Entries(c, ids, sort) == Entries(c, ids - {id}, sort) + {Entry(Rank(sort, c.tables.cards[id]), id)};
    } else {
      assert Entries(c, ids, sort) == {};
    }
  }

  function Slice<T>(list: seq<T>, offset: nat, limit: nat): seq<T> {
    list[Min(offset, |list|)..Min(offset + limit, |list|)]
  }

  function ClampedLimit(limit: UInt32): (r: UInt32)
    ensures 1 <= r <= 100 && (1 <= limit <= 100 ==> r == limit)
  {
    Min(Max(limit, 1), MAX_LIMIT)
  }

  function ListingCard(c: Catalog, id: string): (shown: ProductCard)
    requires id in c.tables.cards
    ensures shown.id == id && shown.title == c.tables.cards[id].title && shown.slug == c.tables.cards[id].slug
    ensures shown.price == c.tables.cards[id].price && shown.currency == c.tables.cards[id].currency
  {
    var card := c.tables.cards[id];
    ProductCard(id, card.title, card.slug, card.price, card.currency)
  }

  /** Every match of the query, in the order of its sort. */
  ghost function Found(engine: TextEngine, c: Catalog, q: Query): set<string> {
    set id | id in c.tables.cards && Matches(engine, c.tables, q, id)
  }

  ghost function Listing(engine: TextEngine, c: Catalog, q: Query): seq<Entry> {
    Sorted(Entries(c, Found(engine, c, q), q.sort))
  }

  /** Reordering or repeating filters changes neither the listing nor any page of it. */
  lemma FilterOrderIsIrrelevant(engine: TextEngine, c: Catalog, q: Query, filters: seq<FilterCond>)
    requires Coherent(c) && Elements(filters) == Elements(q.filters)
    ensures var q' := q.(filters := filters);
            && Select(engine, c, CompileWhere(q', Term(engine, q'))) ==
                Select(engine, c, CompileWhere(q, Term(engine, q)))
            && Listing(engine, c, q') == Listing(engine, c, q)
  {
    var q' := q.(filters := filters);
    assert forall f :: f in filters <==> f in q.filters by {
      assert forall f :: f in filters <==> f in Elements(filters);
      assert forall f :: f in q.filters <==> f in Elements(q.filters);
    }
    forall id
      ensures id in Select(engine, c, CompileWhere(q', Term(engine, q')))
         <==> id in Select(engine, c, CompileWhere(q, Term(engine, q)))
      ensures Matches(engine, c.tables, q', id) <==> Matches(engine, c.tables, q, id)
    {
      WhereMeaning(engine, c, q, id);
      WhereMeaning(engine, c, q', id);
    }
    assert Found(engine, c, q') == Found(engine, c, q);
  }

  // -----------------------------------------------------------------
  // The compiler and the search, step by step
  // -----------------------------------------------------------------

  /** The conjuncts pushed so far onto one statement. */
  class QueryBuilder {
    var conds: seq<Cond>

    constructor ()
      ensures conds == []
    {
      conds := [];
    }

    method Push(cond: Cond)
      modifies this
      ensures conds == old(conds) + [cond]
    {
      conds := conds + [cond];
    }

    method PushWhere(q: Query, term: Option<string>)
      modifies this
      ensures conds == old(conds) + CompileWhere(q, term)
    {
      PushHead(q, term);
      ghost var head, done := conds, CompileFilters([]);
      for i := 0 to |q.filters|
        invariant done == CompileFilters(q.filters[..i])
        invariant conds == head + done
      {
        CompileFiltersStep(q.filters, i);
        PushFilterCond(q.filters[i]);
        AppendAssociates(head, done, CompileFilter(q.filters[i]));
        done := done + CompileFilter(q.filters[i]);
      }
      assert q.filters[..|q.filters|] == q.filters;
      AppendAssociates(old(conds), CompileHead(q, term), done);
    }

    method PushHead(q: Query, term: Option<string>)
      modifies this
      ensures conds == old(conds) + CompileHead(q, term)
    {
      Push(StatusIs(PUBLISHED));
      if term.Some? {
        Push(IdMatches(term.value));
      }
      if q.category.Some? {
        Push(IdIn(Subquery([CategoryIs(q.category.value)], None)));
      }
    }

    method PushFilterCond(f: FilterCond)
      modifies this
      ensures conds == old(conds) + CompileFilter(f)
    {
      match f
      case RangePrice(min, max) =>
        if min.Some? {
          Push(PriceGe(min.value));
        }
        if max.Some? {
          Push(PriceLe(max.value));
        }
      case CheckboxOr(a, values) =>
        if values != [] {
          Push(IdIn(Subquery([AttributeIs(a), TextIn(values)], None)));
        }
      case EnumAnd(a, values) =>
        if values != [] {
          Push(IdIn(Subquery([AttributeIs(a), TextIn(values)], Some(|values|))));
        }
      case Number(a, v) =>
        Push(IdIn(Subquery([AttributeIs(a), NumEq(v)], None)));
      case RangeGeneric(a, min, max) =>
        var tests := [AttributeIs(a)];
        if min.Some? {
          tests := tests + [NumGe(min.value)];
        }
        if max.Some? {
          tests := tests + [NumLe(max.value)];
        }
        assert tests == RangeTests(f);
        Push(IdIn(Subquery(tests, None)));
    }
  }

  /** What a search can show: everything the query asks for, or nothing when an EnumAnd filter repeats
    * a value. */
  ghost function Listed(engine: TextEngine, c: Catalog, q: Query): seq<Entry> {
    if forall f :: f in q.filters ==> Sound(f) then Listing(engine, c, q) else []
  }

  /** `total` is the exact size of the list and `items` its slice, with the limit clamped. */
  ghost predicate Answers(c: Catalog, list: seq<Entry>, page: Pagination, r: SearchResult) {
    var rows := Slice(list, page.offset, ClampedLimit(page.limit));
    && r.total == |list|
    && |r.items| == |rows|
    && forall i :: 0 <= i < |rows| ==> rows[i].id in c.tables.cards && r.items[i] == ListingCard(c, rows[i].id)
  }

  method CountResults(engine: TextEngine, c: Catalog, q: Query, term: Option<string>) returns (count: nat)
    ensures count == |Select(engine, c, CompileWhere(q, term))|
  {
    var qb := new QueryBuilder();
    qb.PushWhere(q, term);
    assert qb.conds == CompileWhere(q, term);
    count := |Select(engine, c, qb.conds)|;
  }

  method MapRows(c: Catalog, rows: seq<Entry>) returns (items: seq<ProductCard>)
    requires forall i :: 0 <= i < |rows| ==> rows[i].id in c.tables.cards
    ensures |items| == |rows| && forall i :: 0 <= i < |rows| ==> items[i] == ListingCard(c, rows[i].id)
  {
    items := [];
    for i := 0 to |rows|
      invariant |items| == i && forall j :: 0 <= j < i ==> items[j] == ListingCard(c, rows[j].id)
    {
      items := items + [ListingCard(c, rows[i].id)];
    }
  }

  method Search(engine: TextEngine, c: Catalog, q: Query) returns (r: SearchResult)
    requires Coherent(c)
    ensures Answers(c, Listed(engine, c, q), q.page, r)
  {
    var limit := ClampedLimit(q.page.limit);
    var term := Term(engine, q);
    var total := CountResults(engine, c, q, term);
    SelectedIsFound(engine, c, q);
    ListedIds(c, Select(engine, c, CompileWhere(q, term)), q.sort);
    if total == 0 {
      assert Listed(engine, c, q) == [];
      return SearchResult([], 0);
    }
    var qb := new QueryBuilder();
    qb.PushWhere(q, term);
    assert qb.conds == CompileWhere(q, term);
    var list := Sorted(Entries(c, Select(engine, c, qb.conds), q.sort));
    var items := MapRows(c, Slice(list, q.page.offset, limit));
    r := SearchResult(items, total);
  }

  lemma ListedIds(c: Catalog, ids: set<string>, sort: Sort)
    requires ids <= c.tables.cards.Keys
    ensures var list := Sorted(Entries(c, ids, sort));
            |list| == |ids| && forall i :: 0 <= i < |list| ==> list[i].id in ids
  {
    var list := Sorted(Entries(c, ids, sort));
    SortedMeaning(Entries(c, ids, sort));
    EntriesCount(c, ids, sort);
    forall i | 0 <= i < |list|
      ensures list[i].id in ids
    {
      assert list[i] in Elements(list);
    }
  }

  lemma SelectedIsFound(engine: TextEngine, c: Catalog, q: Query)
    requires Coherent(c)
    ensures var selected := Select(engine, c, CompileWhere(q, Term(engine, q)));
            selected == if forall f :: f in q.filters ==> Sound(f) then Found(engine, c, q) else {}
  {
    forall id
      ensures id in Select(engine, c, CompileWhere(q, Term(engine, q)))
         <==> Matches(engine, c.tables, q, id) && forall f :: f in q.filters ==> Sound(f)
    {
      WhereMeaning(engine, c, q, id);
    }
  }

  /** A listing is strictly ordered and holds each match once; no other list does. */
  lemma ListingMeaning(engine: TextEngine, c: Catalog, q: Query, list: seq<Entry>)
    ensures list == Listing(engine, c, q)
       <==> Ascending(list) && Elements(list) == Entries(c, Found(engine, c, q), q.sort)
    ensures |Listing(engine, c, q)| == |Found(engine, c, q)|
  {
    SortedMeaning(Entries(c, Found(engine, c, q), q.sort));
    EntriesCount(c, Found(engine, c, q), q.sort);
    if Ascending(list) {
      SortedIsTheOnlyListing(list);
    }
  }

  /** What a visitor sees of the order: cheapest first, dearest first, or newest first, ties by id. */
  lemma ListingIsSorted(engine: TextEngine, c: Catalog, q: Query, i: nat, j: nat)
    requires i < j < |Listing(engine, c, q)|
    ensures var list := Listing(engine, c, q);
            && list[i].id in c.tables.cards && list[j].id in c.tables.cards
            && var a, b := c.tables.cards[list[i].id], c.tables.cards[list[j].id];
               match q.sort
               case PriceAsc => a.price < b.price || (a.price == b.price && Less(list[i].id, list[j].id))
               case PriceDesc => a.price > b.price || (a.price == b.price && Less(list[i].id, list[j].id))
               case Newest => a.createdAt > b.createdAt || (a.createdAt == b.createdAt && Less(list[i].id, list[j].id))
               case Relevance =>
                 a.createdAt > b.createdAt || (a.createdAt == b.createdAt && Less(list[i].id, list[j].id))
  {
    var list := Listing(engine, c, q);
    SortedMeaning(Entries(c, Found(engine, c, q), q.sort));
    assert list[i] in Elements(list) && list[j] in Elements(list);
    assert Before(list[i], list[j]);
  }
}
