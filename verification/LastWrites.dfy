/** The last write wins: every field of every product, and every attribute value, is what the last accepted write
  * that concerns it made of it. */
module LastWrites {
  import opened Prelude
  import opened Projection
  import opened Products
  import opened Histories

  /** Picks writes by what they ask for and what they find. */
  type Choice = (Source, Op) -> bool

  /** Write `n` of the history was accepted, and `chosen` picks it. */
  ghost predicate Took(writes: seq<Write>, n: nat, chosen: Choice) {
    n < |writes| && !Refused(Play(writes[..n]).source, writes[n].op) && chosen(Play(writes[..n]).source, writes[n].op)
  }

  /** The last write that was accepted and that `chosen` picks. */
  ghost function Latest(writes: seq<Write>, chosen: Choice): Option<Write> {
    if writes == [] then None
    else if Took(writes, |writes| - 1, chosen) then Some(writes[|writes| - 1])
    else Latest(writes[..|writes| - 1], chosen)
  }

  lemma {:induction false} LatestMeaning(writes: seq<Write>, chosen: Choice)
    ensures var w := Latest(writes, chosen);
            if w.None? then forall n: nat :: !Took(writes, n, chosen)
            else exists n: nat :: Took(writes, n, chosen) && writes[n] == w.value
                                  && forall m: nat :: n < m ==> !Took(writes, m, chosen)
  {
    if writes != [] && !Took(writes, |writes| - 1, chosen) {
      var before := writes[..|writes| - 1];
      LatestMeaning(before, chosen);
      forall n: nat
        ensures Took(writes, n, chosen) <==> Took(before, n, chosen)
      {
        if n < |before| {
          assert before[..n] == writes[..n];
        }
      }
    }
  }

  lemma PlayLast(writes: seq<Write>, chosen: Choice)
    requires writes != []
    ensures var before, w := writes[..|writes| - 1], writes[|writes| - 1];
            var s := Play(before).source;
            && Play(writes).source == (if Refused(s, w.op) then s else After(s, w.op, w.now))
            && Latest(writes, chosen)
            == if !Refused(s, w.op) && chosen(s, w.op) then Some(w) else Latest(before, chosen)
  {
  }

  // -----------------------------------------------------------------
  // Which products exist
  // -----------------------------------------------------------------

  function Births(id: string): Choice {
    (s: Source, op: Op) => op.id == id && (op.CreateProduct? || op.DeleteProduct?)
  }

  predicate ByBirth(products: map<string, Product>, id: string, w: Option<Write>) {
    && (id in products <==> w.Some? && w.value.op.CreateProduct?)
    && (id in products ==>
         && products[id].seller == w.value.op.product.seller
         && products[id].createdAt == w.value.op.product.createdAt)
  }

  lemma BirthStep(s: Source, op: Op, now: Int64, id: string, w: Option<Write>)
    requires ByBirth(s.products, id, w) && !Refused(s, op)
    ensures ByBirth(After(s, op, now).products, id, if Births(id)(s, op) then Some(Write(op, now)) else w)
  {
  }

  /** A product exists exactly when the last creation or deletion of it is a creation; seller and time of creation
    * are those of its creation. */
  lemma {:induction false} ExistsByBirth(writes: seq<Write>, id: string)
    ensures var products, w := Play(writes).source.products, Latest(writes, Births(id));
            && (id in products <==> w.Some? && w.value.op.CreateProduct?)
            && (id in products ==>
                 && products[id].seller == w.value.op.product.seller
                 && products[id].createdAt == w.value.op.product.createdAt)
  {
    if writes != [] {
      var before, w := writes[..|writes| - 1], writes[|writes| - 1];
      ExistsByBirth(before, id);
      PlayLast(writes, Births(id));
      if !Refused(Play(before).source, w.op) {
        BirthStep(Play(before).source, w.op, w.now, id, Latest(before, Births(id)));
      }
    }
  }

  // -----------------------------------------------------------------
  // What they are called and what they cost
  // -----------------------------------------------------------------

  function Edits(id: string): Choice {
    (s: Source, op: Op) => op.id == id && (op.CreateProduct? || (op.UpdateProduct? && id in s.products))
  }

  predicate Describes(op: Op, p: Product) {
    match op
    case CreateProduct(_, q) =>
      && p.title == q.title && p.slug == q.slug && p.description == q.description
      && p.price == q.price && p.currency == q.currency
    case UpdateProduct(_, title, slug, description, price, currency) =>
      && p.title == title && p.slug == slug && p.description == description
      && p.price == price && p.currency == currency
    case _ => false
  }

  predicate ByEdit(products: map<string, Product>, id: string, w: Option<Write>) {
    id in products ==> w.Some? && Describes(w.value.op, products[id])
  }

  lemma EditStep(s: Source, op: Op, now: Int64, id: string, w: Option<Write>)
    requires ByEdit(s.products, id, w) && !Refused(s, op)
    ensures ByEdit(After(s, op, now).products, id, if Edits(id)(s, op) then Some(Write(op, now)) else w)
  {
  }

  /** Title, slug, description, price and currency are those of the last update, or of the creation if there was
    * no update since. */
  lemma {:induction false} DescribedByEdit(writes: seq<Write>, id: string)
    requires id in Play(writes).source.products
    ensures var w := Latest(writes, Edits(id)); w.Some? && Describes(w.value.op, Play(writes).source.products[id])
  {
    DescribedAtLast(writes, id);
  }

  lemma {:induction false} DescribedAtLast(writes: seq<Write>, id: string)
    ensures ByEdit(Play(writes).source.products, id, Latest(writes, Edits(id)))
  {
    if writes != [] {
      var before, w := writes[..|writes| - 1], writes[|writes| - 1];
      DescribedAtLast(before, id);
      PlayLast(writes, Edits(id));
      if !Refused(Play(before).source, w.op) {
        EditStep(Play(before).source, w.op, w.now, id, Latest(before, Edits(id)));
      }
    }
  }

  // -----------------------------------------------------------------
  // Status, and the time of the last change
  // -----------------------------------------------------------------

  function Moves(id: string): Choice {
    (s: Source, op: Op) => op.id == id && (op.CreateProduct? || op.SetStatusOf?)
  }

  function Stamps(id: string): Choice {
    (s: Source, op: Op) =>
      op.id == id &&
      (op.CreateProduct? || (id in s.products &&
                             (op.UpdateProduct? || (op.SetStatusOf? && op.status != s.products[id].status))))
  }

  predicate ByMove(products: map<string, Product>, id: string, w: Option<Write>) {
    id in products ==>
      && w.Some?
      && (w.value.op.CreateProduct? ==> products[id].status == w.value.op.product.status)
      && (!w.value.op.CreateProduct? ==> w.value.op.SetStatusOf? && products[id].status == w.value.op.status)
  }

  predicate ByStamp(products: map<string, Product>, id: string, w: Option<Write>) {
    id in products ==>
      && w.Some?
      && products[id].updatedAt == if w.value.op.CreateProduct? then w.value.op.product.updatedAt else w.value.now
  }

  lemma MoveStep(s: Source, op: Op, now: Int64, id: string, w: Option<Write>)
    requires ByMove(s.products, id, w) && !Refused(s, op)
    ensures ByMove(After(s, op, now).products, id, if Moves(id)(s, op) then Some(Write(op, now)) else w)
  {
  }

  lemma StampStep(s: Source, op: Op, now: Int64, id: string, w: Option<Write>)
    requires ByStamp(s.products, id, w) && !Refused(s, op)
    ensures ByStamp(After(s, op, now).products, id, if Stamps(id)(s, op) then Some(Write(op, now)) else w)
  {
  }

  /** The status is the one last set, or that of the creation; the product was last changed by its last update or
    * real change of status, or by its creation. */
  lemma {:induction false} StatusByMove(writes: seq<Write>, id: string)
    ensures ByMove(Play(writes).source.products, id, Latest(writes, Moves(id)))
    ensures ByStamp(Play(writes).source.products, id, Latest(writes, Stamps(id)))
  {
    if writes != [] {
      var before, w := writes[..|writes| - 1], writes[|writes| - 1];
      StatusByMove(before, id);
      PlayLast(writes, Moves(id));
      PlayLast(writes, Stamps(id));
      if !Refused(Play(before).source, w.op) {
        MoveStep(Play(before).source, w.op, w.now, id, Latest(before, Moves(id)));
        StampStep(Play(before).source, w.op, w.now, id, Latest(before, Stamps(id)));
      }
    }
  }

  // -----------------------------------------------------------------
  // Attribute values
  // -----------------------------------------------------------------

  function Settings(id: string, attribute: string): Choice {
    (s: Source, op: Op) =>
      op.id == id && (op.DeleteProduct?
                      || (op.SetAttributeValue? && op.attribute == attribute)
                      || (op.ClearAttributeValue? && op.attribute == attribute))
  }

  predicate BySetting(values: map<AttrKey, AttrValue>, k: AttrKey, w: Option<Write>) {
    && (k in values <==> w.Some? && w.value.op.SetAttributeValue?)
    && (k in values ==> values[k] == w.value.op.val)
  }

  lemma SettingStep(s: Source, op: Op, now: Int64, id: string, attribute: string, w: Option<Write>)
    requires BySetting(s.values, (id, attribute), w)
    ensures var chosen := Settings(id, attribute)(s, op);
            BySetting(After(s, op, now).values, (id, attribute), if chosen then Some(Write(op, now)) else w)
  {
  }

  /** A product has a value for an attribute exactly when the last write that set it, cleared it or deleted the
    * product is one that set it, and then it has that value. */
  lemma {:induction false} ValueBySetting(writes: seq<Write>, id: string, attribute: string)
    ensures var values, w := Play(writes).source.values, Latest(writes, Settings(id, attribute));
            && ((id, attribute) in values <==> w.Some? && w.value.op.SetAttributeValue?)
            && ((id, attribute) in values ==> values[(id, attribute)] == w.value.op.val)
  {
    if writes != [] {
      var before, w := writes[..|writes| - 1], writes[|writes| - 1];
      ValueBySetting(before, id, attribute);
      PlayLast(writes, Settings(id, attribute));
      if !Refused(Play(before).source, w.op) {
        SettingStep(Play(before).source, w.op, w.now, id, attribute, Latest(before, Settings(id, attribute)));
      }
    }
  }

  // -----------------------------------------------------------------
  // What the catalog shows as the time of the last change
  // -----------------------------------------------------------------

  predicate Announced(from: ProductStatus, to: ProductStatus) {
    (from == Draft && to == Published) || (from == Published && to != Published)
  }

  function Notices(id: string): Choice {
    (s: Source, op: Op) =>
      op.id == id &&
      (op.CreateProduct? || (id in s.products &&
                             (op.UpdateProduct? || op.WriteChild? ||
                              (op.SetStatusOf? && Announced(s.products[id].status, op.status)))))
  }

  predicate ByNotice(cards: map<string, Card>, id: string, w: Option<Write>) {
    id in cards ==>
      && w.Some?
      && cards[id].updatedAt == if w.value.op.CreateProduct? then w.value.op.product.updatedAt else w.value.now
  }

  lemma CreationNotice(taxonomy: map<string, string>, s: Source, t: Tables, op: Op, now: Int64, id: string,
                       w: Option<Write>)
    requires Agrees(taxonomy, s, t) && ByNotice(t.cards, id, w) && !Refused(s, op) && op.CreateProduct?
    requires SlugsDistinct(s.products) && SlugsDistinct(After(s, op, now).products)
    ensures ByNotice(Step(taxonomy, t, ChangeOf(s, op, now)).cards, id,
                     if Notices(id)(s, op) then Some(Write(op, now)) else w)
  {
    CreateAgreement(s.products, t.cards, op.id, op.product);
  }

  lemma UpdateNotice(taxonomy: map<string, string>, s: Source, t: Tables, op: Op, now: Int64, id: string,
                     w: Option<Write>)
    requires Agrees(taxonomy, s, t) && ByNotice(t.cards, id, w) && !Refused(s, op) && op.UpdateProduct?
    requires SlugsDistinct(s.products) && SlugsDistinct(After(s, op, now).products)
    ensures ByNotice(Step(taxonomy, t, ChangeOf(s, op, now)).cards, id,
                     if Notices(id)(s, op) then Some(Write(op, now)) else w)
  {
    if op.id in s.products {
      UpdateAgreement(s.products, t.cards, op, now);
    }
  }

  lemma StatusNotice(taxonomy: map<string, string>, s: Source, t: Tables, op: Op, now: Int64, id: string,
                     w: Option<Write>)
    requires Agrees(taxonomy, s, t) && ByNotice(t.cards, id, w) && !Refused(s, op) && op.SetStatusOf?
    ensures ByNotice(Step(taxonomy, t, ChangeOf(s, op, now)).cards, id,
                     if Notices(id)(s, op) then Some(Write(op, now)) else w)
  {
    var announced := op.id in s.products && Announced(s.products[op.id].status, op.status);
    assert ChangeOf(s, op, now) == if announced then SetStatus(op.id, StatusName(op.status), now) else Ignore;
  }

  lemma OtherNotice(taxonomy: map<string, string>, s: Source, t: Tables, op: Op, now: Int64, id: string,
                    w: Option<Write>)
    requires Agrees(taxonomy, s, t) && ByNotice(t.cards, id, w) && !Refused(s, op)
    requires op.DeleteProduct? || op.SetAttributeValue? || op.ClearAttributeValue? || op.WriteChild?
    ensures ByNotice(Step(taxonomy, t, ChangeOf(s, op, now)).cards, id,
                     if Notices(id)(s, op) then Some(Write(op, now)) else w)
  {
    match op {
      case DeleteProduct(_) =>
      case SetAttributeValue(_, _, _) => assert ChangeOf(s, op, now).SetAttr?;
      case ClearAttributeValue(_, _) => assert ChangeOf(s, op, now).ClearAttr?;
      case WriteChild(_, _) => assert ChangeOf(s, op, now) == Touch(op.id, now);
    }
  }

  lemma NoticeStep(taxonomy: map<string, string>, s: Source, t: Tables, op: Op, now: Int64, id: string,
                   w: Option<Write>)
    requires Agrees(taxonomy, s, t) && ByNotice(t.cards, id, w) && !Refused(s, op)
    requires SlugsDistinct(s.products) && SlugsDistinct(After(s, op, now).products)
    ensures ByNotice(Step(taxonomy, t, ChangeOf(s, op, now)).cards, id,
                     if Notices(id)(s, op) then Some(Write(op, now)) else w)
  {
    match op {
      case CreateProduct(_, _) => CreationNotice(taxonomy, s, t, op, now, id, w);
      case UpdateProduct(_, _, _, _, _, _) => UpdateNotice(taxonomy, s, t, op, now, id, w);
      case SetStatusOf(_, _) => StatusNotice(taxonomy, s, t, op, now, id, w);
      case _ => OtherNotice(taxonomy, s, t, op, now, id, w);
    }
  }

  /** Where live slugs are distinct, the catalog shows as the time of a product's last change that of the last
    * update, announced change of status or other write that touches it; attribute values do not count. */
  lemma {:induction false} ShownStamp(taxonomy: map<string, string>, writes: seq<Write>, id: string)
    requires forall n :: 0 <= n <= |writes| ==> SlugsDistinct(Play(writes[..n]).source.products)
    ensures ByNotice(Replica(taxonomy, writes).cards, id, Latest(writes, Notices(id)))
  {
    if writes != [] {
      var before, w := writes[..|writes| - 1], writes[|writes| - 1];
      assert forall n :: 0 <= n <= |before| ==> before[..n] == writes[..n];
      assert writes[..|writes|] == writes;
      ShownStamp(taxonomy, before, id);
      DistinctSlugsSuffice(taxonomy, before);
      ReplicaFollows(taxonomy, writes);
      PlayLast(writes, Notices(id));
      if !Refused(Play(before).source, w.op) {
        NoticeStep(taxonomy, Play(before).source, Replica(taxonomy, before), w.op, w.now, id,
                   Latest(before, Notices(id)));
      }
    }
  }
}
