/** Whole histories of product writes against a catalog that has applied every event, once and in order:
  * when the two sides agree, and what the catalog may show as published. */
module Histories {
  import opened Prelude
  import opened Projection
  import opened Products

  datatype Write = Write(op: Op, now: Int64)

  datatype History = History(source: Source, events: seq<Event>)

  /** A refused write changes nothing and emits nothing. */
  function Play(writes: seq<Write>): History {
    if writes == [] then History(EMPTY_SOURCE, []) else
    var before := Play(writes[..|writes| - 1]);
    var w := writes[|writes| - 1];
    if Refused(before.source, w.op) then before else
    var event := EventOf(before.source, w.op, w.now);
    History(After(before.source, w.op, w.now), before.events + if event.Some? then [event.value] else [])
  }

  /** The keyed tables of a catalog that has applied the whole log in order. */
  function Replica(taxonomy: map<string, string>, writes: seq<Write>): Tables {
    Fold(taxonomy, EMPTY_TABLES, Changes(Play(writes).events))
  }

  /** The replica moves by exactly the change that the last write meant. */
  lemma ReplicaFollows(taxonomy: map<string, string>, writes: seq<Write>)
    requires writes != []
    ensures var before := writes[..|writes| - 1];
            var w := writes[|writes| - 1];
            Replica(taxonomy, writes) ==
            if Refused(Play(before).source, w.op) then Replica(taxonomy, before)
            else Step(taxonomy, Replica(taxonomy, before), ChangeOf(Play(before).source, w.op, w.now))
  {
    var before := Play(writes[..|writes| - 1]);
    var w := writes[|writes| - 1];
    PayloadRoundTrip(before.source, w.op, w.now);
    var event := EventOf(before.source, w.op, w.now);
    if event.Some? {
      assert Changes(before.events + [event.value]) == Changes(before.events) + [Decode(event.value)];
      FoldAppend(taxonomy, EMPTY_TABLES, Changes(before.events), Decode(event.value));
    } else {
      assert before.events + [] == before.events;
    }
  }

  lemma {:induction false} HistoryInvariant(taxonomy: map<string, string>, writes: seq<Write>)
    ensures ValuesOwned(Play(writes).source) && CardSlugsDistinct(Replica(taxonomy, writes).cards)
  {
    FoldKeepsCardSlugsDistinct(taxonomy, EMPTY_TABLES, Changes(Play(writes).events));
    if writes != [] {
      var before, w := Play(writes[..|writes| - 1]), writes[|writes| - 1];
      HistoryInvariant(taxonomy, writes[..|writes| - 1]);
      if !Refused(before.source, w.op) {
        WriteKeepsValuesOwned(before.source, w.op, w.now);
      }
    }
  }

  lemma {:induction false} DistinctSlugsSuffice(taxonomy: map<string, string>, writes: seq<Write>)
    requires forall n :: 0 <= n <= |writes| ==> SlugsDistinct(Play(writes[..n]).source.products)
    ensures Agrees(taxonomy, Play(writes).source, Replica(taxonomy, writes))
  {
    if writes != [] {
      var before := writes[..|writes| - 1];
      var w := writes[|writes| - 1];
      assert forall n :: 0 <= n <= |before| ==> before[..n] == writes[..n];
      assert writes[..|writes|] == writes;
      DistinctSlugsSuffice(taxonomy, before);
      HistoryInvariant(taxonomy, before);
      ReplicaFollows(taxonomy, writes);
      if !Refused(Play(before).source, w.op) {
        WriteKeepsAgreement(taxonomy, Play(before).source, Replica(taxonomy, before), w.op, w.now);
      }
    }
  }

  /** The in-order replica agrees with the source at every point of a history exactly when all live slugs
    * are distinct at every point of it. */
  lemma AgreementThroughout(taxonomy: map<string, string>, writes: seq<Write>)
    ensures (forall n :: 0 <= n <= |writes| ==>
        Agrees(taxonomy, Play(writes[..n]).source, Replica(taxonomy, writes[..n]))) <==>
            (forall n :: 0 <= n <= |writes| ==> SlugsDistinct(Play(writes[..n]).source.products))
  {
    forall n | 0 <= n <= |writes| && Agrees(taxonomy, Play(writes[..n]).source, Replica(taxonomy, writes[..n]))
      ensures SlugsDistinct(Play(writes[..n]).source.products)
    {
      HistoryInvariant(taxonomy, writes[..n]);
    }
    if forall n :: 0 <= n <= |writes| ==> SlugsDistinct(Play(writes[..n]).source.products) {
      forall n | 0 <= n <= |writes|
        ensures Agrees(taxonomy, Play(writes[..n]).source, Replica(taxonomy, writes[..n]))
      {
        assert forall k :: 0 <= k <= n ==> writes[..n][..k] == writes[..k];
        DistinctSlugsSuffice(taxonomy, writes[..n]);
      }
    }
  }

  /** After every history no two live products of one seller share a slug. */
  lemma {:induction false} SellersHaveDistinctSlugs(writes: seq<Write>)
    ensures SellerSlugsDistinct(Play(writes).source.products)
  {
    if writes != [] {
      var before, w := Play(writes[..|writes| - 1]).source, writes[|writes| - 1];
      SellersHaveDistinctSlugs(writes[..|writes| - 1]);
      if !Refused(before, w.op) {
        WriteKeepsSellerSlugs(before, w.op, w.now);
      }
    }
  }

  // -----------------------------------------------------------------
  // Status
  // -----------------------------------------------------------------

  /** Everything the catalog projects is a live product, and what it shows as published is published. */
  ghost predicate PublishedSafe(s: Source, t: Tables) {
    forall id :: id in t.cards ==>
        id in s.products && (t.cards[id].status == PUBLISHED ==> s.products[id].status.Published?)
  }

  lemma StatusNames(status: ProductStatus)
    ensures StatusName(status) == PUBLISHED <==> status.Published?
  {
    assert |"draft"| == 5 && |"published"| == 9 && |"archived"| == 8;
  }

  ghost predicate SameStatuses(s: Source, t: Tables, s': Source, t': Tables) {
    && s'.products.Keys == s.products.Keys && t'.cards.Keys == t.cards.Keys
    && (forall id :: id in s.products ==> s'.products[id].status == s.products[id].status)
    && (forall id :: id in t.cards ==> t'.cards[id].status == t.cards[id].status)
  }

  predicate MovesStatus(op: Op) {
    op.CreateProduct? || op.SetStatusOf? || op.DeleteProduct?
  }

  /** Only creation, deletion and a change of status touch a status on either side. */
  lemma OtherWritesKeepStatuses(taxonomy: map<string, string>, s: Source, t: Tables, op: Op, now: Int64)
    requires !Refused(s, op) && !MovesStatus(op)
    ensures SameStatuses(s, t, After(s, op, now), Step(taxonomy, t, ChangeOf(s, op, now)))
  {
    match op {
      case UpdateProduct(_, _, _, _, _, _) => assert ChangeOf(s, op, now).Core?;
      case SetAttributeValue(_, _, _) => assert ChangeOf(s, op, now).SetAttr?;
      case ClearAttributeValue(_, _) => assert ChangeOf(s, op, now).ClearAttr?;
      case WriteChild(_, _) => assert ChangeOf(s, op, now).Touch?;
    }
  }

  lemma WriteKeepsPublishedSafe(taxonomy: map<string, string>, s: Source, t: Tables, op: Op, now: Int64)
    requires PublishedSafe(s, t) && !Refused(s, op)
    ensures PublishedSafe(After(s, op, now), Step(taxonomy, t, ChangeOf(s, op, now)))
  {
    if !MovesStatus(op) {
      OtherWritesKeepStatuses(taxonomy, s, t, op, now);
    } else if op.CreateProduct? {
      StatusNames(op.product.status);
    } else if op.SetStatusOf? {
      StatusNames(op.status);
      // leaving `published` always emits an event
      assert op.id in s.products && s.products[op.id].status.Published? && op.status != Published
        ==> ChangeOf(s, op, now) == SetStatus(op.id, StatusName(op.status), now);
    }
  }

  /** Published safety over every history, silent transitions and clashing slugs included. */
  lemma {:induction false} PublishedSafety(taxonomy: map<string, string>, writes: seq<Write>)
    ensures PublishedSafe(Play(writes).source, Replica(taxonomy, writes))
  {
    if writes != [] {
      var before, w := writes[..|writes| - 1], writes[|writes| - 1];
      PublishedSafety(taxonomy, before);
      ReplicaFollows(taxonomy, writes);
      if !Refused(Play(before).source, w.op) {
        WriteKeepsPublishedSafe(taxonomy, Play(before).source, Replica(taxonomy, before), w.op, w.now);
      }
    }
  }

  /** The catalog shows the status that every projected product has. */
  ghost predicate StatusesAgree(s: Source, t: Tables) {
    forall id :: id in t.cards ==> id in s.products && t.cards[id].status == StatusName(s.products[id].status)
  }

  /** A real change of status that emits no event: draft to archived, and archived to anything. */
  predicate Silent(s: Source, op: Op) {
    && op.SetStatusOf? && op.id in s.products && s.products[op.id].status != op.status
    && StatusTransitionEvent(s.products[op.id].status, op.status).None?
  }

  lemma CreationKeepsStatuses(taxonomy: map<string, string>, s: Source, t: Tables, op: Op, now: Int64)
    requires StatusesAgree(s, t) && !Refused(s, op) && (op.CreateProduct? || op.DeleteProduct?)
    ensures StatusesAgree(After(s, op, now), Step(taxonomy, t, ChangeOf(s, op, now)))
  {
  }

  lemma StatusChangeLags(taxonomy: map<string, string>, s: Source, t: Tables, op: Op, now: Int64)
    requires StatusesAgree(s, t) && op.SetStatusOf?
    ensures var agree := StatusesAgree(After(s, op, now), Step(taxonomy, t, ChangeOf(s, op, now)));
            agree <==> !(Silent(s, op) && op.id in t.cards)
  {
    if op.id in s.products {
      NamesDiffer(s.products[op.id].status, op.status);
    }
  }

  /** One write keeps the shown statuses right exactly when it is not a silent change of a projected product. */
  lemma StatusLagsExactlyOnSilence(taxonomy: map<string, string>, s: Source, t: Tables, op: Op, now: Int64)
    requires StatusesAgree(s, t) && !Refused(s, op)
    ensures var agree := StatusesAgree(After(s, op, now), Step(taxonomy, t, ChangeOf(s, op, now)));
            agree <==> !(Silent(s, op) && op.id in t.cards)
  {
    if !MovesStatus(op) {
      OtherWritesKeepStatuses(taxonomy, s, t, op, now);
    } else if op.SetStatusOf? {
      StatusChangeLags(taxonomy, s, t, op, now);
    } else {
      CreationKeepsStatuses(taxonomy, s, t, op, now);
    }
  }

  lemma NamesDiffer(a: ProductStatus, b: ProductStatus)
    ensures StatusName(a) == StatusName(b) <==> a == b
  {
    assert |"draft"| == 5 && |"published"| == 9 && |"archived"| == 8;
  }

  /** With event-emitting transitions only, source and catalog show the same status after every history. */
  lemma {:induction false} NoSilenceNoLag(taxonomy: map<string, string>, writes: seq<Write>)
    requires forall n :: 0 <= n < |writes| ==> !Silent(Play(writes[..n]).source, writes[n].op)
    ensures StatusesAgree(Play(writes).source, Replica(taxonomy, writes))
  {
    if writes != [] {
      var before, w := writes[..|writes| - 1], writes[|writes| - 1];
      assert forall n :: 0 <= n <= |before| ==> before[..n] == writes[..n];
      assert !Silent(Play(writes[..|before|]).source, writes[|before|].op);
      NoSilenceNoLag(taxonomy, before);
      ReplicaFollows(taxonomy, writes);
      if !Refused(Play(before).source, w.op) {
        StatusLagsExactlyOnSilence(taxonomy, Play(before).source, Replica(taxonomy, before), w.op, w.now);
      }
    }
  }

  /** At no point of the history was the product archived. */
  ghost predicate NeverArchived(writes: seq<Write>, id: string) {
    forall n :: 0 <= n <= |writes| && id in Play(writes[..n]).source.products ==>
      Play(writes[..n]).source.products[id].status != Archived
  }

  /** The catalog shows the status of the product, if it shows the product. */
  predicate ShowsStatus(s: Source, t: Tables, id: string) {
    id in t.cards ==>
      && id in s.products
      && t.cards[id].status == match s.products[id].status
                               case Draft => "draft"
                               case Published => "published"
                               case Archived => "archived"
  }

  /** A write after which the product is not archived keeps the status it shows right. */
  lemma WriteKeepsShownStatus(taxonomy: map<string, string>, s: Source, t: Tables, op: Op, now: Int64, id: string)
    requires ShowsStatus(s, t, id) && !Refused(s, op) && (id in s.products ==> s.products[id].status != Archived)
    requires id in After(s, op, now).products ==> After(s, op, now).products[id].status != Archived
    ensures ShowsStatus(After(s, op, now), Step(taxonomy, t, ChangeOf(s, op, now)), id)
  {
    if !MovesStatus(op) {
      OtherWritesKeepStatuses(taxonomy, s, t, op, now);
    }
  }

  /** After every history each projected product that was never archived shows exactly the status it has: a draft
    * that is published appears as published, and one that is taken back does not. */
  lemma {:induction false} ShownUnlessArchived(taxonomy: map<string, string>, writes: seq<Write>, id: string)
    requires NeverArchived(writes, id)
    ensures ShowsStatus(Play(writes).source, Replica(taxonomy, writes), id)
  {
    if writes != [] {
      var before, w := writes[..|writes| - 1], writes[|writes| - 1];
      assert forall n :: 0 <= n <= |before| ==> before[..n] == writes[..n];
      assert before[..|before|] == before && writes[..|writes|] == writes;
      ShownUnlessArchived(taxonomy, before, id);
      ReplicaFollows(taxonomy, writes);
      if !Refused(Play(before).source, w.op) {
        WriteKeepsShownStatus(taxonomy, Play(before).source, Replica(taxonomy, before), w.op, w.now, id);
      }
    }
  }

  /** What the events of one write say about statuses. */
  function NextAnnounced(m: map<string, ProductStatus>, s: Source, op: Op): map<string, ProductStatus> {
    match op
    case CreateProduct(id, p) => m[id := p.status]
    case SetStatusOf(id, to) =>
      if id in s.products && StatusTransitionEvent(s.products[id].status, to).Some? then m[id := to] else m
    case DeleteProduct(id) => m - {id}
    case _ => m
  }

  /** The status of each product at the last write that announced one: its creation, or a change of status
    * that emits an event. */
  function Announced(writes: seq<Write>): map<string, ProductStatus> {
    if writes == [] then map[] else
    var before, w := writes[..|writes| - 1], writes[|writes| - 1];
    if Refused(Play(before).source, w.op) then Announced(before)
    else NextAnnounced(Announced(before), Play(before).source, w.op)
  }

  ghost predicate ShowsAnnounced(m: map<string, ProductStatus>, s: Source, t: Tables) {
    forall id :: id in t.cards ==> id in s.products && id in m && t.cards[id].status == StatusName(m[id])
  }

  lemma WriteKeepsAnnounced(taxonomy: map<string, string>, m: map<string, ProductStatus>, s: Source, t: Tables,
                            op: Op, now: Int64)
    requires ShowsAnnounced(m, s, t) && !Refused(s, op)
    ensures ShowsAnnounced(NextAnnounced(m, s, op), After(s, op, now), Step(taxonomy, t, ChangeOf(s, op, now)))
  {
    if !MovesStatus(op) {
      OtherWritesKeepStatuses(taxonomy, s, t, op, now);
    }
  }

  lemma {:induction false} CatalogShowsAnnounced(taxonomy: map<string, string>, writes: seq<Write>)
    ensures ShowsAnnounced(Announced(writes), Play(writes).source, Replica(taxonomy, writes))
  {
    if writes != [] {
      var before, w := writes[..|writes| - 1], writes[|writes| - 1];
      CatalogShowsAnnounced(taxonomy, before);
      ReplicaFollows(taxonomy, writes);
      if !Refused(Play(before).source, w.op) {
        WriteKeepsAnnounced(taxonomy, Announced(before), Play(before).source, Replica(taxonomy, before), w.op, w.now);
      }
    }
  }

  /** After every history the catalog shows of each product the status it last announced, so the shown
    * status is the true one exactly when that is still the product's status. */
  lemma StatusLagExactly(taxonomy: map<string, string>, writes: seq<Write>, id: string)
    requires id in Replica(taxonomy, writes).cards
    ensures var s, t := Play(writes).source, Replica(taxonomy, writes);
            && id in s.products && id in Announced(writes)
            && t.cards[id].status == StatusName(Announced(writes)[id])
            && (t.cards[id].status == StatusName(s.products[id].status) <==>
                Announced(writes)[id] == s.products[id].status)
  {
    CatalogShowsAnnounced(taxonomy, writes);
    NamesDiffer(Announced(writes)[id], Play(writes).source.products[id].status);
  }
}
