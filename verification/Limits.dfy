/** How far convergence reaches. Each of its two assumptions, updates that name existing products and slugs
  * that belong to one product, is exactly the condition under which every run converges: where it fails,
  * some writes that the product repository accepts, delivered twice because of one crash, leave a catalog
  * that an in-order delivery would not. */
module Limits {
  import opened Prelude
  import opened Projection
  import opened Products
  import opened Histories
  import opened Protocol
  import opened Redelivery
  import opened Replication
  import opened Views
  import DeadLetters

  /** Whatever the interleaving, the failures and the crashes: once nothing is pending and nothing was
    * dead-lettered, the catalog is the one that an in-order delivery gives. */
  ghost predicate Converges(taxonomy: map<string, string>, writes: seq<Write>) {
    forall actions :: WritesOf(actions) == writes && Settles(Run(taxonomy, START, actions)) ==>
      Run(taxonomy, START, actions).catalog.tables == Replica(taxonomy, writes)
  }

  /** A blind update does no harm until its product is created without having been deleted in between. */
  lemma ReplayableSuffices(taxonomy: map<string, string>, own: Owner, writes: seq<Write>)
    requires Owned(own, LogOf(writes)) && ReplayableLog(LogOf(writes))
    ensures Converges(taxonomy, writes)
  {
    assert Skipped(LogOf(writes), {}) == LogOf(writes);
    forall actions | WritesOf(actions) == writes && Settles(Run(taxonomy, START, actions))
      ensures Run(taxonomy, START, actions).catalog.tables == Replica(taxonomy, writes)
    {
      DeadLetters.SurvivorsDecide(taxonomy, own, actions);
      FoldCatalogTables(taxonomy, EMPTY_CATALOG, LogOf(writes));
    }
  }

  lemma AssumptionsSuffice(taxonomy: map<string, string>, own: Owner, writes: seq<Write>)
    requires AllGuarded(writes) && Owned(own, LogOf(writes))
    ensures Converges(taxonomy, writes)
  {
    GuardedHistoriesAreWellFormed(writes);
    assert Skipped(LogOf(writes), {}) == LogOf(writes);
    forall p
      ensures Replayable(View(p, LogOf(writes)), p)
    {
      HolesAreReplayable(LogOf(writes), {}, p);
    }
    ReplayableSuffices(taxonomy, own, writes);
  }

  /** Under slug ownership no event is refused, however often it comes. */
  lemma {:induction false} OwnedFold(taxonomy: map<string, string>, own: Owner, t: Tables, log: seq<Change>, k: nat)
    requires CardsOwned(own, t.cards) && Owned(own, log) && k <= |log|
    ensures CardsOwned(own, Fold(taxonomy, t, log[..k]).cards)
  {
    if k == 0 {
      assert log[..0] == [];
    } else {
      OwnedFold(taxonomy, own, t, log, k - 1);
      FoldNext(taxonomy, t, log, k - 1);
      OwnedStep(taxonomy, own, Fold(taxonomy, t, log[..k - 1]), log[k - 1]);
    }
  }

  lemma OwnedIsAccepted(taxonomy: map<string, string>, own: Owner, t: Tables, log: seq<Change>)
    requires CardsOwned(own, t.cards) && Owned(own, log)
    ensures Accepts(taxonomy, t, log) && CardsOwned(own, Fold(taxonomy, t, log).cards)
  {
    forall k | 0 <= k < |log|
      ensures ApplyTables(taxonomy, Fold(taxonomy, t, log[..k]), log[k]).Some?
    {
      OwnedFold(taxonomy, own, t, log, k);
      OwnedStep(taxonomy, own, Fold(taxonomy, t, log[..k]), log[k]);
    }
    OwnedFold(taxonomy, own, t, log, |log|);
    assert log[..|log|] == log;
  }

  // -----------------------------------------------------------------
  // Updates of products that do not exist
  // -----------------------------------------------------------------

  /** An edit that finds no product does nothing; the same edit after the product was created changes it,
    * and replaying the creation does not undo that. */
  lemma BlindEdit(taxonomy: map<string, string>, own: Owner, t: Tables, e: Change, card: Card)
    requires (e.Core? || e.Touch?) && e.id !in t.cards
    requires CardsOwned(own, t.cards) && OwnsSlug(own, e) && own(card.slug) == e.id
    ensures var create := Create(e.id, card);
            var last := Step(taxonomy, Step(taxonomy, t, e), create);
            var again := Step(taxonomy, Step(taxonomy, last, e), create);
            && e.id in last.cards && last.cards[e.id] == card
            && e.id in again.cards && again.cards[e.id] == EditCard(card, e)
  {
    var create := Create(e.id, card);
    StepIsPointwise(taxonomy, own, t, e);
    OwnedStep(taxonomy, own, t, e);
    var t1 := Step(taxonomy, t, e);
    StepIsPointwise(taxonomy, own, t1, create);
    OwnedStep(taxonomy, own, t1, create);
    var last := Step(taxonomy, t1, create);
    StepIsPointwise(taxonomy, own, last, e);
    OwnedStep(taxonomy, own, last, e);
    StepIsPointwise(taxonomy, own, Step(taxonomy, last, e), create);
    assert Lookup(t.cards, e.id) == None;
    assert Lookup(last.cards, e.id) == Some(card);
    assert Lookup(Step(taxonomy, Step(taxonomy, last, e), create).cards, e.id) == Some(EditCard(card, e));
  }

  /** A draft with slug `slug` that the write `w`, had it come later, would have changed visibly. */
  function Latecomer(w: Write, slug: string): Product {
    var title := if w.op.UpdateProduct? then w.op.title + "!" else "";
    Product("", title, slug, "", 0, "", Draft, 0, if w.now == 0 then 1 else 0)
  }

  lemma FoldTwo(taxonomy: map<string, string>, t: Tables, x: Change, y: Change)
    ensures Fold(taxonomy, t, [x, y]) == Step(taxonomy, Step(taxonomy, t, x), y)
  {
    assert [x, y][1..] == [y] && [y][1..] == [];
    assert Fold(taxonomy, t, [x, y]) == Fold(taxonomy, Step(taxonomy, t, x), [y]);
    assert Fold(taxonomy, Step(taxonomy, t, x), [y]) == Fold(taxonomy, Step(taxonomy, Step(taxonomy, t, x), y), []);
  }

  lemma {:induction false} FoldConcat(taxonomy: map<string, string>, t: Tables, a: seq<Change>, b: seq<Change>)
    ensures Fold(taxonomy, t, a + b) == Fold(taxonomy, Fold(taxonomy, t, a), b)
  {
    if b == [] {
      assert a + b == a;
    } else {
      var init, last := b[..|b| - 1], b[|b| - 1];
      FoldConcat(taxonomy, t, a, init);
      assert a + b == a + init + [last] && b == init + [last];
      FoldAppend(taxonomy, t, a + init, last);
      FoldAppend(taxonomy, Fold(taxonomy, t, a), init, last);
    }
  }

  /** The window of a blind edit and a later creation, delivered once and delivered twice. */
  lemma BlindWindow(taxonomy: map<string, string>, own: Owner, t: Tables, e: Change, card: Card)
    requires (e.Core? || e.Touch?) && e.id !in t.cards
    requires CardsOwned(own, t.cards) && OwnsSlug(own, e) && own(card.slug) == e.id
    ensures var window := [e, Create(e.id, card)];
            var once, twice := Fold(taxonomy, t, window), Fold(taxonomy, Fold(taxonomy, t, window), window);
            && Accepts(taxonomy, t, window) && Accepts(taxonomy, once, window)
            && e.id in once.cards && once.cards[e.id] == card
            && e.id in twice.cards && twice.cards[e.id] == EditCard(card, e)
  {
    var create := Create(e.id, card);
    var window := [e, create];
    BlindEdit(taxonomy, own, t, e, card);
    FoldTwo(taxonomy, t, e, create);
    FoldTwo(taxonomy, Fold(taxonomy, t, window), e, create);
    OwnedIsAccepted(taxonomy, own, t, window);
    OwnedIsAccepted(taxonomy, own, Fold(taxonomy, t, window), window);
  }

  /** `w` names a product that does not exist, which neither the repository nor the database refuses, and
    * that product may one day be created with the slug `slug`. */
  ghost predicate Blind(own: Owner, writes: seq<Write>, w: Write, slug: string) {
    && AllGuarded(writes) && Owned(own, LogOf(writes + [w])) && own(slug) == w.op.id
    && (w.op.UpdateProduct? || w.op.WriteChild?) && !Refused(Play(writes).source, w.op)
    && !Guarded(Play(writes).source, w.op)
  }

  function BlindChange(writes: seq<Write>, w: Write): Change {
    ChangeOf(Play(writes).source, w.op, w.now)
  }

  function Creating(w: Write, slug: string): Write {
    Write(CreateProduct(w.op.id, Latecomer(w, slug)), 0)
  }

  /** A blind write changes no product and announces its change. */
  lemma BlindWriteAnnounces(own: Owner, writes: seq<Write>, w: Write, slug: string)
    requires Blind(own, writes, w, slug)
    ensures Play(writes + [w]).source == Play(writes).source
    ensures LogOf(writes + [w]) == LogOf(writes) + [BlindChange(writes, w)]
    ensures Owned(own, LogOf(writes)) && OwnsSlug(own, BlindChange(writes, w))
  {
    assert (writes + [w])[..|writes|] == writes;
    LogFollows(writes + [w]);
    var log := LogOf(writes + [w]);
    assert EventOf(Play(writes).source, w.op, w.now).Some?;
    assert forall i :: 0 <= i < |LogOf(writes)| ==> LogOf(writes)[i] == log[i];
    assert log[|LogOf(writes)|] == BlindChange(writes, w);
  }

  /** The product can still be created: nobody else has its slug. */
  lemma CreationFollows(own: Owner, writes: seq<Write>, w: Write, slug: string)
    requires Blind(own, writes, w, slug)
    ensures var s, create := Play(writes).source, Creating(w, slug);
            && Play(writes + [w, create]).source == After(s, create.op, 0)
            && LogOf(writes + [w, create])
            == LogOf(writes) + [BlindChange(writes, w), Create(w.op.id, CardOf(Latecomer(w, slug)))]
  {
    var s, create := Play(writes).source, Creating(w, slug);
    BlindWriteAnnounces(own, writes, w, slug);
    OwnedHistory(own, writes + [w]);
    assert !Refused(s, create.op);
    var all := writes + [w, create];
    assert all[..|all| - 1] == writes + [w];
    LogFollows(all);
  }

  /** What the latecomer's window meets. */
  lemma BlindWindowOf(taxonomy: map<string, string>, own: Owner, writes: seq<Write>, w: Write, slug: string)
    requires Blind(own, writes, w, slug)
    ensures var e, card, t := BlindChange(writes, w), CardOf(Latecomer(w, slug)), Replica(taxonomy, writes);
            && (e.Core? || e.Touch?) && e.id == w.op.id && e.id !in t.cards
            && CardsOwned(own, t.cards) && OwnsSlug(own, e) && own(card.slug) == e.id
            && EditCard(card, e).updatedAt != card.updatedAt
            && (w.op.UpdateProduct? ==> EditCard(card, e).title != card.title)
            && Accepts(taxonomy, EMPTY_TABLES, LogOf(writes))
  {
    BlindWriteAnnounces(own, writes, w, slug);
    OwnedHistory(own, writes);
    DistinctSlugsSuffice(taxonomy, writes);
    OwnedIsAccepted(taxonomy, own, EMPTY_TABLES, LogOf(writes));
  }

  /** An update or child write for a product that does not exist, then the creation of that product, then
    * one crash between delivery and mark: everything is delivered, nothing is dead-lettered, and the catalog
    * shows the product as the write left it, not as it was created. */
  lemma BlindWriteDiverges(taxonomy: map<string, string>, own: Owner, writes: seq<Write>, w: Write, slug: string)
    returns (actions: seq<Action>)
    requires Blind(own, writes, w, slug)
    ensures WritesOf(actions) == writes + [w, Creating(w, slug)]
    ensures var s := Run(taxonomy, START, actions);
            && Settles(s)
            && s.catalog.tables != Replica(taxonomy, WritesOf(actions))
            && (w.op.UpdateProduct? ==> !Agrees(taxonomy, s.source, s.catalog.tables))
  {
    var e, card, t := BlindChange(writes, w), CardOf(Latecomer(w, slug)), Replica(taxonomy, writes);
    var window := [e, Create(e.id, card)];
    CreationFollows(own, writes, w, slug);
    BlindWindowOf(taxonomy, own, writes, w, slug);
    BlindWindow(taxonomy, own, t, e, card);
    actions := DeliveredTwice(taxonomy, writes, [w, Creating(w, slug)], window);
    FoldConcat(taxonomy, EMPTY_TABLES, LogOf(writes), window);
    RunIsHistory(taxonomy, actions);
    assert Run(taxonomy, START, actions).catalog.tables.cards[e.id] == EditCard(card, e);
  }

  /** The writes `more` that follow name existing products. */
  predicate GuardedFrom(writes: seq<Write>, more: seq<Write>)
    decreases |more|
  {
    more == [] ||
    var init, w := more[..|more| - 1], more[|more| - 1];
    var s := Play(writes + init).source;
    GuardedFrom(writes, init) && (Refused(s, w.op) || Guarded(s, w.op))
  }

  lemma {:induction false} GuardedThroughout(writes: seq<Write>, more: seq<Write>)
    requires AllGuarded(writes) && GuardedFrom(writes, more)
    ensures AllGuarded(writes + more)
  {
    if more == [] {
      assert writes + more == writes;
    } else {
      var init, w := more[..|more| - 1], more[|more| - 1];
      GuardedThroughout(writes, init);
      GuardedSnoc(writes + init, w);
      assert writes + more == writes + init + [w];
    }
  }

  lemma GuardedSnoc(writes: seq<Write>, w: Write)
    requires AllGuarded(writes) && (Refused(Play(writes).source, w.op) || Guarded(Play(writes).source, w.op))
    ensures AllGuarded(writes + [w])
  {
    assert (writes + [w])[..|writes|] == writes;
  }

  /** Whatever guarded writes of the same owners follow, the whole history converges. */
  ghost predicate Harmless(taxonomy: map<string, string>, own: Owner, writes: seq<Write>) {
    forall more :: GuardedFrom(writes, more) && Owned(own, LogOf(writes + more)) ==> Converges(taxonomy, writes + more)
  }

  lemma GuardedIsHarmless(taxonomy: map<string, string>, own: Owner, writes: seq<Write>)
    requires AllGuarded(writes)
    ensures Harmless(taxonomy, own, writes)
  {
    forall more | GuardedFrom(writes, more) && Owned(own, LogOf(writes + more))
      ensures Converges(taxonomy, writes + more)
    {
      GuardedThroughout(writes, more);
      AssumptionsSuffice(taxonomy, own, writes + more);
    }
  }

  lemma CreationIsGuarded(own: Owner, writes: seq<Write>, w: Write, slug: string)
    requires Blind(own, writes, w, slug)
    ensures GuardedFrom(writes + [w], [Creating(w, slug)])
    ensures Owned(own, LogOf(writes + [w, Creating(w, slug)]))
  {
    var more := [Creating(w, slug)];
    assert more[..0] == [] && Guarded(Play(writes + [w] + more[..0]).source, more[0].op);
    BlindWriteAnnounces(own, writes, w, slug);
    CreationFollows(own, writes, w, slug);
  }

  lemma BlindIsHarmful(taxonomy: map<string, string>, own: Owner, writes: seq<Write>, w: Write, slug: string)
    requires Blind(own, writes, w, slug)
    ensures !Harmless(taxonomy, own, writes + [w])
  {
    var more := [Creating(w, slug)];
    var actions := BlindWriteDiverges(taxonomy, own, writes, w, slug);
    CreationIsGuarded(own, writes, w, slug);
    var all := writes + [w] + more;
    assert all == writes + [w, Creating(w, slug)];
    RunRefutes(taxonomy, all, actions);
  }

  lemma RunRefutes(taxonomy: map<string, string>, writes: seq<Write>, actions: seq<Action>)
    requires WritesOf(actions) == writes && Settles(Run(taxonomy, START, actions))
    requires Run(taxonomy, START, actions).catalog.tables != Replica(taxonomy, writes)
    ensures !Converges(taxonomy, writes)
  {
  }

  /** The guard is exact: after a guarded history, an update or child write is harmless exactly when its
    * product exists. `update_product` does not check that. */
  lemma UpdateGuardIsExact(taxonomy: map<string, string>, own: Owner, writes: seq<Write>, w: Write, slug: string)
    requires AllGuarded(writes) && !Refused(Play(writes).source, w.op) && (w.op.UpdateProduct? || w.op.WriteChild?)
    requires Owned(own, LogOf(writes + [w])) && own(slug) == w.op.id
    ensures Harmless(taxonomy, own, writes + [w]) <==> w.op.id in Play(writes).source.products
  {
    if w.op.id in Play(writes).source.products {
      GuardedSnoc(writes, w);
      GuardedIsHarmless(taxonomy, own, writes + [w]);
    } else {
      BlindIsHarmful(taxonomy, own, writes, w, slug);
    }
  }
}
