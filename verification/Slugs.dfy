/** Which slugs may products use? The source checks a slug only against the live products of one seller. The
  * catalog converges under every interleaving exactly when no slug is ever permitted to two products of which
  * one may use another slug: slugs that are merely distinct at every moment are not enough. */
module Slugs {
  import opened Prelude
  import opened Projection
  import opened Products
  import opened Histories
  import opened Protocol
  import opened Redelivery
  import opened Replication
  import opened Limits
  import opened Sharing

  /** No slug is permitted to two products. */
  ghost predicate Exclusive(may: Policy) {
    forall a, b, slug :: may(a, slug) && may(b, slug) ==> a == b
  }

  /** A product that may use one slug may also move to another one. */
  ghost predicate Movable(may: Policy) {
    forall id, slug :: may(id, slug) ==> HasOther(may, id, slug)
  }

  // -----------------------------------------------------------------
  // Slugs that are shared by products without another one
  // -----------------------------------------------------------------

  lemma LiveThen(before: seq<Change>, log: seq<Change>, k: nat)
    requires before <= log && k <= |before|
    ensures Live(log, k) == Live(before, k)
  {
    LiveOfPrefix(before, log[|before|..], k);
    assert before + log[|before|..] == log;
  }

  /** The repository announces a deletion only of a product that exists. */
  lemma {:induction false} DeletesLive(writes: seq<Write>, k: nat)
    requires k < |LogOf(writes)| && LogOf(writes)[k].Delete?
    ensures LogOf(writes)[k].id in Live(LogOf(writes), k)
  {
    if writes != [] {
      var before, w := writes[..|writes| - 1], writes[|writes| - 1];
      LogFollows(writes);
      LiveThen(LogOf(before), LogOf(writes), Min(k, |LogOf(before)|));
      if k < |LogOf(before)| {
        DeletesLive(before, k);
      } else {
        LiveIsSource(before);
      }
    }
  }

  lemma PrefixThen(taxonomy: map<string, string>, before: seq<Change>, log: seq<Change>, k: nat)
    requires before <= log && k <= |before|
    ensures Prefix(taxonomy, log, k) == Prefix(taxonomy, before, k)
  {
    assert log[..k] == before[..k];
  }

  /** An accepted write that leaves the slugs distinct announces nothing that clashes. */
  lemma DistinctWriteDoesNotClash(taxonomy: map<string, string>, s: Source, t: Tables, op: Op, now: Int64)
    requires Agrees(taxonomy, s, t) && !Refused(s, op) && SlugsDistinct(After(s, op, now).products)
    ensures !Clashes(t.cards, ChangeOf(s, op, now))
  {
    var c, after := ChangeOf(s, op, now), After(s, op, now).products;
    if c.Create? || (c.Core? && c.id in t.cards) {
      var slug := if c.Create? then c.card.slug else c.slug;
      assert c.id in after && after[c.id].slug == slug;
      forall other | other in t.cards && other != c.id
        ensures t.cards[other].slug != slug
      {
        assert other in after && after[other] == s.products[other] && Shows(t.cards[other], s.products[other]);
      }
    }
  }

  lemma {:induction false} DistinctIsClashFree(taxonomy: map<string, string>, writes: seq<Write>)
    requires DistinctThroughout(writes)
    ensures NoClash(taxonomy, LogOf(writes))
  {
    if writes != [] {
      var before, w := writes[..|writes| - 1], writes[|writes| - 1];
      var s, log, log' := Play(before).source, LogOf(before), LogOf(writes);
      assert forall n :: 0 <= n <= |before| ==> before[..n] == writes[..n];
      assert writes[..|writes|] == writes;
      DistinctIsClashFree(taxonomy, before);
      DistinctSlugsSuffice(taxonomy, before);
      LogFollows(writes);
      forall k | 0 <= k < |log'|
        ensures !Clashes(Prefix(taxonomy, log', k).cards, log'[k])
      {
        PrefixThen(taxonomy, log, log', Min(k, |log|));
        if k < |log| {
          assert !Clashes(Prefix(taxonomy, log, k).cards, log[k]);
        } else {
          assert log[..|log|] == log;
          DistinctWriteDoesNotClash(taxonomy, s, Replica(taxonomy, before), w.op, w.now);
        }
      }
    }
  }

  lemma ActKeepsPoliced(taxonomy: map<string, string>, may: Policy, log: seq<Change>, s: Sys, a: Action)
    requires Pinned(may) && Respects(may, log) && Policed(may, s.catalog.tables.cards)
    requires |s.rows| <= |log| && Changes(EventsOf(s.rows)) == log[..|s.rows|]
    ensures Policed(may, Act(taxonomy, s, a).catalog.tables.cards)
  {
    if (a.DispatchOk? || a.CommitUnseen?) && Dispatching(s) {
      var id := Current(s);
      assert Decode(s.rows[id].event) == Changes(EventsOf(s.rows))[id] == log[id] && MayUse(may, log[id]);
      PolicedStep(taxonomy, may, s.catalog.tables, log[id]);
    }
  }

  lemma {:induction false} RunKeepsPoliced(taxonomy: map<string, string>, may: Policy, log: seq<Change>,
                                           actions: seq<Action>)
    requires Pinned(may) && Respects(may, log) && LogOf(WritesOf(actions)) <= log
    ensures Policed(may, Run(taxonomy, START, actions).catalog.tables.cards)
  {
    if actions != [] {
      var init, a := actions[..|actions| - 1], actions[|actions| - 1];
      LogOnlyGrows(actions);
      RunKeepsPoliced(taxonomy, may, log, init);
      RunIsHistory(taxonomy, init);
      ActKeepsPoliced(taxonomy, may, log, Run(taxonomy, START, init), a);
    }
  }

  lemma CurrentIsDeliverable(taxonomy: map<string, string>, may: Policy, log: seq<Change>, t: Tables, c: nat, m: nat)
    requires Pinned(may) && Orderly(may, log) && Policed(may, t.cards) && c < m <= |log|
    requires log[c].Delete? ==> log[c].id in Live(log, c)
    ensures ApplyTables(taxonomy, t, log[c]).Some? && Absorbed(taxonomy, log, t, c, m)
  {
    assert MayUse(may, log[c]);
    PolicedStep(taxonomy, may, t, log[c]);
    forall from | 0 <= from <= c
      ensures Fold(taxonomy, Step(taxonomy, t, log[c]), log[from..m]) == Fold(taxonomy, t, log[from..m])
    {
      AbsorbShared(taxonomy, may, log, t, from, c, m);
    }
  }

  lemma PolicedIsDeliverable(taxonomy: map<string, string>, may: Policy, log: seq<Change>, s: Sys)
    requires Pinned(may) && Orderly(may, log) && Policed(may, s.catalog.tables.cards)
    requires forall k :: 0 <= k < |log| && log[k].Delete? ==> log[k].id in Live(log, k)
    ensures Deliverable(taxonomy, log, s)
  {
    if Dispatching(s) && Current(s) < |log| && s.high <= |log| {
      CurrentIsDeliverable(taxonomy, may, log, s.catalog.tables, Current(s), Max(Current(s) + 1, s.high));
    }
  }

  lemma SharedIsDeliverable(taxonomy: map<string, string>, may: Policy, log: seq<Change>, actions: seq<Action>)
    requires Pinned(may) && Orderly(may, log) && LogOf(WritesOf(actions)) <= log
    requires forall k :: 0 <= k < |log| && log[k].Delete? ==> log[k].id in Live(log, k)
    ensures AlwaysDeliverable(taxonomy, log, actions)
  {
    forall init | init <= actions
      ensures Deliverable(taxonomy, log, Run(taxonomy, START, init))
    {
      LogOfInit(init, actions);
      RunKeepsPoliced(taxonomy, may, log, init);
      PolicedIsDeliverable(taxonomy, may, log, Run(taxonomy, START, init));
    }
  }

  /** Convergence without slug ownership: products may share slugs, as long as those that do can use no other,
    * and as long as live slugs are distinct. */
  lemma SharedConvergence(taxonomy: map<string, string>, may: Policy, actions: seq<Action>)
    requires Pinned(may) && Respects(may, LogOf(WritesOf(actions)))
    requires AllGuarded(WritesOf(actions)) && DistinctThroughout(WritesOf(actions))
    requires Settles(Run(taxonomy, START, actions))
    ensures UpToDate(taxonomy, Run(taxonomy, START, actions))
    ensures Run(taxonomy, START, actions).catalog.tables == Replica(taxonomy, WritesOf(actions))
  {
    var writes := WritesOf(actions);
    GuardedHistoriesAreWellFormed(writes);
    DistinctIsClashFree(taxonomy, writes);
    NoClashIsOrderly(taxonomy, may, LogOf(writes));
    forall k | 0 <= k < |LogOf(writes)| && LogOf(writes)[k].Delete?
      ensures LogOf(writes)[k].id in Live(LogOf(writes), k)
    {
      DeletesLive(writes, k);
    }
    SharedIsDeliverable(taxonomy, may, LogOf(writes), actions);
    DeliverableConverges(taxonomy, actions);
  }

  // -----------------------------------------------------------------
  // A slug that changes hands
  // -----------------------------------------------------------------

  function Draftee(slug: string, at: Int64): Product {
    Product("seller", "", slug, "", 0, "UAH", Draft, 0, at)
  }

  /** `a` is created, deleted and created again with slug `s`, moves to `s'`, and `b` takes `s`. */
  function Takeover(a: string, b: string, s: string, s': string): seq<Write> {
    [Write(CreateProduct(a, Draftee(s, 0)), 0), Write(DeleteProduct(a), 0), Write(CreateProduct(a, Draftee(s, 0)), 0),
     Write(UpdateProduct(a, "", s', "", 0, "UAH"), 1), Write(CreateProduct(b, Draftee(s, 0)), 0)]
  }

  function TakeoverLog(a: string, b: string, s: string, s': string): seq<Change> {
    [Create(a, CardOf(Draftee(s, 0))), Delete(a), Create(a, CardOf(Draftee(s, 0))),
     Core(a, "", s', "", 0, "UAH", 1), Create(b, CardOf(Draftee(s, 0)))]
  }

  /** The products after the first `n` writes. */
  function Stage(a: string, b: string, s: string, s': string, n: nat): map<string, Product> {
    if n == 0 || n == 2 then map[]
    else if n == 1 || n == 3 then map[a := Draftee(s, 0)]
    else if n == 4 then map[a := Draftee(s', 1)]
    else map[a := Draftee(s', 1), b := Draftee(s, 0)]
  }

  /** One more accepted write, one more change. */
  lemma HistoryNext(writes: seq<Write>, log: seq<Change>, n: nat, s: Source, s': Source)
    requires n < |writes| == |log|
    requires Play(writes[..n]).source == s && LogOf(writes[..n]) == log[..n]
    requires !Refused(s, writes[n].op) && EventOf(s, writes[n].op, writes[n].now).Some?
    requires ChangeOf(s, writes[n].op, writes[n].now) == log[n] && After(s, writes[n].op, writes[n].now) == s'
    ensures Play(writes[..n + 1]).source == s' && LogOf(writes[..n + 1]) == log[..n + 1]
  {
    assert writes[..n + 1][..n] == writes[..n];
    LogFollows(writes[..n + 1]);
    assert log[..n + 1] == log[..n] + [log[n]];
  }

  lemma {:induction false} TakeoverHistory(a: string, b: string, s: string, s': string, n: nat)
    requires a != b && s != s' && n <= 5
    ensures Play(Takeover(a, b, s, s')[..n]).source == Source(Stage(a, b, s, s', n), map[])
    ensures LogOf(Takeover(a, b, s, s')[..n]) == TakeoverLog(a, b, s, s')[..n]
  {
    var writes, log := Takeover(a, b, s, s'), TakeoverLog(a, b, s, s');
    if n == 0 {
      assert writes[..0] == [] && log[..0] == [] && LogOf([]) == [];
    } else {
      TakeoverHistory(a, b, s, s', n - 1);
      TakeoverStep(a, b, s, s', n - 1);
      HistoryNext(writes, log, n - 1, Source(Stage(a, b, s, s', n - 1), map[]), Source(Stage(a, b, s, s', n), map[]));
    }
  }

  lemma TakeoverStep(a: string, b: string, s: string, s': string, n: nat)
    requires a != b && s != s' && n < 5
    ensures var source, w := Source(Stage(a, b, s, s', n), map[]), Takeover(a, b, s, s')[n];
            && !Refused(source, w.op) && EventOf(source, w.op, w.now).Some?
            && ChangeOf(source, w.op, w.now) == TakeoverLog(a, b, s, s')[n]
            && After(source, w.op, w.now) == Source(Stage(a, b, s, s', n + 1), map[])
  {
  }

  /** The slugs are distinct among live products at every moment, and every update names a live product. */
  lemma TakeoverIsRegular(a: string, b: string, s: string, s': string)
    requires a != b && s != s'
    ensures var writes := Takeover(a, b, s, s');
            && LogOf(writes) == TakeoverLog(a, b, s, s')
            && Play(writes).source == Source(Stage(a, b, s, s', 5), map[])
            && AllGuarded(writes)
            && forall n :: 0 <= n <= |writes| ==> SlugsDistinct(Play(writes[..n]).source.products)
  {
    var writes := Takeover(a, b, s, s');
    assert writes[..5] == writes && TakeoverLog(a, b, s, s')[..5] == TakeoverLog(a, b, s, s');
    forall n | 0 <= n <= 5
      ensures SlugsDistinct(Play(writes[..n]).source.products)
    {
      TakeoverHistory(a, b, s, s', n);
    }
    TakeoverHistory(a, b, s, s', 5);
    TakeoverIsGuarded(a, b, s, s');
  }

  lemma TakeoverIsGuarded(a: string, b: string, s: string, s': string)
    requires a != b && s != s'
    ensures AllGuarded(Takeover(a, b, s, s'))
  {
    var writes := Takeover(a, b, s, s');
    GuardedUpTo(a, b, s, s', 5);
    assert writes[..5] == writes;
  }

  lemma {:induction false} GuardedUpTo(a: string, b: string, s: string, s': string, n: nat)
    requires a != b && s != s' && n <= 5
    ensures AllGuarded(Takeover(a, b, s, s')[..n])
  {
    var writes := Takeover(a, b, s, s');
    if n > 0 {
      GuardedUpTo(a, b, s, s', n - 1);
      TakeoverHistory(a, b, s, s', n - 1);
      GuardedSnoc(writes[..n - 1], writes[n - 1]);
      assert writes[..n] == writes[..n - 1] + [writes[n - 1]];
    }
  }

  // -----------------------------------------------------------------
  // The same, seen by the catalog
  // -----------------------------------------------------------------

  /** The catalog after the first `n` events, in order. */
  function Shown(a: string, b: string, s: string, s': string, n: nat): Tables {
    if n == 0 || n == 2 then EMPTY_TABLES
    else if n == 1 || n == 3 then Tables(map[a := CardOf(Draftee(s, 0))], map[])
    else if n == 4 then Tables(map[a := CardOf(Draftee(s', 1))], map[])
    else Tables(map[a := CardOf(Draftee(s', 1)), b := CardOf(Draftee(s, 0))], map[])
  }

  /** The catalog that has lost `a`. */
  function Lost(b: string, s: string): Tables {
    Tables(map[b := CardOf(Draftee(s, 0))], map[])
  }

  lemma InOrderStep(taxonomy: map<string, string>, a: string, b: string, s: string, s': string, n: nat)
    requires a != b && s != s' && n < 5
    ensures Step(taxonomy, Shown(a, b, s, s', n), TakeoverLog(a, b, s, s')[n]) == Shown(a, b, s, s', n + 1)
    ensures ApplyTables(taxonomy, Shown(a, b, s, s', n), TakeoverLog(a, b, s, s')[n]).Some?
    ensures !Clashes(Shown(a, b, s, s', n).cards, TakeoverLog(a, b, s, s')[n])
  {
  }

  lemma {:induction false} InOrder(taxonomy: map<string, string>, a: string, b: string, s: string, s': string, n: nat)
    requires a != b && s != s' && n <= 5
    ensures Prefix(taxonomy, TakeoverLog(a, b, s, s'), n) == Shown(a, b, s, s', n)
  {
    if n == 0 {
      assert TakeoverLog(a, b, s, s')[..0] == [];
    } else {
      InOrder(taxonomy, a, b, s, s', n - 1);
      PrefixNext(taxonomy, TakeoverLog(a, b, s, s'), n - 1);
      InOrderStep(taxonomy, a, b, s, s', n - 1);
    }
  }

  /** Replayed over its own result, the log deletes `a` and cannot create it again: `b` has its slug. */
  lemma AgainStep(taxonomy: map<string, string>, a: string, b: string, s: string, s': string, n: nat)
    requires a != b && s != s' && n < 5
    ensures var t := if n <= 1 then Shown(a, b, s, s', 5) else Lost(b, s);
            && ApplyTables(taxonomy, t, TakeoverLog(a, b, s, s')[n]).Some?
            && Step(taxonomy, t, TakeoverLog(a, b, s, s')[n]) == if n == 0 then t else Lost(b, s)
  {
    assert b in Lost(b, s).cards && Lost(b, s).cards[b].slug == s;
  }

  lemma {:induction false} Again(taxonomy: map<string, string>, a: string, b: string, s: string, s': string, n: nat)
    requires a != b && s != s' && n <= 5
    ensures Fold(taxonomy, Shown(a, b, s, s', 5), TakeoverLog(a, b, s, s')[..n])
         == if n <= 1 then Shown(a, b, s, s', 5) else Lost(b, s)
  {
    if n == 0 {
      assert TakeoverLog(a, b, s, s')[..0] == [];
    } else {
      Again(taxonomy, a, b, s, s', n - 1);
      FoldNext(taxonomy, Shown(a, b, s, s', 5), TakeoverLog(a, b, s, s'), n - 1);
      AgainStep(taxonomy, a, b, s, s', n - 1);
    }
  }

  /** `s` is permitted to both products, `s'` to `a` alone, and nothing else is permitted. */
  function OnlyThese(a: string, b: string, s: string, s': string): Policy {
    (id: string, slug: string) => (slug == s && (id == a || id == b)) || (slug == s' && id == a)
  }

  lemma WindowSpoils(taxonomy: map<string, string>, log: seq<Change>)
    requires Fold(taxonomy, Prefix(taxonomy, log, |log|), log) != Prefix(taxonomy, log, |log|)
    ensures !ReplaySafe(taxonomy, log)
  {
    assert log[0..|log|] == log;
    assert Fold(taxonomy, Prefix(taxonomy, log, |log|), log[0..|log|]) != Prefix(taxonomy, log, |log|);
  }

  /** Slugs that are merely distinct are not enough. The log is one that the repository writes; its only
    * slugs are `s` for both products and `s'` for `a`; every update names a live product; live slugs are
    * distinct at every moment, and in order no event meets a taken slug; and replaying it loses `a`. */
  lemma DistinctSlugsAreNotEnough(taxonomy: map<string, string>, a: string, b: string, s: string, s': string)
    requires a != b && s != s'
    ensures var writes, log := Takeover(a, b, s, s'), TakeoverLog(a, b, s, s');
            && LogOf(writes) == log && AllGuarded(writes) && WellFormed(log)
            && (forall n :: 0 <= n <= |writes| ==> SlugsDistinct(Play(writes[..n]).source.products))
            && Respects(OnlyThese(a, b, s, s'), log) && NoClash(taxonomy, log)
            && Prefix(taxonomy, log, 5).cards.Keys == {a, b}
            && Fold(taxonomy, Prefix(taxonomy, log, 5), log).cards.Keys == {b}
            && !ReplaySafe(taxonomy, log)
  {
    var log := TakeoverLog(a, b, s, s');
    TakeoverIsRegular(a, b, s, s');
    GuardedHistoriesAreWellFormed(Takeover(a, b, s, s'));
    TakeoverRespects(OnlyThese(a, b, s, s'), a, b, s, s');
    TakeoverReplay(taxonomy, a, b, s, s');
    TakeoverLoses(taxonomy, a, b, s, s');
    WindowSpoils(taxonomy, log);
  }

  lemma TakeoverLoses(taxonomy: map<string, string>, a: string, b: string, s: string, s': string)
    requires a != b && s != s'
    ensures Shown(a, b, s, s', 5).cards.Keys == {a, b} && Lost(b, s).cards.Keys == {b}
    ensures Shown(a, b, s, s', 5) != Lost(b, s)
  {
    assert a in Shown(a, b, s, s', 5).cards && a !in Lost(b, s).cards;
  }

  lemma TakeoverRespects(may: Policy, a: string, b: string, s: string, s': string)
    requires may(a, s) && may(a, s') && may(b, s)
    ensures Respects(may, TakeoverLog(a, b, s, s'))
  {
  }

  lemma TakeoverReplay(taxonomy: map<string, string>, a: string, b: string, s: string, s': string)
    requires a != b && s != s'
    ensures var log := TakeoverLog(a, b, s, s');
            && NoClash(taxonomy, log)
            && Fold(taxonomy, EMPTY_TABLES, log) == Prefix(taxonomy, log, 5) == Shown(a, b, s, s', 5)
            && Fold(taxonomy, Shown(a, b, s, s', 5), log) == Lost(b, s)
            && Accepts(taxonomy, EMPTY_TABLES, log) && Accepts(taxonomy, Shown(a, b, s, s', 5), log)
  {
    var log := TakeoverLog(a, b, s, s');
    assert log[..5] == log;
    InOrder(taxonomy, a, b, s, s', 5);
    Again(taxonomy, a, b, s, s', 5);
    forall k | 0 <= k < 5
      ensures !Clashes(Prefix(taxonomy, log, k).cards, log[k])
      ensures ApplyTables(taxonomy, Fold(taxonomy, EMPTY_TABLES, log[..k]), log[k]).Some?
      ensures ApplyTables(taxonomy, Fold(taxonomy, Shown(a, b, s, s', 5), log[..k]), log[k]).Some?
    {
      InOrder(taxonomy, a, b, s, s', k);
      InOrderStep(taxonomy, a, b, s, s', k);
      Again(taxonomy, a, b, s, s', k);
      AgainStep(taxonomy, a, b, s, s', k);
    }
  }

  // -----------------------------------------------------------------
  // The exact condition
  // -----------------------------------------------------------------

  /** Every well-formed log that respects the policy, and in which no event clashes in order, absorbs replay. */
  ghost predicate ReplaySafePolicy(taxonomy: map<string, string>, may: Policy) {
    forall log :: WellFormed(log) && Respects(may, log) && NoClash(taxonomy, log) ==> ReplaySafe(taxonomy, log)
  }

  /** Every guarded history that respects the policy, with distinct live slugs throughout, converges in every
    * run of the system. */
  ghost predicate ConvergentPolicy(taxonomy: map<string, string>, may: Policy) {
    forall writes :: AllGuarded(writes) && DistinctThroughout(writes) && Respects(may, LogOf(writes)) ==>
      Converges(taxonomy, writes)
  }

  lemma PinnedIsSafe(taxonomy: map<string, string>, may: Policy)
    requires Pinned(may)
    ensures ReplaySafePolicy(taxonomy, may)
  {
    forall log | WellFormed(log) && Respects(may, log) && NoClash(taxonomy, log)
      ensures ReplaySafe(taxonomy, log)
    {
      SharedLogsAreReplaySafe(taxonomy, may, log);
    }
  }

  lemma PinnedConverges(taxonomy: map<string, string>, may: Policy)
    requires Pinned(may)
    ensures ConvergentPolicy(taxonomy, may)
  {
    forall writes | AllGuarded(writes) && DistinctThroughout(writes) && Respects(may, LogOf(writes))
      ensures Converges(taxonomy, writes)
    {
      forall actions | WritesOf(actions) == writes && Settles(Run(taxonomy, START, actions))
        ensures Run(taxonomy, START, actions).catalog.tables == Replica(taxonomy, writes)
      {
        SharedConvergence(taxonomy, may, actions);
      }
    }
  }

  /** One crash loses `a`: everything is delivered, nothing is dead-lettered, and the product is gone. */
  lemma TakeoverDiverges(taxonomy: map<string, string>, a: string, b: string, s: string, s': string)
    returns (actions: seq<Action>)
    requires a != b && s != s'
    ensures WritesOf(actions) == Takeover(a, b, s, s')
    ensures var end := Run(taxonomy, START, actions);
            && Settles(end)
            && end.source.products.Keys == {a, b} && end.catalog.tables.cards.Keys == {b}
    ensures !Converges(taxonomy, Takeover(a, b, s, s'))
  {
    TakeoverIsRegular(a, b, s, s');
    TakeoverReplay(taxonomy, a, b, s, s');
    TakeoverLoses(taxonomy, a, b, s, s');
    actions := AllDeliveredTwice(taxonomy, Takeover(a, b, s, s'));
    RunRefutes(taxonomy, Takeover(a, b, s, s'), actions);
  }

  lemma SharedSlug(taxonomy: map<string, string>, may: Policy, a: string, b: string, s: string)
    requires may(a, s) && may(b, s) && a != b && HasOther(may, a, s)
    ensures !ReplaySafePolicy(taxonomy, may) && !ConvergentPolicy(taxonomy, may)
  {
    var s' :| s' != s && may(a, s');
    var writes, log := Takeover(a, b, s, s'), TakeoverLog(a, b, s, s');
    DistinctSlugsAreNotEnough(taxonomy, a, b, s, s');
    TakeoverRespects(may, a, b, s, s');
    assert WellFormed(log) && Respects(may, log) && NoClash(taxonomy, log) && !ReplaySafe(taxonomy, log);
    var actions := TakeoverDiverges(taxonomy, a, b, s, s');
    assert DistinctThroughout(writes);
    assert !Converges(taxonomy, writes);
  }

  /** The condition on slugs is exact: replay is absorbed, and every run converges, exactly when no slug is
    * permitted to two products of which one may use another slug. Where products are free to change their slug
    * that means that no slug is permitted to two products at all. */
  lemma SlugPolicyIsExact(taxonomy: map<string, string>, may: Policy)
    ensures ReplaySafePolicy(taxonomy, may) <==> Pinned(may)
    ensures ConvergentPolicy(taxonomy, may) <==> Pinned(may)
    ensures Movable(may) ==> (Pinned(may) <==> Exclusive(may))
  {
    if Pinned(may) {
      PinnedIsSafe(taxonomy, may);
      PinnedConverges(taxonomy, may);
    } else {
      var a, b, s :| may(a, s) && may(b, s) && a != b && HasOther(may, a, s);
      SharedSlug(taxonomy, may, a, b, s);
    }
  }
}
