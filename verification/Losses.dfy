/** What a dead letter loses, as runs. The last event of any history can fail until it is dead-lettered. Whether
  * the catalog then lacks it depends on whether it was ever applied: the same writes, with the same event
  * dead-lettered, can leave the catalog with it and without it. */
module Losses {
  import opened Prelude
  import opened Projection
  import opened Products
  import opened Outbox
  import opened Histories
  import opened Protocol
  import opened Redelivery
  import opened DeadLetters
  import Limits
  import Relay
  import Replication

  /** Every event is published but the last one. */
  ghost predicate Waiting(s: Sys) {
    s.phase.Idle? && |s.rows| > 0 && forall i :: 0 <= i < |s.rows| ==> (s.rows[i].published <==> i < |s.rows| - 1)
  }

  /** One pass that fails to deliver its event; the mark of the dead letter happens after the tenth failure only. */
  function Failing(error: string): seq<Action> {
    [FetchBatch(1), DispatchFail(error), DeadMark, MarkBatch]
  }

  /** Only the outbox has changed, and no event of it. */
  ghost predicate CatalogStays(s: Sys, s': Sys) {
    s'.source == s.source && s'.catalog == s.catalog && |s'.rows| == |s.rows| && s'.phase.Idle?
  }

  lemma FetchesLast(s: Sys)
    requires Waiting(s)
    ensures Fetch(s.rows, 1) == [|s.rows| - 1]
  {
    FetchSkipsPublished(s.rows, 0, |s.rows| - 1, 1);
    FetchIsNextRun(s.rows, |s.rows| - 1, 1);
  }

  lemma FourActions(taxonomy: map<string, string>, s: Sys, a: Action, b: Action, c: Action, d: Action)
    ensures Run(taxonomy, s, [a, b, c, d])
         == Act(taxonomy, Act(taxonomy, Act(taxonomy, Act(taxonomy, s, a), b), c), d)
    ensures !a.DoWrite? && !b.DoWrite? && !c.DoWrite? && !d.DoWrite? ==> WritesOf([a, b, c, d]) == []
  {
    TwoActions(taxonomy, s, a, b);
    TwoActions(taxonomy, Run(taxonomy, s, [a, b]), c, d);
    RunConcat(taxonomy, s, [a, b], [c, d]);
    assert [a, b] + [c, d] == [a, b, c, d];
  }

  /** The delivery fails and the failure is counted. */
  lemma FailureCounts(taxonomy: map<string, string>, s: Sys, error: string)
    requires Waiting(s)
    ensures var k, s' := |s.rows| - 1, Act(taxonomy, Act(taxonomy, s, FetchBatch(1)), DispatchFail(error));
            && s'.source == s.source && s'.catalog == s.catalog && s'.dead == s.dead
            && s'.rows == RecordFailure(s.rows, k, error)
            && s'.phase == if s'.rows[k].attempts < Relay.MAX_DISPATCH_ATTEMPTS then Busy([], 0, [], false)
                           else Busy([k], 0, [], true)
  {
    FetchesLast(s);
  }

  /** The pass gives up, with nothing delivered. */
  lemma GivesUp(taxonomy: map<string, string>, s: Sys)
    requires s.phase == Busy([], 0, [], false)
    ensures Act(taxonomy, Act(taxonomy, s, DeadMark), MarkBatch) == s.(phase := Idle)
  {
    assert MarkAll(s.rows, []) == s.rows;
  }

  /** The event is dead-lettered, and the pass ends. */
  lemma Buries(taxonomy: map<string, string>, s: Sys, k: nat)
    requires s.phase == Busy([k], 0, [], true)
    ensures Act(taxonomy, Act(taxonomy, s, DeadMark), MarkBatch)
         == s.(phase := Idle, rows := MarkAll(s.rows, [k]), dead := s.dead + {k})
  {
    assert MarkAll(MarkAll(s.rows, [k]), []) == MarkAll(s.rows, [k]);
  }

  lemma FailingPass(taxonomy: map<string, string>, s: Sys, error: string)
    requires Waiting(s)
    ensures WritesOf(Failing(error)) == []
    ensures var k, s' := |s.rows| - 1, Run(taxonomy, s, Failing(error));
            && CatalogStays(s, s')
            && s'.rows[k].attempts == s.rows[k].attempts + 1
            && if s'.rows[k].attempts < Relay.MAX_DISPATCH_ATTEMPTS then Waiting(s') && s'.dead == s.dead
               else NothingPending(s') && s'.dead == s.dead + {k}
  {
    var k := |s.rows| - 1;
    var s1 := Act(taxonomy, Act(taxonomy, s, FetchBatch(1)), DispatchFail(error));
    FailureCounts(taxonomy, s, error);
    FourActions(taxonomy, s, FetchBatch(1), DispatchFail(error), DeadMark, MarkBatch);
    if s1.rows[k].attempts < Relay.MAX_DISPATCH_ATTEMPTS {
      GivesUp(taxonomy, s1);
    } else {
      Buries(taxonomy, s1, k);
    }
  }

  /** The last event fails until it is dead; everything else stays as it is. */
  lemma {:induction false} FailsUntilDead(taxonomy: map<string, string>, s: Sys, error: string)
    returns (actions: seq<Action>)
    requires Waiting(s)
    ensures WritesOf(actions) == []
    ensures var s' := Run(taxonomy, s, actions);
            CatalogStays(s, s') && NothingPending(s') && s'.dead == s.dead + {|s.rows| - 1}
    decreases Relay.MAX_DISPATCH_ATTEMPTS - s.rows[|s.rows| - 1].attempts
  {
    var s1 := Run(taxonomy, s, Failing(error));
    FailingPass(taxonomy, s, error);
    actions := Failing(error);
    if Waiting(s1) {
      var more := FailsUntilDead(taxonomy, s1, error);
      RunConcat(taxonomy, s, Failing(error), more);
      actions := Failing(error) + more;
    }
  }

  /** After the run `before` the last event dies. */
  lemma ThenDies(taxonomy: map<string, string>, before: seq<Action>, s: Sys) returns (after: seq<Action>)
    requires s == Run(taxonomy, START, before) && Waiting(s)
    ensures WritesOf(after) == WritesOf(before)
    ensures var s' := Run(taxonomy, START, after);
            CatalogStays(s, s') && NothingPending(s') && s'.dead == s.dead + {|s.rows| - 1}
  {
    var more := FailsUntilDead(taxonomy, s, "");
    RunConcat(taxonomy, START, before, more);
    WritesConcat(before, more);
    assert WritesOf(before) + [] == WritesOf(before);
    after := before + more;
  }

  lemma QueuedIsWaiting(s: Sys, m: nat, c: Change)
    requires Queued(s, m, [c])
    ensures Waiting(s) && |s.rows| == m + 1
  {
  }

  /** `w` announces the change `c`, and no event of the history is refused. */
  ghost predicate Announces(taxonomy: map<string, string>, first: seq<Write>, w: Write, c: Change) {
    && LogOf(first + [w]) == LogOf(first) + [c]
    && Accepts(taxonomy, EMPTY_TABLES, LogOf(first)) && ApplyTables(taxonomy, Replica(taxonomy, first), c).Some?
  }

  /** How the run of the history ends: nothing is pending and the last event is the one dead letter. */
  ghost predicate LastIsDead(taxonomy: map<string, string>, actions: seq<Action>, writes: seq<Write>) {
    var s := Run(taxonomy, START, actions);
    && WritesOf(actions) == writes && s.source == Play(writes).source
    && NothingPending(s) && LogOf(writes) != [] && s.dead == {|LogOf(writes)| - 1}
  }

  /** The run `before` has delivered what it has delivered; now the last event dies. */
  lemma LastDies(taxonomy: map<string, string>, before: seq<Action>, s: Sys, m: nat, c: Change)
    returns (after: seq<Action>)
    requires s == Run(taxonomy, START, before) && Queued(s, m, [c]) && s.dead == {}
    ensures LastIsDead(taxonomy, after, WritesOf(before))
    ensures Run(taxonomy, START, after).catalog.tables == s.catalog.tables
  {
    QueuedIsWaiting(s, m, c);
    after := ThenDies(taxonomy, before, s);
    RunIsHistory(taxonomy, after);
  }

  /** The last event dies without ever having been applied. */
  lemma DiesUnseen(taxonomy: map<string, string>, first: seq<Write>, w: Write, c: Change)
    returns (lost: seq<Action>)
    requires Announces(taxonomy, first, w, c)
    ensures LastIsDead(taxonomy, lost, first + [w])
    ensures Run(taxonomy, START, lost).catalog.tables == Replica(taxonomy, first)
  {
    var before := DeliveredOnce(taxonomy, first);
    WritesQueue(taxonomy, before, first, [w]);
    assert LogOf(first + [w])[|LogOf(first)|..] == [c];
    var s := Run(taxonomy, START, before + Writing([w]));
    lost := LastDies(taxonomy, before + Writing([w]), s, |LogOf(first)|, c);
  }

  /** The last event is applied; the relay crashes before the mark, and then the event dies. */
  lemma DiesSeen(taxonomy: map<string, string>, first: seq<Write>, w: Write, c: Change) returns (kept: seq<Action>)
    requires Announces(taxonomy, first, w, c)
    ensures LastIsDead(taxonomy, kept, first + [w])
    ensures Run(taxonomy, START, kept).catalog.tables == Replica(taxonomy, first + [w])
  {
    var t := Replica(taxonomy, first);
    assert [c][..0] == [] && Accepts(taxonomy, t, [c]);
    var before := DeliveredThenCrash(taxonomy, first, [w], [c]);
    kept := LastDies(taxonomy, before, Run(taxonomy, START, before), |LogOf(first)|, c);
    assert [c] == [] + [c];
    FoldAppend(taxonomy, t, [], c);
    FoldAppend(taxonomy, EMPTY_TABLES, LogOf(first), c);
  }

  /** What is lost is not decided by what was written and what is dead: of any history the last event can be the
    * only dead letter of two runs, one whose catalog lacks it and one whose catalog has it. */
  lemma DeadLetterLostOrKept(taxonomy: map<string, string>, first: seq<Write>, w: Write, c: Change)
    returns (lost: seq<Action>, kept: seq<Action>)
    requires Announces(taxonomy, first, w, c)
    ensures LastIsDead(taxonomy, lost, first + [w]) && LastIsDead(taxonomy, kept, first + [w])
    ensures Run(taxonomy, START, lost).catalog.tables == Replica(taxonomy, first)
    ensures Run(taxonomy, START, kept).catalog.tables == Replica(taxonomy, first + [w])
  {
    lost := DiesUnseen(taxonomy, first, w, c);
    kept := DiesSeen(taxonomy, first, w, c);
  }

  /** A creation that dies: the source has the product; the catalog is empty, or has it. */
  lemma CreationLostOrKept(taxonomy: map<string, string>, id: string, product: Product, now: Int64)
    returns (lost: seq<Action>, kept: seq<Action>)
    ensures var writes := [Write(CreateProduct(id, product), now)];
            LastIsDead(taxonomy, lost, writes) && LastIsDead(taxonomy, kept, writes)
    ensures Run(taxonomy, START, lost).source.products == Run(taxonomy, START, kept).source.products
         == map[id := product]
    ensures Run(taxonomy, START, lost).catalog.tables.cards == map[]
    ensures Run(taxonomy, START, kept).catalog.tables.cards == map[id := CardOf(product)]
  {
    var w := Write(CreateProduct(id, product), now);
    assert [] + [w] == [w] && [w][..0] == [];
    LogFollows([w]);
    assert LogOf([]) == [];
    assert LogOf([w]) == [Create(id, CardOf(product))];
    lost, kept := DeadLetterLostOrKept(taxonomy, [], w, Create(id, CardOf(product)));
    ReplicaFollows(taxonomy, [w]);
  }

  /** A withdrawal that dies unseen: after any history, a product that the catalog shows as published is taken
    * back by the seller, the event dies, and the catalog goes on showing it as published. */
  lemma WithdrawalLost(taxonomy: map<string, string>, own: Replication.Owner, first: seq<Write>, id: string,
                       to: ProductStatus, now: Int64) returns (lost: seq<Action>)
    requires Replication.Owned(own, LogOf(first)) && to != Published
    requires id in Replica(taxonomy, first).cards && Replica(taxonomy, first).cards[id].status == PUBLISHED
    ensures LastIsDead(taxonomy, lost, first + [Write(SetStatusOf(id, to), now)])
    ensures var s := Run(taxonomy, START, lost);
            && id in s.source.products && s.source.products[id].status == to
            && id in s.catalog.tables.cards && s.catalog.tables.cards[id].status == PUBLISHED
            && !PublishedSafe(s.source, s.catalog.tables)
  {
    var w := Write(SetStatusOf(id, to), now);
    var s, change := Play(first).source, SetStatus(id, StatusName(to), now);
    PublishedSafety(taxonomy, first);
    assert ChangeOf(s, w.op, now) == change && EventOf(s, w.op, now).Some?;
    assert (first + [w])[..|first|] == first;
    LogFollows(first + [w]);
    Limits.OwnedIsAccepted(taxonomy, own, EMPTY_TABLES, LogOf(first));
    lost := DiesUnseen(taxonomy, first, w, change);
  }
}
