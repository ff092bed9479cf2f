/** What the relay achieves once nothing fails any more: passes of any batch size drain the queue, and the
  * catalog then agrees with the product tables. */
module Recovery {
  import opened Prelude
  import opened Projection
  import opened Products
  import opened Outbox
  import opened Histories
  import opened Protocol
  import opened DeadLetters
  import opened Views
  import Relay
  import Replication

  const HEALTHY := Relay.NO_FAULTS

  /** Where a healthy pass stands after `n` events: all delivered, nothing else touched. */
  ghost predicate Delivered(s0: Sys, s: Sys, ids: seq<nat>, n: nat, p: Relay.Pass<World, Event>)
    requires n <= |ids|
  {
    && s == s0.(catalog := p.d.catalog, applied := s.applied, high := s.high, phase := Busy(ids, n, ids[..n], false))
    && p.rows == s0.rows && p.delivered == ids[..n] && p.dead == [] && !p.stopped && !p.aborted
  }

  lemma HealthyDelivery(taxonomy: map<string, string>, s0: Sys, s: Sys, ids: seq<nat>, n: nat,
                        p: Relay.Pass<World, Event>)
    requires n < |ids| && ids[n] < |s0.rows| && Delivered(s0, s, ids, n, p)
    requires p.d.io(p.d.clock).None? && Apply(taxonomy, s.catalog, Decode(s.rows[ids[n]].event)).Some?
    ensures var q := Relay.Deliver(p, 0, ids[n], Projecting(taxonomy), HEALTHY);
            Delivered(s0, Act(taxonomy, s, DispatchOk), ids, n + 1, q) && q.d.io == p.d.io
  {
    assert ids[..n + 1] == ids[..n] + [ids[n]];
    assert Dispatching(s) && Current(s) == ids[n];
    assert Consume(taxonomy, p.d, p.rows[ids[n]].event).1.None?;
  }

  lemma HealthyStep(taxonomy: map<string, string>, own: Replication.Owner, s0: Sys, actions: seq<Action>,
      ids: seq<nat>, n: nat, p: Relay.Pass<World, Event>)
    requires Replication.Owned(own, LogOf(WritesOf(actions))) && n < |ids| && ids[n] < |s0.rows|
    requires Delivered(s0, Run(taxonomy, START, actions), ids, n, p) && p.d.io(p.d.clock).None?
    ensures var q := Relay.Deliver(p, 0, ids[n], Projecting(taxonomy), HEALTHY);
            Delivered(s0, Run(taxonomy, START, actions + [DispatchOk]), ids, n + 1, q) && q.d.io == p.d.io
    ensures WritesOf(actions + [DispatchOk]) == WritesOf(actions)
  {
    var s := Run(taxonomy, START, actions);
    assert Dispatching(s) && Current(s) == ids[n];
    NoEventIsRefused(taxonomy, own, actions);
    HealthyDelivery(taxonomy, s0, s, ids, n, p);
    RunAppend(taxonomy, START, actions, DispatchOk);
    WritesSnoc(actions, DispatchOk);
  }

  ghost function Healthily(taxonomy: map<string, string>, s0: Sys, ids: seq<nat>, n: nat,
      w: World): Relay.Pass<World, Event>
    requires n <= |ids|
  {
    Relay.DeliverFirst(Relay.StartPass(s0.rows, w), 0, ids, n, Projecting(taxonomy), HEALTHY)
  }

  /** After the actions `all` the protocol stands where the healthy pass stands after `n` events. */
  ghost predicate Keeps(taxonomy: map<string, string>, s0: Sys, ids: seq<nat>, n: nat, w: World, all: seq<Action>)
    requires n <= |ids|
  {
    var p := Healthily(taxonomy, s0, ids, n, w);
    p.d.io == w.io && Delivered(s0, Run(taxonomy, START, all), ids, n, p)
  }

  lemma HealthyNext(taxonomy: map<string, string>, own: Replication.Owner, s0: Sys, ids: seq<nat>, n: nat, w: World,
                    all: seq<Action>)
    requires Replication.Owned(own, LogOf(WritesOf(all))) && n < |ids| && ids[n] < |s0.rows|
    requires Keeps(taxonomy, s0, ids, n, w, all) && forall k :: w.io(k).None?
    ensures Keeps(taxonomy, s0, ids, n + 1, w, all + [DispatchOk])
    ensures WritesOf(all + [DispatchOk]) == WritesOf(all)
  {
    HealthyStep(taxonomy, own, s0, all, ids, n, Healthily(taxonomy, s0, ids, n, w));
    NextPass(taxonomy, s0, ids, n + 1, w);
  }

  lemma HealthyStart(taxonomy: map<string, string>, actions: seq<Action>, s0: Sys, ids: seq<nat>, w: World)
    requires s0 == Run(taxonomy, START, actions) && s0.phase == Busy(ids, 0, [], false) && s0.catalog == w.catalog
    ensures Keeps(taxonomy, s0, ids, 0, w, actions)
  {
  }

  /** `all` goes on from `actions`, writes nothing more, and has delivered the first `n` events of the batch. */
  ghost predicate Onward(taxonomy: map<string, string>, actions: seq<Action>, s0: Sys, ids: seq<nat>, n: nat, w: World,
                         all: seq<Action>)
  {
    n <= |ids| && actions <= all && WritesOf(all) == WritesOf(actions) && Keeps(taxonomy, s0, ids, n, w, all)
  }

  lemma HealthyOnward(taxonomy: map<string, string>, own: Replication.Owner, actions: seq<Action>, s0: Sys,
                      ids: seq<nat>, n: nat, w: World, all: seq<Action>)
    requires Replication.Owned(own, LogOf(WritesOf(actions))) && forall k :: w.io(k).None?
    requires n < |ids| && ids[n] < |s0.rows| && Onward(taxonomy, actions, s0, ids, n, w, all)
    ensures Onward(taxonomy, actions, s0, ids, n + 1, w, all + [DispatchOk])
  {
    HealthyNext(taxonomy, own, s0, ids, n, w, all);
  }

  lemma HealthyDeliveries(taxonomy: map<string, string>, own: Replication.Owner, actions: seq<Action>, s0: Sys,
                          ids: seq<nat>, n: nat, w: World)
    returns (all: seq<Action>)
    requires Replication.Owned(own, LogOf(WritesOf(actions))) && n <= |ids| && forall k :: w.io(k).None?
    requires Onward(taxonomy, actions, s0, ids, 0, w, actions)
    requires forall i :: 0 <= i < |ids| ==> ids[i] < |s0.rows|
    ensures Onward(taxonomy, actions, s0, ids, n, w, all)
  {
    all := actions;
    for k := 0 to n
      invariant Onward(taxonomy, actions, s0, ids, k, w, all)
    {
      HealthyOnward(taxonomy, own, actions, s0, ids, k, w, all);
      all := all + [DispatchOk];
    }
  }

  lemma NextPass(taxonomy: map<string, string>, s0: Sys, ids: seq<nat>, n: nat, w: World)
    requires 0 < n <= |ids|
    ensures Healthily(taxonomy, s0, ids, n, w)
         == Relay.Deliver(Healthily(taxonomy, s0, ids, n - 1, w), 0, ids[n - 1], Projecting(taxonomy), HEALTHY)
  {
  }

  /** The end of a healthy pass. */
  lemma HealthyMark(taxonomy: map<string, string>, s0: Sys, s: Sys, ids: seq<nat>, p: Relay.Pass<World, Event>)
    requires Delivered(s0, s, ids, |ids|, p)
    ensures var o, s' := Relay.FinishPass(p, HEALTHY), Act(taxonomy, s, MarkBatch);
            && o.done && o.dead == [] && o.count == |ids| && o.rows == MarkAll(s0.rows, ids)
            && TickEnds(s0, s', o)
  {
    assert ids[..|ids|] == ids;
  }

  lemma HealthyEnd(taxonomy: map<string, string>, s: Sys, w: World, batch: nat, ids: seq<nat>, all: seq<Action>)
    requires ids == Fetch(s.rows, batch) && s.phase.Idle?
    requires Keeps(taxonomy, s.(phase := Busy(ids, 0, [], false)), ids, |ids|, w, all)
    ensures WritesOf(all + [MarkBatch]) == WritesOf(all)
    ensures var o := Relay.TickSource(s.rows, w, 0, batch, Projecting(taxonomy), HEALTHY);
            && o.done && o.dead == [] && o.count == |ids| && o.rows == MarkAll(s.rows, ids) && o.d.io == w.io
            && TickEnds(s, Run(taxonomy, START, all + [MarkBatch]), o)
  {
    var s1 := s.(phase := Busy(ids, 0, [], false));
    HealthyMark(taxonomy, s1, Run(taxonomy, START, all), ids, Healthily(taxonomy, s1, ids, |ids|, w));
    RunAppend(taxonomy, START, all, MarkBatch);
    WritesSnoc(all, MarkBatch);
  }

  /** A pass in which no database call fails delivers its whole batch: nothing is counted as a failure,
    * nothing is dead-lettered, and exactly the fetched events are no longer pending. */
  lemma HealthyTickDelivers(taxonomy: map<string, string>, own: Replication.Owner, actions: seq<Action>, s: Sys,
      w: World, batch: nat) returns (all: seq<Action>)
    requires Replication.Owned(own, LogOf(WritesOf(actions))) && forall k :: w.io(k).None?
    requires s == Run(taxonomy, START, actions) && s.phase.Idle? && s.catalog == w.catalog
    ensures actions <= all && WritesOf(all) == WritesOf(actions)
    ensures var o := Relay.TickSource(s.rows, w, 0, batch, Projecting(taxonomy), HEALTHY);
            && o.done && o.dead == [] && o.count == |Fetch(s.rows, batch)|
            && o.rows == MarkAll(s.rows, Fetch(s.rows, batch)) && o.d.io == w.io
            && TickEnds(s, Run(taxonomy, START, all), o)
  {
    var ids := Fetch(s.rows, batch);
    FetchMeaning(s.rows, batch);
    assert forall i :: 0 <= i < |ids| ==> Pending(s.rows, ids[i]);
    var s1 := s.(phase := Busy(ids, 0, [], false));
    StartIs(taxonomy, actions, s, batch);
    HealthyStart(taxonomy, actions + [FetchBatch(batch)], s1, ids, w);
    var delivered := HealthyDeliveries(taxonomy, own, actions + [FetchBatch(batch)], s1, ids, |ids|, w);
    HealthyEnd(taxonomy, s, w, batch, ids, delivered);
    all := delivered + [MarkBatch];
  }

  ghost predicate TickEnds(s: Sys, s': Sys, o: Relay.SourceOutcome<World, Event>) {
    s'.rows == o.rows && s'.catalog == o.d.catalog && s'.source == s.source && s'.dead == s.dead && s'.phase.Idle?
  }

  lemma StartIs(taxonomy: map<string, string>, actions: seq<Action>, s: Sys, batch: nat)
    requires s == Run(taxonomy, START, actions) && s.phase.Idle?
    ensures Run(taxonomy, START, actions + [FetchBatch(batch)]) == s.(phase := Busy(Fetch(s.rows, batch), 0, [], false))
    ensures WritesOf(actions + [FetchBatch(batch)]) == WritesOf(actions)
  {
    RunAppend(taxonomy, START, actions, FetchBatch(batch));
    WritesSnoc(actions, FetchBatch(batch));
  }

  lemma WritesSnoc(actions: seq<Action>, a: Action)
    requires !a.DoWrite?
    ensures WritesOf(actions + [a]) == WritesOf(actions)
  {
    assert (actions + [a])[..|actions|] == actions;
  }

  // -----------------------------------------------------------------
  // Pass after pass
  // -----------------------------------------------------------------

  ghost function PendingIds(rows: seq<Row<Event>>): set<nat> {
    set id: nat | id < |rows| && !rows[id].published
  }

  /** A healthy pass empties the queue or takes a full batch from it. */
  lemma HealthyTickShrinks(rows: seq<Row<Event>>, batch: nat, rows': seq<Row<Event>>)
    requires rows' == MarkAll(rows, Fetch(rows, batch))
    ensures PendingIds(rows') == {} || |PendingIds(rows')| + batch == |PendingIds(rows)|
  {
    var ids := Fetch(rows, batch);
    FetchMeaning(rows, batch);
    assert forall i :: 0 <= i < |ids| ==> Pending(rows, ids[i]);
    assert PendingIds(rows') == PendingIds(rows) - Elements(ids);
    DistinctCardinality(ids);
    assert Elements(ids) <= PendingIds(rows);
    if id :| id in PendingIds(rows') {
      assert Pending(rows, id) && id !in ids;
    }
  }

  function Healthy(n: nat): (schedule: seq<Relay.Faults>)
    ensures |schedule| == n
  {
    seq(n, _ => HEALTHY)
  }

  ghost function HealthyPasses(taxonomy: map<string, string>, rows: seq<Row<Event>>, w: World, batch: nat, n: nat)
    : Relay.Progress<World, Event>
  {
    Relay.Passes(rows, w, 0, batch, Projecting(taxonomy), Healthy(n))
  }

  lemma NextHealthyPass(taxonomy: map<string, string>, rows: seq<Row<Event>>, w: World, batch: nat, n: nat)
    requires n > 0
    ensures var before := HealthyPasses(taxonomy, rows, w, batch, n - 1);
            var o := Relay.TickSource(before.rows, before.d, 0, batch, Projecting(taxonomy), HEALTHY);
            var after := HealthyPasses(taxonomy, rows, w, batch, n);
            after.rows == o.rows && after.d == o.d
  {
    assert Healthy(n)[..n - 1] == Healthy(n - 1);
  }

  /** `n` healthy passes are a run of the protocol that writes nothing, and they take `n` full batches from
    * the queue unless they empty it. */
  lemma {:induction false} HealthyPassesAreRun(taxonomy: map<string, string>, own: Replication.Owner,
                                               actions: seq<Action>, s: Sys, w: World, batch: nat, n: nat)
    returns (all: seq<Action>)
    requires Replication.Owned(own, LogOf(WritesOf(actions))) && forall k :: w.io(k).None?
    requires s == Run(taxonomy, START, actions) && s.phase.Idle? && s.catalog == w.catalog
    ensures actions <= all && WritesOf(all) == WritesOf(actions)
    ensures var p, s' := HealthyPasses(taxonomy, s.rows, w, batch, n), Run(taxonomy, START, all);
            && p.rows == s'.rows && p.d.catalog == s'.catalog && p.d.io == w.io
            && s'.source == s.source && s'.dead == s.dead && s'.phase.Idle?
            && (PendingIds(p.rows) == {} || |PendingIds(p.rows)| + n * batch <= |PendingIds(s.rows)|)
  {
    if n == 0 {
      all := actions;
    } else {
      var before := HealthyPassesAreRun(taxonomy, own, actions, s, w, batch, n - 1);
      var p := HealthyPasses(taxonomy, s.rows, w, batch, n - 1);
      all := HealthyTickDelivers(taxonomy, own, before, Run(taxonomy, START, before), p.d, batch);
      NextHealthyPass(taxonomy, s.rows, w, batch, n);
      HealthyTickShrinks(p.rows, batch, HealthyPasses(taxonomy, s.rows, w, batch, n).rows);
      assert n * batch == (n - 1) * batch + batch;
    }
  }

  /** Enough healthy passes empty the queue, as the continuation of a run. */
  lemma HealthyPassesDrain(taxonomy: map<string, string>, own: Replication.Owner, actions: seq<Action>, w: World,
                           batch: nat, n: nat) returns (all: seq<Action>)
    requires Replication.Owned(own, LogOf(WritesOf(actions))) && Resting(taxonomy, actions, w)
    requires batch >= 1 && n * batch >= |PendingIds(Run(taxonomy, START, actions).rows)|
    ensures actions <= all && WritesOf(all) == WritesOf(actions)
    ensures var s, s' := Run(taxonomy, START, actions), Run(taxonomy, START, all);
            var p := HealthyPasses(taxonomy, s.rows, w, batch, n);
            && s'.source == s.source && s'.dead == s.dead && NothingPending(s')
            && s'.rows == p.rows && s'.catalog == p.d.catalog
  {
    var s := Run(taxonomy, START, actions);
    all := HealthyPassesAreRun(taxonomy, own, actions, s, w, batch, n);
    var s' := Run(taxonomy, START, all);
    assert PendingIds(s'.rows) == {};
    forall id: nat | id < |s'.rows|
      ensures s'.rows[id].published
    {
      assert id !in PendingIds(s'.rows);
    }
  }

  /** The relay is idle after the run, and from now on no call of the catalog database fails. */
  ghost predicate Resting(taxonomy: map<string, string>, actions: seq<Action>, w: World) {
    var s := Run(taxonomy, START, actions);
    s.phase.Idle? && s.catalog == w.catalog && forall k :: w.io(k).None?
  }

  /** Eventual consistency: after any run without dead letters, crashes and failed deliveries included, as
    * many healthy passes as it takes to fetch the pending events leave nothing pending and bring the catalog
    * into agreement with the product tables, whatever the batch size. */
  lemma HealthyPassesConverge(taxonomy: map<string, string>, own: Replication.Owner, actions: seq<Action>, w: World,
                              batch: nat, n: nat)
    requires AllGuarded(WritesOf(actions)) && Replication.Owned(own, LogOf(WritesOf(actions)))
    requires Resting(taxonomy, actions, w) && Run(taxonomy, START, actions).dead == {}
    requires batch >= 1 && n * batch >= |PendingIds(Run(taxonomy, START, actions).rows)|
    ensures var s := Run(taxonomy, START, actions);
            var p := HealthyPasses(taxonomy, s.rows, w, batch, n);
            && (forall id: nat :: !Pending(p.rows, id))
            && Agrees(taxonomy, s.source, p.d.catalog.tables)
            && PublishedSafe(s.source, p.d.catalog.tables)
  {
    var all := HealthyPassesDrain(taxonomy, own, actions, w, batch, n);
    Convergence(taxonomy, own, all);
  }

  /** The same after a run with dead letters: the healthy passes leave nothing pending and lose nothing more.
    * Every product that has no dead letter agrees with the product tables; and unless a dead letter had been
    * applied, the whole catalog is that of an in-order delivery of everything but the dead letters. */
  lemma HealthyPassesRecover(taxonomy: map<string, string>, own: Replication.Owner, actions: seq<Action>, w: World,
                             batch: nat, n: nat)
    requires AllGuarded(WritesOf(actions)) && Replication.Owned(own, LogOf(WritesOf(actions)))
    requires Resting(taxonomy, actions, w)
    requires batch >= 1 && n * batch >= |PendingIds(Run(taxonomy, START, actions).rows)|
    ensures var s := Run(taxonomy, START, actions);
            var p := HealthyPasses(taxonomy, s.rows, w, batch, n);
            && (forall id: nat :: !Pending(p.rows, id))
            && (forall id :: Unharmed(taxonomy, actions, id) ==>
                  ProductAgrees(taxonomy, s.source, p.d.catalog.tables, id))
            && (ReplayableLog(Survivors(taxonomy, actions)) && AppliedIn(taxonomy, actions) !! s.dead ==>
                  p.d.catalog.tables == FoldCatalog(taxonomy, EMPTY_CATALOG, Survivors(taxonomy, actions)).tables)
  {
    var s := Run(taxonomy, START, actions);
    var all := HealthyPassesDrain(taxonomy, own, actions, w, batch, n);
    assert Survivors(taxonomy, all) == Survivors(taxonomy, actions);
    forall id | Unharmed(taxonomy, actions, id)
      ensures ProductAgrees(taxonomy, s.source, Run(taxonomy, START, all).catalog.tables, id)
    {
      ProductConvergence(taxonomy, own, all, id);
    }
    if ReplayableLog(Survivors(taxonomy, actions)) && AppliedIn(taxonomy, actions) !! s.dead {
      DeadIsFinal(taxonomy, actions, all);
      SurvivorsDecide(taxonomy, own, all);
    }
  }
}
