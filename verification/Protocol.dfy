/** The replication protocol as a whole: product writes, the relay and the projection, interleaved in any
  * way, with deliveries that fail and crashes at any point. A run is a sequence of actions; an action that
  * is not possible where it stands does nothing. */
module Protocol {
  import opened Prelude
  import opened Projection
  import opened Products
  import opened Outbox
  import opened Histories
  import Relay
  import Replication

  /** What the relay holds in memory. `doomed`: the tenth failure is recorded, the event not yet published. */
  datatype Phase = Idle | Busy(batch: seq<nat>, pos: nat, delivered: seq<nat>, doomed: bool)

  /** The durable state, the relay, and three history variables that no action reads: events dispatched
    * successfully, events dead-lettered, and the position after the highest event ever applied. */
  datatype Sys = Sys(source: Source, rows: seq<Row<Event>>, catalog: Catalog, phase: Phase,
                     applied: set<nat>, dead: set<nat>, high: nat)

  datatype Action =
    | DoWrite(write: Write)
    | FetchBatch(limit: nat)
    | DispatchOk
    | DispatchFail(error: string)
    | CommitUnseen  // the catalog commits, but the relay will be told of an error, or of nothing
    | DeadMark
    | MarkBatch
    | Crash

  const START := Sys(EMPTY_SOURCE, [], EMPTY_CATALOG, Idle, {}, {}, 0)

  /** The relay is about to dispatch an event of its batch. */
  predicate Dispatching(s: Sys) {
    s.phase.Busy? && !s.phase.doomed && s.phase.pos < |s.phase.batch| && s.phase.batch[s.phase.pos] < |s.rows|
  }

  function Current(s: Sys): nat
    requires Dispatching(s)
  {
    s.phase.batch[s.phase.pos]
  }

  ghost function Act(taxonomy: map<string, string>, s: Sys, a: Action): Sys {
    match a
    case DoWrite(w) =>
      if Refused(s.source, w.op) then s else
      var event := EventOf(s.source, w.op, w.now);
      s.(source := After(s.source, w.op, w.now), rows := s.rows + if event.Some? then [Fresh(event.value)] else [])
    case FetchBatch(limit) =>
      if s.phase.Idle? then s.(phase := Busy(Fetch(s.rows, limit), 0, [], false)) else s
    case DispatchOk =>
      if !Dispatching(s) then s else
      var id := Current(s);
      var catalog := Apply(taxonomy, s.catalog, Decode(s.rows[id].event));
      if catalog.None? then s
      else s.(catalog := catalog.value, applied := s.applied + {id}, high := Max(s.high, id + 1),
              phase := s.phase.(pos := s.phase.pos + 1, delivered := s.phase.delivered + [id]))
    case DispatchFail(error) =>
      if !Dispatching(s) then s else
      var rows := RecordFailure(s.rows, Current(s), error);
      if rows[Current(s)].attempts < Relay.MAX_DISPATCH_ATTEMPTS
      then s.(rows := rows, phase := s.phase.(batch := s.phase.batch[..s.phase.pos]))
      else s.(rows := rows, phase := s.phase.(doomed := true))
    case CommitUnseen =>
      if !Dispatching(s) then s else
      var catalog := Apply(taxonomy, s.catalog, Decode(s.rows[Current(s)].event));
      if catalog.None? then s else s.(catalog := catalog.value, high := Max(s.high, Current(s) + 1))
    case DeadMark =>
      if !(s.phase.Busy? && s.phase.doomed && s.phase.pos < |s.phase.batch|) then s else
      var id := s.phase.batch[s.phase.pos];
      s.(rows := MarkAll(s.rows, [id]), dead := s.dead + {id},
         phase := s.phase.(pos := s.phase.pos + 1, doomed := false))
    case MarkBatch =>
      if s.phase.Busy? && !s.phase.doomed && s.phase.pos == |s.phase.batch|
      then s.(rows := MarkAll(s.rows, s.phase.delivered), phase := Idle) else s
    case Crash => s.(phase := Idle)
  }

  ghost function Run(taxonomy: map<string, string>, s: Sys, actions: seq<Action>): Sys {
    if actions == [] then s
    else Act(taxonomy, Run(taxonomy, s, actions[..|actions| - 1]), actions[|actions| - 1])
  }

  lemma RunAppend(taxonomy: map<string, string>, s: Sys, actions: seq<Action>, a: Action)
    ensures Run(taxonomy, s, actions + [a]) == Act(taxonomy, Run(taxonomy, s, actions), a)
  {
    assert (actions + [a])[..|actions|] == actions;
  }

  // -----------------------------------------------------------------
  // Order and no silent loss
  // -----------------------------------------------------------------

  /** Dispatched successfully at least once, or dead-lettered. */
  predicate Settled(s: Sys, id: int) {
    id in s.applied || id in s.dead
  }

  /** `id` stands in the batch before position `i`. */
  ghost predicate Earlier(batch: seq<nat>, i: int, id: int)
    requires 0 <= i <= |batch|
  {
    exists k :: 0 <= k < i && batch[k] == id
  }

  /** Every id below an id of the batch is settled or comes earlier in the batch. */
  ghost predicate BatchInv(s: Sys)
    requires s.phase.Busy?
  {
    var batch, pos := s.phase.batch, s.phase.pos;
    && pos <= |batch|
    && (forall i :: 0 <= i < |batch| ==> batch[i] < |s.rows|)
    && (forall i :: 0 <= i < pos ==> Settled(s, batch[i]))
    && (forall i, id :: 0 <= i < |batch| && 0 <= id < batch[i] ==> Settled(s, id) || Earlier(batch, i, id))
    && (forall id :: id in s.phase.delivered ==> id in s.applied)
    && (s.phase.doomed ==> pos < |batch| && s.rows[batch[pos]].attempts >= Relay.MAX_DISPATCH_ATTEMPTS)
  }

  ghost predicate RowsInv(s: Sys) {
    && (forall id :: 0 <= id < |s.rows| && s.rows[id].published ==> Settled(s, id))
    && (forall id :: id in s.dead ==> id < |s.rows| && s.rows[id].attempts >= Relay.MAX_DISPATCH_ATTEMPTS)
  }

  ghost predicate QueueInv(s: Sys) {
    RowsInv(s) && (s.phase.Busy? ==> BatchInv(s))
  }

  lemma FetchKeepsQueueInv(s: Sys, limit: nat)
    requires RowsInv(s)
    ensures QueueInv(s.(phase := Busy(Fetch(s.rows, limit), 0, [], false)))
  {
    var ids := Fetch(s.rows, limit);
    FetchMeaning(s.rows, limit);
    forall i, id | 0 <= i < |ids| && 0 <= id < ids[i]
      ensures Settled(s, id) || Earlier(ids, i, id)
    {
      assert Pending(s.rows, ids[i]);
      if !s.rows[id].published {
        assert Pending(s.rows, id);
        assert id in ids;
        var k :| 0 <= k < |ids| && ids[k] == id;
        assert k < i;
      }
    }
  }

  /** History and attempts only grow, so whatever was settled stays settled. */
  lemma GrowthKeepsBatchInv(s: Sys, s': Sys)
    requires s.phase.Busy? && BatchInv(s)
    requires s'.phase.Busy? && s'.phase.doomed == s.phase.doomed && s'.phase.delivered == s.phase.delivered
    requires s'.phase.pos == s.phase.pos && s'.phase.batch == s.phase.batch
    requires s'.applied == s.applied && s'.dead == s.dead
    requires |s.rows| <= |s'.rows| && forall i :: 0 <= i < |s.rows| ==> s'.rows[i].attempts >= s.rows[i].attempts
    ensures BatchInv(s')
  {
    assert forall id :: Settled(s', id) == Settled(s, id);
  }

  lemma DispatchOkKeepsQueueInv(taxonomy: map<string, string>, s: Sys)
    requires QueueInv(s)
    ensures QueueInv(Act(taxonomy, s, DispatchOk))
  {
    var s' := Act(taxonomy, s, DispatchOk);
    assert forall id :: Settled(s, id) ==> Settled(s', id);
  }

  lemma DispatchFailKeepsQueueInv(taxonomy: map<string, string>, s: Sys, error: string)
    requires QueueInv(s)
    ensures QueueInv(Act(taxonomy, s, DispatchFail(error)))
  {
    var s' := Act(taxonomy, s, DispatchFail(error));
    assert forall id :: Settled(s', id) == Settled(s, id);
    if Dispatching(s) {
      var batch, pos := s.phase.batch, s.phase.pos;
      forall i, id | 0 <= i < pos && 0 <= id < batch[i]
        ensures Settled(s, id) || Earlier(batch[..pos], i, id)
      {
        if Earlier(batch, i, id) {
          var k :| 0 <= k < i && batch[k] == id;
          assert batch[..pos][k] == id;
        }
      }
    }
  }

  lemma DeadMarkKeepsBatchInv(taxonomy: map<string, string>, s: Sys)
    requires s.phase.Busy? && s.phase.doomed && BatchInv(s)
    ensures var s' := Act(taxonomy, s, DeadMark); s'.phase.Busy? && BatchInv(s')
  {
    var s' := Act(taxonomy, s, DeadMark);
    var batch, pos := s.phase.batch, s.phase.pos;
    assert forall id :: Settled(s', id) <==> Settled(s, id) || id == batch[pos];
    forall i, id | 0 <= i < |batch| && 0 <= id < batch[i]
      ensures Settled(s', id) || Earlier(batch, i, id)
    {
      assert Settled(s, id) || Earlier(batch, i, id);
    }
  }

  lemma DeadMarkKeepsRowsInv(taxonomy: map<string, string>, s: Sys)
    requires s.phase.Busy? && s.phase.doomed && BatchInv(s) && RowsInv(s)
    ensures RowsInv(Act(taxonomy, s, DeadMark))
  {
    var s' := Act(taxonomy, s, DeadMark);
    var id := s.phase.batch[s.phase.pos];
    assert forall i :: 0 <= i < |s.rows| && i != id ==> s'.rows[i] == s.rows[i];
    assert forall i :: Settled(s, i) ==> Settled(s', i);
  }

  lemma ActKeepsQueueInv(taxonomy: map<string, string>, s: Sys, a: Action)
    requires QueueInv(s)
    ensures QueueInv(Act(taxonomy, s, a))
  {
    var s' := Act(taxonomy, s, a);
    match a {
      case DoWrite(_) =>
        assert forall id :: Settled(s', id) == Settled(s, id);
        if s.phase.Busy? {
          GrowthKeepsBatchInv(s, s');
        }
      case FetchBatch(limit) =>
        if s.phase.Idle? {
          FetchKeepsQueueInv(s, limit);
        }
      case DispatchOk => DispatchOkKeepsQueueInv(taxonomy, s);
      case DispatchFail(error) => DispatchFailKeepsQueueInv(taxonomy, s, error);
      case CommitUnseen => assert forall id :: Settled(s', id) == Settled(s, id);
      case DeadMark =>
        if s.phase.Busy? && s.phase.doomed {
          DeadMarkKeepsBatchInv(taxonomy, s);
          DeadMarkKeepsRowsInv(taxonomy, s);
        }
      case MarkBatch => assert forall id :: Settled(s', id) == Settled(s, id);
      case Crash => assert forall id :: Settled(s', id) == Settled(s, id);
    }
  }

  /** In every run, crashes included: an event is dispatched only when each earlier event has been dispatched
    * successfully at least once or dead-lettered, and an event is published only if it was dispatched
    * successfully or has failed at least ten times. */
  lemma OrderAndNoSilentLoss(taxonomy: map<string, string>, actions: seq<Action>)
    ensures var s := Run(taxonomy, START, actions);
            && (Dispatching(s) ==> forall id :: 0 <= id < Current(s) ==> Settled(s, id))
            && (forall id :: 0 <= id < |s.rows| && s.rows[id].published ==>
                               id in s.applied || s.rows[id].attempts >= Relay.MAX_DISPATCH_ATTEMPTS)
  {
    var s := Run(taxonomy, START, actions);
    RunKeepsQueueInv(taxonomy, actions);
    if Dispatching(s) {
      forall id | 0 <= id < Current(s)
        ensures Settled(s, id)
      {
        assert Settled(s, id) || Earlier(s.phase.batch, s.phase.pos, id);
      }
    }
    forall id | 0 <= id < |s.rows| && s.rows[id].published
      ensures id in s.applied || s.rows[id].attempts >= Relay.MAX_DISPATCH_ATTEMPTS
    {
      assert Settled(s, id);
    }
  }

  lemma {:induction false} RunKeepsQueueInv(taxonomy: map<string, string>, actions: seq<Action>)
    ensures QueueInv(Run(taxonomy, START, actions))
  {
    if actions != [] {
      RunKeepsQueueInv(taxonomy, actions[..|actions| - 1]);
      ActKeepsQueueInv(taxonomy, Run(taxonomy, START, actions[..|actions| - 1]), actions[|actions| - 1]);
    }
  }

  // -----------------------------------------------------------------
  // The writes of a run are a history
  // -----------------------------------------------------------------

  function WritesOf(actions: seq<Action>): seq<Write> {
    if actions == [] then [] else
    var a := actions[|actions| - 1];
    WritesOf(actions[..|actions| - 1]) + if a.DoWrite? then [a.write] else []
  }

  function EventsOf(rows: seq<Row<Event>>): (events: seq<Event>)
    ensures |events| == |rows| && forall i :: 0 <= i < |rows| ==> events[i] == rows[i].event
  {
    seq(|rows|, i requires 0 <= i < |rows| => rows[i].event)
  }

  lemma ActOnEvents(taxonomy: map<string, string>, s: Sys, a: Action)
    ensures var s' := Act(taxonomy, s, a);
            !a.DoWrite? ==> s'.source == s.source && EventsOf(s'.rows) == EventsOf(s.rows)
  {
  }

  lemma WriteExtendsHistory(taxonomy: map<string, string>, s: Sys, writes: seq<Write>, w: Write)
    requires Play(writes) == History(s.source, EventsOf(s.rows))
    ensures var s' := Act(taxonomy, s, DoWrite(w)); Play(writes + [w]) == History(s'.source, EventsOf(s'.rows))
  {
    assert (writes + [w])[..|writes|] == writes;
    var event := EventOf(s.source, w.op, w.now);
    if event.Some? {
      assert EventsOf(s.rows + [Fresh(event.value)]) == EventsOf(s.rows) + [event.value];
    } else {
      assert s.rows + [] == s.rows && EventsOf(s.rows) + [] == EventsOf(s.rows);
    }
  }

  lemma {:induction false} RunIsHistory(taxonomy: map<string, string>, actions: seq<Action>)
    ensures var s := Run(taxonomy, START, actions);
            Play(WritesOf(actions)) == History(s.source, EventsOf(s.rows))
  {
    if actions != [] {
      var init, a := actions[..|actions| - 1], actions[|actions| - 1];
      RunIsHistory(taxonomy, init);
      if a.DoWrite? {
        WriteExtendsHistory(taxonomy, Run(taxonomy, START, init), WritesOf(init), a.write);
      } else {
        ActOnEvents(taxonomy, Run(taxonomy, START, init), a);
        assert WritesOf(init) + [] == WritesOf(init);
      }
    }
  }

  // -----------------------------------------------------------------
  // When a history yields a well-formed log
  // -----------------------------------------------------------------

  function LogOf(writes: seq<Write>): seq<Change> {
    Changes(Play(writes).events)
  }

  /** What `update_product` and the child writes do not check: the product exists. */
  predicate Guarded(s: Source, op: Op) {
    op.UpdateProduct? || op.WriteChild? ==> op.id in s.products
  }

  lemma LogFollows(writes: seq<Write>)
    requires writes != []
    ensures var before, w := writes[..|writes| - 1], writes[|writes| - 1];
            var s := Play(before).source;
            LogOf(writes) ==
            LogOf(before) + if Refused(s, w.op) || EventOf(s, w.op, w.now).None? then [] else [ChangeOf(s, w.op, w.now)]
  {
    var before, w := writes[..|writes| - 1], writes[|writes| - 1];
    PayloadRoundTrip(Play(before).source, w.op, w.now);
  }

  lemma WriteMovesLive(s: Source, op: Op, now: Int64)
    requires !Refused(s, op)
    ensures After(s, op, now).products.Keys == Replication.NextLive(s.products.Keys, ChangeOf(s, op, now))
    ensures EventOf(s, op, now).None? ==> After(s, op, now).products.Keys == s.products.Keys && Guarded(s, op)
    ensures Replication.Allowed(s.products.Keys, ChangeOf(s, op, now)) <==> Guarded(s, op)
  {
    match op {
      case CreateProduct(_, _) =>
      case UpdateProduct(_, _, _, _, _, _) => assert ChangeOf(s, op, now).Core?;
      case SetStatusOf(_, _) =>
      case DeleteProduct(_) =>
      case SetAttributeValue(_, _, _) => assert ChangeOf(s, op, now).SetAttr?;
      case ClearAttributeValue(_, _) => assert ChangeOf(s, op, now).ClearAttr?;
      case WriteChild(_, _) => assert ChangeOf(s, op, now).Touch?;
    }
  }

  lemma {:induction false} LiveIsSource(writes: seq<Write>)
    ensures Replication.Live(LogOf(writes), |LogOf(writes)|) == Play(writes).source.products.Keys
  {
    if writes != [] {
      var before, w := writes[..|writes| - 1], writes[|writes| - 1];
      var s := Play(before).source;
      LiveIsSource(before);
      LogFollows(writes);
      Replication.LiveOfPrefix(LogOf(before), LogOf(writes)[|LogOf(before)|..], |LogOf(before)|);
      assert LogOf(before) + LogOf(writes)[|LogOf(before)|..] == LogOf(writes);
      if !Refused(s, w.op) {
        WriteMovesLive(s, w.op, w.now);
      }
    }
  }

  /** No accepted update or child write of the history names a product that does not exist. */
  predicate AllGuarded(writes: seq<Write>) {
    writes == [] ||
    var before, w := writes[..|writes| - 1], writes[|writes| - 1];
    AllGuarded(before) && (Refused(Play(before).source, w.op) || Guarded(Play(before).source, w.op))
  }

  /** A history writes a well-formed log exactly when its updates name products that exist. */
  lemma {:induction false} GuardedHistoriesAreWellFormed(writes: seq<Write>)
    ensures Replication.WellFormed(LogOf(writes)) <==> AllGuarded(writes)
  {
    if writes != [] {
      var before, w := writes[..|writes| - 1], writes[|writes| - 1];
      var s := Play(before).source;
      var log, log' := LogOf(before), LogOf(writes);
      GuardedHistoriesAreWellFormed(before);
      LogFollows(writes);
      LiveIsSource(before);
      if !Refused(s, w.op) {
        WriteMovesLive(s, w.op, w.now);
        forall i | 0 <= i <= |log|
          ensures Replication.Live(log', i) == Replication.Live(log, i)
        {
          Replication.LiveOfPrefix(log, log'[|log|..], i);
          assert log + log'[|log|..] == log';
        }
        LastDecides(log, log', s, w);
      }
    }
  }

  lemma LastDecides(log: seq<Change>, log': seq<Change>, s: Source, w: Write)
    requires !Refused(s, w.op) && Replication.Live(log, |log|) == s.products.Keys
    requires log' == log + if EventOf(s, w.op, w.now).None? then [] else [ChangeOf(s, w.op, w.now)]
    requires forall i :: 0 <= i <= |log| ==> Replication.Live(log', i) == Replication.Live(log, i)
    requires Replication.Allowed(s.products.Keys, ChangeOf(s, w.op, w.now)) <==> Guarded(s, w.op)
    requires EventOf(s, w.op, w.now).None? ==> Guarded(s, w.op)
    ensures Replication.WellFormed(log') <==> Replication.WellFormed(log) && Guarded(s, w.op)
  {
    assert forall i :: 0 <= i < |log| ==> log'[i] == log[i];
    if Replication.WellFormed(log') && EventOf(s, w.op, w.now).Some? {
      assert Replication.Allowed(Replication.Live(log', |log|), log'[|log|]);
    }
    if Replication.WellFormed(log) && Guarded(s, w.op) {
      forall i | 0 <= i < |log'|
        ensures Replication.Allowed(Replication.Live(log', i), log'[i])
      {
        assert i < |log| ==> Replication.Allowed(Replication.Live(log, i), log[i]);
      }
    }
  }

  // -----------------------------------------------------------------
  // Under slug ownership the source never clashes
  // -----------------------------------------------------------------

  ghost predicate ProductsOwned(own: Replication.Owner, products: map<string, Product>) {
    forall id :: id in products ==> own(products[id].slug) == id
  }

  lemma OwnedWrite(own: Replication.Owner, s: Source, op: Op, now: Int64)
    requires ProductsOwned(own, s.products) && Replication.OwnsSlug(own, ChangeOf(s, op, now))
    ensures ProductsOwned(own, After(s, op, now).products)
  {
    match op {
      case CreateProduct(_, _) =>
      case UpdateProduct(_, _, _, _, _, _) =>
      case SetStatusOf(_, _) =>
      case DeleteProduct(_) =>
      case SetAttributeValue(_, _, _) =>
      case ClearAttributeValue(_, _) =>
      case WriteChild(_, _) =>
    }
  }

  lemma {:induction false} OwnedHistory(own: Replication.Owner, writes: seq<Write>)
    requires Replication.Owned(own, LogOf(writes))
    ensures ProductsOwned(own, Play(writes).source.products)
    ensures forall n :: 0 <= n <= |writes| ==> SlugsDistinct(Play(writes[..n]).source.products)
  {
    if writes == [] {
      assert writes[..0] == [];
    } else {
      var k := |writes| - 1;
      var before, w := writes[..k], writes[k];
      var s := Play(before).source;
      LogFollows(writes);
      var log, log' := LogOf(before), LogOf(writes);
      assert forall i :: 0 <= i < |log| ==> log[i] == log'[i];
      OwnedHistory(own, before);
      if !Refused(s, w.op) {
        if EventOf(s, w.op, w.now).Some? {
          assert log'[|log|] == ChangeOf(s, w.op, w.now);
        }
        OwnedWrite(own, s, w.op, w.now);
      }
      assert SlugsDistinct(Play(writes).source.products);
      forall n | 0 <= n <= |writes|
        ensures SlugsDistinct(Play(writes[..n]).source.products)
      {
        if n <= k {
          assert before[..n] == writes[..n];
        } else {
          assert writes[..n] == writes;
        }
      }
    }
  }

  // -----------------------------------------------------------------
  // Convergence
  // -----------------------------------------------------------------

  /** Where the next dispatch would be: just past the published events, plus what the batch has done. */
  function NextEvent(s: Sys, published: nat): nat {
    if s.phase.Busy? then published + s.phase.pos else published
  }

  /** The published events are the first `published` ones, and the batch follows on from them without a gap. */
  ghost predicate InStep(log: seq<Change>, s: Sys, published: nat) {
    && published <= |s.rows| && |s.rows| <= |log| && s.high <= |s.rows|
    && Changes(EventsOf(s.rows)) == log[..|s.rows|]
    && (forall i :: 0 <= i < |s.rows| ==> (s.rows[i].published <==> i < published))
    && (s.phase.Busy? ==>
          && s.phase.pos <= |s.phase.batch| && published + |s.phase.batch| <= |s.rows|
          && (forall i :: 0 <= i < |s.phase.batch| ==> s.phase.batch[i] == published + i)
          && s.phase.delivered == s.phase.batch[..s.phase.pos])
  }

  /** As long as nothing is dead-lettered the relay is in step, and the catalog can be resumed from wherever the
    * relay may stand. */
  ghost predicate Converging(taxonomy: map<string, string>, log: seq<Change>, s: Sys, published: nat) {
    && InStep(log, s, published) && Coherent(s.catalog)
    && Replication.Resumable(taxonomy, log, s.catalog.tables, NextEvent(s, published), s.high)
  }

  /** The batch fetched from a table published up to `from` is the next run of ids. */
  lemma {:induction false} FetchIsNextRun(rows: seq<Row<Event>>, from: nat, limit: nat)
    requires from <= |rows| && forall i :: from <= i < |rows| ==> !rows[i].published
    ensures var ids := FetchFrom(rows, from, limit);
            |ids| == Min(limit, |rows| - from) && forall i :: 0 <= i < |ids| ==> ids[i] == from + i
    decreases |rows| - from
  {
    if limit > 0 && from < |rows| {
      FetchIsNextRun(rows, from + 1, limit - 1);
    }
  }

  lemma {:induction false} FetchSkipsPublished(rows: seq<Row<Event>>, from: nat, to: nat, limit: nat)
    requires from <= to <= |rows| && forall i :: 0 <= i < to ==> rows[i].published
    ensures FetchFrom(rows, from, limit) == FetchFrom(rows, to, limit)
    decreases |rows| - from
  {
    if from < to {
      FetchSkipsPublished(rows, from + 1, to, limit);
    }
  }

  /** The projection accepts the event that the relay is about to dispatch, and a replay up to the highest event
    * ever applied makes up for it. */
  ghost predicate Deliverable(taxonomy: map<string, string>, log: seq<Change>, s: Sys) {
    Dispatching(s) && Current(s) < |log| && s.high <= |log| ==>
      && ApplyTables(taxonomy, s.catalog.tables, log[Current(s)]).Some?
      && Replication.Absorbed(taxonomy, log, s.catalog.tables, Current(s), Max(Current(s) + 1, s.high))
  }

  /** At every point of the run. */
  ghost predicate AlwaysDeliverable(taxonomy: map<string, string>, log: seq<Change>, actions: seq<Action>) {
    forall init :: init <= actions ==> Deliverable(taxonomy, log, Run(taxonomy, START, init))
  }

  lemma WriteKeepsConverging(taxonomy: map<string, string>, log: seq<Change>, s: Sys, s': Sys, published: nat)
    requires Converging(taxonomy, log, s, published)
    requires s' == s.(source := s'.source, rows := s'.rows)
    requires |s.rows| <= |s'.rows| <= |log| && s'.rows[..|s.rows|] == s.rows
    requires Changes(EventsOf(s'.rows)) == log[..|s'.rows|]
    requires forall i :: |s.rows| <= i < |s'.rows| ==> !s'.rows[i].published
    ensures Converging(taxonomy, log, s', published)
  {
    assert forall i :: 0 <= i < |s.rows| ==> s'.rows[i] == s.rows[i];
  }

  /** The catalog after the relay's current event. */
  lemma CurrentApplies(taxonomy: map<string, string>, log: seq<Change>, s: Sys)
    requires Dispatching(s) && |s.rows| <= |log| && Changes(EventsOf(s.rows)) == log[..|s.rows|] && Coherent(s.catalog)
    requires ApplyTables(taxonomy, s.catalog.tables, log[Current(s)]).Some?
    ensures var after := Apply(taxonomy, s.catalog, Decode(s.rows[Current(s)].event));
            && after.Some? && Coherent(after.value)
            && after.value.tables == Step(taxonomy, s.catalog.tables, log[Current(s)])
  {
    assert Decode(s.rows[Current(s)].event) == Changes(EventsOf(s.rows))[Current(s)] == log[Current(s)];
    ApplyKeepsCoherent(taxonomy, s.catalog, log[Current(s)]);
  }

  lemma AppliedResumes(taxonomy: map<string, string>, log: seq<Change>, t: Tables, t': Tables, id: nat, high: nat,
                       high': nat, next: nat)
    requires Replication.Resumable(taxonomy, log, t, id, high) && id < |log| && t' == Step(taxonomy, t, log[id])
    requires high' == Max(high, id + 1) && Replication.Absorbed(taxonomy, log, t, id, Max(id + 1, high))
    requires next == id || next == id + 1
    ensures Replication.Resumable(taxonomy, log, t', next, high')
  {
    Replication.AbsorbedKeepsResumable(taxonomy, log, t, id, high);
    Replication.RewindKeepsResumable(taxonomy, log, t', id + 1, high', next);
  }

  lemma AppliedKeepsInStep(log: seq<Change>, s: Sys, s': Sys, published: nat)
    requires InStep(log, s, published) && Dispatching(s)
    requires s'.rows == s.rows && s'.high == Max(s.high, Current(s) + 1)
    requires s'.phase == s.phase ||
             s'.phase == s.phase.(pos := s.phase.pos + 1, delivered := s.phase.delivered + [Current(s)])
    ensures InStep(log, s', published) && Current(s) == NextEvent(s, published)
    ensures NextEvent(s', published) == Current(s) || NextEvent(s', published) == Current(s) + 1
  {
    assert s.phase.batch[..s.phase.pos + 1] == s.phase.batch[..s.phase.pos] + [Current(s)];
  }

  /** The catalog has applied the current event; the relay has gone on to the next one, or stays where it is. */
  lemma AppliedKeepsConverging(taxonomy: map<string, string>, log: seq<Change>, s: Sys, s': Sys, published: nat)
    requires Converging(taxonomy, log, s, published) && Dispatching(s) && Coherent(s'.catalog)
    requires s'.catalog.tables == Step(taxonomy, s.catalog.tables, log[Current(s)])
    requires Replication.Absorbed(taxonomy, log, s.catalog.tables, Current(s), Max(Current(s) + 1, s.high))
    requires s'.rows == s.rows && s'.high == Max(s.high, Current(s) + 1)
    requires s'.phase == s.phase ||
             s'.phase == s.phase.(pos := s.phase.pos + 1, delivered := s.phase.delivered + [Current(s)])
    ensures Converging(taxonomy, log, s', published)
  {
    AppliedKeepsInStep(log, s, s', published);
    AppliedResumes(taxonomy, log, s.catalog.tables, s'.catalog.tables, Current(s), s.high, s'.high,
                   NextEvent(s', published));
  }

  lemma DispatchKeepsConverging(taxonomy: map<string, string>, log: seq<Change>, s: Sys, published: nat)
    requires Converging(taxonomy, log, s, published) && Deliverable(taxonomy, log, s)
    ensures Converging(taxonomy, log, Act(taxonomy, s, DispatchOk), published)
  {
    if Dispatching(s) {
      CurrentApplies(taxonomy, log, s);
      AppliedKeepsConverging(taxonomy, log, s, Act(taxonomy, s, DispatchOk), published);
    }
  }

  /** The catalog runs ahead of what the relay knows; the relay stays where it is. */
  lemma UnseenKeepsConverging(taxonomy: map<string, string>, log: seq<Change>, s: Sys, published: nat)
    requires Converging(taxonomy, log, s, published) && Deliverable(taxonomy, log, s)
    ensures Converging(taxonomy, log, Act(taxonomy, s, CommitUnseen), published)
  {
    if Dispatching(s) {
      CurrentApplies(taxonomy, log, s);
      AppliedKeepsConverging(taxonomy, log, s, Act(taxonomy, s, CommitUnseen), published);
    }
  }

  lemma FetchKeepsConverging(taxonomy: map<string, string>, log: seq<Change>, s: Sys, limit: nat, published: nat)
    requires Converging(taxonomy, log, s, published) && s.phase.Idle?
    ensures Converging(taxonomy, log, s.(phase := Busy(Fetch(s.rows, limit), 0, [], false)), published)
  {
    FetchSkipsPublished(s.rows, 0, published, limit);
    FetchIsNextRun(s.rows, published, limit);
  }

  lemma FailKeepsConverging(taxonomy: map<string, string>, log: seq<Change>, s: Sys, error: string,
                            published: nat)
    requires Converging(taxonomy, log, s, published)
    ensures Converging(taxonomy, log, Act(taxonomy, s, DispatchFail(error)), published)
  {
    var s' := Act(taxonomy, s, DispatchFail(error));
    ActOnEvents(taxonomy, s, DispatchFail(error));
    if Dispatching(s) {
      assert s.phase.batch[..s.phase.pos][..s.phase.pos] == s.phase.batch[..s.phase.pos];
    }
  }

  lemma MarkKeepsConverging(taxonomy: map<string, string>, log: seq<Change>, s: Sys, published: nat)
    requires Converging(taxonomy, log, s, published)
    requires s.phase.Busy? && !s.phase.doomed && s.phase.pos == |s.phase.batch|
    ensures Converging(taxonomy, log, Act(taxonomy, s, MarkBatch), published + s.phase.pos)
  {
    ActOnEvents(taxonomy, s, MarkBatch);
    assert s.phase.delivered == s.phase.batch;
    MarkMovesFrontier(s.rows, s.phase.delivered, published, published + s.phase.pos);
  }

  /** One action, whichever it is, unless it dead-letters. */
  lemma ActKeepsConverging(taxonomy: map<string, string>, log: seq<Change>, s: Sys, a: Action, published: nat)
    returns (published': nat)
    requires Converging(taxonomy, log, s, published)
    requires a.DispatchOk? || a.CommitUnseen? ==> Deliverable(taxonomy, log, s)
    requires var s' := Act(taxonomy, s, a);
             s'.dead == {} && |s'.rows| <= |log| && Changes(EventsOf(s'.rows)) == log[..|s'.rows|]
    ensures Converging(taxonomy, log, Act(taxonomy, s, a), published')
  {
    published' := published;
    match a {
      case DoWrite(_) => WriteKeepsConverging(taxonomy, log, s, Act(taxonomy, s, a), published);
      case FetchBatch(limit) =>
        if s.phase.Idle? {
          FetchKeepsConverging(taxonomy, log, s, limit, published);
        }
      case DispatchOk => DispatchKeepsConverging(taxonomy, log, s, published);
      case DispatchFail(error) => FailKeepsConverging(taxonomy, log, s, error, published);
      case CommitUnseen => UnseenKeepsConverging(taxonomy, log, s, published);
      case DeadMark => assert Act(taxonomy, s, a) == s;
      case MarkBatch =>
        if s.phase.Busy? && !s.phase.doomed && s.phase.pos == |s.phase.batch| {
          MarkKeepsConverging(taxonomy, log, s, published);
          published' := published + s.phase.pos;
        }
      case Crash =>
        var next := NextEvent(s, published);
        Replication.RewindKeepsResumable(taxonomy, log, s.catalog.tables, next, s.high, published);
    }
  }

  lemma MarkMovesFrontier(rows: seq<Row<Event>>, ids: seq<nat>, published: nat, published': nat)
    requires published <= published' <= |rows| && |ids| == published' - published
    requires forall i :: 0 <= i < |ids| ==> ids[i] == published + i
    requires forall i :: 0 <= i < |rows| ==> (rows[i].published <==> i < published)
    ensures forall i :: 0 <= i < |rows| ==> (MarkAll(rows, ids)[i].published <==> i < published')
  {
    forall i | 0 <= i < |rows|
      ensures MarkAll(rows, ids)[i].published <==> i < published'
    {
      if published <= i < published' {
        assert ids[i - published] == i;
      }
    }
  }

  lemma DeadOnlyGrows(taxonomy: map<string, string>, s: Sys, a: Action)
    ensures s.dead <= Act(taxonomy, s, a).dead
  {
  }

  /** Events are only ever appended. */
  lemma LogOnlyGrows(actions: seq<Action>)
    requires actions != []
    ensures LogOf(WritesOf(actions[..|actions| - 1])) <= LogOf(WritesOf(actions))
  {
    var init, a := actions[..|actions| - 1], actions[|actions| - 1];
    if a.DoWrite? {
      var writes := WritesOf(init) + [a.write];
      assert WritesOf(actions) == writes && writes[..|writes| - 1] == WritesOf(init);
      LogFollows(writes);
    } else {
      assert WritesOf(init) + [] == WritesOf(init);
    }
  }

  /** The invariant behind convergence, at every point of every run without dead letters. */
  lemma {:induction false} RunConverges(taxonomy: map<string, string>, log: seq<Change>, actions: seq<Action>)
    returns (published: nat)
    requires LogOf(WritesOf(actions)) <= log && AlwaysDeliverable(taxonomy, log, actions)
    requires Run(taxonomy, START, actions).dead == {}
    ensures Converging(taxonomy, log, Run(taxonomy, START, actions), published)
  {
    if actions == [] {
      published := 0;
      StartConverging(taxonomy, log);
    } else {
      var init, a := actions[..|actions| - 1], actions[|actions| - 1];
      LogOnlyGrows(actions);
      DeadOnlyGrows(taxonomy, Run(taxonomy, START, init), a);
      published := RunConverges(taxonomy, log, init);
      RunIsHistory(taxonomy, init);
      RunIsHistory(taxonomy, actions);
      published := ActKeepsConverging(taxonomy, log, Run(taxonomy, START, init), a, published);
    }
  }

  lemma StartConverging(taxonomy: map<string, string>, log: seq<Change>)
    ensures Converging(taxonomy, log, START, 0)
  {
    assert log[0..0] == [] && log[..0] == [];
    EmptyCatalogIsCoherent();
  }

  /** The log that a part of a run has written is a first part of what the whole run writes. */
  lemma {:induction false} LogOfInit(init: seq<Action>, actions: seq<Action>)
    requires init <= actions
    ensures LogOf(WritesOf(init)) <= LogOf(WritesOf(actions))
    decreases |actions|
  {
    if init == actions {
    } else {
      LogOfInit(init, actions[..|actions| - 1]);
      LogOnlyGrows(actions);
    }
  }

  /** The full-text table stays coherent with the keyed ones at every point of every run. */
  lemma {:induction false} RunKeepsCoherent(taxonomy: map<string, string>, actions: seq<Action>)
    ensures Coherent(Run(taxonomy, START, actions).catalog)
  {
    if actions == [] {
      EmptyCatalogIsCoherent();
    } else {
      var init, a := actions[..|actions| - 1], actions[|actions| - 1];
      var s := Run(taxonomy, START, init);
      RunKeepsCoherent(taxonomy, init);
      if (a.DispatchOk? || a.CommitUnseen?) && Dispatching(s) {
        var change := Decode(s.rows[Current(s)].event);
        if Apply(taxonomy, s.catalog, change).Some? {
          ApplyKeepsCoherent(taxonomy, s.catalog, change);
        }
      }
    }
  }

  lemma OwnedIsDeliverableAt(taxonomy: map<string, string>, own: Replication.Owner, log: seq<Change>, s: Sys)
    requires Replication.WellFormed(log) && Replication.Owned(own, log)
    requires Replication.CardsOwned(own, s.catalog.tables.cards)
    ensures Deliverable(taxonomy, log, s)
  {
    if Dispatching(s) && Current(s) < |log| && s.high <= |log| {
      Replication.OwnedStep(taxonomy, own, s.catalog.tables, log[Current(s)]);
      Replication.DeliveryIsAbsorbed(taxonomy, own, log, s.catalog.tables, Current(s), Max(Current(s) + 1, s.high));
    }
  }

  lemma OwnedIsDeliverable(taxonomy: map<string, string>, own: Replication.Owner, log: seq<Change>,
                           actions: seq<Action>)
    requires Replication.WellFormed(log) && Replication.Owned(own, log) && LogOf(WritesOf(actions)) <= log
    ensures AlwaysDeliverable(taxonomy, log, actions)
  {
    forall init | init <= actions
      ensures Deliverable(taxonomy, log, Run(taxonomy, START, init))
    {
      LogOfInit(init, actions);
      RunKeepsCardsOwned(taxonomy, own, log, init);
      OwnedIsDeliverableAt(taxonomy, own, log, Run(taxonomy, START, init));
    }
  }

  lemma ApplyOrKeepTables(taxonomy: map<string, string>, c: Catalog, change: Change)
    ensures ApplyOrKeep(taxonomy, c, change).tables == Step(taxonomy, c.tables, change)
  {
  }

  lemma {:induction false} FoldCatalogTables(taxonomy: map<string, string>, c: Catalog, log: seq<Change>)
    ensures FoldCatalog(taxonomy, c, log).tables == Fold(taxonomy, c.tables, log)
  {
    if log != [] {
      var init, change := log[..|log| - 1], log[|log| - 1];
      FoldCatalogTables(taxonomy, c, init);
      assert log == init + [change];
      FoldAppend(taxonomy, c.tables, init, change);
      ApplyOrKeepTables(taxonomy, FoldCatalog(taxonomy, c, init), change);
    }
  }

  /** Replay absorption on all three tables: a window replayed over the state it led to changes none. */
  lemma ReplayIsAbsorbed(taxonomy: map<string, string>, own: Replication.Owner, log: seq<Change>, a: nat, b: nat)
    requires Replication.WellFormed(log) && Replication.Owned(own, log) && a <= b <= |log|
    ensures var c := FoldCatalog(taxonomy, EMPTY_CATALOG, log[..b]);
            var again := FoldCatalog(taxonomy, c, log[a..b]);
            again.tables == c.tables && multiset(again.fts) == multiset(c.fts)
  {
    var c := FoldCatalog(taxonomy, EMPTY_CATALOG, log[..b]);
    FoldCatalogTables(taxonomy, EMPTY_CATALOG, log[..b]);
    FoldCatalogTables(taxonomy, c, log[a..b]);
    Replication.WellFormedLogsAreReplaySafe(taxonomy, own, log);
    assert Fold(taxonomy, Replication.Prefix(taxonomy, log, b), log[a..b]) == Replication.Prefix(taxonomy, log, b);
    EmptyCatalogIsCoherent();
    FoldKeepsCoherent(taxonomy, EMPTY_CATALOG, log[..b]);
    FoldKeepsCoherent(taxonomy, c, log[a..b]);
    CoherentIndexIsDetermined(FoldCatalog(taxonomy, c, log[a..b]), c);
  }

  ghost predicate NothingPending(s: Sys) {
    forall i :: 0 <= i < |s.rows| ==> s.rows[i].published
  }

  /** Everything is published and nothing was dead-lettered. */
  ghost predicate Settles(s: Sys) {
    s.dead == {} && NothingPending(s)
  }

  ghost predicate DistinctThroughout(writes: seq<Write>) {
    forall n :: 0 <= n <= |writes| ==> SlugsDistinct(Play(writes[..n]).source.products)
  }

  /** The catalog is that of a consumer that saw each event once and in order, in all three tables; it agrees
    * with the product tables, and what it shows as published is published. */
  ghost predicate UpToDate(taxonomy: map<string, string>, s: Sys) {
    var inOrder := FoldCatalog(taxonomy, EMPTY_CATALOG, Changes(EventsOf(s.rows)));
    && s.catalog.tables == inOrder.tables
    && multiset(s.catalog.fts) == multiset(inOrder.fts)
    && Agrees(taxonomy, s.source, s.catalog.tables)
    && PublishedSafe(s.source, s.catalog.tables)
  }

  /** What deliverability is for. */
  lemma DeliverableConverges(taxonomy: map<string, string>, actions: seq<Action>)
    requires AlwaysDeliverable(taxonomy, LogOf(WritesOf(actions)), actions) && DistinctThroughout(WritesOf(actions))
    requires Settles(Run(taxonomy, START, actions))
    ensures UpToDate(taxonomy, Run(taxonomy, START, actions))
    ensures Run(taxonomy, START, actions).catalog.tables == Replica(taxonomy, WritesOf(actions))
  {
    var s, writes := Run(taxonomy, START, actions), WritesOf(actions);
    var log, events := LogOf(writes), EventsOf(s.rows);
    RunIsHistory(taxonomy, actions);
    var published := RunConverges(taxonomy, log, actions);
    FullyPublished(taxonomy, log, s, published);
    FoldCatalogTables(taxonomy, EMPTY_CATALOG, log);
    IndexCoherence(taxonomy, events);
    CoherentIndexIsDetermined(s.catalog, FoldCatalog(taxonomy, EMPTY_CATALOG, log));
    DistinctSlugsSuffice(taxonomy, writes);
    PublishedSafety(taxonomy, writes);
  }

  /** End-to-end convergence. For every interleaving of product writes with relay steps, failed deliveries
    * and crashes: once nothing is unpublished and nothing was dead-lettered, all three catalog tables are
    * those of a consumer that saw each event once and in order; the catalog agrees with the product tables,
    * and whatever it shows as published is published. */
  lemma Convergence(taxonomy: map<string, string>, own: Replication.Owner, actions: seq<Action>)
    requires AllGuarded(WritesOf(actions)) && Replication.Owned(own, LogOf(WritesOf(actions)))
    requires Settles(Run(taxonomy, START, actions))
    ensures UpToDate(taxonomy, Run(taxonomy, START, actions))
  {
    GuardedHistoriesAreWellFormed(WritesOf(actions));
    OwnedIsDeliverable(taxonomy, own, LogOf(WritesOf(actions)), actions);
    OwnedHistory(own, WritesOf(actions));
    DeliverableConverges(taxonomy, actions);
  }

  /** Then every product that was never archived is shown with the status it has, published ones included. */
  lemma StatusesConverge(taxonomy: map<string, string>, own: Replication.Owner, actions: seq<Action>, id: string)
    requires AllGuarded(WritesOf(actions)) && Replication.Owned(own, LogOf(WritesOf(actions)))
    requires Settles(Run(taxonomy, START, actions)) && NeverArchived(WritesOf(actions), id)
    ensures var s, cards := Run(taxonomy, START, actions).source, Run(taxonomy, START, actions).catalog.tables.cards;
            id in s.products ==>
              && id in cards
              && (s.products[id].status == Published ==> cards[id].status == "published")
              && (s.products[id].status == Draft ==> cards[id].status == "draft")
  {
    GuardedHistoriesAreWellFormed(WritesOf(actions));
    OwnedIsDeliverable(taxonomy, own, LogOf(WritesOf(actions)), actions);
    OwnedHistory(own, WritesOf(actions));
    DeliverableConverges(taxonomy, actions);
    RunIsHistory(taxonomy, actions);
    ShownUnlessArchived(taxonomy, WritesOf(actions), id);
  }

  lemma FullyPublished(taxonomy: map<string, string>, log: seq<Change>, s: Sys, published: nat)
    requires Converging(taxonomy, log, s, published) && |log| == |s.rows| && NothingPending(s)
    ensures s.catalog.tables == Fold(taxonomy, EMPTY_TABLES, log)
  {
    if s.rows != [] {
      assert s.rows[Min(published, |s.rows| - 1)].published;
    }
    assert log[|log|..|log|] == [] && log[..|log|] == log;
    assert Fold(taxonomy, s.catalog.tables, log[|log|..|log|]) == Replication.Prefix(taxonomy, log, |log|);
  }

  lemma ActKeepsCardsOwned(taxonomy: map<string, string>, own: Replication.Owner, log: seq<Change>, s: Sys, a: Action)
    requires Replication.Owned(own, log) && Replication.CardsOwned(own, s.catalog.tables.cards)
    requires |s.rows| <= |log| && Changes(EventsOf(s.rows)) == log[..|s.rows|]
    ensures Replication.CardsOwned(own, Act(taxonomy, s, a).catalog.tables.cards)
  {
    if (a.DispatchOk? || a.CommitUnseen?) && Dispatching(s) {
      var id := Current(s);
      assert Decode(s.rows[id].event) == Changes(EventsOf(s.rows))[id] == log[id];
      Replication.OwnedStep(taxonomy, own, s.catalog.tables, log[id]);
    }
  }

  lemma {:induction false} RunKeepsCardsOwned(taxonomy: map<string, string>, own: Replication.Owner,
      log: seq<Change>, actions: seq<Action>)
    requires Replication.Owned(own, log) && LogOf(WritesOf(actions)) <= log
    ensures Replication.CardsOwned(own, Run(taxonomy, START, actions).catalog.tables.cards)
  {
    if actions != [] {
      var init, a := actions[..|actions| - 1], actions[|actions| - 1];
      LogOnlyGrows(actions);
      RunKeepsCardsOwned(taxonomy, own, log, init);
      RunIsHistory(taxonomy, init);
      ActKeepsCardsOwned(taxonomy, own, log, Run(taxonomy, START, init), a);
    }
  }

  /** Under slug ownership the projection itself refuses no event of any run, so that only ten failures of
    * the database around it can dead-letter one. */
  lemma NoEventIsRefused(taxonomy: map<string, string>, own: Replication.Owner, actions: seq<Action>)
    requires Replication.Owned(own, LogOf(WritesOf(actions)))
    ensures var s := Run(taxonomy, START, actions);
            Dispatching(s) ==> Apply(taxonomy, s.catalog, Decode(s.rows[Current(s)].event)).Some?
  {
    var s := Run(taxonomy, START, actions);
    var log := LogOf(WritesOf(actions));
    RunKeepsCardsOwned(taxonomy, own, log, actions);
    RunIsHistory(taxonomy, actions);
    if Dispatching(s) {
      assert Decode(s.rows[Current(s)].event) == log[Current(s)];
      Replication.OwnedStep(taxonomy, own, s.catalog.tables, log[Current(s)]);
    }
  }

  // -----------------------------------------------------------------
  // The relay runs this protocol
  // -----------------------------------------------------------------

  /** The projection as a dispatcher. `io` scripts the errors of the catalog database, call by call; an error
    * is `late` when the transaction had become durable before it was reported. */
  datatype World = World(catalog: Catalog, io: nat -> Option<string>, late: nat -> bool, clock: nat)

  ghost function Consume(taxonomy: map<string, string>, w: World, e: Event): (World, Option<string>) {
    var after := w.(clock := w.clock + 1);
    var applied := Apply(taxonomy, w.catalog, Decode(e));
    if w.io(w.clock).Some? then
      (if w.late(w.clock) && applied.Some? then after.(catalog := applied.value) else after, w.io(w.clock))
    else if applied.Some? then (after.(catalog := applied.value), None)
    else (after, Some("UNIQUE constraint failed"))
  }

  ghost function Projecting(taxonomy: map<string, string>): Relay.Dispatcher<World, Event> {
    (w: World, src: nat, e: Event) => Consume(taxonomy, w, e)
  }

  /** The protocol state `s` stands where the pass `p` stands after `n` events of the batch. */
  ghost predicate Mirrors(s: Sys, ids: seq<nat>, n: nat, p: Relay.Pass<World, Event>)
    requires n <= |ids|
  {
    && s.rows == p.rows && s.catalog == p.d.catalog
    && (p.aborted ==> s.phase.Idle?)
    && (!p.aborted ==> s.phase.Busy? && !s.phase.doomed && s.phase.delivered == p.delivered)
    && (!p.aborted ==> s.phase.pos <= |s.phase.batch|)
    && (!p.aborted && p.stopped ==> s.phase.pos == |s.phase.batch|)
    && (!p.aborted && !p.stopped ==> s.phase.batch == ids && s.phase.pos == n)
  }

  /** What becomes of a failed delivery, as actions of the relay. */
  function FailureActions(id: nat, error: string, q: Relay.Pass<World, Event>, faults: Relay.Faults): (r: seq<Action>)
    ensures |r| <= 3
  {
    if id in faults.record then if faults.late then [DispatchFail(error), Crash] else [Crash]
    else if q.stopped then [DispatchFail(error)]
    else if id !in faults.deadMark then [DispatchFail(error), DeadMark]
    else if faults.late then [DispatchFail(error), DeadMark, Crash]
    else [DispatchFail(error), Crash]
  }

  /** What a failed delivery makes of the pass; `p` already has the dispatcher's new state. */
  function FailedPass(p: Relay.Pass<World, Event>, id: nat, error: string, faults: Relay.Faults)
    : Relay.Pass<World, Event>
    requires id < |p.rows|
  {
    var rows := RecordFailure(p.rows, id, error);
    if id in faults.record then p.(rows := if faults.late then rows else p.rows, aborted := true)
    else if rows[id].attempts < Relay.MAX_DISPATCH_ATTEMPTS then p.(rows := rows, stopped := true)
    else if id in faults.deadMark && !faults.late then p.(rows := rows, aborted := true)
    else p.(rows := MarkAll(rows, [id]), dead := p.dead + [id], aborted := id in faults.deadMark)
  }

  lemma DeliverFails(taxonomy: map<string, string>, p: Relay.Pass<World, Event>, id: nat, faults: Relay.Faults,
                     error: string)
    requires id < |p.rows| && !p.stopped && !p.aborted && Consume(taxonomy, p.d, p.rows[id].event).1 == Some(error)
    ensures Relay.Deliver(p, 0, id, Projecting(taxonomy), faults)
         == FailedPass(p.(d := Consume(taxonomy, p.d, p.rows[id].event).0), id, error, faults)
  {
  }

  /** The failure is counted, or the pass breaks off at the count. */
  lemma CountIsAction(taxonomy: map<string, string>, s: Sys, ids: seq<nat>, n: nat, p: Relay.Pass<World, Event>,
                      faults: Relay.Faults, error: string)
    requires n < |ids| && ids[n] < |p.rows| && !p.stopped && !p.aborted && Mirrors(s, ids, n, p)
    requires ids[n] in faults.record || FailedPass(p, ids[n], error, faults).stopped
    ensures var actions := FailureActions(ids[n], error, FailedPass(p, ids[n], error, faults), faults);
            && WritesOf(actions) == []
            && Mirrors(Run(taxonomy, s, actions), ids, n + 1, FailedPass(p, ids[n], error, faults))
  {
    assert Dispatching(s) && Current(s) == ids[n];
    OneAction(taxonomy, s, Crash);
    OneAction(taxonomy, s, DispatchFail(error));
    TwoActions(taxonomy, s, DispatchFail(error), Crash);
  }

  lemma TenthFailure(taxonomy: map<string, string>, s: Sys, ids: seq<nat>, n: nat, p: Relay.Pass<World, Event>,
                     error: string)
    requires n < |ids| && ids[n] < |p.rows| && !p.stopped && !p.aborted && Mirrors(s, ids, n, p)
    requires p.rows[ids[n]].attempts + 1 >= Relay.MAX_DISPATCH_ATTEMPTS
    ensures Act(taxonomy, s, DispatchFail(error))
         == s.(rows := RecordFailure(s.rows, ids[n], error), phase := s.phase.(doomed := true))
  {
    assert Dispatching(s) && Current(s) == ids[n];
  }

  lemma DeadMarkMirrors(taxonomy: map<string, string>, s: Sys, ids: seq<nat>, n: nat, p: Relay.Pass<World, Event>)
    requires n < |ids| && ids[n] < |p.rows| && !p.stopped && !p.aborted
    requires s.rows == p.rows && s.catalog == p.d.catalog && s.phase == Busy(ids, n, p.delivered, true)
    ensures var s' := Act(taxonomy, s, DeadMark);
            && s'.rows == MarkAll(p.rows, [ids[n]]) && s'.catalog == p.d.catalog
            && s'.phase == Busy(ids, n + 1, p.delivered, false)
  {
  }

  /** The tenth failure: the event is dead-lettered, or the pass breaks off there, before or after. */
  lemma DoomIsActions(taxonomy: map<string, string>, s: Sys, ids: seq<nat>, n: nat, p: Relay.Pass<World, Event>,
                      faults: Relay.Faults, error: string)
    requires n < |ids| && ids[n] < |p.rows| && !p.stopped && !p.aborted && Mirrors(s, ids, n, p)
    requires ids[n] !in faults.record && !FailedPass(p, ids[n], error, faults).stopped
    ensures var actions := FailureActions(ids[n], error, FailedPass(p, ids[n], error, faults), faults);
            && WritesOf(actions) == []
            && Mirrors(Run(taxonomy, s, actions), ids, n + 1, FailedPass(p, ids[n], error, faults))
  {
    var s1 := Act(taxonomy, s, DispatchFail(error));
    TenthFailure(taxonomy, s, ids, n, p, error);
    if ids[n] in faults.deadMark && !faults.late {
      TwoActions(taxonomy, s, DispatchFail(error), Crash);
    } else {
      DeadMarkMirrors(taxonomy, s1, ids, n, p.(rows := s1.rows));
      if ids[n] in faults.deadMark {
        ThreeActions(taxonomy, s, DispatchFail(error), DeadMark, Crash);
      } else {
        TwoActions(taxonomy, s, DispatchFail(error), DeadMark);
      }
    }
  }

  /** `s` has the catalog that the delivery left, and the relay stands where `p` stands. */
  lemma FailureIsActions(taxonomy: map<string, string>, s: Sys, ids: seq<nat>, n: nat, p: Relay.Pass<World, Event>,
                         faults: Relay.Faults, error: string)
    requires n < |ids| && ids[n] < |p.rows| && !p.stopped && !p.aborted && Mirrors(s, ids, n, p)
    ensures var q := FailedPass(p, ids[n], error, faults);
            var actions := FailureActions(ids[n], error, q, faults);
            && WritesOf(actions) == []
            && Mirrors(Run(taxonomy, s, actions), ids, n + 1, q)
  {
    if ids[n] in faults.record || FailedPass(p, ids[n], error, faults).stopped {
      CountIsAction(taxonomy, s, ids, n, p, faults, error);
    } else {
      DoomIsActions(taxonomy, s, ids, n, p, faults, error);
    }
  }

  /** A failed delivery leaves the catalog as it was, or has committed without the relay's knowing. */
  lemma FailureSeen(taxonomy: map<string, string>, s: Sys, ids: seq<nat>, n: nat, p: Relay.Pass<World, Event>)
    returns (unseen: seq<Action>)
    requires n < |ids| && ids[n] < |s.rows| && Mirrors(s, ids, n, p) && !p.stopped && !p.aborted
    requires Consume(taxonomy, p.d, p.rows[ids[n]].event).1.Some?
    ensures |unseen| <= 1 && WritesOf(unseen) == []
    ensures Mirrors(Run(taxonomy, s, unseen), ids, n, p.(d := Consume(taxonomy, p.d, p.rows[ids[n]].event).0))
  {
    assert Dispatching(s) && Current(s) == ids[n];
    if Consume(taxonomy, p.d, p.rows[ids[n]].event).0.catalog == p.d.catalog {
      unseen := [];
    } else {
      unseen := [CommitUnseen];
      OneAction(taxonomy, s, CommitUnseen);
    }
  }

  /** One event of a pass is at most four actions. */
  lemma DeliverIsActions(taxonomy: map<string, string>, s: Sys, ids: seq<nat>, n: nat, p: Relay.Pass<World, Event>,
                         faults: Relay.Faults)
    returns (actions: seq<Action>)
    requires n < |ids| && ids[n] < |s.rows| && Mirrors(s, ids, n, p)
    ensures |actions| <= 4 && WritesOf(actions) == []
    ensures Mirrors(Run(taxonomy, s, actions), ids, n + 1, Relay.Deliver(p, 0, ids[n], Projecting(taxonomy), faults))
  {
    if p.stopped || p.aborted {
      actions := [];
    } else {
      var failure := Consume(taxonomy, p.d, p.rows[ids[n]].event).1;
      if failure.Some? {
        var q := Relay.Deliver(p, 0, ids[n], Projecting(taxonomy), faults);
        var unseen := FailureSeen(taxonomy, s, ids, n, p);
        var p1 := p.(d := Consume(taxonomy, p.d, p.rows[ids[n]].event).0);
        DeliverFails(taxonomy, p, ids[n], faults, failure.value);
        FailureIsActions(taxonomy, Run(taxonomy, s, unseen), ids, n, p1, faults, failure.value);
        actions := unseen + FailureActions(ids[n], failure.value, q, faults);
        RunConcat(taxonomy, s, unseen, FailureActions(ids[n], failure.value, q, faults));
      } else {
        assert Dispatching(s) && Current(s) == ids[n];
        OneAction(taxonomy, s, DispatchOk);
        actions := [DispatchOk];
      }
    }
  }

  lemma OneAction(taxonomy: map<string, string>, s: Sys, a: Action)
    ensures Run(taxonomy, s, [a]) == Act(taxonomy, s, a)
    ensures !a.DoWrite? ==> WritesOf([a]) == []
  {
    assert [a][..0] == [];
    assert Run(taxonomy, s, []) == s;
  }

  lemma TwoActions(taxonomy: map<string, string>, s: Sys, a: Action, b: Action)
    ensures Run(taxonomy, s, [a, b]) == Act(taxonomy, Act(taxonomy, s, a), b)
    ensures !a.DoWrite? && !b.DoWrite? ==> WritesOf([a, b]) == []
  {
    OneAction(taxonomy, s, a);
    assert [a, b][..1] == [a];
  }

  lemma ThreeActions(taxonomy: map<string, string>, s: Sys, a: Action, b: Action, c: Action)
    ensures Run(taxonomy, s, [a, b, c]) == Act(taxonomy, Act(taxonomy, Act(taxonomy, s, a), b), c)
    ensures !a.DoWrite? && !b.DoWrite? && !c.DoWrite? ==> WritesOf([a, b, c]) == []
  {
    TwoActions(taxonomy, s, a, b);
    assert [a, b, c][..2] == [a, b];
  }

  lemma {:induction false} RunConcat(taxonomy: map<string, string>, s: Sys, a: seq<Action>, b: seq<Action>)
    ensures Run(taxonomy, s, a + b) == Run(taxonomy, Run(taxonomy, s, a), b)
    ensures WritesOf(a) == [] && WritesOf(b) == [] ==> WritesOf(a + b) == []
  {
    if b == [] {
      assert a + b == a;
    } else {
      assert (a + b)[..|a + b| - 1] == a + b[..|b| - 1];
      RunConcat(taxonomy, s, a, b[..|b| - 1]);
    }
  }

  lemma {:induction false} BatchIsActions(taxonomy: map<string, string>, s: Sys, ids: seq<nat>, n: nat, w: World,
      faults: Relay.Faults) returns (actions: seq<Action>)
    requires n <= |ids| && (forall i :: 0 <= i < |ids| ==> ids[i] < |s.rows|)
    requires s.phase == Busy(ids, 0, [], false) && s.catalog == w.catalog
    ensures WritesOf(actions) == []
    ensures Mirrors(Run(taxonomy, s, actions), ids, n,
                    Relay.DeliverFirst(Relay.StartPass(s.rows, w), 0, ids, n, Projecting(taxonomy), faults))
    ensures |Run(taxonomy, s, actions).rows| == |s.rows|
  {
    if n == 0 {
      actions := [];
    } else {
      var before := BatchIsActions(taxonomy, s, ids, n - 1, w, faults);
      var s1 := Run(taxonomy, s, before);
      var p := Relay.DeliverFirst(Relay.StartPass(s.rows, w), 0, ids, n - 1, Projecting(taxonomy), faults);
      var more := DeliverIsActions(taxonomy, s1, ids, n - 1, p, faults);
      RunConcat(taxonomy, s, before, more);
      actions := before + more;
    }
  }

  /** How a pass ends: with the batch mark, or, once a database call has failed, with nothing. A mark that is
    * reported as failed after it has become durable is a mark. */
  function LastAction(p: Relay.Pass<World, Event>, faults: Relay.Faults): (a: Action)
    ensures !a.DoWrite?
  {
    if p.aborted || (p.delivered != [] && faults.mark && !faults.late) then Crash else MarkBatch
  }

  lemma LastIsAction(taxonomy: map<string, string>, s: Sys, ids: seq<nat>, p: Relay.Pass<World, Event>,
                     faults: Relay.Faults)
    requires Mirrors(s, ids, |ids|, p)
    ensures var s', o := Act(taxonomy, s, LastAction(p, faults)), Relay.FinishPass(p, faults);
            s'.rows == o.rows && s'.catalog == o.d.catalog && s'.phase.Idle?
  {
  }

  /** Refinement: every pass of the relay over the product outbox, complete or broken off by a failing
    * database call, is a run of relay actions of the protocol. What holds of all runs holds of the relay. */
  lemma TickIsRun(taxonomy: map<string, string>, s: Sys, w: World, batch: nat, faults: Relay.Faults)
    returns (actions: seq<Action>)
    requires s.phase.Idle? && s.catalog == w.catalog
    ensures WritesOf(actions) == []
    ensures var o := Relay.TickSource(s.rows, w, 0, batch, Projecting(taxonomy), faults);
            var s' := Run(taxonomy, s, actions);
            s'.rows == o.rows && s'.catalog == o.d.catalog && s'.phase.Idle? && s'.source == s.source
  {
    if faults.fetch {
      actions := [];
    } else {
      actions := PassIsRun(taxonomy, s, w, batch, faults);
    }
    WritelessRunKeepsSource(taxonomy, s, actions);
  }

  lemma PassIsRun(taxonomy: map<string, string>, s: Sys, w: World, batch: nat, faults: Relay.Faults)
    returns (actions: seq<Action>)
    requires s.phase.Idle? && s.catalog == w.catalog
    ensures WritesOf(actions) == []
    ensures var o := Relay.FinishPass(Relay.DeliverBatch(s.rows, w, 0, batch, Projecting(taxonomy), faults), faults);
            var s' := Run(taxonomy, s, actions);
            s'.rows == o.rows && s'.catalog == o.d.catalog && s'.phase.Idle?
  {
    var ids := Fetch(s.rows, batch);
    var s1 := s.(phase := Busy(ids, 0, [], false));
    FetchedAreRows(s.rows, batch);
    var deliveries := BatchIsActions(taxonomy, s1, ids, |ids|, w, faults);
    var s2 := Run(taxonomy, s1, deliveries);
    var p := Relay.DeliverBatch(s.rows, w, 0, batch, Projecting(taxonomy), faults);
    LastIsAction(taxonomy, s2, ids, p, faults);
    actions := Assemble(taxonomy, s, FetchBatch(batch), deliveries, LastAction(p, faults));
  }

  lemma FetchedAreRows(rows: seq<Row<Event>>, batch: nat)
    ensures forall i :: 0 <= i < |Fetch(rows, batch)| ==> Fetch(rows, batch)[i] < |rows|
  {
    FetchMeaning(rows, batch);
    assert forall i :: 0 <= i < |Fetch(rows, batch)| ==> Pending(rows, Fetch(rows, batch)[i]);
  }

  /** One action, some more, and a last one, as one run. */
  lemma Assemble(taxonomy: map<string, string>, s: Sys, first: Action, middle: seq<Action>, last: Action)
    returns (actions: seq<Action>)
    requires !first.DoWrite? && WritesOf(middle) == [] && !last.DoWrite?
    ensures WritesOf(actions) == []
    ensures Run(taxonomy, s, actions) == Act(taxonomy, Run(taxonomy, Act(taxonomy, s, first), middle), last)
  {
    OneAction(taxonomy, s, first);
    RunConcat(taxonomy, s, [first], middle);
    OneAction(taxonomy, Run(taxonomy, s, [first] + middle), last);
    RunConcat(taxonomy, s, [first] + middle, [last]);
    actions := [first] + middle + [last];
  }

  lemma {:induction false} WritelessRunKeepsSource(taxonomy: map<string, string>, s: Sys, actions: seq<Action>)
    requires WritesOf(actions) == []
    ensures Run(taxonomy, s, actions).source == s.source
  {
    if actions != [] {
      WritelessRunKeepsSource(taxonomy, s, actions[..|actions| - 1]);
      ActOnEvents(taxonomy, Run(taxonomy, s, actions[..|actions| - 1]), actions[|actions| - 1]);
    }
  }
}
