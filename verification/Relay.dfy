/** One relay pass over the outboxes (crates/db/src/relay.rs). The dispatcher is any state
  * transformer: its state may hold a catalog, a clock or a script of outages, so a statement made for
  * every dispatcher holds against an adversary. `Faults` says which database calls fail, that is, where
  * the pass leaves early, and whether the failing write had become durable all the same. */
module Relay {
  import opened Prelude
  import opened Outbox

  const MAX_DISPATCH_ATTEMPTS := 10

  type Dispatcher<!S, !E> = (S, nat, E) -> (S, Option<string>)

  /** `late`: the write whose failure ends the pass was committed before its error was reported. */
  datatype Faults = Faults(fetch: bool, record: set<nat>, deadMark: set<nat>, mark: bool, late: bool)

  /** Where a pass over one source stands. `stopped` is the `break` after a transient failure. */
  datatype Pass<S, E> = Pass(rows: seq<Row<E>>, d: S, delivered: seq<nat>, dead: seq<nat>,
                             stopped: bool, aborted: bool)

  function Deliver<S, E>(p: Pass<S, E>, src: nat, id: nat, run: Dispatcher<S, E>, faults: Faults): Pass<S, E> {
    if p.stopped || p.aborted || id >= |p.rows| then p else
    var (d, failure) := run(p.d, src, p.rows[id].event);
    match failure
    case None => p.(d := d, delivered := p.delivered + [id])
    case Some(error) =>
      var rows := RecordFailure(p.rows, id, error);
      if id in faults.record then p.(d := d, rows := if faults.late then rows else p.rows, aborted := true)
      else if rows[id].attempts < MAX_DISPATCH_ATTEMPTS then p.(d := d, rows := rows, stopped := true)
      else if id in faults.deadMark && !faults.late then p.(d := d, rows := rows, aborted := true)
      else p.(d := d, rows := MarkAll(rows, [id]), dead := p.dead + [id], aborted := id in faults.deadMark)
  }

  /** The pass after the first `n` events of the batch. */
  function DeliverFirst<S, E>(start: Pass<S, E>, src: nat, ids: seq<nat>, n: nat, run: Dispatcher<S, E>,
      faults: Faults): Pass<S, E>
    requires n <= |ids|
  {
    if n == 0 then start
    else Deliver(DeliverFirst(start, src, ids, n - 1, run, faults), src, ids[n - 1], run, faults)
  }

  /** What one source looks like after a pass; `done` is false when the pass left early. `count` goes into the
    * total; `silent` events were published by a batch mark that was reported as failed. */
  datatype SourceOutcome<S, E> = SourceOutcome(rows: seq<Row<E>>, d: S, dead: seq<nat>, done: bool, count: nat,
                                               silent: nat)

  function StartPass<S, E>(rows: seq<Row<E>>, d: S): Pass<S, E> {
    Pass(rows, d, [], [], false, false)
  }

  function FinishPass<S, E>(p: Pass<S, E>, faults: Faults): SourceOutcome<S, E> {
    if p.aborted then SourceOutcome(p.rows, p.d, p.dead, false, 0, 0)
    else if p.delivered == [] || !faults.mark then
      SourceOutcome(MarkAll(p.rows, p.delivered), p.d, p.dead, true, |p.delivered|, 0)
    else if faults.late then SourceOutcome(MarkAll(p.rows, p.delivered), p.d, p.dead, false, 0, |p.delivered|)
    else SourceOutcome(p.rows, p.d, p.dead, false, 0, 0)
  }

  /** The whole loop over the batch, before the delivered events are marked. */
  function DeliverBatch<S, E>(rows: seq<Row<E>>, d: S, src: nat, batch: nat, run: Dispatcher<S, E>,
      faults: Faults): Pass<S, E> {
    var ids := Fetch(rows, batch);
    DeliverFirst(StartPass(rows, d), src, ids, |ids|, run, faults)
  }

  function TickSource<S, E>(rows: seq<Row<E>>, d: S, src: nat, batch: nat, run: Dispatcher<S, E>,
      faults: Faults): SourceOutcome<S, E> {
    if faults.fetch then SourceOutcome(rows, d, [], false, 0, 0)
    else FinishPass(DeliverBatch(rows, d, src, batch, run, faults), faults)
  }

  // -----------------------------------------------------------------
  // What a pass keeps while it runs
  // -----------------------------------------------------------------

  /** Every event of the batch seen so far is delivered or dead, never both, and none twice. */
  ghost predicate Handled<S, E>(ids: seq<nat>, n: nat, p: Pass<S, E>)
    requires n <= |ids|
  {
    && Distinct(p.delivered) && Distinct(p.dead)
    && (forall x :: x in p.delivered ==> x in ids[..n] && x !in p.dead)
    && (forall x :: x in p.dead ==> x in ids[..n])
    && (!p.stopped && !p.aborted ==> forall x :: x in ids[..n] ==> x in p.delivered || x in p.dead)
  }

  /** What the table says of event `i` while the pass runs: untouched unless its delivery failed;
    * published early only as a dead letter, and only with ten recorded failures. */
  ghost predicate RowDuring<S, E>(rows: seq<Row<E>>, ids: seq<nat>, n: nat, p: Pass<S, E>, i: nat)
    requires n <= |ids| && i < |rows| == |p.rows|
  {
    && p.rows[i].event == rows[i].event
    && rows[i].attempts <= p.rows[i].attempts
    && (i in p.delivered || i !in ids[..n] ==> p.rows[i] == rows[i])
    && (i in p.dead ==> p.rows[i].published && p.rows[i].attempts >= MAX_DISPATCH_ATTEMPTS)
    && (i !in p.dead ==> p.rows[i].published == rows[i].published)
  }

  /** A pass that stopped early has moved some pending event closer to the limit. */
  ghost predicate Retried<S, E>(rows: seq<Row<E>>, p: Pass<S, E>)
    requires |rows| == |p.rows|
  {
    exists i :: 0 <= i < |rows| && !p.rows[i].published && rows[i].attempts < p.rows[i].attempts < MAX_DISPATCH_ATTEMPTS
  }

  ghost predicate PassInv<S, E>(rows: seq<Row<E>>, ids: seq<nat>, n: nat, p: Pass<S, E>)
    requires n <= |ids|
  {
    && |p.rows| == |rows|
    && Handled(ids, n, p)
    && (forall i :: 0 <= i < |rows| ==> RowDuring(rows, ids, n, p, i))
    && (p.stopped ==> Retried(rows, p))
  }

  lemma DeliverKeepsInv<S, E>(rows: seq<Row<E>>, src: nat, ids: seq<nat>, n: nat, p: Pass<S, E>,
      run: Dispatcher<S, E>, faults: Faults)
    requires n < |ids| && Pending(rows, ids[n]) && ids[n] !in ids[..n]
    requires PassInv(rows, ids, n, p)
    ensures PassInv(rows, ids, n + 1, Deliver(p, src, ids[n], run, faults))
  {
    var id := ids[n];
    var q := Deliver(p, src, id, run, faults);
    assert ids[..n + 1] == ids[..n] + [id];
    assert RowDuring(rows, ids, n, p, id);
    if p.stopped || p.aborted {
      assert q == p;
    } else {
      assert forall i :: 0 <= i < |rows| && i != id ==> q.rows[i] == p.rows[i];
      assert q.stopped ==> rows[id].attempts < q.rows[id].attempts < MAX_DISPATCH_ATTEMPTS && !q.rows[id].published;
    }
    var m := n + 1;
    assert Handled(ids, m, q);
    forall i | 0 <= i < |rows|
      ensures RowDuring(rows, ids, m, q, i)
    {
      assert RowDuring(rows, ids, n, p, i);
    }
  }

  lemma {:induction false} PassKeepsInv<S, E>(rows: seq<Row<E>>, d: S, src: nat, ids: seq<nat>, n: nat,
      run: Dispatcher<S, E>, faults: Faults)
    requires n <= |ids| && forall i :: 0 <= i < |ids| ==> Pending(rows, ids[i])
    requires forall i, j :: 0 <= i < j < |ids| ==> ids[i] < ids[j]
    ensures PassInv(rows, ids, n, DeliverFirst(StartPass(rows, d), src, ids, n, run, faults))
  {
    if n > 0 {
      PassKeepsInv(rows, d, src, ids, n - 1, run, faults);
      DeliverKeepsInv(rows, src, ids, n - 1, DeliverFirst(StartPass(rows, d), src, ids, n - 1, run, faults), run,
          faults);
    }
  }

  // -----------------------------------------------------------------
  // What a completed pass achieves
  // -----------------------------------------------------------------

  ghost function NewlyPublished<E>(rows: seq<Row<E>>, rows': seq<Row<E>>): set<nat>
    requires |rows| == |rows'|
  {
    set id: nat | id < |rows| && !rows[id].published && rows'[id].published
  }

  /** Events are immutable, publishing is permanent and attempts never go back. */
  ghost predicate Grows<E>(rows: seq<Row<E>>, rows': seq<Row<E>>) {
    && |rows'| == |rows|
    && forall i :: 0 <= i < |rows| ==>
                     && rows'[i].event == rows[i].event
                     && (rows[i].published ==> rows'[i].published)
                     && rows[i].attempts <= rows'[i].attempts
  }

  lemma BatchInv<S, E>(rows: seq<Row<E>>, d: S, src: nat, batch: nat, run: Dispatcher<S, E>, faults: Faults)
    ensures IsFetch(rows, batch, Fetch(rows, batch))
    ensures PassInv(rows, Fetch(rows, batch), |Fetch(rows, batch)|, DeliverBatch(rows, d, src, batch, run, faults))
  {
    FetchMeaning(rows, batch);
    PassKeepsInv(rows, d, src, Fetch(rows, batch), |Fetch(rows, batch)|, run, faults);
  }

  /** The delivered events become published, with or without the relay's being told. */
  predicate Marks<S, E>(p: Pass<S, E>, faults: Faults) {
    !p.aborted && (p.delivered == [] || !faults.mark || faults.late)
  }

  /** The final mark touches nothing but the `published` flag of the delivered events. */
  lemma FinishedRows<S, E>(p: Pass<S, E>, faults: Faults)
    ensures var o := FinishPass(p, faults);
            && |o.rows| == |p.rows| && o.dead == p.dead
            && o.count + o.silent == (if Marks(p, faults) then |p.delivered| else 0)
            && (o.done ==> Marks(p, faults) && o.silent == 0)
            && forall i :: 0 <= i < |p.rows| ==>
                             && o.rows[i].event == p.rows[i].event
                             && o.rows[i].attempts == p.rows[i].attempts
                             && (o.rows[i].published <==> p.rows[i].published || (Marks(p, faults) && i in p.delivered))
  {
  }

  /** Nothing is lost, however the pass ends, writes that are durable but reported as failed included: rows
    * only grow; a dead letter has at least ten failures; a pass publishes exactly as many events as it adds to
    * the total, dead-letters, or marks without being told; and unless it was the batch mark that broke it
    * after becoming durable, a broken pass publishes dead letters only. */
  lemma TickAccounting<S, E>(rows: seq<Row<E>>, d: S, src: nat, batch: nat, run: Dispatcher<S, E>, faults: Faults)
    ensures var o := TickSource(rows, d, src, batch, run, faults);
            && Grows(rows, o.rows)
            && (o.done ==> o.silent == 0)
            && (!o.done && o.silent == 0 ==> forall id :: id in NewlyPublished(rows, o.rows) ==> id in o.dead)
            && (forall id :: id in o.dead ==> id < |o.rows| && o.rows[id].attempts >= MAX_DISPATCH_ATTEMPTS)
            && |NewlyPublished(rows, o.rows)| == o.count + o.silent + |o.dead|
  {
    var o := TickSource(rows, d, src, batch, run, faults);
    if faults.fetch {
      assert NewlyPublished(rows, rows) == {};
    } else {
      BatchInv(rows, d, src, batch, run, faults);
      PassAccounting(rows, Fetch(rows, batch), DeliverBatch(rows, d, src, batch, run, faults), faults);
    }
  }

  /** One row across a whole pass. */
  lemma RowAcrossPass<S, E>(rows: seq<Row<E>>, ids: seq<nat>, p: Pass<S, E>, faults: Faults, i: nat)
    requires PassInv(rows, ids, |ids|, p) && (forall k :: 0 <= k < |ids| ==> Pending(rows, ids[k])) && i < |rows|
    ensures var o := FinishPass(p, faults);
            && |o.rows| == |rows|
            && o.rows[i].event == rows[i].event
            && rows[i].attempts <= o.rows[i].attempts
            && (i in p.dead ==> o.rows[i].attempts >= MAX_DISPATCH_ATTEMPTS)
            && (o.rows[i].published <==> rows[i].published || i in p.dead || (Marks(p, faults) && i in p.delivered))
            && (rows[i].published ==> i !in p.dead && i !in p.delivered)
  {
    FinishedRows(p, faults);
    assert ids[..|ids|] == ids;
    assert RowDuring(rows, ids, |ids|, p, i);
  }

  /** Which rows a pass publishes, row by row. */
  ghost predicate Publishes<E>(rows: seq<Row<E>>, rows': seq<Row<E>>, ids: seq<nat>) {
    && |rows'| == |rows|
    && (forall id :: id in ids ==> id < |rows| && !rows[id].published)
    && (forall i :: 0 <= i < |rows| ==> (rows'[i].published <==> rows[i].published || i in ids))
  }

  lemma PublishedCount<E>(rows: seq<Row<E>>, rows': seq<Row<E>>, ids: seq<nat>)
    requires Publishes(rows, rows', ids) && Distinct(ids)
    ensures NewlyPublished(rows, rows') == Elements(ids) && |NewlyPublished(rows, rows')| == |ids|
  {
    assert NewlyPublished(rows, rows') == Elements(ids);
    DistinctCardinality(ids);
  }

  lemma PassPublishes<S, E>(rows: seq<Row<E>>, ids: seq<nat>, p: Pass<S, E>, faults: Faults)
    requires PassInv(rows, ids, |ids|, p) && forall i :: 0 <= i < |ids| ==> Pending(rows, ids[i])
    ensures var o := FinishPass(p, faults);
            && Grows(rows, o.rows)
            && (forall id :: id in o.dead ==> id < |o.rows| && o.rows[id].attempts >= MAX_DISPATCH_ATTEMPTS)
            && Publishes(rows, o.rows, if Marks(p, faults) then p.delivered + p.dead else p.dead)
  {
    var o := FinishPass(p, faults);
    assert ids[..|ids|] == ids;
    forall i: nat | i < |rows|
      ensures o.rows[i].event == rows[i].event && rows[i].attempts <= o.rows[i].attempts
      ensures i in p.dead ==> o.rows[i].attempts >= MAX_DISPATCH_ATTEMPTS
      ensures o.rows[i].published <==> rows[i].published || i in p.dead || (Marks(p, faults) && i in p.delivered)
      ensures rows[i].published ==> i !in p.dead && i !in p.delivered
    {
      RowAcrossPass(rows, ids, p, faults, i);
    }
  }

  lemma PassAccounting<S, E>(rows: seq<Row<E>>, ids: seq<nat>, p: Pass<S, E>, faults: Faults)
    requires PassInv(rows, ids, |ids|, p) && forall i :: 0 <= i < |ids| ==> Pending(rows, ids[i])
    ensures var o := FinishPass(p, faults);
            && Grows(rows, o.rows)
            && (o.done ==> o.silent == 0)
            && (!o.done && o.silent == 0 ==> forall id :: id in NewlyPublished(rows, o.rows) ==> id in o.dead)
            && (forall id :: id in o.dead ==> id < |o.rows| && o.rows[id].attempts >= MAX_DISPATCH_ATTEMPTS)
            && |NewlyPublished(rows, o.rows)| == o.count + o.silent + |o.dead|
  {
    var o := FinishPass(p, faults);
    PassPublishes(rows, ids, p, faults);
    HandledIds(ids, p);
    FinishedRows(p, faults);
    PublishedCount(rows, o.rows, if Marks(p, faults) then p.delivered + p.dead else p.dead);
  }

  lemma HandledIds<S, E>(ids: seq<nat>, p: Pass<S, E>)
    requires Handled(ids, |ids|, p)
    ensures Distinct(p.dead) && Distinct(p.delivered + p.dead)
  {
    var all := p.delivered + p.dead;
    forall i, j | 0 <= i < j < |all|
      ensures all[i] != all[j]
    {
      assert i < |p.delivered| ==> all[i] in p.delivered;
      assert j >= |p.delivered| ==> all[j] in p.dead;
    }
  }

  // -----------------------------------------------------------------
  // The drain bound
  // -----------------------------------------------------------------

  function RowWeight<E>(row: Row<E>): nat {
    if row.published then 0 else Max(1, MAX_DISPATCH_ATTEMPTS - row.attempts)
  }

  /** The sum over the unpublished events of `max(1, 10 - attempts)`. */
  function Weight<E>(rows: seq<Row<E>>): nat {
    if rows == [] then 0 else Weight(rows[..|rows| - 1]) + RowWeight(rows[|rows| - 1])
  }

  lemma {:induction false} WeightOrder<E>(rows: seq<Row<E>>, rows': seq<Row<E>>)
    requires |rows| == |rows'| && forall i :: 0 <= i < |rows| ==> RowWeight(rows'[i]) <= RowWeight(rows[i])
    ensures Weight(rows') <= Weight(rows)
    ensures (exists i :: 0 <= i < |rows| && RowWeight(rows'[i]) < RowWeight(rows[i])) ==> Weight(rows') < Weight(rows)
  {
    if rows != [] {
      var n := |rows| - 1;
      WeightOrder(rows[..n], rows'[..n]);
      if i :| 0 <= i < |rows| && RowWeight(rows'[i]) < RowWeight(rows[i]) {
        if i < n {
          assert RowWeight(rows'[..n][i]) < RowWeight(rows[..n][i]);
        }
      }
    }
  }

  lemma {:induction false} PendingWeighs<E>(rows: seq<Row<E>>, id: nat)
    requires Pending(rows, id)
    ensures Weight(rows) >= 1
  {
    if id < |rows| - 1 {
      PendingWeighs(rows[..|rows| - 1], id);
    }
  }

  lemma {:induction false} FreshWeight<E>(rows: seq<Row<E>>)
    requires forall i :: 0 <= i < |rows| ==> !rows[i].published && rows[i].attempts == 0
    ensures Weight(rows) == MAX_DISPATCH_ATTEMPTS * |rows|
  {
    if rows != [] {
      FreshWeight(rows[..|rows| - 1]);
    }
  }

  /** Whatever the dispatcher answers, a pass never adds weight, and a completed pass over a queue
    * that is not empty takes some away. */
  lemma TickLowersWeight<S, E>(rows: seq<Row<E>>, d: S, src: nat, batch: nat, run: Dispatcher<S, E>, faults: Faults)
    ensures var o := TickSource(rows, d, src, batch, run, faults);
            && Weight(o.rows) <= Weight(rows)
            && (o.done && batch >= 1 && (exists id :: Pending(rows, id)) ==> Weight(o.rows) < Weight(rows))
  {
    var o := TickSource(rows, d, src, batch, run, faults);
    TickAccounting(rows, d, src, batch, run, faults);
    WeightOrder(rows, o.rows);
    if o.done && batch >= 1 && exists id :: Pending(rows, id) {
      BatchInv(rows, d, src, batch, run, faults);
      var ids := Fetch(rows, batch);
      assert ids != [];
      var i := PassLightensOne(rows, ids, DeliverBatch(rows, d, src, batch, run, faults), faults);
    }
  }

  lemma PassLightensOne<S, E>(rows: seq<Row<E>>, ids: seq<nat>, p: Pass<S, E>, faults: Faults) returns (i: nat)
    requires PassInv(rows, ids, |ids|, p) && forall i :: 0 <= i < |ids| ==> Pending(rows, ids[i])
    requires ids != [] && FinishPass(p, faults).done
    ensures i < |rows| == |FinishPass(p, faults).rows|
    ensures RowWeight(FinishPass(p, faults).rows[i]) < RowWeight(rows[i])
  {
    FinishedRows(p, faults);
    assert ids[..|ids|] == ids;
    if p.stopped {
      i :| 0 <= i < |rows| && !p.rows[i].published && rows[i].attempts < p.rows[i].attempts < MAX_DISPATCH_ATTEMPTS;
    } else {
      i := ids[0];
    }
    assert RowDuring(rows, ids, |ids|, p, i);
  }

  datatype Progress<S, E> = Progress(rows: seq<Row<E>>, d: S, completed: nat)

  /** The passes of a schedule, one after another: pass `k` suffers the faults `schedule[k]`. */
  function Passes<S, E>(rows: seq<Row<E>>, d: S, src: nat, batch: nat, run: Dispatcher<S, E>,
      schedule: seq<Faults>): Progress<S, E>
    decreases |schedule|
  {
    if schedule == [] then Progress(rows, d, 0) else
    var before := Passes(rows, d, src, batch, run, schedule[..|schedule| - 1]);
    var o := TickSource(before.rows, before.d, src, batch, run, schedule[|schedule| - 1]);
    Progress(o.rows, o.d, before.completed + if o.done then 1 else 0)
  }

  lemma {:induction false} CompletedPassesDrain<S, E>(rows: seq<Row<E>>, d: S, src: nat, batch: nat,
      run: Dispatcher<S, E>, schedule: seq<Faults>)
    requires batch >= 1
    ensures var after := Passes(rows, d, src, batch, run, schedule);
            (exists id :: Pending(after.rows, id)) ==> after.completed + Weight(after.rows) <= Weight(rows)
    decreases |schedule|
  {
    if schedule != [] {
      var before := Passes(rows, d, src, batch, run, schedule[..|schedule| - 1]);
      var faults := schedule[|schedule| - 1];
      var o := TickSource(before.rows, before.d, src, batch, run, faults);
      CompletedPassesDrain(rows, d, src, batch, run, schedule[..|schedule| - 1]);
      TickAccounting(before.rows, before.d, src, batch, run, faults);
      TickLowersWeight(before.rows, before.d, src, batch, run, faults);
      if id :| Pending(o.rows, id) {
        assert Pending(before.rows, id);
      }
    }
  }

  /** The drain bound: with no new events, once as many passes have completed as ten per fresh event,
    * nothing is pending, whatever the dispatcher does and however many other passes broke off. */
  lemma FreshEventsDrain<S, E>(rows: seq<Row<E>>, d: S, src: nat, batch: nat, run: Dispatcher<S, E>,
      schedule: seq<Faults>)
    requires batch >= 1
    requires forall i :: 0 <= i < |rows| ==> !rows[i].published && rows[i].attempts == 0
    requires Passes(rows, d, src, batch, run, schedule).completed >= MAX_DISPATCH_ATTEMPTS * |rows|
    ensures forall id: nat :: !Pending(Passes(rows, d, src, batch, run, schedule).rows, id)
  {
    var after := Passes(rows, d, src, batch, run, schedule);
    FreshWeight(rows);
    CompletedPassesDrain(rows, d, src, batch, run, schedule);
    forall id: nat
      ensures !Pending(after.rows, id)
    {
      if Pending(after.rows, id) {
        PendingWeighs(after.rows, id);
        assert false;
      }
    }
  }

  // -----------------------------------------------------------------
  // Ten attempts
  // -----------------------------------------------------------------

  const NO_FAULTS := Faults(false, {}, {}, false, false)

  /** `rows` as they were, but for `n` more failures of event `k`. */
  ghost predicate FailedTimes<E>(rows: seq<Row<E>>, k: nat, n: nat, rows': seq<Row<E>>) {
    && k < |rows| == |rows'| && rows'[k].event == rows[k].event && rows'[k].attempts == rows[k].attempts + n
    && (forall i :: 0 <= i < |rows| && i != k ==> rows'[i] == rows[i])
  }

  lemma FetchStartsAt<E>(rows: seq<Row<E>>, k: nat, batch: nat)
    requires Pending(rows, k) && (forall i :: 0 <= i < k ==> rows[i].published) && batch >= 1
    ensures var ids := Fetch(rows, batch);
            ids != [] && ids[0] == k && forall i :: 0 < i < |ids| ==> ids[i] != k
  {
    FetchMeaning(rows, batch);
    var ids := Fetch(rows, batch);
    assert forall i :: 0 <= i < |ids| ==> Pending(rows, ids[i]) && k <= ids[i];
    assert |ids| == batch ==> k <= ids[0];
    assert k in ids;
  }

  /** One pass over a queue whose first event fails: with less than nine failures before, the event stays pending
    * with one failure more, and no other row is touched; after nine, it is dead. */
  lemma FailingPass<S, E>(rows: seq<Row<E>>, d: S, src: nat, batch: nat, run: Dispatcher<S, E>, k: nat)
    requires Pending(rows, k) && (forall i :: 0 <= i < k ==> rows[i].published) && batch >= 1
    requires forall d :: run(d, src, rows[k].event).1.Some?
    ensures var o := TickSource(rows, d, src, batch, run, NO_FAULTS);
            if rows[k].attempts < 9 then
              FailedTimes(rows, k, 1, o.rows) && !o.rows[k].published && o.dead == []
            else
              |o.rows| == |rows| && o.rows[k].published && o.rows[k].attempts == rows[k].attempts + 1 && k in o.dead
  {
    var ids := Fetch(rows, batch);
    var start := StartPass<S, E>(rows, d);
    FetchStartsAt(rows, k, batch);
    var first := DeliverFirst(start, src, ids, 1, run, NO_FAULTS);
    assert DeliverFirst(start, src, ids, 0, run, NO_FAULTS) == start;
    if rows[k].attempts < 9 {
      BrokenPassStays(start, src, ids, 1, |ids|, run, NO_FAULTS);
      assert MarkAll(first.rows, []) == first.rows;
    } else {
      DeadStaysAsItIs(start, src, ids, |ids|, run, k);
      FinishedRows(DeliverBatch(rows, d, src, batch, run, NO_FAULTS), NO_FAULTS);
    }
  }

  /** The rest of the pass leaves an event alone that has just been dead-lettered. */
  lemma {:induction false} DeadStaysAsItIs<S, E>(start: Pass<S, E>, src: nat, ids: seq<nat>, n: nat,
                                                 run: Dispatcher<S, E>, k: nat)
    requires 1 <= n <= |ids| && ids[0] == k && (forall i :: 0 < i < |ids| ==> ids[i] != k)
    requires k < |start.rows| && start.rows[k].attempts >= 9 && start.dead == [] && !start.stopped && !start.aborted
    requires run(start.d, src, start.rows[k].event).1.Some?
    ensures var p := DeliverFirst(start, src, ids, n, run, NO_FAULTS);
            && |p.rows| == |start.rows| && k in p.dead && p.rows[k].published
            && p.rows[k].attempts == start.rows[k].attempts + 1
  {
    if n == 1 {
      assert DeliverFirst(start, src, ids, 0, run, NO_FAULTS) == start;
    } else {
      DeadStaysAsItIs(start, src, ids, n - 1, run, k);
    }
  }

  /** `rows'` is what `n` failing passes make of `rows`. */
  ghost predicate Attempted<E>(rows: seq<Row<E>>, k: nat, n: nat, rows': seq<Row<E>>) {
    && k < |rows| == |rows'| && rows'[k].attempts == n
    && (n <= 9 ==> FailedTimes(rows, k, n, rows') && !rows'[k].published)
    && (n == 10 ==> rows'[k].published)
  }

  lemma NextAttempt<S, E>(rows: seq<Row<E>>, k: nat, n: nat, mid: seq<Row<E>>, d: S, src: nat, batch: nat,
                          run: Dispatcher<S, E>)
    requires Pending(rows, k) && (forall i :: 0 <= i < k ==> rows[i].published) && rows[k].attempts == 0
    requires batch >= 1 && n <= 9 && Attempted(rows, k, n, mid) && forall d :: run(d, src, rows[k].event).1.Some?
    ensures Attempted(rows, k, n + 1, TickSource(mid, d, src, batch, run, NO_FAULTS).rows)
  {
    FailingPass(mid, d, src, batch, run, k);
  }

  /** Ten attempts: an event at the head of the queue whose delivery always fails is still pending after nine
    * passes, with nine failures, and published as a dead letter by the tenth. */
  lemma TenAttempts<S, E>(rows: seq<Row<E>>, d: S, src: nat, batch: nat, run: Dispatcher<S, E>,
                          k: nat, n: nat)
    requires Pending(rows, k) && (forall i :: 0 <= i < k ==> rows[i].published) && batch >= 1
    requires rows[k].attempts == 0 && n <= 10 && forall d :: run(d, src, rows[k].event).1.Some?
    ensures var after := Passes(rows, d, src, batch, run, seq(n, _ => NO_FAULTS)).rows;
            && |after| == |rows| && after[k].attempts == n
            && (n <= 9 ==> FailedTimes(rows, k, n, after) && !after[k].published)
            && (n == 10 ==> after[k].published)
  {
    AttemptedTimes(rows, d, src, batch, run, k, n);
  }

  lemma {:induction false} AttemptedTimes<S, E>(rows: seq<Row<E>>, d: S, src: nat, batch: nat, run: Dispatcher<S, E>,
                                                k: nat, n: nat)
    requires Pending(rows, k) && (forall i :: 0 <= i < k ==> rows[i].published) && batch >= 1
    requires rows[k].attempts == 0 && n <= 10 && forall d :: run(d, src, rows[k].event).1.Some?
    ensures Attempted(rows, k, n, Passes(rows, d, src, batch, run, seq(n, _ => NO_FAULTS)).rows)
  {
    if n > 0 {
      AttemptedTimes(rows, d, src, batch, run, k, n - 1);
      var before := Passes(rows, d, src, batch, run, seq(n - 1, _ => NO_FAULTS));
      assert seq(n, _ => NO_FAULTS)[..n - 1] == seq(n - 1, _ => NO_FAULTS);
      NextAttempt(rows, k, n - 1, before.rows, before.d, src, batch, run);
    }
  }

  // -----------------------------------------------------------------
  // The relay itself
  // -----------------------------------------------------------------

  ghost predicate Hold<E>(sources: seq<OutboxTable<E>>, tables: seq<seq<Row<E>>>)
    reads sources
  {
    |tables| == |sources| && forall i :: 0 <= i < |sources| ==> sources[i].rows == tables[i]
  }

  datatype TickOutcome<S, E> = TickOutcome(tables: seq<seq<Row<E>>>, d: S, done: bool, total: nat, silent: nat)

  /** What happens to source `k`, given its table and the dispatcher. */
  type SourcePass<!S, !E> = (nat, seq<Row<E>>, S) -> SourceOutcome<S, E>

  function PassOver<S, E>(batch: nat, run: Dispatcher<S, E>, faults: seq<Faults>): SourcePass<S, E> {
    (k: nat, rows, d) =>
      if k < |faults| then TickSource(rows, d, k, batch, run, faults[k]) else SourceOutcome(rows, d, [], false, 0, 0)
  }

  function NextSource<S, E>(t: TickOutcome<S, E>, k: nat, pass: SourcePass<S, E>): TickOutcome<S, E>
    requires k < |t.tables|
  {
    if !t.done then t else
    var o := pass(k, t.tables[k], t.d);
    TickOutcome(t.tables[k := o.rows], o.d, o.done, t.total + o.count, t.silent + o.silent)
  }

  /** The first `n` sources of a tick, in order; the first early exit ends the tick. */
  function TickSources<S, E>(tables: seq<seq<Row<E>>>, d: S, pass: SourcePass<S, E>, n: nat): (t: TickOutcome<S, E>)
    requires n <= |tables|
    ensures |t.tables| == |tables|
  {
    if n == 0 then TickOutcome(tables, d, true, 0, 0)
    else NextSource(TickSources(tables, d, pass, n - 1), n - 1, pass)
  }

  lemma {:induction false} EarlyExitEndsTick<S, E>(tables: seq<seq<Row<E>>>, d: S, pass: SourcePass<S, E>, k: nat,
      n: nat)
    requires k <= n <= |tables| && (k == n || !TickSources(tables, d, pass, k).done)
    ensures TickSources(tables, d, pass, n) == TickSources(tables, d, pass, k)
  {
    if k < n {
      EarlyExitEndsTick(tables, d, pass, k, n - 1);
    }
  }

  /** How many events a tick has newly published in its first `n` sources. */
  ghost function NewlyPublishedIn<E>(tables: seq<seq<Row<E>>>, tables': seq<seq<Row<E>>>, n: nat): nat
    requires n <= |tables| == |tables'| && forall k :: 0 <= k < n ==> |tables[k]| == |tables'[k]|
  {
    if n == 0 then 0 else NewlyPublishedIn(tables, tables', n - 1) + |NewlyPublished(tables[n - 1], tables'[n - 1])|
  }

  /** How many events the first `n` sources of a tick dead-letter; a source that is not reached has none. */
  function DeadLetters<S, E>(tables: seq<seq<Row<E>>>, d: S, pass: SourcePass<S, E>, n: nat): nat
    requires n <= |tables|
  {
    if n == 0 then 0 else
    var t := TickSources(tables, d, pass, n - 1);
    DeadLetters(tables, d, pass, n - 1) + if t.done then |pass(n - 1, t.tables[n - 1], t.d).dead| else 0
  }

  lemma {:induction false} NewlyPublishedSame<E>(tables: seq<seq<Row<E>>>, a: seq<seq<Row<E>>>, b: seq<seq<Row<E>>>,
      n: nat)
    requires n <= |tables| == |a| == |b|
    requires forall k :: 0 <= k < n ==> a[k] == b[k] && |tables[k]| == |a[k]|
    ensures NewlyPublishedIn(tables, a, n) == NewlyPublishedIn(tables, b, n)
  {
    if n > 0 {
      NewlyPublishedSame(tables, a, b, n - 1);
    }
  }

  ghost predicate Accounts<S, E>(rows: seq<Row<E>>, o: SourceOutcome<S, E>) {
    Grows(rows, o.rows) && |NewlyPublished(rows, o.rows)| == o.count + o.silent + |o.dead| && (o.done ==> o.silent == 0)
  }

  /** After `n` sources: every source reached has only grown, the others are as they were, and the newly
    * published events number the total plus the dead letters, plus, if the tick broke off at a batch mark that
    * was durable all the same, the events of that mark. */
  ghost predicate Accounted<S, E>(tables: seq<seq<Row<E>>>, d: S, pass: SourcePass<S, E>, n: nat)
    requires n <= |tables|
  {
    var t := TickSources(tables, d, pass, n);
    && (forall k :: 0 <= k < n ==> Grows(tables[k], t.tables[k]))
    && (forall k :: n <= k < |tables| ==> t.tables[k] == tables[k])
    && (t.done ==> t.silent == 0)
    && NewlyPublishedIn(tables, t.tables, n) == t.total + t.silent + DeadLetters(tables, d, pass, n)
  }

  lemma AccountedNext<S, E>(tables: seq<seq<Row<E>>>, d: S, pass: SourcePass<S, E>, n: nat)
    requires n < |tables| && Accounted(tables, d, pass, n)
    requires var t := TickSources(tables, d, pass, n); t.done ==> Accounts(tables[n], pass(n, tables[n], t.d))
    ensures Accounted(tables, d, pass, n + 1)
  {
    var before, t := TickSources(tables, d, pass, n), TickSources(tables, d, pass, n + 1);
    NewlyPublishedSame(tables, before.tables, t.tables, n);
    if !before.done {
      assert NewlyPublished(tables[n], tables[n]) == {};
    }
  }

  lemma PassAccounts<S, E>(rows: seq<Row<E>>, d: S, k: nat, batch: nat, run: Dispatcher<S, E>, faults: seq<Faults>)
    requires k < |faults|
    ensures Accounts(rows, PassOver(batch, run, faults)(k, rows, d))
  {
    TickAccounting(rows, d, k, batch, run, faults[k]);
  }

  /** Nothing is lost over all sources, however the tick ends. */
  lemma {:induction false} TickTotals<S, E>(tables: seq<seq<Row<E>>>, d: S, batch: nat, run: Dispatcher<S, E>,
                                            faults: seq<Faults>, n: nat)
    requires n <= |tables| == |faults|
    ensures Accounted(tables, d, PassOver(batch, run, faults), n)
  {
    if n > 0 {
      var before := TickSources(tables, d, PassOver(batch, run, faults), n - 1);
      TickTotals(tables, d, batch, run, faults, n - 1);
      PassAccounts(tables[n - 1], before.d, n - 1, batch, run, faults);
      AccountedNext(tables, d, PassOver(batch, run, faults), n - 1);
    }
  }

  lemma {:induction false} BrokenPassStays<S, E>(start: Pass<S, E>, src: nat, ids: seq<nat>, k: nat, n: nat,
      run: Dispatcher<S, E>, faults: Faults)
    requires k <= n <= |ids|
    requires k == n || var p := DeliverFirst(start, src, ids, k, run, faults); p.stopped || p.aborted
    ensures DeliverFirst(start, src, ids, n, run, faults) == DeliverFirst(start, src, ids, k, run, faults)
  {
    if k < n {
      BrokenPassStays(start, src, ids, k, n - 1, run, faults);
    }
  }

  /** One event of the batch; `stop` is the `break`, `abort` an early return. */
  method DispatchOne<S, E>(source: OutboxTable<E>, src: nat, id: nat, delivered0: seq<nat>, d0: S,
      run: Dispatcher<S, E>, faults: Faults, ghost p: Pass<S, E>)
    returns (delivered: seq<nat>, stop: bool, abort: bool, d: S, ghost q: Pass<S, E>)
    requires id < |source.rows|
    requires p.rows == source.rows && p.d == d0 && p.delivered == delivered0 && !p.stopped && !p.aborted
    modifies source
    ensures q == Deliver(p, src, id, run, faults)
    ensures |source.rows| == old(|source.rows|)
    ensures source.rows == q.rows && delivered == q.delivered && d == q.d && stop == q.stopped && abort == q.aborted
  {
    delivered, stop, abort := delivered0, false, false;
    q := Deliver(p, src, id, run, faults);
    var (d', failure) := run(d0, src, source.rows[id].event);
    d := d';
    if failure.None? {
      delivered := delivered + [id];
    } else if id in faults.record {
      if faults.late {
        var attempts := source.RecordFailureAt(id, failure.value);
      }
      abort := true;
    } else {
      var attempts := source.RecordFailureAt(id, failure.value);
      if attempts >= MAX_DISPATCH_ATTEMPTS {
        abort := id in faults.deadMark;
        if !abort || faults.late {
          source.MarkPublished([id]);
        }
      } else {
        stop := true;
      }
    }
  }

  /** The loop over the fetched events. */
  method DispatchBatch<S, E>(source: OutboxTable<E>, src: nat, events: seq<nat>, d0: S, run: Dispatcher<S, E>,
      faults: Faults)
    returns (delivered: seq<nat>, abort: bool, d: S)
    requires forall i :: 0 <= i < |events| ==> events[i] < |source.rows|
    modifies source
    ensures var p := DeliverFirst(StartPass(old(source.rows), d0), src, events, |events|, run, faults);
            source.rows == p.rows && delivered == p.delivered && abort == p.aborted && d == p.d
  {
    delivered, abort, d := [], false, d0;
    var stop, i := false, 0;
    ghost var start := StartPass<S, E>(source.rows, d0);
    ghost var p := start;
    while i < |events| && !stop && !abort
      invariant i <= |events| && |source.rows| == |start.rows|
      invariant p == DeliverFirst(start, src, events, i, run, faults)
      invariant source.rows == p.rows && delivered == p.delivered && d == p.d && stop == p.stopped && abort == p.aborted
    {
      delivered, stop, abort, d, p := DispatchOne(source, src, events[i], delivered, d, run, faults, p);
      i := i + 1;
    }
    BrokenPassStays(start, src, events, i, |events|, run, faults);
  }

  /** The body of the loop over the sources. */
  method DrainSource<S, E>(source: OutboxTable<E>, src: nat, d0: S, batch: nat, run: Dispatcher<S, E>, faults: Faults)
    returns (done: bool, count: nat, d: S)
    modifies source
    ensures var o := TickSource(old(source.rows), d0, src, batch, run, faults);
            source.rows == o.rows && d == o.d && done == o.done && count == o.count
  {
    if faults.fetch {
      return false, 0, d0;
    }
    var events := source.FetchUnpublished(batch);
    var delivered, abort;
    delivered, abort, d := DispatchBatch(source, src, events, d0, run, faults);
    if abort {
      return false, 0, d;
    }
    if delivered != [] {
      if !faults.mark || faults.late {
        source.MarkPublished(delivered);
      }
      if faults.mark {
        return false, 0, d;
      }
    } else {
      assert MarkAll(source.rows, delivered) == source.rows;
    }
    done, count := true, |delivered|;
  }

  /** Source `k` of several: the other tables stay as they are. */
  method DrainNth<S, E>(sources: seq<OutboxTable<E>>, k: nat, sum0: nat, d0: S, batch: nat, run: Dispatcher<S, E>,
      faults: seq<Faults>,
                        ghost t0: TickOutcome<S, E>)
    returns (done: bool, sum: nat, d: S, ghost t: TickOutcome<S, E>)
    requires Distinct(sources) && k < |sources| == |faults|
    requires Hold(sources, t0.tables) && t0.done && sum0 == t0.total && d0 == t0.d
    modifies sources[k]
    ensures t == NextSource(t0, k, PassOver(batch, run, faults))
    ensures Hold(sources, t.tables) && done == t.done && sum == t.total && d == t.d
  {
    t := NextSource(t0, k, PassOver(batch, run, faults));
    var count;
    done, count, d := DrainSource(sources[k], k, d0, batch, run, faults[k]);
    sum := sum0 + count;
  }

  /** `None` is an early return with an error. `tables` are the tables the sources hold before. */
  method RelayTick<S, E>(sources: seq<OutboxTable<E>>, ghost tables: seq<seq<Row<E>>>, d0: S, batch: nat,
      run: Dispatcher<S, E>, faults: seq<Faults>)
    returns (total: Option<nat>, d: S)
    requires Distinct(sources) && Hold(sources, tables) && |faults| == |sources|
    modifies sources
    ensures var t := TickSources(tables, d0, PassOver(batch, run, faults), |sources|);
            && Hold(sources, t.tables) && d == t.d && total == (if t.done then Some(t.total) else None)
            && (forall k :: 0 <= k < |tables| ==> Grows(tables[k], t.tables[k]))
            && (total.Some? ==> NewlyPublishedIn(tables, t.tables, |tables|)
                                == total.value + DeadLetters(tables, d0, PassOver(batch, run, faults), |tables|))
  {
    d := d0;
    var sum, done, k := 0, true, 0;
    ghost var pass := PassOver(batch, run, faults);
    ghost var t := TickOutcome(tables, d0, true, 0, 0);
    while k < |sources| && done
      invariant k <= |sources|
      invariant t == TickSources(tables, d0, pass, k)
      invariant t.done == done && t.total == sum && d == t.d && Hold(sources, t.tables)
    {
      done, sum, d, t := DrainNth(sources, k, sum, d, batch, run, faults, t);
      k := k + 1;
    }
    EarlyExitEndsTick(tables, d0, pass, k, |sources|);
    total := if done then Some(sum) else None;
    TickTotals(tables, d0, batch, run, faults, |tables|);
  }
}
