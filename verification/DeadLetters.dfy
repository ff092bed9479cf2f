/** What a dead letter costs. An event that has failed ten times is skipped for good. Under slug ownership only
  * the product it belongs to can suffer, and unless it was applied before it died the catalog ends up exactly
  * as if it had never been written. */
module DeadLetters {
  import opened Prelude
  import opened Projection
  import opened Products
  import opened Outbox
  import opened Histories
  import opened Protocol
  import opened Replication
  import opened Views

  // -----------------------------------------------------------------
  // The queue, dead letters included
  // -----------------------------------------------------------------

  /** The events up to `done` are published; beyond it only dead letters are. */
  ghost predicate Frontier(s: Sys, done: nat) {
    && done <= |s.rows|
    && (forall i :: 0 <= i < done ==> s.rows[i].published)
    && (forall i :: done <= i < |s.rows| && s.rows[i].published ==> i in s.dead)
    && (forall i :: i in s.dead ==> i < |s.rows| && s.rows[i].published)
  }

  /** Everything between `done` and the batch's event `i` is dead or comes earlier in the batch. */
  ghost predicate NoGap(batch: seq<nat>, dead: set<nat>, done: nat, i: nat)
    requires i < |batch|
  {
    forall id :: done <= id < batch[i] ==> id in dead || Earlier(batch, i, id)
  }

  /** A batch from a table of `size` events, of which the first `pos` have been delivered or are dead. */
  ghost predicate BatchStands(batch: seq<nat>, pos: nat, delivered: seq<nat>, dead: set<nat>, size: nat, done: nat) {
    && pos <= |batch|
    && (forall i :: 0 <= i < |batch| ==> done <= batch[i] < size && NoGap(batch, dead, done, i))
    && (forall i, j :: 0 <= i < j < |batch| ==> batch[i] < batch[j])
    && (forall i :: 0 <= i < pos ==> batch[i] in delivered || batch[i] in dead)
    && (forall id :: id in delivered ==> id in batch[..pos])
  }

  ghost predicate PhaseStands(s: Sys, done: nat)
    requires s.phase.Busy?
  {
    && BatchStands(s.phase.batch, s.phase.pos, s.phase.delivered, s.dead, |s.rows|, done)
    && (s.phase.doomed ==> s.phase.pos < |s.phase.batch|)
  }

  ghost predicate Stands(s: Sys, done: nat) {
    Frontier(s, done) && (s.phase.Busy? ==> PhaseStands(s, done))
  }

  /** The table grows, events die. */
  lemma BatchOutlives(batch: seq<nat>, pos: nat, delivered: seq<nat>, dead: set<nat>, size: nat, done: nat,
                      dead': set<nat>, size': nat)
    requires BatchStands(batch, pos, delivered, dead, size, done) && dead <= dead' && size <= size'
    ensures BatchStands(batch, pos, delivered, dead', size', done)
  {
    forall i | 0 <= i < |batch|
      ensures NoGap(batch, dead', done, i)
    {
      assert NoGap(batch, dead, done, i);
    }
  }

  /** One more event is delivered or dead. */
  lemma BatchAdvances(batch: seq<nat>, pos: nat, delivered: seq<nat>, dead: set<nat>, size: nat, done: nat,
                      delivered': seq<nat>)
    requires BatchStands(batch, pos, delivered, dead, size, done) && pos < |batch|
    requires delivered' == delivered + [batch[pos]] || (delivered' == delivered && batch[pos] in dead)
    ensures BatchStands(batch, pos + 1, delivered', dead, size, done)
  {
    assert batch[..pos + 1] == batch[..pos] + [batch[pos]];
  }

  /** The rest of the batch is given up. */
  lemma BatchStops(batch: seq<nat>, pos: nat, delivered: seq<nat>, dead: set<nat>, size: nat, done: nat)
    requires BatchStands(batch, pos, delivered, dead, size, done)
    ensures BatchStands(batch[..pos], pos, delivered, dead, size, done)
  {
    assert batch[..pos][..pos] == batch[..pos];
    forall i | 0 <= i < pos
      ensures NoGap(batch[..pos], dead, done, i)
    {
      assert NoGap(batch, dead, done, i);
      forall id | done <= id < batch[i] && id !in dead
        ensures Earlier(batch[..pos], i, id)
      {
        var k :| 0 <= k < i && batch[k] == id;
        assert batch[..pos][k] == id;
      }
    }
  }

  /** The event that would be dispatched next, or the one after the batch. */
  function NextId(s: Sys, done: nat): int {
    if s.phase.Idle? || s.phase.batch == [] then done
    else if s.phase.pos < |s.phase.batch| then s.phase.batch[s.phase.pos]
    else s.phase.batch[|s.phase.batch| - 1] + 1
  }

  /** Where the frontier is after an action: only the batch mark moves it. */
  function NextDone(s: Sys, a: Action, done: nat): int {
    if a.MarkBatch? && s.phase.Busy? && !s.phase.doomed && s.phase.pos == |s.phase.batch| then NextId(s, done) else done
  }

  lemma WriteStands(taxonomy: map<string, string>, s: Sys, w: Write, done: nat)
    requires Stands(s, done)
    ensures Stands(Act(taxonomy, s, DoWrite(w)), done)
  {
    var s' := Act(taxonomy, s, DoWrite(w));
    assert forall i :: 0 <= i < |s.rows| ==> s'.rows[i] == s.rows[i];
    if s.phase.Busy? {
      BatchOutlives(s.phase.batch, s.phase.pos, s.phase.delivered, s.dead, |s.rows|, done, s.dead, |s'.rows|);
    }
  }

  lemma FetchLeavesNoGap(s: Sys, limit: nat, done: nat, i: nat)
    requires Frontier(s, done) && i < |Fetch(s.rows, limit)|
    ensures var ids := Fetch(s.rows, limit); done <= ids[i] < |s.rows| && NoGap(ids, s.dead, done, i)
  {
    var ids := Fetch(s.rows, limit);
    FetchMeaning(s.rows, limit);
    assert Pending(s.rows, ids[i]);
    forall id | done <= id < ids[i] && id !in s.dead
      ensures Earlier(ids, i, id)
    {
      assert Pending(s.rows, id);
      assert id in ids;
      var k :| 0 <= k < |ids| && ids[k] == id;
      assert k < i;
    }
  }

  lemma FetchStands(s: Sys, limit: nat, done: nat)
    requires Stands(s, done) && s.phase.Idle?
    ensures Stands(s.(phase := Busy(Fetch(s.rows, limit), 0, [], false)), done)
  {
    FetchMeaning(s.rows, limit);
    forall i | 0 <= i < |Fetch(s.rows, limit)|
      ensures done <= Fetch(s.rows, limit)[i] < |s.rows| && NoGap(Fetch(s.rows, limit), s.dead, done, i)
    {
      FetchLeavesNoGap(s, limit, done, i);
    }
  }

  lemma OkStands(taxonomy: map<string, string>, s: Sys, done: nat)
    requires Stands(s, done)
    ensures Stands(Act(taxonomy, s, DispatchOk), done)
  {
    if Dispatching(s) {
      var batch, pos, delivered := s.phase.batch, s.phase.pos, s.phase.delivered;
      BatchAdvances(batch, pos, delivered, s.dead, |s.rows|, done, delivered + [batch[pos]]);
    }
  }

  lemma FailStands(taxonomy: map<string, string>, s: Sys, error: string, done: nat)
    requires Stands(s, done)
    ensures Stands(Act(taxonomy, s, DispatchFail(error)), done)
  {
    if Dispatching(s) {
      BatchStops(s.phase.batch, s.phase.pos, s.phase.delivered, s.dead, |s.rows|, done);
    }
  }

  lemma DeadFrontier(taxonomy: map<string, string>, s: Sys, done: nat)
    requires Stands(s, done) && s.phase.Busy? && s.phase.doomed
    ensures Frontier(Act(taxonomy, s, DeadMark), done)
  {
    var s' := Act(taxonomy, s, DeadMark);
    var id := s.phase.batch[s.phase.pos];
    assert forall i :: 0 <= i < |s.rows| && i != id ==> s'.rows[i] == s.rows[i];
  }

  lemma DeadStands(taxonomy: map<string, string>, s: Sys, done: nat)
    requires Stands(s, done)
    ensures Stands(Act(taxonomy, s, DeadMark), done)
  {
    if s.phase.Busy? && s.phase.doomed {
      var batch, pos, delivered, dead' :=
          s.phase.batch, s.phase.pos, s.phase.delivered, s.dead + {s.phase.batch[s.phase.pos]};
      DeadFrontier(taxonomy, s, done);
      BatchOutlives(batch, pos, delivered, s.dead, |s.rows|, done, dead', |s.rows|);
      BatchAdvances(batch, pos, delivered, dead', |s.rows|, done, delivered);
    }
  }

  /** What a finished batch covers. */
  lemma BatchCovers(batch: seq<nat>, delivered: seq<nat>, dead: set<nat>, size: nat, done: nat, next: nat)
    requires BatchStands(batch, |batch|, delivered, dead, size, done)
    requires next == if batch == [] then done else batch[|batch| - 1] + 1
    ensures done <= next <= Max(done, size)
    ensures forall id :: done <= id < next ==> id in delivered || id in dead
    ensures forall id :: id in delivered ==> id < next
  {
    assert batch[..|batch|] == batch;
    forall id | done <= id < next
      ensures id in delivered || id in dead
    {
      assert NoGap(batch, dead, done, |batch| - 1);
      if id !in dead {
        assert id in batch;
      }
    }
    forall id | id in delivered
      ensures id < next
    {
      var k :| 0 <= k < |batch| && batch[k] == id;
    }
  }

  lemma MarkStands(taxonomy: map<string, string>, s: Sys, done: nat)
    requires Stands(s, done) && s.phase.Busy? && !s.phase.doomed && s.phase.pos == |s.phase.batch|
    ensures 0 <= NextId(s, done) && Stands(Act(taxonomy, s, MarkBatch), NextId(s, done))
  {
    BatchCovers(s.phase.batch, s.phase.delivered, s.dead, |s.rows|, done, NextId(s, done));
  }

  lemma ActStands(taxonomy: map<string, string>, s: Sys, a: Action, done: nat)
    requires Stands(s, done)
    ensures 0 <= NextDone(s, a, done) && Stands(Act(taxonomy, s, a), NextDone(s, a, done))
  {
    match a {
      case DoWrite(w) => WriteStands(taxonomy, s, w, done);
      case FetchBatch(limit) =>
        if s.phase.Idle? {
          FetchStands(s, limit, done);
        }
      case DispatchOk => OkStands(taxonomy, s, done);
      case DispatchFail(error) => FailStands(taxonomy, s, error, done);
      case CommitUnseen =>
      case DeadMark => DeadStands(taxonomy, s, done);
      case MarkBatch =>
        if s.phase.Busy? && !s.phase.doomed && s.phase.pos == |s.phase.batch| {
          MarkStands(taxonomy, s, done);
        }
      case Crash =>
    }
  }

  // -----------------------------------------------------------------
  // The catalog's view of the product
  // -----------------------------------------------------------------

  /** No dead letter concerns the product. */
  ghost predicate Mute(view: seq<Change>, dead: set<nat>) {
    forall id :: id in dead && id < |view| ==> view[id].Ignore?
  }

  /** The product's rows can be resumed from wherever the relay may stand. */
  ghost predicate Follows(taxonomy: map<string, string>, view: seq<Change>, p: string, s: Sys, done: nat, high: nat) {
    && 0 <= NextId(s, done) && high <= |s.rows| <= |view|
    && Recoverable(taxonomy, view, p, Only(s.catalog.tables, p), NextId(s, done), high)
  }

  lemma NextIdInRange(s: Sys, done: nat)
    requires Stands(s, done)
    ensures done <= NextId(s, done) <= |s.rows|
  {
  }

  /** After event `pos` of the batch the relay goes on to `next`, past dead letters only. */
  lemma OnlyDeadBetween(batch: seq<nat>, pos: nat, delivered: seq<nat>, dead: set<nat>, size: nat, done: nat, id: nat)
    requires BatchStands(batch, pos, delivered, dead, size, done) && pos < |batch| && done <= id < batch[pos]
    requires pos > 0 ==> batch[pos - 1] < id
    ensures id in dead
  {
    assert NoGap(batch, dead, done, pos);
    assert forall k :: 0 <= k < pos ==> batch[k] <= batch[pos - 1];
  }

  lemma FetchFollows(taxonomy: map<string, string>, own: Owner, view: seq<Change>, p: string, s: Sys, limit: nat,
                     done: nat, high: nat) returns (high': nat)
    requires Sound(own, view, p) && CardsOwned(own, Only(s.catalog.tables, p).cards)
    requires Stands(s, done) && s.phase.Idle? && Follows(taxonomy, view, p, s, done, high) && Mute(view, s.dead)
    ensures Follows(taxonomy, view, p, s.(phase := Busy(Fetch(s.rows, limit), 0, [], false)), done, high')
  {
    var s' := s.(phase := Busy(Fetch(s.rows, limit), 0, [], false));
    FetchStands(s, limit, done);
    NextIdInRange(s', done);
    var next := NextId(s', done);
    forall id | done <= id < next
      ensures view[id].Ignore?
    {
      OnlyDeadBetween(s'.phase.batch, 0, [], s.dead, |s.rows|, done, id);
    }
    SkipIgnored(taxonomy, own, view, p, Only(s.catalog.tables, p), done, next, high);
    high' := Max(next, high);
  }

  /** From just after the current event to the next one. */
  lemma AdvanceFollows(taxonomy: map<string, string>, own: Owner, view: seq<Change>, p: string, s: Sys, s': Sys,
                       done: nat, high: nat) returns (high': nat)
    requires Sound(own, view, p) && CardsOwned(own, Only(s'.catalog.tables, p).cards)
    requires Stands(s, done) && Stands(s', done) && s.phase.Busy? && s.phase.pos < |s.phase.batch|
    requires s'.phase.Busy? && s'.phase.batch == s.phase.batch && s'.phase.pos == s.phase.pos + 1
    requires |s'.rows| <= |view| && high <= |s'.rows| && Mute(view, s'.dead)
    requires Recoverable(taxonomy, view, p, Only(s'.catalog.tables, p), s.phase.batch[s.phase.pos] + 1, high)
    ensures Follows(taxonomy, view, p, s', done, high')
  {
    NextIdInRange(s', done);
    var from, next := s.phase.batch[s.phase.pos] + 1, NextId(s', done);
    forall id | from <= id < next
      ensures view[id].Ignore?
    {
      OnlyDeadBetween(s'.phase.batch, s'.phase.pos, s'.phase.delivered, s'.dead, |s'.rows|, done, id);
    }
    SkipIgnored(taxonomy, own, view, p, Only(s'.catalog.tables, p), from, next, high);
    high' := Max(next, high);
  }

  /** The catalog applies the relay's current event. */
  lemma ViewDelivers(taxonomy: map<string, string>, own: Owner, view: seq<Change>, p: string, t: Tables, c: Change,
                     id: nat, high: nat)
    requires Sound(own, view, p) && CardsOwned(own, t.cards) && OwnsSlug(own, c)
    requires id < |view| && view[id] == ViewOf(p, c) && Recoverable(taxonomy, view, p, Only(t, p), id, high)
    ensures CardsOwned(own, Only(Step(taxonomy, t, c), p).cards)
    ensures Recoverable(taxonomy, view, p, Only(Step(taxonomy, t, c), p), id + 1, Max(id + 1, high))
  {
    ViewStep(taxonomy, own, t, c, p);
    DeliveryKeepsRecoverable(taxonomy, own, view, p, Only(t, p), id, high);
  }

  /** The events written so far are the first ones of `log`. */
  ghost predicate Reads(own: Owner, log: seq<Change>, view: seq<Change>, s: Sys) {
    && |view| == |log| && Owned(own, log) && CardsOwned(own, s.catalog.tables.cards)
    && |s.rows| <= |log| && Changes(EventsOf(s.rows)) == log[..|s.rows|]
  }

  /** The event that the relay is about to dispatch is seen by the view as it is. */
  ghost predicate Heeds(log: seq<Change>, view: seq<Change>, p: string, s: Sys) {
    Dispatching(s) && Current(s) < |log| && Current(s) < |view| ==> view[Current(s)] == ViewOf(p, log[Current(s)])
  }

  lemma OkFollows(taxonomy: map<string, string>, own: Owner, log: seq<Change>, view: seq<Change>, p: string, s: Sys,
                  done: nat, high: nat) returns (high': nat)
    requires Sound(own, view, p) && Reads(own, log, view, s) && Heeds(log, view, p, s)
    requires Stands(s, done) && Follows(taxonomy, view, p, s, done, high) && Mute(view, s.dead)
    ensures Follows(taxonomy, view, p, Act(taxonomy, s, DispatchOk), done, high')
  {
    high' := high;
    if Dispatching(s) {
      var id, s' := Current(s), Act(taxonomy, s, DispatchOk);
      var change := Decode(s.rows[id].event);
      assert change == Changes(EventsOf(s.rows))[id] == log[id];
      OwnedStep(taxonomy, own, s.catalog.tables, change);
      ViewDelivers(taxonomy, own, view, p, s.catalog.tables, change, id, high);
      OkStands(taxonomy, s, done);
      high' := AdvanceFollows(taxonomy, own, view, p, s, s', done, Max(id + 1, high));
    }
  }

  lemma UnseenSteps(taxonomy: map<string, string>, own: Owner, log: seq<Change>, s: Sys)
    requires Owned(own, log) && CardsOwned(own, s.catalog.tables.cards) && Dispatching(s)
    requires |s.rows| <= |log| && Changes(EventsOf(s.rows)) == log[..|s.rows|]
    ensures var s' := Act(taxonomy, s, CommitUnseen);
            && s'.catalog.tables == Step(taxonomy, s.catalog.tables, log[Current(s)])
            && s'.rows == s.rows && s'.phase == s.phase
  {
    var id := Current(s);
    assert Decode(s.rows[id].event) == Changes(EventsOf(s.rows))[id] == log[id];
    OwnedStep(taxonomy, own, s.catalog.tables, log[id]);
  }

  /** The catalog runs ahead of what the relay knows; the relay stays where it is. */
  lemma UnseenFollows(taxonomy: map<string, string>, own: Owner, log: seq<Change>, view: seq<Change>, p: string,
                      s: Sys, done: nat, high: nat) returns (high': nat)
    requires Sound(own, view, p) && Reads(own, log, view, s) && Heeds(log, view, p, s)
    requires Stands(s, done) && Follows(taxonomy, view, p, s, done, high)
    ensures Follows(taxonomy, view, p, Act(taxonomy, s, CommitUnseen), done, high')
  {
    high' := high;
    if Dispatching(s) {
      var id, t' := Current(s), Step(taxonomy, s.catalog.tables, log[Current(s)]);
      UnseenSteps(taxonomy, own, log, s);
      ViewDelivers(taxonomy, own, view, p, s.catalog.tables, log[id], id, high);
      high' := Max(id + 1, high);
      RewindKeepsRecoverable(taxonomy, own, view, p, Only(t', p), id + 1, high', id);
    }
  }

  lemma DeadMarkEffect(taxonomy: map<string, string>, s: Sys)
    requires s.phase.Busy? && s.phase.doomed && s.phase.pos < |s.phase.batch|
    ensures var s' := Act(taxonomy, s, DeadMark);
            && s'.catalog == s.catalog && |s'.rows| == |s.rows| && s'.dead == s.dead + {s.phase.batch[s.phase.pos]}
            && s'.phase == s.phase.(pos := s.phase.pos + 1, doomed := false)
  {
  }

  /** The current event is dead: it is skipped. */
  lemma DeadAdvances(taxonomy: map<string, string>, own: Owner, view: seq<Change>, p: string, s: Sys, s': Sys,
                     done: nat, high: nat) returns (high': nat)
    requires Sound(own, view, p) && CardsOwned(own, Only(s.catalog.tables, p).cards)
    requires Stands(s, done) && Stands(s', done) && Follows(taxonomy, view, p, s, done, high) && Mute(view, s'.dead)
    requires s.phase.Busy? && s.phase.doomed && s'.phase == s.phase.(pos := s.phase.pos + 1, doomed := false)
    requires s'.catalog == s.catalog && |s'.rows| == |s.rows| && s.phase.batch[s.phase.pos] in s'.dead
    ensures Follows(taxonomy, view, p, s', done, high')
  {
    var id := s.phase.batch[s.phase.pos];
    SkipIgnored(taxonomy, own, view, p, Only(s.catalog.tables, p), id, id + 1, high);
    high' := AdvanceFollows(taxonomy, own, view, p, s, s', done, Max(id + 1, high));
  }

  lemma DeadFollows(taxonomy: map<string, string>, own: Owner, view: seq<Change>, p: string, s: Sys, done: nat,
                    high: nat) returns (high': nat)
    requires Sound(own, view, p) && CardsOwned(own, Only(s.catalog.tables, p).cards)
    requires Stands(s, done) && Follows(taxonomy, view, p, s, done, high) && Mute(view, Act(taxonomy, s, DeadMark).dead)
    ensures Follows(taxonomy, view, p, Act(taxonomy, s, DeadMark), done, high')
  {
    high' := high;
    if s.phase.Busy? && s.phase.doomed {
      DeadStands(taxonomy, s, done);
      DeadMarkEffect(taxonomy, s);
      high' := DeadAdvances(taxonomy, own, view, p, s, Act(taxonomy, s, DeadMark), done, high);
    }
  }

  lemma FailFollows(taxonomy: map<string, string>, own: Owner, view: seq<Change>, p: string, s: Sys, error: string,
                    done: nat, high: nat)
    requires Sound(own, view, p) && Stands(s, done) && Follows(taxonomy, view, p, s, done, high)
    ensures Follows(taxonomy, view, p, Act(taxonomy, s, DispatchFail(error)), done, high)
  {
    var s' := Act(taxonomy, s, DispatchFail(error));
    FailStands(taxonomy, s, error, done);
    NextIdInRange(s', done);
    assert NextId(s', done) <= NextId(s, done);
    RewindKeepsRecoverable(taxonomy, own, view, p, Only(s.catalog.tables, p), NextId(s, done), high, NextId(s', done));
  }

  /** Writing, marking and crashing leave the catalog alone; a crash rewinds the relay. */
  lemma QuietFollows(taxonomy: map<string, string>, own: Owner, view: seq<Change>, p: string, s: Sys, a: Action,
                     done: nat, high: nat)
    requires Sound(own, view, p) && |Act(taxonomy, s, a).rows| <= |view|
    requires Stands(s, done) && Follows(taxonomy, view, p, s, done, high)
    requires a.DoWrite? || a.MarkBatch? || a.Crash?
    ensures 0 <= NextDone(s, a, done)
    ensures Follows(taxonomy, view, p, Act(taxonomy, s, a), NextDone(s, a, done), high)
  {
    NextIdInRange(s, done);
    if a.Crash? {
      RewindKeepsRecoverable(taxonomy, own, view, p, Only(s.catalog.tables, p), NextId(s, done), high, done);
    }
  }

  lemma ActFollows(taxonomy: map<string, string>, own: Owner, log: seq<Change>, view: seq<Change>, p: string, s: Sys,
                   a: Action, done: nat, high: nat) returns (high': nat)
    requires Sound(own, view, p) && Reads(own, log, view, s)
    requires a.DispatchOk? || a.CommitUnseen? ==> Heeds(log, view, p, s)
    requires |Act(taxonomy, s, a).rows| <= |log| && Mute(view, Act(taxonomy, s, a).dead)
    requires Stands(s, done) && Follows(taxonomy, view, p, s, done, high)
    ensures 0 <= NextDone(s, a, done)
    ensures Follows(taxonomy, view, p, Act(taxonomy, s, a), NextDone(s, a, done), high')
  {
    high' := high;
    DeadOnlyGrows(taxonomy, s, a);
    OnlyIsOwned(own, s.catalog.tables, Ignore, p);
    match a {
      case DoWrite(_) => QuietFollows(taxonomy, own, view, p, s, a, done, high);
      case FetchBatch(limit) =>
        if s.phase.Idle? {
          high' := FetchFollows(taxonomy, own, view, p, s, limit, done, high);
        }
      case DispatchOk => high' := OkFollows(taxonomy, own, log, view, p, s, done, high);
      case DispatchFail(error) => FailFollows(taxonomy, own, view, p, s, error, done, high);
      case CommitUnseen => high' := UnseenFollows(taxonomy, own, log, view, p, s, done, high);
      case DeadMark => high' := DeadFollows(taxonomy, own, view, p, s, done, high);
      case MarkBatch => QuietFollows(taxonomy, own, view, p, s, a, done, high);
      case Crash => QuietFollows(taxonomy, own, view, p, s, a, done, high);
    }
  }

  // -----------------------------------------------------------------
  // Whole runs
  // -----------------------------------------------------------------

  lemma {:induction false} RunStands(taxonomy: map<string, string>, actions: seq<Action>) returns (done: nat)
    ensures Stands(Run(taxonomy, START, actions), done)
  {
    if actions == [] {
      done := 0;
    } else {
      var init, a := actions[..|actions| - 1], actions[|actions| - 1];
      var before := RunStands(taxonomy, init);
      ActStands(taxonomy, Run(taxonomy, START, init), a, before);
      done := NextDone(Run(taxonomy, START, init), a, before);
    }
  }

  /** The event that an action makes the catalog apply, if it does. */
  ghost function Applying(taxonomy: map<string, string>, s: Sys, a: Action): set<nat> {
    if (a.DispatchOk? || a.CommitUnseen?) && Dispatching(s)
       && Apply(taxonomy, s.catalog, Decode(s.rows[Current(s)].event)).Some?
    then {Current(s)} else {}
  }

  /** The events that the catalog has applied in the course of a run, whether or not the relay was told. */
  ghost function AppliedIn(taxonomy: map<string, string>, actions: seq<Action>): set<nat> {
    if actions == [] then {} else
    var init := actions[..|actions| - 1];
    AppliedIn(taxonomy, init) + Applying(taxonomy, Run(taxonomy, START, init), actions[|actions| - 1])
  }

  /** The view sees every event in `applied` as it is; the others it may leave out. */
  ghost predicate HeedsAll(log: seq<Change>, view: seq<Change>, p: string, applied: set<nat>) {
    forall id :: id in applied && id < |log| && id < |view| ==> view[id] == ViewOf(p, log[id])
  }

  lemma ApplyingHeeds(taxonomy: map<string, string>, own: Owner, log: seq<Change>, view: seq<Change>, p: string, s: Sys,
                      a: Action)
    requires Reads(own, log, view, s) && (a.DispatchOk? || a.CommitUnseen?)
    requires HeedsAll(log, view, p, Applying(taxonomy, s, a))
    ensures Heeds(log, view, p, s)
  {
    if Dispatching(s) {
      var id := Current(s);
      assert Decode(s.rows[id].event) == Changes(EventsOf(s.rows))[id] == log[id];
      OwnedStep(taxonomy, own, s.catalog.tables, log[id]);
      assert id in Applying(taxonomy, s, a);
    }
  }

  /** Where a run stands, seen from one product. */
  ghost predicate ProductFollows(taxonomy: map<string, string>, view: seq<Change>, p: string, s: Sys, done: nat,
                                 high: nat) {
    Stands(s, done) && Follows(taxonomy, view, p, s, done, high)
  }

  lemma StartFollows(taxonomy: map<string, string>, view: seq<Change>, p: string)
    ensures ProductFollows(taxonomy, view, p, START, 0, 0)
  {
    assert view[0..0] == [] && view[..0] == [];
    assert Only(EMPTY_TABLES, p) == EMPTY_TABLES;
  }

  /** What the view must know of a run: its dead letters are left out, what it applied is not. */
  ghost predicate Covers(taxonomy: map<string, string>, log: seq<Change>, view: seq<Change>, p: string,
                         actions: seq<Action>) {
    && LogOf(WritesOf(actions)) <= log && Mute(view, Run(taxonomy, START, actions).dead)
    && HeedsAll(log, view, p, AppliedIn(taxonomy, actions))
  }

  lemma {:induction false} RunFollows(taxonomy: map<string, string>, own: Owner, log: seq<Change>, view: seq<Change>,
                                      p: string, actions: seq<Action>) returns (done: nat, high: nat)
    requires Sound(own, view, p) && Owned(own, log) && |view| == |log| && Covers(taxonomy, log, view, p, actions)
    ensures ProductFollows(taxonomy, view, p, Run(taxonomy, START, actions), done, high)
  {
    if actions == [] {
      done, high := 0, 0;
      StartFollows(taxonomy, view, p);
    } else {
      var init, a := actions[..|actions| - 1], actions[|actions| - 1];
      assert actions == init + [a];
      CoveredSoFar(taxonomy, log, view, p, init, a);
      done, high := RunFollows(taxonomy, own, log, view, p, init);
      done, high := NextFollows(taxonomy, own, log, view, p, init, a, done, high);
    }
  }

  lemma CoveredSoFar(taxonomy: map<string, string>, log: seq<Change>, view: seq<Change>, p: string, init: seq<Action>,
                     a: Action)
    requires Covers(taxonomy, log, view, p, init + [a])
    ensures Covers(taxonomy, log, view, p, init)
    ensures HeedsAll(log, view, p, Applying(taxonomy, Run(taxonomy, START, init), a))
  {
    assert (init + [a])[..|init|] == init;
    LogOnlyGrows(init + [a]);
    RunAppend(taxonomy, START, init, a);
    DeadOnlyGrows(taxonomy, Run(taxonomy, START, init), a);
  }

  lemma NextFollows(taxonomy: map<string, string>, own: Owner, log: seq<Change>, view: seq<Change>, p: string,
                    init: seq<Action>, a: Action, done: nat, high: nat) returns (done': nat, high': nat)
    requires Sound(own, view, p) && Owned(own, log) && |view| == |log| && Covers(taxonomy, log, view, p, init + [a])
    requires ProductFollows(taxonomy, view, p, Run(taxonomy, START, init), done, high)
    ensures ProductFollows(taxonomy, view, p, Run(taxonomy, START, init + [a]), done', high')
  {
    var s := Run(taxonomy, START, init);
    CoveredSoFar(taxonomy, log, view, p, init, a);
    RunAppend(taxonomy, START, init, a);
    RunIsHistory(taxonomy, init);
    RunIsHistory(taxonomy, init + [a]);
    RunKeepsCardsOwned(taxonomy, own, log, init);
    if a.DispatchOk? || a.CommitUnseen? {
      ApplyingHeeds(taxonomy, own, log, view, p, s, a);
    }
    ActStands(taxonomy, s, a, done);
    high' := ActFollows(taxonomy, own, log, view, p, s, a, done, high);
    done' := NextDone(s, a, done);
  }

  /** Nothing is pending: the product's rows are those of an in-order delivery of what the view sees. */
  lemma QuietIsInOrder(taxonomy: map<string, string>, own: Owner, view: seq<Change>, p: string, s: Sys, done: nat,
                       high: nat)
    requires Sound(own, view, p) && |view| == |s.rows| && CardsOwned(own, Only(s.catalog.tables, p).cards)
    requires ProductFollows(taxonomy, view, p, s, done, high) && Mute(view, s.dead) && NothingPending(s)
    ensures Only(s.catalog.tables, p) == Prefix(taxonomy, view, |view|)
  {
    var t, n := Only(s.catalog.tables, p), |view|;
    NextIdInRange(s, done);
    RewindKeepsRecoverable(taxonomy, own, view, p, t, NextId(s, done), high, done);
    SkipIgnored(taxonomy, own, view, p, t, done, n, high);
    assert view[n..n] == [];
    assert Fold(taxonomy, t, view[n..n]) == Prefix(taxonomy, view, n);
  }

  // -----------------------------------------------------------------
  // The catalog without its dead letters
  // -----------------------------------------------------------------

  /** No dead letter of the run that concerns `p` was ever applied. */
  ghost predicate NeverApplied(taxonomy: map<string, string>, actions: seq<Action>, p: string) {
    var log := LogOf(WritesOf(actions));
    forall id :: id in AppliedIn(taxonomy, actions) && id in Run(taxonomy, START, actions).dead && id < |log| ==>
      ViewOf(p, log[id]).Ignore?
  }

  /** The log of the run without its dead letters. */
  ghost function Survivors(taxonomy: map<string, string>, actions: seq<Action>): seq<Change> {
    Skipped(LogOf(WritesOf(actions)), Run(taxonomy, START, actions).dead)
  }

  lemma SurvivorsCover(taxonomy: map<string, string>, actions: seq<Action>, p: string)
    requires NeverApplied(taxonomy, actions, p)
    ensures Covers(taxonomy, LogOf(WritesOf(actions)), View(p, Survivors(taxonomy, actions)), p, actions)
  {
  }

  /** One product, dead letters and all: for every interleaving, failures and crashes included, once nothing is
    * pending its rows are those of an in-order delivery of everything but the dead letters, provided that none
    * of its own dead letters was ever applied. */
  lemma SurvivorsDecideProduct(taxonomy: map<string, string>, own: Owner, actions: seq<Action>, p: string)
    requires Owned(own, LogOf(WritesOf(actions))) && NothingPending(Run(taxonomy, START, actions))
    requires Replayable(View(p, Survivors(taxonomy, actions)), p) && NeverApplied(taxonomy, actions, p)
    ensures Only(Run(taxonomy, START, actions).catalog.tables, p)
         == Only(Fold(taxonomy, EMPTY_TABLES, Survivors(taxonomy, actions)), p)
  {
    var s, log, kept := Run(taxonomy, START, actions), LogOf(WritesOf(actions)), Survivors(taxonomy, actions);
    var n := |log|;
    RunIsHistory(taxonomy, actions);
    RunKeepsCardsOwned(taxonomy, own, log, actions);
    OnlyIsOwned(own, s.catalog.tables, Ignore, p);
    SkippedIsOwned(own, log, s.dead);
    ViewIsSound(own, kept, p);
    SurvivorsCover(taxonomy, actions, p);
    var done, high := RunFollows(taxonomy, own, log, View(p, kept), p, actions);
    QuietIsInOrder(taxonomy, own, View(p, kept), p, s, done, high);
    ViewPrefix(taxonomy, own, kept, p, n);
    assert kept[..n] == kept;
  }

  lemma SameForEachProduct(a: Tables, b: Tables)
    requires forall p :: Only(a, p) == Only(b, p)
    ensures a == b
  {
    forall id
      ensures Lookup(a.cards, id) == Lookup(b.cards, id)
    {
      OnlyLookups(a, id);
      OnlyLookups(b, id);
      assert Lookup(Only(a, id).cards, id) == Lookup(Only(b, id).cards, id);
    }
    forall k: AttrKey
      ensures Lookup(a.attrs, k) == Lookup(b.attrs, k)
    {
      OnlyLookups(a, k.0);
      OnlyLookups(b, k.0);
      assert Lookup(Only(a, k.0).attrs, k) == Lookup(Only(b, k.0).attrs, k);
    }
    SameLookupsSameTables(a, b);
  }

  /** Convergence with dead letters. For every interleaving of writes, relay steps, failures and crashes: once
    * nothing is pending, and unless some dead letter was applied before it died, all three tables are those of a
    * consumer that saw every event but the dead letters, once and in order. It is the catalog of all events
    * exactly when leaving the dead letters out of an in-order delivery makes no difference. */
  lemma SurvivorsDecide(taxonomy: map<string, string>, own: Owner, actions: seq<Action>)
    requires Owned(own, LogOf(WritesOf(actions))) && NothingPending(Run(taxonomy, START, actions))
    requires ReplayableLog(Survivors(taxonomy, actions))
    requires AppliedIn(taxonomy, actions) !! Run(taxonomy, START, actions).dead
    ensures var c := Run(taxonomy, START, actions).catalog;
            var left := FoldCatalog(taxonomy, EMPTY_CATALOG, Survivors(taxonomy, actions));
            && c.tables == left.tables && multiset(c.fts) == multiset(left.fts)
            && (c.tables == Replica(taxonomy, WritesOf(actions)) <==>
                left.tables == Replica(taxonomy, WritesOf(actions)))
  {
    var c, kept := Run(taxonomy, START, actions).catalog, Survivors(taxonomy, actions);
    forall p
      ensures Only(c.tables, p) == Only(Fold(taxonomy, EMPTY_TABLES, kept), p)
    {
      SurvivorsDecideProduct(taxonomy, own, actions, p);
    }
    SameForEachProduct(c.tables, Fold(taxonomy, EMPTY_TABLES, kept));
    FoldCatalogTables(taxonomy, EMPTY_CATALOG, kept);
    RunKeepsCoherent(taxonomy, actions);
    EmptyCatalogIsCoherent();
    FoldKeepsCoherent(taxonomy, EMPTY_CATALOG, kept);
    CoherentIndexIsDetermined(c, FoldCatalog(taxonomy, EMPTY_CATALOG, kept));
  }

  /** When the assumption on the log holds: updates name existing products, and no product has lost both its
    * creation and a later deletion. */
  lemma GuardedSurvivorsAreReplayable(taxonomy: map<string, string>, actions: seq<Action>)
    requires AllGuarded(WritesOf(actions))
    requires forall p :: !LosesLifetime(LogOf(WritesOf(actions)), Run(taxonomy, START, actions).dead, p)
    ensures ReplayableLog(Survivors(taxonomy, actions))
  {
    GuardedHistoriesAreWellFormed(WritesOf(actions));
    forall p
      ensures Replayable(View(p, Survivors(taxonomy, actions)), p)
    {
      HolesAreReplayable(LogOf(WritesOf(actions)), Run(taxonomy, START, actions).dead, p);
    }
  }

  // -----------------------------------------------------------------
  // What is dead stays dead
  // -----------------------------------------------------------------

  /** What is left of the batch is not dead. */
  ghost predicate LeftAlive(s: Sys) {
    s.phase.Busy? ==> forall i :: s.phase.pos <= i < |s.phase.batch| ==> s.phase.batch[i] !in s.dead
  }

  lemma FetchesAlive(s: Sys, limit: nat, done: nat)
    requires Stands(s, done)
    ensures forall i :: 0 <= i < |Fetch(s.rows, limit)| ==> Fetch(s.rows, limit)[i] !in s.dead
  {
    FetchMeaning(s.rows, limit);
    assert forall i :: 0 <= i < |Fetch(s.rows, limit)| ==> Pending(s.rows, Fetch(s.rows, limit)[i]);
  }

  lemma ActKeepsLeftAlive(taxonomy: map<string, string>, s: Sys, a: Action, done: nat)
    requires Stands(s, done) && LeftAlive(s)
    ensures LeftAlive(Act(taxonomy, s, a))
  {
    if a.FetchBatch? && s.phase.Idle? {
      FetchesAlive(s, a.limit, done);
    }
  }

  lemma {:induction false} RunKeepsLeftAlive(taxonomy: map<string, string>, actions: seq<Action>)
    ensures LeftAlive(Run(taxonomy, START, actions))
  {
    if actions != [] {
      var init, a := actions[..|actions| - 1], actions[|actions| - 1];
      RunKeepsLeftAlive(taxonomy, init);
      var done := RunStands(taxonomy, init);
      ActKeepsLeftAlive(taxonomy, Run(taxonomy, START, init), a, done);
    }
  }

  /** Once an event is dead, nothing that follows applies it. */
  lemma {:induction false} DeadIsFinal(taxonomy: map<string, string>, init: seq<Action>, all: seq<Action>)
    requires init <= all
    ensures Run(taxonomy, START, init).dead <= Run(taxonomy, START, all).dead
    ensures Run(taxonomy, START, init).dead * AppliedIn(taxonomy, all) <= AppliedIn(taxonomy, init)
  {
    if all == init {
    } else {
      var before, a := all[..|all| - 1], all[|all| - 1];
      DeadIsFinal(taxonomy, init, before);
      RunKeepsLeftAlive(taxonomy, before);
      DeadOnlyGrows(taxonomy, Run(taxonomy, START, before), a);
      assert Applying(taxonomy, Run(taxonomy, START, before), a) !! Run(taxonomy, START, before).dead;
    }
  }

  // -----------------------------------------------------------------
  // Products that lost nothing
  // -----------------------------------------------------------------

  /** Whether the catalog shows product `p` as the source has it: its card and its indexed values. */
  ghost predicate ProductAgrees(taxonomy: map<string, string>, s: Source, t: Tables, p: string) {
    && (p in t.cards <==> p in s.products)
    && (p in s.products ==> Shows(t.cards[p], s.products[p]))
    && forall attribute :: Lookup(t.attrs, (p, attribute)) == Lookup(Indexed(s.values, taxonomy), (p, attribute))
  }

  /** No dead letter of the run concerns `p`. */
  ghost predicate Unharmed(taxonomy: map<string, string>, actions: seq<Action>, p: string) {
    var log := LogOf(WritesOf(actions));
    forall id :: id in Run(taxonomy, START, actions).dead && id < |log| ==> ViewOf(p, log[id]).Ignore?
  }

  /** For every interleaving, failures, crashes and dead letters included, once nothing is pending, every product
    * none of whose own events was dead-lettered is in the catalog as an in-order delivery of everything would
    * have it, and as the product tables have it. */
  lemma ProductConvergence(taxonomy: map<string, string>, own: Owner, actions: seq<Action>, p: string)
    requires AllGuarded(WritesOf(actions)) && Owned(own, LogOf(WritesOf(actions)))
    requires NothingPending(Run(taxonomy, START, actions)) && Unharmed(taxonomy, actions, p)
    ensures var s := Run(taxonomy, START, actions);
            && Only(s.catalog.tables, p) == Only(Replica(taxonomy, WritesOf(actions)), p)
            && ProductAgrees(taxonomy, s.source, s.catalog.tables, p)
            && (p in s.catalog.tables.cards && s.catalog.tables.cards[p].status == PUBLISHED ==>
                 s.source.products[p].status.Published?)
  {
    var s, writes := Run(taxonomy, START, actions), WritesOf(actions);
    var log, kept := LogOf(writes), Survivors(taxonomy, actions);
    RunIsHistory(taxonomy, actions);
    GuardedHistoriesAreWellFormed(writes);
    assert View(p, kept) == View(p, log);
    HolesAreReplayable(log, {}, p);
    assert Skipped(log, {}) == log;
    SurvivorsDecideProduct(taxonomy, own, actions, p);
    SameViewSameRows(taxonomy, own, kept, log, p);
    OwnedHistory(own, writes);
    DistinctSlugsSuffice(taxonomy, writes);
    PublishedSafety(taxonomy, writes);
    SameRowsAgree(taxonomy, s.source, s.catalog.tables, Replica(taxonomy, writes), p);
  }

  lemma SameViewSameRows(taxonomy: map<string, string>, own: Owner, a: seq<Change>, b: seq<Change>, p: string)
    requires Owned(own, a) && Owned(own, b) && View(p, a) == View(p, b)
    ensures Only(Fold(taxonomy, EMPTY_TABLES, a), p) == Only(Fold(taxonomy, EMPTY_TABLES, b), p)
  {
    ViewPrefix(taxonomy, own, a, p, |a|);
    ViewPrefix(taxonomy, own, b, p, |b|);
    assert a[..|a|] == a && b[..|b|] == b;
  }

  lemma SameRowsAgree(taxonomy: map<string, string>, s: Source, t: Tables, r: Tables, p: string)
    requires Only(t, p) == Only(r, p) && Agrees(taxonomy, s, r) && PublishedSafe(s, r)
    ensures ProductAgrees(taxonomy, s, t, p)
    ensures p in t.cards && t.cards[p].status == PUBLISHED ==> s.products[p].status.Published?
  {
    OnlyLookups(t, p);
    OnlyLookups(r, p);
    assert Lookup(t.cards, p) == Lookup(r.cards, p);
    forall attribute
      ensures Lookup(t.attrs, (p, attribute)) == Lookup(r.attrs, (p, attribute))
    {
      assert Lookup(Only(t, p).attrs, (p, attribute)) == Lookup(Only(r, p).attrs, (p, attribute));
    }
  }
}
