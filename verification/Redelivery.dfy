/** A run in which the last events are delivered twice: the relay delivers them, crashes before it can mark
  * them, and delivers them again. What such a run leaves in the catalog decides which assumptions of
  * convergence are needed. */
module Redelivery {
  import opened Prelude
  import opened Projection
  import opened Outbox
  import opened Histories
  import opened Protocol

  /** No event of `log` is refused when the log is applied to `t`. */
  ghost predicate Accepts(taxonomy: map<string, string>, t: Tables, log: seq<Change>) {
    forall k :: 0 <= k < |log| ==> ApplyTables(taxonomy, Fold(taxonomy, t, log[..k]), log[k]).Some?
  }

  function Oks(n: nat): (actions: seq<Action>)
    ensures |actions| == n
  {
    seq(n, _ => DispatchOk)
  }

  function Writing(writes: seq<Write>): (actions: seq<Action>)
    ensures |actions| == |writes|
  {
    seq(|writes|, i requires 0 <= i < |writes| => DoWrite(writes[i]))
  }

  // -----------------------------------------------------------------
  // One delivery of everything that is pending
  // -----------------------------------------------------------------

  /** The batch `ids` carries the changes of `log`. */
  ghost predicate Carries(rows: seq<Row<Event>>, ids: seq<nat>, log: seq<Change>) {
    && |log| == |ids|
    && forall i :: 0 <= i < |ids| ==> ids[i] < |rows| && Decode(rows[ids[i]].event) == log[i]
  }

  /** `s` is `s0` after the first `k` events of the batch, nothing marked yet. */
  ghost predicate Applied(taxonomy: map<string, string>, s0: Sys, s: Sys, ids: seq<nat>, log: seq<Change>, k: nat)
    requires k <= |ids| == |log|
  {
    && s.source == s0.source && s.rows == s0.rows && s.dead == s0.dead
    && s.phase == Busy(ids, k, ids[..k], false)
    && s.catalog.tables == Fold(taxonomy, s0.catalog.tables, log[..k])
  }

  lemma FoldNext(taxonomy: map<string, string>, t: Tables, log: seq<Change>, k: nat)
    requires k < |log|
    ensures Fold(taxonomy, t, log[..k + 1]) == Step(taxonomy, Fold(taxonomy, t, log[..k]), log[k])
  {
    assert log[..k + 1] == log[..k] + [log[k]];
    FoldAppend(taxonomy, t, log[..k], log[k]);
  }

  lemma OkDelivers(taxonomy: map<string, string>, s: Sys, ids: seq<nat>, k: nat)
    requires k < |ids| && ids[k] < |s.rows| && s.phase == Busy(ids, k, ids[..k], false)
    requires ApplyTables(taxonomy, s.catalog.tables, Decode(s.rows[ids[k]].event)).Some?
    ensures var s' := Act(taxonomy, s, DispatchOk);
            && s'.source == s.source && s'.rows == s.rows && s'.dead == s.dead
            && s'.phase == Busy(ids, k + 1, ids[..k + 1], false)
            && s'.catalog.tables == Step(taxonomy, s.catalog.tables, Decode(s.rows[ids[k]].event))
  {
    assert ids[..k + 1] == ids[..k] + [ids[k]];
  }

  lemma OkApplies(taxonomy: map<string, string>, s0: Sys, ids: seq<nat>, log: seq<Change>, k: nat)
    requires Carries(s0.rows, ids, log) && Accepts(taxonomy, s0.catalog.tables, log) && k < |ids|
    requires Applied(taxonomy, s0, Run(taxonomy, s0, Oks(k)), ids, log, k)
    ensures Applied(taxonomy, s0, Run(taxonomy, s0, Oks(k + 1)), ids, log, k + 1)
  {
    OkDelivers(taxonomy, Run(taxonomy, s0, Oks(k)), ids, k);
    FoldNext(taxonomy, s0.catalog.tables, log, k);
    assert Oks(k + 1) == Oks(k) + [DispatchOk];
    RunAppend(taxonomy, s0, Oks(k), DispatchOk);
  }

  lemma NoneApplied(taxonomy: map<string, string>, s0: Sys, ids: seq<nat>, log: seq<Change>)
    requires |ids| == |log| && s0.phase == Busy(ids, 0, [], false)
    ensures Applied(taxonomy, s0, Run(taxonomy, s0, Oks(0)), ids, log, 0)
  {
    assert log[..0] == [] && Oks(0) == [];
  }

  lemma OksApply(taxonomy: map<string, string>, s0: Sys, ids: seq<nat>, log: seq<Change>, k: nat)
    requires Carries(s0.rows, ids, log) && Accepts(taxonomy, s0.catalog.tables, log) && k <= |ids|
    requires s0.phase == Busy(ids, 0, [], false)
    ensures Applied(taxonomy, s0, Run(taxonomy, s0, Oks(k)), ids, log, k)
  {
    NoneApplied(taxonomy, s0, ids, log);
    for i := 0 to k
      invariant Applied(taxonomy, s0, Run(taxonomy, s0, Oks(i)), ids, log, i)
    {
      OkApplies(taxonomy, s0, ids, log, i);
    }
  }

  /** The first `m` events are published, the others are not, and those are the changes of `log`. */
  ghost predicate Queued(s: Sys, m: nat, log: seq<Change>) {
    && s.phase.Idle? && m + |log| == |s.rows|
    && (forall i :: 0 <= i < |s.rows| ==> (s.rows[i].published <==> i < m))
    && (forall i :: 0 <= i < |log| ==> Decode(s.rows[m + i].event) == log[i])
  }

  function Passing(n: nat, last: Action): seq<Action> {
    [FetchBatch(n)] + Oks(n) + [last]
  }

  lemma FetchesAll(s: Sys, m: nat, log: seq<Change>)
    requires Queued(s, m, log)
    ensures Carries(s.rows, Fetch(s.rows, |log|), log)
    ensures forall i :: 0 <= i < |log| ==> Fetch(s.rows, |log|)[i] == m + i
  {
    FetchSkipsPublished(s.rows, 0, m, |log|);
    FetchIsNextRun(s.rows, m, |log|);
  }

  /** One pass over everything pending, up to its last action. */
  lemma PassApplies(taxonomy: map<string, string>, s: Sys, m: nat, log: seq<Change>, last: Action) returns (s': Sys)
    requires Queued(s, m, log) && Accepts(taxonomy, s.catalog.tables, log) && !last.DoWrite?
    ensures WritesOf(Passing(|log|, last)) == []
    ensures |Fetch(s.rows, |log|)| == |log| && Applied(taxonomy, s, s', Fetch(s.rows, |log|), log, |log|)
    ensures Run(taxonomy, s, Passing(|log|, last)) == Act(taxonomy, s', last)
  {
    var n := |log|;
    var ids := Fetch(s.rows, n);
    var s1 := s.(phase := Busy(ids, 0, [], false));
    FetchesAll(s, m, log);
    OksApply(taxonomy, s1, ids, log, n);
    OksWriteNothing(n);
    FirstAndLast(taxonomy, s, FetchBatch(n), Oks(n), last);
    s' := Run(taxonomy, s1, Oks(n));
  }

  lemma {:induction false} OksWriteNothing(n: nat)
    ensures WritesOf(Oks(n)) == []
  {
    if n > 0 {
      assert Oks(n)[..n - 1] == Oks(n - 1);
      OksWriteNothing(n - 1);
    }
  }

  lemma FirstAndLast(taxonomy: map<string, string>, s: Sys, first: Action, middle: seq<Action>, last: Action)
    requires !first.DoWrite? && WritesOf(middle) == [] && !last.DoWrite?
    ensures WritesOf([first] + middle + [last]) == []
    ensures Run(taxonomy, s, [first] + middle + [last])
         == Act(taxonomy, Run(taxonomy, Act(taxonomy, s, first), middle), last)
  {
    OneAction(taxonomy, s, first);
    RunConcat(taxonomy, s, [first], middle);
    OneAction(taxonomy, Run(taxonomy, s, [first] + middle), last);
    RunConcat(taxonomy, s, [first] + middle, [last]);
  }

  /** A pass that ends in a crash has changed the catalog and nothing else. */
  ghost predicate Unmarked(taxonomy: map<string, string>, s: Sys, s': Sys, log: seq<Change>) {
    && s'.source == s.source && s'.dead == s.dead && s'.rows == s.rows && s'.phase.Idle?
    && s'.catalog.tables == Fold(taxonomy, s.catalog.tables, log)
  }

  /** A pass that is marked leaves nothing pending. */
  ghost predicate Marked(taxonomy: map<string, string>, s: Sys, s': Sys, log: seq<Change>) {
    && s'.source == s.source && s'.dead == s.dead && s'.phase.Idle?
    && s'.catalog.tables == Fold(taxonomy, s.catalog.tables, log)
    && |s'.rows| == |s.rows|
    && forall i :: 0 <= i < |s'.rows| ==> s'.rows[i].published && s'.rows[i].event == s.rows[i].event
  }

  lemma CrashEnds(taxonomy: map<string, string>, s: Sys, m: nat, log: seq<Change>)
    requires Queued(s, m, log) && Accepts(taxonomy, s.catalog.tables, log)
    ensures WritesOf(Passing(|log|, Crash)) == []
    ensures Unmarked(taxonomy, s, Run(taxonomy, s, Passing(|log|, Crash)), log)
  {
    var s1 := PassApplies(taxonomy, s, m, log, Crash);
    assert log[..|log|] == log;
  }

  lemma MarkEnds(taxonomy: map<string, string>, s: Sys, m: nat, log: seq<Change>)
    requires Queued(s, m, log) && Accepts(taxonomy, s.catalog.tables, log)
    ensures WritesOf(Passing(|log|, MarkBatch)) == []
    ensures Marked(taxonomy, s, Run(taxonomy, s, Passing(|log|, MarkBatch)), log)
  {
    var s1 := PassApplies(taxonomy, s, m, log, MarkBatch);
    FetchesAll(s, m, log);
    MarkingEnds(taxonomy, s, s1, m, log);
  }

  lemma MarkingEnds(taxonomy: map<string, string>, s: Sys, s1: Sys, m: nat, log: seq<Change>)
    requires Queued(s, m, log) && |Fetch(s.rows, |log|)| == |log|
    requires Applied(taxonomy, s, s1, Fetch(s.rows, |log|), log, |log|)
    requires forall i :: 0 <= i < |log| ==> Fetch(s.rows, |log|)[i] == m + i
    ensures Marked(taxonomy, s, Act(taxonomy, s1, MarkBatch), log)
  {
    var ids := Fetch(s.rows, |log|);
    assert ids[..|log|] == ids && log[..|log|] == log;
    forall i | m <= i < |s.rows|
      ensures i in ids
    {
      assert ids[i - m] == i;
    }
  }

  // -----------------------------------------------------------------
  // Writes, and the whole run
  // -----------------------------------------------------------------

  lemma {:induction false} WritesConcat(a: seq<Action>, b: seq<Action>)
    ensures WritesOf(a + b) == WritesOf(a) + WritesOf(b)
  {
    if b == [] {
      assert a + b == a && WritesOf(a) + [] == WritesOf(a);
    } else {
      assert (a + b)[..|a + b| - 1] == a + b[..|b| - 1];
      WritesConcat(a, b[..|b| - 1]);
      AppendAssociates(WritesOf(a), WritesOf(b[..|b| - 1]), if b[|b| - 1].DoWrite? then [b[|b| - 1].write] else []);
    }
  }

  /** Writes only append pending events. */
  ghost predicate Extended(s: Sys, s': Sys) {
    && s'.catalog == s.catalog && s'.dead == s.dead && s'.phase == s.phase
    && |s.rows| <= |s'.rows| && s'.rows[..|s.rows|] == s.rows
    && forall i :: |s.rows| <= i < |s'.rows| ==> !s'.rows[i].published
  }

  lemma WriteExtends(taxonomy: map<string, string>, s: Sys, s1: Sys, w: Write)
    requires Extended(s, s1)
    ensures Extended(s, Act(taxonomy, s1, DoWrite(w)))
  {
  }

  lemma {:induction false} WritingExtends(taxonomy: map<string, string>, s: Sys, writes: seq<Write>)
    ensures WritesOf(Writing(writes)) == writes
    ensures Extended(s, Run(taxonomy, s, Writing(writes)))
  {
    if writes != [] {
      var init, last := writes[..|writes| - 1], writes[|writes| - 1];
      WritingExtends(taxonomy, s, init);
      assert Writing(writes) == Writing(init) + [DoWrite(last)];
      RunAppend(taxonomy, s, Writing(init), DoWrite(last));
      WriteExtends(taxonomy, s, Run(taxonomy, s, Writing(init)), last);
      assert Writing(writes)[..|writes| - 1] == Writing(init);
    }
  }

  /** Nothing is pending, nothing was dead-lettered. */
  ghost predicate Quiet(s: Sys) {
    s.phase.Idle? && s.dead == {} && NothingPending(s)
  }

  lemma ExtendedIsQueued(s: Sys, s': Sys, log: seq<Change>)
    requires Quiet(s) && Extended(s, s') && log == Changes(EventsOf(s'.rows))
    ensures Queued(s', |s.rows|, log[|s.rows|..])
  {
    assert forall i :: 0 <= i < |s.rows| ==> s'.rows[i] == s.rows[i];
    assert forall i :: 0 <= i < |s'.rows| ==> log[i] == Decode(s'.rows[i].event);
  }

  /** After a quiet run, new writes queue exactly their own changes. */
  lemma WritesQueue(taxonomy: map<string, string>, before: seq<Action>, first: seq<Write>, second: seq<Write>)
    requires WritesOf(before) == first && Quiet(Run(taxonomy, START, before))
    ensures |LogOf(first)| <= |LogOf(first + second)|
    ensures WritesOf(before + Writing(second)) == first + second
    ensures var s, s' := Run(taxonomy, START, before), Run(taxonomy, START, before + Writing(second));
            && s'.catalog == s.catalog && s'.dead == {}
            && Queued(s', |LogOf(first)|, LogOf(first + second)[|LogOf(first)|..])
  {
    var s := Run(taxonomy, START, before);
    WritingExtends(taxonomy, s, second);
    WritesConcat(before, Writing(second));
    RunConcat(taxonomy, START, before, Writing(second));
    RunIsHistory(taxonomy, before);
    RunIsHistory(taxonomy, before + Writing(second));
    ExtendedIsQueued(s, Run(taxonomy, START, before + Writing(second)), LogOf(first + second));
  }

  /** The pass that crashes, as the continuation of a run. */
  lemma ThenCrash(taxonomy: map<string, string>, before: seq<Action>, s: Sys, m: nat, log: seq<Change>)
    returns (after: seq<Action>)
    requires s == Run(taxonomy, START, before)
    requires Queued(s, m, log) && Accepts(taxonomy, s.catalog.tables, log)
    ensures WritesOf(after) == WritesOf(before) && Unmarked(taxonomy, s, Run(taxonomy, START, after), log)
  {
    CrashEnds(taxonomy, s, m, log);
    after := before + Passing(|log|, Crash);
    RunConcat(taxonomy, START, before, Passing(|log|, Crash));
    WritesConcat(before, Passing(|log|, Crash));
    assert WritesOf(before) + [] == WritesOf(before);
  }

  /** The pass that is marked, as the continuation of a run. */
  lemma ThenMark(taxonomy: map<string, string>, before: seq<Action>, s: Sys, m: nat, log: seq<Change>)
    returns (after: seq<Action>)
    requires s == Run(taxonomy, START, before)
    requires Queued(s, m, log) && Accepts(taxonomy, s.catalog.tables, log)
    ensures WritesOf(after) == WritesOf(before) && Marked(taxonomy, s, Run(taxonomy, START, after), log)
  {
    MarkEnds(taxonomy, s, m, log);
    after := before + Passing(|log|, MarkBatch);
    RunConcat(taxonomy, START, before, Passing(|log|, MarkBatch));
    WritesConcat(before, Passing(|log|, MarkBatch));
    assert WritesOf(before) + [] == WritesOf(before);
  }

  /** Some writes, delivered once. */
  lemma DeliveredOnce(taxonomy: map<string, string>, writes: seq<Write>) returns (actions: seq<Action>)
    requires Accepts(taxonomy, EMPTY_TABLES, LogOf(writes))
    ensures WritesOf(actions) == writes
    ensures var s := Run(taxonomy, START, actions);
            Quiet(s) && s.catalog.tables == Fold(taxonomy, EMPTY_TABLES, LogOf(writes))
  {
    var log := LogOf(writes);
    assert [] + Writing(writes) == Writing(writes) && [] + writes == writes && LogOf([]) == [];
    WritesQueue(taxonomy, [], [], writes);
    assert log[0..] == log;
    actions := ThenMark(taxonomy, Writing(writes), Run(taxonomy, START, Writing(writes)), 0, log);
  }

  /** Some writes delivered once and marked, then more writes delivered, and a crash. */
  lemma DeliveredThenCrash(taxonomy: map<string, string>, first: seq<Write>, second: seq<Write>, window: seq<Change>)
    returns (actions: seq<Action>)
    requires LogOf(first + second) == LogOf(first) + window && Accepts(taxonomy, EMPTY_TABLES, LogOf(first))
    requires Accepts(taxonomy, Fold(taxonomy, EMPTY_TABLES, LogOf(first)), window)
    ensures WritesOf(actions) == first + second
    ensures var s := Run(taxonomy, START, actions);
            && Queued(s, |LogOf(first)|, window) && s.dead == {}
            && s.catalog.tables == Fold(taxonomy, Fold(taxonomy, EMPTY_TABLES, LogOf(first)), window)
  {
    var m := |LogOf(first)|;
    assert LogOf(first + second)[m..] == window;
    var before := DeliveredOnce(taxonomy, first);
    WritesQueue(taxonomy, before, first, second);
    var s1 := Run(taxonomy, START, before + Writing(second));
    actions := ThenCrash(taxonomy, before + Writing(second), s1, m, window);
  }

  /** Some writes delivered once, then more writes delivered twice: after the first delivery the relay
    * crashes before it can mark the batch. */
  lemma DeliveredTwice(taxonomy: map<string, string>, first: seq<Write>, second: seq<Write>, window: seq<Change>)
    returns (actions: seq<Action>)
    requires LogOf(first + second) == LogOf(first) + window && Accepts(taxonomy, EMPTY_TABLES, LogOf(first))
    requires var t := Fold(taxonomy, EMPTY_TABLES, LogOf(first));
             Accepts(taxonomy, t, window) && Accepts(taxonomy, Fold(taxonomy, t, window), window)
    ensures WritesOf(actions) == first + second
    ensures var s := Run(taxonomy, START, actions);
            var t := Fold(taxonomy, EMPTY_TABLES, LogOf(first));
            Quiet(s) && s.catalog.tables == Fold(taxonomy, Fold(taxonomy, t, window), window)
  {
    var crashed := DeliveredThenCrash(taxonomy, first, second, window);
    actions := ThenMark(taxonomy, crashed, Run(taxonomy, START, crashed), |LogOf(first)|, window);
  }

  /** A whole history delivered twice. */
  lemma AllDeliveredTwice(taxonomy: map<string, string>, writes: seq<Write>) returns (actions: seq<Action>)
    requires var log := LogOf(writes);
             Accepts(taxonomy, EMPTY_TABLES, log) && Accepts(taxonomy, Fold(taxonomy, EMPTY_TABLES, log), log)
    ensures WritesOf(actions) == writes
    ensures var s, log := Run(taxonomy, START, actions), LogOf(writes);
            && Quiet(s) && s.source == Play(writes).source
            && s.catalog.tables == Fold(taxonomy, Fold(taxonomy, EMPTY_TABLES, log), log)
  {
    var log := LogOf(writes);
    assert [] + writes == writes && [] + log == log && LogOf([]) == [];
    actions := DeliveredTwice(taxonomy, [], writes, log);
    RunIsHistory(taxonomy, actions);
  }
}
