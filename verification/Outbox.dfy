/** The transactional outbox of one context (crates/db/src/outbox.rs).
  * The id of an event is its position in the table: AUTOINCREMENT ids are handed out in order and
  * rows are never deleted. */
module Outbox {
  import opened Prelude

  datatype Row<+E> = Row(event: E, published: bool, attempts: nat, lastError: Option<string>)

  function Fresh<E>(event: E): Row<E> {
    Row(event, false, 0, None)
  }

  predicate Pending<E>(rows: seq<Row<E>>, id: nat) {
    id < |rows| && !rows[id].published
  }

  /** `ids` are the unpublished events with the smallest ids, in order, at most `limit` of them. */
  ghost predicate IsFetch<E>(rows: seq<Row<E>>, limit: nat, ids: seq<nat>) {
    && (forall i :: 0 <= i < |ids| ==> Pending(rows, ids[i]))
    && (forall i, j :: 0 <= i < j < |ids| ==> ids[i] < ids[j])
    && |ids| <= limit
    && (forall id :: Pending(rows, id) ==> id in ids || (|ids| == limit && forall i :: 0 <= i < |ids| ==> ids[i] < id))
  }

  /** The first `limit` unpublished ids at or above `from`. */
  function FetchFrom<E>(rows: seq<Row<E>>, from: nat, limit: nat): (ids: seq<nat>)
    decreases |rows| - from
  {
    if limit == 0 || from >= |rows| then []
    else if rows[from].published then FetchFrom(rows, from + 1, limit)
    else [from] + FetchFrom(rows, from + 1, limit - 1)
  }

  function Fetch<E>(rows: seq<Row<E>>, limit: nat): seq<nat> {
    FetchFrom(rows, 0, limit)
  }

  lemma {:induction false} FetchAscends<E>(rows: seq<Row<E>>, from: nat, limit: nat)
    ensures var ids := FetchFrom(rows, from, limit);
            && (forall i :: 0 <= i < |ids| ==> from <= ids[i] && Pending(rows, ids[i]))
            && (forall i, j :: 0 <= i < j < |ids| ==> ids[i] < ids[j])
            && |ids| <= limit
    decreases |rows| - from
  {
    if limit == 0 || from >= |rows| {
    } else if rows[from].published {
      FetchAscends(rows, from + 1, limit);
    } else {
      FetchAscends(rows, from + 1, limit - 1);
    }
  }

  lemma {:induction false} FetchReaches<E>(rows: seq<Row<E>>, from: nat, limit: nat, id: nat)
    requires from <= id && Pending(rows, id)
    ensures var ids := FetchFrom(rows, from, limit);
            id in ids || (|ids| == limit && forall i :: 0 <= i < |ids| ==> ids[i] < id)
    decreases |rows| - from
  {
    if limit > 0 && from < id {
      FetchReaches(rows, from + 1, if rows[from].published then limit else limit - 1, id);
    }
  }

  /** The batch holds exactly the smallest unpublished ids, in order, up to the limit. */
  lemma FetchMeaning<E>(rows: seq<Row<E>>, limit: nat)
    ensures IsFetch(rows, limit, Fetch(rows, limit))
  {
    FetchAscends(rows, 0, limit);
    forall id | Pending(rows, id)
      ensures var ids := Fetch(rows, limit);
              id in ids || (|ids| == limit && forall i :: 0 <= i < |ids| ==> ids[i] < id)
    {
      FetchReaches(rows, 0, limit, id);
    }
  }

  /** One more attempt has failed. */
  function RecordFailure<E>(rows: seq<Row<E>>, id: nat, error: string): (r: seq<Row<E>>)
    requires id < |rows|
  {
    rows[id := rows[id].(attempts := rows[id].attempts + 1, lastError := Some(error))]
  }

  /** The listed events are published. */
  function MarkAll<E>(rows: seq<Row<E>>, ids: seq<nat>): (r: seq<Row<E>>) {
    seq(|rows|, i requires 0 <= i < |rows| => if i in ids then rows[i].(published := true) else rows[i])
  }

  /** Marking publishes exactly the listed rows and changes nothing else about any row. */
  lemma MarkAllMeaning<E>(rows: seq<Row<E>>, ids: seq<nat>)
    ensures |MarkAll(rows, ids)| == |rows|
    ensures forall i :: 0 <= i < |rows| ==>
              var after := MarkAll(rows, ids)[i];
              && after.event == rows[i].event && after.attempts == rows[i].attempts
              && after.lastError == rows[i].lastError
              && (after.published <==> rows[i].published || i in ids)
  {
  }

  class OutboxTable<E(==)> {
    var rows: seq<Row<E>>

    constructor ()
      ensures rows == []
    {
      rows := [];
    }

    /** Appends one unpublished row and returns its id. */
    method Enqueue(event: E) returns (id: nat)
      modifies this
      ensures id == old(|rows|) && rows == old(rows) + [Row(event, false, 0, None)]
    {
      id := |rows|;
      rows := rows + [Fresh(event)];
    }

    method FetchUnpublished(limit: nat) returns (ids: seq<nat>)
      ensures IsFetch(rows, limit, ids) && ids == Fetch(rows, limit)
    {
      ids := [];
      var next := 0;
      while next < |rows| && |ids| < limit
        invariant next <= |rows| && |ids| <= limit
        invariant ids + FetchFrom(rows, next, limit - |ids|) == Fetch(rows, limit)
      {
        if !rows[next].published {
          ids := ids + [next];
        }
        next := next + 1;
      }
      assert ids + [] == ids;
      FetchMeaning(rows, limit);
    }

    /** Counts a failed delivery and returns the new number of attempts. */
    method RecordFailureAt(id: nat, error: string) returns (attempts: nat)
      requires id < |rows|
      modifies this
      ensures rows == RecordFailure(old(rows), id, error)
      ensures attempts == rows[id].attempts == old(rows[id].attempts) + 1 && rows[id].lastError == Some(error)
      ensures rows[id].event == old(rows[id].event) && rows[id].published == old(rows[id].published)
      ensures forall i :: 0 <= i < |rows| && i != id ==> rows[i] == old(rows[i])
    {
      rows := RecordFailure(rows, id, error);
      attempts := rows[id].attempts;
    }

    method MarkPublished(ids: seq<nat>)
      modifies this
      ensures rows == MarkAll(old(rows), ids)
    {
      if ids == [] {
        return;
      }
      for k := 0 to |ids|
        invariant rows == MarkAll(old(rows), ids[..k])
      {
        var id := ids[k];
        assert ids[..k + 1] == ids[..k] + [id];
        if id < |rows| {
          rows := rows[id := rows[id].(published := true)];
        }
      }
      assert ids[..|ids|] == ids;
    }
  }
}
