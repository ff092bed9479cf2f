/** The category half of the sitemap (crates/web/src/routes/sitemap.rs): a breadth-first walk with a queue
  * over the parent links of the `categories` table (crates/catalog/src/repository.rs). Nothing is assumed
  * about the links: they may form cycles or point nowhere. */
module Sitemap {
  import opened Prelude
  import opened Ranking

  datatype Category = Category(parent: Option<string>, slug: string, position: Int64)

  type Categories = map<string, Category>

  /** The rows with this parent; without one, the roots. */
  function Children(t: Categories, parent: Option<string>): set<Entry> {
    set id | id in t && t[id].parent == parent :: Entry(t[id].position, id)
  }

  function ListByParent(t: Categories, parent: Option<string>): seq<Entry> {
    Sorted(Children(t, parent))
  }

  /** The parent chain of `id` reaches a root after `depth` steps. */
  ghost predicate AtDepth(t: Categories, id: string, depth: nat)
    decreases depth
  {
    id in t && match t[id].parent
               case None => depth == 0
               case Some(p) => depth > 0 && AtDepth(t, p, depth - 1)
  }

  ghost predicate Rooted(t: Categories, id: string) {
    exists depth :: AtDepth(t, id, depth)
  }

  lemma {:induction false} DepthIsUnique(t: Categories, id: string, a: nat, b: nat)
    requires AtDepth(t, id, a) && AtDepth(t, id, b)
    ensures a == b
    decreases a
  {
    if a > 0 {
      DepthIsUnique(t, t[id].parent.value, a - 1, b - 1);
    }
  }

  // -----------------------------------------------------------------
  // The order of the walk
  // -----------------------------------------------------------------

  ghost predicate ParentsFirst(t: Categories, ids: seq<string>) {
    forall j :: 0 <= j < |ids| && ids[j] in t && t[ids[j]].parent.Some? ==> t[ids[j]].parent.value in ids[..j]
  }

  ghost predicate ShallowFirst(t: Categories, ids: seq<string>) {
    forall i, j, a, b :: 0 <= i < j < |ids| && AtDepth(t, ids[i], a) && AtDepth(t, ids[j], b) ==> a <= b
  }

  /** Siblings come by position, then by id. */
  ghost predicate InOrder(t: Categories, a: string, b: string) {
    a in t && b in t && t[a].parent == t[b].parent ==> Before(Entry(t[a].position, a), Entry(t[b].position, b))
  }

  ghost predicate SiblingsInOrder(t: Categories, ids: seq<string>) {
    forall i, j :: 0 <= i < j < |ids| ==> InOrder(t, ids[i], ids[j])
  }

  /** Entry 0 of the queue's history is the root list, entry h + 1 the category emitted at h. */
  ghost function Node(ids: seq<string>, h: nat): Option<string>
    requires h <= |ids|
  {
    if h == 0 then None else Some(ids[h - 1])
  }

  /** `ids[j]` was found among the children of the history's entry `via[j]`. */
  ghost predicate FoundVia(t: Categories, ids: seq<string>, via: seq<nat>, j: nat) {
    && j < |ids| && j < |via| && ids[j] in t
    && via[j] <= j && t[ids[j]].parent == Node(ids, via[j])
  }

  ghost predicate NoLater(via: seq<nat>, i: nat, j: nat) {
    i < |via| && j < |via| && via[i] <= via[j]
  }

  /** All children of the history's entry `h` are there. */
  ghost predicate Expanded(t: Categories, ids: seq<string>, h: nat) {
    h <= |ids| && forall id :: id in t && t[id].parent == Node(ids, h) ==> id in ids
  }

  /** The first `heads` entries of the history have been taken from the queue and expanded. */
  ghost predicate Walked(t: Categories, ids: seq<string>, via: seq<nat>, heads: nat) {
    && |via| == |ids| && heads <= |ids| + 1
    && Distinct(ids)
    && (forall j :: 0 <= j < |ids| ==> FoundVia(t, ids, via, j))
    && (forall j :: 0 <= j < |via| ==> via[j] < heads)
    && (forall i, j :: 0 <= i < j < |ids| ==> NoLater(via, i, j))
    && SiblingsInOrder(t, ids)
    && (forall h :: 0 <= h < heads ==> Expanded(t, ids, h))
  }

  lemma NodesDiffer(ids: seq<string>, g: nat, h: nat)
    requires Distinct(ids) && g < h <= |ids|
    ensures Node(ids, g) != Node(ids, h)
  {
  }

  /** The children of one parent, as ids. */
  ghost predicate AreChildren(t: Categories, parent: Option<string>, kids: seq<string>) {
    && (forall i :: 0 <= i < |kids| ==> kids[i] in t && t[kids[i]].parent == parent)
    && (forall i, j :: 0 <= i < j < |kids| ==>
         kids[i] != kids[j] && Before(Entry(t[kids[i]].position, kids[i]), Entry(t[kids[j]].position, kids[j])))
    && (forall id :: id in t && t[id].parent == parent ==> id in kids)
  }

  lemma ListByParentMeaning(t: Categories, parent: Option<string>, kids: seq<string>)
    requires |kids| == |ListByParent(t, parent)|
    requires forall i :: 0 <= i < |kids| ==> kids[i] == ListByParent(t, parent)[i].id
    ensures AreChildren(t, parent, kids)
  {
    var list := ListByParent(t, parent);
    SortedMeaning(Children(t, parent));
    forall i | 0 <= i < |list|
      ensures kids[i] in t && t[kids[i]].parent == parent && list[i] == Entry(t[kids[i]].position, kids[i])
    {
      assert list[i] in Elements(list);
    }
    forall i, j | 0 <= i < j < |kids|
      ensures kids[i] != kids[j]
    {
      BeforeIsTotal(list[i], list[j]);
    }
    forall id | id in t && t[id].parent == parent
      ensures id in kids
    {
      assert Entry(t[id].position, id) in Elements(list);
      var i :| 0 <= i < |list| && list[i] == Entry(t[id].position, id);
      assert kids[i] == id;
    }
  }

  lemma WalkStep(t: Categories, ids: seq<string>, via: seq<nat>, heads: nat, kids: seq<string>)
    requires Walked(t, ids, via, heads) && heads <= |ids|
    requires AreChildren(t, Node(ids, heads), kids)
    ensures Walked(t, ids + kids, via + seq(|kids|, _ => heads), heads + 1)
  {
    var ids', via' := ids + kids, via + seq(|kids|, _ => heads);
    assert forall h :: 0 <= h <= |ids| ==> Node(ids', h) == Node(ids, h);
    forall j | 0 <= j < |ids'|
      ensures FoundVia(t, ids', via', j) && via'[j] < heads + 1
    {
      if j < |ids| {
        assert FoundVia(t, ids, via, j);
      } else {
        assert ids'[j] == kids[j - |ids|];
      }
    }
    forall i, j | 0 <= i < j < |ids'|
      ensures NoLater(via', i, j) && ids'[i] != ids'[j] && InOrder(t, ids'[i], ids'[j])
    {
      if j < |ids| {
        assert NoLater(via, i, j) && InOrder(t, ids[i], ids[j]) && ids[i] != ids[j];
      } else if i < |ids| {
        assert FoundVia(t, ids, via, i);
        NodesDiffer(ids, via[i], heads);
        assert ids'[j] == kids[j - |ids|];
      } else {
        assert ids'[i] == kids[i - |ids|] && ids'[j] == kids[j - |ids|];
      }
    }
    forall h | 0 <= h < heads + 1
      ensures Expanded(t, ids', h)
    {
      if h < heads {
        assert Expanded(t, ids, h);
      }
    }
  }

  lemma WalkFits(t: Categories, ids: seq<string>, via: seq<nat>, heads: nat)
    requires Walked(t, ids, via, heads)
    ensures |ids| <= |t|
  {
    forall id | id in Elements(ids)
      ensures id in t.Keys
    {
      var j :| 0 <= j < |ids| && ids[j] == id;
      assert FoundVia(t, ids, via, j);
    }
    DistinctCardinality(ids);
    SubsetCardinality(Elements(ids), t.Keys);
    assert |t.Keys| == |t|;
  }

  // -----------------------------------------------------------------
  // What a finished walk has emitted
  // -----------------------------------------------------------------

  lemma {:induction false} EmittedIsRooted(t: Categories, ids: seq<string>, via: seq<nat>, j: nat)
    requires |via| == |ids| && (forall i :: 0 <= i < |ids| ==> FoundVia(t, ids, via, i)) && j < |ids|
    ensures Rooted(t, ids[j])
  {
    assert FoundVia(t, ids, via, j);
    if via[j] == 0 {
      assert AtDepth(t, ids[j], 0);
    } else {
      EmittedIsRooted(t, ids, via, via[j] - 1);
      var d: nat :| AtDepth(t, ids[via[j] - 1], d);
      assert AtDepth(t, ids[j], d + 1);
    }
  }

  lemma {:induction false} RootedIsEmitted(t: Categories, ids: seq<string>, id: string, depth: nat)
    requires (forall h :: 0 <= h <= |ids| ==> Expanded(t, ids, h)) && AtDepth(t, id, depth)
    ensures id in ids
    decreases depth
  {
    if depth == 0 {
      assert Expanded(t, ids, 0) && t[id].parent == Node(ids, 0);
    } else {
      RootedIsEmitted(t, ids, t[id].parent.value, depth - 1);
      var i :| 0 <= i < |ids| && ids[i] == t[id].parent.value;
      assert Expanded(t, ids, i + 1) && t[id].parent == Node(ids, i + 1);
    }
  }

  lemma {:induction false} ShallowBefore(t: Categories, ids: seq<string>, via: seq<nat>,
                                         i: nat, j: nat, a: nat, b: nat)
    requires |via| == |ids| && i < j < |ids|
    requires forall k :: 0 <= k < |ids| ==> FoundVia(t, ids, via, k)
    requires forall k, m :: 0 <= k < m < |ids| ==> NoLater(via, k, m)
    requires AtDepth(t, ids[i], a) && AtDepth(t, ids[j], b)
    ensures a <= b
    decreases j
  {
    assert FoundVia(t, ids, via, i) && FoundVia(t, ids, via, j) && NoLater(via, i, j);
    if via[i] > 0 {
      if via[i] == via[j] {
        DepthIsUnique(t, ids[via[i] - 1], a - 1, b - 1);
      } else {
        ShallowBefore(t, ids, via, via[i] - 1, via[j] - 1, a - 1, b - 1);
      }
    }
  }

  /** The walk has emitted exactly the categories whose parent chain reaches a root, each once, parents
    * before children, in order of depth, siblings by position and id. */
  ghost predicate BreadthFirst(t: Categories, ids: seq<string>) {
    && Distinct(ids)
    && (forall id :: id in ids <==> Rooted(t, id))
    && ParentsFirst(t, ids)
    && ShallowFirst(t, ids)
    && SiblingsInOrder(t, ids)
  }

  lemma FinishedWalkIsBreadthFirst(t: Categories, ids: seq<string>, via: seq<nat>)
    requires Walked(t, ids, via, |ids| + 1)
    ensures BreadthFirst(t, ids)
  {
    forall id
      ensures id in ids <==> Rooted(t, id)
    {
      if id in ids {
        var j :| 0 <= j < |ids| && ids[j] == id;
        EmittedIsRooted(t, ids, via, j);
      } else if Rooted(t, id) {
        var d: nat :| AtDepth(t, id, d);
        RootedIsEmitted(t, ids, id, d);
      }
    }
    forall j | 0 <= j < |ids| && ids[j] in t && t[ids[j]].parent.Some?
      ensures t[ids[j]].parent.value in ids[..j]
    {
      assert FoundVia(t, ids, via, j);
      assert ids[..j][via[j] - 1] == t[ids[j]].parent.value;
    }
    forall i, j, a, b | 0 <= i < j < |ids| && AtDepth(t, ids[i], a) && AtDepth(t, ids[j], b)
      ensures a <= b
    {
      ShallowBefore(t, ids, via, i, j, a, b);
    }
  }

  // -----------------------------------------------------------------
  // The walk
  // -----------------------------------------------------------------

  ghost predicate PathsOf(t: Categories, base: string, ids: seq<string>, paths: seq<string>) {
    && |paths| == |ids|
    && forall i :: 0 <= i < |ids| ==> ids[i] in t && paths[i] == base + "/c/" + t[ids[i]].slug
  }

  /** `queue` is what is left of the history after its first `heads` entries. */
  ghost predicate Waiting(ids: seq<string>, heads: nat, queue: seq<Option<string>>) {
    && heads <= |ids| + 1 && |queue| == |ids| + 1 - heads
    && forall k :: 0 <= k < |queue| ==> queue[k] == Node(ids, heads + k)
  }

  function Ids(list: seq<Entry>): (ids: seq<string>)
    ensures |ids| == |list| && forall i :: 0 <= i < |list| ==> ids[i] == list[i].id
  {
    seq(|list|, i requires 0 <= i < |list| => list[i].id)
  }

  /** The inner loop: every child is emitted and queued. */
  method Emit(t: Categories, base: string, children: seq<Entry>, paths: seq<string>, ids: seq<string>,
              queue: seq<Option<string>>, ghost heads: nat)
    returns (paths': seq<string>, ids': seq<string>, queue': seq<Option<string>>)
    requires forall i :: 0 <= i < |children| ==> children[i].id in t
    requires Waiting(ids, heads, queue) && PathsOf(t, base, ids, paths)
    ensures ids' == ids + Ids(children)
    ensures Waiting(ids', heads, queue') && PathsOf(t, base, ids', paths')
  {
    paths', ids', queue' := paths, ids, queue;
    for i := 0 to |children|
      invariant ids' == ids + Ids(children)[..i]
      invariant Waiting(ids', heads, queue')
      invariant PathsOf(t, base, ids', paths')
    {
      var id := children[i].id;
      paths' := paths' + [base + "/c/" + t[id].slug];
      queue' := queue' + [Some(id)];
      ids' := ids' + [id];
    }
  }

  /** `ids` are the emitted categories behind `paths`. */
  method CategoryPaths(t: Categories, base: string) returns (paths: seq<string>, ids: seq<string>)
    ensures BreadthFirst(t, ids)
    ensures |paths| == |ids|
    ensures forall i :: 0 <= i < |ids| ==> ids[i] in t && paths[i] == base + "/c/" + t[ids[i]].slug
  {
    paths, ids := [], [];
    var queue: seq<Option<string>> := [None];
    ghost var via: seq<nat>, heads := [], 0;
    WalkFits(t, ids, via, heads);
    while queue != []
      invariant Walked(t, ids, via, heads)
      invariant |ids| <= |t|
      invariant Waiting(ids, heads, queue)
      invariant PathsOf(t, base, ids, paths)
      decreases |t| - |ids| + |queue|
    {
      var parent := queue[0];
      assert parent == Node(ids, heads);
      queue := queue[1..];
      var children := ListByParent(t, parent);
      ListByParentMeaning(t, parent, Ids(children));
      WalkStep(t, ids, via, heads, Ids(children));
      via := via + seq(|children|, _ => heads);
      heads := heads + 1;
      paths, ids, queue := Emit(t, base, children, paths, ids, queue, heads);
      WalkFits(t, ids, via, heads);
    }
    FinishedWalkIsBreadthFirst(t, ids, via);
  }
}
