/** Why replaying events is harmless: the projection never asks whether it has seen an event before
  * (`inbox::mark_processed` is not called), so convergence rests on its handlers absorbing replays.
  *
  * Slug ownership: `own` names, for every slug, the one product that may ever use it. */
module Replication {
  import opened Prelude
  import opened Projection

  type Owner = string -> string

  predicate OwnsSlug(own: Owner, c: Change) {
    (c.Create? ==> own(c.card.slug) == c.id) && (c.Core? ==> own(c.slug) == c.id)
  }

  ghost predicate Owned(own: Owner, log: seq<Change>) {
    forall i :: 0 <= i < |log| ==> OwnsSlug(own, log[i])
  }

  ghost predicate CardsOwned(own: Owner, cards: map<string, Card>) {
    forall id :: id in cards ==> own(cards[id].slug) == id
  }

  function NextLive(live: set<string>, c: Change): set<string> {
    if c.Create? then live + {c.id} else if c.Delete? then live - {c.id} else live
  }

  /** The products that exist after the first `k` events. */
  function Live(log: seq<Change>, k: nat): set<string>
    requires k <= |log|
  {
    if k == 0 then {} else NextLive(Live(log, k - 1), log[k - 1])
  }

  /** A product is created only while it does not exist and edited only while it does. */
  predicate Allowed(live: set<string>, c: Change) {
    && (c.Create? ==> c.id !in live)
    && (c.Core? || c.Touch? || c.SetStatus? ==> c.id in live)
  }

  ghost predicate WellFormed(log: seq<Change>) {
    forall k :: 0 <= k < |log| ==> Allowed(Live(log, k), log[k])
  }

  /** The catalog that has applied the first `k` events in order. */
  function Prefix(taxonomy: map<string, string>, log: seq<Change>, k: nat): Tables
    requires k <= |log|
  {
    Fold(taxonomy, EMPTY_TABLES, log[..k])
  }

  lemma PrefixNext(taxonomy: map<string, string>, log: seq<Change>, k: nat)
    requires k < |log|
    ensures Prefix(taxonomy, log, k + 1) == Step(taxonomy, Prefix(taxonomy, log, k), log[k])
  {
    assert log[..k + 1] == log[..k] + [log[k]];
    FoldAppend(taxonomy, EMPTY_TABLES, log[..k], log[k]);
  }

  lemma WindowFirst(taxonomy: map<string, string>, t: Tables, log: seq<Change>, a: nat, m: nat)
    requires a < m <= |log|
    ensures Fold(taxonomy, t, log[a..m]) == Fold(taxonomy, Step(taxonomy, t, log[a]), log[a + 1..m])
  {
    assert log[a..m][1..] == log[a + 1..m];
  }

  lemma WindowLast(taxonomy: map<string, string>, t: Tables, log: seq<Change>, a: nat, m: nat)
    requires a <= m < |log|
    ensures Fold(taxonomy, t, log[a..m + 1]) == Step(taxonomy, Fold(taxonomy, t, log[a..m]), log[m])
  {
    assert log[a..m + 1] == log[a..m] + [log[m]];
    FoldAppend(taxonomy, t, log[a..m], log[m]);
  }

  // -----------------------------------------------------------------
  // Under slug ownership no event is ever refused
  // -----------------------------------------------------------------

  lemma OwnedStep(taxonomy: map<string, string>, own: Owner, t: Tables, c: Change)
    requires CardsOwned(own, t.cards) && OwnsSlug(own, c)
    ensures ApplyTables(taxonomy, t, c).Some? && CardsOwned(own, Step(taxonomy, t, c).cards)
    ensures c.Create? ==> !SlugTaken(t.cards, c.id, c.card.slug)
    ensures c.Core? ==> !SlugTaken(t.cards, c.id, c.slug)
  {
  }

  lemma {:induction false} OwnedPrefix(taxonomy: map<string, string>, own: Owner, log: seq<Change>, k: nat)
    requires Owned(own, log) && k <= |log|
    ensures CardsOwned(own, Prefix(taxonomy, log, k).cards)
  {
    if k > 0 {
      OwnedPrefix(taxonomy, own, log, k - 1);
      PrefixNext(taxonomy, log, k - 1);
      OwnedStep(taxonomy, own, Prefix(taxonomy, log, k - 1), log[k - 1]);
    }
  }

  // -----------------------------------------------------------------
  // Absorption: an event that comes again later in a window may as well not have come early
  // -----------------------------------------------------------------

  function Lookup<K, V>(m: map<K, V>, k: K): Option<V> {
    if k in m then Some(m[k]) else None
  }

  /** The card that results when an edit finds its product. */
  function EditCard(card: Card, c: Change): Card
    requires c.Core? || c.Touch? || c.SetStatus?
  {
    match c
    case Core(_, _, _, _, _, _, _) => WithCore(card, c)
    case Touch(_, at) => card.(updatedAt := at)
    case SetStatus(_, status, at) => card.(status := status, updatedAt := at)
  }

  /** What a change does to the card of one product, clashes of slugs aside. */
  function CardStep(o: Option<Card>, c: Change, id: string): Option<Card> {
    if c.Ignore? || c.id != id then o else
    match c
    case Create(_, card) => if o.Some? then o else Some(card)
    case Delete(_) => None
    case SetAttr(_, _, _, _) => o
    case ClearAttr(_, _) => o
    case Ignore => o
    case _ => if o.Some? then Some(EditCard(o.value, c)) else None
  }

  function AttrStep(taxonomy: map<string, string>, o: Option<AttrRow>, c: Change, k: AttrKey): Option<AttrRow> {
    match c
    case SetAttr(id, attribute, text, num) =>
      if k == (id, attribute) && attribute in taxonomy then Some(AttrRow(taxonomy[attribute], text, num)) else o
    case ClearAttr(id, attribute) => if k == (id, attribute) then None else o
    case Delete(id) => if k.0 == id then None else o
    case _ => o
  }

  /** Under slug ownership products do not interfere: a step works on each card and each value alone. */
  lemma StepIsPointwise(taxonomy: map<string, string>, own: Owner, t: Tables, c: Change)
    requires CardsOwned(own, t.cards) && OwnsSlug(own, c)
    ensures forall id :: Lookup(Step(taxonomy, t, c).cards, id) == CardStep(Lookup(t.cards, id), c, id)
    ensures forall k :: Lookup(Step(taxonomy, t, c).attrs, k) == AttrStep(taxonomy, Lookup(t.attrs, k), c, k)
  {
    OwnedStep(taxonomy, own, t, c);
  }

  lemma SameLookupsSameTables(a: Tables, b: Tables)
    requires forall id :: Lookup(a.cards, id) == Lookup(b.cards, id)
    requires forall k :: Lookup(a.attrs, k) == Lookup(b.attrs, k)
    ensures a == b
  {
    assert forall id :: id in a.cards <==> Lookup(a.cards, id).Some?;
    assert forall id :: id in b.cards <==> Lookup(b.cards, id).Some?;
    assert forall k :: k in a.attrs <==> Lookup(a.attrs, k).Some?;
    assert forall k :: k in b.attrs <==> Lookup(b.attrs, k).Some?;
    assert a.cards == b.cards && a.attrs == b.attrs;
  }

  /** How far the card of product `id` may differ when `oa` has seen the event `e` early and `ob` has not;
    * `alive` says whether the product of `e` exists at this point of the log. */
  predicate NearCard(e: Change, alive: bool, id: string, oa: Option<Card>, ob: Option<Card>) {
    if e.Ignore? || e.id != id then oa == ob else
    match e
    case Create(_, card) => alive || oa == ob || (ob.None? && oa == Some(card))
    case Delete(_) => true
    case SetAttr(_, _, _, _) => oa == ob
    case ClearAttr(_, _) => oa == ob
    case Ignore => oa == ob
    case _ => (oa.None? && ob.None?) || (oa.Some? && ob.Some? && EditCard(oa.value, e) == EditCard(ob.value, e))
  }

  /** The attribute values that may differ likewise. */
  predicate InScope(taxonomy: map<string, string>, e: Change, alive: bool, k: AttrKey) {
    match e
    case SetAttr(id, attribute, _, _) => k == (id, attribute) && attribute in taxonomy
    case ClearAttr(id, attribute) => k == (id, attribute)
    case Delete(id) => k.0 == id
    case Create(id, _) => alive && k.0 == id
    case _ => false
  }

  predicate NearAttr(taxonomy: map<string, string>, e: Change, alive: bool, k: AttrKey, oa: Option<AttrRow>,
      ob: Option<AttrRow>) {
    oa == ob || InScope(taxonomy, e, alive, k)
  }

  ghost predicate Near(taxonomy: map<string, string>, e: Change, alive: bool, a: Tables, b: Tables) {
    && (forall id :: NearCard(e, alive, id, Lookup(a.cards, id), Lookup(b.cards, id)))
    && (forall k :: NearAttr(taxonomy, e, alive, k, Lookup(a.attrs, k), Lookup(b.attrs, k)))
  }

  predicate AliveFor(e: Change, live: set<string>) {
    !e.Ignore? && e.id in live
  }

  lemma NearCardNext(e: Change, live: set<string>, id: string, oa: Option<Card>, ob: Option<Card>, x: Change)
    requires NearCard(e, AliveFor(e, live), id, oa, ob) && (e.Create? ==> Allowed(live, x))
    ensures NearCard(e, AliveFor(e, NextLive(live, x)), id, CardStep(oa, x, id), CardStep(ob, x, id))
  {
  }

  lemma NearAttrNext(taxonomy: map<string, string>, e: Change, live: set<string>, k: AttrKey, oa: Option<AttrRow>,
      ob: Option<AttrRow>, x: Change)
    requires NearAttr(taxonomy, e, AliveFor(e, live), k, oa, ob)
    ensures NearAttr(taxonomy, e, AliveFor(e, NextLive(live, x)), k, AttrStep(taxonomy, oa, x, k),
        AttrStep(taxonomy, ob, x, k))
  {
  }

  lemma NearStart(taxonomy: map<string, string>, own: Owner, t: Tables, e: Change, alive: bool)
    requires CardsOwned(own, t.cards) && OwnsSlug(own, e)
    ensures Near(taxonomy, e, alive, Step(taxonomy, t, e), t)
  {
    StepIsPointwise(taxonomy, own, t, e);
  }

  lemma NearEnd(taxonomy: map<string, string>, own: Owner, e: Change, alive: bool, a: Tables, b: Tables)
    requires Near(taxonomy, e, alive, a, b) && (e.Create? ==> !alive)
    requires CardsOwned(own, a.cards) && CardsOwned(own, b.cards) && OwnsSlug(own, e)
    ensures Step(taxonomy, a, e) == Step(taxonomy, b, e)
  {
    var a', b' := Step(taxonomy, a, e), Step(taxonomy, b, e);
    StepIsPointwise(taxonomy, own, a, e);
    StepIsPointwise(taxonomy, own, b, e);
    forall id
      ensures Lookup(a'.cards, id) == Lookup(b'.cards, id)
    {
      assert NearCard(e, alive, id, Lookup(a.cards, id), Lookup(b.cards, id));
    }
    forall k
      ensures Lookup(a'.attrs, k) == Lookup(b'.attrs, k)
    {
      assert NearAttr(taxonomy, e, alive, k, Lookup(a.attrs, k), Lookup(b.attrs, k));
    }
    SameLookupsSameTables(a', b');
  }

  lemma NearNext(taxonomy: map<string, string>, own: Owner, e: Change, live: set<string>, a: Tables, b: Tables,
      x: Change)
    requires Near(taxonomy, e, AliveFor(e, live), a, b) && (e.Create? ==> Allowed(live, x))
    requires CardsOwned(own, a.cards) && CardsOwned(own, b.cards) && OwnsSlug(own, x)
    ensures Near(taxonomy, e, AliveFor(e, NextLive(live, x)), Step(taxonomy, a, x), Step(taxonomy, b, x))
  {
    StepIsPointwise(taxonomy, own, a, x);
    StepIsPointwise(taxonomy, own, b, x);
    forall id {
      NearCardNext(e, live, id, Lookup(a.cards, id), Lookup(b.cards, id), x);
    }
    forall k {
      NearAttrNext(taxonomy, e, live, k, Lookup(a.attrs, k), Lookup(b.attrs, k), x);
    }
  }

  lemma {:induction false} NearWindow(taxonomy: map<string, string>, own: Owner, log: seq<Change>, a: Tables,
      b: Tables, from: nat, c: nat, m: nat)
    requires Owned(own, log) && from <= c < m <= |log| && (log[c].Create? ==> WellFormed(log))
    requires Near(taxonomy, log[c], AliveFor(log[c], Live(log, from)), a, b)
    requires CardsOwned(own, a.cards) && CardsOwned(own, b.cards)
    ensures Fold(taxonomy, a, log[from..m]) == Fold(taxonomy, b, log[from..m])
    decreases c - from
  {
    WindowFirst(taxonomy, a, log, from, m);
    WindowFirst(taxonomy, b, log, from, m);
    assert log[c].Create? ==> Allowed(Live(log, from), log[from]);
    if from == c {
      NearEnd(taxonomy, own, log[c], AliveFor(log[c], Live(log, c)), a, b);
    } else {
      NearNext(taxonomy, own, log[c], Live(log, from), a, b, log[from]);
      OwnedStep(taxonomy, own, a, log[from]);
      OwnedStep(taxonomy, own, b, log[from]);
      NearWindow(taxonomy, own, log, Step(taxonomy, a, log[from]), Step(taxonomy, b, log[from]), from + 1, c, m);
    }
  }

  /** From any state at all: delivering event `c` early changes nothing once a window containing it is replayed.
    * Only for a creation does it matter what the rest of the log looks like. */
  lemma Absorb(taxonomy: map<string, string>, own: Owner, log: seq<Change>, t: Tables, from: nat, c: nat, m: nat)
    requires Owned(own, log) && CardsOwned(own, t.cards) && from <= c < m <= |log|
    requires log[c].Create? ==> WellFormed(log)
    ensures Fold(taxonomy, Step(taxonomy, t, log[c]), log[from..m]) == Fold(taxonomy, t, log[from..m])
  {
    NearStart(taxonomy, own, t, log[c], AliveFor(log[c], Live(log, from)));
    OwnedStep(taxonomy, own, t, log[c]);
    NearWindow(taxonomy, own, log, Step(taxonomy, t, log[c]), t, from, c, m);
  }

  // -----------------------------------------------------------------
  // Any delivery that never skips
  // -----------------------------------------------------------------

  /** The catalog stands before event `next` and has seen the first `high` events at least once: from any
    * earlier position, replaying up to `high` restores the in-order state. */
  ghost predicate Resumable(taxonomy: map<string, string>, log: seq<Change>, t: Tables, next: nat, high: nat) {
    && next <= high <= |log|
    && forall from :: 0 <= from <= next ==> Fold(taxonomy, t, log[from..high]) == Prefix(taxonomy, log, high)
  }

  lemma RewindKeepsResumable(taxonomy: map<string, string>, log: seq<Change>, t: Tables, next: nat, high: nat,
      back: nat)
    requires Resumable(taxonomy, log, t, next, high) && back <= next
    ensures Resumable(taxonomy, log, t, back, high)
  {
  }

  /** Replaying a window up to `m` makes up for having delivered event `c` early. */
  ghost predicate Absorbed(taxonomy: map<string, string>, log: seq<Change>, t: Tables, c: nat, m: nat)
    requires c < m <= |log|
  {
    forall from :: 0 <= from <= c ==>
      Fold(taxonomy, Step(taxonomy, t, log[c]), log[from..m]) == Fold(taxonomy, t, log[from..m])
  }

  lemma DeliveryIsAbsorbed(taxonomy: map<string, string>, own: Owner, log: seq<Change>, t: Tables, c: nat, m: nat)
    requires WellFormed(log) && Owned(own, log) && CardsOwned(own, t.cards) && c < m <= |log|
    ensures Absorbed(taxonomy, log, t, c, m)
  {
    forall from | 0 <= from <= c
      ensures Fold(taxonomy, Step(taxonomy, t, log[c]), log[from..m]) == Fold(taxonomy, t, log[from..m])
    {
      Absorb(taxonomy, own, log, t, from, c, m);
    }
  }

  lemma DeliveryKeepsResumable(taxonomy: map<string, string>, own: Owner, log: seq<Change>, t: Tables, next: nat,
      high: nat)
    requires WellFormed(log) && Owned(own, log) && CardsOwned(own, t.cards)
    requires Resumable(taxonomy, log, t, next, high) && next < |log|
    ensures Resumable(taxonomy, log, Step(taxonomy, t, log[next]), next + 1, Max(next + 1, high))
    ensures CardsOwned(own, Step(taxonomy, t, log[next]).cards)
  {
    OwnedStep(taxonomy, own, t, log[next]);
    DeliveryIsAbsorbed(taxonomy, own, log, t, next, Max(next + 1, high));
    AbsorbedKeepsResumable(taxonomy, log, t, next, high);
  }

  lemma AbsorbedKeepsResumable(taxonomy: map<string, string>, log: seq<Change>, t: Tables, next: nat, high: nat)
    requires Resumable(taxonomy, log, t, next, high) && next < |log|
    requires Absorbed(taxonomy, log, t, next, Max(next + 1, high))
    ensures Resumable(taxonomy, log, Step(taxonomy, t, log[next]), next + 1, Max(next + 1, high))
  {
    if next < high {
      DeliverAgain(taxonomy, log, t, next, high);
    } else {
      DeliverFirstTime(taxonomy, log, t, next);
    }
  }

  /** Inside a replay. */
  lemma DeliverAgain(taxonomy: map<string, string>, log: seq<Change>, t: Tables, next: nat, high: nat)
    requires Resumable(taxonomy, log, t, next, high) && next < high && Absorbed(taxonomy, log, t, next, high)
    ensures Resumable(taxonomy, log, Step(taxonomy, t, log[next]), next + 1, high)
  {
    forall from | 0 <= from <= next + 1
      ensures Fold(taxonomy, Step(taxonomy, t, log[next]), log[from..high]) == Prefix(taxonomy, log, high)
    {
      assert Fold(taxonomy, t, log[Min(from, next)..high]) == Prefix(taxonomy, log, high);
      if from == next + 1 {
        WindowFirst(taxonomy, t, log, next, high);
      }
    }
  }

  /** At the highest point. */
  lemma DeliverFirstTime(taxonomy: map<string, string>, log: seq<Change>, t: Tables, next: nat)
    requires Resumable(taxonomy, log, t, next, next) && next < |log| && Absorbed(taxonomy, log, t, next, next + 1)
    ensures Resumable(taxonomy, log, Step(taxonomy, t, log[next]), next + 1, next + 1)
  {
    var high := next + 1;
    PrefixNext(taxonomy, log, next);
    assert log[next..next] == [] && log[high..high] == [];
    assert Fold(taxonomy, t, log[next..next]) == Prefix(taxonomy, log, next);
    forall from | 0 <= from <= high
      ensures Fold(taxonomy, Step(taxonomy, t, log[next]), log[from..high]) == Prefix(taxonomy, log, high)
    {
      if from <= next {
        assert Fold(taxonomy, t, log[from..next]) == Prefix(taxonomy, log, next);
        WindowLast(taxonomy, t, log, from, next);
      }
    }
  }

  /** The position after the last delivery. */
  function NextOf(schedule: seq<nat>): nat {
    if schedule == [] then 0 else schedule[|schedule| - 1] + 1
  }

  /** Positions of the log in the order they are delivered: each is at most one past the one before, that is,
    * nothing is skipped, but the relay may fall back any distance at any time. */
  predicate NeverSkips(schedule: seq<nat>) {
    schedule == [] ||
    var init := schedule[..|schedule| - 1];
    NeverSkips(init) && schedule[|schedule| - 1] <= NextOf(init)
  }

  function Highest(schedule: seq<nat>): nat {
    if schedule == [] then 0 else Max(Highest(schedule[..|schedule| - 1]), schedule[|schedule| - 1] + 1)
  }

  function Deliver(taxonomy: map<string, string>, log: seq<Change>, schedule: seq<nat>): Tables
    requires Highest(schedule) <= |log|
  {
    if schedule == [] then EMPTY_TABLES
    else Step(taxonomy, Deliver(taxonomy, log, schedule[..|schedule| - 1]), log[schedule[|schedule| - 1]])
  }

  lemma {:induction false} DeliverResumable(taxonomy: map<string, string>, own: Owner, log: seq<Change>,
      schedule: seq<nat>)
    requires WellFormed(log) && Owned(own, log) && NeverSkips(schedule) && Highest(schedule) <= |log|
    ensures CardsOwned(own, Deliver(taxonomy, log, schedule).cards)
    ensures Resumable(taxonomy, log, Deliver(taxonomy, log, schedule), NextOf(schedule), Highest(schedule))
  {
    if schedule == [] {
      assert log[0..0] == [] && log[..0] == [];
    } else {
      var init, last := schedule[..|schedule| - 1], schedule[|schedule| - 1];
      DeliverResumable(taxonomy, own, log, init);
      RedeliveryKeepsResumable(taxonomy, own, log, Deliver(taxonomy, log, init), NextOf(init), Highest(init), last);
    }
  }

  lemma RedeliveryKeepsResumable(taxonomy: map<string, string>, own: Owner, log: seq<Change>, t: Tables, next: nat,
      high: nat, at: nat)
    requires WellFormed(log) && Owned(own, log) && CardsOwned(own, t.cards)
    requires Resumable(taxonomy, log, t, next, high) && at <= next && at < |log|
    ensures Resumable(taxonomy, log, Step(taxonomy, t, log[at]), at + 1, Max(at + 1, high))
    ensures CardsOwned(own, Step(taxonomy, t, log[at]).cards)
  {
    DeliveryKeepsResumable(taxonomy, own, log, t, at, high);
  }

  /** At-least-once delivery with any number of restarts, each from any earlier position, some of them
    * inside a replay: whenever the delivery stands at its highest point, the catalog is the in-order one. */
  lemma AnyDeliveryConverges(taxonomy: map<string, string>, own: Owner, log: seq<Change>, schedule: seq<nat>)
    requires WellFormed(log) && Owned(own, log) && NeverSkips(schedule)
    requires NextOf(schedule) == Highest(schedule) <= |log|
    ensures Deliver(taxonomy, log, schedule) == Prefix(taxonomy, log, Highest(schedule))
  {
    DeliverResumable(taxonomy, own, log, schedule);
    var high := Highest(schedule);
    assert log[high..high] == [];
    assert Fold(taxonomy, Deliver(taxonomy, log, schedule), log[high..high]) == Prefix(taxonomy, log, high);
  }

  /** Replaying any window on top of the state it led to gives that state back. */
  ghost predicate ReplaySafe(taxonomy: map<string, string>, log: seq<Change>) {
    forall a, b :: 0 <= a <= b <= |log| ==>
        Fold(taxonomy, Prefix(taxonomy, log, b), log[a..b]) == Prefix(taxonomy, log, b)
  }

  lemma {:induction false} InOrderResumable(taxonomy: map<string, string>, own: Owner, log: seq<Change>, k: nat)
    requires WellFormed(log) && Owned(own, log) && k <= |log|
    ensures Resumable(taxonomy, log, Prefix(taxonomy, log, k), k, k)
  {
    if k == 0 {
      assert log[0..0] == [] && log[..0] == [];
    } else {
      InOrderResumable(taxonomy, own, log, k - 1);
      OwnedPrefix(taxonomy, own, log, k - 1);
      DeliveryKeepsResumable(taxonomy, own, log, Prefix(taxonomy, log, k - 1), k - 1, k - 1);
      PrefixNext(taxonomy, log, k - 1);
    }
  }

  /** Replay absorption: well-formed logs under slug ownership are safe, re-created products included. */
  lemma WellFormedLogsAreReplaySafe(taxonomy: map<string, string>, own: Owner, log: seq<Change>)
    requires WellFormed(log) && Owned(own, log)
    ensures ReplaySafe(taxonomy, log)
  {
    forall a, b | 0 <= a <= b <= |log|
      ensures Fold(taxonomy, Prefix(taxonomy, log, b), log[a..b]) == Prefix(taxonomy, log, b)
    {
      InOrderResumable(taxonomy, own, log, b);
    }
  }

  lemma {:induction false} LiveOfPrefix(base: seq<Change>, ext: seq<Change>, k: nat)
    requires k <= |base|
    ensures Live(base + ext, k) == Live(base, k)
  {
    if k > 0 {
      LiveOfPrefix(base, ext, k - 1);
    }
  }
}
