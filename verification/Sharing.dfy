/** Slugs that several products share. A policy says which product may use which slug. As long as products that
  * share a slug may use no other, they take turns, and the projection treats them like one row that changes
  * hands: replay is absorbed as it is under slug ownership. */
module Sharing {
  import opened Prelude
  import opened Projection
  import opened Replication

  /** `may(id, slug)`: product `id` is permitted to use `slug`, now or later. */
  type Policy = (string, string) -> bool

  predicate MayUse(may: Policy, c: Change) {
    (c.Create? ==> may(c.id, c.card.slug)) && (c.Core? ==> may(c.id, c.slug))
  }

  ghost predicate Respects(may: Policy, log: seq<Change>) {
    forall i :: 0 <= i < |log| ==> MayUse(may, log[i])
  }

  ghost predicate HasOther(may: Policy, id: string, slug: string) {
    exists other :: other != slug && may(id, other)
  }

  /** Products that share a slug are pinned to it: no slug is permitted to two products of which one may use
    * another slug. */
  ghost predicate Pinned(may: Policy) {
    forall a, b, slug :: may(a, slug) && may(b, slug) && a != b ==> !HasOther(may, a, slug)
  }

  ghost predicate Mates(may: Policy, a: string, b: string) {
    a == b || exists slug :: may(a, slug) && may(b, slug)
  }

  /** The products that share a slug with `x`, and `x` itself. */
  ghost function Group(may: Policy, x: string): iset<string> {
    iset y | Mates(may, x, y)
  }

  lemma MatesAreTransitive(may: Policy, a: string, b: string, c: string)
    requires Pinned(may) && Mates(may, a, b) && Mates(may, b, c)
    ensures Mates(may, a, c) && Mates(may, b, a)
  {
    if a != b && b != c {
      var s :| may(a, s) && may(b, s);
      var s' :| may(b, s') && may(c, s');
      assert s != s' ==> HasOther(may, b, s);
    }
  }

  lemma SameGroup(may: Policy, x: string, y: string)
    requires Pinned(may) && y in Group(may, x)
    ensures Group(may, y) == Group(may, x)
  {
    forall z
      ensures z in Group(may, y) <==> z in Group(may, x)
    {
      MatesAreTransitive(may, x, y, y);
      if Mates(may, y, z) {
        MatesAreTransitive(may, x, y, z);
      }
      if Mates(may, x, z) {
        MatesAreTransitive(may, y, x, z);
      }
    }
  }

  /** Every card has a slug it may use, and no two cards have the same. */
  ghost predicate Policed(may: Policy, cards: map<string, Card>) {
    CardSlugsDistinct(cards) && forall id :: id in cards ==> may(id, cards[id].slug)
  }

  /** Of a group at most one product has a card. */
  lemma OneOfGroup(may: Policy, cards: map<string, Card>, a: string, b: string)
    requires Pinned(may) && Policed(may, cards) && a in cards && b in cards && Mates(may, a, b)
    ensures a == b
  {
    if a != b {
      var s :| may(a, s) && may(b, s);
      assert cards[a].slug != s ==> HasOther(may, a, s);
      assert cards[b].slug != s ==> HasOther(may, b, s);
    }
  }

  /** A creation finds its slug taken exactly when a mate has a card. */
  lemma TakenByMate(may: Policy, cards: map<string, Card>, id: string, slug: string)
    requires Pinned(may) && Policed(may, cards) && may(id, slug)
    ensures SlugTaken(cards, id, slug) <==> exists z :: z in cards && z != id && z in Group(may, id)
  {
    if z :| z in cards && z != id && z in Group(may, id) {
      var s :| may(id, s) && may(z, s);
      assert s != slug ==> HasOther(may, id, s);
      assert cards[z].slug != s ==> HasOther(may, z, s);
      assert cards[z].slug == slug;
    }
    if SlugTaken(cards, id, slug) {
      var z :| z in cards && z != id && cards[z].slug == slug;
      assert z in Group(may, id);
    }
  }

  /** No event is refused, and the cards stay policed. */
  lemma PolicedStep(taxonomy: map<string, string>, may: Policy, t: Tables, c: Change)
    requires Pinned(may) && Policed(may, t.cards) && MayUse(may, c)
    ensures ApplyTables(taxonomy, t, c).Some? && Policed(may, Step(taxonomy, t, c).cards)
  {
    if c.Core? && c.id in t.cards && SlugTaken(t.cards, c.id, c.slug) {
      TakenByMate(may, t.cards, c.id, c.slug);
      var z :| z in t.cards && z != c.id && z in Group(may, c.id);
      OneOfGroup(may, t.cards, c.id, z);
    }
    ApplyKeepsCardSlugsDistinct(taxonomy, t, c);
  }

  // -----------------------------------------------------------------
  // One card that changes hands
  // -----------------------------------------------------------------

  /** The one card of a group. */
  datatype Slot = Empty | Held(id: string, card: Card)

  ghost predicate Holds(group: iset<string>, cards: map<string, Card>, o: Slot) {
    && (o.Held? ==> o.id in group)
    && forall id :: id in group ==> Lookup(cards, id) == if o == Empty || o.id != id then None else Some(o.card)
  }

  lemma SlotOf(may: Policy, x: string, cards: map<string, Card>) returns (o: Slot)
    requires Pinned(may) && Policed(may, cards)
    ensures Holds(Group(may, x), cards, o)
  {
    o := Empty;
    if z :| z in cards && z in Group(may, x) {
      o := Held(z, cards[z]);
      forall id | id in Group(may, x) && id in cards
        ensures id == z
      {
        SameGroup(may, x, z);
        OneOfGroup(may, cards, z, id);
      }
    }
  }

  /** What a change of a member does to the card of the group. */
  function SlotStep(o: Slot, c: Change): Slot {
    match c
    case Create(id, card) => if o.Empty? then Held(id, card) else o
    case Delete(id) => if o.Held? && o.id == id then Empty else o
    case Ignore => o
    case SetAttr(_, _, _, _) => o
    case ClearAttr(_, _) => o
    case _ => if o.Held? && o.id == c.id then Held(o.id, EditCard(o.card, c)) else o
  }

  predicate Concerns(group: iset<string>, c: Change) {
    !c.Ignore? && c.id in group
  }

  ghost function NextSlot(group: iset<string>, o: Slot, c: Change): Slot {
    if Concerns(group, c) then SlotStep(o, c) else o
  }

  lemma StepMovesSlot(taxonomy: map<string, string>, may: Policy, x: string, t: Tables, c: Change, o: Slot)
    requires Pinned(may) && Policed(may, t.cards) && MayUse(may, c) && Holds(Group(may, x), t.cards, o)
    ensures Holds(Group(may, x), Step(taxonomy, t, c).cards, NextSlot(Group(may, x), o, c))
  {
    PolicedStep(taxonomy, may, t, c);
    if Concerns(Group(may, x), c) && c.Create? {
      SameGroup(may, x, c.id);
      TakenByMate(may, t.cards, c.id, c.card.slug);
      assert o.Held? ==> Lookup(t.cards, o.id) == Some(o.card);
      assert o.Held? ==> o.id in t.cards;
    }
  }

  /** Outside the group both catalogs have the same cards. */
  ghost predicate SameOutside(group: iset<string>, a: map<string, Card>, b: map<string, Card>) {
    forall id :: id !in group ==> Lookup(a, id) == Lookup(b, id)
  }

  lemma TakenAlike(may: Policy, x: string, a: map<string, Card>, b: map<string, Card>, id: string, slug: string)
    requires Pinned(may) && Policed(may, a) && Policed(may, b) && may(id, slug)
    requires SameOutside(Group(may, x), a, b) && id !in Group(may, x)
    ensures SlugTaken(a, id, slug) <==> SlugTaken(b, id, slug)
  {
    TakenByMate(may, a, id, slug);
    TakenByMate(may, b, id, slug);
    forall z | z in Group(may, id)
      ensures z in a <==> z in b
    {
      if z in Group(may, x) {
        SameGroup(may, x, z);
        MatesAreTransitive(may, id, z, z);
      }
      assert Lookup(a, z) == Lookup(b, z);
    }
  }

  /** What an accepted change does to one card. */
  lemma StepOnCard(taxonomy: map<string, string>, t: Tables, c: Change, id: string)
    requires ApplyTables(taxonomy, t, c).Some?
    ensures Lookup(Step(taxonomy, t, c).cards, id)
         == if c.Create? && SlugTaken(t.cards, c.id, c.card.slug) then Lookup(t.cards, id)
            else CardStep(Lookup(t.cards, id), c, id)
  {
  }

  lemma StepKeepsOutside(taxonomy: map<string, string>, may: Policy, x: string, a: Tables, b: Tables, c: Change)
    requires Pinned(may) && Policed(may, a.cards) && Policed(may, b.cards) && MayUse(may, c)
    requires SameOutside(Group(may, x), a.cards, b.cards)
    ensures SameOutside(Group(may, x), Step(taxonomy, a, c).cards, Step(taxonomy, b, c).cards)
  {
    PolicedStep(taxonomy, may, a, c);
    PolicedStep(taxonomy, may, b, c);
    if c.Create? && c.id !in Group(may, x) {
      TakenAlike(may, x, a.cards, b.cards, c.id, c.card.slug);
    }
    forall id | id !in Group(may, x)
      ensures Lookup(Step(taxonomy, a, c).cards, id) == Lookup(Step(taxonomy, b, c).cards, id)
    {
      StepOnCard(taxonomy, a, c, id);
      StepOnCard(taxonomy, b, c, id);
    }
  }

  lemma SameSlotSameCards(group: iset<string>, a: map<string, Card>, b: map<string, Card>, o: Slot)
    requires Holds(group, a, o) && Holds(group, b, o) && SameOutside(group, a, b)
    ensures a == b
  {
    forall id
      ensures Lookup(a, id) == Lookup(b, id)
    {
    }
    assert forall id :: id in a <==> Lookup(a, id).Some?;
    assert forall id :: id in b <==> Lookup(b, id).Some?;
  }

  // -----------------------------------------------------------------
  // Taking turns
  // -----------------------------------------------------------------

  /** Members of a group take turns: one is created only when none of them exists. */
  ghost predicate TakesTurns(may: Policy, live: set<string>, c: Change) {
    c.Create? ==> forall z :: z in live ==> z !in Group(may, c.id)
  }

  ghost predicate Orderly(may: Policy, log: seq<Change>) {
    WellFormed(log) && Respects(may, log) && forall k :: 0 <= k < |log| ==> TakesTurns(may, Live(log, k), log[k])
  }

  /** At most one member of the group exists. */
  ghost predicate OneLive(group: iset<string>, live: set<string>) {
    forall y, z :: y in live && z in live && y in group && z in group ==> y == z
  }

  lemma {:induction false} OneIsLive(may: Policy, log: seq<Change>, x: string, k: nat)
    requires Pinned(may) && Orderly(may, log) && k <= |log|
    ensures OneLive(Group(may, x), Live(log, k))
  {
    if k > 0 {
      OneIsLive(may, log, x, k - 1);
      assert TakesTurns(may, Live(log, k - 1), log[k - 1]);
      if log[k - 1].Create? && log[k - 1].id in Group(may, x) {
        SameGroup(may, x, log[k - 1].id);
      }
    }
  }

  /** The card belongs to a product that exists. */
  predicate Within(o: Slot, live: set<string>) {
    o.Held? ==> o.id in live
  }

  /** How far the group's card may differ when `oa` has seen the event `e` of `x` early and `ob` has not. */
  predicate NearSlot(e: Change, live: set<string>, oa: Slot, ob: Slot) {
    oa == ob ||
    match e
    case Create(x, card) =>
      Within(ob, live) && (oa.Held? ==> oa.id == x && (oa.card == card || x in live))
    case Delete(x) => Within(oa, live) && (ob.Held? ==> ob.id == x)
    case Ignore => false
    case SetAttr(_, _, _, _) => false
    case ClearAttr(_, _) => false
    case _ => oa.Held? && ob.Held? && oa.id == ob.id == e.id && EditCard(oa.card, e) == EditCard(ob.card, e)
  }

  lemma NearSlotNext(group: iset<string>, e: Change, live: set<string>, oa: Slot, ob: Slot, c: Change)
    requires NearSlot(e, live, oa, ob) && Allowed(live, c) && OneLive(group, live)
    requires (oa.Held? ==> oa.id in group) && (ob.Held? ==> ob.id in group)
    requires c.Create? && c.id in group ==> forall z :: z in live ==> z !in group
    ensures NearSlot(e, NextLive(live, c), NextSlot(group, oa, c), NextSlot(group, ob, c))
  {
  }

  lemma NearSlotStart(group: iset<string>, e: Change, live: set<string>, o: Slot)
    requires Concerns(group, e)
    ensures NearSlot(e, live, NextSlot(group, o, e), o)
  {
  }

  lemma NearSlotEnd(group: iset<string>, e: Change, live: set<string>, oa: Slot, ob: Slot)
    requires NearSlot(e, live, oa, ob) && Concerns(group, e) && OneLive(group, live)
    requires (oa.Held? ==> oa.id in group) && (ob.Held? ==> ob.id in group)
    requires e.Create? ==> forall z :: z in live ==> z !in group
    requires e.Delete? ==> e.id in live || oa == ob
    ensures NextSlot(group, oa, e) == NextSlot(group, ob, e)
  {
  }

  lemma AttrsArePointwise(taxonomy: map<string, string>, t: Tables, c: Change)
    requires ApplyTables(taxonomy, t, c).Some?
    ensures forall k :: Lookup(Step(taxonomy, t, c).attrs, k) == AttrStep(taxonomy, Lookup(t.attrs, k), c, k)
  {
  }

  ghost predicate NearAttrs(taxonomy: map<string, string>, e: Change, live: set<string>, a: Tables, b: Tables) {
    forall k :: NearAttr(taxonomy, e, AliveFor(e, live), k, Lookup(a.attrs, k), Lookup(b.attrs, k))
  }

  /** `a` has seen the event `e` early and `b` has not; `oa` and `ob` are the cards of its group. */
  ghost predicate Apart(taxonomy: map<string, string>, may: Policy, e: Change, live: set<string>, a: Tables, b: Tables,
                        oa: Slot, ob: Slot)
    requires !e.Ignore?
  {
    && Policed(may, a.cards) && Policed(may, b.cards)
    && Holds(Group(may, e.id), a.cards, oa) && Holds(Group(may, e.id), b.cards, ob)
    && SameOutside(Group(may, e.id), a.cards, b.cards)
    && NearSlot(e, live, oa, ob) && NearAttrs(taxonomy, e, live, a, b)
  }

  lemma NearAttrsStart(taxonomy: map<string, string>, t: Tables, e: Change, live: set<string>)
    requires ApplyTables(taxonomy, t, e).Some?
    ensures NearAttrs(taxonomy, e, live, Step(taxonomy, t, e), t)
  {
    AttrsArePointwise(taxonomy, t, e);
  }

  lemma NearAttrsNext(taxonomy: map<string, string>, e: Change, live: set<string>, a: Tables, b: Tables, c: Change)
    requires NearAttrs(taxonomy, e, live, a, b)
    requires ApplyTables(taxonomy, a, c).Some? && ApplyTables(taxonomy, b, c).Some?
    ensures NearAttrs(taxonomy, e, NextLive(live, c), Step(taxonomy, a, c), Step(taxonomy, b, c))
  {
    AttrsArePointwise(taxonomy, a, c);
    AttrsArePointwise(taxonomy, b, c);
    forall k {
      NearAttrNext(taxonomy, e, live, k, Lookup(a.attrs, k), Lookup(b.attrs, k), c);
    }
  }

  lemma NearAttrsEnd(taxonomy: map<string, string>, e: Change, live: set<string>, a: Tables, b: Tables)
    requires NearAttrs(taxonomy, e, live, a, b) && Allowed(live, e)
    requires ApplyTables(taxonomy, a, e).Some? && ApplyTables(taxonomy, b, e).Some?
    ensures forall k :: Lookup(Step(taxonomy, a, e).attrs, k) == Lookup(Step(taxonomy, b, e).attrs, k)
  {
    AttrsArePointwise(taxonomy, a, e);
    AttrsArePointwise(taxonomy, b, e);
    forall k
      ensures Lookup(Step(taxonomy, a, e).attrs, k) == Lookup(Step(taxonomy, b, e).attrs, k)
    {
      assert NearAttr(taxonomy, e, AliveFor(e, live), k, Lookup(a.attrs, k), Lookup(b.attrs, k));
    }
  }

  lemma ApartStart(taxonomy: map<string, string>, may: Policy, e: Change, live: set<string>, t: Tables, o: Slot)
    requires Pinned(may) && Policed(may, t.cards) && MayUse(may, e) && !e.Ignore?
    requires Holds(Group(may, e.id), t.cards, o)
    ensures Apart(taxonomy, may, e, live, Step(taxonomy, t, e), t, NextSlot(Group(may, e.id), o, e), o)
  {
    PolicedStep(taxonomy, may, t, e);
    StepMovesSlot(taxonomy, may, e.id, t, e, o);
    NearSlotStart(Group(may, e.id), e, live, o);
    NearAttrsStart(taxonomy, t, e, live);
    StartsOutside(taxonomy, may, t, e);
  }

  lemma StartsOutside(taxonomy: map<string, string>, may: Policy, t: Tables, e: Change)
    requires !e.Ignore?
    ensures SameOutside(Group(may, e.id), Step(taxonomy, t, e).cards, t.cards)
  {
    assert Mates(may, e.id, e.id);
  }

  lemma ApartNext(taxonomy: map<string, string>, may: Policy, e: Change, live: set<string>, a: Tables, b: Tables,
                  oa: Slot, ob: Slot, c: Change)
    requires Pinned(may) && !e.Ignore? && Apart(taxonomy, may, e, live, a, b, oa, ob)
    requires Allowed(live, c) && MayUse(may, c) && TakesTurns(may, live, c) && OneLive(Group(may, e.id), live)
    ensures var g := Group(may, e.id);
            Apart(taxonomy, may, e, NextLive(live, c), Step(taxonomy, a, c), Step(taxonomy, b, c),
                  NextSlot(g, oa, c), NextSlot(g, ob, c))
  {
    PolicedStep(taxonomy, may, a, c);
    PolicedStep(taxonomy, may, b, c);
    StepMovesSlot(taxonomy, may, e.id, a, c, oa);
    StepMovesSlot(taxonomy, may, e.id, b, c, ob);
    StepKeepsOutside(taxonomy, may, e.id, a, b, c);
    if c.Create? && c.id in Group(may, e.id) {
      SameGroup(may, e.id, c.id);
    }
    NearSlotNext(Group(may, e.id), e, live, oa, ob, c);
    NearAttrsNext(taxonomy, e, live, a, b, c);
  }

  lemma ApartEnd(taxonomy: map<string, string>, may: Policy, e: Change, live: set<string>, a: Tables, b: Tables,
                 oa: Slot, ob: Slot)
    requires Pinned(may) && !e.Ignore? && Apart(taxonomy, may, e, live, a, b, oa, ob)
    requires Allowed(live, e) && MayUse(may, e) && TakesTurns(may, live, e) && OneLive(Group(may, e.id), live)
    requires e.Delete? ==> e.id in live || oa == ob
    ensures Step(taxonomy, a, e) == Step(taxonomy, b, e)
  {
    var g, a', b' := Group(may, e.id), Step(taxonomy, a, e), Step(taxonomy, b, e);
    assert Mates(may, e.id, e.id);
    PolicedStep(taxonomy, may, a, e);
    PolicedStep(taxonomy, may, b, e);
    StepMovesSlot(taxonomy, may, e.id, a, e, oa);
    StepMovesSlot(taxonomy, may, e.id, b, e, ob);
    StepKeepsOutside(taxonomy, may, e.id, a, b, e);
    NearSlotEnd(g, e, live, oa, ob);
    SameSlotSameCards(g, a'.cards, b'.cards, NextSlot(g, oa, e));
    NearAttrsEnd(taxonomy, e, live, a, b);
    SameLookupsSameTables(a', b');
  }

  lemma OrderlyAt(may: Policy, log: seq<Change>, x: string, k: nat)
    requires Pinned(may) && Orderly(may, log) && k < |log|
    ensures Allowed(Live(log, k), log[k]) && MayUse(may, log[k]) && TakesTurns(may, Live(log, k), log[k])
    ensures OneLive(Group(may, x), Live(log, k)) && Live(log, k + 1) == NextLive(Live(log, k), log[k])
  {
    OneIsLive(may, log, x, k);
  }

  lemma {:induction false} ApartWindow(taxonomy: map<string, string>, may: Policy, log: seq<Change>, e: Change,
                                       a: Tables, b: Tables, oa: Slot, ob: Slot, from: nat, c: nat, m: nat)
    requires Pinned(may) && Orderly(may, log) && from <= c < m <= |log| && log[c] == e && !e.Ignore?
    requires Apart(taxonomy, may, e, Live(log, from), a, b, oa, ob)
    requires e.Delete? ==> e.id in Live(log, c) || oa == ob
    ensures Fold(taxonomy, a, log[from..m]) == Fold(taxonomy, b, log[from..m])
    decreases c - from
  {
    var g, x := Group(may, e.id), log[from];
    WindowFirst(taxonomy, a, log, from, m);
    WindowFirst(taxonomy, b, log, from, m);
    OrderlyAt(may, log, e.id, from);
    if from == c {
      ApartEnd(taxonomy, may, e, Live(log, c), a, b, oa, ob);
    } else {
      ApartNext(taxonomy, may, e, Live(log, from), a, b, oa, ob, x);
      ApartWindow(taxonomy, may, log, e, Step(taxonomy, a, x), Step(taxonomy, b, x), NextSlot(g, oa, x),
                  NextSlot(g, ob, x), from + 1, c, m);
    }
  }

  /** From any policed state: delivering event `c` early changes nothing once a window containing it is replayed. */
  lemma AbsorbShared(taxonomy: map<string, string>, may: Policy, log: seq<Change>, t: Tables, from: nat, c: nat, m: nat)
    requires Pinned(may) && Orderly(may, log) && Policed(may, t.cards) && from <= c < m <= |log|
    requires log[c].Delete? ==> log[c].id in Live(log, c) || log[c].id !in t.cards
    ensures Fold(taxonomy, Step(taxonomy, t, log[c]), log[from..m]) == Fold(taxonomy, t, log[from..m])
  {
    var e := log[c];
    assert MayUse(may, e);
    if !e.Ignore? {
      var o := SlotOf(may, e.id, t.cards);
      ApartStart(taxonomy, may, e, Live(log, from), t, o);
      assert Mates(may, e.id, e.id);
      assert e.id !in t.cards ==> Lookup(t.cards, e.id) == None;
      ApartWindow(taxonomy, may, log, e, Step(taxonomy, t, e), t, NextSlot(Group(may, e.id), o, e), o, from, c, m);
    }
  }

  lemma DeliveryKeepsResumableShared(taxonomy: map<string, string>, may: Policy, log: seq<Change>, t: Tables, next: nat,
                                     high: nat)
    requires Pinned(may) && Orderly(may, log) && Policed(may, t.cards)
    requires Resumable(taxonomy, log, t, next, high) && next < |log|
    requires log[next].Delete? ==> log[next].id in Live(log, next) || log[next].id !in t.cards
    ensures Absorbed(taxonomy, log, t, next, Max(next + 1, high))
    ensures Resumable(taxonomy, log, Step(taxonomy, t, log[next]), next + 1, Max(next + 1, high))
  {
    var high' := Max(next + 1, high);
    forall from | 0 <= from <= next
      ensures Fold(taxonomy, Step(taxonomy, t, log[next]), log[from..high']) == Fold(taxonomy, t, log[from..high'])
    {
      AbsorbShared(taxonomy, may, log, t, from, next, high');
    }
    AbsorbedKeepsResumable(taxonomy, log, t, next, high);
  }

  // -----------------------------------------------------------------
  // In order
  // -----------------------------------------------------------------

  /** The event asks for a slug that another projected product holds. */
  predicate Clashes(cards: map<string, Card>, c: Change) {
    (c.Create? && SlugTaken(cards, c.id, c.card.slug)) || (c.Core? && c.id in cards && SlugTaken(cards, c.id, c.slug))
  }

  /** Delivered in order, no event of the log meets a taken slug. */
  ghost predicate NoClash(taxonomy: map<string, string>, log: seq<Change>) {
    forall k :: 0 <= k < |log| ==> !Clashes(Prefix(taxonomy, log, k).cards, log[k])
  }

  /** In order, and without a clash, the products that exist are the ones with a card. */
  lemma {:induction false} InOrderShared(taxonomy: map<string, string>, may: Policy, log: seq<Change>, k: nat)
    requires Pinned(may) && Respects(may, log) && NoClash(taxonomy, log) && k <= |log|
    ensures Policed(may, Prefix(taxonomy, log, k).cards)
    ensures Prefix(taxonomy, log, k).cards.Keys == Live(log, k)
  {
    if k == 0 {
      assert log[..0] == [];
    } else {
      InOrderShared(taxonomy, may, log, k - 1);
      PrefixNext(taxonomy, log, k - 1);
      assert MayUse(may, log[k - 1]) && !Clashes(Prefix(taxonomy, log, k - 1).cards, log[k - 1]);
      PolicedStep(taxonomy, may, Prefix(taxonomy, log, k - 1), log[k - 1]);
    }
  }

  /** A log in which nothing clashes in order lets the products of a group take turns. */
  lemma NoClashIsOrderly(taxonomy: map<string, string>, may: Policy, log: seq<Change>)
    requires Pinned(may) && WellFormed(log) && Respects(may, log) && NoClash(taxonomy, log)
    ensures Orderly(may, log)
  {
    forall k | 0 <= k < |log|
      ensures TakesTurns(may, Live(log, k), log[k])
    {
      InOrderShared(taxonomy, may, log, k);
      if log[k].Create? {
        assert Allowed(Live(log, k), log[k]) && MayUse(may, log[k]);
        assert !Clashes(Prefix(taxonomy, log, k).cards, log[k]);
        TakenByMate(may, Prefix(taxonomy, log, k).cards, log[k].id, log[k].card.slug);
      }
    }
  }

  lemma InOrderNext(taxonomy: map<string, string>, may: Policy, log: seq<Change>, t: Tables, k: nat)
    requires Pinned(may) && Orderly(may, log) && Policed(may, t.cards) && k < |log|
    requires t.cards.Keys == Live(log, k) && Resumable(taxonomy, log, t, k, k)
    ensures Resumable(taxonomy, log, Step(taxonomy, t, log[k]), k + 1, k + 1)
  {
    DeliveryKeepsResumableShared(taxonomy, may, log, t, k, k);
  }

  lemma {:induction false} InOrderResumableShared(taxonomy: map<string, string>, may: Policy, log: seq<Change>, k: nat)
    requires Pinned(may) && Orderly(may, log) && NoClash(taxonomy, log) && k <= |log|
    ensures Resumable(taxonomy, log, Prefix(taxonomy, log, k), k, k)
  {
    if k == 0 {
      assert log[0..0] == [] && log[..0] == [];
    } else {
      InOrderResumableShared(taxonomy, may, log, k - 1);
      InOrderShared(taxonomy, may, log, k - 1);
      InOrderNext(taxonomy, may, log, Prefix(taxonomy, log, k - 1), k - 1);
      PrefixNext(taxonomy, log, k - 1);
    }
  }

  /** Replay absorption where products that share a slug take turns. */
  lemma SharedLogsAreReplaySafe(taxonomy: map<string, string>, may: Policy, log: seq<Change>)
    requires Pinned(may) && WellFormed(log) && Respects(may, log) && NoClash(taxonomy, log)
    ensures ReplaySafe(taxonomy, log)
  {
    NoClashIsOrderly(taxonomy, may, log);
    forall a, b | 0 <= a <= b <= |log|
      ensures Fold(taxonomy, Prefix(taxonomy, log, b), log[a..b]) == Prefix(taxonomy, log, b)
    {
      InOrderResumableShared(taxonomy, may, log, b);
    }
  }
}
