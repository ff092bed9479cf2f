/** The catalog's view of one product. Under slug ownership the rows of a product are moved by its own events
  * alone, so a log can be read product by product. Here: when the rows of one product can be recovered from
  * a log that lacks some of its events. */
module Views {
  import opened Prelude
  import opened Projection
  import opened Replication

  // -----------------------------------------------------------------
  // One product's view
  // -----------------------------------------------------------------

  /** The change, as far as it concerns product `p`. */
  function ViewOf(p: string, c: Change): Change {
    if !c.Ignore? && c.id == p then c else Ignore
  }

  function View(p: string, log: seq<Change>): (view: seq<Change>)
    ensures |view| == |log| && forall i :: 0 <= i < |log| ==> view[i] == ViewOf(p, log[i])
  {
    seq(|log|, i requires 0 <= i < |log| => ViewOf(p, log[i]))
  }

  /** The rows of product `p`. */
  function Only(t: Tables, p: string): Tables {
    Tables(map id | id in t.cards && id == p :: t.cards[id], map k | k in t.attrs && k.0 == p :: t.attrs[k])
  }

  lemma OnlyLookups(t: Tables, p: string)
    ensures forall id :: Lookup(Only(t, p).cards, id) == if id == p then Lookup(t.cards, id) else None
    ensures forall k :: Lookup(Only(t, p).attrs, k) == if k.0 == p then Lookup(t.attrs, k) else None
  {
  }

  lemma ViewIsPointwise(taxonomy: map<string, string>, c: Change, p: string, oc: Option<Card>, oa: Option<AttrRow>,
                        k: AttrKey)
    requires k.0 == p
    ensures CardStep(oc, ViewOf(p, c), p) == CardStep(oc, c, p)
    ensures AttrStep(taxonomy, oa, ViewOf(p, c), k) == AttrStep(taxonomy, oa, c, k)
  {
  }

  lemma OthersStayOut(taxonomy: map<string, string>, c: Change, p: string, id: string, k: AttrKey)
    ensures id != p ==> CardStep(None, ViewOf(p, c), id) == None
    ensures k.0 != p ==> AttrStep(taxonomy, None, ViewOf(p, c), k) == None
  {
  }

  lemma OnlyIsOwned(own: Owner, t: Tables, c: Change, p: string)
    requires CardsOwned(own, t.cards) && OwnsSlug(own, c)
    ensures CardsOwned(own, Only(t, p).cards) && OwnsSlug(own, ViewOf(p, c))
  {
  }

  /** The view of a product moves by the view of the change alone. */
  lemma ViewStep(taxonomy: map<string, string>, own: Owner, t: Tables, c: Change, p: string)
    requires CardsOwned(own, t.cards) && OwnsSlug(own, c)
    ensures CardsOwned(own, Only(t, p).cards) && OwnsSlug(own, ViewOf(p, c))
    ensures Only(Step(taxonomy, t, c), p) == Step(taxonomy, Only(t, p), ViewOf(p, c))
  {
    OnlyIsOwned(own, t, c, p);
    ViewStepLookups(taxonomy, own, t, c, p);
    SameLookupsSameTables(Only(Step(taxonomy, t, c), p), Step(taxonomy, Only(t, p), ViewOf(p, c)));
  }

  lemma ViewStepLookups(taxonomy: map<string, string>, own: Owner, t: Tables, c: Change, p: string)
    requires CardsOwned(own, t.cards) && OwnsSlug(own, c)
    requires CardsOwned(own, Only(t, p).cards) && OwnsSlug(own, ViewOf(p, c))
    ensures var v, v' := Only(Step(taxonomy, t, c), p), Step(taxonomy, Only(t, p), ViewOf(p, c));
            && (forall id :: Lookup(v.cards, id) == Lookup(v'.cards, id))
            && (forall k :: Lookup(v.attrs, k) == Lookup(v'.attrs, k))
  {
    var t' := Step(taxonomy, t, c);
    var v, v' := Only(t', p), Step(taxonomy, Only(t, p), ViewOf(p, c));
    StepIsPointwise(taxonomy, own, t, c);
    StepIsPointwise(taxonomy, own, Only(t, p), ViewOf(p, c));
    OnlyLookups(t, p);
    OnlyLookups(t', p);
    forall id
      ensures Lookup(v.cards, id) == Lookup(v'.cards, id)
    {
      ViewIsPointwise(taxonomy, c, p, Lookup(t.cards, p), None, (p, ""));
      OthersStayOut(taxonomy, c, p, id, (p, ""));
    }
    forall k
      ensures Lookup(v.attrs, k) == Lookup(v'.attrs, k)
    {
      if k.0 == p {
        ViewIsPointwise(taxonomy, c, p, None, Lookup(t.attrs, k), k);
      } else {
        OthersStayOut(taxonomy, c, p, "", k);
      }
    }
  }

  lemma {:induction false} ViewPrefix(taxonomy: map<string, string>, own: Owner, log: seq<Change>, p: string, k: nat)
    requires Owned(own, log) && k <= |log|
    ensures Only(Prefix(taxonomy, log, k), p) == Prefix(taxonomy, View(p, log), k)
  {
    if k == 0 {
      assert log[..0] == [] && View(p, log)[..0] == [];
      assert Only(EMPTY_TABLES, p) == EMPTY_TABLES;
    } else {
      ViewPrefix(taxonomy, own, log, p, k - 1);
      OwnedPrefix(taxonomy, own, log, k - 1);
      PrefixNext(taxonomy, log, k - 1);
      PrefixNext(taxonomy, View(p, log), k - 1);
      ViewStep(taxonomy, own, Prefix(taxonomy, log, k - 1), log[k - 1], p);
    }
  }

  lemma {:induction false} ViewLive(log: seq<Change>, p: string, k: nat)
    requires k <= |log|
    ensures Live(View(p, log), k) == Live(log, k) * {p}
  {
    if k > 0 {
      ViewLive(log, p, k - 1);
    }
  }

  // -----------------------------------------------------------------
  // Logs with holes
  // -----------------------------------------------------------------

  /** Some event of `view[a..b]` deletes the product. */
  ghost predicate Deletes(view: seq<Change>, a: nat, b: nat) {
    exists d :: a <= d < b && d < |view| && view[d].Delete?
  }

  /** Changes a card if there is one. */
  predicate Edits(c: Change) {
    c.Core? || c.Touch? || c.SetStatus?
  }

  /** No edit that finds the product missing is followed by a creation without a deletion in between: replayed,
    * such an edit would hit the product that was created after it. */
  ghost predicate Replayable(view: seq<Change>, p: string) {
    forall k, c :: 0 <= k < c < |view| && Edits(view[k]) && view[c].Create? && p !in Live(view, k) ==>
      Deletes(view, k + 1, c)
  }

  ghost predicate OfOne(view: seq<Change>, p: string) {
    forall i :: 0 <= i < |view| && !view[i].Ignore? ==> view[i].id == p
  }

  ghost predicate Sound(own: Owner, view: seq<Change>, p: string) {
    OfOne(view, p) && Owned(own, view) && Replayable(view, p)
  }

  lemma {:induction false} LiveStays(view: seq<Change>, p: string, a: nat, b: nat)
    requires OfOne(view, p) && a <= b <= |view| && p in Live(view, a) && !Deletes(view, a, b)
    ensures p in Live(view, b)
  {
    if a < b {
      LiveStays(view, p, a, b - 1);
    }
  }

  /** `a` and `b` differ at most in the card of `p`. */
  ghost predicate SameButFor(p: string, a: Tables, b: Tables) {
    a.attrs == b.attrs && forall id :: id != p ==> Lookup(a.cards, id) == Lookup(b.cards, id)
  }

  lemma StepKeepsSame(taxonomy: map<string, string>, own: Owner, p: string, a: Tables, b: Tables, c: Change)
    requires CardsOwned(own, a.cards) && CardsOwned(own, b.cards) && OwnsSlug(own, c) && SameButFor(p, a, b)
    ensures CardsOwned(own, Step(taxonomy, a, c).cards) && CardsOwned(own, Step(taxonomy, b, c).cards)
    ensures SameButFor(p, Step(taxonomy, a, c), Step(taxonomy, b, c))
    ensures c == Delete(p) ==> Step(taxonomy, a, c) == Step(taxonomy, b, c)
  {
    var a', b' := Step(taxonomy, a, c), Step(taxonomy, b, c);
    OwnedStep(taxonomy, own, a, c);
    OwnedStep(taxonomy, own, b, c);
    StepIsPointwise(taxonomy, own, a, c);
    StepIsPointwise(taxonomy, own, b, c);
    forall id | id != p || c == Delete(p)
      ensures Lookup(a'.cards, id) == Lookup(b'.cards, id)
    {
    }
    assert a'.attrs == b'.attrs;
    if c == Delete(p) {
      SameLookupsSameTables(a', b');
    }
  }

  /** A deletion wipes out what came before it. */
  lemma {:induction false} Washes(taxonomy: map<string, string>, own: Owner, view: seq<Change>, p: string, a: Tables,
                                  b: Tables, from: nat, d: nat, m: nat)
    requires OfOne(view, p) && Owned(own, view) && from <= d < m <= |view| && view[d].Delete?
    requires CardsOwned(own, a.cards) && CardsOwned(own, b.cards) && SameButFor(p, a, b)
    ensures Fold(taxonomy, a, view[from..m]) == Fold(taxonomy, b, view[from..m])
    decreases d - from
  {
    WindowFirst(taxonomy, a, view, from, m);
    WindowFirst(taxonomy, b, view, from, m);
    StepKeepsSame(taxonomy, own, p, a, b, view[from]);
    if from < d {
      Washes(taxonomy, own, view, p, Step(taxonomy, a, view[from]), Step(taxonomy, b, view[from]), from + 1, d, m);
    } else {
      assert view[d] == Delete(p);
    }
  }

  /** Leaves cards alone. */
  predicate Incidental(c: Change) {
    c.SetAttr? || c.ClearAttr? || c.Ignore?
  }

  lemma CreationCommutes(taxonomy: map<string, string>, t: Tables, e: Change, x: Change)
    requires e.Create? && Incidental(x)
    ensures Step(taxonomy, Step(taxonomy, t, e), x) == Step(taxonomy, Step(taxonomy, t, x), e)
  {
  }

  lemma CreationIsIdempotent(taxonomy: map<string, string>, t: Tables, e: Change)
    requires e.Create?
    ensures Step(taxonomy, Step(taxonomy, t, e), e) == Step(taxonomy, t, e)
  {
  }

  /** A creation comes early, and nothing touches the card before its time. */
  lemma {:induction false} CreatesEarly(taxonomy: map<string, string>, view: seq<Change>, t: Tables, from: nat,
                                        c: nat, m: nat)
    requires from <= c < m <= |view| && view[c].Create?
    requires forall k :: from <= k < c ==> Incidental(view[k])
    ensures Fold(taxonomy, Step(taxonomy, t, view[c]), view[from..m]) == Fold(taxonomy, t, view[from..m])
    decreases c - from
  {
    WindowFirst(taxonomy, Step(taxonomy, t, view[c]), view, from, m);
    WindowFirst(taxonomy, t, view, from, m);
    if from < c {
      CreationCommutes(taxonomy, t, view[c], view[from]);
      CreatesEarly(taxonomy, view, Step(taxonomy, t, view[from]), from + 1, c, m);
    } else {
      CreationIsIdempotent(taxonomy, t, view[c]);
    }
  }

  lemma NothingBefore(own: Owner, view: seq<Change>, p: string, from: nat, c: nat)
    requires Sound(own, view, p) && from <= c < |view| && view[c].Create?
    requires p !in Live(view, c) && !Deletes(view, from, c)
    ensures forall k :: from <= k < c ==> Incidental(view[k])
  {
    forall k | from <= k < c
      ensures Incidental(view[k])
    {
      assert !view[k].Delete?;
      assert !Deletes(view, k + 1, c);
      if p in Live(view, k + 1) {
        LiveStays(view, p, k + 1, c);
      }
    }
  }

  /** A creation that finds the product missing has never been needed, or will be undone. */
  lemma AbsorbCreation(taxonomy: map<string, string>, own: Owner, view: seq<Change>, p: string, t: Tables, from: nat,
                       c: nat, m: nat)
    requires Sound(own, view, p) && CardsOwned(own, t.cards) && from <= c < m <= |view| && view[c].Create?
    requires p !in t.cards ==> p !in Live(view, c) || Deletes(view, c, m)
    ensures Fold(taxonomy, Step(taxonomy, t, view[c]), view[from..m]) == Fold(taxonomy, t, view[from..m])
  {
    var t' := Step(taxonomy, t, view[c]);
    if p in t.cards {
      assert t' == t;
    } else if Deletes(view, from, m) {
      var d :| from <= d < m && view[d].Delete?;
      OwnedStep(taxonomy, own, t, view[c]);
      Washes(taxonomy, own, view, p, t', t, from, d, m);
    } else {
      assert !Deletes(view, from, c) && !Deletes(view, c, m);
      NothingBefore(own, view, p, from, c);
      CreatesEarly(taxonomy, view, t, from, c, m);
    }
  }

  /** If the product exists at `next` and no replay up to `high` will delete it, its card is there. */
  ghost predicate Plausible(view: seq<Change>, p: string, t: Tables, next: nat, high: nat)
    requires next <= |view|
  {
    p in Live(view, next) && !Deletes(view, next, high) ==> p in t.cards
  }

  /** The rows of the product can be resumed from `next`, having seen the first `high` events. */
  ghost predicate Recoverable(taxonomy: map<string, string>, view: seq<Change>, p: string, t: Tables, next: nat,
                              high: nat) {
    Resumable(taxonomy, view, t, next, high) && Plausible(view, p, t, next, high)
  }

  lemma DeliveryKeepsPlausible(taxonomy: map<string, string>, own: Owner, view: seq<Change>, p: string, t: Tables,
                               next: nat, high: nat)
    requires Sound(own, view, p) && CardsOwned(own, t.cards) && next <= high <= |view| && next < |view|
    requires Plausible(view, p, t, next, high)
    ensures Plausible(view, p, Step(taxonomy, t, view[next]), next + 1, Max(next + 1, high))
  {
    var t' := Step(taxonomy, t, view[next]);
    StepIsPointwise(taxonomy, own, t, view[next]);
    assert Lookup(t'.cards, p) == CardStep(Lookup(t.cards, p), view[next], p);
    if p in Live(view, next + 1) && !Deletes(view, next + 1, Max(next + 1, high)) {
      assert !view[next].Delete?;
      assert !Deletes(view, next, high);
    }
  }

  lemma DeliveryKeepsRecoverable(taxonomy: map<string, string>, own: Owner, view: seq<Change>, p: string, t: Tables,
                                 next: nat, high: nat)
    requires Sound(own, view, p) && CardsOwned(own, t.cards) && next < |view|
    requires Recoverable(taxonomy, view, p, t, next, high)
    ensures Recoverable(taxonomy, view, p, Step(taxonomy, t, view[next]), next + 1, Max(next + 1, high))
    ensures CardsOwned(own, Step(taxonomy, t, view[next]).cards)
  {
    var high' := Max(next + 1, high);
    OwnedStep(taxonomy, own, t, view[next]);
    assert !Deletes(view, next, next);
    forall from | 0 <= from <= next
      ensures Fold(taxonomy, Step(taxonomy, t, view[next]), view[from..high']) == Fold(taxonomy, t, view[from..high'])
    {
      if view[next].Create? {
        AbsorbCreation(taxonomy, own, view, p, t, from, next, high');
      } else {
        Absorb(taxonomy, own, view, t, from, next, high');
      }
    }
    AbsorbedKeepsResumable(taxonomy, view, t, next, high);
    DeliveryKeepsPlausible(taxonomy, own, view, p, t, next, high);
  }

  lemma RewindKeepsRecoverable(taxonomy: map<string, string>, own: Owner, view: seq<Change>, p: string, t: Tables,
                               next: nat, high: nat, back: nat)
    requires Sound(own, view, p) && Recoverable(taxonomy, view, p, t, next, high) && back <= next
    ensures Recoverable(taxonomy, view, p, t, back, high)
  {
    if p in Live(view, back) && !Deletes(view, back, high) {
      assert !Deletes(view, back, next) && !Deletes(view, next, high);
      LiveStays(view, p, back, next);
    }
  }

  /** Events that do not concern the product may be skipped. */
  lemma {:induction false} SkipIgnored(taxonomy: map<string, string>, own: Owner, view: seq<Change>, p: string,
                                       t: Tables, from: nat, to: nat, high: nat)
    requires Sound(own, view, p) && CardsOwned(own, t.cards)
    requires Recoverable(taxonomy, view, p, t, from, high) && from <= to <= |view|
    requires forall i :: from <= i < to ==> view[i].Ignore?
    ensures Recoverable(taxonomy, view, p, t, to, Max(to, high))
    decreases |view| - from
  {
    if from < to {
      DeliveryKeepsRecoverable(taxonomy, own, view, p, t, from, high);
      assert Step(taxonomy, t, view[from]) == t;
      SkipIgnored(taxonomy, own, view, p, t, from + 1, to, Max(from + 1, high));
    }
  }

  // -----------------------------------------------------------------
  // A log without its dead letters
  // -----------------------------------------------------------------

  function Skipped(log: seq<Change>, dead: set<nat>): (kept: seq<Change>)
    ensures |kept| == |log| && forall i :: 0 <= i < |log| ==> kept[i] == if i in dead then Ignore else log[i]
  {
    seq(|log|, i requires 0 <= i < |log| => if i in dead then Ignore else log[i])
  }

  ghost predicate ReplayableLog(log: seq<Change>) {
    forall p :: Replayable(View(p, log), p)
  }

  lemma SkippedIsOwned(own: Owner, log: seq<Change>, dead: set<nat>)
    requires Owned(own, log)
    ensures Owned(own, Skipped(log, dead))
  {
  }

  lemma ViewIsSound(own: Owner, log: seq<Change>, p: string)
    requires Owned(own, log) && Replayable(View(p, log), p)
    ensures Sound(own, View(p, log), p)
  {
  }

  lemma {:induction false} SurvivesHoles(log: seq<Change>, dead: set<nat>, p: string, k: nat)
    requires k <= |log| && p in Live(log, k)
    requires forall i :: 0 <= i < k && i in dead ==> !(log[i].Create? && log[i].id == p)
    ensures p in Live(View(p, Skipped(log, dead)), k)
  {
    if k > 0 && p in Live(log, k - 1) {
      SurvivesHoles(log, dead, p, k - 1);
    }
  }

  /** Both the creation of the product and a later deletion of it are among the dead. */
  ghost predicate LosesLifetime(log: seq<Change>, dead: set<nat>, p: string) {
    exists i, j :: 0 <= i < j < |log| && i in dead && j in dead && log[i].Create? && log[i].id == p
                   && log[j] == Delete(p)
  }

  /** A well-formed log stays replayable whatever is missing from it, as long as no product has lost both a
    * creation and a later deletion. */
  lemma HolesAreReplayable(log: seq<Change>, dead: set<nat>, p: string)
    requires WellFormed(log) && !LosesLifetime(log, dead, p)
    ensures Replayable(View(p, Skipped(log, dead)), p)
  {
    var view := View(p, Skipped(log, dead));
    forall k, c | 0 <= k < c < |view| && Edits(view[k]) && view[c].Create? && p !in Live(view, k)
      ensures Deletes(view, k + 1, c)
    {
      assert Allowed(Live(log, k), log[k]) && Allowed(Live(log, c), log[c]);
      var j := DeletedBetween(log, p, k, c);
      if j in dead {
        SurvivesHoles(log, dead, p, k);
        assert false;
      }
      assert view[j].Delete?;
    }
  }

  lemma DeletedBetween(log: seq<Change>, p: string, k: nat, c: nat) returns (j: nat)
    requires k < c <= |log| && p in Live(log, k) && p !in Live(log, c) && log[k] != Delete(p)
    ensures k < j < c && log[j] == Delete(p)
  {
    var view := View(p, log);
    ViewLive(log, p, k);
    ViewLive(log, p, c);
    if !Deletes(view, k, c) {
      LiveStays(view, p, k, c);
    }
    var d :| k <= d < c && view[d].Delete?;
    j := d;
  }
}
