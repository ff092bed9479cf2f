/** Rows with unique ids, ordered by a rank and then by id: the one way to list a finite set. */
module Ranking {
  import opened Prelude

  datatype Entry = Entry(rank: int, id: string)

  /** SQLite's BINARY collation: code points, left to right. */
  predicate Less(a: string, b: string) {
    b != [] && (a == [] || a[0] < b[0] || (a[0] == b[0] && Less(a[1..], b[1..])))
  }

  /** `a` comes before `b` when it is a proper prefix of `b`, or smaller at the first place where they differ. */
  lemma {:induction false} LessMeaning(a: string, b: string)
    ensures Less(a, b) <==> exists k :: 0 <= k <= |a| && k < |b| && a[..k] == b[..k] && (k == |a| || a[k] < b[k])
  {
    if a == [] || b == [] || a[0] != b[0] {
      if Less(a, b) {
        assert a[..0] == b[..0];
      }
    } else {
      LessMeaning(a[1..], b[1..]);
      if Less(a, b) {
        var k :| 0 <= k <= |a[1..]| && k < |b[1..]| && a[1..][..k] == b[1..][..k]
                 && (k == |a[1..]| || a[1..][k] < b[1..][k]);
        assert a[..k + 1] == [a[0]] + a[1..][..k] && b[..k + 1] == [b[0]] + b[1..][..k];
      }
      if k :| 0 <= k <= |a| && k < |b| && a[..k] == b[..k] && (k == |a| || a[k] < b[k]) {
        assert a[1..][..k - 1] == a[..k][1..] && b[1..][..k - 1] == b[..k][1..];
      }
    }
  }

  predicate Before(a: Entry, b: Entry) {
    a.rank < b.rank || (a.rank == b.rank && Less(a.id, b.id))
  }

  lemma {:induction false} LessIsTotal(a: string, b: string)
    ensures a == b || Less(a, b) || Less(b, a)
    ensures !(Less(a, b) && Less(b, a)) && !Less(a, a)
  {
    if a != [] {
      LessIsTotal(a[1..], a[1..]);
      if b != [] {
        LessIsTotal(a[1..], b[1..]);
        assert a == [a[0]] + a[1..] && b == [b[0]] + b[1..];
      }
    }
  }

  lemma {:induction false} LessIsTransitive(a: string, b: string, c: string)
    requires Less(a, b) && Less(b, c)
    ensures Less(a, c)
  {
    if a != [] && a[0] == b[0] == c[0] {
      LessIsTransitive(a[1..], b[1..], c[1..]);
    }
  }

  /** Ties in the rank are broken by the id, so two different entries are always in order. */
  lemma BeforeIsTotal(a: Entry, b: Entry)
    ensures a == b || Before(a, b) || Before(b, a)
    ensures !(Before(a, b) && Before(b, a)) && !Before(a, a)
  {
    LessIsTotal(a.id, b.id);
  }

  lemma BeforeIsTransitive(a: Entry, b: Entry, c: Entry)
    requires Before(a, b) && Before(b, c)
    ensures Before(a, c)
  {
    if a.rank == b.rank == c.rank {
      LessIsTransitive(a.id, b.id, c.id);
    }
  }

  predicate IsLeast(s: set<Entry>, e: Entry) {
    e in s && forall other :: other in s && other != e ==> Before(e, other)
  }

  lemma {:induction false} LeastExists(s: set<Entry>)
    requires s != {}
    ensures exists e :: IsLeast(s, e)
    decreases |s|
  {
    var x :| x in s;
    var rest := s - {x};
    if rest == {} {
      assert s == {x};
      assert IsLeast(s, x);
    } else {
      assert |rest| < |s|;
      LeastExists(rest);
      var m :| IsLeast(rest, m);
      BeforeIsTotal(x, m);
      var least := if Before(x, m) then x else m;
      forall other | other in s && other != least
        ensures Before(least, other)
      {
        if other != x && other != m && least == x {
          BeforeIsTransitive(x, m, other);
        }
      }
      assert IsLeast(s, least);
    }
  }

  function Least(s: set<Entry>): (e: Entry)
    requires s != {}
    ensures IsLeast(s, e)
  {
    LeastExists(s);
    assert forall a, b :: IsLeast(s, a) && IsLeast(s, b) ==> a == b by {
      forall a, b | IsLeast(s, a) && IsLeast(s, b)
        ensures a == b
      {
        BeforeIsTotal(a, b);
      }
    }
    var e :| IsLeast(s, e);
    e
  }

  function Sorted(s: set<Entry>): seq<Entry>
    decreases |s|
  {
    if s == {} then []
    else
      var e := Least(s);
      assert |s - {e}| < |s|;
      [e] + Sorted(s - {e})
  }

  ghost predicate Ascending(list: seq<Entry>) {
    forall i, j :: 0 <= i < j < |list| ==> Before(list[i], list[j])
  }

  /** The list holds every entry once, in order. */
  lemma {:induction false} SortedMeaning(s: set<Entry>)
    ensures Ascending(Sorted(s)) && Elements(Sorted(s)) == s && |Sorted(s)| == |s|
    decreases |s|
  {
    if s != {} {
      var e := Least(s);
      assert |s - {e}| < |s|;
      SortedMeaning(s - {e});
      var rest := Sorted(s - {e});
      assert Elements([e] + rest) == {e} + Elements(rest);
      forall j | 0 <= j < |rest|
        ensures Before(e, rest[j])
      {
        assert rest[j] in Elements(rest);
      }
    }
  }

  /** No other list does. */
  lemma {:induction false} SortedIsTheOnlyListing(list: seq<Entry>)
    requires Ascending(list)
    ensures list == Sorted(Elements(list))
  {
    if list != [] {
      var s, e := Elements(list), list[0];
      assert e in s;
      forall other | other in s && other != e
        ensures Before(e, other)
      {
        var i :| 0 <= i < |list| && list[i] == other;
      }
      assert IsLeast(s, e) && IsLeast(s, Least(s));
      BeforeIsTotal(e, Least(s));
      BeforeIsTotal(e, e);
      assert e !in list[1..];
      assert s - {e} == Elements(list[1..]);
      SortedIsTheOnlyListing(list[1..]);
    } else {
      assert Elements(list) == {};
    }
  }
}
