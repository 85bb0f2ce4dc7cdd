/** Ranking scored items: sort by score, then time, then id, and keep the first ones. */
module Ranking {
  type Id = nat

  /** Ids are compared as in their collation order. */
  datatype Scored = Scored(id: Id, score: real, time: int)

  /** The comparator puts `a` before `b`: a strict total order on items with different ids. */
  predicate Above(a: Scored, b: Scored) {
    || a.score > b.score
    || (a.score == b.score && a.time > b.time)
    || (a.score == b.score && a.time == b.time && a.id < b.id)
  }

  function Insert(x: Scored, s: seq<Scored>): seq<Scored> {
    if s == [] || !Above(s[0], x) then [x] + s else [s[0]] + Insert(x, s[1..])
  }

  function Sort(s: seq<Scored>): seq<Scored> {
    if s == [] then [] else Insert(s[0], Sort(s[1..]))
  }

  ghost predicate DistinctIds(s: seq<Scored>) {
    forall i, j :: 0 <= i < j < |s| ==> s[i].id != s[j].id
  }

  ghost predicate Sorted(s: seq<Scored>) {
    forall i, j :: 0 <= i < j < |s| ==> Above(s[i], s[j])
  }

  lemma {:induction false} InsertMultiset(x: Scored, s: seq<Scored>)
    ensures multiset(Insert(x, s)) == multiset(s) + multiset{x}
  {
    if s != [] {
      assert s == [s[0]] + s[1..];
      if Above(s[0], x) {
        InsertMultiset(x, s[1..]);
      }
    }
  }

  lemma {:induction false} SortMultiset(s: seq<Scored>)
    ensures multiset(Sort(s)) == multiset(s)
  {
    if s != [] {
      assert s == [s[0]] + s[1..];
      SortMultiset(s[1..]);
      InsertMultiset(s[0], Sort(s[1..]));
    }
  }

  lemma {:induction false} InsertSorted(x: Scored, s: seq<Scored>)
    requires Sorted(s) && forall y :: y in s ==> y.id != x.id
    ensures Sorted(Insert(x, s))
  {
    if s != [] {
      if Above(s[0], x) {
        InsertSorted(x, s[1..]);
        InsertMultiset(x, s[1..]);
        var t := Insert(x, s[1..]);
        forall j | 0 <= j < |t|
          ensures Above(s[0], t[j])
        {
          assert t[j] in multiset(t);
          if t[j] != x {
            assert t[j] in s[1..];
          }
        }
      } else {
        assert s[0] in s;
        forall j | 0 <= j < |s|
          ensures Above(x, s[j])
        {
        }
      }
    }
  }

  lemma {:induction false} SortSorts(s: seq<Scored>)
    requires DistinctIds(s)
    ensures Sorted(Sort(s))
  {
    if s != [] {
      SortSorts(s[1..]);
      SortMultiset(s[1..]);
      forall y | y in Sort(s[1..])
        ensures y.id != s[0].id
      {
        assert y in multiset(s[1..]);
      }
      InsertSorted(s[0], Sort(s[1..]));
    }
  }

  /** A sorted arrangement is unique, so any correct sort returns this one. */
  lemma {:induction false} SortedUnique(a: seq<Scored>, b: seq<Scored>)
    requires Sorted(a) && Sorted(b) && multiset(a) == multiset(b)
    ensures a == b
  {
    assert |multiset(a)| == |a| && |multiset(b)| == |b|;
    if a != [] {
      SameHead(a, b);
      DropHead(a);
      DropHead(b);
      SortedUnique(a[1..], b[1..]);
      assert a == [a[0]] + a[1..] && b == [b[0]] + b[1..];
    }
  }

  lemma DropHead(a: seq<Scored>)
    requires a != []
    ensures multiset(a[1..]) == multiset(a) - multiset{a[0]}
  {
    assert a == [a[0]] + a[1..];
  }

  lemma SameHead(a: seq<Scored>, b: seq<Scored>)
    requires Sorted(a) && Sorted(b) && multiset(a) == multiset(b) && a != [] && b != []
    ensures a[0] == b[0]
  {
    assert a[0] in multiset(b) && b[0] in multiset(a);
    var j :| 0 <= j < |b| && b[j] == a[0];
    var i :| 0 <= i < |a| && a[i] == b[0];
  }

  /** The ids of the first `limit` items in ranking order. */
  function Top(s: seq<Scored>, limit: nat): seq<Id> {
    var sorted := Sort(s);
    Ids(if |sorted| <= limit then sorted else sorted[..limit])
  }

  function Ids(s: seq<Scored>): (r: seq<Id>)
    ensures |r| == |s|
  {
    seq(|s|, i requires 0 <= i < |s| => s[i].id)
  }

  lemma SameMultisetDistinct(a: seq<Scored>, b: seq<Scored>)
    requires DistinctIds(a) && multiset(a) == multiset(b)
    ensures DistinctIds(b)
  {
    forall i, j | 0 <= i < j < |b|
      ensures b[i].id != b[j].id
    {
      assert b == b[..i] + [b[i]] + b[i + 1..j] + [b[j]] + b[j + 1..];
      assert b[i] in multiset(a) && b[j] in multiset(a);
      if b[i] == b[j] {
        assert multiset(b)[b[i]] >= 2;
        AtMostOnce(a, b[i]);
      } else {
        var k :| 0 <= k < |a| && a[k] == b[i];
        var l :| 0 <= l < |a| && a[l] == b[j];
      }
    }
  }

  lemma {:induction false} AtMostOnce(a: seq<Scored>, x: Scored)
    requires DistinctIds(a)
    ensures multiset(a)[x] <= 1
  {
    if a != [] {
      assert a == [a[0]] + a[1..];
      AtMostOnce(a[1..], x);
      if a[0] == x {
        assert x !in a[1..];
      }
    }
  }

  /** The ranking does not depend on the order in which the items arrive. */
  lemma TopIgnoresInputOrder(a: seq<Scored>, b: seq<Scored>, limit: nat)
    requires DistinctIds(a) && multiset(a) == multiset(b)
    ensures Top(a, limit) == Top(b, limit)
  {
    SameMultisetDistinct(a, b);
    SortSorts(a);
    SortSorts(b);
    SortMultiset(a);
    SortMultiset(b);
    SortedUnique(Sort(a), Sort(b));
  }

  lemma SortLength(s: seq<Scored>)
    ensures |Sort(s)| == |s|
  {
    SortMultiset(s);
    assert |multiset(Sort(s))| == |multiset(s)|;
  }

  /** It has min(limit, n) different ids. */
  lemma TopDistinct(s: seq<Scored>, limit: nat)
    requires DistinctIds(s)
    ensures |Top(s, limit)| == if |s| <= limit then |s| else limit
    ensures forall i, j :: 0 <= i < j < |Top(s, limit)| ==> Top(s, limit)[i] != Top(s, limit)[j]
  {
    SortLength(s);
    SortMultiset(s);
    SameMultisetDistinct(s, Sort(s));
  }

  lemma PositionOf(s: seq<Scored>, x: Scored) returns (k: nat)
    requires x in s
    ensures k < |Sort(s)| && Sort(s)[k] == x
  {
    SortMultiset(s);
    assert x in multiset(Sort(s));
    k :| 0 <= k < |Sort(s)| && Sort(s)[k] == x;
  }

  /** A true top-k: an item that ranks above a listed one is listed, and earlier. */
  lemma TopRespectsOrder(s: seq<Scored>, limit: nat, x: Scored, y: Scored, j: nat)
    requires DistinctIds(s) && x in s && y in s && Above(x, y)
    requires j < |Top(s, limit)| && Top(s, limit)[j] == y.id
    ensures exists i :: 0 <= i < j && Top(s, limit)[i] == x.id
  {
    SortSorts(s);
    SortMultiset(s);
    SameMultisetDistinct(s, Sort(s));
    var k := PositionOf(s, x);
    var l := PositionOf(s, y);
    assert l == j;
    assert k < l;
    assert Top(s, limit)[k] == x.id;
  }
}
