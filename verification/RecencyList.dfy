/**
  What an LRU cache with expiry means, as a sequence of entries from the most
  to the least recently used one.  A run over an operation trace is compared with
  the same run without a capacity, with a plain map, and with the trace itself.
 */
module RecencyList {
  import opened Wrappers

  datatype Entry<+K, +V> = Entry(key: K, value: V, expiry: int)

  datatype Op<+K, +V> =
    | Get(key: K, now: int)
    | Set(key: K, value: V, now: int)
    | Delete(key: K)

  /** `None` stands for a cache that never evicts. */
  type Capacity = Option<int>

  function Lookup<K(==), V>(s: seq<Entry<K, V>>, k: K): (r: Option<Entry<K, V>>)
    ensures r.Some? ==> r.value in s && r.value.key == k
    ensures r.None? ==> forall e :: e in s ==> e.key != k
  {
    if s == [] then None
    else if s[0].key == k then Some(s[0])
    else Lookup(s[1..], k)
  }

  function Without<K(==), V>(s: seq<Entry<K, V>>, k: K): (r: seq<Entry<K, V>>)
    ensures |r| <= |s|
  {
    if s == [] then []
    else if s[0].key == k then Without(s[1..], k)
    else [s[0]] + Without(s[1..], k)
  }

  lemma {:induction false} WithoutMembers<K, V>(s: seq<Entry<K, V>>, k: K)
    ensures forall e :: e in Without(s, k) ==> e in s && e.key != k
    ensures forall e :: e in s && e.key != k ==> e in Without(s, k)
  {
    if s != [] {
      WithoutMembers(s[1..], k);
      assert s == [s[0]] + s[1..];
    }
  }

  ghost predicate Distinct<K, V>(s: seq<Entry<K, V>>) {
    forall i, j :: 0 <= i < j < |s| ==> s[i].key != s[j].key
  }

  function AfterDelete<K(==), V>(s: seq<Entry<K, V>>, k: K): seq<Entry<K, V>> {
    Without(s, k)
  }

  /** The list with `e` moved or added to the front. */
  function ToFront<K(==), V>(s: seq<Entry<K, V>>, e: Entry<K, V>): seq<Entry<K, V>> {
    [e] + Without(s, e.key)
  }

  function AfterGet<K(==), V>(s: seq<Entry<K, V>>, k: K, now: int): (seq<Entry<K, V>>, Option<V>) {
    match Lookup(s, k)
    case None => (s, None)
    case Some(e) =>
      if now > e.expiry then (AfterDelete(s, k), None)
      else (ToFront(s, e), Some(e.value))
  }

  function AfterSet<K(==), V>(s: seq<Entry<K, V>>, e: Entry<K, V>, cap: Capacity): seq<Entry<K, V>> {
    var put := ToFront(s, e);
    if Lookup(s, e.key).None? && cap.Some? && |put| > cap.value then put[..|put| - 1] else put
  }

  function Step<K(==), V>(s: seq<Entry<K, V>>, op: Op<K, V>, ttl: int, cap: Capacity): seq<Entry<K, V>> {
    match op
    case Get(k, now) => AfterGet(s, k, now).0
    case Set(k, v, now) => AfterSet(s, Entry(k, v, now + ttl), cap)
    case Delete(k) => AfterDelete(s, k)
  }

  /** The contents after a whole trace, starting from an empty cache. */
  function Run<K(==), V>(ops: seq<Op<K, V>>, ttl: int, cap: Capacity): seq<Entry<K, V>> {
    if ops == [] then [] else Step(Run(ops[..|ops| - 1], ttl, cap), ops[|ops| - 1], ttl, cap)
  }

  // ---- facts about one list ---------------------------------------------------

  lemma {:induction false} WithoutDistinct<K, V>(s: seq<Entry<K, V>>, k: K)
    requires Distinct(s)
    ensures Distinct(Without(s, k))
  {
    if s != [] {
      WithoutDistinct(s[1..], k);
      WithoutMembers(s[1..], k);
      forall i | 0 <= i < |Without(s[1..], k)|
        ensures Without(s[1..], k)[i].key != s[0].key
      {
        assert Without(s[1..], k)[i] in s[1..];
      }
    }
  }

  lemma {:induction false} WithoutAbsent<K, V>(s: seq<Entry<K, V>>, k: K)
    requires forall e :: e in s ==> e.key != k
    ensures Without(s, k) == s
  {
    if s != [] {
      WithoutAbsent(s[1..], k);
    }
  }

  lemma {:induction false} LookupNoneWithout<K, V>(s: seq<Entry<K, V>>, k: K)
    requires Lookup(s, k).None?
    ensures Without(s, k) == s
  {
    if s != [] {
      LookupNoneWithout(s[1..], k);
    }
  }

  /** Removing a key from a list without repeats drops exactly its position. */
  lemma {:induction false} WithoutAt<K, V>(s: seq<Entry<K, V>>, i: nat)
    requires Distinct(s) && i < |s|
    ensures Without(s, s[i].key) == s[..i] + s[i + 1..]
  {
    if i == 0 {
      WithoutAbsent(s[1..], s[0].key);
      assert s[..0] + s[1..] == s[1..];
    } else {
      WithoutAt(s[1..], i - 1);
      assert s[1..][..i - 1] == s[1..i] && s[1..][i..] == s[i + 1..];
      assert [s[0]] + (s[1..i] + s[i + 1..]) == s[..i] + s[i + 1..];
    }
  }

  lemma {:induction false} LookupAt<K, V>(s: seq<Entry<K, V>>, i: nat)
    requires Distinct(s) && i < |s|
    ensures Lookup(s, s[i].key) == Some(s[i])
  {
    if i > 0 {
      LookupAt(s[1..], i - 1);
    }
  }

  /** Overwriting an entry in place before moving it to the front makes no difference. */
  lemma UpdateThenToFront<K, V>(s: seq<Entry<K, V>>, i: nat, e: Entry<K, V>)
    requires Distinct(s) && i < |s| && s[i].key == e.key
    ensures ToFront(s[i := e], e) == ToFront(s, e)
  {
    WithoutAt(s, i);
    WithoutAt(s[i := e], i);
    assert s[i := e][..i] == s[..i] && s[i := e][i + 1..] == s[i + 1..];
  }

  lemma ToFrontDistinct<K, V>(s: seq<Entry<K, V>>, e: Entry<K, V>)
    requires Distinct(s)
    ensures Distinct(ToFront(s, e))
  {
    var w := Without(s, e.key);
    WithoutDistinct(s, e.key);
    WithoutMembers(s, e.key);
    forall i | 0 <= i < |w|
      ensures w[i].key != e.key
    {
      assert w[i] in w;
    }
  }

  lemma StepDistinct<K, V>(s: seq<Entry<K, V>>, op: Op<K, V>, ttl: int, cap: Capacity)
    requires Distinct(s)
    ensures Distinct(Step(s, op, ttl, cap))
  {
    WithoutDistinct(s, op.key);
    match op
    case Get(k, _) =>
      if Lookup(s, k).Some? {
        ToFrontDistinct(s, Lookup(s, k).value);
      }
    case Set(k, v, now) =>
      ToFrontDistinct(s, Entry(k, v, now + ttl));
    case Delete(_) =>
  }

  // ---- bounded size -----------------------------------------------------------

  /** No key is stored twice and the capacity is respected (a negative one keeps the cache empty). */
  lemma {:induction false} RunBounded<K, V>(ops: seq<Op<K, V>>, ttl: int, cap: Capacity)
    ensures Distinct(Run(ops, ttl, cap))
    ensures cap.Some? ==> |Run(ops, ttl, cap)| <= if cap.value < 0 then 0 else cap.value
  {
    if ops != [] {
      var before, op := Run(ops[..|ops| - 1], ttl, cap), ops[|ops| - 1];
      RunBounded(ops[..|ops| - 1], ttl, cap);
      StepDistinct(before, op, ttl, cap);
      var found := Lookup(before, op.key);
      if found.Some? {
        var i :| 0 <= i < |before| && before[i] == found.value;
        WithoutAt(before, i);
      }
    }
  }

  // ---- comparison with the cache that never evicts ------------------------------

  /** `a` can be obtained from `b` by leaving entries out. */
  ghost predicate Subsequence<K, V>(a: seq<Entry<K, V>>, b: seq<Entry<K, V>>) {
    if a == [] then true
    else if b == [] then false
    else if a[0] == b[0] then Subsequence(a[1..], b[1..])
    else Subsequence(a, b[1..])
  }

  lemma {:induction false} SubsequenceMembers<K, V>(a: seq<Entry<K, V>>, b: seq<Entry<K, V>>)
    requires Subsequence(a, b)
    ensures forall e :: e in a ==> e in b
  {
    if a != [] {
      assert b == [b[0]] + b[1..];
      if a[0] == b[0] {
        SubsequenceMembers(a[1..], b[1..]);
        assert a == [a[0]] + a[1..];
      } else {
        SubsequenceMembers(a, b[1..]);
      }
    }
  }

  lemma {:induction false} SubsequencePrefix<K, V>(a: seq<Entry<K, V>>, b: seq<Entry<K, V>>, n: nat)
    requires Subsequence(a, b) && n <= |a|
    ensures Subsequence(a[..n], b)
  {
    if n > 0 {
      if a[0] == b[0] {
        SubsequencePrefix(a[1..], b[1..], n - 1);
        assert a[..n][1..] == a[1..][..n - 1];
      } else {
        SubsequencePrefix(a, b[1..], n);
      }
    }
  }

  lemma {:induction false} SubsequenceSkip<K, V>(a: seq<Entry<K, V>>, b: seq<Entry<K, V>>)
    requires Subsequence(a, b) && a != []
    ensures Subsequence(a[1..], b)
  {
    if a[0] == b[0] {
      if a[1..] != [] {
        if a[1] == b[0] {
          SubsequenceSkip(a[1..], b[1..]);
        }
      }
    } else {
      SubsequenceSkip(a, b[1..]);
      if a[1..] != [] && a[1] == b[0] {
        SubsequenceSkip(a[1..], b[1..]);
      }
    }
  }

  lemma {:induction false} SubsequenceWithout<K, V>(a: seq<Entry<K, V>>, b: seq<Entry<K, V>>, k: K)
    requires Subsequence(a, b)
    ensures Subsequence(Without(a, k), Without(b, k))
  {
    if a != [] {
      if a[0] == b[0] {
        SubsequenceWithout(a[1..], b[1..], k);
        if a[0].key != k {
          assert Without(a, k)[1..] == Without(a[1..], k);
          assert Without(b, k)[1..] == Without(b[1..], k);
        }
      } else {
        SubsequenceWithout(a, b[1..], k);
        if b[0].key != k {
          var wa, wb := Without(a, k), Without(b, k);
          assert wb[1..] == Without(b[1..], k);
          if wa != [] && wa[0] == wb[0] {
            SubsequenceSkip(wa, wb[1..]);
          }
        }
      }
    }
  }

  lemma SubsequenceToFront<K, V>(a: seq<Entry<K, V>>, b: seq<Entry<K, V>>, e: Entry<K, V>)
    requires Subsequence(a, b)
    ensures Subsequence(ToFront(a, e), ToFront(b, e))
  {
    SubsequenceWithout(a, b, e.key);
    assert ToFront(a, e)[1..] == Without(a, e.key) && ToFront(b, e)[1..] == Without(b, e.key);
  }

  lemma SubsequenceGet<K, V>(a: seq<Entry<K, V>>, b: seq<Entry<K, V>>, k: K, now: int)
    requires Distinct(b) && Subsequence(a, b)
    ensures Subsequence(AfterGet(a, k, now).0, AfterGet(b, k, now).0)
  {
    var inA, inB := Lookup(a, k), Lookup(b, k);
    SubsequenceMembers(a, b);
    SubsequenceWithout(a, b, k);
    if inA.Some? {
      var j :| 0 <= j < |b| && b[j] == inA.value;
      LookupAt(b, j);
      SubsequenceToFront(a, b, inA.value);
    } else if inB.Some? {
      WithoutAbsent(a, k);
      var front := ToFront(b, inB.value);
      assert front[1..] == Without(b, k);
      assert a != [] ==> a[0].key != k;
    }
  }

  /**
    Evictions only leave entries out: what remains has the same values, the same expiry
    times and the same relative order as in a cache of unlimited size.
   */
  lemma {:induction false} RunIsSubsequenceOfUnbounded<K, V>(ops: seq<Op<K, V>>, ttl: int, cap: Capacity)
    ensures Subsequence(Run(ops, ttl, cap), Run(ops, ttl, None))
  {
    if ops != [] {
      var prefix, op := ops[..|ops| - 1], ops[|ops| - 1];
      var a, b := Run(prefix, ttl, cap), Run(prefix, ttl, None);
      RunIsSubsequenceOfUnbounded(prefix, ttl, cap);
      match op
      case Get(k, now) =>
        RunBounded(prefix, ttl, None);
        SubsequenceGet(a, b, k, now);
      case Set(k, v, now) =>
        var e := Entry(k, v, now + ttl);
        SubsequenceToFront(a, b, e);
        SubsequencePrefix(ToFront(a, e), ToFront(b, e), |ToFront(a, e)| - 1);
      case Delete(k) =>
        SubsequenceWithout(a, b, k);
    }
  }

  // ---- comparison with a plain map ----------------------------------------------

  datatype Stamped<+V> = Stamped(value: V, expiry: int)

  function PlainStep<K(==), V>(m: map<K, Stamped<V>>, op: Op<K, V>, ttl: int): map<K, Stamped<V>> {
    match op
    case Get(k, now) => if k in m && now > m[k].expiry then m - {k} else m
    case Set(k, v, now) => m[k := Stamped(v, now + ttl)]
    case Delete(k) => m - {k}
  }

  function PlainRun<K(==), V>(ops: seq<Op<K, V>>, ttl: int): map<K, Stamped<V>> {
    if ops == [] then map[] else PlainStep(PlainRun(ops[..|ops| - 1], ttl), ops[|ops| - 1], ttl)
  }

  /** What `get(k)` on the plain map answers. */
  function PlainGet<K(==), V>(m: map<K, Stamped<V>>, k: K, now: int): Option<V> {
    if k in m && now <= m[k].expiry then Some(m[k].value) else None
  }

  lemma {:induction false} UnboundedIsPlainMap<K, V>(ops: seq<Op<K, V>>, ttl: int)
    ensures forall k :: k in PlainRun(ops, ttl) <==> Lookup(Run(ops, ttl, None), k).Some?
    ensures forall e :: e in Run(ops, ttl, None) ==>
              e.key in PlainRun(ops, ttl) && PlainRun(ops, ttl)[e.key] == Stamped(e.value, e.expiry)
  {
    if ops != [] {
      var prefix, op := ops[..|ops| - 1], ops[|ops| - 1];
      UnboundedIsPlainMap(prefix, ttl);
      var s, m := Run(prefix, ttl, None), PlainRun(prefix, ttl);
      var s', m' := Run(ops, ttl, None), PlainRun(ops, ttl);
      RunBounded(prefix, ttl, None);
      WithoutMembers(s, op.key);
      if op.Get? && Lookup(s, op.key).Some? {
        var e := Lookup(s, op.key).value;
        assert forall x :: x in ToFront(s, e) ==> x == e || x in Without(s, op.key);
      }
      assert forall e :: e in s' ==> e.key in m' && m'[e.key] == Stamped(e.value, e.expiry);
      forall k
        ensures k in m' <==> Lookup(s', k).Some?
      {
        if k in m' && k != op.key {
          assert Lookup(s, k).value in Without(s, op.key);
        }
      }
    }
  }

  /** Every hit returns what the plain map returns; the plain map's misses are misses of the cache. */
  lemma HitAgreesWithPlainMap<K, V>(ops: seq<Op<K, V>>, ttl: int, cap: Capacity, k: K, now: int)
    ensures var answer := AfterGet(Run(ops, ttl, cap), k, now).1;
            answer.Some? ==> answer == PlainGet(PlainRun(ops, ttl), k, now)
    ensures AfterGet(Run(ops, ttl, None), k, now).1 == PlainGet(PlainRun(ops, ttl), k, now)
  {
    RunIsSubsequenceOfUnbounded(ops, ttl, cap);
    SubsequenceMembers(Run(ops, ttl, cap), Run(ops, ttl, None));
    UnboundedIsPlainMap(ops, ttl);
  }

  // ---- the order of the list and the order of use ---------------------------------

  /** A `set` uses its key; a `get` does so only when it hits. */
  predicate Uses<K(==), V>(s: seq<Entry<K, V>>, op: Op<K, V>, k: K) {
    match op
    case Get(k', now) => k == k' && AfterGet(s, k', now).1.Some?
    case Set(k', _, _) => k == k'
    case Delete(_) => false
  }

  /** The number of operations up to the last use of `k`, 0 when there was none. */
  function LastUse<K(==), V>(ops: seq<Op<K, V>>, ttl: int, cap: Capacity, k: K): (n: nat)
    ensures n <= |ops|
  {
    if ops == [] then 0
    else if Uses(Run(ops[..|ops| - 1], ttl, cap), ops[|ops| - 1], k) then |ops|
    else LastUse(ops[..|ops| - 1], ttl, cap, k)
  }

  ghost predicate Lighter<K, V>(s: seq<Entry<K, V>>, weight: K -> int, bound: int) {
    forall e :: e in s ==> weight(e.key) < bound
  }

  /** Every entry is heavier than all entries after it. */
  ghost predicate SortedBy<K, V>(s: seq<Entry<K, V>>, weight: K -> int) {
    s == [] || (Lighter(s[1..], weight, weight(s[0].key)) && SortedBy(s[1..], weight))
  }

  lemma {:induction false} WithoutSorted<K, V>(s: seq<Entry<K, V>>, k: K, old': K -> int, new': K -> int)
    requires SortedBy(s, old')
    requires forall e :: e in s && e.key != k ==> new'(e.key) == old'(e.key)
    ensures SortedBy(Without(s, k), new')
  {
    if s != [] {
      WithoutSorted(s[1..], k, old', new');
      WithoutMembers(s[1..], k);
    }
  }

  lemma ToFrontSorted<K, V>(s: seq<Entry<K, V>>, e: Entry<K, V>, old': K -> int, new': K -> int)
    requires SortedBy(s, old')
    requires forall x :: x in s && x.key != e.key ==> new'(x.key) == old'(x.key) < new'(e.key)
    ensures SortedBy(ToFront(s, e), new')
  {
    WithoutSorted(s, e.key, old', new');
    WithoutMembers(s, e.key);
    assert ToFront(s, e)[1..] == Without(s, e.key);
  }

  lemma {:induction false} ButLastSorted<K, V>(s: seq<Entry<K, V>>, weight: K -> int)
    requires s != [] && SortedBy(s, weight)
    ensures SortedBy(s[..|s| - 1], weight)
    ensures forall i :: 0 <= i < |s| - 1 ==> weight(s[i].key) > weight(s[|s| - 1].key)
  {
    if |s| > 1 {
      var t := s[1..];
      ButLastSorted(t, weight);
      assert s[..|s| - 1][1..] == t[..|t| - 1];
      assert t[|t| - 1] in t;
      assert forall i :: 0 < i < |s| - 1 ==> s[i] == t[i - 1];
    }
  }

  /** One operation keeps the list sorted when it gives the key it uses, and no other key, the greatest weight. */
  lemma StepSorted<K, V>(s: seq<Entry<K, V>>, op: Op<K, V>, ttl: int, cap: Capacity, before: K -> int, after: K -> int)
    requires SortedBy(s, before)
    requires forall e :: e in s && e.key != op.key ==> after(e.key) == before(e.key)
    requires Uses(s, op, op.key) ==> forall e :: e in s && e.key != op.key ==> before(e.key) < after(op.key)
    ensures SortedBy(Step(s, op, ttl, cap), after)
  {
    match op
    case Get(k, now) =>
      if Uses(s, op, k) {
        ToFrontSorted(s, Lookup(s, k).value, before, after);
      } else {
        MissSorted(s, k, now, before, after);
      }
    case Set(k, v, now) =>
      SetSorted(s, Entry(k, v, now + ttl), cap, before, after);
    case Delete(k) =>
      WithoutSorted(s, k, before, after);
  }

  lemma MissSorted<K, V>(s: seq<Entry<K, V>>, k: K, now: int, before: K -> int, after: K -> int)
    requires SortedBy(s, before) && AfterGet(s, k, now).1.None?
    requires forall e :: e in s && e.key != k ==> after(e.key) == before(e.key)
    ensures SortedBy(AfterGet(s, k, now).0, after)
  {
    WithoutSorted(s, k, before, after);
    if Lookup(s, k).None? {
      LookupNoneWithout(s, k);
    }
  }

  lemma SetSorted<K, V>(s: seq<Entry<K, V>>, e: Entry<K, V>, cap: Capacity, before: K -> int, after: K -> int)
    requires SortedBy(s, before)
    requires forall x :: x in s && x.key != e.key ==> after(x.key) == before(x.key) < after(e.key)
    ensures SortedBy(AfterSet(s, e, cap), after)
  {
    ToFrontSorted(s, e, before, after);
    ButLastSorted(ToFront(s, e), after);
  }

  /** The list is in strictly decreasing order of last use, at every moment of every run. */
  lemma {:induction false} RunSortedByUse<K, V>(ops: seq<Op<K, V>>, ttl: int, cap: Capacity)
    ensures SortedBy(Run(ops, ttl, cap), k => LastUse(ops, ttl, cap, k))
  {
    if ops != [] {
      var prefix, op := ops[..|ops| - 1], ops[|ops| - 1];
      var s := Run(prefix, ttl, cap);
      var before, after := k => LastUse(prefix, ttl, cap, k), k => LastUse(ops, ttl, cap, k);
      RunSortedByUse(prefix, ttl, cap);
      StepSorted(s, op, ttl, cap, before, after);
    }
  }

  lemma EvictionDropsLast<K, V>(s: seq<Entry<K, V>>, cap: Capacity, e: Entry<K, V>, victim: Entry<K, V>)
    requires victim in s && victim.key != e.key && victim !in AfterSet(s, e, cap)
    ensures AfterSet(s, e, cap) == [e] + s[..|s| - 1] && victim == s[|s| - 1]
  {
    InToFront(s, e, victim);
    assert AfterSet(s, e, cap) != ToFront(s, e);
    LookupNoneWithout(s, e.key);
    var i :| 0 <= i < |s| && s[i] == victim;
    var kept := [e] + s[..|s| - 1];
    assert ([e] + s)[..|s|] == kept;
    assert forall j :: 0 < j < |s| ==> kept[j] == s[j - 1];
  }

  lemma InToFront<K, V>(s: seq<Entry<K, V>>, e: Entry<K, V>, x: Entry<K, V>)
    requires x in s && x.key != e.key
    ensures x in ToFront(s, e)
  {
    WithoutMembers(s, e.key);
  }

  lemma EvictedIsLightest<K, V>(
    s: seq<Entry<K, V>>, cap: Capacity, e: Entry<K, V>, victim: Entry<K, V>, weight: K -> int)
    requires SortedBy(s, weight)
    requires victim in s && victim.key != e.key && victim !in AfterSet(s, e, cap)
    ensures forall other :: other in s && other != victim ==>
              weight(other.key) > weight(victim.key) && other in AfterSet(s, e, cap)
  {
    EvictionDropsLast(s, cap, e, victim);
    ButLastSorted(s, weight);
    var kept := [e] + s[..|s| - 1];
    forall other | other in s && other != victim
      ensures weight(other.key) > weight(victim.key) && other in kept
    {
      var i :| 0 <= i < |s| && s[i] == other;
      assert kept[i + 1] == other;
    }
  }

  /** An eviction removes the one key whose last `set` or hitting `get` is the oldest. */
  lemma EvictedIsLeastRecentlyUsed<K, V>(
    ops: seq<Op<K, V>>, ttl: int, cap: Capacity, e: Entry<K, V>, victim: Entry<K, V>)
    requires var s := Run(ops, ttl, cap);
             victim in s && victim.key != e.key && victim !in AfterSet(s, e, cap)
    ensures forall other :: other in Run(ops, ttl, cap) && other != victim ==>
              && LastUse(ops, ttl, cap, other.key) > LastUse(ops, ttl, cap, victim.key)
              && other in AfterSet(Run(ops, ttl, cap), e, cap)
  {
    var weight := k => LastUse(ops, ttl, cap, k);
    RunSortedByUse(ops, ttl, cap);
    EvictedIsLightest(Run(ops, ttl, cap), cap, e, victim, weight);
  }

  // ---- keys that cannot be evicted yet ------------------------------------------------

  /** The entry is in the list, behind entries whose keys are among `used`. */
  ghost predicate Behind<K, V>(s: seq<Entry<K, V>>, e: Entry<K, V>, used: set<K>) {
    s != [] && (s[0] == e || (s[0].key != e.key && s[0].key in used && Behind(s[1..], e, used)))
  }

  lemma {:induction false} BehindLookup<K, V>(s: seq<Entry<K, V>>, e: Entry<K, V>, used: set<K>)
    requires Behind(s, e, used)
    ensures Lookup(s, e.key) == Some(e)
  {
    if s[0] != e {
      BehindLookup(s[1..], e, used);
    }
  }

  lemma {:induction false} BehindMore<K, V>(s: seq<Entry<K, V>>, e: Entry<K, V>, used: set<K>, more: set<K>)
    requires Behind(s, e, used) && used <= more
    ensures Behind(s, e, more)
  {
    if s[0] != e {
      BehindMore(s[1..], e, used, more);
    }
  }

  lemma {:induction false} BehindWithout<K, V>(s: seq<Entry<K, V>>, e: Entry<K, V>, used: set<K>, k: K)
    requires Behind(s, e, used) && k != e.key
    ensures Behind(Without(s, k), e, used)
  {
    if s[0] != e {
      BehindWithout(s[1..], e, used, k);
      assert s[0].key != k ==> Without(s, k)[1..] == Without(s[1..], k);
    }
  }

  lemma BehindToFront<K, V>(s: seq<Entry<K, V>>, e: Entry<K, V>, used: set<K>, x: Entry<K, V>)
    requires Behind(s, e, used) && x.key != e.key
    ensures Behind(ToFront(s, x), e, used + {x.key})
  {
    BehindWithout(s, e, used, x.key);
    BehindMore(Without(s, x.key), e, used, used + {x.key});
    assert ToFront(s, x)[1..] == Without(s, x.key);
  }

  /** A key that is not among the keys of the list does not matter. */
  lemma {:induction false} BehindLess<K, V>(s: seq<Entry<K, V>>, e: Entry<K, V>, used: set<K>, k: K)
    requires Behind(s, e, used) && forall x :: x in s ==> x.key != k
    ensures Behind(s, e, used - {k})
  {
    if s[0] != e {
      BehindLess(s[1..], e, used, k);
    }
  }

  /** With fewer keys in front of it than the list has other entries, the entry is not the last one. */
  lemma {:induction false} BehindButLast<K, V>(s: seq<Entry<K, V>>, e: Entry<K, V>, used: set<K>)
    requires Distinct(s) && Behind(s, e, used) && |used| < |s| - 1
    ensures Behind(s[..|s| - 1], e, used)
  {
    var t := s[1..];
    assert s[..|s| - 1][1..] == t[..|t| - 1];
    if s[0] != e {
      BehindLess(t, e, used, s[0].key);
      BehindButLast(t, e, used - {s[0].key});
      BehindMore(t[..|t| - 1], e, used - {s[0].key}, used);
    }
  }

  /** The keys used since the last use of `e`, after one more operation. */
  function StillUsed<K, V>(s: seq<Entry<K, V>>, op: Op<K, V>, used: set<K>): set<K> {
    if Uses(s, op, op.key) then used + {op.key} else used
  }

  /**
    An operation on another key leaves the entry alone when, counting that operation, fewer
    than `max` other keys have been used since the last use of the entry.
   */
  lemma StepKeepsBehind<K, V>(s: seq<Entry<K, V>>, op: Op<K, V>, ttl: int, max: int, e: Entry<K, V>, used: set<K>)
    requires Distinct(s) && Behind(s, e, used) && op.key != e.key && |StillUsed(s, op, used)| < max
    ensures Behind(Step(s, op, ttl, Some(max)), e, StillUsed(s, op, used))
  {
    match op
    case Get(k, now) =>
      if Uses(s, op, k) {
        BehindToFront(s, e, used, Lookup(s, k).value);
      } else if Lookup(s, k).Some? {
        BehindWithout(s, e, used, k);
      }
    case Set(k, v, now) =>
      var x := Entry(k, v, now + ttl);
      BehindToFront(s, e, used, x);
      ToFrontDistinct(s, x);
      if |ToFront(s, x)| > max {
        BehindButLast(ToFront(s, x), e, used + {k});
      }
    case Delete(k) =>
      BehindWithout(s, e, used, k);
  }
}
