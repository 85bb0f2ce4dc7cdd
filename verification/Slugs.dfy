/** The search for a free slug: base, base-1, base-2, ... */
module Slugs {
  import opened Decimal

  /** The `k`-th slug tried. */
  function Candidate(base: string, k: nat): string {
    if k == 0 then base else base + "-" + ToString(k)
  }

  lemma CandidateInjective(base: string, j: nat, k: nat)
    requires Candidate(base, j) == Candidate(base, k)
    ensures j == k
  {
    if j > 0 && k > 0 {
      assert Candidate(base, j)[|base| + 1..] == ToString(j);
      assert Candidate(base, k)[|base| + 1..] == ToString(k);
      ToStringInjective(j, k);
    } else if j > 0 || k > 0 {
      assert |Candidate(base, j)| == |Candidate(base, k)|;
    }
  }

  /** The first `k` candidates are `k` different slugs, so `k` taken ones need `k` taken slugs. */
  lemma {:induction false} Pigeonhole(base: string, k: nat, taken: set<string>)
    requires forall j :: 0 <= j < k ==> Candidate(base, j) in taken
    ensures k <= |taken|
  {
    if k > 0 {
      var last := Candidate(base, k - 1);
      forall j | 0 <= j < k - 1
        ensures Candidate(base, j) in taken - {last}
      {
        if Candidate(base, j) == last {
          CandidateInjective(base, j, k - 1);
        }
      }
      Pigeonhole(base, k - 1, taken - {last});
    }
  }

  /** `slug` is the `k`-th candidate, it is free, and all earlier ones are taken. */
  ghost predicate FirstFree(base: string, taken: set<string>, k: nat, slug: string) {
    slug == Candidate(base, k) && slug !in taken && forall j :: 0 <= j < k ==> Candidate(base, j) in taken
  }

  /**
    `createUniqueSlug` for the base slug that `slugify` made: it stops after at most
    |taken| + 1 probes with the first free candidate.
   */
  method CreateUniqueSlug(base: string, taken: set<string>) returns (slug: string)
    ensures exists k :: 0 <= k <= |taken| && FirstFree(base, taken, k, slug)
  {
    slug := base;
    var counter := 1;
    while slug in taken
      invariant counter >= 1 && slug == Candidate(base, counter - 1)
      invariant forall j :: 0 <= j < counter - 1 ==> Candidate(base, j) in taken
      decreases |taken| + 1 - counter
    {
      Pigeonhole(base, counter, taken);
      slug := base + "-" + ToString(counter);
      counter := counter + 1;
    }
    Pigeonhole(base, counter - 1, taken);
    assert FirstFree(base, taken, counter - 1, slug);
  }

  /** The result is determined by the base and the taken slugs. */
  lemma FirstFreeUnique(base: string, taken: set<string>, j: nat, k: nat, a: string, b: string)
    requires FirstFree(base, taken, j, a) && FirstFree(base, taken, k, b)
    ensures a == b
  {
  }

  /** `n` is the smallest number from 1 on whose slug is free. */
  ghost predicate FirstNumber(base: string, taken: set<string>, n: nat, slug: string) {
    && n >= 1 && slug == base + "-" + ToString(n) && slug !in taken
    && forall j: nat :: 1 <= j < n ==> base + "-" + ToString(j) in taken
  }

  /** The result is the base itself if it is free, and otherwise the base with the smallest free number. */
  lemma FirstFreeExactly(base: string, taken: set<string>, k: nat, slug: string)
    ensures FirstFree(base, taken, k, slug) <==>
              if k == 0 then base !in taken && slug == base else base in taken && FirstNumber(base, taken, k, slug)
  {
    if k > 0 && base in taken && FirstNumber(base, taken, k, slug) {
      forall j | 0 <= j < k
        ensures Candidate(base, j) in taken
      {
      }
    }
    if k > 0 && FirstFree(base, taken, k, slug) {
      assert Candidate(base, 0) in taken;
      forall j: nat | 1 <= j < k
        ensures base + "-" + ToString(j) in taken
      {
        assert Candidate(base, j) in taken;
      }
    }
  }
}
