/**
 The counting argument behind every "append a number until the name is free"
 loop: names that are pairwise distinct and all taken cannot outnumber the taken ones.
 */
module FreshNames {
  import opened PyText

  ghost predicate Distinct<T(!new)>(s: seq<T>) {
    forall i, j :: 0 <= i < j < |s| ==> s[i] != s[j]
  }

  /** Pairwise distinct members of a finite set are no more than the set has. */
  lemma {:induction false} Pigeonhole<T(!new)>(tried: seq<T>, taken: set<T>)
    requires Distinct(tried)
    requires forall i :: 0 <= i < |tried| ==> tried[i] in taken
    ensures |tried| <= |taken|
  {
    if tried != [] {
      var last := tried[|tried| - 1];
      var front := tried[..|tried| - 1];
      Pigeonhole(front, taken - {last});
    }
  }

  /** The numbered names of one search: `front`, the number, `back`; the first has its own text. */
  datatype Numbering = Numbering(first: string, front: string, offset: nat, back: string)

  function Name(n: Numbering, k: nat): string {
    if k == 0 then n.first else n.front + Decimal(k + n.offset) + n.back
  }

  /** No two numbers give the same name. */
  ghost predicate Injective(n: Numbering) {
    forall j: nat, k: nat :: Name(n, j) == Name(n, k) ==> j == k
  }

  ghost predicate AllTaken(n: Numbering, used: set<string>, k: nat) {
    forall j :: 0 <= j < k ==> Name(n, j) in used
  }

  lemma NumberedInjective(n: Numbering, j: nat, k: nat)
    requires j > 0 && k > 0 && Name(n, j) == Name(n, k)
    ensures j == k
  {
    var (dj, dk) := (Decimal(j + n.offset), Decimal(k + n.offset));
    assert |dj| == |dk|;
    assert dj == Name(n, j)[|n.front|..|n.front| + |dj|];
    assert dk == Name(n, k)[|n.front|..|n.front| + |dk|];
    DecimalInjective(j + n.offset, k + n.offset);
  }

  /** It is enough that the first name is shorter than the numbered ones. */
  lemma InjectiveWhenFirstIsShorter(n: Numbering)
    requires |n.first| <= |n.front| + |n.back|
    ensures Injective(n)
  {
    forall j: nat, k: nat | Name(n, j) == Name(n, k) ensures j == k {
      if j > 0 && k > 0 { NumberedInjective(n, j, k); }
    }
  }

  lemma TakenAtMost(n: Numbering, used: set<string>, k: nat)
    requires Injective(n) && AllTaken(n, used, k)
    ensures k <= |used|
  {
    var tried := seq(k, j requires 0 <= j < k => Name(n, j));
    assert forall i, j :: 0 <= i < j < k ==> tried[i] != tried[j];
    Pigeonhole(tried, used);
  }

  /** The first name of the numbering, from `k` on, that is not used. */
  ghost function FirstFree(n: Numbering, used: set<string>, k: nat): (name: string)
    requires Injective(n) && AllTaken(n, used, k)
    ensures name !in used
    ensures exists j: nat :: j <= |used| && name == Name(n, j)
    decreases |used| + 1 - k
  {
    TakenAtMost(n, used, k);
    if Name(n, k) in used then
      TakenAtMost(n, used, k + 1);
      FirstFree(n, used, k + 1)
    else Name(n, k)
  }

  /**
   The shape of every search loop in the repository: start with the first name,
   bump the suffix while the name is taken.
   */
  method Search(n: Numbering, used: set<string>) returns (name: string, ghost suffix: nat)
    requires Injective(n)
    ensures name == FirstFree(n, used, 0) && name !in used
    ensures suffix <= |used| && name == Name(n, suffix) && AllTaken(n, used, suffix)
  {
    var k := 0;
    name := n.first;
    while name in used
      invariant name == Name(n, k) && AllTaken(n, used, k)
      invariant FirstFree(n, used, 0) == FirstFree(n, used, k)
      decreases |used| + 1 - k
    {
      TakenAtMost(n, used, k + 1);
      k := k + 1;
      name := n.front + Decimal(k + n.offset) + n.back;
    }
    TakenAtMost(n, used, k);
    suffix := k;
  }
}
