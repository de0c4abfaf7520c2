/** Facts about sequences and sets: the same elements in different orders, and the sizes of subsets. */
module Collections {

  function Elements(xs: seq<string>): set<string> {
    set i | 0 <= i < |xs| :: xs[i]
  }

  lemma SubsetSize<T>(a: set<T>, b: set<T>)
    requires a <= b
    ensures |a| <= |b| && (|a| == |b| ==> a == b)
  {
    assert |b - a| == |b| - |a|;
  }

  /** Where the last element of one order stands in another order of the same elements. */
  lemma RemoveLast<T>(a: seq<T>, b: seq<T>) returns (k: nat)
    requires multiset(a) == multiset(b) && a != []
    ensures k < |b| && b[k] == a[|a| - 1]
    ensures b == b[..k] + ([b[k]] + b[k + 1..])
    ensures multiset(a[..|a| - 1]) == multiset(b[..k] + b[k + 1..])
  {
    var n := |a| - 1;
    assert a[n] in multiset(b);
    k :| 0 <= k < |b| && b[k] == a[n];
    SplitAt(b, k);
    Without(a, n);
    Without(b, k);
    assert a[..n] + a[n + 1..] == a[..n];
  }

  lemma SplitAt<T>(a: seq<T>, k: nat)
    requires k < |a|
    ensures a == a[..k] + ([a[k]] + a[k + 1..])
  {
  }

  lemma Without<T>(a: seq<T>, k: nat)
    requires k < |a|
    ensures multiset(a[..k] + a[k + 1..]) == multiset(a) - multiset{a[k]}
    ensures multiset(a) == multiset(a[..k] + a[k + 1..]) + multiset{a[k]}
  {
    SplitAt(a, k);
    assert multiset(a[..k] + ([a[k]] + a[k + 1..])) == multiset(a[..k]) + (multiset{a[k]} + multiset(a[k + 1..]));
  }

  lemma PutBack<T>(a: seq<T>, b: seq<T>, k: nat)
    requires a != [] && k < |b| && b[k] == a[|a| - 1]
    requires multiset(a[..|a| - 1]) == multiset(b[..k] + b[k + 1..])
    ensures multiset(a) == multiset(b)
  {
    Without(a, |a| - 1);
    Without(b, k);
    assert a[..|a| - 1] + a[|a|..] == a[..|a| - 1];
  }
}
