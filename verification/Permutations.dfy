/** Permutations of sequences, taken apart one element at a time. */
module Permutations {

  lemma {:induction false} WithoutOne<T>(a: seq<T>, i: nat)
    requires i < |a|
    ensures multiset(a[..i] + a[i + 1..]) == multiset(a) - multiset{a[i]}
  {
    assert a == a[..i] + [a[i]] + a[i + 1..];
  }

  /** A permutation's first element is somewhere in the other, and the rest are permutations. */
  lemma {:induction false} PermutedRest<T>(a: seq<T>, b: seq<T>) returns (j: nat)
    requires multiset(a) == multiset(b) && a != []
    ensures j < |b| && b[j] == a[0] && multiset(a[1..]) == multiset(b[..j] + b[j + 1..])
  {
    assert a[0] in multiset(b);
    j :| 0 <= j < |b| && b[j] == a[0];
    WithoutOne(a, 0);
    assert a[..0] + a[1..] == a[1..];
    WithoutOne(b, j);
  }

  /** Two places of a sequence have two places in each of its permutations. */
  lemma {:induction false} PermutedPlaces<T>(a: seq<T>, b: seq<T>, i: nat, j: nat) returns (p: nat, q: nat)
    requires multiset(a) == multiset(b) && i < j < |a|
    ensures p < |b| && q < |b| && p != q && b[p] == a[i] && b[q] == a[j]
  {
    assert a[i] in multiset(b) && a[j] in multiset(b);
    p :| 0 <= p < |b| && b[p] == a[i];
    if a[i] != a[j] {
      q :| 0 <= q < |b| && b[q] == a[j];
    } else {
      q := SecondPlace(a, b, i, j, p);
    }
  }

  lemma {:induction false} SecondPlace<T>(a: seq<T>, b: seq<T>, i: nat, j: nat, p: nat) returns (q: nat)
    requires multiset(a) == multiset(b) && i < j < |a| && a[i] == a[j] && p < |b| && b[p] == a[i]
    ensures q < |b| && q != p && b[q] == a[j]
  {
    var rest, others := a[..i] + a[i + 1..], b[..p] + b[p + 1..];
    WithoutOne(a, i);
    WithoutOne(b, p);
    assert rest[j - 1] == a[j];
    assert a[j] in multiset(rest) && multiset(rest) == multiset(others);
    var k :| 0 <= k < |others| && others[k] == a[j];
    q := if k < p then k else k + 1;
  }
}
