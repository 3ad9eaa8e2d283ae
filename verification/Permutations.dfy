/** Sequences with the same elements in another order. */
module Permutations {

  function Without<T>(s: seq<T>, k: nat): seq<T>
    requires k < |s|
  {
    s[..k] + s[k + 1..]
  }

  lemma WithoutOne<T>(s: seq<T>, k: nat)
    requires k < |s|
    ensures multiset(Without(s, k)) == multiset(s) - multiset{s[k]}
  {
    assert s == s[..k] + [s[k]] + s[k + 1..];
  }

  lemma WithoutMembers<T>(s: seq<T>, k: nat)
    requires k < |s|
    ensures forall i :: 0 <= i < |s| && i != k ==> s[i] in Without(s, k)
    ensures forall x :: x in Without(s, k) ==> exists i :: 0 <= i < |s| && i != k && s[i] == x
  {
    forall i | 0 <= i < |s| && i != k
      ensures s[i] in Without(s, k)
    {
      assert s[i] == Without(s, k)[if i < k then i else i - 1];
    }
    forall x | x in Without(s, k)
      ensures exists i :: 0 <= i < |s| && i != k && s[i] == x
    {
      var m :| 0 <= m < |Without(s, k)| && Without(s, k)[m] == x;
      assert s[if m < k then m else m + 1] == x;
    }
  }

  lemma OneFirst<T>(s: seq<T>, k: nat)
    requires k < |s|
    ensures multiset(s) == multiset{s[k]} + multiset(Without(s, k))
  {
    WithoutOne(s, k);
    assert s[k] in multiset(s);
    hide Without;
  }

  /** Two members that differ can be brought to the front. */
  lemma TwoFirst<T>(s: seq<T>, i: nat, x: T) returns (rest: seq<T>)
    requires i < |s| && x in s && x != s[i]
    ensures multiset([s[i], x] + rest) == multiset(s)
  {
    var others := Without(s, i);
    OneFirst(s, i);
    hide Without;
    assert x in multiset(s) && x in multiset(others);
    var k :| 0 <= k < |others| && others[k] == x;
    rest := Without(others, k);
    OneFirst(others, k);
    FrontTwo(s[i], x, rest);
  }

  lemma FrontTwo<T>(x: T, y: T, rest: seq<T>)
    ensures multiset([x, y] + rest) == multiset{x} + (multiset{y} + multiset(rest))
  {
    assert [x, y] + rest == [x] + ([y] + rest);
    MultisetCons(x, [y] + rest);
    MultisetCons(y, rest);
  }

  lemma MultisetCons<T>(x: T, s: seq<T>)
    ensures multiset([x] + s) == multiset{x} + multiset(s)
  {
  }

  lemma SameMembers<T>(a: seq<T>, b: seq<T>)
    requires multiset(a) == multiset(b)
    ensures forall x :: x in a <==> x in b
  {
    forall x
      ensures x in a <==> x in b
    {
      assert x in multiset(a) <==> x in multiset(b);
    }
  }

  /** Where one element of a sequence is found in a permutation, the others being elsewhere. */
  lemma PermutedPosition<T>(a: seq<T>, k: nat, b: seq<T>) returns (j: nat)
    requires k < |a| && multiset(a) == multiset(b)
    ensures j < |b| && b[j] == a[k]
    ensures forall i :: 0 <= i < |b| && i != j ==> exists m :: 0 <= m < |a| && m != k && a[m] == b[i]
  {
    SameMembers(a, b);
    assert a[k] in b;
    j :| 0 <= j < |b| && b[j] == a[k];
    WithoutOne(a, k);
    WithoutMembers(a, k);
    WithoutOne(b, j);
    WithoutMembers(b, j);
    SameMembers(Without(b, j), Without(a, k));
  }

  /** More members than there are values: two are equal. */
  lemma {:induction false} Pigeonhole<T>(s: seq<T>, values: set<T>) returns (i: nat, j: nat)
    requires |s| > |values| && forall k :: 0 <= k < |s| ==> s[k] in values
    ensures i < j < |s| && s[i] == s[j]
  {
    var n := |s| - 1;
    if k :| 0 <= k < n && s[k] == s[n] {
      i, j := k, n;
    } else {
      i, j := Pigeonhole(s[..n], values - {s[n]});
    }
  }
}
