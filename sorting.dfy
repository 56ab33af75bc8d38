/** Order-keeping filtering (`Iterator::filter`) and sorting by a string key
    (`slice::sort_by` / `sort_unstable_by` comparing a `String` field). */
module Sorting {
  import opened Strings

  /** `sub` is `s` with some elements dropped and the rest kept in order. */
  predicate Subsequence<T(==)>(sub: seq<T>, s: seq<T>)
    decreases |s|
  {
    if |sub| == 0 then true
    else if |s| == 0 then false
    else if sub[0] == s[0] then Subsequence(sub[1..], s[1..])
    else Subsequence(sub, s[1..])
  }

  /** `s.iter().filter(p)`: exactly the elements satisfying `p`, each as often
      as in `s`, in their original order. */
  function Filter<T(==,!new)>(s: seq<T>, p: T -> bool): (r: seq<T>)
    ensures Subsequence(r, s)
    ensures forall x :: multiset(r)[x] == if p(x) then multiset(s)[x] else 0
    ensures forall x :: x in r <==> x in s && p(x)
    decreases |s|
  {
    if |s| == 0 then []
    else
      var rest := Filter(s[1..], p);
      assert s == [s[0]] + s[1..];
      if p(s[0]) then [s[0]] + rest else rest
  }

  ghost predicate SortedBy<T>(s: seq<T>, key: T -> string) {
    forall i, j :: 0 <= i < j < |s| ==> LessEq(key(s[i]), key(s[j]))
  }

  /** Inserts `x` before the first element whose key is not smaller than
      `x`'s. `SortBy` inserts each element ahead of the later equal ones, so
      equal keys keep their arrival order. */
  function Insert<T>(x: T, s: seq<T>, key: T -> string): (r: seq<T>)
    requires SortedBy(s, key)
    ensures SortedBy(r, key)
    ensures multiset(r) == multiset(s) + multiset{x}
    ensures |r| == |s| + 1
    decreases |s|
  {
    if |s| == 0 then [x]
    else if LessEq(key(x), key(s[0])) then
      InsertHeadSorted(x, s, key);
      [x] + s
    else
      var rest := Insert(x, s[1..], key);
      LessEqTotal(key(x), key(s[0]));
      HeadBelowInsert(x, s, key, rest);
      assert s == [s[0]] + s[1..];
      [s[0]] + rest
  }

  lemma InsertHeadSorted<T>(x: T, s: seq<T>, key: T -> string)
    requires SortedBy(s, key) && |s| > 0 && LessEq(key(x), key(s[0]))
    ensures SortedBy([x] + s, key)
  {
    var r := [x] + s;
    forall i, j | 0 <= i < j < |r| ensures LessEq(key(r[i]), key(r[j])) {
      if i == 0 && j > 1 { LessEqTrans(key(x), key(s[0]), key(s[j - 1])); }
    }
  }

  lemma HeadBelowInsert<T>(x: T, s: seq<T>, key: T -> string, rest: seq<T>)
    requires SortedBy(s, key) && |s| > 0 && LessEq(key(s[0]), key(x))
    requires SortedBy(rest, key)
    requires multiset(rest) == multiset(s[1..]) + multiset{x}
    ensures SortedBy([s[0]] + rest, key)
  {
    var r := [s[0]] + rest;
    forall i, j | 0 <= i < j < |r| ensures LessEq(key(r[i]), key(r[j])) {
      if i == 0 {
        var y := rest[j - 1];
        assert y in multiset(rest);
        if y == x {
        } else {
          assert y in multiset(s[1..]);
          var k :| 0 <= k < |s[1..]| && s[1..][k] == y;
          assert s[k + 1] == y;
        }
      }
    }
  }

  /** A stable sort of `s` by `key`: the result is ordered by key and is a
      permutation of `s`. */
  function SortBy<T>(s: seq<T>, key: T -> string): (r: seq<T>)
    ensures SortedBy(r, key)
    ensures multiset(r) == multiset(s)
    ensures |r| == |s|
    decreases |s|
  {
    if |s| == 0 then []
    else
      assert s == [s[0]] + s[1..];
      Insert(s[0], SortBy(s[1..], key), key)
  }

  ghost predicate KeyInjective<T>(s: seq<T>, key: T -> string) {
    forall i, j :: 0 <= i < |s| && 0 <= j < |s| && key(s[i]) == key(s[j]) ==> s[i] == s[j]
  }

  lemma SortedHeadsAgree<T>(a: seq<T>, b: seq<T>, key: T -> string)
    requires SortedBy(a, key) && SortedBy(b, key)
    requires multiset(a) == multiset(b) && |a| > 0
    requires KeyInjective(a, key)
    ensures |b| > 0 && a[0] == b[0]
  {
    assert a[0] in multiset(b);
    var k :| 0 <= k < |b| && b[k] == a[0];
    assert b[0] in multiset(a);
    var j :| 0 <= j < |a| && a[j] == b[0];
    if j == 0 { LessEqRefl(key(a[0])); }
    if k == 0 { LessEqRefl(key(b[0])); }
    LessEqAntisym(key(a[0]), key(b[0]));
  }

  lemma TailsAgree<T>(a: seq<T>, b: seq<T>, key: T -> string)
    requires |a| > 0 && |b| > 0 && a[0] == b[0]
    requires multiset(a) == multiset(b)
    requires KeyInjective(a, key)
    ensures multiset(a[1..]) == multiset(b[1..])
    ensures KeyInjective(a[1..], key)
  {
    assert a == [a[0]] + a[1..] && b == [b[0]] + b[1..];
    assert multiset(a[1..]) == multiset(a) - multiset{a[0]};
    assert multiset(b[1..]) == multiset(b) - multiset{b[0]};
    forall i, j | 0 <= i < |a[1..]| && 0 <= j < |a[1..]| && key(a[1..][i]) == key(a[1..][j])
      ensures a[1..][i] == a[1..][j]
    {
      assert a[1..][i] == a[i + 1] && a[1..][j] == a[j + 1];
    }
  }

  /** Two orderings of the same elements whose keys tell them apart sort to the
      same sequence: when keys are distinct, the sorted result does not depend
      on the order the elements arrived in. */
  lemma {:induction false} SortedPermutationUnique<T>(a: seq<T>, b: seq<T>, key: T -> string)
    requires SortedBy(a, key) && SortedBy(b, key)
    requires multiset(a) == multiset(b)
    requires KeyInjective(a, key)
    ensures a == b
    decreases |a|
  {
    assert |a| == |multiset(a)| == |b|;
    if |a| > 0 {
      SortedHeadsAgree(a, b, key);
      TailsAgree(a, b, key);
      SortedPermutationUnique(a[1..], b[1..], key);
      assert a == [a[0]] + a[1..] && b == [b[0]] + b[1..];
    }
  }

  /** Sorting two arrival orders of the same distinct-keyed elements gives
      one and the same sequence. */
  lemma SortByOrderIndependent<T>(a: seq<T>, b: seq<T>, key: T -> string)
    requires multiset(a) == multiset(b)
    requires KeyInjective(a, key)
    ensures SortBy(a, key) == SortBy(b, key)
  {
    var sa, sb := SortBy(a, key), SortBy(b, key);
    forall i, j | 0 <= i < |sa| && 0 <= j < |sa| && key(sa[i]) == key(sa[j])
      ensures sa[i] == sa[j]
    {
      assert sa[i] in multiset(a) && sa[j] in multiset(a);
      var p :| 0 <= p < |a| && a[p] == sa[i];
      var q :| 0 <= q < |a| && a[q] == sa[j];
    }
    SortedPermutationUnique(sa, sb, key);
  }
}
