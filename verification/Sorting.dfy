/**
  `slice::sort_by` on a string key: a stable insertion that stands for the library's sort, the order of
  strings, and what any sorted order is. A sort permutes into order, and where the keys are different the
  result does not depend on the order it started from.
*/
module Sorting {

  /** `str`'s order: lexicographic. */
  predicate StrLe(a: string, b: string) {
    a == "" || (b != "" && (a[0] < b[0] || (a[0] == b[0] && StrLe(a[1..], b[1..]))))
  }

  lemma {:induction false} StrLeTotal(a: string, b: string)
    ensures StrLe(a, b) || StrLe(b, a)
    ensures StrLe(a, b) && StrLe(b, a) ==> a == b
    ensures StrLe(a, a)
  {
    if a != "" && b != "" && a[0] == b[0] {
      StrLeTotal(a[1..], b[1..]);
      assert a == [a[0]] + a[1..] && b == [b[0]] + b[1..];
    }
    StrLeRefl(a);
  }

  lemma {:induction false} StrLeRefl(a: string)
    ensures StrLe(a, a)
  {
    if a != "" { StrLeRefl(a[1..]); }
  }

  lemma {:induction false} StrLeTrans(a: string, b: string, c: string)
    requires StrLe(a, b) && StrLe(b, c)
    ensures StrLe(a, c)
  {
    if a != "" && a[0] == b[0] && b[0] == c[0] {
      StrLeTrans(a[1..], b[1..], c[1..]);
    }
  }

  predicate Sorted<T>(xs: seq<T>, key: T -> string) {
    forall i, j :: 0 <= i < j < |xs| ==> StrLe(key(xs[i]), key(xs[j]))
  }

  predicate DistinctBy<T>(xs: seq<T>, key: T -> string) {
    forall i, j :: 0 <= i < j < |xs| ==> key(xs[i]) != key(xs[j])
  }

  /** `xs` with `x` after the last element whose key does not exceed its own. */
  function Insert<T>(xs: seq<T>, x: T, key: T -> string): seq<T> {
    if xs == [] then [x]
    else if StrLe(key(xs[|xs| - 1]), key(x)) then xs + [x]
    else Insert(xs[..|xs| - 1], x, key) + [xs[|xs| - 1]]
  }

  function Sort<T>(xs: seq<T>, key: T -> string): seq<T> {
    if xs == [] then [] else Insert(Sort(xs[..|xs| - 1], key), xs[|xs| - 1], key)
  }

  lemma {:induction false} InsertSorts<T>(xs: seq<T>, x: T, key: T -> string)
    requires Sorted(xs, key)
    ensures Sorted(Insert(xs, x, key), key)
    ensures multiset(Insert(xs, x, key)) == multiset(xs) + multiset{x}
  {
    if xs != [] {
      var init, last := xs[..|xs| - 1], xs[|xs| - 1];
      assert xs == init + [last];
      if StrLe(key(last), key(x)) {
        SortedBelow(xs, key);
        AppendSorted(xs, x, key);
      } else {
        StrLeTotal(key(last), key(x));
        InsertSorts(init, x, key);
        SortedBelow(xs, key);
        InsertBelow(init, x, last, key);
        AppendSorted(Insert(init, x, key), last, key);
      }
    }
  }

  /** No key exceeds the last one. */
  lemma SortedBelow<T>(xs: seq<T>, key: T -> string)
    requires xs != [] && Sorted(xs, key)
    ensures Below(xs, xs[|xs| - 1], key)
  {
    StrLeRefl(key(xs[|xs| - 1]));
  }

  predicate Below<T>(xs: seq<T>, x: T, key: T -> string) {
    forall i :: 0 <= i < |xs| ==> StrLe(key(xs[i]), key(x))
  }

  lemma AppendSorted<T>(xs: seq<T>, x: T, key: T -> string)
    requires Sorted(xs, key) && (xs != [] ==> StrLe(key(xs[|xs| - 1]), key(x)))
    ensures Sorted(xs + [x], key)
  {
    forall i | 0 <= i < |xs| ensures StrLe(key(xs[i]), key(x)) {
      if i < |xs| - 1 { StrLeTrans(key(xs[i]), key(xs[|xs| - 1]), key(x)); }
    }
  }

  lemma {:induction false} InsertBelow<T>(xs: seq<T>, x: T, y: T, key: T -> string)
    requires StrLe(key(x), key(y)) && (forall i :: 0 <= i < |xs| ==> StrLe(key(xs[i]), key(y)))
    ensures Insert(xs, x, key) != [] && StrLe(key(Insert(xs, x, key)[|Insert(xs, x, key)| - 1]), key(y))
  {
  }

  /** Sorting permutes into order. */
  lemma {:induction false} SortSorts<T>(xs: seq<T>, key: T -> string)
    ensures Sorted(Sort(xs, key), key) && multiset(Sort(xs, key)) == multiset(xs)
    ensures |Sort(xs, key)| == |xs|
  {
    if xs != [] {
      var init := xs[..|xs| - 1];
      SortSorts(init, key);
      InsertSorts(Sort(init, key), xs[|xs| - 1], key);
      assert xs == init + [xs[|xs| - 1]];
    }
    assert |multiset(Sort(xs, key))| == |multiset(xs)|;
  }

  lemma {:induction false} SortMembers<T>(xs: seq<T>, key: T -> string, x: T)
    ensures x in Sort(xs, key) <==> x in xs
  {
    SortSorts(xs, key);
    assert x in multiset(Sort(xs, key)) <==> x in multiset(xs);
  }

  lemma LastIsGreatest<T>(xs: seq<T>, key: T -> string, y: T)
    requires xs != [] && Sorted(xs, key) && y in multiset(xs)
    ensures StrLe(key(y), key(xs[|xs| - 1]))
  {
    var j :| 0 <= j < |xs| && xs[j] == y;
    StrLeTotal(key(y), key(y));
  }

  lemma WithoutLast<T>(xs: seq<T>)
    requires xs != []
    ensures multiset(xs[..|xs| - 1]) == multiset(xs) - multiset{xs[|xs| - 1]}
  {
    assert xs == xs[..|xs| - 1] + [xs[|xs| - 1]];
  }

  lemma SameLast<T>(xs: seq<T>, ys: seq<T>, key: T -> string)
    requires Sorted(xs, key) && Sorted(ys, key) && multiset(xs) == multiset(ys) && DistinctBy(xs, key) && xs != []
    ensures ys != [] && xs[|xs| - 1] == ys[|ys| - 1]
  {
    var x := xs[|xs| - 1];
    assert x in multiset(ys);
    var y := ys[|ys| - 1];
    assert y in multiset(ys);
    assert y in multiset(xs);
    LastIsGreatest(xs, key, y);
    LastIsGreatest(ys, key, x);
    StrLeTotal(key(x), key(y));
    var j :| 0 <= j < |xs| && xs[j] == y;
  }

  lemma InitKeeps<T>(xs: seq<T>, key: T -> string)
    requires xs != []
    ensures Sorted(xs, key) ==> Sorted(xs[..|xs| - 1], key)
    ensures DistinctBy(xs, key) ==> DistinctBy(xs[..|xs| - 1], key)
  {
  }

  lemma SameEnds<T>(xs: seq<T>, ys: seq<T>)
    requires xs != [] && ys != [] && xs[..|xs| - 1] == ys[..|ys| - 1] && xs[|xs| - 1] == ys[|ys| - 1]
    ensures xs == ys
  {
    assert xs == xs[..|xs| - 1] + [xs[|xs| - 1]] && ys == ys[..|ys| - 1] + [ys[|ys| - 1]];
  }

  /** Two orders of the same elements, both sorted by a key that is different for each, are the same. */
  lemma {:induction false} SortedUnique<T>(xs: seq<T>, ys: seq<T>, key: T -> string)
    requires Sorted(xs, key) && Sorted(ys, key) && multiset(xs) == multiset(ys) && DistinctBy(xs, key)
    ensures xs == ys
  {
    if xs == [] {
      assert |multiset(ys)| == |multiset(xs)| == 0;
    } else {
      SameLast(xs, ys, key);
      WithoutLast(xs);
      WithoutLast(ys);
      InitKeeps(xs, key);
      InitKeeps(ys, key);
      SortedUnique(xs[..|xs| - 1], ys[..|ys| - 1], key);
      SameEnds(xs, ys);
    }
  }

  /** A sorted sequence is left as it is. */
  lemma {:induction false} SortOfSorted<T>(xs: seq<T>, key: T -> string)
    requires Sorted(xs, key)
    ensures Sort(xs, key) == xs
  {
    if xs != [] {
      SortOfSorted(xs[..|xs| - 1], key);
      if |xs| > 1 { assert StrLe(key(xs[|xs| - 2]), key(xs[|xs| - 1])); }
      assert xs == xs[..|xs| - 1] + [xs[|xs| - 1]];
    }
  }

  lemma TwiceIn<T>(b: seq<T>, i: nat, j: nat)
    requires i < j < |b| && b[i] == b[j]
    ensures multiset(b)[b[i]] >= 2
  {
    assert b == b[..i] + [b[i]] + b[i + 1..j] + [b[j]] + b[j + 1..];
  }

  lemma DistinctOnce<T>(a: seq<T>, key: T -> string, e: T)
    requires DistinctBy(a, key)
    ensures multiset(a)[e] <= 1
  {
    if e in a {
      var k :| 0 <= k < |a| && a[k] == e;
      assert a == a[..k] + [e] + a[k + 1..];
      assert forall x :: 0 <= x < k ==> key(a[x]) != key(a[k]);
      assert forall x :: k < x < |a| ==> key(a[k]) != key(a[x]);
      assert e !in a[..k] && e !in a[k + 1..];
    }
  }

  /** Having different keys does not depend on the order. */
  lemma DistinctByMembers<T>(a: seq<T>, b: seq<T>, key: T -> string)
    requires DistinctBy(a, key) && multiset(a) == multiset(b)
    ensures DistinctBy(b, key)
  {
    forall i, j | 0 <= i < j < |b| ensures key(b[i]) != key(b[j]) {
      DistinctPair(a, b, key, i, j);
    }
  }

  lemma DistinctPair<T>(a: seq<T>, b: seq<T>, key: T -> string, i: nat, j: nat)
    requires DistinctBy(a, key) && multiset(a) == multiset(b) && i < j < |b|
    ensures key(b[i]) != key(b[j])
  {
    DistinctOnce(a, key, b[i]);
    assert b[i] != b[j] by {
      if b[i] == b[j] { TwiceIn(b, i, j); }
    }
    assert b[i] in multiset(a) && b[j] in multiset(a);
    var x :| 0 <= x < |a| && a[x] == b[i];
    var y :| 0 <= y < |a| && a[y] == b[j];
  }
}
