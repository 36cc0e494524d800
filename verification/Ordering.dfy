/** Distinct and strictly ascending sequences: the sorted tuples of cron and the
    sorted keys of the bulk moves and of the locking reads. */
module Ordering {

  function Elements<T>(xs: seq<T>): set<T> { set x | x in xs }

  predicate Distinct<T(==)>(xs: seq<T>) {
    forall i, j | 0 <= i < j < |xs| :: xs[i] != xs[j]
  }

  predicate Ascending(xs: seq<int>) {
    forall i, j | 0 <= i < j < |xs| :: xs[i] < xs[j]
  }

  lemma {:induction false} DistinctCount<T>(xs: seq<T>)
    requires Distinct(xs)
    ensures |Elements(xs)| == |xs|
    decreases |xs|
  {
    if xs != [] {
      DistinctCount(xs[1..]);
      assert xs[0] !in Elements(xs[1..]);
      assert Elements(xs) == {xs[0]} + Elements(xs[1..]);
    }
  }

  lemma Prepended(x: int, xs: seq<int>)
    requires Ascending(xs) && forall y <- xs :: x < y
    ensures Ascending([x] + xs)
  {
    forall i, j | 0 <= i < j < |xs| + 1 ensures ([x] + xs)[i] < ([x] + xs)[j] {
      assert xs[j - 1] in xs;
      if 0 < i { assert xs[i - 1] < xs[j - 1]; }
    }
  }

  function Insert(x: int, xs: seq<int>): (r: seq<int>)
    requires Ascending(xs) && x !in xs
    ensures Ascending(r) && Elements(r) == Elements(xs) + {x} && |r| == |xs| + 1
  {
    if xs == [] then [x]
    else if x < xs[0] then
      Prepended(x, xs);
      [x] + xs
    else
      var rest := Insert(x, xs[1..]);
      assert xs == [xs[0]] + xs[1..];
      assert forall y <- rest :: y in Elements(rest);
      Prepended(xs[0], rest);
      [xs[0]] + rest
  }

  /** sorted(xs) */
  function Sort(xs: seq<int>): (r: seq<int>)
    requires Distinct(xs)
    ensures Ascending(r) && Elements(r) == Elements(xs) && |r| == |xs|
    decreases |xs|
  {
    if xs == [] then []
    else
      var rest := Sort(xs[1..]);
      assert xs[0] !in Elements(rest);
      assert xs == [xs[0]] + xs[1..];
      Insert(xs[0], rest)
  }

  lemma Appended<T>(xs: seq<T>, x: T)
    ensures Elements(xs + [x]) == Elements(xs) + {x}
  { }

  /** The keys of a dictionary given as its entries, in their order. */
  function Firsts<K, V>(entries: seq<(K, V)>): (keys: seq<K>)
    ensures |keys| == |entries| && forall i | 0 <= i < |keys| :: keys[i] == entries[i].0
  {
    seq(|entries|, i requires 0 <= i < |entries| => entries[i].0)
  }

  /** list(dict.fromkeys(xs)): each element once, in the order first seen. */
  function FirstSeen<T(==)>(xs: seq<T>): (r: seq<T>)
    ensures Distinct(r) && Elements(r) == Elements(xs) && |r| <= |xs|
    decreases |xs|
  {
    if xs == [] then []
    else
      var n := |xs| - 1;
      var before := FirstSeen(xs[..n]);
      assert xs == xs[..n] + [xs[n]];
      Appended(xs[..n], xs[n]);
      Appended(before, xs[n]);
      assert xs[n] in before <==> xs[n] in Elements(before);
      if xs[n] in before then before else before + [xs[n]]
  }

  /** Where x comes first in xs. */
  function FirstAt<T(==)>(xs: seq<T>, x: T): (i: nat)
    requires x in xs
    ensures i < |xs| && xs[i] == x && x !in xs[..i]
  {
    if xs[0] == x then 0
    else
      var i := 1 + FirstAt(xs[1..], x);
      assert xs[..i] == [xs[0]] + xs[1..][..i - 1];
      i
  }

  lemma FirstAtOnce<T>(xs: seq<T>, x: T, i: nat)
    requires i < |xs| && xs[i] == x && x !in xs[..i]
    ensures FirstAt(xs, x) == i
  {
    var at := FirstAt(xs, x);
    assert forall k | 0 <= k < i :: xs[..i][k] == xs[k];
    assert forall k | 0 <= k < at :: xs[..at][k] == xs[k];
  }

  /** What comes first in a part of xs that it is in comes first there in xs. */
  lemma FirstAtOfMore<T>(xs: seq<T>, n: nat, x: T)
    requires n <= |xs| && x in xs[..n]
    ensures x in xs && FirstAt(xs, x) == FirstAt(xs[..n], x) < n
  {
    var i := FirstAt(xs[..n], x);
    assert xs[..n][..i] == xs[..i];
    FirstAtOnce(xs, x, i);
  }

  /** All of r is in xs, and what comes earlier in r comes first earlier in xs. */
  predicate InOrderSeen<T(==)>(r: seq<T>, xs: seq<T>) {
    && (forall i | 0 <= i < |r| :: r[i] in xs)
    && forall i, j | 0 <= i < j < |r| :: FirstAt(xs, r[i]) < FirstAt(xs, r[j])
  }

  lemma InOrderSeenOfMore<T>(r: seq<T>, xs: seq<T>, n: nat)
    requires n <= |xs| && InOrderSeen(r, xs[..n])
    ensures InOrderSeen(r, xs) && forall i | 0 <= i < |r| :: FirstAt(xs, r[i]) < n
  {
    forall i | 0 <= i < |r| ensures r[i] in xs && FirstAt(xs, r[i]) == FirstAt(xs[..n], r[i]) < n {
      FirstAtOfMore(xs, n, r[i]);
    }
  }

  lemma InOrderSeenAppended<T>(r: seq<T>, x: T, xs: seq<T>)
    requires InOrderSeen(r, xs) && x in xs && forall i | 0 <= i < |r| :: FirstAt(xs, r[i]) < FirstAt(xs, x)
    ensures InOrderSeen(r + [x], xs)
  {
    hide FirstAt;
  }

  /** Of any two, the one first seen earlier comes earlier. */
  lemma {:induction false} FirstSeenInOrder<T>(xs: seq<T>)
    ensures InOrderSeen(FirstSeen(xs), xs)
    decreases |xs|
  {
    if xs != [] {
      var n := |xs| - 1;
      var before := FirstSeen(xs[..n]);
      FirstSeenInOrder(xs[..n]);
      InOrderSeenOfMore(before, xs, n);
      if xs[n] !in before {
        assert xs[n] in xs && xs[n] !in Elements(before);
        assert forall k | 0 <= k < n :: xs[..n][k] in Elements(xs[..n]);
        FirstAtOnce(xs, xs[n], n);
      }
    }
  }

  lemma InOrderTwice<T>(r: seq<T>, ys: seq<T>, xs: seq<T>)
    requires InOrderSeen(r, ys) && InOrderSeen(ys, xs)
    ensures InOrderSeen(r, xs)
  {
    forall i | 0 <= i < |r| ensures r[i] in xs { assert ys[FirstAt(ys, r[i])] == r[i]; }
    forall i, j | 0 <= i < j < |r| ensures FirstAt(xs, r[i]) < FirstAt(xs, r[j]) {
      assert ys[FirstAt(ys, r[i])] == r[i] && ys[FirstAt(ys, r[j])] == r[j];
    }
  }

  /** Every value of xs is one of ys. */
  predicate Among(xs: seq<int>, ys: seq<int>) {
    forall i | 0 <= i < |xs| :: xs[i] in ys
  }

  lemma EmptyTogether(xs: seq<int>, ys: seq<int>)
    requires Among(ys, xs)
    ensures xs == [] ==> ys == []
  {
    if ys != [] { assert ys[0] in xs; }
  }

  lemma SameFirst(xs: seq<int>, ys: seq<int>)
    requires Ascending(xs) && Ascending(ys) && Among(xs, ys) && Among(ys, xs) && xs != [] && ys != []
    ensures xs[0] == ys[0]
  {
    assert xs[0] in ys && ys[0] in xs;
  }

  /** Two ascending sequences of the same values are the same. */
  lemma {:induction false} SameValues(xs: seq<int>, ys: seq<int>)
    requires Ascending(xs) && Ascending(ys) && Among(xs, ys) && Among(ys, xs)
    ensures xs == ys
    decreases |xs|
  {
    EmptyTogether(xs, ys);
    EmptyTogether(ys, xs);
    if xs != [] {
      SameFirst(xs, ys);
      AmongTheRest(xs, ys);
      AmongTheRest(ys, xs);
      SameValues(xs[1..], ys[1..]);
    }
  }

  lemma AmongTheRest(xs: seq<int>, ys: seq<int>)
    requires Ascending(xs) && Among(xs, ys) && xs != [] && ys != [] && xs[0] == ys[0]
    ensures Among(xs[1..], ys[1..])
  {
    forall i | 0 <= i < |xs| - 1 ensures xs[1..][i] in ys[1..] {
      assert xs[i + 1] in ys && xs[0] < xs[i + 1];
    }
  }
}
