/** Stable sorting by an integer key, as the library sorts of the Rust and
    JavaScript sources do it. */
module Sorting {
  ghost predicate SortedBy<T(!new)>(s: seq<T>, key: T -> int) {
    forall i, j :: 0 <= i < j < |s| ==> key(s[i]) <= key(s[j])
  }

  ghost predicate StrictlySortedBy<T(!new)>(s: seq<T>, key: T -> int) {
    forall i, j :: 0 <= i < j < |s| ==> key(s[i]) < key(s[j])
  }

  ghost predicate DistinctKeys<T(!new)>(s: seq<T>, key: T -> int) {
    forall i, j :: 0 <= i < j < |s| ==> key(s[i]) != key(s[j])
  }

  /** Puts `x` in front of the elements of a sorted `s` whose key is not
      smaller: elements of equal keys keep their order. */
  function Insert<T>(x: T, s: seq<T>, key: T -> int): (r: seq<T>)
    ensures |r| == |s| + 1
  {
    if |s| == 0 || key(x) <= key(s[0]) then [x] + s
    else [s[0]] + Insert(x, s[1..], key)
  }

  function SortByKey<T>(s: seq<T>, key: T -> int): (r: seq<T>)
    ensures |r| == |s|
  {
    if |s| == 0 then [] else Insert(s[0], SortByKey(s[1..], key), key)
  }

  lemma {:induction false} InsertElements<T>(x: T, s: seq<T>, key: T -> int)
    ensures multiset(Insert(x, s, key)) == multiset{x} + multiset(s)
  {
    if !(|s| == 0 || key(x) <= key(s[0])) {
      InsertElements(x, s[1..], key);
      assert s == [s[0]] + s[1..];
    }
  }

  lemma {:induction false} InsertBound<T(!new)>(x: T, s: seq<T>, key: T -> int, low: int)
    requires key(x) >= low && forall y :: y in s ==> key(y) >= low
    ensures forall y :: y in Insert(x, s, key) ==> key(y) >= low
  {
    InsertElements(x, s, key);
    forall y | y in Insert(x, s, key) ensures key(y) >= low {
      assert y in multiset(Insert(x, s, key));
    }
  }

  lemma {:induction false} InsertSorts<T(!new)>(x: T, s: seq<T>, key: T -> int)
    requires SortedBy(s, key)
    ensures SortedBy(Insert(x, s, key), key)
  {
    if !(|s| == 0 || key(x) <= key(s[0])) {
      InsertSorts(x, s[1..], key);
      InsertBound(x, s[1..], key, key(s[0]));
    }
  }

  /** A permutation has the same elements. */
  lemma SameElements<T>(a: seq<T>, b: seq<T>)
    requires multiset(a) == multiset(b)
    ensures forall x :: x in a <==> x in b
  {
    forall x ensures x in a <==> x in b {
      assert x in a <==> x in multiset(a);
      assert x in b <==> x in multiset(b);
    }
  }

  /** Sorting permutes, and orders by the key. */
  lemma {:induction false} Sorts<T(!new)>(s: seq<T>, key: T -> int)
    ensures SortedBy(SortByKey(s, key), key)
    ensures multiset(SortByKey(s, key)) == multiset(s)
    ensures forall x :: x in SortByKey(s, key) <==> x in s
  {
    if |s| > 0 {
      Sorts(s[1..], key);
      InsertElements(s[0], SortByKey(s[1..], key), key);
      InsertSorts(s[0], SortByKey(s[1..], key), key);
      assert s == [s[0]] + s[1..];
    }
    SameElements(SortByKey(s, key), s);
  }

  lemma {:induction false} InsertStrict<T(!new)>(x: T, s: seq<T>, key: T -> int)
    requires StrictlySortedBy(s, key) && forall y :: y in s ==> key(y) != key(x)
    ensures StrictlySortedBy(Insert(x, s, key), key)
  {
    if !(|s| == 0 || key(x) <= key(s[0])) {
      InsertStrict(x, s[1..], key);
      InsertBound(x, s[1..], key, key(s[0]) + 1);
    }
  }

  /** Distinct keys come out in strict order. */
  lemma {:induction false} SortsStrictly<T(!new)>(s: seq<T>, key: T -> int)
    requires DistinctKeys(s, key)
    ensures StrictlySortedBy(SortByKey(s, key), key)
  {
    if |s| > 0 {
      SortsStrictly(s[1..], key);
      Sorts(s[1..], key);
      InsertStrict(s[0], SortByKey(s[1..], key), key);
    }
  }

  /** Elements of equal keys are in the order of `rank`. */
  ghost predicate RankedBy<T(!new)>(s: seq<T>, key: T -> int, rank: T -> int) {
    forall i, j :: 0 <= i < j < |s| && key(s[i]) == key(s[j]) ==> rank(s[i]) < rank(s[j])
  }

  lemma {:induction false} InsertStable<T(!new)>(x: T, s: seq<T>, key: T -> int, rank: T -> int)
    requires SortedBy(s, key) && RankedBy(s, key, rank) && forall y :: y in s ==> rank(x) < rank(y)
    ensures RankedBy(Insert(x, s, key), key, rank)
  {
    if !(|s| == 0 || key(x) <= key(s[0])) {
      InsertStable(x, s[1..], key, rank);
      var rest := Insert(x, s[1..], key);
      forall i | 0 <= i < |rest| && key(rest[i]) == key(s[0]) ensures rank(s[0]) < rank(rest[i]) {
        InsertElements(x, s[1..], key);
        assert rest[i] in multiset(rest);
        assert rest[i] == x || rest[i] in s[1..];
      }
    }
  }

  /** Elements of equal keys keep their order. */
  lemma {:induction false} SortIsStable<T(!new)>(s: seq<T>, key: T -> int, rank: T -> int)
    requires StrictlySortedBy(s, rank)
    ensures RankedBy(SortByKey(s, key), key, rank)
  {
    if |s| > 0 {
      SortIsStable(s[1..], key, rank);
      Sorts(s[1..], key);
      InsertStable(s[0], SortByKey(s[1..], key), key, rank);
    }
  }
}
