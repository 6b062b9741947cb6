/** Ordering a list of records by a byte-string key, as `sort.Slice` is used before encoding. */
module Sorting {
  import opened ByteStrings

  ghost predicate StrictlySorted<T>(xs: seq<T>, key: T -> Bytes) {
    forall i, j | 0 <= i < j < |xs| :: Less(key(xs[i]), key(xs[j]))
  }

  ghost predicate DistinctKeys<T>(xs: seq<T>, key: T -> Bytes) {
    forall i, j | 0 <= i < j < |xs| :: key(xs[i]) != key(xs[j])
  }

  function Insert<T>(x: T, xs: seq<T>, key: T -> Bytes): (r: seq<T>)
    ensures |r| == |xs| + 1
    ensures multiset(r) == multiset(xs) + multiset{x}
  {
    if xs == [] || !Less(key(xs[0]), key(x)) then [x] + xs
    else
      assert multiset(xs) == multiset{xs[0]} + multiset(xs[1..]) by { assert xs == [xs[0]] + xs[1..]; }
      [xs[0]] + Insert(x, xs[1..], key)
  }

  function Sort<T>(xs: seq<T>, key: T -> Bytes): (r: seq<T>)
    ensures |r| == |xs|
    ensures multiset(r) == multiset(xs)
  {
    if xs == [] then []
    else
      assert xs == [xs[0]] + xs[1..];
      Insert(xs[0], Sort(xs[1..], key), key)
  }

  lemma SameElements<T>(xs: seq<T>, ys: seq<T>)
    requires multiset(xs) == multiset(ys)
    ensures |xs| == |ys|
    ensures forall x :: x in xs <==> x in ys
  {
    assert |xs| == |multiset(xs)|;
    assert |ys| == |multiset(ys)|;
    forall x ensures x in xs <==> x in ys {
      assert x in xs <==> x in multiset(xs);
      assert x in ys <==> x in multiset(ys);
    }
  }

  lemma {:induction false} InsertSorted<T>(x: T, xs: seq<T>, key: T -> Bytes)
    requires StrictlySorted(xs, key)
    requires forall y | y in xs :: key(y) != key(x)
    ensures StrictlySorted(Insert(x, xs, key), key)
  {
    if xs == [] {
    } else if !Less(key(xs[0]), key(x)) {
      LessTotal(key(xs[0]), key(x));
      assert Less(key(x), key(xs[0]));
      forall j | 0 < j < |xs| ensures Less(key(x), key(xs[j])) {
        LessTransitive(key(x), key(xs[0]), key(xs[j]));
      }
    } else {
      var rest := Insert(x, xs[1..], key);
      InsertSorted(x, xs[1..], key);
      forall j | 0 <= j < |rest| ensures Less(key(xs[0]), key(rest[j])) {
        assert rest[j] in multiset(rest);
        assert rest[j] == x || rest[j] in xs[1..];
      }
    }
  }

  lemma {:induction false} SortSorted<T>(xs: seq<T>, key: T -> Bytes)
    requires DistinctKeys(xs, key)
    ensures StrictlySorted(Sort(xs, key), key)
  {
    if xs != [] {
      var rest := xs[1..];
      var tail := Sort(rest, key);
      SortSorted(rest, key);
      forall y | y in tail ensures key(y) != key(xs[0]) {
        assert y in multiset(tail);
        assert y in rest;
      }
      InsertSorted(xs[0], tail, key);
    }
  }

  lemma SortedDistinct<T>(xs: seq<T>, key: T -> Bytes)
    requires StrictlySorted(xs, key)
    ensures DistinctKeys(xs, key)
  {
    forall i, j | 0 <= i < j < |xs| ensures key(xs[i]) != key(xs[j]) {
      LessAsymmetric(key(xs[i]), key(xs[j]));
    }
  }

  /** A strictly increasing arrangement of given elements is unique: whatever algorithm the
      library's sort uses, stable or not, it must produce this one. */
  lemma {:induction false} SortedUnique<T>(xs: seq<T>, ys: seq<T>, key: T -> Bytes)
    requires StrictlySorted(xs, key) && StrictlySorted(ys, key)
    requires multiset(xs) == multiset(ys)
    ensures xs == ys
  {
    SameElements(xs, ys);
    if xs != [] {
      if xs[0] != ys[0] {
        assert xs[0] in ys && ys[0] in xs;
        var i :| 0 <= i < |ys| && ys[i] == xs[0];
        var j :| 0 <= j < |xs| && xs[j] == ys[0];
        LessAsymmetric(key(ys[0]), key(ys[i]));
        assert false;
      }
      assert xs == [xs[0]] + xs[1..] && ys == [ys[0]] + ys[1..];
      assert multiset(xs[1..]) == multiset(xs) - multiset{xs[0]};
      assert multiset(ys[1..]) == multiset(ys) - multiset{ys[0]};
      SortedUnique(xs[1..], ys[1..], key);
    }
  }

  lemma SortOfSorted<T>(xs: seq<T>, key: T -> Bytes)
    requires StrictlySorted(xs, key)
    ensures Sort(xs, key) == xs
  {
    SortedDistinct(xs, key);
    SortSorted(xs, key);
    SortedUnique(Sort(xs, key), xs, key);
  }

  lemma RepeatedElement<T>(xs: seq<T>, i: nat, j: nat)
    requires i < j < |xs| && xs[i] == xs[j]
    ensures multiset(xs)[xs[i]] >= 2
  {
    assert xs == xs[..i] + [xs[i]] + xs[i + 1..j] + [xs[j]] + xs[j + 1..];
  }

  lemma {:induction false} TwoOccurrences<T>(xs: seq<T>, x: T)
    requires multiset(xs)[x] >= 2
    ensures exists i, j :: 0 <= i < j < |xs| && xs[i] == x && xs[j] == x
  {
    assert xs == [xs[0]] + xs[1..];
    assert multiset(xs) == multiset{xs[0]} + multiset(xs[1..]);
    if xs[0] == x {
      assert x in multiset(xs[1..]);
      var j :| 0 <= j < |xs[1..]| && xs[1..][j] == x;
      assert xs[j + 1] == x;
    } else {
      TwoOccurrences(xs[1..], x);
      var i, j :| 0 <= i < j < |xs[1..]| && xs[1..][i] == x && xs[1..][j] == x;
      assert xs[i + 1] == x && xs[j + 1] == x;
    }
  }

  lemma DistinctPermuted<T>(xs: seq<T>, ys: seq<T>, key: T -> Bytes)
    requires multiset(xs) == multiset(ys) && DistinctKeys(xs, key)
    ensures DistinctKeys(ys, key)
  {
    SameElements(xs, ys);
    forall i, j | 0 <= i < j < |ys| ensures key(ys[i]) != key(ys[j]) {
      if ys[i] == ys[j] {
        RepeatedElement(ys, i, j);
        TwoOccurrences(xs, ys[i]);
        assert false;
      } else {
        assert ys[i] in xs && ys[j] in xs;
      }
    }
  }

  lemma SortPermuted<T>(xs: seq<T>, ys: seq<T>, key: T -> Bytes)
    requires multiset(xs) == multiset(ys) && DistinctKeys(xs, key)
    ensures Sort(xs, key) == Sort(ys, key)
  {
    DistinctPermuted(xs, ys, key);
    SortSorted(xs, key);
    SortSorted(ys, key);
    SortedUnique(Sort(xs, key), Sort(ys, key), key);
  }

  /** The keys in use, as a validation loop collects them. */
  function KeySet<T>(xs: seq<T>, key: T -> Bytes): set<Bytes> {
    set i | 0 <= i < |xs| :: key(xs[i])
  }

  lemma DistinctSnoc<T>(xs: seq<T>, x: T, key: T -> Bytes)
    requires DistinctKeys(xs, key)
    ensures DistinctKeys(xs + [x], key) <==> key(x) !in KeySet(xs, key)
    ensures KeySet(xs + [x], key) == KeySet(xs, key) + {key(x)}
  {
    var more := xs + [x];
    assert more[|xs|] == x;
    assert forall i | 0 <= i < |xs| :: more[i] == xs[i];
    forall k | k in KeySet(xs, key) + {key(x)} ensures k in KeySet(more, key) {
      if k == key(x) {
        assert key(more[|xs|]) == k;
      } else {
        var i :| 0 <= i < |xs| && key(xs[i]) == k;
        assert key(more[i]) == k;
      }
    }
    if key(x) in KeySet(xs, key) {
      var j :| 0 <= j < |xs| && key(xs[j]) == key(x);
      assert key(more[j]) == key(more[|xs|]);
    } else {
      assert forall i | 0 <= i < |xs| :: key(xs[i]) in KeySet(xs, key);
    }
  }

  lemma WithoutHead<T>(xs: seq<T>)
    requires xs != []
    ensures multiset(xs[1..]) == multiset(xs) - multiset{xs[0]}
  {
    assert xs == [xs[0]] + xs[1..];
  }

  lemma WithoutElement<T>(ys: seq<T>, i: nat)
    requires i < |ys|
    ensures multiset(ys[..i] + ys[i + 1..]) == multiset(ys) - multiset{ys[i]}
  {
    assert ys == ys[..i] + [ys[i]] + ys[i + 1..];
  }

  /** The head of one arrangement can be taken out of another, leaving the same rest. */
  lemma TakeOut<T>(xs: seq<T>, ys: seq<T>) returns (i: nat)
    requires multiset(xs) == multiset(ys) && xs != []
    ensures i < |ys| && ys[i] == xs[0]
    ensures multiset(xs[1..]) == multiset(ys[..i] + ys[i + 1..])
  {
    SameElements(xs, ys);
    assert xs[0] in xs;
    i :| 0 <= i < |ys| && ys[i] == xs[0];
    WithoutHead(xs);
    WithoutElement(ys, i);
  }
}
