/** The order of names, and sorting by name independently of the algorithm used. */
module Names {
  // Byte-wise lexicographic order, strict.
  predicate Below(a: string, b: string) {
    b != [] && (a == [] || a[0] < b[0] || (a[0] == b[0] && Below(a[1..], b[1..])))
  }

  // One name is a proper prefix of the other, or the first character that differs is smaller.
  lemma {:induction false} BelowExactly(a: string, b: string)
    ensures Below(a, b) <==> || (|a| < |b| && b[..|a|] == a)
                             || exists k :: 0 <= k < |a| && k < |b| && FirstDifference(a, b, k) && a[k] < b[k]
  {
    if a != [] && b != [] {
      var x, y := a[1..], b[1..];
      BelowExactly(x, y);
      assert a == [a[0]] + x && b == [b[0]] + y;
      if a[0] != b[0] {
        assert FirstDifference(a, b, 0);
        assert forall k :: 0 < k < |a| && k < |b| ==> !FirstDifference(a, b, k);
      } else {
        TailsDiffer(a, b);
        assert |a| < |b| ==> b[..|a|] == [b[0]] + y[..|x|];
      }
    }
  }

  ghost predicate FirstDifference(a: string, b: string, k: nat)
    requires k < |a| && k < |b|
  {
    a[k] != b[k] && forall i :: 0 <= i < k ==> a[i] == b[i]
  }

  lemma TailsDiffer(a: string, b: string)
    requires a != [] && b != [] && a[0] == b[0]
    ensures (exists k :: 0 <= k < |a| && k < |b| && FirstDifference(a, b, k) && a[k] < b[k])
            <==> exists k :: 0 <= k < |a| - 1 && k < |b| - 1 && FirstDifference(a[1..], b[1..], k) && a[1..][k] < b[1..][k]
  {
    if k :| 0 <= k < |a| && k < |b| && FirstDifference(a, b, k) && a[k] < b[k] {
      assert FirstDifference(a[1..], b[1..], k - 1);
    }
    if k :| 0 <= k < |a| - 1 && k < |b| - 1 && FirstDifference(a[1..], b[1..], k) && a[1..][k] < b[1..][k] {
      assert a[1..][k] == a[k + 1] && b[1..][k] == b[k + 1];
      forall i | 0 <= i < k + 1 ensures a[i] == b[i] {
        if i > 0 {
          assert a[1..][i - 1] == b[1..][i - 1];
        }
      }
      assert FirstDifference(a, b, k + 1);
    }
  }

  lemma {:induction false} BelowIsTotal(a: string, b: string)
    ensures !(Below(a, b) && Below(b, a))
    ensures a == b <==> !Below(a, b) && !Below(b, a)
  {
    if a != [] && b != [] && a[0] == b[0] {
      BelowIsTotal(a[1..], b[1..]);
      assert a == [a[0]] + a[1..] && b == [b[0]] + b[1..];
    }
  }

  lemma {:induction false} BelowIsTransitive(a: string, b: string, c: string)
    requires Below(a, b) && Below(b, c)
    ensures Below(a, c)
  {
    if a != [] && a[0] == b[0] == c[0] {
      BelowIsTransitive(a[1..], b[1..], c[1..]);
    }
  }

  ghost predicate Ordered<T>(xs: seq<T>, key: T -> string) {
    forall i, j :: 0 <= i < j < |xs| ==> !Below(key(xs[j]), key(xs[i]))
  }

  ghost predicate DistinctKeys<T>(xs: seq<T>, key: T -> string) {
    forall i, j :: 0 <= i < j < |xs| ==> key(xs[i]) != key(xs[j])
  }

  function Insert<T>(x: T, xs: seq<T>, key: T -> string): seq<T> {
    if xs == [] then [x]
    else if Below(key(xs[0]), key(x)) then [xs[0]] + Insert(x, xs[1..], key)
    else [x] + xs
  }

  function SortBy<T>(xs: seq<T>, key: T -> string): seq<T> {
    if xs == [] then [] else Insert(xs[0], SortBy(xs[1..], key), key)
  }

  lemma OrderedCons<T>(x: T, xs: seq<T>, key: T -> string)
    requires Ordered(xs, key) && forall y <- xs :: !Below(key(y), key(x))
    ensures Ordered([x] + xs, key)
  {
    var r := [x] + xs;
    forall i, j | 0 <= i < j < |r| ensures !Below(key(r[j]), key(r[i])) {
      assert r[j] == xs[j - 1];
    }
  }

  lemma {:induction false} InsertFits<T>(x: T, xs: seq<T>, key: T -> string)
    requires Ordered(xs, key)
    ensures multiset(Insert(x, xs, key)) == multiset(xs) + multiset{x}
    ensures Ordered(Insert(x, xs, key), key)
    ensures forall y <- Insert(x, xs, key) :: y == x || y in xs
  {
    if xs != [] {
      assert xs == [xs[0]] + xs[1..];
      if Below(key(xs[0]), key(x)) {
        InsertFits(x, xs[1..], key);
        var r := Insert(x, xs[1..], key);
        BelowIsTotal(key(x), key(xs[0]));
        OrderedCons(xs[0], r, key);
      } else {
        NoneBelow(x, xs, key);
        OrderedCons(x, xs, key);
      }
    }
  }

  lemma NoneBelow<T>(x: T, xs: seq<T>, key: T -> string)
    requires Ordered(xs, key) && xs != [] && !Below(key(xs[0]), key(x))
    ensures forall y <- xs :: !Below(key(y), key(x))
  {
    forall j | 0 <= j < |xs| ensures !Below(key(xs[j]), key(x)) {
      if Below(key(xs[j]), key(x)) {
        NotBelowFirst(xs, key, j, key(x));
      }
    }
  }

  lemma NotBelowFirst<T>(xs: seq<T>, key: T -> string, j: nat, k: string)
    requires Ordered(xs, key) && j < |xs| && Below(key(xs[j]), k)
    ensures Below(key(xs[0]), k)
  {
    if j > 0 {
      BelowIsTotal(key(xs[0]), key(xs[j]));
      if key(xs[0]) != key(xs[j]) {
        BelowIsTransitive(key(xs[0]), key(xs[j]), k);
      }
    }
  }

  lemma {:induction false} SortByFits<T>(xs: seq<T>, key: T -> string)
    ensures multiset(SortBy(xs, key)) == multiset(xs)
    ensures Ordered(SortBy(xs, key), key)
  {
    if xs != [] {
      assert xs == [xs[0]] + xs[1..];
      SortByFits(xs[1..], key);
      InsertFits(xs[0], SortBy(xs[1..], key), key);
    }
  }

  lemma HeadsAgree<T>(xs: seq<T>, ys: seq<T>, key: T -> string)
    requires multiset(xs) == multiset(ys) && Ordered(xs, key) && Ordered(ys, key)
    requires DistinctKeys(xs, key) && xs != [] && ys != []
    ensures xs[0] == ys[0]
  {
    assert xs[0] in multiset(ys) && ys[0] in multiset(xs);
    var j :| 0 <= j < |ys| && ys[j] == xs[0];
    var i :| 0 <= i < |xs| && xs[i] == ys[0];
    BelowIsTotal(key(xs[0]), key(ys[0]));
  }

  lemma TailMultiset<T>(xs: seq<T>)
    requires xs != []
    ensures multiset(xs[1..]) == multiset(xs) - multiset{xs[0]}
  {
    assert xs == [xs[0]] + xs[1..];
  }

  // With distinct names every sorting algorithm produces the same list.
  lemma {:induction false} SortedListIsUnique<T>(xs: seq<T>, ys: seq<T>, key: T -> string)
    requires multiset(xs) == multiset(ys) && Ordered(xs, key) && Ordered(ys, key)
    requires DistinctKeys(xs, key)
    ensures xs == ys
  {
    if xs == [] {
      assert |multiset(ys)| == 0;
    } else {
      assert |multiset(ys)| > 0;
      HeadsAgree(xs, ys, key);
      TailMultiset(xs);
      TailMultiset(ys);
      SortedListIsUnique(xs[1..], ys[1..], key);
    }
  }

  lemma SortedKeepsDistinct<T>(xs: seq<T>, ys: seq<T>, key: T -> string)
    requires multiset(xs) == multiset(ys) && DistinctKeys(xs, key)
    ensures DistinctKeys(ys, key)
  {
    forall i, j | 0 <= i < j < |ys| ensures key(ys[i]) != key(ys[j]) {
      if ys[i] == ys[j] {
        assert ys == ys[..i] + [ys[i]] + ys[i + 1..j] + [ys[j]] + ys[j + 1..];
        assert multiset(ys)[ys[i]] >= 2;
        TwiceMeansTwo(xs, ys[i]);
      } else {
        assert ys[i] in multiset(xs) && ys[j] in multiset(xs);
      }
    }
  }

  lemma {:induction false} TwiceMeansTwo<T>(xs: seq<T>, x: T)
    requires multiset(xs)[x] >= 2
    ensures exists i, j :: 0 <= i < j < |xs| && xs[i] == x == xs[j]
  {
    assert x in xs;
    var i :| 0 <= i < |xs| && xs[i] == x;
    assert xs == xs[..i] + [x] + xs[i + 1..];
    if x in xs[..i] {
      var j :| 0 <= j < i && xs[j] == x;
    } else {
      assert x in multiset(xs[i + 1..]);
      var j :| 0 <= j < |xs| - i - 1 && xs[i + 1..][j] == x;
      assert xs[i + 1 + j] == x;
    }
  }
}
