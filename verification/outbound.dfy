/** The outbound reorder worker: a timed min-heap between app writes and the broker. */
module OutboundHeap {
  import opened Values

  // Timestamps in nanoseconds; seq breaks ties.
  datatype Pending = Pending(name: string, value: Value, ts: int, seqNo: nat, client: string)

  predicate Less(a: Pending, b: Pending) {
    if a.ts == b.ts then a.seqNo < b.seqNo else a.ts < b.ts
  }

  ghost predicate AtMost(a: Pending, b: Pending) {
    !Less(b, a)
  }

  function Parent(j: nat): nat
    requires j > 0
  {
    (j - 1) / 2
  }

  ghost predicate HeapOrdered(h: seq<Pending>) {
    forall j :: 0 < j < |h| ==> AtMost(h[Parent(j)], h[j])
  }

  // The root of a heap is its earliest item.
  lemma {:induction false} RootIsLeast(h: seq<Pending>, j: nat)
    requires HeapOrdered(h) && j < |h|
    ensures AtMost(h[0], h[j])
  {
    if j > 0 {
      RootIsLeast(h, Parent(j));
    }
  }

  function Swap(h: seq<Pending>, i: nat, j: nat): (r: seq<Pending>)
    requires i < |h| && j < |h|
    ensures |r| == |h| && multiset(r) == multiset(h)
  {
    h[i := h[j]][j := h[i]]
  }

  // In order except between k and its parent; k's children are in order with that parent.
  ghost predicate OrderedExceptAt(h: seq<Pending>, k: nat) {
    && (forall j :: 0 < j < |h| && j != k ==> AtMost(h[Parent(j)], h[j]))
    && (forall j :: 0 < j < |h| && 0 < k < |h| && Parent(j) == k ==> AtMost(h[Parent(k)], h[j]))
  }

  // In order except between k and its children, which are in order with k's parent.
  ghost predicate OrderedExceptUnder(h: seq<Pending>, k: nat) {
    && (forall j :: 0 < j < |h| && Parent(j) != k ==> AtMost(h[Parent(j)], h[j]))
    && (forall j :: 0 < j < |h| && k > 0 && Parent(j) == k ==> AtMost(h[Parent(k)], h[j]))
  }

  lemma SiftUpStep(h: seq<Pending>, k: nat)
    requires 0 < k < |h| && OrderedExceptAt(h, k) && Less(h[k], h[Parent(k)])
    ensures OrderedExceptAt(Swap(h, Parent(k), k), Parent(k))
  {
    var i, r := Parent(k), Swap(h, Parent(k), k);
    forall j | 0 < j < |r| && j != i ensures AtMost(r[Parent(j)], r[j]) {
      assert j != k ==> AtMost(h[Parent(j)], h[j]);
      if Parent(j) == k {
        assert AtMost(h[Parent(k)], h[j]);
      }
    }
    if i > 0 {
      forall j | 0 < j < |r| && Parent(j) == i ensures AtMost(r[Parent(i)], r[j]) {
        assert AtMost(h[Parent(i)], h[i]);
        assert j != k ==> AtMost(h[i], h[j]);
      }
    }
  }

  lemma SiftDownStep(h: seq<Pending>, k: nat, c: nat)
    requires OrderedExceptUnder(h, k) && 0 < c < |h| && Parent(c) == k && Less(h[c], h[k])
    requires forall j :: 0 < j < |h| && Parent(j) == k ==> AtMost(h[c], h[j])
    ensures OrderedExceptUnder(Swap(h, k, c), c)
  {
    var r := Swap(h, k, c);
    forall j | 0 < j < |r| && Parent(j) != c ensures AtMost(r[Parent(j)], r[j]) {
      if j == k {
        assert AtMost(h[Parent(k)], h[c]);
      } else if Parent(j) == k {
        assert AtMost(h[c], h[j]);
      } else {
        assert AtMost(h[Parent(j)], h[j]);
      }
    }
    forall j | 0 < j < |r| && Parent(j) == c ensures AtMost(r[Parent(c)], r[j]) {
      assert AtMost(h[c], h[j]);
    }
  }

  lemma LesserChild(h: seq<Pending>, k: nat, c: nat)
    requires 2 * k + 1 < |h| && (c == 2 * k + 1 || c == 2 * k + 2) && c < |h|
    requires AtMost(h[c], h[2 * k + 1]) && (2 * k + 2 < |h| ==> AtMost(h[c], h[2 * k + 2]))
    ensures Parent(c) == k && forall j :: 0 < j < |h| && Parent(j) == k ==> AtMost(h[c], h[j])
  {
    forall j | 0 < j < |h| && Parent(j) == k ensures j == 2 * k + 1 || j == 2 * k + 2 {
    }
  }

  lemma Settled(h: seq<Pending>, k: nat)
    requires OrderedExceptUnder(h, k)
    requires 2 * k + 1 < |h| ==> AtMost(h[k], h[2 * k + 1])
    requires 2 * k + 2 < |h| ==> AtMost(h[k], h[2 * k + 2])
    ensures HeapOrdered(h)
  {
    forall j | 0 < j < |h| ensures AtMost(h[Parent(j)], h[j]) {
      if Parent(j) == k {
        assert j == 2 * k + 1 || j == 2 * k + 2;
      }
    }
  }

  class Heap {
    var items: seq<Pending>

    ghost predicate Valid() reads this {
      HeapOrdered(items)
    }

    constructor ()
      ensures Valid() && items == []
    {
      items := [];
    }

    // container/heap Push: append, then sift up.
    method Push(x: Pending)
      requires Valid()
      modifies this
      ensures Valid() && multiset(items) == old(multiset(items)) + multiset{x}
    {
      items := items + [x];
      Up(|items| - 1);
    }

    method Up(start: nat)
      requires start < |items| && OrderedExceptAt(items, start)
      modifies this
      ensures Valid() && multiset(items) == old(multiset(items))
    {
      var j := start;
      while 0 < j && Less(items[j], items[Parent(j)])
        invariant 0 <= j < |items| && OrderedExceptAt(items, j)
        invariant multiset(items) == old(multiset(items))
        decreases j
      {
        var i := Parent(j);
        SiftUpStep(items, j);
        items := Swap(items, i, j);
        j := i;
      }
    }

    // container/heap Pop: swap the root with the last item, sift down, cut the tail off.
    method Pop() returns (x: Pending)
      requires Valid() && items != []
      modifies this
      ensures Valid() && multiset(items) + multiset{x} == old(multiset(items))
      ensures x == old(items[0]) && forall y <- items :: AtMost(x, y)
    {
      ghost var before := items;
      x := items[0];
      var n := |items| - 1;
      items := Swap(items, 0, n)[..n];
      assert Swap(before, 0, n) == items + [x];
      Down();
      forall y | y in items ensures AtMost(x, y) {
        assert y in multiset(before);
        var k :| 0 <= k < |before| && before[k] == y;
        RootIsLeast(before, k);
      }
    }

    method Down()
      requires OrderedExceptUnder(items, 0)
      modifies this
      ensures Valid() && multiset(items) == old(multiset(items))
    {
      var i, n := 0, |items|;
      while true
        invariant 0 <= i && |items| == n
        invariant OrderedExceptUnder(items, i)
        invariant multiset(items) == old(multiset(items))
        decreases n - i
      {
        var j := 2 * i + 1;
        if j >= n {
          Settled(items, i);
          break;
        }
        if j + 1 < n && Less(items[j + 1], items[j]) {
          j := j + 1;
        }
        LesserChild(items, i, j);
        if !Less(items[j], items[i]) {
          Settled(items, i);
          break;
        }
        SiftDownStep(items, i, j);
        items := Swap(items, i, j);
        i := j;
      }
    }
  }
}
