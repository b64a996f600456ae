/** The binary heap of timer entries in the guest's glue: src/js/quickjs_shim.c. */
module TimerHeap {

  type TimerId = nat

  /** One scheduling of a timer. `order` is never reused, so entries are equal exactly if identical. */
  datatype Entry = Entry(id: TimerId, due: real, order: nat)

  predicate Precedes(a: Entry, b: Entry) { a.due < b.due || (a.due == b.due && a.order < b.order) }

  function Parent(i: nat): nat
    requires i > 0
  {
    (i - 1) / 2
  }

  predicate InOrder(h: seq<Entry>, i: nat)
    requires 0 < i < |h|
  {
    !Precedes(h[i], h[Parent(i)])
  }

  ghost predicate IsHeap(h: seq<Entry>) { forall i :: 0 < i < |h| ==> InOrder(h, i) }

  /** In a heap nothing precedes the first entry. */
  lemma {:induction false} RootIsLeast(h: seq<Entry>, i: nat)
    requires IsHeap(h) && i < |h|
    ensures !Precedes(h[i], h[0])
  {
    if i > 0 {
      RootIsLeast(h, Parent(i));
      assert InOrder(h, i);
    }
  }

  /** A heap but for `i`, which may precede its parent; its children do not precede that parent. */
  ghost predicate Rising(h: seq<Entry>, i: nat) {
    && i < |h|
    && (forall j :: 0 < j < |h| && j != i ==> InOrder(h, j))
    && (forall j :: 0 < j < |h| && Parent(j) == i && i > 0 ==> !Precedes(h[j], h[Parent(i)]))
  }

  /** A heap but for `i`, which its children may precede; they do not precede its parent. */
  ghost predicate Sinking(h: seq<Entry>, i: nat) {
    && i < |h|
    && (forall j :: 0 < j < |h| && Parent(j) != i ==> InOrder(h, j))
    && (forall j :: 0 < j < |h| && Parent(j) == i && i > 0 ==> !Precedes(h[j], h[Parent(i)]))
  }

  function Swap(h: seq<Entry>, i: nat, j: nat): (r: seq<Entry>)
    requires i < |h| && j < |h| && i != j
    ensures |r| == |h| && multiset(r) == multiset(h)
  {
    h[i := h[j]][j := h[i]]
  }

  lemma RiseStep(h: seq<Entry>, i: nat)
    requires Rising(h, i) && i > 0 && Precedes(h[i], h[Parent(i)])
    ensures Rising(Swap(h, i, Parent(i)), Parent(i))
  {
    var p, h' := Parent(i), Swap(h, i, Parent(i));
    forall j | 0 < j < |h'| && j != p ensures InOrder(h', j) {
      assert j != i ==> InOrder(h, j);
    }
    forall j | 0 < j < |h'| && Parent(j) == p && p > 0 ensures !Precedes(h'[j], h'[Parent(p)]) {
      assert InOrder(h, p);
      assert j != i ==> InOrder(h, j);
    }
  }

  method HeapPush(heap: seq<Entry>, e: Entry) returns (h: seq<Entry>)
    requires IsHeap(heap)
    ensures IsHeap(h) && multiset(h) == multiset(heap) + multiset{e}
  {
    h := heap + [e];
    var i: nat := |heap|;
    assert Rising(h, i) by {
      forall j | 0 < j < |h| && j != i ensures InOrder(h, j) { assert InOrder(heap, j); }
    }
    while i > 0
      invariant Rising(h, i) && multiset(h) == multiset(heap) + multiset{e}
    {
      var parent := Parent(i);
      if !Precedes(h[i], h[parent]) { break; }
      RiseStep(h, i);
      h := Swap(h, i, parent);
      i := parent;
    }
  }

  lemma SinkStep(h: seq<Entry>, i: nat, c: nat)
    requires Sinking(h, i) && i < c < |h| && Parent(c) == i && Precedes(h[c], h[i])
    requires forall j :: 0 < j < |h| && Parent(j) == i ==> !Precedes(h[j], h[c])
    ensures Sinking(Swap(h, i, c), c)
  {
    var h' := Swap(h, i, c);
    forall j | 0 < j < |h'| && Parent(j) != c ensures InOrder(h', j) {
      assert Parent(j) != i ==> InOrder(h, j);
    }
    forall j | 0 < j < |h'| && Parent(j) == c ensures !Precedes(h'[j], h'[Parent(c)]) {
      assert InOrder(h, j);
    }
  }

  /** The entry `heapPop` compares its way to: `i`, or a child of it that nothing beside it precedes. */
  function LeastOf(h: seq<Entry>, i: nat): (c: nat)
    requires i < |h|
    ensures c < |h| && (c == i || (i < c && Parent(c) == i && Precedes(h[c], h[i])))
    ensures forall j :: 0 < j < |h| && Parent(j) == i ==> !Precedes(h[j], h[c])
  {
    var left := 2 * i + 1;
    var l := if left < |h| && Precedes(h[left], h[i]) then left else i;
    assert forall j :: 0 < j < |h| && Parent(j) == i ==> j == left || j == left + 1;
    if left + 1 < |h| && Precedes(h[left + 1], h[l]) then left + 1 else l
  }

  method SiftDown(heap: seq<Entry>) returns (h: seq<Entry>)
    requires Sinking(heap, 0)
    ensures IsHeap(h) && multiset(h) == multiset(heap)
  {
    h := heap;
    var i: nat := 0;
    while LeastOf(h, i) != i
      invariant Sinking(h, i) && multiset(h) == multiset(heap)
      decreases |h| - i
    {
      var least := LeastOf(h, i);
      SinkStep(h, i, least);
      h := Swap(h, i, least);
      i := least;
    }
  }

  lemma LastToFront(heap: seq<Entry>)
    requires |heap| > 1 && IsHeap(heap)
    ensures var h := heap[..|heap| - 1][0 := heap[|heap| - 1]];
      Sinking(h, 0) && multiset(heap) == multiset(h) + multiset{heap[0]}
  {
    var n := |heap| - 1;
    var h := heap[..n][0 := heap[n]];
    assert heap == heap[..n] + [heap[n]];
    forall j | 0 < j < |h| && Parent(j) != 0 ensures InOrder(h, j) { assert InOrder(heap, j); }
  }

  method HeapPop(heap: seq<Entry>) returns (h: seq<Entry>)
    requires |heap| > 0 && IsHeap(heap)
    ensures IsHeap(h) && multiset(heap) == multiset(h) + multiset{heap[0]}
  {
    var last := heap[|heap| - 1];
    if |heap| == 1 {
      h := [];
      assert heap == [heap[0]];
    } else {
      LastToFront(heap);
      h := SiftDown(heap[..|heap| - 1][0 := last]);
    }
  }

  // ------------------------------------------------------------------- compaction

  ghost predicate IsSorted(h: seq<Entry>) { forall i, j :: 0 <= i < j < |h| ==> !Precedes(h[j], h[i]) }

  function Insert(h: seq<Entry>, e: Entry): seq<Entry> {
    if h == [] || Precedes(e, h[0]) then [e] + h else [h[0]] + Insert(h[1..], e)
  }

  /** The engine's stable sort under `precedes`. */
  function Sort(h: seq<Entry>): seq<Entry> {
    if h == [] then [] else Insert(Sort(h[1..]), h[0])
  }

  lemma Prepend(h: seq<Entry>, e: Entry)
    requires IsSorted(h) && forall k :: 0 <= k < |h| ==> !Precedes(h[k], e)
    ensures IsSorted([e] + h)
  {
  }

  lemma {:induction false} InsertSorts(h: seq<Entry>, e: Entry)
    requires IsSorted(h)
    ensures IsSorted(Insert(h, e)) && multiset(Insert(h, e)) == multiset(h) + multiset{e}
  {
    if h != [] {
      assert h == [h[0]] + h[1..];
      if !Precedes(e, h[0]) {
        InsertSorts(h[1..], e);
        var t := Insert(h[1..], e);
        forall k | 0 <= k < |t| ensures !Precedes(t[k], h[0]) {
          assert t[k] in multiset(h[1..]) + multiset{e};
          if t[k] != e {
            assert t[k] in h[1..];
          }
        }
        Prepend(t, h[0]);
      } else {
        Prepend(h, e);
      }
    }
  }

  lemma {:induction false} SortSorts(h: seq<Entry>)
    ensures IsSorted(Sort(h)) && multiset(Sort(h)) == multiset(h)
  {
    if h != [] {
      SortSorts(h[1..]);
      InsertSorts(Sort(h[1..]), h[0]);
      assert h == [h[0]] + h[1..];
    }
  }

  /** A sorted array is a heap. */
  lemma SortedIsHeap(h: seq<Entry>)
    requires IsSorted(h)
    ensures IsHeap(h)
  {
  }
}
