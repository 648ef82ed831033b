/** The C++ heap algorithms (std::push_heap, std::pop_heap, std::make_heap) over an array of
    events ordered by `EventCompare`: each is a function on sequences, shown to build a heap,
    and an in-place array method shown to compute that function. */
module BinaryHeap {
  import opened Events

  /** The event at i does not have to be dispatched before its parent. */
  predicate InOrder(s: seq<Event>, i: int)
    requires 0 < i < |s|
  {
    !EventCompare(s[(i - 1) / 2], s[i])
  }

  /** Every event whose parent sits at index lo or later is in order with that parent. */
  ghost predicate HeapFrom(s: seq<Event>, lo: nat) {
    forall i {:trigger InOrder(s, i)} :: 0 < i < |s| && lo <= (i - 1) / 2 ==> InOrder(s, i)
  }

  ghost predicate IsHeap(s: seq<Event>) {
    HeapFrom(s, 0)
  }

  function Swap(s: seq<Event>, i: nat, j: nat): (t: seq<Event>)
    requires i < |s| && j < |s|
    ensures |t| == |s|
  {
    s[i := s[j]][j := s[i]]
  }

  lemma SwapKeeps(s: seq<Event>, i: nat, j: nat)
    requires i < |s| && j < |s|
    ensures multiset(Swap(s, i, j)) == multiset(s)
  {
    assert multiset(s[i := s[j]]) == multiset(s) - multiset{s[i]} + multiset{s[j]};
  }

  /** Moves the event at i towards the root while its parent must not precede it. */
  function SiftUp(s: seq<Event>, i: nat): seq<Event>
    requires i < |s|
    decreases i
  {
    if i == 0 || InOrder(s, i) then s else SiftUp(Swap(s, (i - 1) / 2, i), (i - 1) / 2)
  }

  /** The child of i that is to be dispatched first. */
  function FirstChild(s: seq<Event>, i: nat): (c: nat)
    requires 2 * i + 1 < |s|
    ensures i < c < |s| && (c - 1) / 2 == i
  {
    if 2 * i + 2 < |s| && EventCompare(s[2 * i + 1], s[2 * i + 2]) then 2 * i + 2 else 2 * i + 1
  }

  lemma FirstChildGoesFirst(s: seq<Event>, i: nat, d: nat)
    requires 0 < d < |s| && (d - 1) / 2 == i
    ensures !EventCompare(s[FirstChild(s, i)], s[d])
  {
    assert d == 2 * i + 1 || d == 2 * i + 2;
  }

  /** Moves the event at i towards the leaves while a child has to precede it. */
  function SiftDown(s: seq<Event>, i: nat): seq<Event>
    requires i < |s|
    decreases |s| - i
  {
    if 2 * i + 1 >= |s| then s
    else
      var c := FirstChild(s, i);
      if InOrder(s, c) then s else SiftDown(Swap(s, i, c), c)
  }

  lemma {:induction false} SiftUpKeeps(s: seq<Event>, i: nat)
    requires i < |s|
    ensures |SiftUp(s, i)| == |s| && multiset(SiftUp(s, i)) == multiset(s)
    decreases i
  {
    if i != 0 && !InOrder(s, i) {
      SwapKeeps(s, (i - 1) / 2, i);
      SiftUpKeeps(Swap(s, (i - 1) / 2, i), (i - 1) / 2);
    }
  }

  lemma {:induction false} SiftDownKeeps(s: seq<Event>, i: nat)
    requires i < |s|
    ensures |SiftDown(s, i)| == |s| && multiset(SiftDown(s, i)) == multiset(s)
    decreases |s| - i
  {
    if 2 * i + 1 < |s| {
      var c := FirstChild(s, i);
      if !InOrder(s, c) {
        SwapKeeps(s, i, c);
        SiftDownKeeps(Swap(s, i, c), c);
      }
    }
  }

  /** push_back followed by push_heap. */
  function Pushed(s: seq<Event>, e: Event): seq<Event> {
    SiftUp(s + [e], |s|)
  }

  /** pop_heap followed by pop_back. */
  function Popped(s: seq<Event>): seq<Event>
    requires s != []
  {
    var n := |s| - 1;
    if n == 0 then [] else SiftDown(s[0 := s[n]][..n], 0)
  }

  function Heapify(s: seq<Event>, k: nat): seq<Event>
    requires k <= |s|
    decreases k
  {
    if k == 0 then s else SiftDownKeeps(s, k - 1); Heapify(SiftDown(s, k - 1), k - 1)
  }

  function MakeHeap(s: seq<Event>): seq<Event> {
    Heapify(s, |s| / 2)
  }

  /** Sifting up repairs a heap whose only fault is that the event at i may precede its parent. */
  lemma {:induction false} SiftUpHeap(s: seq<Event>, i: nat)
    requires i < |s|
    requires forall j {:trigger InOrder(s, j)} :: 0 < j < |s| && j != i ==> InOrder(s, j)
    requires forall j :: 0 < i && 0 < j < |s| && (j - 1) / 2 == i ==> !EventCompare(s[(i - 1) / 2], s[j])
    ensures IsHeap(SiftUp(s, i))
    decreases i
  {
    if i != 0 && !InOrder(s, i) {
      var p := (i - 1) / 2;
      var t := Swap(s, p, i);
      forall j | 0 < j < |t| && j != p ensures InOrder(t, j) {
        assert j != i ==> InOrder(s, j);
      }
      forall j | 0 < p && 0 < j < |t| && (j - 1) / 2 == p
        ensures !EventCompare(t[(p - 1) / 2], t[j])
      {
        assert InOrder(s, p);
        assert j != i ==> InOrder(s, j);
      }
      SiftUpHeap(t, p);
    }
  }

  /** Sifting down repairs the part of a heap from lo on, whose only fault is that the event at i
      may have to follow one of its children. */
  lemma {:induction false} SiftDownHeap(s: seq<Event>, i: nat, lo: nat)
    requires lo <= i < |s|
    requires forall j {:trigger InOrder(s, j)} ::
               0 < j < |s| && lo <= (j - 1) / 2 && (j - 1) / 2 != i ==> InOrder(s, j)
    requires forall j :: 0 < i && lo <= (i - 1) / 2 && 0 < j < |s| && (j - 1) / 2 == i
               ==> !EventCompare(s[(i - 1) / 2], s[j])
    ensures HeapFrom(SiftDown(s, i), lo)
    decreases |s| - i
  {
    if 2 * i + 1 < |s| {
      var c := FirstChild(s, i);
      if InOrder(s, c) {
        forall j | 0 < j < |s| && (j - 1) / 2 == i ensures InOrder(s, j) {
          FirstChildGoesFirst(s, i, j);
        }
      } else {
        var t := Swap(s, i, c);
        forall j | 0 < j < |t| && lo <= (j - 1) / 2 && (j - 1) / 2 != c ensures InOrder(t, j) {
          if (j - 1) / 2 == i {
            FirstChildGoesFirst(s, i, j);
          } else {
            assert InOrder(s, j);
          }
        }
        forall j | 0 < j < |t| && (j - 1) / 2 == c ensures !EventCompare(t[i], t[j]) {
          assert InOrder(s, j);
        }
        SiftDownHeap(t, c, lo);
      }
    }
  }

  /** The root of a heap has to be dispatched no later than any other event. */
  lemma {:induction false} RootIsFirst(s: seq<Event>, i: nat)
    requires IsHeap(s) && i < |s|
    ensures !Precedes(s[i], s[0])
  {
    if i != 0 {
      assert InOrder(s, i);
      RootIsFirst(s, (i - 1) / 2);
    }
  }

  lemma PushedHeap(s: seq<Event>, e: Event)
    requires IsHeap(s)
    ensures IsHeap(Pushed(s, e))
    ensures multiset(Pushed(s, e)) == multiset(s) + multiset{e}
  {
    var t := s + [e];
    forall j | 0 < j < |t| && j != |s| ensures InOrder(t, j) {
      assert InOrder(s, j);
    }
    SiftUpHeap(t, |s|);
    SiftUpKeeps(t, |s|);
  }

  lemma PoppedHeap(s: seq<Event>)
    requires IsHeap(s) && s != []
    ensures IsHeap(Popped(s))
    ensures multiset(Popped(s)) == multiset(s) - multiset{s[0]}
    ensures |Popped(s)| == |s| - 1
  {
    var n := |s| - 1;
    if n == 0 {
      assert s == [s[0]];
    } else {
      var t := s[0 := s[n]][..n];
      assert s == [s[0]] + s[1..n] + [s[n]];
      assert t == [s[n]] + s[1..n];
      forall j | 0 < j < |t| && (j - 1) / 2 != 0 ensures InOrder(t, j) {
        assert InOrder(s, j);
      }
      SiftDownHeap(t, 0, 0);
      SiftDownKeeps(t, 0);
    }
  }

  lemma {:induction false} HeapifyHeap(s: seq<Event>, k: nat)
    requires k <= |s| && HeapFrom(s, k)
    ensures IsHeap(Heapify(s, k)) && multiset(Heapify(s, k)) == multiset(s)
    decreases k
  {
    if k != 0 {
      SiftDownHeap(s, k - 1, k - 1);
      SiftDownKeeps(s, k - 1);
      HeapifyHeap(SiftDown(s, k - 1), k - 1);
    }
  }

  lemma MakeHeapHeap(s: seq<Event>)
    ensures IsHeap(MakeHeap(s))
    ensures multiset(MakeHeap(s)) == multiset(s)
  {
    HeapifyHeap(s, |s| / 2);
  }

  // ---------- The same algorithms in place, on the first n cells of an array ----------

  method SwapCells(a: array<Event>, i: nat, j: nat, n: nat)
    requires i < n && j < n && n <= a.Length
    modifies a
    ensures a[..n] == Swap(old(a[..n]), i, j)
    ensures a[n..] == old(a[n..])
  {
    a[i], a[j] := a[j], a[i];
  }

  /** std::push_heap: the event in the last of n cells is moved to its place. */
  method PushHeap(a: array<Event>, n: nat)
    requires 0 < n <= a.Length
    modifies a
    ensures a[..n] == SiftUp(old(a[..n]), n - 1)
    ensures a[n..] == old(a[n..])
  {
    var i := n - 1;
    while 0 < i && EventCompare(a[(i - 1) / 2], a[i])
      invariant 0 <= i < n
      invariant SiftUp(a[..n], i) == SiftUp(old(a[..n]), n - 1)
      invariant a[n..] == old(a[n..])
    {
      SwapCells(a, (i - 1) / 2, i, n);
      i := (i - 1) / 2;
    }
  }

  method SiftDownCells(a: array<Event>, start: nat, n: nat)
    requires start < n <= a.Length
    modifies a
    ensures a[..n] == SiftDown(old(a[..n]), start)
    ensures a[n..] == old(a[n..])
  {
    hide Swap, EventCompare, FirstChild, SiftDown;
    var i: nat := start;
    ghost var goal := SiftDown(a[..n], start);
    while 2 * i + 1 < n
      invariant i < n
      invariant SiftDown(a[..n], i) == goal
      invariant a[n..] == old(a[n..])
    {
      ghost var s := a[..n];
      SiftDownStep(s, i);
      var c := 2 * i + 1;
      if c + 1 < n && EventCompare(a[c], a[c + 1]) {
        c := c + 1;
      }
      if !EventCompare(a[i], a[c]) {
        return;
      }
      SwapCells(a, i, c, n);
      i := c;
    }
    SiftDownStep(a[..n], i);
  }

  lemma SiftDownStep(s: seq<Event>, i: nat)
    requires i < |s|
    ensures 2 * i + 1 >= |s| ==> SiftDown(s, i) == s
    ensures 2 * i + 1 < |s| ==>
              var c := if 2 * i + 2 < |s| && EventCompare(s[2 * i + 1], s[2 * i + 2])
                       then 2 * i + 2 else 2 * i + 1;
              SiftDown(s, i) == if EventCompare(s[i], s[c]) then SiftDown(Swap(s, i, c), c) else s
  {
  }

  /** std::pop_heap: the root goes to the last of n cells, the rest is a heap again. */
  method PopHeap(a: array<Event>, n: nat)
    requires 0 < n <= a.Length
    modifies a
    ensures a[..n - 1] == Popped(old(a[..n]))
    ensures a[n - 1] == old(a[0])
    ensures a[n..] == old(a[n..])
  {
    a[0], a[n - 1] := a[n - 1], a[0];
    if 1 < n {
      assert a[..n - 1] == old(a[..n])[0 := old(a[n - 1])][..n - 1];
      ghost var rest := a[n - 1..];
      SiftDownCells(a, 0, n - 1);
      assert a[n - 1] == a[n - 1..][0] == rest[0];
      assert a[n..] == a[n - 1..][1..] == rest[1..];
    }
  }

  /** std::make_heap. */
  method MakeHeapCells(a: array<Event>, n: nat)
    requires n <= a.Length
    modifies a
    ensures a[..n] == MakeHeap(old(a[..n]))
    ensures a[n..] == old(a[n..])
  {
    var k: nat := n / 2;
    while 0 < k
      invariant k <= n
      invariant Heapify(a[..n], k) == MakeHeap(old(a[..n]))
      invariant a[n..] == old(a[n..])
    {
      SiftDownCells(a, k - 1, n);
      k := k - 1;
    }
  }
}
