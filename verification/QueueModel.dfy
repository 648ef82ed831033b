/** What the queue operations do to the contents of the queue, as functions on sequences, and
    the proof that they implement a priority queue over a plain multiset of events. */
module QueueModel {
  import opened Events
  import opened BinaryHeap

  const WILDCARD := -1

  // ---------- Filtered removal ----------

  predicate Matches(e: Event, src: int, dest: int, ty: int) {
    && (src == WILDCARD || e.src == src)
    && (dest == WILDCARD || e.dest == dest)
    && (ty == WILDCARD || e.ty == ty)
  }

  function Kept(s: seq<Event>, src: int, dest: int, ty: int): seq<Event> {
    if s == [] then []
    else if Matches(s[0], src, dest, ty) then Kept(s[1..], src, dest, ty)
    else [s[0]] + Kept(s[1..], src, dest, ty)
  }

  lemma KeptStep(s: seq<Event>, k: nat, src: int, dest: int, ty: int)
    requires k <= |s|
    ensures Kept(s[|s|..], src, dest, ty) == []
    ensures k < |s| ==>
              Kept(s[k..], src, dest, ty) ==
              (if Matches(s[k], src, dest, ty) then [] else [s[k]]) + Kept(s[k + 1..], src, dest, ty)
  {
    if k < |s| {
      assert s[k..][0] == s[k] && s[k..][1..] == s[k + 1..];
    }
  }

  /** The events a filtered removal takes out. */
  function Dropped(s: seq<Event>, src: int, dest: int, ty: int): seq<Event> {
    if s == [] then []
    else if Matches(s[0], src, dest, ty) then [s[0]] + Dropped(s[1..], src, dest, ty)
    else Dropped(s[1..], src, dest, ty)
  }

  /** Removal: everything at once when all three filters are wildcards, otherwise the matching
      events, followed by a rebuild of the heap. */
  function Removed(s: seq<Event>, src: int, dest: int, ty: int): seq<Event> {
    if src == WILDCARD && dest == WILDCARD && ty == WILDCARD then []
    else MakeHeap(Kept(s, src, dest, ty))
  }

  lemma {:induction false} KeptIsFilter(s: seq<Event>, src: int, dest: int, ty: int)
    ensures forall e :: multiset(Kept(s, src, dest, ty))[e] ==
                        if Matches(e, src, dest, ty) then 0 else multiset(s)[e]
    ensures multiset(Kept(s, src, dest, ty)) + multiset(Dropped(s, src, dest, ty)) == multiset(s)
  {
    if s != [] {
      assert s == [s[0]] + s[1..];
      KeptIsFilter(s[1..], src, dest, ty);
    }
  }

  /** Removal is exactly the filter, for every combination of filters and wildcards. */
  lemma RemovedIsFilter(s: seq<Event>, src: int, dest: int, ty: int)
    ensures IsHeap(Removed(s, src, dest, ty))
    ensures forall e :: multiset(Removed(s, src, dest, ty))[e] ==
                        if (src != -1 && e.src != src) || (dest != -1 && e.dest != dest) || (ty != -1 && e.ty != ty)
                        then multiset(s)[e] else 0
    ensures multiset(Removed(s, src, dest, ty)) + multiset(Dropped(s, src, dest, ty)) == multiset(s)
  {
    KeptIsFilter(s, src, dest, ty);
    MakeHeapHeap(Kept(s, src, dest, ty));
    assert src == dest == ty == WILDCARD ==> multiset(Kept(s, src, dest, ty)) == multiset{};
  }

  /** The shortcut that clears the queue and the general case agree on every queue. */
  lemma ClearShortcutAgrees(s: seq<Event>)
    ensures Removed(s, WILDCARD, WILDCARD, WILDCARD)
         == MakeHeap(Kept(s, WILDCARD, WILDCARD, WILDCARD))
  {
    var k := Kept(s, WILDCARD, WILDCARD, WILDCARD);
    KeptIsFilter(s, WILDCARD, WILDCARD, WILDCARD);
    assert multiset(k) == multiset{};
    assert |k| == |multiset(k)|;
  }

  // ---------- Invalidating a note-off ----------

  /** A note-off that can be invalidated: one at the very last tick never is. */
  predicate IsTarget(e: Event, dest: int, id: int) {
    e.dest == dest && e.ty == NOTEOFF && e.id == id && e.time < MAX_TICK
  }

  /** Index of the first of the earliest targets among the first n events, -1 if there is none. */
  function EarliestTarget(s: seq<Event>, dest: int, id: int, n: nat): (k: int)
    requires n <= |s|
    ensures -1 <= k < n
    ensures k == -1 <==> forall j :: 0 <= j < n ==> !IsTarget(s[j], dest, id)
    ensures 0 <= k ==>
              && IsTarget(s[k], dest, id)
              && (forall j :: 0 <= j < n && IsTarget(s[j], dest, id) ==> s[k].time <= s[j].time)
              && (forall j :: 0 <= j < k && IsTarget(s[j], dest, id) ==> s[k].time < s[j].time)
  {
    if n == 0 then -1
    else
      var k := EarliestTarget(s, dest, id, n - 1);
      if IsTarget(s[n - 1], dest, id) && (k == -1 || s[n - 1].time < s[k].time) then n - 1 else k
  }

  function Invalidated(s: seq<Event>, dest: int, id: int): (t: seq<Event>)
    ensures |t| == |s|
  {
    var k := EarliestTarget(s, dest, id, |s|);
    if k == -1 then s else s[k := s[k].(dest := -1)]
  }

  /** Changing a destination never disturbs the heap, so no rebuild is needed. */
  lemma InvalidatedHeap(s: seq<Event>, dest: int, id: int)
    requires IsHeap(s)
    ensures IsHeap(Invalidated(s, dest, id))
  {
    var t := Invalidated(s, dest, id);
    forall i | 0 < i < |t| ensures InOrder(t, i) {
      assert InOrder(s, i);
    }
  }

  /** If some event is addressed to `dest`, is a note-off, carries the note's id and is not at the last
      tick, an invalidation takes the destination from the first of the earliest of these. */
  lemma InvalidatesEarliest(s: seq<Event>, dest: int, id: int, j: nat)
    requires j < |s| && s[j].dest == dest && s[j].ty == 2 && s[j].id == id && s[j].time < 0xFFFF_FFFF
    ensures exists k ::
              InvalidatedAt(s, dest, id, k) && s[k].time <= s[j].time && (s[k].time == s[j].time ==> k <= j)
  {
    assert IsTarget(s[j], dest, id);
    assert InvalidatedAt(s, dest, id, EarliestTarget(s, dest, id, |s|));
  }

  /** The event at k, a note-off of that note, is the one whose destination an invalidation takes. */
  ghost predicate InvalidatedAt(s: seq<Event>, dest: int, id: int, k: int) {
    && 0 <= k < |s| && s[k].dest == dest && s[k].ty == 2 && s[k].id == id && s[k].time < 0xFFFF_FFFF
    && Invalidated(s, dest, id) == s[k := s[k].(dest := -1)]
  }

  /** The queue after k invalidations of the same note, and the indices they hit, in order. */
  function Strip(s: seq<Event>, dest: int, id: int, k: nat): (r: (seq<Event>, seq<nat>))
    ensures |r.0| == |s|
  {
    if k == 0 then (s, [])
    else
      var (t, hit) := Strip(s, dest, id, k - 1);
      var i := EarliestTarget(t, dest, id, |t|);
      (Invalidated(t, dest, id), if i == -1 then hit else hit + [i])
  }

  /** The indices hit lie on distinct targets of s, in nondecreasing time. */
  ghost predicate HitsInOrder(s: seq<Event>, hit: seq<nat>, dest: int, id: int) {
    && (forall a :: 0 <= a < |hit| ==> hit[a] < |s| && IsTarget(s[hit[a]], dest, id))
    && (forall a, b :: 0 <= a < b < |hit| ==> hit[a] != hit[b] && s[hit[a]].time <= s[hit[b]].time)
  }

  /** No target left out is earlier than one that was hit. */
  ghost predicate HitsEarliest(s: seq<Event>, hit: seq<nat>, dest: int, id: int)
    requires HitsInOrder(s, hit, dest, id)
  {
    forall a, i :: 0 <= a < |hit| && 0 <= i < |s| && IsTarget(s[i], dest, id) && i !in hit
      ==> s[hit[a]].time <= s[i].time
  }

  /** t is s with the destinations of the events at the indices in hit cleared. */
  ghost predicate Cleared(s: seq<Event>, t: seq<Event>, hit: seq<nat>) {
    && |t| == |s|
    && forall i {:trigger t[i]} {:trigger s[i]} :: 0 <= i < |s| ==>
         t[i] == if i in hit then s[i].(dest := -1) else s[i]
  }

  /** For a proper destination, k invalidations strip k distinct targets - or all of them - from
      the earliest on, in nondecreasing time, and change nothing but their destination. */
  lemma {:induction false} StripTakesEarliest(s: seq<Event>, dest: int, id: int, k: nat)
    requires dest != -1
    ensures var (t, hit) := Strip(s, dest, id, k);
            && Cleared(s, t, hit)
            && HitsInOrder(s, hit, dest, id)
            && HitsEarliest(s, hit, dest, id)
            && |hit| <= k
            && (|hit| == k || forall i :: 0 <= i < |s| && IsTarget(s[i], dest, id) ==> i in hit)
  {
    if k != 0 {
      StripTakesEarliest(s, dest, id, k - 1);
      var (t, hit) := Strip(s, dest, id, k - 1);
      var i := EarliestTarget(t, dest, id, |t|);
      if i == -1 {
        forall j | 0 <= j < |s| && IsTarget(s[j], dest, id) ensures j in hit {
          assert !IsTarget(t[j], dest, id);
        }
      } else {
        NextHit(s, t, hit, dest, id, i);
      }
    }
  }

  lemma NextHit(s: seq<Event>, t: seq<Event>, hit: seq<nat>, dest: int, id: int, i: nat)
    requires dest != -1
    requires Cleared(s, t, hit) && HitsInOrder(s, hit, dest, id) && HitsEarliest(s, hit, dest, id)
    requires i == EarliestTarget(t, dest, id, |t|)
    ensures Cleared(s, Invalidated(t, dest, id), hit + [i])
    ensures HitsInOrder(s, hit + [i], dest, id) && HitsEarliest(s, hit + [i], dest, id)
  {
    assert i !in hit && t[i] == s[i];
    assert forall j :: j in hit + [i] <==> j in hit || j == i;
    forall j | 0 <= j < |s| && IsTarget(s[j], dest, id) && j !in hit ensures s[i].time <= s[j].time {
      assert t[j] == s[j];
    }
  }

  /** With the destination already -1 an invalidation changes nothing, however often it is repeated. */
  lemma InvalidatedFixpoint(s: seq<Event>, dest: int, id: int)
    ensures Invalidated(s, dest, id) == s <==>
            dest == -1 || forall i :: 0 <= i < |s| ==>
              !(s[i].dest == dest && s[i].ty == 2 && s[i].id == id && s[i].time < 0xFFFF_FFFF)
  {
    var k := EarliestTarget(s, dest, id, |s|);
    if k != -1 && dest == -1 {
      assert s[k].(dest := -1) == s[k];
    }
    if k != -1 && dest != -1 {
      assert Invalidated(s, dest, id)[k] != s[k];
    }
  }

  // ---------- Refinement of a multiset priority queue ----------

  /** What a client may do to the queue, at any time and also while an event is delivered. */
  datatype Action =
    | Push(e: Event)
    | Remove(src: int, dest: int, ty: int)
    | Invalidate(target: int, note: int)

  datatype Op = Client(action: Action) | Pop

  function Act(s: seq<Event>, action: Action): seq<Event> {
    match action
    case Push(e) => Pushed(s, e)
    case Remove(src, dest, ty) => Removed(s, src, dest, ty)
    case Invalidate(dest, id) => Invalidated(s, dest, id)
  }

  function Apply(s: seq<Event>, op: Op): seq<Event> {
    match op
    case Client(action) => Act(s, action)
    case Pop => if s == [] then s else Popped(s)
  }

  /** An earliest event of m that an invalidation may pick. */
  ghost predicate EarliestIn(m: multiset<Event>, e: Event, dest: int, id: int) {
    && e in m && e.dest == dest && e.ty == NOTEOFF && e.id == id && e.time < MAX_TICK
    && forall f :: f in m && f.dest == dest && f.ty == NOTEOFF && f.id == id ==> e.time <= f.time
  }

  /** The priority queue over multisets: which step from m to m' an operation may take. */
  ghost predicate AbstractStep(m: multiset<Event>, op: Op, m': multiset<Event>) {
    match op
    case Client(Push(e)) => m' == m + multiset{e}
    case Client(Remove(src, dest, ty)) =>
      forall e :: m'[e] ==
        if (src != -1 && e.src != src) || (dest != -1 && e.dest != dest) || (ty != -1 && e.ty != ty) then m[e] else 0
    case Client(Invalidate(dest, id)) =>
      if exists e :: EarliestIn(m, e, dest, id) then
        exists e :: EarliestIn(m, e, dest, id) && m' == m - multiset{e} + multiset{e.(dest := -1)}
      else
        m' == m
    case Pop =>
      if m == multiset{} then m' == m
      else exists e :: e in m && (forall f :: f in m ==> !Precedes(f, e)) && m' == m - multiset{e}
  }

  lemma PopRefines(s: seq<Event>)
    requires IsHeap(s)
    ensures IsHeap(Apply(s, Pop)) && AbstractStep(multiset(s), Pop, multiset(Apply(s, Pop)))
  {
    if s != [] {
      PoppedHeap(s);
      forall f | f in multiset(s) ensures !Precedes(f, s[0]) {
        var i :| 0 <= i < |s| && s[i] == f;
        RootIsFirst(s, i);
      }
      assert s[0] in multiset(s);
    }
  }

  lemma UpdateMultiset(s: seq<Event>, k: nat, e: Event)
    requires k < |s|
    ensures multiset(s[k := e]) == multiset(s) - multiset{s[k]} + multiset{e}
  {
    assert s == s[..k] + [s[k]] + s[k + 1..];
    assert s[k := e] == s[..k] + [e] + s[k + 1..];
  }

  lemma InvalidateRefines(s: seq<Event>, dest: int, id: int)
    requires IsHeap(s)
    ensures IsHeap(Invalidated(s, dest, id))
    ensures AbstractStep(multiset(s), Client(Invalidate(dest, id)), multiset(Invalidated(s, dest, id)))
  {
    InvalidatedHeap(s, dest, id);
    var k := EarliestTarget(s, dest, id, |s|);
    if k == -1 {
      forall e ensures !EarliestIn(multiset(s), e, dest, id) {
        if e in multiset(s) {
          var i :| 0 <= i < |s| && s[i] == e;
        }
      }
    } else {
      UpdateMultiset(s, k, s[k].(dest := -1));
      forall f | f in multiset(s) && IsTarget(f, dest, id) ensures s[k].time <= f.time {
        var i :| 0 <= i < |s| && s[i] == f;
      }
      assert EarliestIn(multiset(s), s[k], dest, id);
    }
  }

  lemma StepRefines(s: seq<Event>, op: Op)
    requires IsHeap(s)
    ensures IsHeap(Apply(s, op)) && AbstractStep(multiset(s), op, multiset(Apply(s, op)))
  {
    hide Pushed, Removed, Invalidated, Popped;
    match op
    case Client(Push(e)) => PushedHeap(s, e);
    case Client(Remove(src, dest, ty)) => RemovedIsFilter(s, src, dest, ty);
    case Client(Invalidate(dest, id)) => InvalidateRefines(s, dest, id);
    case Pop => PopRefines(s);
  }

  function Run(s: seq<Event>, ops: seq<Op>, n: nat): seq<Event>
    requires n <= |ops|
  {
    if n == 0 then s else Apply(Run(s, ops, n - 1), ops[n - 1])
  }

  /** Over every run from a heap, such as the empty queue, the contents stay a heap, and their
      multisets go through the steps of the multiset priority queue. */
  lemma {:induction false} RunRefines(s: seq<Event>, ops: seq<Op>, n: nat)
    requires IsHeap(s) && n <= |ops|
    ensures IsHeap(Run(s, ops, n))
    ensures n < |ops| ==>
              AbstractStep(multiset(Run(s, ops, n)), ops[n], multiset(Run(s, ops, n + 1)))
  {
    hide Apply, AbstractStep;
    if n != 0 {
      RunRefines(s, ops, n - 1);
      StepRefines(Run(s, ops, n - 1), ops[n - 1]);
    }
    if n < |ops| {
      StepRefines(Run(s, ops, n), ops[n]);
    }
  }

  lemma {:induction false} RunConcat(s: seq<Event>, a: seq<Op>, b: seq<Op>, k: nat)
    requires k <= |b|
    ensures Run(s, a + b, |a| + k) == Run(Run(s, a, |a|), b, k)
    decreases k
  {
    hide Apply;
    if k == 0 {
      RunPrefix(s, a, b, |a|);
    } else {
      RunConcat(s, a, b, k - 1);
    }
  }

  lemma {:induction false} RunPrefix(s: seq<Event>, a: seq<Op>, b: seq<Op>, n: nat)
    requires n <= |a|
    ensures Run(s, a + b, n) == Run(s, a, n)
    decreases n
  {
    hide Apply;
    if n != 0 {
      RunPrefix(s, a, b, n - 1);
    }
  }

  lemma RunCons(s: seq<Event>, op: Op, ops: seq<Op>)
    ensures Run(s, [op] + ops, 1 + |ops|) == Run(Apply(s, op), ops, |ops|)
  {
    hide Apply;
    assert Run(s, [op], 0) == s;
    assert Run(s, [op], 1) == Apply(s, op);
    RunConcat(s, [op], ops, |ops|);
  }
}
