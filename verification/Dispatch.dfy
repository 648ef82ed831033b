/** Dispatching the due events, with client callbacks that use the queue in between. */
module Dispatch {
  import opened Events
  import opened BinaryHeap
  import opened QueueModel

  /** The actions of the callback of the k-th delivery. Client behaviour is arbitrary: whatever
      a client does in some run, and for whatever reason, is one such script. */
  type Script = nat -> seq<Action>

  function ApplyAll(s: seq<Event>, actions: seq<Action>): seq<Event>
    decreases |actions|
  {
    if actions == [] then s else ApplyAll(Act(s, actions[0]), actions[1..])
  }

  predicate Quiet(q: seq<Event>, now: Tick) {
    q == [] || now < q[0].time
  }

  /** Queue and deliveries after at most n rounds of the dispatch loop. */
  function Iterate(s: seq<Event>, now: Tick, script: Script, n: nat): (r: (seq<Event>, seq<Event>))
    ensures |r.1| <= n
    ensures |r.1| < n ==> Quiet(r.0, now)
  {
    if n == 0 then (s, [])
    else
      var (q, d) := Iterate(s, now, script, n - 1);
      if Quiet(q, now) then (q, d) else (ApplyAll(Popped(q), script(|d|)), d + [q[0]])
  }

  /** The loop started in s ends with queue q after delivering d. */
  ghost predicate Completes(s: seq<Event>, now: Tick, script: Script, q: seq<Event>, d: seq<Event>) {
    (q, d) == Iterate(s, now, script, |d|) && Quiet(q, now)
  }

  // ---------- A dispatch is a run of queue operations ----------

  function Clients(actions: seq<Action>): (ops: seq<Op>)
    ensures |ops| == |actions| && forall i :: 0 <= i < |ops| ==> ops[i] == Client(actions[i])
  {
    seq(|actions|, i requires 0 <= i < |actions| => Client(actions[i]))
  }

  /** The queue operations of the first n rounds: a pop and the callback's actions each. */
  function Rounds(s: seq<Event>, now: Tick, script: Script, n: nat): seq<Op> {
    if n == 0 then []
    else
      var (q, d) := Iterate(s, now, script, n - 1);
      var ops := Rounds(s, now, script, n - 1);
      if Quiet(q, now) then ops else ops + ([Pop] + Clients(script(|d|)))
  }

  lemma EmptyRun(s: seq<Event>, ops: seq<Op>)
    ensures Run(s, ops, 0) == s
  {
  }

  lemma {:induction false} CallbackIsRun(s: seq<Event>, actions: seq<Action>)
    ensures Run(s, Clients(actions), |actions|) == ApplyAll(s, actions)
    decreases |actions|
  {
    hide Act, Run, Clients;
    if actions == [] {
      EmptyRun(s, Clients(actions));
    } else {
      CallbackIsRun(Act(s, actions[0]), actions[1..]);
      assert Clients(actions) == [Client(actions[0])] + Clients(actions[1..]);
      RunCons(s, Client(actions[0]), Clients(actions[1..]));
    }
  }

  /** So whatever holds over every run of operations also holds across a dispatch. */
  lemma {:induction false} DispatchIsRun(s: seq<Event>, now: Tick, script: Script, n: nat)
    ensures var ops := Rounds(s, now, script, n);
            Run(s, ops, |ops|) == Iterate(s, now, script, n).0
  {
    hide Popped, ApplyAll, Clients, Run;
    if n == 0 {
      EmptyRun(s, []);
    } else {
      DispatchIsRun(s, now, script, n - 1);
      var (q, d) := Iterate(s, now, script, n - 1);
      if !Quiet(q, now) {
        var ops, round := Rounds(s, now, script, n - 1), Clients(script(|d|));
        RunCons(q, Pop, round);
        CallbackIsRun(Popped(q), script(|d|));
        RunConcat(s, ops, [Pop] + round, 1 + |round|);
      }
    }
  }

  // ---------- Every delivery is due and first in line ----------

  lemma {:induction false} ApplyAllHeap(s: seq<Event>, actions: seq<Action>)
    requires IsHeap(s)
    ensures IsHeap(ApplyAll(s, actions))
    decreases |actions|
  {
    hide Act;
    if actions != [] {
      StepRefines(s, Client(actions[0]));
      ApplyAllHeap(Act(s, actions[0]), actions[1..]);
    }
  }

  lemma {:induction false} IterateHeap(s: seq<Event>, now: Tick, script: Script, n: nat)
    requires IsHeap(s)
    ensures IsHeap(Iterate(s, now, script, n).0)
  {
    hide Popped, ApplyAll;
    if n != 0 {
      IterateHeap(s, now, script, n - 1);
      var (q, d) := Iterate(s, now, script, n - 1);
      if !Quiet(q, now) {
        PoppedHeap(q);
        ApplyAllHeap(Popped(q), script(|d|));
      }
    }
  }

  lemma {:induction false} IteratePrefix(s: seq<Event>, now: Tick, script: Script, k: nat, n: nat)
    requires k <= |Iterate(s, now, script, n).1|
    ensures Iterate(s, now, script, k).1 == Iterate(s, now, script, n).1[..k]
    ensures k < |Iterate(s, now, script, n).1| ==> !Quiet(Iterate(s, now, script, k).0, now)
    ensures k < |Iterate(s, now, script, n).1| ==>
              Iterate(s, now, script, n).1[k] == Iterate(s, now, script, k).0[0]
  {
    hide Popped, ApplyAll;
    if k < n {
      var (q, d) := Iterate(s, now, script, n - 1);
      if k <= |d| {
        IteratePrefix(s, now, script, k, n - 1);
      }
    }
  }

  /** Whatever the callbacks do: the k-th event delivered was due, was in the queue at that
      moment, and nothing in the queue had to go before it. */
  lemma DeliveredFirstAndDue(s: seq<Event>, now: Tick, script: Script, n: nat, k: nat)
    requires IsHeap(s)
    requires k < |Iterate(s, now, script, n).1|
    ensures var e := Iterate(s, now, script, n).1[k];
            var q := Iterate(s, now, script, k).0;
            e.time <= now && e in q && forall f :: f in q ==> !Precedes(f, e)
  {
    hide Popped, ApplyAll;
    IteratePrefix(s, now, script, k, n);
    IterateHeap(s, now, script, k);
    var q := Iterate(s, now, script, k).0;
    forall f | f in q ensures !Precedes(f, q[0]) {
      var i :| 0 <= i < |q| && q[i] == f;
      RootIsFirst(q, i);
    }
  }

  /** When the loop stops, nothing left in the queue is due. */
  lemma NothingDueLeft(s: seq<Event>, now: Tick, script: Script, q: seq<Event>, d: seq<Event>, e: Event)
    requires IsHeap(s) && Completes(s, now, script, q, d)
    requires e in q
    ensures now < e.time
  {
    hide Popped, ApplyAll;
    IterateHeap(s, now, script, |d|);
    var i :| 0 <= i < |q| && q[i] == e;
    RootIsFirst(q, i);
  }

  // ---------- Conservation ----------

  /** The events an action takes out of the queue, and those it puts in. */
  function Taken(s: seq<Event>, action: Action): seq<Event> {
    match action
    case Push(e) => []
    case Remove(src, dest, ty) => Dropped(s, src, dest, ty)
    case Invalidate(dest, id) =>
      var k := EarliestTarget(s, dest, id, |s|);
      if k == -1 then [] else [s[k]]
  }

  function Added(s: seq<Event>, action: Action): seq<Event> {
    match action
    case Push(e) => [e]
    case Remove(src, dest, ty) => []
    case Invalidate(dest, id) =>
      var k := EarliestTarget(s, dest, id, |s|);
      if k == -1 then [] else [s[k].(dest := -1)]
  }

  /** before plus added is after plus taken, as multisets. */
  ghost predicate Balanced(before: multiset<Event>, added: seq<Event>, after: multiset<Event>, taken: seq<Event>) {
    before + multiset(added) == after + multiset(taken)
  }

  lemma Chain(m0: multiset<Event>, added1: seq<Event>, m1: multiset<Event>, taken1: seq<Event>,
              added2: seq<Event>, m2: multiset<Event>, taken2: seq<Event>)
    requires Balanced(m0, added1, m1, taken1) && Balanced(m1, added2, m2, taken2)
    ensures Balanced(m0, added1 + added2, m2, taken1 + taken2)
  {
    assert m0 + multiset(added1 + added2) == m0 + multiset(added1) + multiset(added2);
    assert m1 + multiset(taken1) + multiset(added2) == m1 + multiset(added2) + multiset(taken1);
    assert m2 + multiset(taken1 + taken2) == m2 + multiset(taken2) + multiset(taken1);
  }

  lemma Frame(m0: multiset<Event>, added: seq<Event>, m1: multiset<Event>, taken: seq<Event>, out: multiset<Event>)
    requires Balanced(m0, added, m1, taken)
    ensures Balanced(out + m0, added, out + m1, taken)
  {
    assert out + m0 + multiset(added) == out + (m0 + multiset(added));
    assert out + m1 + multiset(taken) == out + (m1 + multiset(taken));
  }

  lemma ActionConserves(s: seq<Event>, action: Action)
    requires IsHeap(s)
    ensures Balanced(multiset(s), Added(s, action), multiset(Act(s, action)), Taken(s, action))
  {
    hide Pushed, Removed;
    match action
    case Push(e) => PushedHeap(s, e);
    case Remove(src, dest, ty) => RemovedIsFilter(s, src, dest, ty);
    case Invalidate(dest, id) =>
      var k := EarliestTarget(s, dest, id, |s|);
      if k != -1 {
        UpdateMultiset(s, k, s[k].(dest := -1));
        assert s[k] in multiset(s);
      }
  }

  function TakenAll(s: seq<Event>, actions: seq<Action>): seq<Event>
    decreases |actions|
  {
    if actions == [] then [] else Taken(s, actions[0]) + TakenAll(Act(s, actions[0]), actions[1..])
  }

  function AddedAll(s: seq<Event>, actions: seq<Action>): seq<Event>
    decreases |actions|
  {
    if actions == [] then [] else Added(s, actions[0]) + AddedAll(Act(s, actions[0]), actions[1..])
  }

  lemma {:induction false} ActionsConserve(s: seq<Event>, actions: seq<Action>)
    requires IsHeap(s)
    ensures Balanced(multiset(s), AddedAll(s, actions), multiset(ApplyAll(s, actions)), TakenAll(s, actions))
    decreases |actions|
  {
    hide Act, Added, Taken;
    if actions != [] {
      var t := Act(s, actions[0]);
      ActionConserves(s, actions[0]);
      StepRefines(s, Client(actions[0]));
      ActionsConserve(t, actions[1..]);
      Chain(multiset(s), Added(s, actions[0]), multiset(t), Taken(s, actions[0]),
            AddedAll(t, actions[1..]), multiset(ApplyAll(s, actions)), TakenAll(t, actions[1..]));
    }
  }

  /** Handing out the first event and running its callback. */
  lemma RoundConserves(q: seq<Event>, d: seq<Event>, actions: seq<Action>)
    requires IsHeap(q) && q != []
    ensures Balanced(multiset(d) + multiset(q), AddedAll(Popped(q), actions),
                     multiset(d + [q[0]]) + multiset(ApplyAll(Popped(q), actions)),
                     TakenAll(Popped(q), actions))
  {
    hide Popped, ApplyAll, TakenAll, AddedAll;
    PoppedHeap(q);
    ActionsConserve(Popped(q), actions);
    assert q[0] in multiset(q);
    assert multiset(d) + multiset(q) == multiset(d + [q[0]]) + multiset(Popped(q));
    Frame(multiset(Popped(q)), AddedAll(Popped(q), actions), multiset(ApplyAll(Popped(q), actions)),
          TakenAll(Popped(q), actions), multiset(d + [q[0]]));
  }

  /** What the callbacks of the first n rounds put in and took out, in total. */
  function Traffic(s: seq<Event>, now: Tick, script: Script, n: nat): (seq<Event>, seq<Event>) {
    if n == 0 then ([], [])
    else
      var (q, d) := Iterate(s, now, script, n - 1);
      var (added, taken) := Traffic(s, now, script, n - 1);
      if Quiet(q, now) then (added, taken)
      else (added + AddedAll(Popped(q), script(|d|)), taken + TakenAll(Popped(q), script(|d|)))
  }

  /** No event is lost or duplicated: the initial events and those the callbacks put in are
      together exactly the events delivered, left over, or taken out by callbacks. */
  lemma {:induction false} DispatchConserves(s: seq<Event>, now: Tick, script: Script, n: nat)
    requires IsHeap(s)
    ensures var (q, d) := Iterate(s, now, script, n);
            var (added, taken) := Traffic(s, now, script, n);
            Balanced(multiset(s), added, multiset(d) + multiset(q), taken)
  {
    hide Popped, ApplyAll, TakenAll, AddedAll;
    if n != 0 {
      DispatchConserves(s, now, script, n - 1);
      IterateHeap(s, now, script, n - 1);
      var (q, d) := Iterate(s, now, script, n - 1);
      if !Quiet(q, now) {
        var (added, taken) := Traffic(s, now, script, n - 1);
        RoundConserves(q, d, script(|d|));
        Chain(multiset(s), added, multiset(d) + multiset(q), taken, AddedAll(Popped(q), script(|d|)),
              multiset(d + [q[0]]) + multiset(ApplyAll(Popped(q), script(|d|))),
              TakenAll(Popped(q), script(|d|)));
      }
    }
  }

  // ---------- Termination ----------

  function DueEvents(s: seq<Event>, now: Tick): seq<Event> {
    if s == [] then []
    else if s[0].time <= now then [s[0]] + DueEvents(s[1..], now)
    else DueEvents(s[1..], now)
  }

  lemma {:induction false} DueIsFilter(s: seq<Event>, now: Tick)
    ensures forall e :: multiset(DueEvents(s, now))[e] == if e.time <= now then multiset(s)[e] else 0
  {
    if s != [] {
      assert s == [s[0]] + s[1..];
      DueIsFilter(s[1..], now);
    }
  }

  function DuePushes(actions: seq<Action>, now: Tick): nat {
    if actions == [] then 0
    else (if actions[0].Push? && actions[0].e.time <= now then 1 else 0) + DuePushes(actions[1..], now)
  }

  /** The due events the callbacks of the first n deliveries push. */
  function DuePushesUpTo(script: Script, now: Tick, n: nat): nat {
    if n == 0 then 0 else DuePushesUpTo(script, now, n - 1) + DuePushes(script(n - 1), now)
  }

  lemma BalancedDue(s: seq<Event>, added: seq<Event>, t: seq<Event>, taken: seq<Event>, now: Tick)
    requires Balanced(multiset(s), added, multiset(t), taken)
    ensures |DueEvents(s, now)| + |DueEvents(added, now)| == |DueEvents(t, now)| + |DueEvents(taken, now)|
  {
    hide DueEvents;
    DueIsFilter(s, now);
    DueIsFilter(added, now);
    DueIsFilter(t, now);
    DueIsFilter(taken, now);
    var before := multiset(DueEvents(s, now)) + multiset(DueEvents(added, now));
    var after := multiset(DueEvents(t, now)) + multiset(DueEvents(taken, now));
    forall e: Event ensures before[e] == after[e] {
      assert (multiset(s) + multiset(added))[e] == (multiset(t) + multiset(taken))[e];
    }
    assert before == after;
    assert |before| == |DueEvents(s, now)| + |DueEvents(added, now)|;
    assert |after| == |DueEvents(t, now)| + |DueEvents(taken, now)|;
  }

  lemma {:induction false} ActionsDue(s: seq<Event>, actions: seq<Action>, now: Tick)
    requires IsHeap(s)
    ensures |DueEvents(ApplyAll(s, actions), now)| <= |DueEvents(s, now)| + DuePushes(actions, now)
    decreases |actions|
  {
    hide Act;
    if actions != [] {
      var t := Act(s, actions[0]);
      ActionConserves(s, actions[0]);
      BalancedDue(s, Added(s, actions[0]), t, Taken(s, actions[0]), now);
      StepRefines(s, Client(actions[0]));
      ActionsDue(t, actions[1..], now);
    }
  }

  lemma PopDue(s: seq<Event>, now: Tick)
    requires IsHeap(s) && !Quiet(s, now)
    ensures |DueEvents(Popped(s), now)| == |DueEvents(s, now)| - 1
  {
    hide Popped;
    PoppedHeap(s);
    assert s[0] in multiset(s);
    BalancedDue(s, [], Popped(s), [s[0]], now);
  }

  /** Each round consumes one due event that was queued or pushed. */
  lemma {:induction false} RoundsAreBudgeted(s: seq<Event>, now: Tick, script: Script, n: nat)
    requires IsHeap(s)
    ensures var (q, d) := Iterate(s, now, script, n);
            |d| + |DueEvents(q, now)| <= |DueEvents(s, now)| + DuePushesUpTo(script, now, |d|)
  {
    hide Popped, ApplyAll, DueEvents;
    if n != 0 {
      RoundsAreBudgeted(s, now, script, n - 1);
      IterateHeap(s, now, script, n - 1);
      var (q, d) := Iterate(s, now, script, n - 1);
      if !Quiet(q, now) {
        PopDue(q, now);
        PoppedHeap(q);
        ActionsDue(Popped(q), script(|d|), now);
      }
    }
  }

  /** If the callbacks push at most `bound` due events altogether, the loop stops, after at most
      as many deliveries as there were due events queued or pushed. */
  lemma DispatchTerminates(s: seq<Event>, now: Tick, script: Script, bound: nat)
    requires IsHeap(s)
    requires forall n :: DuePushesUpTo(script, now, n) <= bound
    ensures var (q, d) := Iterate(s, now, script, |DueEvents(s, now)| + bound + 1);
            |d| <= |DueEvents(s, now)| + bound && Quiet(q, now)
  {
    hide Popped, ApplyAll, DueEvents;
    RoundsAreBudgeted(s, now, script, |DueEvents(s, now)| + bound + 1);
  }

  // ---------- Order of delivery ----------

  /** Actions that push no event which should have been dispatched before e. */
  predicate Forward(actions: seq<Action>, e: Event) {
    forall i :: 0 <= i < |actions| && actions[i].Push? ==> !Precedes(actions[i].e, e)
  }

  /** No event queued has to go before e. */
  ghost predicate AllAfter(s: seq<Event>, e: Event) {
    forall f :: f in multiset(s) ==> !Precedes(f, e)
  }

  lemma ActionStaysAfter(s: seq<Event>, action: Action, e: Event)
    requires IsHeap(s) && AllAfter(s, e) && Forward([action], e)
    ensures AllAfter(Act(s, action), e)
  {
    hide Act;
    ActionConserves(s, action);
    assert [action][0] == action;
    forall f | f in multiset(Act(s, action)) ensures !Precedes(f, e) {
      assert f in multiset(s) + multiset(Added(s, action));
      if action.Invalidate? {
        var k := EarliestTarget(s, action.target, action.note, |s|);
        assert k != -1 ==> s[k] in multiset(s);
      }
    }
  }

  lemma {:induction false} ActionsStayAfter(s: seq<Event>, actions: seq<Action>, e: Event)
    requires IsHeap(s) && AllAfter(s, e) && Forward(actions, e)
    ensures AllAfter(ApplyAll(s, actions), e)
    decreases |actions|
  {
    hide Act;
    if actions != [] {
      ActionStaysAfter(s, actions[0], e);
      StepRefines(s, Client(actions[0]));
      ActionsStayAfter(Act(s, actions[0]), actions[1..], e);
    }
  }

  ghost predicate InDispatchOrder(d: seq<Event>) {
    forall i, j :: 0 <= i < j < |d| ==> !Precedes(d[j], d[i])
  }

  /** As long as no callback pushes an event that should have gone before the one it is handling,
      the deliveries come sorted by tick and type precedence. */
  lemma {:induction false} DeliveredInOrder(s: seq<Event>, now: Tick, script: Script, n: nat)
    requires IsHeap(s)
    requires var d := Iterate(s, now, script, n).1;
             forall i, j :: 0 <= i < |d| && 0 <= j < |script(i)| && script(i)[j].Push? ==>
               !Precedes(script(i)[j].e, d[i])
    ensures var (q, d) := Iterate(s, now, script, n);
            && InDispatchOrder(d) && (forall i, j :: 0 <= i < j < |d| ==> !Precedes(d[j], d[i]))
            && forall i :: 0 <= i < |d| ==> AllAfter(q, d[i])
  {
    hide Popped, ApplyAll;
    if n != 0 {
      var (q, d) := Iterate(s, now, script, n - 1);
      var (q', d') := Iterate(s, now, script, n);
      assert forall i :: 0 <= i < |d| ==> d[i] == d'[i];
      DeliveredInOrder(s, now, script, n - 1);
      IterateHeap(s, now, script, n - 1);
      if !Quiet(q, now) {
        NextInOrder(q, now, script(|d|), d);
      }
    }
  }

  lemma NextInOrder(q: seq<Event>, now: Tick, actions: seq<Action>, d: seq<Event>)
    requires IsHeap(q) && !Quiet(q, now) && Forward(actions, q[0])
    requires InDispatchOrder(d) && forall i :: 0 <= i < |d| ==> AllAfter(q, d[i])
    ensures InDispatchOrder(d + [q[0]])
    ensures forall i :: 0 <= i < |d + [q[0]]| ==> AllAfter(ApplyAll(Popped(q), actions), (d + [q[0]])[i])
  {
    PoppedHeap(q);
    assert q[0] in multiset(q);
    forall f | f in multiset(q) ensures !Precedes(f, q[0]) {
      var i :| 0 <= i < |q| && q[i] == f;
      RootIsFirst(q, i);
    }
    ActionsStayAfter(Popped(q), actions, q[0]);
  }

  const NoCallbacks: Script := (_: nat) => []

  /** Without callbacks a completed dispatch delivers exactly the due events, sorted. */
  lemma CallbackFreeDispatch(s: seq<Event>, now: Tick, q: seq<Event>, d: seq<Event>)
    requires IsHeap(s) && Completes(s, now, NoCallbacks, q, d)
    ensures forall i, j :: 0 <= i < j < |d| ==> !Precedes(d[j], d[i])
    ensures multiset(d) == multiset(DueEvents(s, now))
    ensures multiset(q) == multiset(s) - multiset(DueEvents(s, now))
  {
    hide Popped, ApplyAll;
    DeliveredInOrder(s, now, NoCallbacks, |d|);
    DispatchConserves(s, now, NoCallbacks, |d|);
    NoTraffic(s, now, |d|);
    var (added, taken) := Traffic(s, now, NoCallbacks, |d|);
    assert multiset(added) == multiset(taken) == multiset{};
    assert Balanced(multiset(s), added, multiset(d) + multiset(q), taken);
    assert multiset(s) == multiset(s) + multiset{};
    assert multiset(d) + multiset(q) == multiset(s);
    forall e | e in multiset(q) ensures now < e.time {
      NothingDueLeft(s, now, NoCallbacks, q, d, e);
    }
    forall e | e in multiset(d) ensures e.time <= now {
      var k :| 0 <= k < |d| && d[k] == e;
      DeliveredFirstAndDue(s, now, NoCallbacks, |d|, k);
    }
    SplitByTime(s, now, multiset(d), multiset(q));
  }

  lemma SplitByTime(s: seq<Event>, now: Tick, due: multiset<Event>, rest: multiset<Event>)
    requires due + rest == multiset(s)
    requires forall e :: e in rest ==> now < e.time
    requires forall e :: e in due ==> e.time <= now
    ensures due == multiset(DueEvents(s, now))
    ensures rest == multiset(s) - due
  {
    DueIsFilter(s, now);
    forall e ensures due[e] == multiset(DueEvents(s, now))[e] {
      assert due[e] + rest[e] == multiset(s)[e];
    }
  }

  lemma {:induction false} NoTraffic(s: seq<Event>, now: Tick, n: nat)
    ensures Traffic(s, now, NoCallbacks, n) == ([], [])
  {
    hide Popped, ApplyAll;
    if n != 0 {
      NoTraffic(s, now, n - 1);
    }
  }

  // ---------- Splitting a dispatch in time ----------

  /** The part of a script that is left after n deliveries. */
  function After(script: Script, n: nat): Script {
    (k: nat) => script(n + k)
  }

  lemma {:induction false} IterateConcat(s: seq<Event>, now: Tick, script: Script, n: nat, m: nat)
    requires |Iterate(s, now, script, n).1| == n
    ensures var (q, d) := Iterate(s, now, script, n);
            var (q', d') := Iterate(q, now, After(script, n), m);
            Iterate(s, now, script, n + m) == (q', d + d')
    decreases m
  {
    hide Popped, ApplyAll;
    var (q, d) := Iterate(s, now, script, n);
    if m == 0 {
      assert d + [] == d;
    } else {
      IterateConcat(s, now, script, n, m - 1);
      var (q', d') := Iterate(q, now, After(script, n), m - 1);
      if !Quiet(q', now) {
        assert d + (d' + [q'[0]]) == (d + d') + [q'[0]];
        assert |d + d'| == n + |d'|;
      }
    }
  }

  lemma {:induction false} LaterDispatchAgrees(s: seq<Event>, t1: Tick, t2: Tick, script: Script, n: nat)
    requires t1 <= t2
    requires |Iterate(s, t1, script, n).1| == n
    ensures Iterate(s, t2, script, n) == Iterate(s, t1, script, n)
  {
    hide Popped, ApplyAll;
    if n != 0 {
      assert |Iterate(s, t1, script, n - 1).1| == n - 1;
      LaterDispatchAgrees(s, t1, t2, script, n - 1);
    }
  }

  /** Dispatching up to t1 and then up to t2 delivers the same events in the same order, and leaves
      the same queue, as dispatching up to t2 at once - also when callbacks change the queue. */
  lemma DispatchSplits(s: seq<Event>, t1: Tick, t2: Tick, script: Script,
                       q1: seq<Event>, d1: seq<Event>, q2: seq<Event>, d2: seq<Event>)
    requires t1 <= t2
    requires Completes(s, t1, script, q1, d1)
    requires Completes(q1, t2, After(script, |d1|), q2, d2)
    ensures Completes(s, t2, script, q2, d1 + d2)
  {
    hide Popped, ApplyAll;
    LaterDispatchAgrees(s, t1, t2, script, |d1|);
    IterateConcat(s, t2, script, |d1|, |d2|);
  }

  lemma {:induction false} QuietStays(s: seq<Event>, now: Tick, script: Script, n: nat, m: nat)
    requires Quiet(Iterate(s, now, script, n).0, now)
    ensures Iterate(s, now, script, n + m) == Iterate(s, now, script, n)
    decreases m
  {
    hide Popped, ApplyAll;
    if m != 0 {
      QuietStays(s, now, script, n, m - 1);
    }
  }

  /** The outcome of a dispatch is determined by the queue, the tick and the callbacks. */
  lemma CompletesOnce(s: seq<Event>, now: Tick, script: Script,
                      q1: seq<Event>, d1: seq<Event>, q2: seq<Event>, d2: seq<Event>)
    requires Completes(s, now, script, q1, d1) && Completes(s, now, script, q2, d2)
    ensures q1 == q2 && d1 == d2
  {
    hide Popped, ApplyAll;
    if |d1| <= |d2| {
      QuietStays(s, now, script, |d1|, |d2| - |d1|);
    } else {
      QuietStays(s, now, script, |d2|, |d1| - |d2|);
    }
  }
}
