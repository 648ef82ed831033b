/** What the LADSPA protocol guarantees over every run. */
module LadspaSafety {
  import opened LadspaGraph
  import opened LadspaRuns
  import opened LadspaOwnership
  import opened LadspaProtocol

  lemma InitialInv(inPlace: bool)
    ensures Inv(Initial(inPlace))
  {
  }

  /** A state some interleaving of API calls and render calls leads to, in either build. */
  ghost predicate Reachable(s: State) {
    exists inPlace, steps :: LeadsTo(inPlace, steps, s)
  }

  ghost predicate LeadsTo(inPlace: bool, steps: seq<Step>, s: State) {
    InitialInv(inPlace);
    IsRun(Initial(inPlace), steps) && Final(Initial(inPlace), steps) == s
  }

  lemma ReachableInv(s: State)
    requires Reachable(s)
    ensures Inv(s)
  {
    var inPlace, steps :| LeadsTo(inPlace, steps, s);
    InitialInv(inPlace);
    FinalInv(Initial(inPlace), steps);
  }

  // ---------- Safety ----------

  /** Lists, links, counters and activation change only while the engine is inactive and the render
      thread is not walking them. */
  lemma ChangesOnlyWhileInactive(s: State, step: Step)
    requires Reachable(s) && Enabled(s, step)
    ensures Inv(s)
    ensures !SameShape(s.g, Next(s, step).g) ==>
              s.phase == Inactive && Next(s, step).phase == Inactive && !InRun(s.render)
  {
    ReachableInv(s);
    hide Inv, WellFormed, SameShape, NextApi, NextRender;
    SameShapeReflexive(s.g);
    if step == ApiStep {
      ApiChangesOnlyWhileInactive(s);
    } else if step == RenderStep {
      RenderChangesNothing(s);
    }
  }

  lemma RenderChangesNothing(s: State)
    requires Inv(s) && Enabled(s, RenderStep)
    ensures Next(s, RenderStep).g == s.g
  {
    hide WellFormed, Inv;
  }

  lemma ApiChangesOnlyWhileInactive(s: State)
    requires Inv(s) && Enabled(s, ApiStep)
    ensures !SameShape(s.g, Next(s, ApiStep).g) ==>
              s.phase == Inactive && Next(s, ApiStep).phase == Inactive && !InRun(s.render)
  {
    SameShapeReflexive(s.g);
    assert WellFormed(s.g) && ApiInv(s);
    assert (NeedsInactive(s.api) ==> s.phase == Inactive) && (s.phase == Running <==> InRun(s.render));
    assert !s.api.RollBack?;
    hide Inv, WellFormed, Checked, SameShape, Apply, Cleared, EffectsAre, WillBroadcast, InRun;
    if s.api.Entered? && s.api.call.Tune? {
      TuneKeepsShape(s.g, s.api.call.op);
    } else {
      hide ApiInv;
    }
  }

  /** The graph a run walks is the graph it found when it entered RUNNING, so the list position
      never leaves the lists. */
  lemma WalkIsStable(s: State)
    requires Reachable(s) && s.render.Walking?
    ensures s.phase == Running && SameShape(s.render.seen, s.g) && s.render.i <= WalkLength(s.render.seen)
  {
    ReachableInv(s);
    SameShapeWalk(s.render.seen, s.g);
  }

  /** The exchanges at the end of activate and at the end of run always succeed. */
  lemma ExchangesSucceed(s: State)
    requires Reachable(s)
    ensures !s.api.RollBack? && s.render != LogError
    ensures s.api == Exchange ==> s.phase == Inactive
    ensures s.render == TryActive ==> s.phase == Running
  {
    ReachableInv(s);
  }

  /** While the engine is active or running, the graph passes all checks and every effect is on. */
  lemma ActiveMeansChecked(s: State)
    requires Reachable(s) && s.phase != Inactive
    ensures Checked(s.g) && forall k :: 0 <= k < |s.g.effects| ==> s.g.effects[k].active
  {
    ReachableInv(s);
  }

  /** deactivate returns only when the engine is inactive and every effect is off. */
  lemma DeactivateSucceeds(s: State)
    requires Reachable(s) && s.api == ClearPending
    ensures s.phase == Inactive && forall k :: 0 <= k < |s.g.effects| ==> !s.g.effects[k].active
    ensures WellFormed(s.g) && Next(s, ApiStep).phase == Inactive && !Next(s, ApiStep).pending
  {
    ReachableInv(s);
  }

  // ---------- The graph under the protocol ----------

  /** Switching effect i when the ones before it are switched already. */
  lemma SwitchIsOp(g: Graph, i: nat, on: bool)
    requires WellFormed(g) && i < |g.effects| && EffectsAre(g, i, on)
    ensures g.(effects := g.effects[i := g.effects[i].(active := on)]) == Apply(g, SwitchEffects(i + 1, on)).0
  {
    hide WellFormed;
    assert g.effects[i := g.effects[i].(active := on)] == SetActive(g.effects, i + 1, on);
  }

  /** The graph operation a step amounts to, if it is one that changes the graph. */
  ghost function StepOps(s: State, step: Step): (ops: seq<GraphOp>)
    ensures |ops| <= 1
  {
    if step != ApiStep then []
    else match s.api
      case Entered(Tune(op)) => [op]
      case Changing(op) => [op]
      case Activating(i) => if i < |s.g.effects| then [SwitchEffects(i + 1, true)] else []
      case Deactivating(i) => if i < |s.g.effects| then [SwitchEffects(i + 1, false)] else []
      case Clearing => [Clear]
      case _ => []
  }

  lemma SwitchStepIsOp(s: State, i: nat, on: bool)
    requires WellFormed(s.g) && EffectsAre(s.g, i, on) && s.api == if on then Activating(i) else Deactivating(i)
    ensures var ops := StepOps(s, ApiStep); NextApi(s).g == if ops == [] then s.g else Apply(s.g, ops[0]).0
  {
    hide WellFormed, Apply;
    if i < |s.g.effects| {
      SwitchIsOp(s.g, i, on);
    }
  }

  lemma ClearIsOp(g: Graph)
    requires WellFormed(g)
    ensures Apply(g, Clear).0 == Cleared(g)
  {
    hide WellFormed, Cleared;
  }

  lemma ApiStepIsOp(s: State)
    requires WellFormed(s.g) && ApiInv(s)
    ensures var ops := StepOps(s, ApiStep); NextApi(s).g == if ops == [] then s.g else Apply(s.g, ops[0]).0
  {
    hide WellFormed, Apply, Cleared, Checked, EffectsAre, WillBroadcast, AllowedCall;
    if s.api.Activating? {
      SwitchStepIsOp(s, s.api.i, true);
    } else if s.api.Deactivating? {
      SwitchStepIsOp(s, s.api.i, false);
    } else {
      ClearIsOp(s.g);
    }
  }

  lemma StepIsOp(s: State, step: Step)
    requires Inv(s) && Enabled(s, step)
    ensures WellFormed(s.g)
    ensures var ops := StepOps(s, step); Next(s, step).g == if ops == [] then s.g else Apply(s.g, ops[0]).0
  {
    assert WellFormed(s.g) && ApiInv(s);
    hide Inv, WellFormed, ApiInv, Apply, NextApi, NextRender;
    if step == RenderStep {
      RenderChangesNothing(s);
    }
    if step == ApiStep {
      ApiStepIsOp(s);
    }
  }

  /** The graph operations of a run of the protocol, one after the other. */
  ghost function OpsOf(s: State, steps: seq<Step>): seq<GraphOp>
    requires Inv(s) && IsRun(s, steps)
    decreases |steps|
  {
    if steps == [] then []
    else StepKeepsInv(s, steps[0]); StepOps(s, steps[0]) + OpsOf(Next(s, steps[0]), steps[1..])
  }

  lemma {:induction false} RunPrefix(inPlace: bool, a: seq<GraphOp>, b: seq<GraphOp>, n: nat)
    requires n <= |a|
    ensures LadspaRuns.Run(inPlace, a + b, n) == LadspaRuns.Run(inPlace, a, n)
    decreases n
  {
    hide Apply, WellFormed;
    if n != 0 {
      RunPrefix(inPlace, a, b, n - 1);
    }
  }

  /** So the graph after any interleaving is the graph its operations make, one after the other. */
  lemma {:induction false} GraphIsRun(inPlace: bool, s: State, steps: seq<Step>, before: seq<GraphOp>)
    requires Inv(s) && IsRun(s, steps) && LadspaRuns.Run(inPlace, before, |before|) == s.g
    ensures var ops := before + OpsOf(s, steps); LadspaRuns.Run(inPlace, ops, |ops|) == Final(s, steps).g
    decreases |steps|
  {
    hide Inv, Next, Enabled, Apply, WellFormed, StepOps;
    if steps == [] {
      assert before + [] == before;
    } else {
      var op := StepOps(s, steps[0]);
      StepIsOp(s, steps[0]);
      StepKeepsInv(s, steps[0]);
      RunPrefix(inPlace, before, op, |before|);
      GraphIsRun(inPlace, Next(s, steps[0]), steps[1..], before + op);
      assert before + op + OpsOf(Next(s, steps[0]), steps[1..]) == before + OpsOf(s, steps);
    }
  }

  lemma GraphFromStart(inPlace: bool, steps: seq<Step>)
    requires Inv(Initial(inPlace)) && IsRun(Initial(inPlace), steps)
    ensures var ops := OpsOf(Initial(inPlace), steps);
            LadspaRuns.Run(inPlace, ops, |ops|) == Final(Initial(inPlace), steps).g
  {
    var ops := OpsOf(Initial(inPlace), steps);
    assert LadspaRuns.Run(inPlace, [], 0) == Initial(inPlace).g;
    hide Inv, IsRun, OpsOf, LadspaRuns.Run, Final;
    GraphIsRun(inPlace, Initial(inPlace), steps, []);
    assert [] + ops == ops;
  }

  /** While audio runs, and if no port was linked twice since the last reset, some effect really writes to a
      host node, and every user buffer really has a writer and a reader. */
  lemma ActiveMeansConnected(inPlace: bool, steps: seq<Step>)
    requires Inv(Initial(inPlace)) && IsRun(Initial(inPlace), steps)
    requires var ops := OpsOf(Initial(inPlace), steps); NeverRelinked(inPlace, ops, |ops|)
    ensures var s := Final(Initial(inPlace), steps);
            s.phase != Inactive ==>
              && (exists id :: id in s.g.hosts && HasLink(s.g, id, false))
              && forall id :: id in s.g.users ==> HasLink(s.g, id, false) && HasLink(s.g, id, true)
  {
    var ops := OpsOf(Initial(inPlace), steps);
    GraphFromStart(inPlace, steps);
    var s := Final(Initial(inPlace), steps);
    hide Inv, IsRun, OpsOf, NeverRelinked;
    if s.phase != Inactive {
      assert LeadsTo(inPlace, steps, s);
      ActiveMeansChecked(s);
      CheckedMeansConnected(inPlace, ops, |ops|);
    }
  }

  /** The last step of a reset: the engine is inactive, no effects and user nodes are left, host nodes
      have no links, and all memory but theirs and that of nodes without an owner is given back. */
  lemma ResetCompletes(s: State)
    requires Reachable(s) && s.api == Clearing
    ensures WellFormed(s.g) && Enabled(s, ApiStep)
    ensures var t := Next(s, ApiStep);
            && t.phase == Inactive && t.api == Outside && !InRun(t.render)
            && t.g.effects == [] && t.g.users == [] && t.g.hosts == s.g.hosts
            && t.g.nodes.Keys == (set id | id in t.g.hosts) + Orphans(s.g)
            && forall id :: id in t.g.hosts ==> t.g.nodes[id].numInputs == 0 && t.g.nodes[id].numOutputs == 0
  {
    ReachableInv(s);
    assert s.phase == Inactive;
    hide Inv, WellFormed, Cleared;
    ClearedMemory(s.g);
  }

  // ---------- No lost wakeup ----------

  /** Whoever sleeps in deactivate is going to be woken: the render thread is between entering
      RUNNING and its broadcast, and each of its steps stays there or wakes the sleeper. */
  lemma NoLostWakeup(s: State)
    requires Reachable(s) && s.api == Asleep
    ensures s.pending && WillBroadcast(s.render) && Enabled(s, RenderStep)
    ensures WellFormed(s.g)
    ensures var t := Next(s, RenderStep);
            (t.api == Asleep && WillBroadcast(t.render)) || (t.api == Relock && t.signalled)
  {
    ReachableInv(s);
    hide WellFormed, Checked, SameShape;
  }

  /** Once the pending flag is set at most one more run enters RUNNING, and, spurious wakeups aside,
      deactivate waits at most once. */
  lemma WaitsAtMostOnce(s: State)
    requires Reachable(s) && s.pending
    ensures s.entries <= 1
    ensures s.sleeps <= s.spurious + 1
  {
    ReachableInv(s);
  }

  // ---------- Deactivation makes progress ----------

  function RenderRank(s: State): nat {
    match s.render
    case Idle => 0
    case UnlockRun => 1
    case Broadcast => 2
    case LockRun => 3
    case ReadPending => 4
    case LogError => 5
    case TryActive => 6
    case Walking(i, seen) => 7 + if i <= WalkLength(s.g) then WalkLength(s.g) - i else 0
    case TryRunning => 8 + WalkLength(s.g)
    case ReadEffects => 9 + WalkLength(s.g)
  }

  function ApiRank(s: State): nat {
    var n := |s.g.effects|;
    match s.api
    case ClearPending => 1
    case Deactivating(i) => 2 + if i <= n then n - i else 0
    case Unlock => 3 + n
    case Asleep => 4 + n
    case Sleep => 5 + n
    case TryInactive => 6 + n
    case Relock => 7 + n
    case Lock => 7 + n
    case _ => 0
  }

  /** A bound on the steps a deactivation still takes. */
  function Rank(s: State): nat {
    4 * RenderRank(s) + ApiRank(s)
  }

  /** A step of the API thread or of a render call that is already under way. */
  predicate Effective(step: Step) {
    step == ApiStep || step == RenderStep
  }

  /** A deactivation that was announced can always go on: some effective step is enabled. */
  lemma DeactivateNeverStuck(s: State)
    requires Reachable(s) && s.pending
    ensures Enabled(s, ApiStep) || Enabled(s, RenderStep)
  {
    ReachableInv(s);
  }

  /** The list lengths stay while a deactivation is under way. */
  lemma PendingKeepsLengths(s: State)
    requires Inv(s) && s.pending && s.api != Asleep
    ensures Announced(s.api)
    ensures var t := NextApi(s);
            t.render == s.render && WalkLength(t.g) == WalkLength(s.g) && |t.g.effects| == |s.g.effects|
  {
    assert PhaseInv(s);
    hide Inv, WellFormed, Checked, SameShape, PhaseInv;
  }

  lemma SameRenderRank(s: State, t: State)
    requires t.render == s.render && WalkLength(t.g) == WalkLength(s.g)
    ensures RenderRank(t) == RenderRank(s)
  {
  }

  lemma ApiStepRank(s: State)
    requires Inv(s) && s.pending && Enabled(s, ApiStep)
    ensures Next(s, ApiStep).pending ==> Rank(Next(s, ApiStep)) < Rank(s)
  {
    PendingKeepsLengths(s);
    if s.api.Deactivating? {
      DeactivatingInRange(s);
    }
    SameRenderRank(s, NextApi(s));
    hide Inv, WellFormed, WalkLength, RenderRank;
  }

  lemma DeactivatingInRange(s: State)
    requires Inv(s) && s.api.Deactivating?
    ensures s.api.i <= |s.g.effects|
  {
  }

  lemma RenderRankDrops(s: State)
    requires s.render != Idle && (s.render.Walking? ==> s.render.i <= WalkLength(s.g))
    ensures RenderRank(NextRender(s)) < RenderRank(s)
  {
    hide WalkLength;
  }

  lemma ApiRankBounded(s: State)
    ensures ApiRank(NextRender(s)) <= ApiRank(s) + 3
  {
  }

  lemma RenderStepRank(s: State)
    requires Inv(s) && s.pending && Enabled(s, RenderStep)
    ensures Rank(Next(s, RenderStep)) < Rank(s)
  {
    if s.render.Walking? {
      WalkingInRange(s);
    }
    hide Inv, WellFormed, WalkLength, ApiRank, RenderRank, NextRender;
    RenderRankDrops(s);
    ApiRankBounded(s);
  }

  lemma WalkingInRange(s: State)
    requires Inv(s) && s.render.Walking?
    ensures s.render.i <= WalkLength(s.g)
  {
  }

  lemma StepRank(s: State, step: Step)
    requires Inv(s) && s.pending && Enabled(s, step)
    ensures WellFormed(s.g)
    ensures Next(s, step).pending ==>
              Rank(Next(s, step)) + (if Effective(step) then 1 else 0)
                <= Rank(s) + (if step == SpuriousWakeup then 3 else 0)
  {
    assert WellFormed(s.g);
    PendingInside(s);
    hide WellFormed, Inv, NextApi, NextRender;
    match step
    case Call(call) =>
    case ApiStep => ApiStepRank(s);
    case SpuriousWakeup =>
    case RunCall =>
    case RenderStep => RenderStepRank(s);
  }

  lemma PendingInside(s: State)
    requires Inv(s) && s.pending
    ensures s.api != Outside
  {
  }

  function CountEffective(steps: seq<Step>): nat {
    if steps == [] then 0 else CountEffective(steps[1..]) + if Effective(steps[0]) then 1 else 0
  }

  function CountSpurious(steps: seq<Step>): nat {
    if steps == [] then 0 else CountSpurious(steps[1..]) + if steps[0] == SpuriousWakeup then 1 else 0
  }

  /** The deactivation goes on throughout the run. */
  ghost predicate PendingThroughout(s: State, steps: seq<Step>)
    requires Inv(s) && IsRun(s, steps)
    decreases |steps|
  {
    s.pending && (steps != [] ==> (StepKeepsInv(s, steps[0]); PendingThroughout(Next(s, steps[0]), steps[1..])))
  }

  lemma {:induction false} PendingAtEnd(s: State, steps: seq<Step>, k: nat)
    requires Inv(s) && IsRun(s, steps) && k <= |steps|
    ensures IsRun(s, steps[..k])
    ensures PendingThroughout(s, steps) ==> Final(s, steps[..k]).pending
    decreases |steps|
  {
    assert WellFormed(s.g);
    hide Inv, Next, Enabled, WellFormed;
    if k != 0 {
      StepKeepsInv(s, steps[0]);
      assert steps[..k][1..] == steps[1..][..k - 1];
      PendingAtEnd(Next(s, steps[0]), steps[1..], k - 1);
    }
  }

  /** That is, the flag is set after any number of the steps. */
  lemma {:induction false} PendingThroughoutMeans(s: State, steps: seq<Step>)
    requires Inv(s) && IsRun(s, steps)
    ensures PendingThroughout(s, steps) <==>
            forall k :: 0 <= k <= |steps| ==> IsRun(s, steps[..k]) && Final(s, steps[..k]).pending
    decreases |steps|
  {
    assert WellFormed(s.g);
    hide Inv, Next, Enabled, WellFormed;
    forall k | 0 <= k <= |steps|
      ensures IsRun(s, steps[..k])
      ensures PendingThroughout(s, steps) ==> Final(s, steps[..k]).pending
    {
      PendingAtEnd(s, steps, k);
    }
    if forall k :: 0 <= k <= |steps| ==> IsRun(s, steps[..k]) && Final(s, steps[..k]).pending {
      assert Final(s, steps[..0]).pending;
      if steps != [] {
        StepKeepsInv(s, steps[0]);
        var t, rest := Next(s, steps[0]), steps[1..];
        PendingThroughoutMeans(t, rest);
        forall k | 0 <= k <= |rest| ensures IsRun(t, rest[..k]) && Final(t, rest[..k]).pending {
          assert steps[..k + 1][1..] == rest[..k];
          assert IsRun(s, steps[..k + 1]) && Final(s, steps[..k + 1]).pending;
        }
      }
    }
  }

  /** So it ends: however the render thread is called and however the threads interleave, it takes
      no more effective steps than its rank, and three more for each spurious wakeup. */
  lemma {:induction false} DeactivateTerminates(s: State, steps: seq<Step>)
    requires Inv(s) && IsRun(s, steps) && PendingThroughout(s, steps)
    ensures CountEffective(steps) <= Rank(s) + 3 * CountSpurious(steps)
    decreases |steps|
  {
    hide Inv, Rank, Next, Enabled, WellFormed;
    if steps != [] {
      StepKeepsInv(s, steps[0]);
      StepRank(s, steps[0]);
      DeactivateTerminates(Next(s, steps[0]), steps[1..]);
    }
  }
}
