/** What a call into the LADSPA engine achieves, however its steps and those of the render thread interleave:
    the same as if it were a single step. And that calls return, and that audio does run. */
module LadspaCalls {
  import opened Options
  import opened LadspaGraph
  import opened LadspaRuns
  import opened LadspaOwnership
  import opened LadspaBuffers
  import opened LadspaProtocol
  import opened LadspaSafety

  function Switched(g: Graph, on: bool): Graph {
    g.(effects := SetActive(g.effects, |g.effects|, on))
  }

  // ---------- Calls are atomic ----------

  /** The effect of a call as one step: the graph it leaves, and whether the engine is inactive then. */
  ghost function Sequential(call: Call, g: Graph, inactive: bool): (Graph, bool)
    requires WellFormed(g)
  {
    match call
    case Change(op) => if inactive then (Apply(g, op).0, true) else (g, false)
    case Tune(op) => (Apply(g, op).0, inactive)
    case Activate => if inactive && Checked(g) then (Switched(g, true), false) else (g, inactive)
    case Deactivate => if inactive then (g, true) else (Switched(g, false), true)
    case Reset => (Cleared(g), true)
    case NewRate => if inactive then (g, true) else (Cleared(g), true)
  }

  /** What the call under way is going to leave. */
  ghost function Expected(s: State): (Graph, bool)
    requires WellFormed(s.g)
  {
    match s.api
    case Outside => (s.g, s.phase == Inactive)
    case Entered(call) => Sequential(call, s.g, s.phase == Inactive)
    case Changing(op) => (Apply(s.g, op).0, true)
    case Checking => if Checked(s.g) then (Switched(s.g, true), false) else (s.g, true)
    case Activating(i) => (Switched(s.g, true), false)
    case Exchange => (s.g, false)
    case RollBack(i) => (s.g, true)
    case Clearing => (Cleared(s.g), true)
    case _ => (if s.resetting then Cleared(s.g) else Switched(s.g, false), true)
  }

  /** Only a deactivation on behalf of a reset remembers that. */
  predicate Tidy(s: State) {
    s.resetting ==>
      WantsInactive(s.api) || s.api.Unlock? || s.api.Deactivating? || s.api.ClearPending? || s.api.Clearing?
  }

  lemma ApiKeepsTidy(s: State)
    requires WellFormed(s.g) && Tidy(s)
    ensures Tidy(NextApi(s))
  {
    hide WellFormed, Checked, Apply, Cleared;
  }

  /** The other steps leave the graph alone, keep the engine inactive or not, and move no call on, but for
      waking it up. */
  lemma OtherSteps(s: State, step: Step)
    requires WellFormed(s.g) && Enabled(s, step) && step != ApiStep
    ensures var t := Next(s, step);
            && t.g == s.g && t.resetting == s.resetting && (t.phase == Inactive <==> s.phase == Inactive)
            && (t.api == s.api || (s.api == Asleep && t.api == Relock) || (s.api == Outside && t.api.Entered?))
  {
    hide WellFormed, NextApi;
  }

  lemma StepKeepsTidy(s: State, step: Step)
    requires WellFormed(s.g) && Tidy(s) && Enabled(s, step)
    ensures Tidy(Next(s, step))
  {
    if step == ApiStep {
      ApiKeepsTidy(s);
    } else {
      OtherSteps(s, step);
    }
    hide WellFormed, NextApi, NextRender;
  }

  lemma SwitchOne(g: Graph, i: nat, on: bool)
    requires i < |g.effects|
    ensures var h := g.(effects := g.effects[i := g.effects[i].(active := on)]);
            Switched(h, on) == Switched(g, on) && Cleared(h) == Cleared(g)
  {
    var h := g.(effects := g.effects[i := g.effects[i].(active := on)]);
    LinkedSame(g, h);
    assert ControlsOf(h) == ControlsOf(g);
  }

  lemma AllSwitched(g: Graph, on: bool)
    requires EffectsAre(g, |g.effects|, on)
    ensures Switched(g, on) == g
  {
    assert SetActive(g.effects, |g.effects|, on) == g.effects;
  }

  lemma EntryExpects(s: State)
    requires WellFormed(s.g) && Tidy(s) && s.api.Entered? && AllowedCall(s.api.call) && WellFormed(NextApi(s).g)
    ensures Expected(NextApi(s)) == Expected(s)
  {
    hide WellFormed, Checked, Apply, Cleared, SetActive;
  }

  lemma ActivatingExpects(s: State)
    requires WellFormed(s.g) && s.api.Activating? && EffectsAre(s.g, s.api.i, true) && WellFormed(NextApi(s).g)
    ensures Expected(NextApi(s)) == Expected(s)
  {
    hide WellFormed, Checked, Apply, Cleared, SetActive;
    if s.api.i < |s.g.effects| {
      SwitchOne(s.g, s.api.i, true);
    } else {
      AllSwitched(s.g, true);
    }
  }

  lemma DeactivatingExpects(s: State)
    requires WellFormed(s.g) && s.api.Deactivating? && WellFormed(NextApi(s).g)
    ensures Expected(NextApi(s)) == Expected(s)
  {
    hide WellFormed, Checked, Apply, Cleared, SetActive;
    if s.api.i < |s.g.effects| {
      SwitchOne(s.g, s.api.i, false);
    }
  }

  lemma WaitingExpects(s: State)
    requires WellFormed(s.g) && WellFormed(NextApi(s).g)
    requires WantsInactive(s.api) || s.api.Unlock?
    ensures Expected(NextApi(s)) == Expected(s)
  {
    hide WellFormed, Checked, Apply, Cleared, SetActive;
  }

  lemma EndingExpects(s: State)
    requires WellFormed(s.g) && s.phase == Inactive && WellFormed(NextApi(s).g)
    requires s.api.Changing? || s.api.Checking? || s.api.Exchange? || s.api.ClearPending? || s.api.Clearing?
    requires s.api.ClearPending? ==> EffectsAre(s.g, |s.g.effects|, false)
    ensures Expected(NextApi(s)) == Expected(s)
  {
    if s.api.ClearPending? {
      AllSwitched(s.g, false);
    }
    hide WellFormed, Checked, Apply, Cleared, SetActive;
  }

  lemma ApiStepExpects(s: State)
    requires Inv(s) && Tidy(s) && Enabled(s, ApiStep)
    ensures WellFormed(NextApi(s).g) && Expected(NextApi(s)) == Expected(s)
  {
    StepKeepsInv(s, ApiStep);
    assert ApiInv(s) && PhaseInv(s);
    PhaseOf(s);
    hide Inv, PhaseInv, WellFormed, Checked, Apply, Expected, NextApi, Next, Tidy, EffectsAre, AllowedCall;
    hide WillBroadcast;
    if s.api.Entered? {
      EntryExpects(s);
    } else if s.api.Activating? {
      ActivatingExpects(s);
    } else if s.api.Deactivating? {
      DeactivatingExpects(s);
    } else if WantsInactive(s.api) || s.api.Unlock? {
      WaitingExpects(s);
    } else {
      EndingExpects(s);
    }
  }

  lemma PhaseOf(s: State)
    requires PhaseInv(s)
    ensures NeedsInactive(s.api) ==> s.phase == Inactive
    ensures WantsInactive(s.api) ==> s.phase != Inactive
    ensures s.phase == Running <==> InRun(s.render)
  {
  }

  lemma StepExpects(s: State, step: Step)
    requires Inv(s) && Tidy(s) && Enabled(s, step) && s.api != Outside
    ensures WellFormed(Next(s, step).g) && Expected(Next(s, step)) == Expected(s)
  {
    StepKeepsInv(s, step);
    assert WellFormed(s.g) && WellFormed(Next(s, step).g);
    if step == ApiStep {
      ApiStepExpects(s);
    } else {
      OtherSteps(s, step);
      hide Inv, WellFormed, Checked, Apply, Cleared, SetActive, Next;
    }
  }

  /** The steps all happen while the call is under way. */
  ghost predicate InCall(s: State, steps: seq<Step>)
    requires Inv(s) && IsRun(s, steps)
    decreases |steps|
  {
    steps != [] ==> s.api != Outside && (StepKeepsInv(s, steps[0]); InCall(Next(s, steps[0]), steps[1..]))
  }

  lemma {:induction false} InCallBefore(s: State, steps: seq<Step>, k: nat)
    requires Inv(s) && IsRun(s, steps) && k <= |steps|
    ensures IsRun(s, steps[..k])
    ensures InCall(s, steps) && k < |steps| ==> Final(s, steps[..k]).api != Outside
    decreases |steps|
  {
    assert WellFormed(s.g);
    hide Inv, Next, Enabled, WellFormed;
    if k != 0 {
      StepKeepsInv(s, steps[0]);
      assert steps[..k][1..] == steps[1..][..k - 1];
      InCallBefore(Next(s, steps[0]), steps[1..], k - 1);
    }
  }

  /** That is, the call has not returned before the last of the steps. */
  lemma {:induction false} InCallMeans(s: State, steps: seq<Step>)
    requires Inv(s) && IsRun(s, steps)
    ensures InCall(s, steps) <==>
            forall k :: 0 <= k < |steps| ==> IsRun(s, steps[..k]) && Final(s, steps[..k]).api != Outside
    decreases |steps|
  {
    assert WellFormed(s.g);
    hide Inv, Next, Enabled, WellFormed;
    forall k | 0 <= k < |steps|
      ensures IsRun(s, steps[..k])
      ensures InCall(s, steps) ==> Final(s, steps[..k]).api != Outside
    {
      InCallBefore(s, steps, k);
    }
    if steps != [] && forall k :: 0 <= k < |steps| ==> IsRun(s, steps[..k]) && Final(s, steps[..k]).api != Outside {
      assert Final(s, steps[..0]).api != Outside;
      StepKeepsInv(s, steps[0]);
      var t, rest := Next(s, steps[0]), steps[1..];
      InCallMeans(t, rest);
      forall k | 0 <= k < |rest| ensures IsRun(t, rest[..k]) && Final(t, rest[..k]).api != Outside {
        assert steps[..k + 1][1..] == rest[..k];
        assert IsRun(s, steps[..k + 1]) && Final(s, steps[..k + 1]).api != Outside;
      }
    }
  }

  lemma {:induction false} RunExpects(s: State, steps: seq<Step>)
    requires Inv(s) && Tidy(s) && IsRun(s, steps) && InCall(s, steps)
    ensures Inv(Final(s, steps)) && Tidy(Final(s, steps))
    ensures Expected(Final(s, steps)) == Expected(s)
    decreases |steps|
  {
    assert WellFormed(s.g);
    hide Inv, Tidy, Next, Enabled, Expected, WellFormed;
    if steps != [] {
      StepKeepsInv(s, steps[0]);
      StepKeepsTidy(s, steps[0]);
      StepExpects(s, steps[0]);
      RunExpects(Next(s, steps[0]), steps[1..]);
    }
  }

  lemma {:induction false} FinalTidy(s: State, steps: seq<Step>)
    requires Inv(s) && Tidy(s) && IsRun(s, steps)
    ensures Tidy(Final(s, steps))
    decreases |steps|
  {
    assert WellFormed(s.g);
    hide Inv, Tidy, Next, Enabled, WellFormed;
    if steps != [] {
      StepKeepsInv(s, steps[0]);
      StepKeepsTidy(s, steps[0]);
      FinalTidy(Next(s, steps[0]), steps[1..]);
    }
  }

  lemma ReachableTidy(s: State)
    requires Reachable(s)
    ensures Inv(s) && Tidy(s)
  {
    ReachableInv(s);
    var inPlace, steps :| LeadsTo(inPlace, steps, s);
    InitialInv(inPlace);
    FinalTidy(Initial(inPlace), steps);
  }

  /** When a call returns, the graph and the phase are what the call as a single step makes of those it
      found, whatever the render thread did meanwhile. */
  lemma CallIsAtomic(s: State, call: Call, steps: seq<Step>)
    requires Reachable(s) && s.api == Entered(call)
    requires Inv(s) && IsRun(s, steps) && InCall(s, steps) && Final(s, steps).api == Outside
    ensures var t := Final(s, steps); (t.g, t.phase == Inactive) == Sequential(call, s.g, s.phase == Inactive)
  {
    ReachableTidy(s);
    RunExpects(s, steps);
    hide Inv, WellFormed, IsRun, InCall, Final, Reachable;
  }

  // ---------- Calls return ----------

  /** Steps the call under way still takes, if it has not got to wait. */
  function Left(s: State): nat {
    var n := |s.g.effects|;
    match s.api
    case Entered(call) => 8 + n
    case SetPending => 7 + n
    case Lock => 6 + n
    case Relock => 6 + n
    case TryInactive => 5 + n
    case Unlock => 4 + n
    case Deactivating(i) => 3 + if i <= n then n - i else 0
    case ClearPending => 2
    case Clearing => 1
    case Changing(op) => 1
    case Checking => 3 + n
    case Activating(i) => 2 + if i <= n then n - i else 0
    case Exchange => 1
    case _ => 0
  }

  /** The call needs not wait: the engine is inactive, or no run is under way. */
  predicate NoWait(s: State) {
    s.phase == Inactive || s.render == Idle
  }

  lemma LeftDrops(s: State)
    requires Inv(s) && NoWait(s) && s.api != Outside
    ensures Enabled(s, ApiStep) && WellFormed(s.g) && Left(NextApi(s)) < Left(s)
    ensures NextApi(s).api != Outside ==> NoWait(NextApi(s))
    ensures NextApi(s).render == s.render
  {
    assert ApiInv(s) && PhaseInv(s) && LockInv(s);
    PhaseOf(s);
    hide Inv, PhaseInv, WellFormed, Checked, NextApi, Left;
    assert s.api.Activating? || s.api.Deactivating? ==> s.api.i <= |s.g.effects|;
    assert s.api != Sleep && s.api != Asleep && !s.api.RollBack?;
    assert s.api.TryInactive? ==> s.phase == Active;
    assert s.api == Lock || s.api == Relock ==> s.lock == Nobody;
    LeftAfter(s);
    NoWaitStays(s);
  }

  lemma LeftAfter(s: State)
    requires WellFormed(s.g) && s.api != Outside && s.api != Sleep && s.api != Asleep && !s.api.RollBack?
    requires s.api.Activating? || s.api.Deactivating? ==> s.api.i <= |s.g.effects|
    requires s.api.TryInactive? ==> s.phase == Active
    requires s.api.Exchange? ==> s.phase == Inactive
    ensures Left(NextApi(s)) < Left(s)
  {
    hide WellFormed, Checked, Apply, Cleared;
  }

  lemma ApiKeepsRender(s: State)
    requires WellFormed(s.g)
    ensures NextApi(s).render == s.render
  {
    hide WellFormed, Checked, Apply, Cleared;
  }

  lemma ApiKeepsInactive(s: State)
    requires WellFormed(s.g) && s.phase == Inactive && NextApi(s).api != Outside
    ensures NextApi(s).phase == Inactive
  {
    hide WellFormed, Checked, Apply, Cleared;
  }

  lemma NoWaitStays(s: State)
    requires WellFormed(s.g) && NoWait(s)
    ensures NextApi(s).api != Outside ==> NoWait(NextApi(s))
    ensures NextApi(s).render == s.render
  {
    hide WellFormed, NextApi;
    ApiKeepsRender(s);
    if s.phase == Inactive && NextApi(s).api != Outside {
      ApiKeepsInactive(s);
    }
  }

  function ApiSteps(n: nat): seq<Step> {
    seq(n, _ => ApiStep)
  }

  /** Then the API thread alone returns from the call. */
  lemma {:induction false} CallReturns(s: State) returns (n: nat)
    requires Inv(s) && NoWait(s)
    ensures n <= Left(s) <= 8 + |s.g.effects|
    ensures IsRun(s, ApiSteps(n)) && InCall(s, ApiSteps(n))
    ensures Final(s, ApiSteps(n)).api == Outside && Final(s, ApiSteps(n)).render == s.render
    decreases Left(s)
  {
    if s.api == Outside {
      n := 0;
    } else {
      LeftDrops(s);
      StepKeepsInv(s, ApiStep);
      LeftBound(s);
      hide Inv, Enabled, NextApi, WellFormed, Left, NoWait;
      var t := NextApi(s);
      if t.api == Outside {
        n := 1;
        assert ApiSteps(1)[1..] == [];
      } else {
        var m := CallReturns(t);
        n := m + 1;
        assert ApiSteps(n)[1..] == ApiSteps(m);
      }
    }
  }

  lemma LeftBound(s: State)
    ensures Left(s) <= 8 + |s.g.effects|
  {
  }

  // ---------- Activation ----------

  /** However it interleaves, activating an inactive engine ends active, with every effect on and nothing else
      changed, exactly if the graph passes the four checks. Otherwise nothing changes. */
  lemma ActivationOutcome(s: State, steps: seq<Step>)
    requires Reachable(s) && s.api == Entered(Activate) && s.phase == Inactive
    requires Inv(s) && IsRun(s, steps) && InCall(s, steps) && Final(s, steps).api == Outside
    ensures WellFormed(s.g)
    ensures var t := Final(s, steps);
            && (t.phase != Inactive <==>
                  && s.g.effects != []
                  && (forall e, p :: 0 <= e < |s.g.effects| && 0 <= p < |s.g.effects[e].links| ==>
                        s.g.effects[e].links[p].Some?)
                  && (forall e, i, k :: 0 <= e < |s.g.effects| ==> !Clash(s.g, s.g.effects[e], i, k))
                  && (exists id :: id in s.g.hosts && s.g.nodes[id].numInputs > 0)
                  && (forall id :: id in s.g.users ==> s.g.nodes[id].numInputs > 0 && s.g.nodes[id].numOutputs > 0))
            && (t.phase != Inactive ==>
                  && t.g == s.g.(effects := t.g.effects) && |t.g.effects| == |s.g.effects|
                  && forall k :: 0 <= k < |s.g.effects| ==> t.g.effects[k] == s.g.effects[k].(active := true))
            && (t.phase == Inactive ==> t.g == s.g)
  {
    CallIsAtomic(s, Activate, steps);
    assert WellFormed(s.g);
    CheckedMeans(s.g);
    hide Inv, WellFormed, IsRun, InCall, Final, Reachable, Checked, Clash;
  }

  /** And it returns after at most as many steps as there are effects, and eight more, from any state. */
  lemma ActivationReturns(s: State) returns (n: nat)
    requires Reachable(s) && s.api == Entered(Activate) && s.phase == Inactive
    ensures Inv(s) && n <= |s.g.effects| + 8 && IsRun(s, ApiSteps(n)) && InCall(s, ApiSteps(n))
    ensures var t := Final(s, ApiSteps(n));
            t.api == Outside && t.render == s.render && t.phase == if Checked(s.g) then Active else Inactive
  {
    ReachableInv(s);
    n := CallReturns(s);
    CallIsAtomic(s, Activate, ApiSteps(n));
    FinalInv(s, ApiSteps(n));
    assert PhaseInv(s);
    PhaseOf(s);
    var t := Final(s, ApiSteps(n));
    assert PhaseInv(t);
    PhaseOf(t);
    hide Inv, PhaseInv, WellFormed, IsRun, InCall, Final, Reachable, Checked;
  }

  // ---------- The other calls ----------

  /** Deactivating ends inactive, with every effect off if it was not so before, and nothing else changed. */
  lemma DeactivationOutcome(s: State, steps: seq<Step>)
    requires Reachable(s) && s.api == Entered(Deactivate)
    requires Inv(s) && IsRun(s, steps) && InCall(s, steps) && Final(s, steps).api == Outside
    ensures var t := Final(s, steps);
            && t.phase == Inactive && t.g == s.g.(effects := t.g.effects) && |t.g.effects| == |s.g.effects|
            && forall k :: 0 <= k < |s.g.effects| ==>
                 t.g.effects[k] == if s.phase == Inactive then s.g.effects[k] else s.g.effects[k].(active := false)
  {
    CallIsAtomic(s, Deactivate, steps);
    hide Inv, WellFormed, IsRun, InCall, Final, Reachable;
  }

  /** Resetting, and changing the sample rate of an engine that is not inactive, end inactive with no effects
      and user nodes, and with the host nodes there were, without links. */
  lemma ResetOutcome(s: State, steps: seq<Step>)
    requires Reachable(s) && (s.api == Entered(Reset) || (s.api == Entered(NewRate) && s.phase != Inactive))
    requires Inv(s) && IsRun(s, steps) && InCall(s, steps) && Final(s, steps).api == Outside
    ensures WellFormed(s.g)
    ensures var t := Final(s, steps);
            && t.phase == Inactive && t.g.effects == [] && t.g.users == [] && t.g.hosts == s.g.hosts
            && t.g.nodes.Keys == (set id | id in s.g.hosts) + Orphans(s.g)
            && forall id :: id in s.g.hosts ==> t.g.nodes[id] == s.g.nodes[id].(numInputs := 0, numOutputs := 0)
  {
    CallIsAtomic(s, s.api.call, steps);
    assert WellFormed(s.g);
    hide Inv, WellFormed, IsRun, InCall, Final, Reachable, Cleared, Orphans;
    ClearedMemory(s.g);
  }

  /** Adding and linking are refused, without a change, unless the engine is inactive; setting controls and
      mixing is never refused for that. Neither changes whether the engine is inactive. */
  lemma OperationOutcome(s: State, op: GraphOp, steps: seq<Step>)
    requires Reachable(s) && (s.api == Entered(Change(op)) || s.api == Entered(Tune(op)))
    requires Inv(s) && IsRun(s, steps) && InCall(s, steps) && Final(s, steps).api == Outside
    ensures WellFormed(s.g)
    ensures var t := Final(s, steps);
            && (t.phase == Inactive <==> s.phase == Inactive)
            && t.g == if s.api == Entered(Tune(op)) || s.phase == Inactive then Apply(s.g, op).0 else s.g
  {
    CallIsAtomic(s, s.api.call, steps);
    assert WellFormed(s.g);
    hide Inv, WellFormed, IsRun, InCall, Final, Reachable, Apply;
  }

  // ---------- Running ----------

  function RenderSteps(n: nat): seq<Step> {
    seq(n, _ => RenderStep)
  }

  /** A call of the render thread enters RUNNING if the engine is active and no deactivation is announced. */
  lemma RunIsEntered(s: State)
    requires Inv(s) && s.phase == Active && !s.pending && s.render == Idle
    ensures IsRun(s, [RunCall, RenderStep, RenderStep])
    ensures var t := Final(s, [RunCall, RenderStep, RenderStep]);
            t.phase == Running && t.render == Walking(0, s.g) && t.g == s.g && t.api == s.api && t.lock == s.lock
  {
    assert s.g.effects != [];
    var s1 := s.(render := ReadEffects);
    var s2 := s1.(render := TryRunning);
    assert Next(s, RunCall) == s1;
    StepKeepsInv(s, RunCall);
    assert Next(s1, RenderStep) == s2;
    StepKeepsInv(s1, RenderStep);
    StepKeepsInv(s2, RenderStep);
    var s3 := Next(s2, RenderStep);
    hide Inv, NextRender;
    var steps := [RunCall, RenderStep, RenderStep];
    assert steps[1..] == [RenderStep, RenderStep] && steps[1..][1..] == [RenderStep] && steps[1..][1..][1..] == [];
    assert IsRun(s3, []) && Final(s3, []) == s3;
    assert IsRun(s2, [RenderStep]) && Final(s2, [RenderStep]) == s3;
    assert IsRun(s1, [RenderStep, RenderStep]) && Final(s1, [RenderStep, RenderStep]) == s3;
  }

  /** A run visits the user nodes and the effects, and where effects have buffers of their own the host nodes
      before and after: after so many steps, and one more, it is through. */
  lemma {:induction false} WalkVisitsAll(s: State, n: nat)
    requires Inv(s) && s.render.Walking?
    requires s.render.i + n == |s.g.users| + |s.g.effects| + if s.g.inPlace then 0 else |s.g.hosts| + |s.g.hosts|
    ensures IsRun(s, RenderSteps(n + 1)) && Final(s, RenderSteps(n + 1)) == s.(render := TryActive)
    decreases n
  {
    StepKeepsInv(s, RenderStep);
    var t := Next(s, RenderStep);
    assert t == s.(render := if n == 0 then TryActive else Walking(s.render.i + 1, s.render.seen));
    assert Enabled(s, RenderStep);
    hide Inv, Enabled, Next;
    assert RenderSteps(n + 1)[1..] == RenderSteps(n);
    if n == 0 {
      assert IsRun(t, RenderSteps(0)) && Final(t, RenderSteps(0)) == t;
    } else {
      WalkVisitsAll(t, n - 1);
    }
  }

  lemma RenderStepMoves(s: State)
    requires Inv(s) && s.render != Idle && s.lock != Api
    ensures Enabled(s, RenderStep)
    ensures var t := NextRender(s);
            && RenderRank(t) < RenderRank(s) && t.g == s.g && t.lock != Api
            && (s.phase == Running ==> t.phase == Running || (t.phase == Active && !InRun(t.render)))
            && (s.phase != Running && s.render != TryRunning ==> t.phase == s.phase)
            && (t.api == s.api || (s.api == Asleep && t.api == Relock))
  {
    assert PhaseInv(s) && LockInv(s);
    if s.render.Walking? {
      WalkingInRange(s);
    }
    RenderRankDrops(s);
    hide Inv, WellFormed, Checked, SameShape, RenderRank, WalkLength;
  }

  /** A run that has been entered returns, if the render thread goes on. */
  lemma {:induction false} RunReturns(s: State) returns (n: nat)
    requires Inv(s) && s.lock != Api && s.render != ReadEffects && s.render != TryRunning
    ensures n <= RenderRank(s) && IsRun(s, RenderSteps(n))
    ensures var t := Final(s, RenderSteps(n));
            && t.render == Idle && t.g == s.g && t.phase == (if s.phase == Running then Active else s.phase)
            && (t.api == s.api || (s.api == Asleep && t.api == Relock))
    decreases RenderRank(s)
  {
    if s.render == Idle {
      n := 0;
      assert PhaseInv(s);
      PhaseOf(s);
    } else {
      RenderStepMoves(s);
      StepKeepsInv(s, RenderStep);
      var t := NextRender(s);
      assert t.render != ReadEffects && t.render != TryRunning;
      hide Inv, Enabled, NextRender, WellFormed, RenderRank;
      var m := RunReturns(t);
      n := m + 1;
      assert RenderSteps(n)[1..] == RenderSteps(m);
    }
  }

  /** Whoever sleeps in deactivate gets through: the run under way returns, and then deactivate does. */
  lemma SleeperGetsThrough(s: State) returns (m: nat, n: nat)
    requires Inv(s) && s.api == Asleep
    ensures IsRun(s, RenderSteps(m))
    ensures var t := Final(s, RenderSteps(m));
            && Inv(t) && IsRun(t, ApiSteps(n)) && n <= 8 + |s.g.effects|
            && Final(t, ApiSteps(n)).api == Outside && Final(t, ApiSteps(n)).phase == Inactive
  {
    assert LockInv(s) && ApiInv(s);
    m := RunReturns(s);
    FinalInv(s, RenderSteps(m));
    var t := Final(s, RenderSteps(m));
    n := CallReturns(t);
    assert ApiInv(t) && PhaseInv(t) && t.render == Idle;
    assert t.api == Relock;
    hide Inv, IsRun, Final, RenderSteps, ApiSteps;
    ReturnsInactive(t, n);
  }

  lemma ReturnsInactive(s: State, n: nat)
    requires Inv(s) && s.api == Relock && IsRun(s, ApiSteps(n)) && InCall(s, ApiSteps(n))
    requires Final(s, ApiSteps(n)).api == Outside
    ensures Final(s, ApiSteps(n)).phase == Inactive
  {
    RunExpects(s, ApiSteps(n));
    hide Inv, IsRun, InCall, Final, Cleared, SetActive;
  }

  // ---------- What can be reached ----------

  lemma {:induction false} RunAppends(s: State, a: seq<Step>, b: seq<Step>)
    requires Inv(s) && IsRun(s, a) && Inv(Final(s, a)) && IsRun(Final(s, a), b)
    ensures IsRun(s, a + b) && Final(s, a + b) == Final(Final(s, a), b)
    decreases |a|
  {
    assert WellFormed(s.g);
    hide Inv, Next, Enabled, WellFormed;
    if a == [] {
      assert a + b == b;
    } else {
      StepKeepsInv(s, a[0]);
      assert (a + b)[1..] == a[1..] + b;
      RunAppends(Next(s, a[0]), a[1..], b);
    }
  }

  /** A state from which a run leads on. */
  lemma ReachableOn(s: State, steps: seq<Step>)
    requires Reachable(s) && Inv(s) && IsRun(s, steps)
    ensures Reachable(Final(s, steps))
  {
    var inPlace, before :| LeadsTo(inPlace, before, s);
    InitialInv(inPlace);
    RunAppends(Initial(inPlace), before, steps);
    assert LeadsTo(inPlace, before + steps, Final(s, steps));
  }

  /** The call that performs an operation. */
  function CallFor(op: GraphOp): Call {
    if op.ControlValue? || op.MixMode? then Tune(op) else Change(op)
  }

  lemma StepOn(s: State, step: Step)
    requires Reachable(s) && Enabled(s, step)
    ensures WellFormed(s.g) && Reachable(Next(s, step))
  {
    ReachableInv(s);
    StepKeepsInv(s, step);
    var t := Next(s, step);
    hide Inv, Next, Enabled;
    assert [step][1..] == [];
    assert IsRun(t, []) && Final(t, []) == t;
    assert IsRun(s, [step]) && Final(s, [step]) == t;
    ReachableOn(s, [step]);
  }

  lemma Calling(s: State, call: Call)
    requires Reachable(s) && s.api == Outside && AllowedCall(call)
    ensures Reachable(s.(api := Entered(call)))
  {
    hide Reachable;
    StepOn(s, Step.Call(call));
  }

  /** Every call of an idle engine can be made, and returns with its outcome. */
  lemma CallFromOutside(s: State, call: Call) returns (t: State)
    requires Reachable(s) && s.api == Outside && AllowedCall(call) && s.render == Idle
    ensures WellFormed(s.g) && Reachable(t) && t.api == Outside && t.render == Idle
    ensures (t.g, t.phase == Inactive) == Sequential(call, s.g, s.phase == Inactive)
  {
    ReachableInv(s);
    Calling(s, call);
    var u := s.(api := Entered(call));
    ReachableInv(u);
    var n := CallReturns(u);
    CallIsAtomic(u, call, ApiSteps(n));
    t := Final(u, ApiSteps(n));
    hide Inv, Reachable, Sequential;
    ReachableOn(u, ApiSteps(n));
  }

  /** Every graph the operations of the API can make is reached by calling them. */
  lemma {:induction false} GraphIsReached(inPlace: bool, ops: seq<GraphOp>, n: nat) returns (s: State)
    requires n <= |ops| && forall k :: 0 <= k < n ==> !ops[k].Clear? && !ops[k].SwitchEffects?
    ensures Reachable(s) && s.api == Outside && s.render == Idle && s.phase == Inactive
    ensures s.g == LadspaRuns.Run(inPlace, ops, n)
  {
    hide Reachable, WellFormed, Apply, AllowedCall, Sequential;
    if n == 0 {
      s := Initial(inPlace);
      InitialIsReachable(inPlace);
    } else {
      var before := GraphIsReached(inPlace, ops, n - 1);
      OperationAllowed(ops[n - 1]);
      s := CallFromOutside(before, CallFor(ops[n - 1]));
      OperationCalled(before.g, ops[n - 1]);
    }
  }

  lemma InitialIsReachable(inPlace: bool)
    ensures Reachable(Initial(inPlace))
  {
    InitialInv(inPlace);
    assert LeadsTo(inPlace, [], Initial(inPlace));
  }

  lemma OperationAllowed(op: GraphOp)
    requires !op.Clear? && !op.SwitchEffects?
    ensures AllowedCall(CallFor(op))
  {
  }

  lemma OperationCalled(g: Graph, op: GraphOp)
    requires WellFormed(g)
    ensures Sequential(CallFor(op), g, true) == (Apply(g, op).0, true)
  {
    hide Apply, WellFormed;
  }

  /** If it passes the checks, it is reached active, with every effect on, and also running. */
  lemma AudioRuns(inPlace: bool, ops: seq<GraphOp>, n: nat) returns (active: State, running: State)
    requires n <= |ops| && forall k :: 0 <= k < n ==> !ops[k].Clear? && !ops[k].SwitchEffects?
    requires Checked(LadspaRuns.Run(inPlace, ops, n))
    ensures Reachable(active) && active.phase == Active
    ensures Reachable(running) && running.phase == Running && running.render == Walking(0, running.g)
    ensures running.api == Outside && running.lock == Nobody
    ensures active.g == running.g == Switched(LadspaRuns.Run(inPlace, ops, n), true)
  {
    var s := GraphIsReached(inPlace, ops, n);
    active := CallFromOutside(s, Activate);
    ReachableInv(active);
    assert PhaseInv(active) && LockInv(active);
    PhaseOf(active);
    assert !active.pending && active.lock == Nobody;
    var steps := [RunCall, RenderStep, RenderStep];
    RunIsEntered(active);
    running := Final(active, steps);
    hide Inv, Reachable, PhaseInv;
    ReachableOn(active, steps);
  }

  /** So in both builds there are active and running states, and states in which deactivate sleeps. */
  lemma AudioCanRun(inPlace: bool) returns (active: State, running: State, asleep: State)
    ensures Reachable(active) && active.phase == Active && active.g.inPlace == inPlace
    ensures Reachable(running) && running.phase == Running && running.g.inPlace == inPlace
    ensures Reachable(asleep) && asleep.phase == Running && asleep.api == Asleep && asleep.g.inPlace == inPlace
  {
    var ops := [HostPort("L", 1), UserBuffer("B"), NewEffect("fx", RELINK_DESC),
                LinkPort("fx", "out", "B"), LinkPort("fx", "out", "L"), LinkPort("fx", "in", "B")];
    hide LadspaRuns.Run, Checked, Reachable, RELINK_DESC, HasLink;
    RelinkFoolsTheCheck(inPlace, ops);
    RunBuffers(inPlace, ops, 6);
    active, running := AudioRuns(inPlace, ops, 6);
    asleep := DeactivateSleeps(running);
  }

  /** A deactivation that finds a run under way falls asleep. */
  lemma DeactivateSleeps(s: State) returns (t: State)
    requires Reachable(s) && s.api == Outside && s.phase == Running && s.lock == Nobody
    ensures Reachable(t) && t.api == Asleep && t.phase == Running && t.render == s.render && t.g == s.g
  {
    hide Reachable;
    Calling(s, Deactivate);
    t := s.(api := Entered(Deactivate));
    StepOn(t, ApiStep);
    t := t.(api := SetPending);
    StepOn(t, ApiStep);
    t := t.(pending := true, api := Lock, entries := 0, sleeps := 0, spurious := 0, signalled := false);
    StepOn(t, ApiStep);
    t := t.(lock := Api, api := TryInactive);
    StepOn(t, ApiStep);
    t := t.(api := Sleep);
    StepOn(t, ApiStep);
    t := t.(lock := Nobody, api := Asleep, sleeps := t.sleeps + 1);
  }
}
