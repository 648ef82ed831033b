/** The protocol between API calls, serialised by the API mutex, and one render thread, as
    interleaved atomic steps under sequential consistency. */
module LadspaProtocol {
  import opened Options
  import opened LadspaGraph
  import opened LadspaRuns

  datatype Phase = Inactive | Active | Running

  /** Who holds the mutex that goes with the run-finished condition. */
  datatype Holder = Nobody | Api | Renderer

  datatype Call =
    | Change(op: GraphOp)   // add_host_ports, add_buffer, add_effect, effect_link
    | Tune(op: GraphOp)     // effect_set_control, effect_set_mix: allowed in every phase
    | Activate
    | Deactivate
    | Reset
    | NewRate               // set_sample_rate with a different rate

  /** What the thread inside the API does next. */
  datatype ApiPc =
    | Outside
    | Entered(call: Call)     // reads the phase
    | Changing(op: GraphOp)
    | Checking
    | Activating(i: nat)      // activates effect i, or leaves the loop
    | Exchange                // INACTIVE -> ACTIVE
    | RollBack(i: nat)        // taken if the exchange fails
    | SetPending
    | Lock
    | TryInactive             // ACTIVE -> INACTIVE
    | Sleep                   // cond_wait: gives up the lock and falls asleep
    | Asleep
    | Relock                  // woken up, still inside cond_wait
    | Unlock
    | Deactivating(i: nat)
    | ClearPending
    | Clearing

  /** What the render thread does next. */
  datatype RenderPc =
    | Idle                    // calls fluid_ladspa_run, which reads the pending flag
    | ReadEffects
    | TryRunning              // ACTIVE -> RUNNING
    | Walking(i: nat, seen: Graph)   // visits the i-th list entry; `seen` is the graph on entry
    | TryActive               // RUNNING -> ACTIVE
    | LogError                // taken if that exchange fails
    | ReadPending
    | LockRun
    | Broadcast
    | UnlockRun

  /** `entries`, `sleeps`, `spurious` and `signalled` record what happened since the pending flag was
      last set: runs that entered RUNNING, waits, spurious wakeups, and whether a broadcast arrived. */
  datatype State = State(g: Graph, phase: Phase, pending: bool, lock: Holder, api: ApiPc, resetting: bool,
                         render: RenderPc, entries: nat, sleeps: nat, spurious: nat, signalled: bool)

  datatype Step = Call(call: Call) | ApiStep | SpuriousWakeup | RunCall | RenderStep

  function Initial(inPlace: bool): State {
    State(Empty(inPlace), Inactive, false, Nobody, Outside, false, Idle, 0, 0, 0, false)
  }

  predicate AllowedCall(call: Call) {
    && (call.Change? ==> call.op.HostPort? || call.op.UserBuffer? || call.op.NewEffect? || call.op.LinkPort?)
    && (call.Tune? ==> call.op.ControlValue? || call.op.MixMode?)
  }

  predicate Enabled(s: State, step: Step) {
    match step
    case Call(call) => s.api == Outside && AllowedCall(call)
    case ApiStep => s.api != Outside && s.api != Asleep && (s.api == Lock || s.api == Relock ==> s.lock == Nobody)
    case SpuriousWakeup => s.api == Asleep
    case RunCall => s.render == Idle
    case RenderStep => s.render != Idle && (s.render == LockRun ==> s.lock == Nobody)
  }

  /** The list entries one run visits: user nodes and effects, and if effects do not work on the host's
      buffers directly, host nodes before and after. */
  function WalkLength(g: Graph): nat {
    |g.users| + |g.effects| + if g.inPlace then 0 else 2 * |g.hosts|
  }

  ghost function NextApi(s: State): State
    requires WellFormed(s.g)
  {
    match s.api
    case Outside => s
    case Entered(Change(op)) =>
      s.(api := if s.phase == Inactive then Changing(op) else Outside)
    case Entered(Tune(op)) => s.(g := Apply(s.g, op).0, api := Outside)
    case Entered(Activate) =>
      s.(api := if s.phase == Inactive then Checking else Outside)
    case Entered(Deactivate) =>
      s.(api := if s.phase == Inactive then Outside else SetPending)
    case Entered(Reset) =>
      if s.phase == Inactive then s.(api := Clearing) else s.(api := SetPending, resetting := true)
    case Entered(NewRate) =>
      if s.phase == Inactive then s.(api := Outside) else s.(api := SetPending, resetting := true)
    case Changing(op) => s.(g := Apply(s.g, op).0, api := Outside)
    case Checking => s.(api := if Checked(s.g) then Activating(0) else Outside)
    case Activating(i) =>
      if i < |s.g.effects| then
        s.(g := s.g.(effects := s.g.effects[i := s.g.effects[i].(active := true)]), api := Activating(i + 1))
      else s.(api := Exchange)
    case Exchange =>
      if s.phase == Inactive then s.(phase := Active, api := Outside) else s.(api := RollBack(0))
    case RollBack(i) =>
      if i < |s.g.effects| then
        s.(g := s.g.(effects := s.g.effects[i := s.g.effects[i].(active := false)]), api := RollBack(i + 1))
      else s.(api := Outside)
    case SetPending =>
      s.(pending := true, api := Lock, entries := 0, sleeps := 0, spurious := 0, signalled := false)
    case Lock => s.(lock := Api, api := TryInactive)
    case TryInactive =>
      if s.phase == Active then s.(phase := Inactive, api := Unlock) else s.(api := Sleep)
    case Sleep => s.(lock := Nobody, api := Asleep, sleeps := s.sleeps + 1)
    case Asleep => s
    case Relock => s.(lock := Api, api := TryInactive)
    case Unlock => s.(lock := Nobody, api := Deactivating(0))
    case Deactivating(i) =>
      if i < |s.g.effects| then
        s.(g := s.g.(effects := s.g.effects[i := s.g.effects[i].(active := false)]), api := Deactivating(i + 1))
      else s.(api := ClearPending)
    case ClearPending => s.(pending := false, api := if s.resetting then Clearing else Outside)
    case Clearing => s.(g := Cleared(s.g), api := Outside, resetting := false)
  }

  ghost function NextRender(s: State): State {
    match s.render
    case Idle => s
    case ReadEffects => s.(render := if s.g.effects == [] then Idle else TryRunning)
    case TryRunning =>
      if s.phase == Active then s.(phase := Running, render := Walking(0, s.g), entries := s.entries + 1)
      else s.(render := Idle)
    case Walking(i, seen) =>
      s.(render := if i < WalkLength(s.g) then Walking(i + 1, seen) else TryActive)
    case TryActive =>
      if s.phase == Running then s.(phase := Active, render := ReadPending) else s.(render := LogError)
    case LogError => s.(render := ReadPending)
    case ReadPending => s.(render := if s.pending then LockRun else Idle)
    case LockRun => s.(lock := Renderer, render := Broadcast)
    case Broadcast =>
      if s.api == Asleep then s.(api := Relock, signalled := true, render := UnlockRun)
      else s.(render := UnlockRun)
    case UnlockRun => s.(lock := Nobody, render := Idle)
  }

  ghost function Next(s: State, step: Step): State
    requires WellFormed(s.g) && Enabled(s, step)
  {
    match step
    case Call(call) => s.(api := Entered(call))
    case ApiStep => NextApi(s)
    case SpuriousWakeup => s.(api := Relock, spurious := s.spurious + 1)
    case RunCall => s.(render := if s.pending then Idle else ReadEffects)
    case RenderStep => NextRender(s)
  }

  // ---------- The invariant ----------

  /** Equal up to the values of control nodes and the mix switches. */
  ghost predicate SameShape(g: Graph, h: Graph) {
    && h.hosts == g.hosts && h.users == g.users && h.nextId == g.nextId && h.inPlace == g.inPlace
    && h.nodes.Keys == g.nodes.Keys
    && (forall id :: id in g.nodes ==> h.nodes[id].(value := 0.0) == g.nodes[id].(value := 0.0))
    && |h.effects| == |g.effects|
    && (forall k :: 0 <= k < |g.effects| ==> h.effects[k].(mix := false) == g.effects[k].(mix := false))
  }

  /** Graphs of the same shape have the same lists, links and switches, and the same nodes but for values. */
  lemma SameShapeMeans(g: Graph, h: Graph)
    requires SameShape(g, h)
    ensures h.hosts == g.hosts && h.users == g.users && |h.effects| == |g.effects|
    ensures forall k :: 0 <= k < |g.effects| ==>
              && h.effects[k].links == g.effects[k].links && h.effects[k].active == g.effects[k].active
              && h.effects[k].desc == g.effects[k].desc && h.effects[k].name == g.effects[k].name
    ensures h.nodes.Keys == g.nodes.Keys
    ensures forall id :: id in g.nodes ==>
              && h.nodes[id].numInputs == g.nodes[id].numInputs && h.nodes[id].numOutputs == g.nodes[id].numOutputs
              && h.nodes[id].name == g.nodes[id].name && h.nodes[id].kind == g.nodes[id].kind
              && h.nodes[id].buffer == g.nodes[id].buffer
  {
    forall k | 0 <= k < |g.effects|
      ensures && h.effects[k].links == g.effects[k].links && h.effects[k].active == g.effects[k].active
              && h.effects[k].desc == g.effects[k].desc && h.effects[k].name == g.effects[k].name
    {
      assert h.effects[k].(mix := false) == g.effects[k].(mix := false);
    }
    forall id | id in g.nodes
      ensures && h.nodes[id].numInputs == g.nodes[id].numInputs && h.nodes[id].numOutputs == g.nodes[id].numOutputs
              && h.nodes[id].name == g.nodes[id].name && h.nodes[id].kind == g.nodes[id].kind
              && h.nodes[id].buffer == g.nodes[id].buffer
    {
      assert h.nodes[id].(value := 0.0) == g.nodes[id].(value := 0.0);
    }
  }

  /** The thread in the API has seen, or made, the engine inactive and relies on it. */
  predicate NeedsInactive(api: ApiPc) {
    api.Changing? || api.Checking? || api.Activating? || api.Exchange? || api.Unlock?
    || api.Deactivating? || api.ClearPending? || api.Clearing?
  }

  /** Between the decision to deactivate and success. */
  predicate WantsInactive(api: ApiPc) {
    api.SetPending? || api.Lock? || api.TryInactive? || api.Sleep? || api.Asleep? || api.Relock?
  }

  /** The deactivation is announced by the pending flag. */
  predicate Announced(api: ApiPc) {
    (WantsInactive(api) && !api.SetPending?) || api.Unlock? || api.Deactivating? || api.ClearPending?
  }

  predicate InRun(render: RenderPc) {
    render.Walking? || render.TryActive?
  }

  /** The run will still get to its broadcast. */
  predicate WillBroadcast(render: RenderPc) {
    InRun(render) || render.ReadPending? || render.LockRun? || render.Broadcast?
  }

  ghost predicate EffectsAre(g: Graph, n: nat, active: bool) {
    n <= |g.effects| && forall k :: 0 <= k < n ==> g.effects[k].active == active
  }

  /** What the position in an API call says about the graph. */
  ghost predicate ApiInv(s: State) {
    match s.api
    case Entered(call) => AllowedCall(call)
    case Changing(op) => AllowedCall(Change(op))
    case Activating(i) => Checked(s.g) && EffectsAre(s.g, i, true)
    case Exchange => Checked(s.g) && EffectsAre(s.g, |s.g.effects|, true)
    case RollBack(i) => false
    case Deactivating(i) => EffectsAre(s.g, i, false)
    case ClearPending => EffectsAre(s.g, |s.g.effects|, false)
    case Sleep => WillBroadcast(s.render)
    case Asleep => WillBroadcast(s.render)
    case _ => true
  }

  ghost predicate LockInv(s: State) {
    && (s.lock == Api <==> s.api.TryInactive? || s.api.Sleep? || s.api.Unlock?)
    && (s.lock == Renderer <==> s.render.Broadcast? || s.render.UnlockRun?)
  }

  ghost predicate PhaseInv(s: State) {
    && (NeedsInactive(s.api) ==> s.phase == Inactive)
    && (WantsInactive(s.api) ==> s.phase != Inactive)
    && (s.phase == Running <==> InRun(s.render))
    && s.render != LogError
    && (s.pending <==> Announced(s.api))
    && (s.phase != Inactive ==> Checked(s.g) && EffectsAre(s.g, |s.g.effects|, true))
    && (s.render.Walking? ==> s.render.i <= WalkLength(s.g) && SameShape(s.render.seen, s.g))
  }

  /** The accounting of one deactivation. */
  ghost predicate WaitInv(s: State) {
    && (s.pending ==> s.entries <= 1)
    && (s.pending && (s.render.ReadEffects? || s.render.TryRunning?) ==> s.entries == 0)
    && (s.pending && s.signalled && WantsInactive(s.api) ==>
          s.phase == Active && (s.render.UnlockRun? || s.render.Idle?) && !s.api.Sleep? && !s.api.Asleep?)
    && (s.pending ==> s.sleeps == s.spurious + (if s.signalled then 1 else 0) + (if s.api.Asleep? then 1 else 0))
  }

  ghost predicate Inv(s: State) {
    WellFormed(s.g) && ApiInv(s) && LockInv(s) && PhaseInv(s) && WaitInv(s)
  }

  // ---------- Every step keeps it ----------

  lemma SameShapeBuffers(g: Graph, h: Graph, link: Option<NodeId>)
    requires SameShape(g, h)
    ensures BufferOf(g, link) == BufferOf(h, link)
  {
    if link.Some? && link.value in g.nodes {
      assert h.nodes[link.value].(value := 0.0) == g.nodes[link.value].(value := 0.0);
    }
  }

  lemma SameShapeEffect(g: Graph, h: Graph, k: nat)
    requires SameShape(g, h) && k < |g.effects|
    ensures AllConnected(g.effects[k]) <==> AllConnected(h.effects[k])
    ensures InPlaceFine(g, g.effects[k]) <==> InPlaceFine(h, h.effects[k])
    ensures g.effects[k].active == h.effects[k].active
  {
    var e, f := g.effects[k], h.effects[k];
    assert e.(mix := false) == f.(mix := false);
    assert e.links == f.links && e.desc == f.desc && e.active == f.active;
    hide SameShape;
    forall p | 0 <= p < |e.links| ensures BufferOf(g, e.links[p]) == BufferOf(h, e.links[p]) {
      SameShapeBuffers(g, h, e.links[p]);
    }
  }

  lemma SameShapeChecked(g: Graph, h: Graph)
    requires SameShape(g, h)
    ensures Checked(g) <==> Checked(h)
    ensures EffectsAre(g, |g.effects|, true) <==> EffectsAre(h, |h.effects|, true)
  {
    hide AllConnected, InPlaceFine;
    forall k | 0 <= k < |g.effects|
      ensures (AllConnected(g.effects[k]) && InPlaceFine(g, g.effects[k]))
          <==> (AllConnected(h.effects[k]) && InPlaceFine(h, h.effects[k]))
      ensures g.effects[k].active == h.effects[k].active
    {
      SameShapeEffect(g, h, k);
    }
    assert forall id :: id in g.nodes ==> h.nodes[id].(value := 0.0) == g.nodes[id].(value := 0.0);
  }

  /** Tuning changes no more than a control value or a mix switch. */
  lemma TuneKeepsShape(g: Graph, op: GraphOp)
    requires WellFormed(g) && (op.ControlValue? || op.MixMode?)
    ensures SameShape(g, Apply(g, op).0)
  {
    hide WellFormed, SetControl;
    if op.ControlValue? {
      SetControlChanges(g, op.effect, op.port, op.value);
    }
  }

  lemma SameShapeTransitive(a: Graph, b: Graph, c: Graph)
    requires SameShape(a, b) && SameShape(b, c)
    ensures SameShape(a, c)
  {
  }

  /** Switching one effect on or off. */
  lemma SwitchKeeps(g: Graph, i: nat, active: bool)
    requires WellFormed(g) && i < |g.effects|
    ensures var h := g.(effects := g.effects[i := g.effects[i].(active := active)]);
            WellFormed(h) && (Checked(h) <==> Checked(g))
  {
    var h := g.(effects := g.effects[i := g.effects[i].(active := active)]);
    EffectsOnlyKeeps(g, h);
    hide WellFormed;
    assert forall k :: 0 <= k < |g.effects| ==>
      h.effects[k].(active := false) == g.effects[k].(active := false);
    assert forall link :: BufferOf(h, link) == BufferOf(g, link);
  }

  /** The steps of the API thread that change the graph. */
  lemma ApiGraphStepKeepsInv(s: State)
    requires Inv(s) && s.api != Outside && Enabled(s, ApiStep)
    requires (s.api.Entered? && s.api.call.Tune?) || s.api.Changing? || s.api.Activating?
             || s.api.Deactivating? || s.api.Clearing?
    ensures Inv(Next(s, ApiStep))
  {
    hide WellFormed, Checked, SameShape, Apply, Cleared;
    match s.api
    case Entered(Tune(op)) =>
      var h := Apply(s.g, op).0;
      StepKeeps(s.g, op);
      TuneKeepsShape(s.g, op);
      SameShapeChecked(s.g, h);
      assert WalkLength(h) == WalkLength(s.g) by { SameShapeWalk(s.g, h); }
      if s.render.Walking? {
        SameShapeTransitive(s.render.seen, s.g, h);
      }
    case Changing(op) => StepKeeps(s.g, op);
    case Activating(i) =>
      if i < |s.g.effects| { SwitchKeeps(s.g, i, true); }
    case Deactivating(i) =>
      if i < |s.g.effects| { SwitchKeeps(s.g, i, false); }
    case Clearing => ClearedKeeps(s.g);
  }

  lemma SameShapeWalk(g: Graph, h: Graph)
    requires SameShape(g, h)
    ensures WalkLength(h) == WalkLength(g)
  {
  }

  /** Moving on inside the API, outside an announced deactivation, and touching nothing else. */
  lemma ApiMoveKeepsInv(s: State, t: State)
    requires Inv(s) && t == s.(api := t.api, resetting := t.resetting) && ApiInv(t)
    requires !Announced(s.api) && !Announced(t.api)
    requires NeedsInactive(t.api) ==> s.phase == Inactive
    requires WantsInactive(t.api) ==> s.phase != Inactive
    ensures Inv(t)
  {
    hide WellFormed, Checked, SameShape, EffectsAre, WalkLength, ApiInv;
  }

  /** Entering an API call that looks at the phase first. */
  lemma EntryMoves(s: State)
    requires WellFormed(s.g) && s.api.Entered? && !s.api.call.Tune? && AllowedCall(s.api.call)
    ensures var t := NextApi(s);
            && t == s.(api := t.api, resetting := t.resetting) && ApiInv(t)
            && !Announced(t.api)
            && (NeedsInactive(t.api) ==> s.phase == Inactive)
            && (WantsInactive(t.api) ==> s.phase != Inactive)
  {
    hide WellFormed, Checked;
  }

  lemma ApiEntryKeepsInv(s: State)
    requires Inv(s) && Enabled(s, ApiStep)
    requires s.api.Entered? && !s.api.call.Tune?
    ensures Inv(Next(s, ApiStep))
  {
    assert AllowedCall(s.api.call) by { assert ApiInv(s); }
    hide Inv, WellFormed, NextApi, ApiInv;
    EntryMoves(s);
    ApiMoveKeepsInv(s, NextApi(s));
  }

  lemma ApiCheckKeepsInv(s: State)
    requires Inv(s) && Enabled(s, ApiStep) && s.api.Checking?
    ensures Inv(Next(s, ApiStep))
  {
    assert s.phase == Inactive;
    hide Inv, WellFormed, Checked;
    ApiMoveKeepsInv(s, Next(s, ApiStep));
  }

  lemma ApiExchangeKeepsInv(s: State)
    requires Inv(s) && Enabled(s, ApiStep) && s.api.Exchange?
    ensures Inv(Next(s, ApiStep))
  {
    hide WellFormed, Checked, SameShape, EffectsAre, WalkLength;
  }

  /** The steps of the API thread around the lock and the condition variable. */
  lemma ApiWaitStepKeepsInv(s: State)
    requires Inv(s) && Enabled(s, ApiStep)
    requires Announced(s.api) || s.api.SetPending?
    requires !s.api.Deactivating?
    ensures Inv(Next(s, ApiStep))
  {
    hide WellFormed, Checked, SameShape, Apply, Cleared, WalkLength;
  }

  lemma ApiStepKeepsInv(s: State)
    requires Inv(s) && Enabled(s, ApiStep)
    ensures Inv(Next(s, ApiStep))
  {
    hide Inv, Next;
    assert !s.api.RollBack? by { NoRollBack(s); }
    if (s.api.Entered? && s.api.call.Tune?) || s.api.Changing? || s.api.Activating?
       || s.api.Deactivating? || s.api.Clearing? {
      ApiGraphStepKeepsInv(s);
    } else if s.api.Entered? {
      ApiEntryKeepsInv(s);
    } else if s.api.Checking? {
      ApiCheckKeepsInv(s);
    } else if s.api.Exchange? {
      ApiExchangeKeepsInv(s);
    } else {
      ApiWaitStepKeepsInv(s);
    }
  }

  lemma NoRollBack(s: State)
    requires Inv(s)
    ensures !s.api.RollBack?
  {
  }

  /** The steps of the render thread up to the end of its walk. */
  lemma WalkStepKeepsInv(s: State)
    requires Inv(s) && Enabled(s, RenderStep)
    requires s.render.ReadEffects? || s.render.TryRunning? || InRun(s.render)
    ensures Inv(Next(s, RenderStep))
  {
    hide WellFormed, Checked, Apply, Cleared, EffectsAre, NextApi;
    SameShapeReflexive(s.g);
    hide SameShape;
  }

  /** The steps of the render thread around the broadcast. */
  lemma BroadcastStepKeepsInv(s: State)
    requires Inv(s) && Enabled(s, RenderStep)
    requires s.render.ReadPending? || s.render.LockRun? || s.render.Broadcast? || s.render.UnlockRun?
    ensures Inv(Next(s, RenderStep))
  {
    hide WellFormed, Checked, Apply, Cleared, EffectsAre, NextApi, SameShape;
  }

  lemma RenderStepKeepsInv(s: State)
    requires Inv(s) && Enabled(s, RenderStep)
    ensures Inv(Next(s, RenderStep))
  {
    hide Inv, Next;
    assert s.render != LogError by { NoLogError(s); }
    if s.render.ReadEffects? || s.render.TryRunning? || InRun(s.render) {
      WalkStepKeepsInv(s);
    } else {
      BroadcastStepKeepsInv(s);
    }
  }

  lemma NoLogError(s: State)
    requires Inv(s)
    ensures s.render != LogError
  {
  }

  lemma SameShapeReflexive(g: Graph)
    ensures SameShape(g, g)
  {
  }

  lemma StepKeepsInv(s: State, step: Step)
    requires Inv(s) && Enabled(s, step)
    ensures Inv(Next(s, step))
  {
    hide WellFormed, Checked, SameShape, Apply, Cleared, NextApi, NextRender, EffectsAre;
    match step
    case Call(call) =>
    case ApiStep => ApiStepKeepsInv(s);
    case SpuriousWakeup =>
    case RunCall =>
    case RenderStep => RenderStepKeepsInv(s);
  }

  /** A run of the protocol: every step is enabled when it is taken. */
  ghost predicate IsRun(s: State, steps: seq<Step>)
    requires Inv(s)
    decreases |steps|
  {
    steps != [] ==>
      Enabled(s, steps[0]) && (StepKeepsInv(s, steps[0]); IsRun(Next(s, steps[0]), steps[1..]))
  }

  ghost function Final(s: State, steps: seq<Step>): State
    requires Inv(s) && IsRun(s, steps)
    decreases |steps|
  {
    if steps == [] then s
    else StepKeepsInv(s, steps[0]); Final(Next(s, steps[0]), steps[1..])
  }

  lemma {:induction false} FinalInv(s: State, steps: seq<Step>)
    requires Inv(s) && IsRun(s, steps)
    ensures Inv(Final(s, steps))
    decreases |steps|
  {
    assert WellFormed(s.g);
    hide Inv, Next, Enabled, WellFormed;
    if steps != [] {
      StepKeepsInv(s, steps[0]);
      FinalInv(Next(s, steps[0]), steps[1..]);
    }
  }
}
