/** The control ports of effects: each has a node of its own, which a reset gives back. */
module LadspaControls {
  import opened Options
  import opened LadspaNames
  import opened LadspaGraph
  import opened LadspaRuns
  import opened LadspaOwnership
  import opened LadspaProtocol
  import opened LadspaSafety

  predicate IsControlPort(g: Graph, e: int, p: int) {
    && 0 <= e < |g.effects| && 0 <= p < |g.effects[e].links| && p < |g.effects[e].desc.ports|
    && g.effects[e].desc.ports[p].flags.control
  }

  // ---------- No control port is ever unlinked ----------

  ghost predicate ControlsLinked(g: Graph) {
    forall e, p :: IsControlPort(g, e, p) ==> g.effects[e].links[p].Some?
  }

  lemma StepKeepsLinked(g: Graph, op: GraphOp)
    requires WellFormed(g) && ControlsLinked(g)
    ensures ControlsLinked(Apply(g, op).0)
  {
    hide WellFormed, ResolveLink, SetControl, WithControls, ControlLinks, NameFree, ControlsOf;
    if op.ControlValue? {
      SetControlKeeps(g, op.effect, op.port, op.value);
    }
    var h := Apply(g, op).0;
    forall e, p | IsControlPort(h, e, p) ensures h.effects[e].links[p].Some? {
      assert (op.NewEffect? && e == |g.effects|) || IsControlPort(g, e, p);
    }
  }

  /** In every run each control port is linked to a node. */
  lemma {:induction false} ControlPortsLinked(inPlace: bool, ops: seq<GraphOp>, n: nat)
    requires n <= |ops|
    ensures ControlsLinked(Run(inPlace, ops, n))
    ensures var g := Run(inPlace, ops, n);
            forall e, p ::
              (0 <= e < |g.effects| && 0 <= p < |g.effects[e].desc.ports| && g.effects[e].desc.ports[p].flags.control)
              ==> p < |g.effects[e].links| && g.effects[e].links[p].Some?
  {
    hide Apply, WellFormed;
    if n != 0 {
      ControlPortsLinked(inPlace, ops, n - 1);
      StepKeepsLinked(Run(inPlace, ops, n - 1), ops[n - 1]);
    }
    var g := Run(inPlace, ops, n);
    assert LinksValid(g) by { ValidLinks(g); }
    forall e, p | 0 <= e < |g.effects| && 0 <= p < |g.effects[e].desc.ports| && g.effects[e].desc.ports[p].flags.control
      ensures p < |g.effects[e].links| && g.effects[e].links[p].Some?
    {
      assert IsControlPort(g, e, p);
    }
  }

  lemma ValidLinks(g: Graph)
    requires WellFormed(g)
    ensures LinksValid(g)
  {
  }

  // ---------- Linking a control port elsewhere ----------

  /** The control port is linked to a control node. */
  ghost predicate HasControlNode(g: Graph, e: int, p: int)
    requires IsControlPort(g, e, p)
  {
    var link := g.effects[e].links[p];
    link.Some? && link.value in g.nodes && g.nodes[link.value].kind == Control
  }

  ghost predicate ControlsOwned(g: Graph) {
    forall e, p :: IsControlPort(g, e, p) ==> HasControlNode(g, e, p)
  }

  /** The request links a port that is a control port, as well as the audio port it has to be. */
  ghost predicate HitsControlPort(g: Graph, op: GraphOp)
    requires WellFormed(g)
  {
    op.LinkPort? &&
    var t := ResolveLink(g, op.effect, op.port, op.node);
    t.LinkTo? && g.effects[t.e].desc.ports[t.p].flags.control
  }

  /** As long as no request did that, the next one does it exactly if it detaches a control node. */
  lemma HitsMeansDetached(g: Graph, op: GraphOp)
    requires WellFormed(g) && ControlsOwned(g)
    ensures Detached(g, op) == {} <==> !HitsControlPort(g, op)
  {
    hide ResolveLink;
    if op.LinkPort? {
      var t := ResolveLink(g, op.effect, op.port, op.node);
      if t.LinkTo? {
        if HitsControlPort(g, op) {
          assert IsControlPort(g, t.e, t.p);
        } else if g.effects[t.e].links[t.p].Some? {
          assert Linked(g, t.e, t.p, g.effects[t.e].links[t.p].value);
        }
      }
    }
  }

  /** Nodes that stay, and keep their kind. */
  ghost predicate NodesStay(g: Graph, h: Graph) {
    forall id :: id in g.nodes ==> id in h.nodes && h.nodes[id].kind == g.nodes[id].kind
  }

  lemma OwnedInLarger(g: Graph, h: Graph)
    requires ControlsOwned(g) && NodesStay(g, h) && SameLinks(g, h)
    ensures ControlsOwned(h)
  {
    forall e, p | IsControlPort(h, e, p) ensures HasControlNode(h, e, p) {
      assert IsControlPort(g, e, p) && HasControlNode(g, e, p);
    }
  }

  lemma IdsAreOld(g: Graph)
    requires WellFormed(g)
    ensures forall id :: id in g.nodes ==> id < g.nextId
  {
  }

  lemma NewEffectOwned(g: Graph, name: string, desc: Descriptor, p: nat)
    requires WellFormed(g) && p < |desc.ports| && desc.ports[p].flags.control
    ensures var h := AddEffect(g, name, desc); IsControlPort(h, |g.effects|, p) && HasControlNode(h, |g.effects|, p)
  {
    hide WellFormed, AddEffect, WithControls, ControlPorts;
    IdsAreOld(g);
    var h, id := AddEffect(g, name, desc), g.nextId + ControlPorts(desc.ports, p);
    AddEffectEffects(g, name, desc);
    WithControlsExtends(g.nodes, g.nextId, desc.ports, |desc.ports|);
    assert h.nodes[id].kind == Control;
    AddEffectLinks(g, name, desc);
    assert Linked(h, |g.effects|, p, id);
  }

  lemma AddEffectOwned(g: Graph, name: string, desc: Descriptor)
    requires WellFormed(g) && ControlsOwned(g)
    ensures ControlsOwned(AddEffect(g, name, desc))
  {
    var h := AddEffect(g, name, desc);
    AddEffectEffects(g, name, desc);
    WithControlsExtends(g.nodes, g.nextId, desc.ports, |desc.ports|);
    assert NodesStay(g, h);
    hide AddEffect, WithControls, ControlLinks, WellFormed, ControlPorts, ControlNode;
    forall e, p | IsControlPort(h, e, p) ensures HasControlNode(h, e, p) {
      if e < |g.effects| {
        assert IsControlPort(g, e, p) && HasControlNode(g, e, p);
      } else {
        NewEffectOwned(g, name, desc, p);
      }
    }
  }

  lemma ConnectOwned(g: Graph, e: nat, p: nat, id: NodeId)
    requires ControlsOwned(g)
    requires e < |g.effects| && p < |g.effects[e].links| == |g.effects[e].desc.ports| && id in g.nodes
    requires !g.effects[e].desc.ports[p].flags.control
    ensures ControlsOwned(Connect(g, e, p, id))
  {
    var h := Connect(g, e, p, id);
    forall e', p' | IsControlPort(h, e', p') ensures HasControlNode(h, e', p') {
      assert IsControlPort(g, e', p') && HasControlNode(g, e', p');
    }
  }

  lemma StepKeepsOwned(g: Graph, op: GraphOp)
    requires WellFormed(g) && ControlsOwned(g) && !HitsControlPort(g, op)
    ensures ControlsOwned(Apply(g, op).0)
  {
    FreshId(g);
    hide WellFormed, ResolveLink, SetControl, AddEffect, Connect, NameFree, ControlsOf, ControlsOwned;
    var h := Apply(g, op).0;
    match op
    case NewEffect(name, desc) => AddEffectOwned(g, name, desc);
    case LinkPort(effect, port, node) =>
      match ResolveLink(g, effect, port, node) {
        case NoLink =>
        case LinkTo(e, p, id) => ConnectOwned(g, e, p, id);
      }
    case ControlValue(effect, port, value) =>
      SetControlKeeps(g, effect, port, value);
      OwnedInLarger(g, h);
    case Clear => ClearedOwned(g);
    case _ => OwnedInLarger(g, h);
  }

  lemma ClearedOwned(g: Graph)
    ensures ControlsOwned(Cleared(g))
  {
  }

  lemma {:induction false} HitsAccumulate(inPlace: bool, ops: seq<GraphOp>, n: nat)
    requires n <= |ops|
    ensures (forall k :: 0 <= k < n ==> Detached(Run(inPlace, ops, k), ops[k]) == {}) <==>
            (forall k :: 0 <= k < n ==> !HitsControlPort(Run(inPlace, ops, k), ops[k]))
    ensures (forall k :: 0 <= k < n ==> !HitsControlPort(Run(inPlace, ops, k), ops[k])) ==>
              ControlsOwned(Run(inPlace, ops, n))
  {
    hide WellFormed, Apply, Detached, HitsControlPort, ControlsOwned;
    if n == 0 {
      EmptyOwned(inPlace);
    } else {
      HitsAccumulate(inPlace, ops, n - 1);
      var g := Run(inPlace, ops, n - 1);
      if ControlsOwned(g) {
        HitsMeansDetached(g, ops[n - 1]);
        if !HitsControlPort(g, ops[n - 1]) {
          StepKeepsOwned(g, ops[n - 1]);
        }
      }
    }
  }

  lemma EmptyOwned(inPlace: bool)
    ensures ControlsOwned(Empty(inPlace))
  {
  }

  /** A reset gives back all memory but the host nodes' exactly if no request linked a port that is
      both a control and an audio port. */
  lemma ResetFreesAllUnless(inPlace: bool, ops: seq<GraphOp>, n: nat)
    requires n <= |ops|
    ensures Cleared(Run(inPlace, ops, n)).nodes.Keys == (set id | id in Run(inPlace, ops, n).hosts) <==>
            forall k :: 0 <= k < n ==> !HitsControlPort(Run(inPlace, ops, k), ops[k])
  {
    hide Run, Cleared, Detached, HitsControlPort;
    ResetFreesAll(inPlace, ops, n);
    HitsAccumulate(inPlace, ops, n);
  }

  // ---------- Proper plugins ----------

  /** Every effect added is of a plugin that obeys the LADSPA interface. */
  ghost predicate ProperPlugins(ops: seq<GraphOp>, n: nat)
    requires n <= |ops|
  {
    forall k :: 0 <= k < n && ops[k].NewEffect? ==> PortsExclusive(ops[k].desc)
  }

  ghost predicate ProperEffects(g: Graph) {
    forall e :: 0 <= e < |g.effects| ==> PortsExclusive(g.effects[e].desc)
  }

  lemma ProperStep(g: Graph, op: GraphOp)
    requires WellFormed(g) && ProperEffects(g)
    ensures !HitsControlPort(g, op)
    ensures (op.NewEffect? ==> PortsExclusive(op.desc)) ==> ProperEffects(Apply(g, op).0)
  {
    ProperPluginsDetachNothing(g, op);
    hide Apply, WellFormed, ResolveLink;
  }

  lemma {:induction false} EffectsAreProper(inPlace: bool, ops: seq<GraphOp>, n: nat)
    requires n <= |ops| && ProperPlugins(ops, n)
    ensures ProperEffects(Run(inPlace, ops, n))
  {
    hide WellFormed, Apply, PortsExclusive;
    if n != 0 {
      EffectsAreProper(inPlace, ops, n - 1);
      ProperStep(Run(inPlace, ops, n - 1), ops[n - 1]);
    }
  }

  /** In every run with proper plugins each control port is linked to an allocated control node to which no
      other port is linked, and a reset leaves nothing allocated but the host nodes. */
  lemma ControlPortsOwnNodes(inPlace: bool, ops: seq<GraphOp>, n: nat)
    requires n <= |ops|
    requires forall k, p :: 0 <= k < n && ops[k].NewEffect? && 0 <= p < |ops[k].desc.ports| ==>
               !(ops[k].desc.ports[p].flags.control && ops[k].desc.ports[p].flags.audio)
    ensures var g := Run(inPlace, ops, n);
            && (forall e, p ::
                  (0 <= e < |g.effects| && 0 <= p < |g.effects[e].desc.ports|
                   && g.effects[e].desc.ports[p].flags.control)
                  ==> OwnsControlNode(g, e, p))
            && Cleared(g).nodes.Keys == set id | id in g.hosts
  {
    assert ProperPlugins(ops, n);
    hide Run, HitsControlPort, Cleared, NamesUnique, PortsExclusive, ProperEffects;
    forall k | 0 <= k < n ensures !HitsControlPort(Run(inPlace, ops, k), ops[k]) {
      EffectsAreProper(inPlace, ops, k);
      ProperStep(Run(inPlace, ops, k), ops[k]);
    }
    HitsAccumulate(inPlace, ops, n);
    ResetFreesAllUnless(inPlace, ops, n);
    var g := Run(inPlace, ops, n);
    ValidLinks(g);
    forall e, p | 0 <= e < |g.effects| && 0 <= p < |g.effects[e].desc.ports| && g.effects[e].desc.ports[p].flags.control
      ensures OwnsControlNode(g, e, p)
    {
      assert IsControlPort(g, e, p) && HasControlNode(g, e, p);
      assert Linked(g, e, p, g.effects[e].links[p].value);
    }
  }

  /** The port is linked to an allocated control node to which no other port is linked. */
  ghost predicate OwnsControlNode(g: Graph, e: int, p: int) {
    && 0 <= e < |g.effects| && 0 <= p < |g.effects[e].links| && g.effects[e].links[p].Some?
    && var id := g.effects[e].links[p].value;
       && id in g.nodes && g.nodes[id].kind == Control
       && forall e', p' :: Linked(g, e', p', id) ==> (e', p') == (e, p)
  }

  lemma LastStepOfReset(s: State)
    requires Inv(s) && s.api == Clearing
    ensures WellFormed(s.g) && Enabled(s, ApiStep) && Next(s, ApiStep).g == Cleared(s.g)
  {
    hide WellFormed, Cleared;
  }

  /** So after any interleaving with the render thread, the last step of a reset leaves nothing allocated
      but the host nodes. */
  lemma ResetGivesAllBack(inPlace: bool, steps: seq<Step>)
    requires Inv(Initial(inPlace)) && IsRun(Initial(inPlace), steps)
    requires forall op, p :: op in OpsOf(Initial(inPlace), steps) && op.NewEffect? && 0 <= p < |op.desc.ports| ==>
               !(op.desc.ports[p].flags.control && op.desc.ports[p].flags.audio)
    requires Final(Initial(inPlace), steps).api == Clearing
    ensures var s := Final(Initial(inPlace), steps);
            && WellFormed(s.g) && Enabled(s, ApiStep)
            && Next(s, ApiStep).g.nodes.Keys == set id | id in s.g.hosts
  {
    var ops := OpsOf(Initial(inPlace), steps);
    hide LadspaRuns.Run, Cleared, OpsOf, IsRun, Inv, WellFormed, Final, Next, Enabled, OwnsControlNode, Initial;
    GraphFromStart(inPlace, steps);
    ControlPortsOwnNodes(inPlace, ops, |ops|);
    FinalInv(Initial(inPlace), steps);
    LastStepOfReset(Final(Initial(inPlace), steps));
  }

  // ---------- Ports that are both ----------

  const BOTH_PORT := Port("io", PortFlags(true, false, true, true), 0.0)
  const BOTH_DESC := Descriptor([BOTH_PORT], false, false)

  /** Host port L is node 0, and the one port of the effect has node 1. */
  function BothGraph(inPlace: bool): Graph {
    Graph(map[0 := Node("L", Host, if inPlace then HostBuffer(1) else OwnBuffer(0), 0, 0, 0.0),
              1 := Node("", Control, OwnBuffer(1), 0, 1, 0.0)],
          [0], [], [Effect("fx", BOTH_DESC, false, false, [Some(1)])], 2, inPlace)
  }

  /** Linking a port that is both a control and an audio port takes it off its control node, and that
      node is still allocated after a reset. */
  lemma ResetLosesNode(inPlace: bool, ops: seq<GraphOp>)
    requires ops == [HostPort("L", 1), NewEffect("fx", BOTH_DESC), LinkPort("fx", "io", "L")]
    ensures Detached(Run(inPlace, ops, 2), ops[2]) == {1}
    ensures 1 in Cleared(Run(inPlace, ops, 3)).nodes && 1 !in Run(inPlace, ops, 3).hosts
  {
    hide Run, Apply, WellFormed, Cleared;
    RunStep(inPlace, ops, 0);
    RunStep(inPlace, ops, 1);
    RunStep(inPlace, ops, 2);
    BothStart(inPlace);
    BothResolves(inPlace);
    BothDetaches(inPlace);
  }

  lemma BothStart(inPlace: bool)
    ensures WellFormed(Empty(inPlace)) && WellFormed(BothGraph(inPlace))
    ensures var g := Apply(Empty(inPlace), HostPort("L", 1)).0;
            WellFormed(g) && Apply(g, NewEffect("fx", BOTH_DESC)).0 == BothGraph(inPlace)
  {
    EmptyWellFormed(inPlace);
    hide WellFormed;
    var g := BothGraph(inPlace).(nodes := map[0 := BothGraph(inPlace).nodes[0]], effects := [], nextId := 1);
    assert Apply(Empty(inPlace), HostPort("L", 1)).0 == g;
    StepKeeps(Empty(inPlace), HostPort("L", 1));
    BothEffect(g);
    hide AddHost;
    StepKeeps(g, NewEffect("fx", BOTH_DESC));
  }

  lemma BothEffect(g: Graph)
    requires g.effects == []
    ensures AddEffect(g, "fx", BOTH_DESC) ==
            g.(nodes := g.nodes[g.nextId := Node("", Control, OwnBuffer(g.nextId), 0, 1, 0.0)],
               effects := [Effect("fx", BOTH_DESC, false, false, [Some(g.nextId)])], nextId := g.nextId + 1)
  {
    var ports := BOTH_DESC.ports;
    assert ControlPorts(ports, 0) == 0;
    assert ControlPorts(ports, 1) == 1;
    assert WithControls(g.nodes, g.nextId, ports, 0) == g.nodes;
    assert WithControls(g.nodes, g.nextId, ports, 1) == g.nodes[g.nextId := ControlNode(g.nextId, ports[0])];
    assert ControlLinks(g.nextId, ports, 1) == [Some(g.nextId)];
  }

  lemma BothResolves(inPlace: bool)
    requires WellFormed(BothGraph(inPlace))
    ensures ResolveLink(BothGraph(inPlace), "fx", "io", "L") == LinkTo(0, 0, 0)
  {
    var g := BothGraph(inPlace);
    var names := PortNames(BOTH_DESC.ports);
    assert names == ["io"];
    EffectFoundByName(EffectNames(g.effects), 0);
    assert SameName(names[0], "io") && SameName("L", "L");
    hide SameName;
    assert FirstExact(names, "io") == 0;
    assert Partials(names, "io", 0) == [];
    assert ResolvePort(names, "io") == 0;
    assert [0] + [] == [0];
    assert FindNode(g, "L") == Some(0);
  }

  lemma BothDetaches(inPlace: bool)
    requires WellFormed(BothGraph(inPlace))
    requires ResolveLink(BothGraph(inPlace), "fx", "io", "L") == LinkTo(0, 0, 0)
    ensures var op := LinkPort("fx", "io", "L");
            && Detached(BothGraph(inPlace), op) == {1}
            && 1 in Cleared(Apply(BothGraph(inPlace), op).0).nodes
            && Apply(BothGraph(inPlace), op).0.hosts == [0]
  {
    hide ResolveLink, WellFormed;
  }
}
