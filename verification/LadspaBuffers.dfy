/** Which nodes work on the same memory, in the two builds. */
module LadspaBuffers {
  import opened Options
  import opened LadspaNames
  import opened LadspaGraph
  import opened LadspaRuns
  import opened LadspaOwnership

  /** The node has memory of its own, unless it stands for the host's. */
  predicate HasItsBuffer(inPlace: bool, id: NodeId, n: Node) {
    if inPlace && n.kind == Host then n.buffer.HostBuffer? else n.buffer == OwnBuffer(id)
  }

  ghost predicate NodesFine(nodes: map<NodeId, Node>, inPlace: bool) {
    forall id :: id in nodes ==> HasItsBuffer(inPlace, id, nodes[id])
  }

  ghost predicate BuffersFine(g: Graph, inPlace: bool) {
    g.inPlace == inPlace && NodesFine(g.nodes, inPlace)
  }

  lemma {:induction false} ControlsFine(nodes: map<NodeId, Node>, nextId: NodeId, ports: seq<Port>, n: nat,
                                        inPlace: bool)
    requires n <= |ports| && NodesFine(nodes, inPlace)
    ensures NodesFine(WithControls(nodes, nextId, ports, n), inPlace)
  {
    if n != 0 {
      ControlsFine(nodes, nextId, ports, n - 1, inPlace);
    }
  }

  lemma StepKeepsBuffers(g: Graph, op: GraphOp, inPlace: bool)
    requires WellFormed(g) && BuffersFine(g, inPlace)
    ensures BuffersFine(Apply(g, op).0, inPlace)
  {
    hide WellFormed, WithControls, ControlLinks, ResolveLink, SetControl, NameFree, ControlsOf;
    match op
    case NewEffect(name, desc) => ControlsFine(g.nodes, g.nextId, desc.ports, |desc.ports|, inPlace);
    case ControlValue(effect, port, value) => SetControlChanges(g, effect, port, value);
    case _ =>
  }

  lemma {:induction false} RunBuffers(inPlace: bool, ops: seq<GraphOp>, n: nat)
    requires n <= |ops|
    ensures BuffersFine(Run(inPlace, ops, n), inPlace)
  {
    hide Apply, WellFormed;
    if n != 0 {
      RunBuffers(inPlace, ops, n - 1);
      StepKeepsBuffers(Run(inPlace, ops, n - 1), ops[n - 1], inPlace);
    }
  }

  /** In every run two different nodes share a buffer only if both are host nodes and effects work on the
      host's buffers directly. */
  lemma SharedOnlyByHosts(inPlace: bool, ops: seq<GraphOp>, n: nat, a: NodeId, b: NodeId)
    requires n <= |ops| && a in Run(inPlace, ops, n).nodes && b in Run(inPlace, ops, n).nodes && a != b
    requires Run(inPlace, ops, n).nodes[a].buffer == Run(inPlace, ops, n).nodes[b].buffer
    ensures inPlace && a in Run(inPlace, ops, n).hosts && b in Run(inPlace, ops, n).hosts
  {
    hide Run;
    RunBuffers(inPlace, ops, n);
  }

  /** And they do share one, in that build only, if the host gives the same buffer twice. */
  lemma HostsMayShare(inPlace: bool, ops: seq<GraphOp>)
    requires ops == [HostPort("L", 1), HostPort("R", 1)]
    ensures var g := Run(inPlace, ops, 2);
            0 in g.nodes && 1 in g.nodes && (g.nodes[0].buffer == g.nodes[1].buffer <==> inPlace)
  {
    RunStep(inPlace, ops, 0);
    RunStep(inPlace, ops, 1);
    HostsAdded(inPlace);
    hide Run, Apply, WellFormed;
  }

  lemma HostsAdded(inPlace: bool)
    ensures WellFormed(Empty(inPlace))
    ensures var g := Apply(Empty(inPlace), HostPort("L", 1)).0;
            && WellFormed(g)
            && var h := Apply(g, HostPort("R", 1)).0;
               0 in h.nodes && 1 in h.nodes && (h.nodes[0].buffer == h.nodes[1].buffer <==> inPlace)
  {
    hide WellFormed;
    EmptyWellFormed(inPlace);
    StepKeeps(Empty(inPlace), HostPort("L", 1));
    var g := Apply(Empty(inPlace), HostPort("L", 1)).0;
    assert g.hosts + g.users == [0];
    assert Lower("L"[0]) != Lower("R"[0]);
    assert NameFree(g, "R");
  }

  /** Two audio ports of the effect with different directions are linked to one node. */
  ghost predicate SharesNode(e: Effect) {
    exists i, k ::
      && 0 <= i < |e.links| && 0 <= k < |e.links| && i < |e.desc.ports| && k < |e.desc.ports|
      && e.desc.ports[i].flags.audio && e.desc.ports[k].flags.audio
      && (e.desc.ports[i].flags.input != e.desc.ports[k].flags.input
          || e.desc.ports[i].flags.output != e.desc.ports[k].flags.output)
      && e.links[i] == e.links[k]
  }

  /** Activation is permitted exactly if there are effects, every port is linked, no effect whose plugin
      cannot work in place has two audio ports of different directions on nodes with the same buffer, some
      link from an output was counted on a host node, and links in both directions on every user node. */
  lemma CheckedMeans(g: Graph)
    requires WellFormed(g)
    ensures Checked(g) <==>
            && g.effects != []
            && (forall e, p :: 0 <= e < |g.effects| && 0 <= p < |g.effects[e].links| ==> g.effects[e].links[p].Some?)
            && (forall e, i, k :: 0 <= e < |g.effects| ==> !Clash(g, g.effects[e], i, k))
            && (exists id :: id in g.hosts && g.nodes[id].numInputs > 0)
            && (forall id :: id in g.users ==> g.nodes[id].numInputs > 0 && g.nodes[id].numOutputs > 0)
  {
    hide ControlsPrivate, NamesUnique, Distinct;
    if forall e, p :: 0 <= e < |g.effects| && 0 <= p < |g.effects[e].links| ==> g.effects[e].links[p].Some? {
      forall e | 0 <= e < |g.effects|
        ensures InPlaceFine(g, g.effects[e]) <==> forall i, k :: !Clash(g, g.effects[e], i, k)
      {
        InPlaceMeans(g, e);
      }
    }
  }

  /** The ports i and k of an effect whose plugin cannot work in place are audio ports with different
      direction bits, and linked to nodes with the same buffer. */
  ghost predicate Clash(g: Graph, e: Effect, i: int, k: int) {
    && e.desc.inPlaceBroken && 0 <= i < |e.desc.ports| && 0 <= k < |e.desc.ports|
    && e.desc.ports[i].flags.audio && e.desc.ports[k].flags.audio
    && (e.desc.ports[i].flags.input != e.desc.ports[k].flags.input
        || e.desc.ports[i].flags.output != e.desc.ports[k].flags.output)
    && i < |e.links| && k < |e.links| && e.links[i].Some? && e.links[k].Some?
    && e.links[i].value in g.nodes && e.links[k].value in g.nodes
    && g.nodes[e.links[i].value].buffer == g.nodes[e.links[k].value].buffer
  }

  lemma InPlaceMeans(g: Graph, e: nat)
    requires WellFormed(g) && e < |g.effects| && AllConnected(g.effects[e])
    ensures InPlaceFine(g, g.effects[e]) <==> forall i, k :: !Clash(g, g.effects[e], i, k)
  {
    var effect := g.effects[e];
    hide ControlsPrivate, NamesUnique, Distinct;
    forall p | 0 <= p < |effect.links| ensures effect.links[p].Some? && effect.links[p].value in g.nodes {
      assert Linked(g, e, p, effect.links[p].value);
    }
    if effect.desc.inPlaceBroken && !InPlaceFine(g, effect) {
      var i, k :| 0 <= i < |effect.links| && 0 <= k < |effect.links|
                  && i < |effect.desc.ports| && k < |effect.desc.ports|
                  && Opposed(effect.desc.ports[i].flags, effect.desc.ports[k].flags)
                  && BufferOf(g, effect.links[i]) == BufferOf(g, effect.links[k]);
      assert Clash(g, effect, i, k);
    }
    if exists i, k :: Clash(g, effect, i, k) {
      var i, k :| Clash(g, effect, i, k);
      assert BufferOf(g, effect.links[i]) == BufferOf(g, effect.links[k]);
    }
  }

  /** With separate buffers, comparing buffers is comparing nodes. */
  lemma CheckComparesNodes(ops: seq<GraphOp>, n: nat, e: nat)
    requires n <= |ops| && e < |Run(false, ops, n).effects| && AllConnected(Run(false, ops, n).effects[e])
    ensures InPlaceFine(Run(false, ops, n), Run(false, ops, n).effects[e]) <==>
            !(Run(false, ops, n).effects[e].desc.inPlaceBroken && SharesNode(Run(false, ops, n).effects[e]))
  {
    RunBuffers(false, ops, n);
    var g := Run(false, ops, n);
    hide Run, ControlsPrivate, NamesUnique, Distinct;
    var effect := g.effects[e];
    forall i | 0 <= i < |effect.links| ensures effect.links[i].Some? && effect.links[i].value in g.nodes {
      assert Linked(g, e, i, effect.links[i].value);
    }
    if effect.desc.inPlaceBroken && SharesNode(effect) {
      var i, k :|
        && 0 <= i < |effect.links| && 0 <= k < |effect.links| && i < |effect.desc.ports| && k < |effect.desc.ports|
        && Opposed(effect.desc.ports[i].flags, effect.desc.ports[k].flags) && effect.links[i] == effect.links[k];
      assert BufferOf(g, effect.links[i]) == BufferOf(g, effect.links[k]);
    }
  }
}
