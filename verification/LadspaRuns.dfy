/** What every sequence of operations on the LADSPA graph keeps. */
module LadspaRuns {
  import opened Options
  import opened LadspaNames
  import opened LadspaGraph

  datatype GraphOp =
    | HostPort(name: string, address: int)
    | UserBuffer(name: string)
    | NewEffect(name: string, desc: Descriptor)
    | LinkPort(effect: string, port: string, node: string)
    | ControlValue(effect: string, port: string, value: real)
    | MixMode(effect: string, mix: bool)
    | SwitchEffects(n: nat, active: bool)
    | Clear

  /** The graph after an operation, and whether the operation reports success. */
  ghost function Apply(g: Graph, op: GraphOp): (Graph, bool)
    requires WellFormed(g)
  {
    match op
    case HostPort(name, address) => AddHost(g, name, address)
    case UserBuffer(name) => AddUser(g, name)
    case NewEffect(name, desc) => (AddEffect(g, name, desc), true)
    case LinkPort(effect, port, node) => Link(g, effect, port, node)
    case ControlValue(effect, port, value) => SetControl(g, effect, port, value)
    case MixMode(effect, mix) => SetMix(g, effect, mix)
    case SwitchEffects(n, active) =>
      if n <= |g.effects| then (g.(effects := SetActive(g.effects, n, active)), true) else (g, false)
    case Clear => (Cleared(g), true)
  }

  // ---------- Well-formedness ----------

  /** The links of two graphs are the same. */
  ghost predicate SameLinks(g: Graph, h: Graph) {
    && |g.effects| == |h.effects|
    && forall e :: 0 <= e < |g.effects| ==>
         g.effects[e].links == h.effects[e].links && g.effects[e].desc == h.effects[e].desc
  }

  /** The nodes of two graphs are the same, except for counters and values. */
  ghost predicate SameNodes(g: Graph, h: Graph) {
    && h.hosts == g.hosts && h.users == g.users && h.nextId == g.nextId
    && h.nodes.Keys == g.nodes.Keys
    && forall id :: id in g.nodes ==>
         h.nodes[id].kind == g.nodes[id].kind && h.nodes[id].name == g.nodes[id].name
  }

  lemma SameNodesKeep(g: Graph, h: Graph)
    requires WellFormed(g) && SameNodes(g, h) && LinksValid(h) && ControlsPrivate(h)
    ensures WellFormed(h)
  {
  }

  lemma SameLinksKeep(g: Graph, h: Graph)
    requires WellFormed(g) && SameNodes(g, h) && SameLinks(g, h)
    ensures WellFormed(h)
  {
    LinkedSame(g, h);
    assert LinksValid(h) by {
      forall e, p, id | Linked(h, e, p, id)
        ensures id in h.nodes &&
                if h.nodes[id].kind == Control then h.effects[e].desc.ports[p].flags.control
                else h.effects[e].desc.ports[p].flags.audio && (id in h.hosts || id in h.users)
      {
        assert Linked(g, e, p, id);
      }
    }
    assert ControlsPrivate(h);
    SameNodesKeep(g, h);
  }

  lemma LinkedSame(g: Graph, h: Graph)
    requires SameLinks(g, h)
    ensures forall e, p, id :: Linked(g, e, p, id) <==> Linked(h, e, p, id)
  {
  }

  lemma AddHostKeeps(g: Graph, name: string, address: int)
    requires WellFormed(g)
    ensures WellFormed(AddHost(g, name, address).0)
  {
    var h := AddHost(g, name, address).0;
    if h != g {
      NewNodeKeepsNames(g, h, name);
      LinkedSame(g, h);
    }
  }

  lemma AddUserKeeps(g: Graph, name: string)
    requires WellFormed(g)
    ensures WellFormed(AddUser(g, name).0)
  {
    var h := AddUser(g, name).0;
    if h != g {
      NewNodeKeepsNames(g, h, name);
      LinkedSame(g, h);
    }
  }

  lemma NewNodeKeepsNames(g: Graph, h: Graph, name: string)
    requires WellFormed(g) && NameFree(g, name)
    requires h.nodes.Keys == g.nodes.Keys + {g.nextId}
    requires forall id :: id in g.nodes ==> h.nodes[id] == g.nodes[id]
    requires h.nodes[g.nextId].name == name
    ensures NamesUnique(h)
  {
    forall a, b | a in h.nodes && b in h.nodes && a != b && h.nodes[a].kind != Control && h.nodes[b].kind != Control
      && h.nodes[a].name != ""
      ensures !SameName(h.nodes[a].name, h.nodes[b].name)
    {
      if a == g.nextId {
        assert b in g.hosts + g.users;
      } else if b == g.nextId {
        assert a in g.hosts + g.users;
      }
    }
  }

  lemma {:induction false} ControlPortsGrow(ports: seq<Port>, p: nat, q: nat)
    requires p <= q <= |ports|
    ensures ControlPorts(ports, p) <= ControlPorts(ports, q)
    ensures p < q && ports[p].flags.control ==> ControlPorts(ports, p) < ControlPorts(ports, q)
    decreases q
  {
    if p < q {
      ControlPortsGrow(ports, p, q - 1);
    }
  }

  /** Creating control nodes leaves the existing nodes alone. */
  lemma {:induction false} WithControlsExtends(nodes: map<NodeId, Node>, nextId: NodeId, ports: seq<Port>, n: nat)
    requires n <= |ports|
    requires forall id :: id in nodes ==> id < nextId
    ensures var r := WithControls(nodes, nextId, ports, n);
            && (forall id :: id in nodes ==> id in r && r[id] == nodes[id])
            && (forall id :: id in r && id !in nodes ==>
                  nextId <= id < nextId + ControlPorts(ports, n) && r[id].kind == Control)
            && (forall p :: 0 <= p < n && ports[p].flags.control ==>
                  var id := nextId + ControlPorts(ports, p);
                  id in r && id !in nodes && r[id] == ControlNode(id, ports[p]))
  {
    if n != 0 {
      WithControlsExtends(nodes, nextId, ports, n - 1);
      forall p | 0 <= p < n - 1 && ports[p].flags.control
        ensures ControlPorts(ports, p) < ControlPorts(ports, n - 1)
      {
        ControlPortsGrow(ports, p, n - 1);
      }
    }
  }

  /** The links of a graph with one more effect. */
  lemma AddEffectLinks(g: Graph, name: string, desc: Descriptor)
    requires WellFormed(g)
    ensures var h := AddEffect(g, name, desc);
            forall e, p, id :: Linked(h, e, p, id) <==>
              Linked(g, e, p, id) ||
              (e == |g.effects| && 0 <= p < |desc.ports| && desc.ports[p].flags.control
               && id == g.nextId + ControlPorts(desc.ports, p))
  {
  }

  /** The effects of a graph with one more effect. */
  lemma AddEffectEffects(g: Graph, name: string, desc: Descriptor)
    ensures var h := AddEffect(g, name, desc);
            && |h.effects| == |g.effects| + 1
            && (forall e :: 0 <= e < |g.effects| ==> h.effects[e] == g.effects[e])
            && h.effects[|g.effects|].desc == desc && |h.effects[|g.effects|].links| == |desc.ports|
            && h.hosts == g.hosts && h.users == g.users
            && h.nodes == WithControls(g.nodes, g.nextId, desc.ports, |desc.ports|)
  {
  }

  lemma AddEffectLinksValid(g: Graph, name: string, desc: Descriptor)
    requires WellFormed(g)
    ensures LinksValid(AddEffect(g, name, desc))
  {
    hide WithControls, NamesUnique, ControlsPrivate, Distinct, AddEffect, Linked;
    var h := AddEffect(g, name, desc);
    AddEffectEffects(g, name, desc);
    AddEffectLinks(g, name, desc);
    WithControlsExtends(g.nodes, g.nextId, desc.ports, |desc.ports|);
    forall e, p, id: NodeId | Linked(h, e, p, id)
      ensures id in h.nodes && 0 <= e < |h.effects| && 0 <= p < |h.effects[e].desc.ports| &&
              if h.nodes[id].kind == Control then h.effects[e].desc.ports[p].flags.control
              else h.effects[e].desc.ports[p].flags.audio && (id in h.hosts || id in h.users)
    {
      LinkedInRange(h, e, p, id);
      if Linked(g, e, p, id) {
        LinkedInRange(g, e, p, id);
      }
    }
  }

  lemma LinkedInRange(g: Graph, e: int, p: int, id: NodeId)
    requires Linked(g, e, p, id)
    ensures 0 <= e < |g.effects| && 0 <= p < |g.effects[e].links|
  {
  }

  lemma AddEffectControlsPrivate(g: Graph, name: string, desc: Descriptor)
    requires WellFormed(g)
    ensures ControlsPrivate(AddEffect(g, name, desc))
  {
    hide WithControls, NamesUnique;
    var h := AddEffect(g, name, desc);
    AddEffectLinks(g, name, desc);
    WithControlsExtends(g.nodes, g.nextId, desc.ports, |desc.ports|);
    forall e, p, e', p', id: NodeId |
      Linked(h, e, p, id) && Linked(h, e', p', id) && id in h.nodes && h.nodes[id].kind == Control
      ensures e == e' && p == p'
    {
      if e < |g.effects| || e' < |g.effects| {
        assert id < g.nextId;
      } else if p < p' {
        ControlPortsGrow(desc.ports, p, p');
      } else if p' < p {
        ControlPortsGrow(desc.ports, p', p);
      }
    }
  }

  lemma AddEffectKeeps(g: Graph, name: string, desc: Descriptor)
    requires WellFormed(g)
    ensures WellFormed(AddEffect(g, name, desc))
  {
    hide WithControls, ControlLinks, Linked, LinksValid, ControlsPrivate;
    AddEffectLinksValid(g, name, desc);
    AddEffectControlsPrivate(g, name, desc);
    WithControlsExtends(g.nodes, g.nextId, desc.ports, |desc.ports|);
  }

  lemma ConnectLinks(g: Graph, e: nat, p: nat, id: NodeId)
    requires e < |g.effects| && p < |g.effects[e].links| == |g.effects[e].desc.ports| && id in g.nodes
    ensures forall e', p', id' :: Linked(Connect(g, e, p, id), e', p', id') <==>
              if (e', p') == (e, p) then id' == id else Linked(g, e', p', id')
  {
  }

  lemma ConnectKeeps(g: Graph, e: nat, p: nat, id: NodeId)
    requires WellFormed(g) && e < |g.effects| && p < |g.effects[e].links|
    requires id in g.hosts || id in g.users
    requires g.effects[e].desc.ports[p].flags.audio
    ensures WellFormed(Connect(g, e, p, id))
    ensures SameNodes(g, Connect(g, e, p, id))
  {
    hide NamesUnique, Distinct;
    var h := Connect(g, e, p, id);
    ConnectLinks(g, e, p, id);
    assert SameNodes(g, h);
    forall e', p', id' | Linked(h, e', p', id')
      ensures id' in h.nodes &&
              if h.nodes[id'].kind == Control then h.effects[e'].desc.ports[p'].flags.control
              else h.effects[e'].desc.ports[p'].flags.audio && (id' in h.hosts || id' in h.users)
    {
      assert (e', p') == (e, p) || Linked(g, e', p', id');
    }
    SameNodesKeep(g, h);
  }

  lemma LinkKeeps(g: Graph, effect: string, port: string, name: string)
    requires WellFormed(g)
    ensures WellFormed(Link(g, effect, port, name).0) && SameNodes(g, Link(g, effect, port, name).0)
  {
    hide ResolveLink, Connect, WellFormed;
    match ResolveLink(g, effect, port, name)
    case NoLink =>
    case LinkTo(e, p, id) => ConnectKeeps(g, e, p, id);
  }

  /** Setting a control changes at most the value of one node. */
  lemma SetControlChanges(g: Graph, effect: string, port: string, value: real)
    requires WellFormed(g)
    ensures var h := SetControl(g, effect, port, value).0;
            h == g || exists id :: id in g.nodes && h == g.(nodes := g.nodes[id := g.nodes[id].(value := value)])
  {
    hide FindEffect, ResolvePort;
  }

  lemma SetControlKeeps(g: Graph, effect: string, port: string, value: real)
    requires WellFormed(g)
    ensures var h := SetControl(g, effect, port, value).0;
            WellFormed(h) && SameLinks(g, h) && SameNodes(g, h)
  {
    hide SetControl, WellFormed;
    SetControlChanges(g, effect, port, value);
    SameLinksKeep(g, SetControl(g, effect, port, value).0);
  }

  lemma EffectsOnlyKeeps(g: Graph, h: Graph)
    requires WellFormed(g) && SameLinks(g, h) && h == g.(effects := h.effects)
    ensures WellFormed(h) && SameNodes(g, h)
  {
    hide WellFormed;
    SameLinksKeep(g, h);
  }

  lemma ClearedKeeps(g: Graph)
    requires WellFormed(g)
    ensures WellFormed(Cleared(g))
    ensures forall e, p, id :: !Linked(Cleared(g), e, p, id)
  {
  }

  lemma StepKeeps(g: Graph, op: GraphOp)
    requires WellFormed(g)
    ensures WellFormed(Apply(g, op).0)
  {
    hide AddHost, AddUser, AddEffect, Link, SetControl, Cleared, WellFormed;
    match op
    case HostPort(name, address) => AddHostKeeps(g, name, address);
    case UserBuffer(name) => AddUserKeeps(g, name);
    case NewEffect(name, desc) => AddEffectKeeps(g, name, desc);
    case LinkPort(effect, port, node) => LinkKeeps(g, effect, port, node);
    case ControlValue(effect, port, value) => SetControlKeeps(g, effect, port, value);
    case MixMode(effect, mix) => EffectsOnlyKeeps(g, SetMix(g, effect, mix).0);
    case SwitchEffects(n, active) => EffectsOnlyKeeps(g, Apply(g, op).0);
    case Clear => ClearedKeeps(g);
  }

  // ---------- Runs ----------

  /** The graph after the first n operations on an empty engine, in either build. */
  ghost function Run(inPlace: bool, ops: seq<GraphOp>, n: nat): (g: Graph)
    requires n <= |ops|
    ensures WellFormed(g)
  {
    if n == 0 then Empty(inPlace)
    else StepKeeps(Run(inPlace, ops, n - 1), ops[n - 1]); Apply(Run(inPlace, ops, n - 1), ops[n - 1]).0
  }

  // ---------- Counters ----------

  /** The ports of one direction that are linked to a node. */
  ghost function LinkSet(g: Graph, id: NodeId, input: bool): set<(int, int)> {
    set e, p | 0 <= e < |g.effects| && 0 <= p < |g.effects[e].links| && IsLink(g, e, p, id, input) :: (e, p)
  }

  /** Port p of effect e has the given direction and is linked to a node. */
  ghost predicate IsLink(g: Graph, e: int, p: int, id: NodeId, input: bool) {
    Linked(g, e, p, id) && p < |g.effects[e].desc.ports| && g.effects[e].desc.ports[p].flags.input == input
  }

  /** The link counter of a node for one direction of ports. */
  function Counter(n: Node, input: bool): nat {
    if input then n.numOutputs else n.numInputs
  }

  /** The operation links a port of this direction away from - or once more to - the node it is on. */
  ghost predicate Overwrites(g: Graph, op: GraphOp, id: NodeId, input: bool)
    requires WellFormed(g)
  {
    op.LinkPort? &&
    var t := ResolveLink(g, op.effect, op.port, op.node);
    t.LinkTo? && g.effects[t.e].links[t.p] == Some(id) && g.effects[t.e].desc.ports[t.p].flags.input == input
  }

  /** How often the first n operations linked a port away from a node since the last clear. */
  ghost function Overwritten(inPlace: bool, ops: seq<GraphOp>, n: nat, id: NodeId, input: bool): nat
    requires n <= |ops|
  {
    if n == 0 || ops[n - 1].Clear? || !IsAudioNode(Run(inPlace, ops, n - 1), id) then 0
    else Overwritten(inPlace, ops, n - 1, id, input) +
         if Overwrites(Run(inPlace, ops, n - 1), ops[n - 1], id, input) then 1 else 0
  }

  ghost predicate IsAudioNode(g: Graph, id: NodeId) {
    id in g.nodes && (id in g.hosts || id in g.users)
  }

  /** The counter of a node is the number of ports linked to it plus the number of overwritten links. */
  ghost predicate CountersAccountFor(g: Graph, id: NodeId, input: bool, overwritten: nat)
    requires id in g.nodes
  {
    Counter(g.nodes[id], input) == |LinkSet(g, id, input)| + overwritten
  }

  lemma SameLinkSet(g: Graph, h: Graph, id: NodeId, input: bool)
    requires SameLinks(g, h)
    ensures LinkSet(g, id, input) == LinkSet(h, id, input)
  {
    forall e, p ensures IsLink(g, e, p, id, input) <==> IsLink(h, e, p, id, input) {
    }
  }

  lemma ConnectLinkSet(g: Graph, e: nat, p: nat, target: NodeId, id: NodeId, input: bool)
    requires e < |g.effects| && p < |g.effects[e].links| == |g.effects[e].desc.ports| && target in g.nodes
    ensures var ours := g.effects[e].desc.ports[p].flags.input == input;
            LinkSet(Connect(g, e, p, target), id, input)
              == LinkSet(g, id, input) - {(e, p)} + (if target == id && ours then {(e, p)} else {})
    ensures (e, p) in LinkSet(g, id, input) <==>
              g.effects[e].links[p] == Some(id) && g.effects[e].desc.ports[p].flags.input == input
  {
    var h := Connect(g, e, p, target);
    forall e', p' | (e', p') != (e, p) ensures IsLink(h, e', p', id, input) <==> IsLink(g, e', p', id, input) {
    }
  }

  lemma ConnectCounts(g: Graph, e: nat, p: nat, target: NodeId, id: NodeId, input: bool, overwritten: nat)
    requires e < |g.effects| && p < |g.effects[e].links| == |g.effects[e].desc.ports|
    requires target in g.nodes && id in g.nodes
    requires CountersAccountFor(g, id, input, overwritten)
    ensures CountersAccountFor(Connect(g, e, p, target), id, input,
              overwritten + if g.effects[e].links[p] == Some(id) && g.effects[e].desc.ports[p].flags.input == input
                            then 1 else 0)
  {
    hide LinkSet;
    ConnectLinkSet(g, e, p, target, id, input);
    var before := LinkSet(g, id, input);
    if (e, p) in before {
      assert |before - {(e, p)}| == |before| - 1;
    } else {
      assert before - {(e, p)} == before;
    }
    if target == id && g.effects[e].desc.ports[p].flags.input == input {
      assert |before - {(e, p)} + {(e, p)}| == |before - {(e, p)}| + 1;
    } else {
      assert before - {(e, p)} + {} == before - {(e, p)};
    }
  }

  lemma AddEffectAudioNodes(g: Graph, name: string, desc: Descriptor, id: NodeId)
    requires WellFormed(g) && IsAudioNode(AddEffect(g, name, desc), id)
    ensures IsAudioNode(g, id)
  {
    hide WithControls, ControlLinks;
  }

  lemma AddEffectCounts(g: Graph, name: string, desc: Descriptor, id: NodeId, input: bool, overwritten: nat)
    requires WellFormed(g) && IsAudioNode(g, id) && CountersAccountFor(g, id, input, overwritten)
    ensures WellFormed(AddEffect(g, name, desc)) && id in AddEffect(g, name, desc).nodes
    ensures CountersAccountFor(AddEffect(g, name, desc), id, input, overwritten)
  {
    hide WithControls, ControlLinks;
    AddEffectKeeps(g, name, desc);
    WithControlsExtends(g.nodes, g.nextId, desc.ports, |desc.ports|);
    var h := AddEffect(g, name, desc);
    AddEffectLinks(g, name, desc);
    forall e, p ensures IsLink(h, e, p, id, input) <==> IsLink(g, e, p, id, input) {
    }
    assert LinkSet(h, id, input) == LinkSet(g, id, input);
  }

  /** Adding a host or user node: nothing is linked to it yet. */
  lemma AddNodeCounts(g: Graph, h: Graph, id: NodeId, input: bool, overwritten: nat)
    requires WellFormed(g) && WellFormed(h) && SameLinks(g, h)
    requires IsAudioNode(g, id) ==> CountersAccountFor(g, id, input, overwritten)
    requires IsAudioNode(h, id)
    requires forall i :: i in g.nodes ==> i in h.nodes && h.nodes[i] == g.nodes[i]
    requires id !in g.nodes ==> Counter(h.nodes[id], input) == 0
    ensures CountersAccountFor(h, id, input, if IsAudioNode(g, id) then overwritten else 0)
  {
    SameLinkSet(g, h, id, input);
    if id !in g.nodes {
      forall e, p ensures !IsLink(g, e, p, id, input) {
      }
      assert LinkSet(h, id, input) == {};
    }
  }

  /** One operation keeps the account of every audio node. */
  lemma StepCounts(g: Graph, op: GraphOp, id: NodeId, input: bool, overwritten: nat)
    requires WellFormed(g)
    requires WellFormed(Apply(g, op).0) && IsAudioNode(Apply(g, op).0, id)
    requires IsAudioNode(g, id) ==> CountersAccountFor(g, id, input, overwritten)
    requires !IsAudioNode(g, id) ==> overwritten == 0
    ensures CountersAccountFor(Apply(g, op).0, id, input,
              if op.Clear? || !IsAudioNode(g, id) then 0
              else overwritten + if Overwrites(g, op, id, input) then 1 else 0)
  {
    hide WellFormed, AddEffect, Link, SetControl, Cleared, LinkSet, NameFree, Linked, ResolveLink;
    var h := Apply(g, op).0;
    FreshId(g);
    match op
    case HostPort(name, address) =>
      AddNodeCounts(g, h, id, input, overwritten);
    case UserBuffer(name) =>
      AddNodeCounts(g, h, id, input, overwritten);
    case NewEffect(name, desc) =>
      assert IsAudioNode(g, id) by { AddEffectAudioNodes(g, name, desc, id); }
      AddEffectCounts(g, name, desc, id, input, overwritten);
    case LinkPort(effect, port, node) =>
      LinkKeeps(g, effect, port, node);
      LinkCounts(g, effect, port, node, id, input, overwritten);
    case ControlValue(effect, port, value) =>
      SetControlChanges(g, effect, port, value);
      SetControlKeeps(g, effect, port, value);
      SameLinkSet(g, h, id, input);
    case MixMode(effect, mix) => SameLinkSet(g, h, id, input);
    case SwitchEffects(n, active) => SameLinkSet(g, h, id, input);
    case Clear => ClearedCounts(g, id, input);
  }

  lemma FreshId(g: Graph)
    requires WellFormed(g)
    ensures g.nextId !in g.nodes
  {
  }

  lemma ClearedCounts(g: Graph, id: NodeId, input: bool)
    requires WellFormed(g) && IsAudioNode(Cleared(g), id)
    ensures CountersAccountFor(Cleared(g), id, input, 0)
  {
    ClearedKeeps(g);
    assert LinkSet(Cleared(g), id, input) == {};
  }

  lemma LinkCounts(g: Graph, effect: string, port: string, name: string, id: NodeId, input: bool, overwritten: nat)
    requires WellFormed(g) && IsAudioNode(g, id) && CountersAccountFor(g, id, input, overwritten)
    requires WellFormed(Link(g, effect, port, name).0) && id in Link(g, effect, port, name).0.nodes
    ensures CountersAccountFor(Link(g, effect, port, name).0, id, input,
              overwritten + if Overwrites(g, LinkPort(effect, port, name), id, input) then 1 else 0)
  {
    hide ResolveLink, WellFormed;
    match ResolveLink(g, effect, port, name)
    case NoLink =>
    case LinkTo(e, p, target) => ConnectCounts(g, e, p, target, id, input, overwritten);
  }

  /** In every run: counters count link operations, that is, current links plus overwritten ones. */
  lemma {:induction false} CountersConserved(inPlace: bool, ops: seq<GraphOp>, n: nat, id: NodeId, input: bool)
    requires n <= |ops| && IsAudioNode(Run(inPlace, ops, n), id)
    ensures CountersAccountFor(Run(inPlace, ops, n), id, input, Overwritten(inPlace, ops, n, id, input))
  {
    hide Apply, Overwrites, WellFormed;
    if n != 0 {
      if IsAudioNode(Run(inPlace, ops, n - 1), id) {
        CountersConserved(inPlace, ops, n - 1, id, input);
        StepCounts(Run(inPlace, ops, n - 1), ops[n - 1], id, input, Overwritten(inPlace, ops, n - 1, id, input));
      } else {
        StepCounts(Run(inPlace, ops, n - 1), ops[n - 1], id, input, 0);
      }
    }
  }
}
