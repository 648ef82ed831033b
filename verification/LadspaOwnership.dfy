/** What the link counters are worth, and who frees which node. */
module LadspaOwnership {
  import opened Options
  import opened LadspaNames
  import opened LadspaGraph
  import opened LadspaRuns

  // ---------- Counters and real links ----------

  /** Some port of this direction is linked to the node. */
  ghost predicate HasLink(g: Graph, id: NodeId, input: bool) {
    exists e, p :: IsLink(g, e, p, id, input)
  }

  /** A node really has a writer (or reader) exactly if its counter exceeds the overwritten links. */
  lemma RealLinks(inPlace: bool, ops: seq<GraphOp>, n: nat, id: NodeId, input: bool)
    requires n <= |ops| && IsAudioNode(Run(inPlace, ops, n), id)
    ensures HasLink(Run(inPlace, ops, n), id, input) <==>
            Counter(Run(inPlace, ops, n).nodes[id], input) > Overwritten(inPlace, ops, n, id, input)
  {
    hide Run, Overwritten;
    CountersConserved(inPlace, ops, n, id, input);
    var g := Run(inPlace, ops, n);
    var links := LinkSet(g, id, input);
    if HasLink(g, id, input) {
      var e, p :| IsLink(g, e, p, id, input);
      assert (e, p) in links;
    } else {
      assert links == {};
    }
  }

  /** The operations before the last clear among the first n, and that one. */
  function LastClear(ops: seq<GraphOp>, n: nat): (k: nat)
    requires n <= |ops|
    ensures k <= n && (k > 0 ==> ops[k - 1].Clear?)
    ensures forall i :: k <= i < n ==> !ops[i].Clear?
  {
    if n == 0 || ops[n - 1].Clear? then n else LastClear(ops, n - 1)
  }

  /** No operation since the last clear linked a port that was linked already. */
  ghost predicate NeverRelinked(inPlace: bool, ops: seq<GraphOp>, n: nat)
    requires n <= |ops|
  {
    forall k, id, input :: LastClear(ops, n) <= k < n ==> !Overwrites(Run(inPlace, ops, k), ops[k], id, input)
  }

  lemma {:induction false} NothingOverwritten(inPlace: bool, ops: seq<GraphOp>, n: nat, m: nat,
                                              id: NodeId, input: bool)
    requires n <= |ops| && LastClear(ops, n) <= m <= n && NeverRelinked(inPlace, ops, n)
    ensures Overwritten(inPlace, ops, m, id, input) == 0
    decreases m
  {
    hide Run, Overwrites;
    if m != LastClear(ops, n) {
      NothingOverwritten(inPlace, ops, n, m - 1, id, input);
    }
  }

  /** If no port was linked twice since the last clear, a graph that passes the check has a host node
      some effect writes to, and every user buffer has both a writer and a reader. */
  lemma CheckedMeansConnected(inPlace: bool, ops: seq<GraphOp>, n: nat)
    requires n <= |ops| && Checked(Run(inPlace, ops, n)) && NeverRelinked(inPlace, ops, n)
    ensures exists id :: id in Run(inPlace, ops, n).hosts && HasLink(Run(inPlace, ops, n), id, false)
    ensures forall id :: id in Run(inPlace, ops, n).users ==>
              HasLink(Run(inPlace, ops, n), id, false) && HasLink(Run(inPlace, ops, n), id, true)
  {
    hide Run, NeverRelinked, Overwritten, HasLink, LinksValid, ControlsPrivate, NamesUnique;
    var g := Run(inPlace, ops, n);
    forall id | id in g.users ensures HasLink(g, id, false) && HasLink(g, id, true) {
      NothingOverwritten(inPlace, ops, n, n, id, false);
      NothingOverwritten(inPlace, ops, n, n, id, true);
      RealLinks(inPlace, ops, n, id, false);
      RealLinks(inPlace, ops, n, id, true);
    }
    var id :| id in g.hosts && id in g.nodes && g.nodes[id].numInputs != 0;
    NothingOverwritten(inPlace, ops, n, n, id, false);
    RealLinks(inPlace, ops, n, id, false);
  }

  const IN_PORT := Port("in", PortFlags(true, false, false, true), 0.0)
  const OUT_PORT := Port("out", PortFlags(false, true, false, true), 0.0)
  const RELINK_DESC := Descriptor([IN_PORT, OUT_PORT], false, false)

  /** Host port L is node 0, user buffer B is node 1, and there is one effect. */
  function RelinkGraph(inPlace: bool, links: seq<Option<NodeId>>, hostIn: nat, userIn: nat, userOut: nat): Graph {
    Graph(map[0 := Node("L", Host, if inPlace then HostBuffer(1) else OwnBuffer(0), hostIn, 0, 0.0),
              1 := Node("B", User, OwnBuffer(1), userIn, userOut, 0.0)],
          [0], [1], [Effect("fx", RELINK_DESC, false, false, links)], 2, inPlace)
  }

  /** Relinking an output from a buffer to a host port leaves the buffer's counter behind: the check
      passes, but nothing writes to the buffer the effect reads. */
  lemma RelinkFoolsTheCheck(inPlace: bool, ops: seq<GraphOp>)
    requires ops == [HostPort("L", 1), UserBuffer("B"), NewEffect("fx", RELINK_DESC),
                     LinkPort("fx", "out", "B"), LinkPort("fx", "out", "L"), LinkPort("fx", "in", "B")]
    ensures Checked(Run(inPlace, ops, 6)) && 1 in Run(inPlace, ops, 6).users && !HasLink(Run(inPlace, ops, 6), 1, false)
  {
    hide Run, Apply, WellFormed;
    RunStep(inPlace, ops, 0);
    RunStep(inPlace, ops, 1);
    RunStep(inPlace, ops, 2);
    RelinkStart(inPlace);
    var unlinked: seq<Option<NodeId>> := [None, None];
    RunStep(inPlace, ops, 3);
    RelinkStep(inPlace, Run(inPlace, ops, 3), unlinked, 0, 0, "out", "B", 1, 1);
    assert unlinked[1 := Some(1)] == [None, Some(1)];
    RunStep(inPlace, ops, 4);
    RelinkStep(inPlace, Run(inPlace, ops, 4), [None, Some(1)], 0, 1, "out", "L", 1, 0);
    assert unlinked[1 := Some(1)][1 := Some(0)] == [None, Some(0)];
    RunStep(inPlace, ops, 5);
    RelinkStep(inPlace, Run(inPlace, ops, 5), [None, Some(0)], 1, 1, "in", "B", 0, 1);
    assert unlinked[1 := Some(0)][0 := Some(1)] == [Some(1), Some(0)];
    RelinkOutcome(inPlace);
  }

  lemma RunStep(inPlace: bool, ops: seq<GraphOp>, n: nat)
    requires n < |ops|
    ensures n == 0 ==> Run(inPlace, ops, n) == Empty(inPlace)
    ensures Run(inPlace, ops, n + 1) == Apply(Run(inPlace, ops, n), ops[n]).0
  {
    hide Apply, WellFormed;
  }

  lemma RelinkOutcome(inPlace: bool)
    ensures var g := RelinkGraph(inPlace, [Some(1), Some(0)], 1, 1, 1);
            Checked(g) && 1 in g.users && !HasLink(g, 1, false)
  {
    var g := RelinkGraph(inPlace, [Some(1), Some(0)], 1, 1, 1);
    assert 0 in g.hosts;
    forall e, p ensures !IsLink(g, e, p, 1, false) {
    }
  }

  lemma NamesDiffer()
    ensures !SameName("L", "B") && !SameName("in", "out")
  {
    assert Lower("L"[0]) != Lower("B"[0]);
  }

  lemma RelinkStart(inPlace: bool)
    ensures WellFormed(Empty(inPlace))
    ensures var g1 := Apply(Empty(inPlace), HostPort("L", 1)).0;
            WellFormed(g1) &&
            var g2 := Apply(g1, UserBuffer("B")).0;
            WellFormed(g2) && Apply(g2, NewEffect("fx", RELINK_DESC)).0 == RelinkGraph(inPlace, [None, None], 0, 0, 0)
  {
    NamesDiffer();
    hide SameName, WellFormed;
    assert WellFormed(Empty(inPlace)) by { EmptyWellFormed(inPlace); }
    var g1 := Graph(map[0 := Node("L", Host, if inPlace then HostBuffer(1) else OwnBuffer(0), 0, 0, 0.0)],
                   [0], [], [], 1, inPlace);
    var g2 := RelinkGraph(inPlace, [None, None], 0, 0, 0).(effects := []);
    StepKeeps(Empty(inPlace), HostPort("L", 1));
    assert Apply(Empty(inPlace), HostPort("L", 1)).0 == g1;
    StepKeeps(g1, UserBuffer("B"));
    assert Apply(g1, UserBuffer("B")).0 == g2 by {
      assert [0] + [] == [0];
      assert FirstNamed(g1.nodes, [0], "B") == None;
      assert NameFree(g1, "B");
    }
    RelinkEffect(g2);
  }

  lemma EmptyWellFormed(inPlace: bool)
    ensures WellFormed(Empty(inPlace))
  {
  }

  lemma RelinkEffect(g: Graph)
    requires g.effects == []
    ensures AddEffect(g, "fx", RELINK_DESC) == g.(effects := [Effect("fx", RELINK_DESC, false, false, [None, None])])
  {
    var ports := RELINK_DESC.ports;
    assert ControlPorts(ports, 0) == 0;
    assert ControlPorts(ports, 1) == 0;
    assert ControlPorts(ports, 2) == 0;
    assert WithControls(g.nodes, g.nextId, ports, 0) == g.nodes;
    assert WithControls(g.nodes, g.nextId, ports, 1) == g.nodes;
    assert WithControls(g.nodes, g.nextId, ports, 2) == g.nodes;
    assert ControlLinks(g.nextId, ports, 2) == [None, None];
  }

  lemma RelinkResolves(g: Graph, port: string, name: string, p: nat, id: NodeId)
    requires WellFormed(g) && |g.effects| == 1 && g.effects[0].name == "fx" && g.effects[0].desc == RELINK_DESC
    requires g.hosts == [0] && g.users == [1] && g.nodes[0].name == "L" && g.nodes[1].name == "B"
    requires p < 2 && port == RELINK_DESC.ports[p].name && id < 2 && name == g.nodes[id].name
    ensures ResolveLink(g, "fx", port, name) == LinkTo(0, p, id)
  {
    NamesDiffer();
    var names := PortNames(RELINK_DESC.ports);
    assert names == ["in", "out"];
    EffectFoundByName(EffectNames(g.effects), 0);
    assert SameName(names[p], port);
    hide SameName;
    assert FirstExact(names, port) == p;
    assert Partials(names, port, 0) == [];
    assert Partials(names, port, p) == [];
    assert ResolvePort(names, port) == p;
    assert [0] + [1] == [0, 1];
    assert FindNode(g, name) == Some(id);
  }

  lemma RelinkStep(inPlace: bool, g: Graph, links: seq<Option<NodeId>>, hostIn: nat, userIn: nat,
                   port: string, name: string, p: nat, id: NodeId)
    requires WellFormed(g) && |links| == 2 && g == RelinkGraph(inPlace, links, hostIn, userIn, 0)
    requires p < 2 && port == RELINK_DESC.ports[p].name && id < 2 && name == (if id == 0 then "L" else "B")
    requires p == 0 ==> id == 1
    ensures Apply(g, LinkPort("fx", port, name)).0 ==
            RelinkGraph(inPlace, links[p := Some(id)], if id == 0 && p == 1 then hostIn + 1 else hostIn,
                        if id == 1 && p == 1 then userIn + 1 else userIn, if p == 0 then 1 else 0)
  {
    hide ResolveLink, WellFormed;
    RelinkResolves(g, port, name, p, id);
  }

  // ---------- Ownership of control nodes ----------

  /** The control node an operation unlinks from its port without freeing it. */
  ghost function Detached(g: Graph, op: GraphOp): set<NodeId>
    requires WellFormed(g)
  {
    if !op.LinkPort? then {}
    else
      var t := ResolveLink(g, op.effect, op.port, op.node);
      if t.LinkTo? && g.effects[t.e].links[t.p].Some? then
        var id := g.effects[t.e].links[t.p].value;
        if id in g.nodes && g.nodes[id].kind == Control then {id} else {}
      else {}
  }

  lemma SameLinksOrphans(g: Graph, h: Graph)
    requires SameLinks(g, h)
    requires forall id :: id in h.nodes && h.nodes[id].kind == Control <==> id in g.nodes && g.nodes[id].kind == Control
    ensures Orphans(h) == Orphans(g)
  {
    LinkedSame(g, h);
  }

  lemma ConnectOrphans(g: Graph, e: nat, p: nat, id: NodeId)
    requires WellFormed(g) && e < |g.effects| && p < |g.effects[e].links|
    requires (id in g.hosts || id in g.users) && g.effects[e].desc.ports[p].flags.audio
    ensures WellFormed(Connect(g, e, p, id))
    ensures var old' := g.effects[e].links[p];
            Orphans(Connect(g, e, p, id)) == Orphans(g) +
              if old'.Some? && old'.value in g.nodes && g.nodes[old'.value].kind == Control then {old'.value} else {}
  {
    hide NamesUnique, Distinct, Connect;
    ConnectKeeps(g, e, p, id);
    ConnectLinks(g, e, p, id);
    var h := Connect(g, e, p, id);
    forall c: NodeId | c in g.nodes && g.nodes[c].kind == Control
      ensures c in Orphans(h) <==> c in Orphans(g) || g.effects[e].links[p] == Some(c)
    {
      if g.effects[e].links[p] == Some(c) {
        assert Linked(g, e, p, c);
      } else if c !in Orphans(g) {
        var e', p' :| Linked(g, e', p', c);
        assert Linked(h, e', p', c);
      }
    }
  }

  lemma AddEffectOrphans(g: Graph, name: string, desc: Descriptor)
    requires WellFormed(g)
    ensures Orphans(AddEffect(g, name, desc)) == Orphans(g)
  {
    hide WithControls, ControlLinks, NamesUnique, Distinct;
    var h := AddEffect(g, name, desc);
    AddEffectLinks(g, name, desc);
    WithControlsExtends(g.nodes, g.nextId, desc.ports, |desc.ports|);
    forall c: NodeId | c in h.nodes && h.nodes[c].kind == Control
      ensures c in Orphans(h) <==> c in Orphans(g)
    {
      if c in g.nodes {
        if c !in Orphans(g) {
          var e, p :| Linked(g, e, p, c);
          assert Linked(h, e, p, c);
        }
      } else {
        var p := NewControlPort(g, desc, |desc.ports|, c);
        assert Linked(h, |g.effects|, p, c);
      }
    }
  }

  /** Every newly created node belongs to a control port. */
  lemma {:induction false} NewControlPort(g: Graph, desc: Descriptor, n: nat, c: NodeId) returns (p: nat)
    requires n <= |desc.ports|
    requires c in WithControls(g.nodes, g.nextId, desc.ports, n) && c !in g.nodes
    ensures p < n && desc.ports[p].flags.control && c == g.nextId + ControlPorts(desc.ports, p)
  {
    if desc.ports[n - 1].flags.control && c == g.nextId + ControlPorts(desc.ports, n - 1) {
      p := n - 1;
    } else {
      p := NewControlPort(g, desc, n - 1, c);
    }
  }

  lemma ClearedOrphans(g: Graph)
    requires WellFormed(g)
    ensures Orphans(Cleared(g)) == Orphans(g)
  {
    ClearedKeeps(g);
  }

  lemma OrphanStep(g: Graph, op: GraphOp)
    requires WellFormed(g)
    ensures Orphans(Apply(g, op).0) == Orphans(g) + Detached(g, op)
  {
    hide WellFormed, AddEffect, ResolveLink, SetControl, Cleared, Orphans, Connect, NameFree, SetActive, FindEffect;
    var h := Apply(g, op).0;
    FreshId(g);
    match op
    case HostPort(name, address) => SameLinksOrphans(g, h);
    case UserBuffer(name) => SameLinksOrphans(g, h);
    case NewEffect(name, desc) => AddEffectOrphans(g, name, desc);
    case LinkPort(effect, port, node) =>
      match ResolveLink(g, effect, port, node) {
        case NoLink =>
        case LinkTo(e, p, id) => ConnectOrphans(g, e, p, id);
      }
    case ControlValue(effect, port, value) =>
      SetControlKeeps(g, effect, port, value);
      SameLinksOrphans(g, h);
    case MixMode(effect, mix) => SameLinksOrphans(g, h);
    case SwitchEffects(n, active) => SameLinksOrphans(g, h);
    case Clear => ClearedOrphans(g);
  }

  /** Clearing frees everything but the host nodes and the nodes that lost their owner, and leaves
      the host nodes in place with their counters at zero. */
  lemma ClearedMemory(g: Graph)
    requires WellFormed(g)
    ensures var h := Cleared(g);
            && h.nodes.Keys == (set id | id in g.hosts) + Orphans(g)
            && h.hosts == g.hosts && h.users == [] && h.effects == []
            && forall id :: id in h.hosts ==> h.nodes[id] == g.nodes[id].(numInputs := 0, numOutputs := 0)
  {
    forall id: NodeId ensures id in Cleared(g).nodes <==> id in g.hosts || id in Orphans(g) {
    }
  }

  /** So a reset gives back all memory but the host nodes', unless some link operation on the way
      took a port off its control node. */
  lemma {:induction false} ResetFreesAll(inPlace: bool, ops: seq<GraphOp>, n: nat)
    requires n <= |ops|
    ensures Cleared(Run(inPlace, ops, n)).nodes.Keys == (set id | id in Run(inPlace, ops, n).hosts) <==>
            forall k :: 0 <= k < n ==> Detached(Run(inPlace, ops, k), ops[k]) == {}
  {
    hide WellFormed, Apply, Detached, Cleared;
    OrphansAccumulate(inPlace, ops, n);
    ClearedMemory(Run(inPlace, ops, n));
    OrphansAreNoHosts(Run(inPlace, ops, n));
  }

  lemma OrphansAreNoHosts(g: Graph)
    requires WellFormed(g)
    ensures Orphans(g) !! set id | id in g.hosts
  {
  }

  lemma {:induction false} OrphansAccumulate(inPlace: bool, ops: seq<GraphOp>, n: nat)
    requires n <= |ops|
    ensures Orphans(Run(inPlace, ops, n)) == {} <==>
            forall k :: 0 <= k < n ==> Detached(Run(inPlace, ops, k), ops[k]) == {}
  {
    hide WellFormed, Apply, Detached, Orphans;
    if n == 0 {
      assert Orphans(Empty(inPlace)) == {} by { EmptyHasNoOrphans(inPlace); }
    } else {
      OrphansAccumulate(inPlace, ops, n - 1);
      OrphanStep(Run(inPlace, ops, n - 1), ops[n - 1]);
    }
  }

  lemma EmptyHasNoOrphans(inPlace: bool)
    ensures Orphans(Empty(inPlace)) == {}
  {
  }

  /** Every port is a control port or an audio port, not both, as the LADSPA interface demands. */
  ghost predicate PortsExclusive(desc: Descriptor) {
    forall p :: 0 <= p < |desc.ports| ==> !(desc.ports[p].flags.control && desc.ports[p].flags.audio)
  }

  /** With proper plugins no link operation ever detaches a control node. */
  lemma ProperPluginsDetachNothing(g: Graph, op: GraphOp)
    requires WellFormed(g)
    requires forall e :: 0 <= e < |g.effects| ==> PortsExclusive(g.effects[e].desc)
    ensures Detached(g, op) == {}
    ensures (op.NewEffect? ==> PortsExclusive(op.desc)) ==>
              forall e :: 0 <= e < |Apply(g, op).0.effects| ==> PortsExclusive(Apply(g, op).0.effects[e].desc)
  {
    hide ResolveLink, SetControl, ControlLinks, WithControls;
    if op.LinkPort? {
      var t := ResolveLink(g, op.effect, op.port, op.node);
      if t.LinkTo? && g.effects[t.e].links[t.p].Some? {
        assert Linked(g, t.e, t.p, g.effects[t.e].links[t.p].value);
      }
    }
    if op.ControlValue? {
      SetControlKeeps(g, op.effect, op.port, op.value);
    }
  }
}
