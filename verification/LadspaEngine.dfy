/** The LADSPA engine as an object whose methods update it, each proved against its specification. */
module LadspaEngine {
  import opened Options
  import opened LadspaNames
  import opened LadspaGraph
  import opened LadspaRuns
  import opened LadspaBuffers
  import opened LadspaProtocol

  const MAX_NAME := 98

  function Decimal(n: nat): string {
    if n < 10 then ["0123456789"[n]] else Decimal(n / 10) + ["0123456789"[n % 10]]
  }

  function Truncated(s: string): string {
    if |s| <= MAX_NAME then s else s[..MAX_NAME]
  }

  /** Host nodes are numbered from 1 if there is more than one of a kind. */
  function HostName(prefix: string, i: nat, count: nat): string {
    Truncated(if count > 1 then prefix + Decimal(i + 1) else prefix)
  }

  /** The first n host ports of a group; the first failure ends it and keeps the ports added so far. */
  ghost function AddHosts(g: Graph, prefix: string, addresses: seq<int>, n: nat): (r: (Graph, bool))
    requires WellFormed(g) && n <= |addresses|
    ensures WellFormed(r.0)
  {
    if n == 0 then (g, true)
    else
      var (h, ok) := AddHosts(g, prefix, addresses, n - 1);
      if !ok then (h, false)
      else
        AddHostKeeps(h, HostName(prefix, n - 1, |addresses|), addresses[n - 1]);
        AddHost(h, HostName(prefix, n - 1, |addresses|), addresses[n - 1])
  }

  lemma {:induction false} FirstNamedSkips(nodes: map<NodeId, Node>, ids: seq<NodeId>, k: nat, name: string)
    requires k <= |ids| && forall id :: id in ids ==> id in nodes
    requires forall i :: 0 <= i < k ==> !SameName(nodes[ids[i]].name, name)
    ensures FirstNamed(nodes, ids, name) == FirstNamed(nodes, ids[k..], name)
    decreases k
  {
    if k != 0 {
      FirstNamedSkips(nodes, ids, k - 1, name);
      assert ids[k - 1..][0] == ids[k - 1] && ids[k - 1..][1..] == ids[k..];
    }
  }

  lemma FirstNamedAt(nodes: map<NodeId, Node>, ids: seq<NodeId>, k: nat, name: string)
    requires k < |ids| && forall id :: id in ids ==> id in nodes
    requires forall i :: 0 <= i < k ==> !SameName(nodes[ids[i]].name, name)
    requires SameName(nodes[ids[k]].name, name)
    ensures FirstNamed(nodes, ids, name) == Some(ids[k])
  {
    FirstNamedSkips(nodes, ids, k, name);
  }

  /** The control nodes of the effects before e and of the ports before p of effect e. */
  ghost function FreedBefore(g: Graph, e: int, p: int): set<NodeId> {
    set id | id in g.nodes && g.nodes[id].kind == Control && OwnedBefore(g, e, p, id)
  }

  ghost predicate OwnedBefore(g: Graph, e: int, p: int, id: NodeId) {
    exists e', p' :: Linked(g, e', p', id) && (e' < e || (e' == e && p' < p))
  }

  lemma FreeNext(g: Graph, e: nat, p: nat)
    requires WellFormed(g) && e < |g.effects| && p < |g.effects[e].links|
    ensures var link := g.effects[e].links[p];
            if link.Some? && link.value in g.nodes && g.nodes[link.value].kind == Control then
              link.value !in FreedBefore(g, e, p) && FreedBefore(g, e, p + 1) == FreedBefore(g, e, p) + {link.value}
            else FreedBefore(g, e, p + 1) == FreedBefore(g, e, p)
  {
    hide NamesUnique, Distinct, LinksValid;
    var link := g.effects[e].links[p];
    forall id: NodeId | id in g.nodes && g.nodes[id].kind == Control
      ensures OwnedBefore(g, e, p + 1, id) <==> OwnedBefore(g, e, p, id) || link == Some(id)
    {
      if link == Some(id) {
        assert Linked(g, e, p, id);
      }
      if OwnedBefore(g, e, p + 1, id) && link != Some(id) {
        var e', p' :| Linked(g, e', p', id) && (e' < e || (e' == e && p' < p + 1));
        assert p' != p || e' != e;
      }
    }
    if link.Some? && link.value in g.nodes && g.nodes[link.value].kind == Control {
      assert Linked(g, e, p, link.value);
    }
  }

  lemma FreeNextEffect(g: Graph, e: nat)
    requires e < |g.effects|
    ensures FreedBefore(g, e, |g.effects[e].links|) == FreedBefore(g, e + 1, 0)
  {
    forall id: NodeId ensures OwnedBefore(g, e, |g.effects[e].links|, id) <==> OwnedBefore(g, e + 1, 0, id) {
      if OwnedBefore(g, e, |g.effects[e].links|, id) {
        var e', p' :| Linked(g, e', p', id) && (e' < e || (e' == e && p' < |g.effects[e].links|));
      }
      if OwnedBefore(g, e + 1, 0, id) {
        var e', p' :| Linked(g, e', p', id) && (e' < e + 1 || (e' == e + 1 && p' < 0));
      }
    }
  }

  lemma FreedAll(g: Graph)
    ensures FreedBefore(g, |g.effects|, 0) == ControlsOf(g)
    ensures FreedBefore(g, 0, 0) == {}
  {
    forall id: NodeId ensures OwnedBefore(g, |g.effects|, 0, id) <==> exists e, p :: Linked(g, e, p, id) {
      if exists e, p :: Linked(g, e, p, id) {
        var e, p :| Linked(g, e, p, id);
      }
    }
    forall id: NodeId ensures !OwnedBefore(g, 0, 0, id) {
    }
  }

  class LadspaFx {
    var nodes: map<NodeId, Node>
    var hosts: seq<NodeId>
    var users: seq<NodeId>
    var effects: seq<Effect>
    var nextId: NodeId
    var active: bool
    const inPlace: bool

    ghost function View(): Graph
      reads this
    {
      Graph(nodes, hosts, users, effects, nextId, inPlace)
    }

    ghost predicate Valid()
      reads this
    {
      && WellFormed(View())
      && (active ==> Checked(View()) && forall k :: 0 <= k < |effects| ==> effects[k].active)
    }

    constructor (inPlace: bool)
      ensures Valid() && !active
      ensures View() == Empty(inPlace)
    {
      nodes, hosts, users, effects, nextId, active := map[], [], [], [], 0, false;
      this.inPlace := inPlace;
    }

    /** get_node: the host nodes are searched first. */
    method GetNode(name: string) returns (r: Option<NodeId>)
      requires WellFormed(View())
      ensures r == FindNode(View(), name)
    {
      var i := 0;
      while i < |hosts|
        invariant 0 <= i <= |hosts|
        invariant forall j :: 0 <= j < i ==> !SameName(nodes[(hosts + users)[j]].name, name)
      {
        if SameName(nodes[hosts[i]].name, name) {
          FirstNamedAt(nodes, hosts + users, i, name);
          return Some(hosts[i]);
        }
        i := i + 1;
      }
      i := 0;
      while i < |users|
        invariant 0 <= i <= |users|
        invariant forall j :: 0 <= j < |hosts| + i ==> !SameName(nodes[(hosts + users)[j]].name, name)
      {
        if SameName(nodes[users[i]].name, name) {
          FirstNamedAt(nodes, hosts + users, |hosts| + i, name);
          return Some(users[i]);
        }
        i := i + 1;
      }
      FirstNamedSkips(nodes, hosts + users, |hosts + users|, name);
      return None;
    }

    method AddHostPorts(prefix: string, addresses: seq<int>) returns (ok: bool)
      requires Valid()
      modifies this`nodes, this`hosts, this`nextId
      ensures Valid()
      ensures old(active) ==> !ok && View() == old(View())
      ensures !old(active) ==> (View(), ok) == AddHosts(old(View()), prefix, addresses, |addresses|)
    {
      if active {
        return false;
      }
      hide Checked, WellFormed, AddHosts;
      ok := CreateHostPorts(prefix, addresses);
    }

    method CreateHostPorts(prefix: string, addresses: seq<int>) returns (ok: bool)
      requires WellFormed(View())
      modifies this`nodes, this`hosts, this`nextId
      ensures WellFormed(View())
      ensures (View(), ok) == AddHosts(old(View()), prefix, addresses, |addresses|)
    {
      hide WellFormed, AddHost, HostName;
      ghost var g := View();
      var i := 0;
      while i < |addresses|
        invariant 0 <= i <= |addresses|
        invariant WellFormed(View())
        invariant (View(), true) == AddHosts(g, prefix, addresses, i)
      {
        ok := AddHostPort(HostName(prefix, i, |addresses|), addresses[i]);
        i := i + 1;
        if !ok {
          FailedHostsStay(g, prefix, addresses, i, |addresses|);
          return;
        }
      }
      ok := true;
    }

    method AddHostPort(name: string, address: int) returns (ok: bool)
      requires WellFormed(View())
      modifies this`nodes, this`hosts, this`nextId
      ensures (View(), ok) == AddHost(old(View()), name, address)
      ensures WellFormed(View())
    {
      AddHostKeeps(View(), name, address);
      if name != "" {
        var taken := GetNode(name);
        if taken.Some? {
          return false;
        }
      }
      if address == 0 {
        return false;
      }
      var buffer := if inPlace then HostBuffer(address) else OwnBuffer(nextId);
      nodes := nodes[nextId := Node(name, Host, buffer, 0, 0, 0.0)];
      hosts := hosts + [nextId];
      nextId := nextId + 1;
      ok := true;
    }

    method AddBuffer(name: string) returns (ok: bool)
      requires Valid()
      modifies this`nodes, this`users, this`nextId
      ensures Valid()
      ensures old(active) ==> !ok && View() == old(View())
      ensures !old(active) ==> (View(), ok) == AddUser(old(View()), name)
    {
      if active {
        return false;
      }
      AddUserKeeps(View(), name);
      hide Checked, NamesUnique, ControlsPrivate, LinksValid;
      if name != "" {
        var taken := GetNode(name);
        if taken.Some? {
          return false;
        }
      }
      nodes := nodes[nextId := Node(name, User, OwnBuffer(nextId), 0, 0, 0.0)];
      users := users + [nextId];
      nextId := nextId + 1;
      ok := true;
    }

    /** create_control_port_nodes: a control node for each control port. */
    method CreateControlNodes(ports: seq<Port>) returns (links: seq<Option<NodeId>>)
      modifies this`nodes, this`nextId
      ensures nodes == WithControls(old(nodes), old(nextId), ports, |ports|)
      ensures nextId == old(nextId) + ControlPorts(ports, |ports|)
      ensures links == ControlLinks(old(nextId), ports, |ports|)
    {
      links := seq(|ports|, _ => None);
      var i := 0;
      while i < |ports|
        invariant 0 <= i <= |ports|
        invariant nodes == WithControls(old(nodes), old(nextId), ports, i)
        invariant nextId == old(nextId) + ControlPorts(ports, i)
        invariant links == ControlLinks(old(nextId), ports, i)
      {
        if ports[i].flags.control {
          var node := Node("", Control, OwnBuffer(nextId), 0, 0, ports[i].default);
          nodes := nodes[nextId := Bump(node, ports[i].flags.input)];
          links := links[i := Some(nextId)];
          nextId := nextId + 1;
        }
        i := i + 1;
      }
    }

    method AddEffect(name: string, desc: Descriptor) returns (ok: bool)
      requires Valid()
      modifies this`nodes, this`effects, this`nextId
      ensures Valid()
      ensures old(active) ==> !ok && View() == old(View())
      ensures !old(active) ==> ok && View() == LadspaGraph.AddEffect(old(View()), name, desc)
    {
      if active {
        return false;
      }
      AddEffectKeeps(View(), name, desc);
      hide WellFormed, Checked, LadspaGraph.AddEffect;
      AppendEffect(name, desc);
      ok := true;
    }

    method AppendEffect(name: string, desc: Descriptor)
      modifies this`nodes, this`effects, this`nextId
      ensures View() == LadspaGraph.AddEffect(old(View()), name, desc)
    {
      hide WithControls, ControlLinks, ControlPorts;
      var links := CreateControlNodes(desc.ports);
      effects := effects + [Effect(name, desc, false, false, links)];
    }

    /** get_effect */
    method GetEffect(name: string) returns (e: nat)
      ensures e == FindEffect(EffectNames(effects), name)
    {
      e := 0;
      while e < |effects|
        invariant e <= |effects|
        invariant forall i :: 0 <= i < e ==> !HasPrefix(EffectNames(effects)[i], name)
      {
        if HasPrefix(effects[e].name, name) {
          return;
        }
        e := e + 1;
      }
    }

    method EffectLink(effect: string, port: string, name: string) returns (ok: bool)
      requires Valid()
      modifies this`nodes, this`effects
      ensures Valid()
      ensures old(active) ==> !ok && View() == old(View())
      ensures !old(active) ==> (View(), ok) == Link(old(View()), effect, port, name)
    {
      if active {
        return false;
      }
      LinkKeeps(View(), effect, port, name);
      hide Checked, WellFormed, Link;
      ok := ConnectPort(effect, port, name);
    }

    method ConnectPort(effect: string, port: string, name: string) returns (ok: bool)
      requires WellFormed(View())
      modifies this`nodes, this`effects
      ensures (View(), ok) == Link(old(View()), effect, port, name)
    {
      assert LinksValid(View());
      assert forall id :: id in hosts || id in users ==> id in nodes;
      hide WellFormed, FirstExact, Partials, FirstNamed, FindEffect;
      var e := GetEffect(effect);
      if e == |effects| {
        return false;
      }
      var p := GetEffectPortIdx(PortNames(effects[e].desc.ports), port);
      if p < 0 {
        return false;
      }
      if !effects[e].desc.ports[p].flags.audio {
        return false;
      }
      var node := GetNode(name);
      if node.None? {
        return false;
      }
      var id := node.value;
      nodes := nodes[id := Bump(nodes[id], effects[e].desc.ports[p].flags.input)];
      effects := effects[e := effects[e].(links := effects[e].links[p := Some(id)])];
      ok := true;
    }

    method SetControl(effect: string, port: string, value: real) returns (ok: bool)
      requires Valid()
      modifies this`nodes
      ensures Valid()
      ensures (View(), ok) == LadspaGraph.SetControl(old(View()), effect, port, value)
    {
      TuneKeepsValid(View(), ControlValue(effect, port, value));
      hide Checked, WellFormed, LadspaGraph.SetControl;
      ok := WriteControl(effect, port, value);
    }

    method WriteControl(effect: string, port: string, value: real) returns (ok: bool)
      requires WellFormed(View())
      modifies this`nodes
      ensures (View(), ok) == LadspaGraph.SetControl(old(View()), effect, port, value)
    {
      assert LinksValid(View());
      hide WellFormed, FirstExact, Partials;
      var e := GetEffect(effect);
      if e == |effects| {
        return false;
      }
      var p := GetEffectPortIdx(PortNames(effects[e].desc.ports), port);
      if p < 0 || !effects[e].desc.ports[p].flags.control || effects[e].links[p].None? {
        return false;
      }
      assert Linked(View(), e, p, effects[e].links[p].value);
      var id := effects[e].links[p].value;
      nodes := nodes[id := nodes[id].(value := value)];
      ok := true;
    }

    method SetMix(effect: string, mix: bool) returns (ok: bool)
      requires Valid()
      modifies this`effects
      ensures Valid()
      ensures (View(), ok) == LadspaGraph.SetMix(old(View()), effect, mix)
    {
      TuneKeepsValid(View(), MixMode(effect, mix));
      hide Checked, WellFormed;
      ok := WriteMix(effect, mix);
    }

    method WriteMix(effect: string, mix: bool) returns (ok: bool)
      modifies this`effects
      ensures (View(), ok) == LadspaGraph.SetMix(old(View()), effect, mix)
    {
      var e := GetEffect(effect);
      if e == |effects| {
        return false;
      }
      if mix && !effects[e].desc.canMix {
        return false;
      }
      effects := effects[e := effects[e].(mix := mix)];
      ok := true;
    }

    // ---------- The checks ----------

    static method CheckAllPortsConnected(effect: Effect) returns (ok: bool)
      ensures ok <==> AllConnected(effect)
    {
      var i := 0;
      while i < |effect.links|
        invariant 0 <= i <= |effect.links|
        invariant forall p :: 0 <= p < i ==> effect.links[p] != None
      {
        if effect.links[i].None? {
          return false;
        }
        i := i + 1;
      }
      ok := true;
    }

    method CheckNoInplaceBroken(e: nat) returns (ok: bool)
      requires WellFormed(View()) && e < |effects| && AllConnected(effects[e])
      ensures ok <==> InPlaceFine(View(), effects[e])
      ensures ok <==> forall i, k :: !Clash(View(), effects[e], i, k)
    {
      InPlaceMeans(View(), e);
      var effect := effects[e];
      if !effect.desc.inPlaceBroken {
        return true;
      }
      forall p | 0 <= p < |effect.links| ensures effect.links[p].value in nodes {
        assert Linked(View(), e, p, effect.links[p].value);
      }
      var i := 0;
      while i < |effect.desc.ports|
        invariant 0 <= i <= |effect.desc.ports|
        invariant forall a, b ::
          (0 <= a < i && 0 <= b < |effect.links|
           && Opposed(effect.desc.ports[a].flags, effect.desc.ports[b].flags))
          ==> BufferOf(View(), effect.links[a]) != BufferOf(View(), effect.links[b])
      {
        var k := 0;
        while k < |effect.desc.ports|
          invariant 0 <= k <= |effect.desc.ports|
          invariant forall b ::
            0 <= b < k && Opposed(effect.desc.ports[i].flags, effect.desc.ports[b].flags)
            ==> BufferOf(View(), effect.links[i]) != BufferOf(View(), effect.links[b])
        {
          if i != k && nodes[effect.links[i].value].buffer == nodes[effect.links[k].value].buffer
             && Opposed(effect.desc.ports[i].flags, effect.desc.ports[k].flags) {
            return false;
          }
          k := k + 1;
        }
        i := i + 1;
      }
      ok := true;
    }

    method CheckHostOutputUsed() returns (ok: bool)
      requires WellFormed(View())
      ensures ok <==> HostWritten(View())
    {
      var i := 0;
      while i < |hosts|
        invariant 0 <= i <= |hosts|
        invariant forall j :: 0 <= j < i ==> nodes[hosts[j]].numInputs == 0
      {
        if nodes[hosts[i]].numInputs != 0 {
          assert hosts[i] in View().hosts;
          return true;
        }
        i := i + 1;
      }
      ok := false;
    }

    method CheckAllAudioNodesConnected() returns (ok: bool)
      requires WellFormed(View())
      ensures ok <==> UsersConnected(View())
    {
      var i := 0;
      while i < |users|
        invariant 0 <= i <= |users|
        invariant forall j :: 0 <= j < i ==> nodes[users[j]].numInputs != 0 && nodes[users[j]].numOutputs != 0
      {
        if nodes[users[i]].numInputs == 0 || nodes[users[i]].numOutputs == 0 {
          assert users[i] in View().users;
          return false;
        }
        i := i + 1;
      }
      ok := true;
    }

    method Check() returns (ok: bool)
      requires WellFormed(View())
      ensures ok <==> Checked(View())
      ensures ok <==>
              && effects != []
              && (forall e, p :: 0 <= e < |effects| && 0 <= p < |effects[e].links| ==> effects[e].links[p].Some?)
              && (forall e, i, k :: 0 <= e < |effects| ==> !Clash(View(), effects[e], i, k))
              && (exists id :: id in hosts && nodes[id].numInputs > 0)
              && (forall id :: id in users ==> nodes[id].numInputs > 0 && nodes[id].numOutputs > 0)
    {
      CheckedMeans(View());
      hide AllConnected, InPlaceFine, HostWritten, UsersConnected;
      if effects == [] {
        return false;
      }
      var i := 0;
      while i < |effects|
        invariant 0 <= i <= |effects|
        invariant forall k :: 0 <= k < i ==> AllConnected(effects[k]) && InPlaceFine(View(), effects[k])
      {
        ok := CheckAllPortsConnected(effects[i]);
        if !ok {
          return;
        }
        ok := CheckNoInplaceBroken(i);
        if !ok {
          return;
        }
        i := i + 1;
      }
      ok := CheckHostOutputUsed();
      if !ok {
        return;
      }
      ok := CheckAllAudioNodesConnected();
    }

    // ---------- Activation, in the absence of a concurrent run ----------

    method SwitchAll(on: bool)
      requires WellFormed(View())
      modifies this`effects
      ensures View() == old(View()).(effects := SetActive(old(effects), |old(effects)|, on))
    {
      var i := 0;
      while i < |effects|
        invariant 0 <= i <= |effects| == |old(effects)|
        invariant effects == SetActive(old(effects), i, on)
      {
        if effects[i].active != on {
          effects := effects[i := effects[i].(active := on)];
        }
        i := i + 1;
      }
    }

    method Activate() returns (ok: bool)
      requires Valid()
      modifies this`effects, this`active
      ensures Valid()
      ensures ok <==> !old(active) && Checked(old(View()))
      ensures ok ==> active && View() == old(View()).(effects := SetActive(old(effects), |old(effects)|, true))
      ensures !ok ==> active == old(active) && View() == old(View())
    {
      if active {
        return false;
      }
      ok := Check();
      if !ok {
        return;
      }
      SwitchedGraph(View(), true);
      SwitchAll(true);
      active := true;
    }

    /** The exchange to INACTIVE succeeds at once if no run is under way. */
    method Deactivate()
      requires Valid()
      modifies this`effects, this`active
      ensures Valid() && !active
      ensures old(active) ==> View() == old(View()).(effects := SetActive(old(effects), |old(effects)|, false))
      ensures !old(active) ==> View() == old(View())
    {
      if !active {
        return;
      }
      SwitchedGraph(View(), false);
      active := false;
      SwitchAll(false);
    }

    // ---------- Reset ----------

    /** Gives a node back; it has to be allocated, so nothing is freed twice. */
    method FreeNode(id: NodeId)
      requires id in nodes
      modifies this`nodes
      ensures nodes == old(nodes) - {id}
    {
      nodes := nodes - {id};
    }

    /** delete_fluid_ladspa_effect: its control nodes go with it. */
    method DeleteEffect(e: nat, ghost g: Graph)
      requires WellFormed(g) && effects == g.effects && e < |effects|
      requires nodes == g.nodes - FreedBefore(g, e, 0)
      modifies this`nodes
      ensures nodes == g.nodes - FreedBefore(g, e + 1, 0)
    {
      hide WellFormed, FreedBefore;
      var p := 0;
      while p < |effects[e].links|
        invariant 0 <= p <= |effects[e].links|
        invariant nodes == g.nodes - FreedBefore(g, e, p)
      {
        FreeNext(g, e, p);
        var link := effects[e].links[p];
        if link.Some? {
          LinkAllocated(g, e, p);
          if nodes[link.value].kind == Control {
            FreeNode(link.value);
          }
        }
        p := p + 1;
      }
      FreeNextEffect(g, e);
    }

    method ClearLadspa()
      requires WellFormed(View())
      modifies this`nodes, this`users, this`effects
      ensures View() == Cleared(old(View()))
    {
      ghost var g := View();
      FreedAll(g);
      var i := 0;
      while i < |effects|
        invariant 0 <= i <= |effects|
        invariant effects == g.effects && users == g.users
        invariant nodes == g.nodes - FreedBefore(g, i, 0)
      {
        DeleteEffect(i, g);
        i := i + 1;
      }
      effects := [];
      FreeUsers(g);
      users := [];
      ResetHosts(g);
    }

    method FreeUsers(ghost g: Graph)
      requires WellFormed(g) && users == g.users
      requires nodes == g.nodes - ControlsOf(g)
      modifies this`nodes
      ensures nodes == g.nodes - ControlsOf(g) - (set id | id in g.users)
    {
      var i := 0;
      while i < |users|
        invariant 0 <= i <= |users|
        invariant nodes == g.nodes - ControlsOf(g) - (set id | id in g.users[..i])
      {
        assert users[i] in g.users && users[i] !in g.users[..i];
        FreeNode(users[i]);
        assert g.users[..i + 1] == g.users[..i] + [g.users[i]];
        i := i + 1;
      }
      assert g.users[..i] == g.users;
    }

    method ResetHosts(ghost g: Graph)
      requires WellFormed(g) && hosts == g.hosts
      requires nodes == g.nodes - ControlsOf(g) - (set id | id in g.users)
      modifies this`nodes
      ensures nodes == Cleared(g).nodes
    {
      ghost var kept := nodes;
      HostsKept(g);
      HostsResetStart(kept, hosts);
      hide WellFormed, ControlsOf, HostsReset, Distinct;
      var i := 0;
      while i < |hosts|
        invariant 0 <= i <= |hosts|
        invariant HostsReset(kept, nodes, hosts, i)
      {
        HostsResetNext(kept, nodes, hosts, i);
        nodes := nodes[hosts[i] := nodes[hosts[i]].(numInputs := 0, numOutputs := 0)];
        i := i + 1;
      }
      ClearedNodes(g, kept, nodes);
    }

    method Reset()
      requires Valid()
      modifies this`nodes, this`users, this`effects, this`active
      ensures Valid() && !active
      ensures View() == Cleared(old(View()))
    {
      ghost var g := View();
      if active {
        Deactivate();
        SwitchedClears(g);
      }
      ClearedKeeps(View());
      ClearLadspa();
    }
  }

  lemma {:induction false} FailedHostsStay(g: Graph, prefix: string, addresses: seq<int>, n: nat, m: nat)
    requires WellFormed(g) && n <= m <= |addresses|
    requires !AddHosts(g, prefix, addresses, n).1
    ensures AddHosts(g, prefix, addresses, m) == AddHosts(g, prefix, addresses, n)
    decreases m
  {
    hide AddHost, WellFormed;
    if n < m {
      FailedHostsStay(g, prefix, addresses, n, m - 1);
    }
  }

  /** The counters of the first i hosts are reset, everything else is as in `kept`. */
  ghost predicate HostsReset(kept: map<NodeId, Node>, nodes: map<NodeId, Node>, hosts: seq<NodeId>, i: nat)
    requires i <= |hosts|
  {
    && nodes.Keys == kept.Keys
    && forall id :: id in kept ==> nodes[id] == if id in hosts[..i] then Unlinked(kept[id]) else kept[id]
  }

  lemma HostsResetStart(kept: map<NodeId, Node>, hosts: seq<NodeId>)
    ensures HostsReset(kept, kept, hosts, 0)
  {
  }

  lemma HostsResetNext(kept: map<NodeId, Node>, nodes: map<NodeId, Node>, hosts: seq<NodeId>, i: nat)
    requires i < |hosts| && Distinct(hosts) && HostsReset(kept, nodes, hosts, i) && hosts[i] in kept
    ensures hosts[i] in nodes && HostsReset(kept, nodes[hosts[i] := Unlinked(nodes[hosts[i]])], hosts, i + 1)
  {
    assert hosts[i] !in hosts[..i];
    assert hosts[..i + 1] == hosts[..i] + [hosts[i]];
  }

  lemma HostsKept(g: Graph)
    requires WellFormed(g)
    ensures Distinct(g.hosts)
    ensures forall id :: id in g.hosts ==> id in g.nodes - ControlsOf(g) - (set u | u in g.users)
  {
  }

  lemma ClearedNodes(g: Graph, kept: map<NodeId, Node>, nodes: map<NodeId, Node>)
    requires WellFormed(g) && kept == g.nodes - ControlsOf(g) - (set u | u in g.users)
    requires HostsReset(kept, nodes, g.hosts, |g.hosts|)
    ensures nodes == Cleared(g).nodes
  {
    hide ControlsOf;
    assert g.hosts[..|g.hosts|] == g.hosts;
    assert nodes.Keys == Cleared(g).nodes.Keys;
  }

  lemma TuneKeepsValid(g: Graph, op: GraphOp)
    requires WellFormed(g) && (op.ControlValue? || op.MixMode?)
    ensures var h := Apply(g, op).0;
            && WellFormed(h)
            && (Checked(g) ==> Checked(h))
            && |h.effects| == |g.effects|
            && forall k :: 0 <= k < |g.effects| ==> h.effects[k].active == g.effects[k].active
  {
    StepKeeps(g, op);
    TuneKeepsShape(g, op);
    hide WellFormed, Apply, Checked;
    var h := Apply(g, op).0;
    SameShapeChecked(g, h);
    forall k | 0 <= k < |g.effects| ensures h.effects[k].active == g.effects[k].active {
      assert h.effects[k].(mix := false) == g.effects[k].(mix := false);
    }
  }

  lemma LinkAllocated(g: Graph, e: nat, p: nat)
    requires WellFormed(g) && e < |g.effects| && p < |g.effects[e].links| && g.effects[e].links[p].Some?
    ensures var id := g.effects[e].links[p].value; id in g.nodes && id !in FreedBefore(g, e, p)
  {
    var id := g.effects[e].links[p].value;
    assert Linked(g, e, p, id);
  }

  lemma SwitchedGraph(g: Graph, on: bool)
    requires WellFormed(g)
    ensures var h := g.(effects := SetActive(g.effects, |g.effects|, on));
            WellFormed(h) && (Checked(h) <==> Checked(g))
  {
    var h := g.(effects := SetActive(g.effects, |g.effects|, on));
    EffectsOnlyKeeps(g, h);
    hide WellFormed;
    assert forall link :: BufferOf(h, link) == BufferOf(g, link);
    assert forall k :: 0 <= k < |g.effects| ==> h.effects[k].(active := false) == g.effects[k].(active := false);
  }

  lemma SwitchedClears(g: Graph)
    ensures Cleared(g.(effects := SetActive(g.effects, |g.effects|, false))) == Cleared(g)
  {
    var h := g.(effects := SetActive(g.effects, |g.effects|, false));
    LinkedSame(g, h);
    assert ControlsOf(h) == ControlsOf(g);
  }
}
