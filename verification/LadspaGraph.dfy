/** The node and port graph of the LADSPA engine as a value, and what each operation makes of it. */
module LadspaGraph {
  import opened Options
  import opened LadspaNames

  /** Identity of an allocated node; the key under which it lives in memory until it is freed. */
  type NodeId = nat

  datatype Kind = Host | User | Control

  /** The address of an effect buffer: the host's own memory, or memory owned by the node. */
  datatype Buffer = HostBuffer(address: int) | OwnBuffer(owner: NodeId)

  /** `numInputs` counts the links from effect outputs, `numOutputs` those to effect inputs. */
  datatype Node = Node(name: string, kind: Kind, buffer: Buffer, numInputs: nat, numOutputs: nat, value: real)

  /** The port descriptor bits. */
  datatype PortFlags = PortFlags(input: bool, output: bool, control: bool, audio: bool)

  datatype Port = Port(name: string, flags: PortFlags, default: real)

  datatype Descriptor = Descriptor(ports: seq<Port>, inPlaceBroken: bool, canMix: bool)

  datatype Effect = Effect(name: string, desc: Descriptor, active: bool, mix: bool, links: seq<Option<NodeId>>)

  /** `inPlace` is set in builds where host and plugins share a sample type, so that effects work on
      the host's buffers directly. */
  datatype Graph = Graph(nodes: map<NodeId, Node>, hosts: seq<NodeId>, users: seq<NodeId>,
                         effects: seq<Effect>, nextId: NodeId, inPlace: bool)

  // ---------- Shape ----------

  ghost predicate Distinct(s: seq<NodeId>) {
    forall i, j :: 0 <= i < j < |s| ==> s[i] != s[j]
  }

  /** Port p of effect e is linked to node id. */
  predicate Linked(g: Graph, e: int, p: int, id: NodeId) {
    0 <= e < |g.effects| && 0 <= p < |g.effects[e].links| && g.effects[e].links[p] == Some(id)
  }

  /** Every link leads to memory that is still allocated: an audio node of the engine, or the
      control node of a control port. */
  ghost predicate LinksValid(g: Graph) {
    && (forall e :: 0 <= e < |g.effects| ==> |g.effects[e].links| == |g.effects[e].desc.ports|)
    && (forall e, p, id :: Linked(g, e, p, id) ==>
          && id in g.nodes
          && if g.nodes[id].kind == Control then g.effects[e].desc.ports[p].flags.control
             else g.effects[e].desc.ports[p].flags.audio && (id in g.hosts || id in g.users))
  }

  /** No control node is linked twice: each is private to one port. */
  ghost predicate ControlsPrivate(g: Graph) {
    forall e, p, e', p', id ::
      Linked(g, e, p, id) && Linked(g, e', p', id) && id in g.nodes && g.nodes[id].kind == Control
      ==> e == e' && p == p'
  }

  /** Named audio nodes have names that differ in more than case. */
  ghost predicate NamesUnique(g: Graph) {
    forall a, b ::
      (a in g.nodes && b in g.nodes && a != b
       && g.nodes[a].kind != Control && g.nodes[b].kind != Control && g.nodes[a].name != "")
      ==> !SameName(g.nodes[a].name, g.nodes[b].name)
  }

  ghost predicate WellFormed(g: Graph) {
    && (forall id :: id in g.hosts ==> id in g.nodes && g.nodes[id].kind == Host)
    && (forall id :: id in g.users ==> id in g.nodes && g.nodes[id].kind == User)
    && (forall id :: id in g.nodes ==> id < g.nextId)
    && (forall id :: id in g.nodes && g.nodes[id].kind == Host ==> id in g.hosts)
    && (forall id :: id in g.nodes && g.nodes[id].kind == User ==> id in g.users)
    && Distinct(g.hosts) && Distinct(g.users)
    && LinksValid(g) && ControlsPrivate(g) && NamesUnique(g)
  }

  /** An engine in one of the two builds. */
  function Empty(inPlace: bool): Graph {
    Graph(map[], [], [], [], 0, inPlace)
  }

  // ---------- Nodes ----------

  /** The first node of that name in a list, as get_node searches it. */
  function FirstNamed(nodes: map<NodeId, Node>, ids: seq<NodeId>, name: string): (r: Option<NodeId>)
    requires forall id :: id in ids ==> id in nodes
    ensures r.Some? ==> exists k :: 0 <= k < |ids| && r == Some(ids[k]) && SameName(nodes[ids[k]].name, name)
                                    && forall j :: 0 <= j < k ==> !SameName(nodes[ids[j]].name, name)
    ensures r.None? ==> forall id :: id in ids ==> !SameName(nodes[id].name, name)
  {
    if ids == [] then None
    else if SameName(nodes[ids[0]].name, name) then Some(ids[0])
    else FirstNamed(nodes, ids[1..], name)
  }

  /** Host nodes are searched before user nodes. */
  function FindNode(g: Graph, name: string): (r: Option<NodeId>)
    requires forall id :: id in g.hosts || id in g.users ==> id in g.nodes
  {
    FirstNamed(g.nodes, g.hosts + g.users, name)
  }

  /** A name may be given to a new node if it is empty or not taken yet. */
  predicate NameFree(g: Graph, name: string)
    requires forall id :: id in g.hosts || id in g.users ==> id in g.nodes
  {
    name == "" || FindNode(g, name) == None
  }

  function NewHost(g: Graph, name: string, address: int): Graph {
    g.(nodes := g.nodes[g.nextId := Node(name, Host,
                          if g.inPlace then HostBuffer(address) else OwnBuffer(g.nextId), 0, 0, 0.0)],
       hosts := g.hosts + [g.nextId], nextId := g.nextId + 1)
  }

  /** add_host_ports for one buffer: refused if the name is taken or there is no buffer. */
  function AddHost(g: Graph, name: string, address: int): (Graph, bool)
    requires forall id :: id in g.hosts || id in g.users ==> id in g.nodes
  {
    if NameFree(g, name) && address != 0 then (NewHost(g, name, address), true) else (g, false)
  }

  function NewUser(g: Graph, name: string): Graph {
    g.(nodes := g.nodes[g.nextId := Node(name, User, OwnBuffer(g.nextId), 0, 0, 0.0)],
       users := g.users + [g.nextId], nextId := g.nextId + 1)
  }

  function AddUser(g: Graph, name: string): (Graph, bool)
    requires forall id :: id in g.hosts || id in g.users ==> id in g.nodes
  {
    if NameFree(g, name) then (NewUser(g, name), true) else (g, false)
  }

  // ---------- Effects ----------

  /** Number of control ports among the first n. */
  function ControlPorts(ports: seq<Port>, n: nat): (c: nat)
    requires n <= |ports|
    ensures c <= n
  {
    if n == 0 then 0 else ControlPorts(ports, n - 1) + if ports[n - 1].flags.control then 1 else 0
  }

  /** A counter goes up with each link, in the direction of the port. */
  function Bump(n: Node, input: bool): Node {
    if input then n.(numOutputs := n.numOutputs + 1) else n.(numInputs := n.numInputs + 1)
  }

  function ControlNode(id: NodeId, port: Port): Node {
    Bump(Node("", Control, OwnBuffer(id), 0, 0, port.default), port.flags.input)
  }

  /** Memory and links after the control nodes of the first n ports were created. */
  function WithControls(nodes: map<NodeId, Node>, nextId: NodeId, ports: seq<Port>, n: nat): (r: map<NodeId, Node>)
    requires n <= |ports|
  {
    if n == 0 then nodes
    else
      var r := WithControls(nodes, nextId, ports, n - 1);
      if ports[n - 1].flags.control then
        var id := nextId + ControlPorts(ports, n - 1);
        r[id := ControlNode(id, ports[n - 1])]
      else r
  }

  function ControlLinks(nextId: NodeId, ports: seq<Port>, n: nat): (r: seq<Option<NodeId>>)
    requires n <= |ports|
    ensures |r| == |ports|
    ensures forall p :: 0 <= p < |ports| ==>
              r[p] == if p < n && ports[p].flags.control then Some(nextId + ControlPorts(ports, p)) else None
  {
    if n == 0 then seq(|ports|, _ => None)
    else
      var r := ControlLinks(nextId, ports, n - 1);
      if ports[n - 1].flags.control then r[n - 1 := Some(nextId + ControlPorts(ports, n - 1))] else r
  }

  /** A new effect with a control node of its own on every control port. */
  function AddEffect(g: Graph, name: string, desc: Descriptor): Graph {
    g.(nodes := WithControls(g.nodes, g.nextId, desc.ports, |desc.ports|),
       nextId := g.nextId + ControlPorts(desc.ports, |desc.ports|),
       effects := g.effects + [Effect(name, desc, false, false, ControlLinks(g.nextId, desc.ports, |desc.ports|))])
  }

  function EffectNames(effects: seq<Effect>): (s: seq<string>)
    ensures |s| == |effects| && forall i :: 0 <= i < |s| ==> s[i] == effects[i].name
  {
    seq(|effects|, i requires 0 <= i < |effects| => effects[i].name)
  }

  function PortNames(ports: seq<Port>): (s: seq<string>)
    ensures |s| == |ports| && forall i :: 0 <= i < |s| ==> s[i] == ports[i].name
  {
    seq(|ports|, i requires 0 <= i < |ports| => ports[i].name)
  }

  /** connect_node_to_port: the port forgets the node it was linked to, whose counters stay. */
  function Connect(g: Graph, e: nat, p: nat, id: NodeId): Graph
    requires e < |g.effects| && p < |g.effects[e].links| == |g.effects[e].desc.ports| && id in g.nodes
  {
    var effect := g.effects[e];
    g.(effects := g.effects[e := effect.(links := effect.links[p := Some(id)])],
       nodes := g.nodes[id := Bump(g.nodes[id], effect.desc.ports[p].flags.input)])
  }

  datatype LinkTarget = NoLink | LinkTo(e: nat, p: nat, id: NodeId)

  /** What a link request resolves to. */
  function ResolveLink(g: Graph, effect: string, port: string, name: string): (r: LinkTarget)
    requires WellFormed(g)
    ensures r.LinkTo? ==>
              && r.e < |g.effects| && r.p < |g.effects[r.e].links| == |g.effects[r.e].desc.ports|
              && g.effects[r.e].desc.ports[r.p].flags.audio
              && (r.id in g.hosts || r.id in g.users) && r.id in g.nodes
  {
    var e := FindEffect(EffectNames(g.effects), effect);
    if e == |g.effects| then NoLink
    else
      var p := ResolvePort(PortNames(g.effects[e].desc.ports), port);
      if p == -1 || !g.effects[e].desc.ports[p].flags.audio then NoLink
      else match FindNode(g, name)
        case None => NoLink
        case Some(id) => LinkTo(e, p, id)
  }

  function Link(g: Graph, effect: string, port: string, name: string): (Graph, bool)
    requires WellFormed(g)
  {
    match ResolveLink(g, effect, port, name)
    case NoLink => (g, false)
    case LinkTo(e, p, id) => (Connect(g, e, p, id), true)
  }

  function SetControl(g: Graph, effect: string, port: string, value: real): (Graph, bool)
    requires WellFormed(g)
  {
    var e := FindEffect(EffectNames(g.effects), effect);
    if e == |g.effects| then (g, false)
    else
      var p := ResolvePort(PortNames(g.effects[e].desc.ports), port);
      if p == -1 || !g.effects[e].desc.ports[p].flags.control || g.effects[e].links[p] == None then (g, false)
      else
        assert Linked(g, e, p, g.effects[e].links[p].value);
        var id := g.effects[e].links[p].value;
        (g.(nodes := g.nodes[id := g.nodes[id].(value := value)]), true)
  }

  function SetMix(g: Graph, effect: string, mix: bool): (Graph, bool) {
    var e := FindEffect(EffectNames(g.effects), effect);
    if e == |g.effects| || (mix && !g.effects[e].desc.canMix) then (g, false)
    else (g.(effects := g.effects[e := g.effects[e].(mix := mix)]), true)
  }

  function SetActive(effects: seq<Effect>, n: nat, active: bool): (r: seq<Effect>)
    requires n <= |effects|
    ensures |r| == |effects|
    ensures forall i :: 0 <= i < |r| ==> r[i] == if i < n then effects[i].(active := active) else effects[i]
  {
    seq(|effects|, i requires 0 <= i < |effects| => if i < n then effects[i].(active := active) else effects[i])
  }

  // ---------- Clearing ----------

  /** The control nodes the effects are linked to. */
  ghost function ControlsOf(g: Graph): set<NodeId> {
    set id | id in g.nodes && g.nodes[id].kind == Control && (exists e, p :: Linked(g, e, p, id))
  }

  /** Allocated nodes nothing in the engine leads to any more. */
  ghost function Orphans(g: Graph): set<NodeId> {
    set id | id in g.nodes && g.nodes[id].kind == Control && (forall e, p :: !Linked(g, e, p, id))
  }

  function Unlinked(n: Node): Node {
    n.(numInputs := 0, numOutputs := 0)
  }

  /** clear_ladspa: effects, user nodes and control nodes go, host nodes lose their counters. */
  ghost function Cleared(g: Graph): Graph {
    g.(nodes := map id | id in g.nodes && g.nodes[id].kind != User && id !in ControlsOf(g) ::
                  if id in g.hosts then Unlinked(g.nodes[id]) else g.nodes[id],
       users := [], effects := [])
  }

  // ---------- The checks before activation ----------

  ghost predicate AllConnected(e: Effect) {
    forall p :: 0 <= p < |e.links| ==> e.links[p] != None
  }

  /** Two audio ports of different directions. */
  predicate Opposed(a: PortFlags, b: PortFlags) {
    (a.input, a.output) != (b.input, b.output) && a.audio && b.audio
  }

  function BufferOf(g: Graph, link: Option<NodeId>): Option<Buffer> {
    if link.Some? && link.value in g.nodes then Some(g.nodes[link.value].buffer) else None
  }

  /** A plugin that cannot work in place has no audio ports of different directions on one buffer. */
  ghost predicate InPlaceFine(g: Graph, e: Effect) {
    e.desc.inPlaceBroken ==>
      forall i, k :: 0 <= i < |e.links| && 0 <= k < |e.links|
                  && i < |e.desc.ports| && k < |e.desc.ports|
                  && Opposed(e.desc.ports[i].flags, e.desc.ports[k].flags)
        ==> BufferOf(g, e.links[i]) != BufferOf(g, e.links[k])
  }

  ghost predicate HostWritten(g: Graph) {
    exists id :: id in g.hosts && id in g.nodes && g.nodes[id].numInputs != 0
  }

  ghost predicate UsersConnected(g: Graph) {
    forall id :: id in g.users && id in g.nodes ==> g.nodes[id].numInputs != 0 && g.nodes[id].numOutputs != 0
  }

  /** What fluid_ladspa_check demands. */
  ghost predicate Checked(g: Graph) {
    && g.effects != []
    && (forall k :: 0 <= k < |g.effects| ==> AllConnected(g.effects[k]) && InPlaceFine(g, g.effects[k]))
    && HostWritten(g)
    && UsersConnected(g)
  }
}
