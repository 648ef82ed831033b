/** What names refer to in the LADSPA graph, and what a control setting reaches. */
module LadspaLookup {
  import opened Options
  import opened LadspaNames
  import opened LadspaGraph
  import opened LadspaRuns
  import opened LadspaOwnership

  predicate AudioNodeNamed(g: Graph, id: NodeId, name: string) {
    (id in g.hosts || id in g.users) && id in g.nodes && SameName(g.nodes[id].name, name)
  }

  lemma SameNameEquivalence(a: string, b: string, c: string)
    ensures SameName(a, a)
    ensures SameName(a, b) ==> SameName(b, a)
    ensures SameName(a, b) && SameName(b, c) ==> SameName(a, c)
  {
  }

  /** A proper name refers to one audio node at most, wherever that is in the lists. */
  lemma NamesAreUnambiguous(g: Graph, name: string, id: NodeId)
    requires WellFormed(g) && name != ""
    ensures FindNode(g, name) == Some(id) <==> AudioNodeNamed(g, id, name)
  {
    var ids := g.hosts + g.users;
    assert forall i :: i in ids <==> i in g.hosts || i in g.users;
    var r := FindNode(g, name);
    if AudioNodeNamed(g, id, name) && r.Some? && r.value != id {
      var a, b := g.nodes[id].name, g.nodes[r.value].name;
      SameNameEquivalence(b, name, a);
      SameNameEquivalence(a, name, b);
    }
  }

  /** Adding a node of that name to the graph succeeded. */
  ghost predicate Added(g: Graph, h: Graph, name: string)
    requires WellFormed(g)
  {
    (h == AddUser(g, name).0 && AddUser(g, name).1)
    || exists address :: h == AddHost(g, name, address).0 && AddHost(g, name, address).1
  }

  lemma AddedNames(g: Graph, h: Graph, name: string, other: string, id: NodeId)
    requires WellFormed(g) && WellFormed(h) && Added(g, h, name)
    ensures AudioNodeNamed(h, id, other) <==>
            if id == g.nextId then SameName(name, other) else AudioNodeNamed(g, id, other)
    ensures !AudioNodeNamed(g, g.nextId, other)
  {
    hide FindNode, SameName, LinksValid, ControlsPrivate, NamesUnique;
  }

  /** A node added under a name that was free is found under it, and every other name refers to what
      it referred to before. */
  lemma AddedNodeFound(g: Graph, h: Graph, name: string, other: string)
    requires WellFormed(g) && WellFormed(h) && name != "" && other != ""
    requires Added(g, h, name)
    ensures FindNode(h, other) == if SameName(name, other) then Some(g.nextId) else FindNode(g, other)
  {
    assert forall id :: id in g.hosts || id in g.users ==> id in g.nodes;
    assert forall id :: id in h.hosts || id in h.users ==> id in h.nodes;
    AddedNames(g, h, name, other, g.nextId);
    NamesAreUnambiguous(h, other, g.nextId);
    if FindNode(h, other).Some? {
      FoundInBoth(g, h, name, other, FindNode(h, other).value);
    }
    if FindNode(g, other).Some? {
      FoundInBoth(g, h, name, other, FindNode(g, other).value);
    }
  }

  lemma FoundInBoth(g: Graph, h: Graph, name: string, other: string, id: NodeId)
    requires WellFormed(g) && WellFormed(h) && other != "" && Added(g, h, name)
    ensures FindNode(h, other) == Some(id) <==>
            if id == g.nextId then SameName(name, other) else FindNode(g, other) == Some(id)
    ensures FindNode(g, other) != Some(g.nextId)
  {
    AddedNames(g, h, name, other, id);
    NamesAreUnambiguous(h, other, id);
    NamesAreUnambiguous(g, other, id);
    NamesAreUnambiguous(g, other, g.nextId);
    hide AudioNodeNamed, FindNode, Added, SameName, LinksValid, ControlsPrivate, NamesUnique;
  }

  /** What a link request refers to: the first effect whose name starts with the one given, the port its
      lookup returns, which has to be an audio port, and the audio node looked up; otherwise it fails. */
  lemma LinkRequest(g: Graph, effect: string, port: string, name: string, e: nat, p: nat, id: NodeId)
    requires WellFormed(g)
    ensures ResolveLink(g, effect, port, name) == LinkTo(e, p, id) <==>
            && e < |g.effects| && HasPrefix(g.effects[e].name, effect)
            && (forall k :: 0 <= k < e ==> !HasPrefix(g.effects[k].name, effect))
            && p < |g.effects[e].desc.ports| && ResolvePort(PortNames(g.effects[e].desc.ports), port) == p
            && g.effects[e].desc.ports[p].flags.audio
            && FindNode(g, name) == Some(id)
  {
    hide HasPrefix, ResolvePort, LinksValid, ControlsPrivate, NamesUnique, Distinct;
  }

  /** Setting a control reaches the node of the one port named, and nothing any other port is linked to. */
  lemma ControlSettingIsLocal(g: Graph, effect: string, port: string, value: real) returns (e: nat, p: nat, id: NodeId)
    requires WellFormed(g) && SetControl(g, effect, port, value).1
    requires forall k :: 0 <= k < |g.effects| ==> PortsExclusive(g.effects[k].desc)
    ensures e < |g.effects| && HasPrefix(g.effects[e].name, effect)
    ensures Linked(g, e, p, id) && p < |g.effects[e].desc.ports|
    ensures HasPrefix(g.effects[e].desc.ports[p].name, port) && g.effects[e].desc.ports[p].flags.control
    ensures var h := SetControl(g, effect, port, value).0;
            && id in h.nodes && h.nodes[id].value == value && h.nodes[id].kind == Control
            && forall e', p', id' :: Linked(g, e', p', id') && (e', p') != (e, p) ==>
                 Linked(h, e', p', id') && id' != id && id' in g.nodes && id' in h.nodes && h.nodes[id'] == g.nodes[id']
  {
    e := FindEffect(EffectNames(g.effects), effect);
    p := ResolvePort(PortNames(g.effects[e].desc.ports), port);
    assert g.effects[e].links[p].Some?;
    id := g.effects[e].links[p].value;
    assert Linked(g, e, p, id);
    assert PortsExclusive(g.effects[e].desc);
    var h := SetControl(g, effect, port, value).0;
    assert h == g.(nodes := g.nodes[id := g.nodes[id].(value := value)]);
    assert g.nodes[id].kind == Control;
    hide SetControl, HasPrefix, ResolvePort, FindEffect, EffectNames, PortNames, NamesUnique;
    forall e', p', id' | Linked(g, e', p', id') && (e', p') != (e, p)
      ensures Linked(h, e', p', id') && id' != id && id' in g.nodes
    {
      assert ControlsPrivate(g) && LinksValid(g);
    }
  }
}
