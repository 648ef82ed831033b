/** What each operation on the LADSPA graph does for its caller: when it succeeds, and what is there then. */
module LadspaOutcomes {
  import opened Options
  import opened LadspaNames
  import opened LadspaGraph
  import opened LadspaRuns
  import opened LadspaControls
  import opened LadspaLookup
  import opened LadspaEngine

  // ---------- Names ----------

  /** Names are compared without regard to the case of the letters A to Z. */
  lemma SameNameMeans(a: string, b: string)
    ensures SameName(a, b) <==>
            && |a| == |b|
            && forall i :: 0 <= i < |a| ==>
                 || a[i] == b[i]
                 || ('A' <= a[i] <= 'Z' && b[i] as int == a[i] as int + 32)
                 || ('A' <= b[i] <= 'Z' && a[i] as int == b[i] as int + 32)
  {
  }

  lemma HasPrefixMeans(full: string, name: string)
    ensures HasPrefix(full, name) <==>
            && |name| <= |full|
            && forall i :: 0 <= i < |name| ==>
                 || full[i] == name[i]
                 || ('A' <= full[i] <= 'Z' && name[i] as int == full[i] as int + 32)
                 || ('A' <= name[i] <= 'Z' && full[i] as int == name[i] as int + 32)
  {
    if |name| <= |full| {
      assert forall i :: 0 <= i < |name| ==> full[..|name|][i] == full[i];
    }
  }

  function Digit(c: char): nat {
    if '0' <= c <= '9' then c as int - '0' as int else 0
  }

  /** The number a string of digits stands for. */
  function Number(s: string): nat {
    if s == "" then 0 else 10 * Number(s[..|s| - 1]) + Digit(s[|s| - 1])
  }

  lemma {:induction false} DecimalIsNumber(n: nat)
    ensures Number(Decimal(n)) == n && Decimal(n) != ""
    ensures forall i :: 0 <= i < |Decimal(n)| ==> '0' <= Decimal(n)[i] <= '9'
    ensures n > 0 ==> Decimal(n)[0] != '0'
  {
    DigitIs(n % 10);
    if n >= 10 {
      DecimalIsNumber(n / 10);
      var d := Decimal(n);
      assert d == Decimal(n / 10) + ["0123456789"[n % 10]];
      assert d[..|d| - 1] == Decimal(n / 10);
    } else {
      assert Decimal(n)[..0] == "";
      assert Number("") == 0;
    }
  }

  lemma DigitIs(d: nat)
    requires d < 10
    ensures "0123456789"[d] as int == '0' as int + d
  {
  }

  /** A host port alone has the name given. Of several the i-th, from 0, has the name given and i + 1 in
      digits. Of a long name only the first 98 characters are kept. */
  lemma HostNameMeans(prefix: string, i: nat, count: nat)
    requires i < count
    ensures count == 1 && |prefix| <= 98 ==> HostName(prefix, i, count) == prefix
    ensures count > 1 && |prefix + Decimal(i + 1)| <= 98 ==>
              && |HostName(prefix, i, count)| >= |prefix| && HostName(prefix, i, count)[..|prefix|] == prefix
              && Number(HostName(prefix, i, count)[|prefix|..]) == i + 1
    ensures var full := if count > 1 then prefix + Decimal(i + 1) else prefix;
            |full| > 98 ==> HostName(prefix, i, count) == full[..98]
  {
    DecimalIsNumber(i + 1);
  }

  // ---------- Adding ----------

  /** A buffer can be added exactly if its name is empty or no audio node has it. It is then the last user
      node, with memory of its own and nothing linked to it, and nothing else changes. */
  lemma BufferAdded(g: Graph, name: string)
    requires WellFormed(g)
    ensures var (h, ok) := AddUser(g, name);
            && (ok <==> name == "" || forall id :: id in g.hosts || id in g.users ==> !SameName(g.nodes[id].name, name))
            && (!ok ==> h == g)
            && (ok ==> && h.users == g.users + [g.nextId] && h.hosts == g.hosts && h.effects == g.effects
                       && h.nodes.Keys == g.nodes.Keys + {g.nextId}
                       && (forall id :: id in g.nodes ==> h.nodes[id] == g.nodes[id])
                       && h.nodes[g.nextId] == Node(name, User, OwnBuffer(g.nextId), 0, 0, 0.0))
  {
    FreeName(g, name);
    hide WellFormed, SameName, NameFree;
  }

  lemma FreeName(g: Graph, name: string)
    requires WellFormed(g)
    ensures g.nextId !in g.nodes
    ensures forall id :: id in g.hosts || id in g.users ==> id in g.nodes
    ensures NameFree(g, name) <==>
            name == "" || forall id :: id in g.hosts || id in g.users ==> !SameName(g.nodes[id].name, name)
  {
    hide SameName, LinksValid, ControlsPrivate, NamesUnique;
    assert forall id :: id in g.hosts + g.users <==> id in g.hosts || id in g.users;
  }

  /** A host port can be added exactly if there is a buffer for it and its name is empty or no audio node has
      it. It is then the last host node; where effects work in place its memory is that buffer. */
  lemma HostAdded(g: Graph, name: string, address: int)
    requires WellFormed(g)
    ensures var (h, ok) := AddHost(g, name, address);
            && (ok <==>
                  && address != 0
                  && (name == "" || forall id :: id in g.hosts || id in g.users ==> !SameName(g.nodes[id].name, name)))
            && (!ok ==> h == g)
            && (ok ==> && h.hosts == g.hosts + [g.nextId] && h.users == g.users && h.effects == g.effects
                       && h.nodes.Keys == g.nodes.Keys + {g.nextId}
                       && (forall id :: id in g.nodes ==> h.nodes[id] == g.nodes[id])
                       && h.nodes[g.nextId] == Node(name, Host, if g.inPlace then HostBuffer(address)
                                                                else OwnBuffer(g.nextId), 0, 0, 0.0))
  {
    FreeName(g, name);
    hide WellFormed, SameName, NameFree;
  }

  /** Of a group of host ports added successfully, the i-th is named after the group and stands for the i-th
      buffer, and nothing is added besides. */
  lemma {:induction false} HostsAdded(g: Graph, prefix: string, addresses: seq<int>, n: nat)
    requires WellFormed(g) && n <= |addresses| && AddHosts(g, prefix, addresses, n).1
    ensures var h := AddHosts(g, prefix, addresses, n).0;
            && |h.hosts| == |g.hosts| + n && h.hosts[..|g.hosts|] == g.hosts
            && h.users == g.users && h.effects == g.effects && h.inPlace == g.inPlace
            && (forall id :: id in g.nodes ==> id in h.nodes && h.nodes[id] == g.nodes[id])
            && (forall i :: 0 <= i < n ==>
                  IsHostPort(h, h.hosts[|g.hosts| + i], HostName(prefix, i, |addresses|), addresses[i]))
  {
    hide WellFormed, SameName, HostName, NameFree;
    if n != 0 {
      HostsAdded(g, prefix, addresses, n - 1);
      var m := AddHosts(g, prefix, addresses, n - 1).0;
      HostAdded(m, HostName(prefix, n - 1, |addresses|), addresses[n - 1]);
      FreshId(m);
      hide AddHost;
    }
  }

  /** A host node of that name without links that, where effects work in place, works on that buffer. */
  ghost predicate IsHostPort(g: Graph, id: NodeId, name: string, address: int) {
    && id in g.nodes && g.nodes[id].kind == Host && g.nodes[id].name == name
    && g.nodes[id].numInputs == 0 && g.nodes[id].numOutputs == 0
    && address != 0 && (g.inPlace ==> g.nodes[id].buffer == HostBuffer(address))
  }

  /** An effect added is the last one, inactive and not mixing; the effects and nodes there were stay. */
  lemma EffectAdded(g: Graph, name: string, desc: Descriptor)
    requires WellFormed(g)
    ensures var h := AddEffect(g, name, desc);
            && |h.effects| == |g.effects| + 1 && h.effects[..|g.effects|] == g.effects
            && h.hosts == g.hosts && h.users == g.users && h.inPlace == g.inPlace
            && (forall id :: id in g.nodes ==> id in h.nodes && h.nodes[id] == g.nodes[id])
            && var e := h.effects[|g.effects|];
               e.name == name && e.desc == desc && !e.active && !e.mix && |e.links| == |desc.ports|
  {
    IdsAreOld(g);
    WithControlsExtends(g.nodes, g.nextId, desc.ports, |desc.ports|);
    hide WellFormed, WithControls, ControlPorts, ControlLinks;
  }

  /** Each control port of it is linked to a new node with the default value of the port, counted once in
      the direction of the port. Its other ports are not linked. */
  lemma EffectPorts(g: Graph, name: string, desc: Descriptor, p: nat)
    requires WellFormed(g) && p < |desc.ports|
    ensures var h := AddEffect(g, name, desc);
            && |h.effects| == |g.effects| + 1 && |h.effects[|g.effects|].links| == |desc.ports|
            && var link := h.effects[|g.effects|].links[p];
               if desc.ports[p].flags.control then
                 && link.Some? && link.value !in g.nodes && link.value in h.nodes
                 && IsNewControl(h.nodes[link.value], desc.ports[p])
               else link == None
  {
    hide WellFormed, WithControls, ControlPorts, AddEffect;
    IdsAreOld(g);
    AddEffectEffects(g, name, desc);
    AddEffectLinks(g, name, desc);
    WithControlsExtends(g.nodes, g.nextId, desc.ports, |desc.ports|);
    var h := AddEffect(g, name, desc);
    if desc.ports[p].flags.control {
      assert Linked(h, |g.effects|, p, g.nextId + ControlPorts(desc.ports, p));
    } else if h.effects[|g.effects|].links[p].Some? {
      assert Linked(h, |g.effects|, p, h.effects[|g.effects|].links[p].value);
      LinkedInRange(g, |g.effects|, p, h.effects[|g.effects|].links[p].value);
    }
  }

  predicate IsNewControl(n: Node, port: Port) {
    && n.kind == Control && n.value == port.default
    && n.numOutputs == (if port.flags.input then 1 else 0) && n.numInputs == (if port.flags.input then 0 else 1)
  }

  // ---------- Changing ----------

  /** Mixing can always be switched off, and on exactly if the plugin can mix. It is then switched for the
      first effect whose name starts with the one given, and for no other. */
  lemma MixSet(g: Graph, effect: string, mix: bool, e: nat)
    requires e <= |g.effects| && (e < |g.effects| ==> HasPrefix(g.effects[e].name, effect))
    requires forall k :: 0 <= k < e ==> !HasPrefix(g.effects[k].name, effect)
    ensures var (h, ok) := SetMix(g, effect, mix);
            && (ok <==> e < |g.effects| && (mix ==> g.effects[e].desc.canMix))
            && (!ok ==> h == g)
            && (ok ==> h == g.(effects := h.effects) && |h.effects| == |g.effects| && h.effects[e].mix == mix
                       && h.effects[e].(mix := g.effects[e].mix) == g.effects[e]
                       && forall k :: 0 <= k < |g.effects| && k != e ==> h.effects[k] == g.effects[k])
  {
    hide HasPrefix;
  }

  /** A control can be set exactly if the port looked up is a control port; in a graph of the engine that port
      is linked. */
  lemma ControlSet(g: Graph, effect: string, port: string, value: real, e: nat)
    requires WellFormed(g) && ControlsLinked(g)
    requires e <= |g.effects| && (e < |g.effects| ==> HasPrefix(g.effects[e].name, effect))
    requires forall k :: 0 <= k < e ==> !HasPrefix(g.effects[k].name, effect)
    ensures var (h, ok) := SetControl(g, effect, port, value);
            && (!ok ==> h == g)
            && (ok <==> e < |g.effects|
                        && var p := ResolvePort(PortNames(g.effects[e].desc.ports), port);
                           p != -1 && g.effects[e].desc.ports[p].flags.control)
            && (ok ==> var id := g.effects[e].links[ResolvePort(PortNames(g.effects[e].desc.ports), port)].value;
                       id in g.nodes && h == g.(nodes := g.nodes[id := g.nodes[id].(value := value)]))
  {
    hide HasPrefix, ResolvePort, NamesUnique, ControlsPrivate, Distinct;
    if e < |g.effects| {
      var p := ResolvePort(PortNames(g.effects[e].desc.ports), port);
      if p != -1 && g.effects[e].desc.ports[p].flags.control {
        assert IsControlPort(g, e, p);
        assert Linked(g, e, p, g.effects[e].links[p].value);
      }
    }
  }
}
