/** Jack clients, shared by an audio and a MIDI driver of the same server. Creating and deleting a
    driver is one atomic step each. */
module Jack {
  import opened Options

  type ClientId = nat
  type DriverId = nat

  datatype Kind = Audio | Midi

  datatype Client = Client(server: Option<string>, audioDriver: Option<DriverId>, midiDriver: Option<DriverId>)

  /** `server` is what the settings said when the driver was created. */
  datatype Driver = Driver(kind: Kind, server: Option<string>, client: ClientId)

  function Slot(c: Client, kind: Kind): Option<DriverId> {
    if kind.Audio? then c.audioDriver else c.midiDriver
  }

  function WithSlot(c: Client, kind: Kind, d: Option<DriverId>): Client {
    if kind.Audio? then c.(audioDriver := d) else c.(midiDriver := d)
  }

  predicate Empty(c: Client) {
    c.audioDriver.None? && c.midiDriver.None?
  }

  predicate Unpaired(c: Client) {
    c.audioDriver.Some? != c.midiDriver.Some?
  }

  /** The clients and drivers alive, the last unpaired client, and a log of every client freed. */
  datatype World = World(clients: map<ClientId, Client>, drivers: map<DriverId, Driver>, lastClient: Option<ClientId>,
                         nextId: nat, freed: seq<ClientId>)

  const START := World(map[], map[], None, 0, [])

  /** How the calls into Jack and the settings turn out. */
  datatype Outcome = Outcome(settingsOk: bool, clientOpens: bool, portsRegister: bool, activates: bool)

  /** The last client can take the driver: same server, and the slot of its kind is free. */
  predicate CanPair(w: World, kind: Kind, server: Option<string>) {
    && w.lastClient.Some? && w.lastClient.value in w.clients
    && var c := w.clients[w.lastClient.value];
       c.server.Some? && server.Some? && c.server == server && Slot(c, kind).None?
  }

  /** new_fluid_jack_client and the driver around it; a failure leaves everything as it was. */
  function Created(w: World, kind: Kind, server: Option<string>, o: Outcome): (r: (World, Option<DriverId>)) {
    if !o.settingsOk then (w, None)
    else if CanPair(w, kind, server) then
      if !o.portsRegister then (w, None)
      else
        var c := w.lastClient.value;
        (w.(clients := w.clients[c := WithSlot(w.clients[c], kind, Some(w.nextId))],
            drivers := w.drivers[w.nextId := Driver(kind, server, c)],
            lastClient := None, nextId := w.nextId + 1),
         Some(w.nextId))
    else if !o.clientOpens || !o.portsRegister || !o.activates then (w, None)
    else
      var d, c := w.nextId, w.nextId + 1;
      (w.(clients := w.clients[c := WithSlot(Client(server, None, None), kind, Some(d))],
          drivers := w.drivers[d := Driver(kind, server, c)],
          lastClient := Some(c), nextId := w.nextId + 2),
       Some(d))
  }

  /** The slot of a client that holds a driver is cleared; the audio slot is looked at first. */
  function Detached(c: Client, d: DriverId): Client {
    if c.audioDriver == Some(d) then c.(audioDriver := None)
    else if c.midiDriver == Some(d) then c.(midiDriver := None)
    else c
  }

  /** fluid_jack_client_close and the driver around it. */
  function Deleted(w: World, d: DriverId): World
    requires d in w.drivers && w.drivers[d].client in w.clients
  {
    var id := w.drivers[d].client;
    var c := Detached(w.clients[id], d);
    var drivers := w.drivers - {d};
    if !Empty(c) then w.(clients := w.clients[id := c], drivers := drivers)
    else w.(clients := w.clients - {id}, drivers := drivers,
            lastClient := if w.lastClient == Some(id) then None else w.lastClient, freed := w.freed + [id])
  }

  // ---------- The invariant ----------

  /** A driver and its client know each other. */
  ghost predicate Held(w: World, d: DriverId) {
    && d in w.drivers && w.drivers[d].client in w.clients
    && Slot(w.clients[w.drivers[d].client], w.drivers[d].kind) == Some(d)
    && w.clients[w.drivers[d].client].server == w.drivers[d].server
  }

  /** Whatever is in a slot is a driver of that kind on that client. */
  ghost predicate SlotFine(w: World, id: ClientId, kind: Kind)
    requires id in w.clients
  {
    Slot(w.clients[id], kind).Some? ==>
      var d := Slot(w.clients[id], kind).value;
      d in w.drivers && w.drivers[d].kind == kind && w.drivers[d].client == id
  }

  ghost predicate SlotsFine(w: World, id: ClientId) {
    id in w.clients && !Empty(w.clients[id]) && SlotFine(w, id, Audio) && SlotFine(w, id, Midi)
  }

  ghost predicate Inv(w: World) {
    && (forall d :: d in w.drivers ==> Held(w, d))
    && (forall id :: id in w.clients ==> SlotsFine(w, id))
    && (w.lastClient.Some? ==> w.lastClient.value in w.clients && Unpaired(w.clients[w.lastClient.value]))
    && (forall d :: d in w.drivers ==> d < w.nextId)
    && (forall id :: id in w.clients ==> id < w.nextId)
    && (forall i :: 0 <= i < |w.freed| ==> w.freed[i] < w.nextId && w.freed[i] !in w.clients)
    && (forall i, j :: 0 <= i < j < |w.freed| ==> w.freed[i] != w.freed[j])
  }

  lemma CreatedKeepsInv(w: World, kind: Kind, server: Option<string>, o: Outcome)
    requires Inv(w)
    ensures Inv(Created(w, kind, server, o).0)
  {
    var w' := Created(w, kind, server, o).0;
    if w' != w {
      forall d | d in w'.drivers ensures Held(w', d) {
        assert d in w.drivers ==> Held(w, d);
      }
      forall id | id in w'.clients ensures SlotsFine(w', id) {
        assert id in w.clients ==> SlotsFine(w, id);
      }
    }
  }

  /** Detaching a driver clears just its own slot. */
  lemma DetachedSlots(w: World, d: DriverId)
    requires Inv(w) && d in w.drivers
    ensures Held(w, d)
    ensures var c := w.clients[w.drivers[d].client];
            && Detached(c, d).server == c.server
            && forall kind :: Slot(Detached(c, d), kind) == if kind == w.drivers[d].kind then None else Slot(c, kind)
  {
    var id := w.drivers[d].client;
    assert Held(w, d) && SlotsFine(w, id);
    assert SlotFine(w, id, Audio) && SlotFine(w, id, Midi);
  }

  lemma DeletedHolds(w: World, d: DriverId, e: DriverId)
    requires Inv(w) && d in w.drivers && e in w.drivers && e != d
    ensures Held(w, d) && Held(Deleted(w, d), e)
  {
    DetachedSlots(w, d);
    assert Held(w, e);
    assert Held(w, d);
    hide Inv, Detached, SlotsFine;
    var c := Detached(w.clients[w.drivers[d].client], d);
    if w.drivers[e].client == w.drivers[d].client {
      assert w.drivers[e].kind != w.drivers[d].kind;
      assert Slot(c, w.drivers[e].kind) == Some(e);
    }
  }

  lemma DeletedSlots(w: World, d: DriverId, id: ClientId)
    requires Inv(w) && d in w.drivers
    ensures Held(w, d)
    ensures id in Deleted(w, d).clients ==> SlotsFine(Deleted(w, d), id)
  {
    DetachedSlots(w, d);
    assert id in w.clients ==> SlotsFine(w, id);
    hide Inv, Detached;
  }

  lemma DeletedKeepsInv(w: World, d: DriverId)
    requires Inv(w) && d in w.drivers
    ensures Held(w, d) && Inv(Deleted(w, d))
  {
    DetachedSlots(w, d);
    assert SlotsFine(w, w.drivers[d].client);
    hide Detached, SlotsFine;
    var w' := Deleted(w, d);
    forall e | e in w'.drivers ensures Held(w', e) {
      DeletedHolds(w, d, e);
    }
    forall id | id in w'.clients ensures SlotsFine(w', id) {
      DeletedSlots(w, d, id);
    }
    hide Held;
  }

  /** Deleting a driver frees its client exactly if it was the client's last driver, and otherwise
      leaves the client to the other driver alone. */
  lemma FreedWithLastDriver(w: World, d: DriverId)
    requires Inv(w) && d in w.drivers
    ensures Held(w, d)
    ensures var c := w.drivers[d].client;
            var w' := Deleted(w, d);
            && w'.drivers == w.drivers - {d} && w'.nextId == w.nextId
            && (forall id :: id in w.clients && id != c ==> id in w'.clients && w'.clients[id] == w.clients[id])
            && if Unpaired(w.clients[c]) then
                 && w'.clients == w.clients - {c} && w'.freed == w.freed + [c]
                 && w'.lastClient == if w.lastClient == Some(c) then None else w.lastClient
               else
                 && w'.clients.Keys == w.clients.Keys && Unpaired(w'.clients[c])
                 && w'.freed == w.freed && w'.lastClient == w.lastClient
  {
    assert Held(w, d);
    assert SlotsFine(w, w.drivers[d].client);
  }

  /** A creation succeeds, and joins the last client, exactly if the settings and the ports are fine, there
      is a last client of the same given server, and that has no driver of this kind yet. It then opens no
      client, and none is the last client any more. */
  lemma Joins(w: World, kind: Kind, server: Option<string>, o: Outcome)
    requires Inv(w)
    ensures var (w', d) := Created(w, kind, server, o);
            (d.Some? && d.value in w'.drivers && w'.drivers[d.value].client in w.clients) <==>
              && o.settingsOk && o.portsRegister && HasRoom(w, kind, server)
    ensures var (w', d) := Created(w, kind, server, o);
            d.Some? && d.value in w'.drivers && w'.drivers[d.value].client in w.clients ==>
              && Some(w'.drivers[d.value].client) == w.lastClient
              && w'.clients.Keys == w.clients.Keys && w'.lastClient == None && w'.freed == w.freed
  {
  }

  /** There is a last client, both servers are given and equal, and the slot of the kind is free. */
  predicate HasRoom(w: World, kind: Kind, server: Option<string>)
    requires Inv(w)
  {
    match w.lastClient
    case None => false
    case Some(c) =>
      && w.clients[c].server.Some? && server.Some? && w.clients[c].server.value == server.value
      && (kind == Audio ==> w.clients[c].audioDriver.None?)
      && (kind == Midi ==> w.clients[c].midiDriver.None?)
  }

  /** Otherwise a creation succeeds exactly if a client can be opened, with its ports, and activated. It is
      a new one, and it is the last client from then on. */
  lemma OpensClient(w: World, kind: Kind, server: Option<string>, o: Outcome)
    requires Inv(w) && !HasRoom(w, kind, server)
    ensures var (w', d) := Created(w, kind, server, o);
            && (d.Some? <==> o.settingsOk && o.clientOpens && o.portsRegister && o.activates)
            && (d.Some? ==>
                  && d.value in w'.drivers
                  && var c := w'.drivers[d.value].client;
                     c !in w.clients && c !in w.freed && w'.clients.Keys == w.clients.Keys + {c}
                     && w'.lastClient == Some(c))
  {
  }

  /** In any case a new driver is of the kind asked for and in the slot of that kind of its client, all other
      drivers, slots and clients stay what they were, and a failure changes nothing. */
  lemma CreationIsLocal(w: World, kind: Kind, server: Option<string>, o: Outcome)
    requires Inv(w)
    ensures var (w', d) := Created(w, kind, server, o);
            && (d.None? ==> w' == w)
            && (d.Some? ==>
                  && d.value !in w.drivers && d.value in w'.drivers && w'.drivers - {d.value} == w.drivers
                  && w'.drivers[d.value].kind == kind && w'.drivers[d.value].server == server
                  && var c := w'.drivers[d.value].client;
                     && c in w'.clients
                     && (if kind == Audio then w'.clients[c].audioDriver == d else w'.clients[c].midiDriver == d)
                     && (forall id :: id in w.clients && id != c ==>
                           id in w'.clients && w'.clients[id] == w.clients[id])
                     && (c in w.clients ==>
                           if kind == Audio then w'.clients[c].midiDriver == w.clients[c].midiDriver
                           else w'.clients[c].audioDriver == w.clients[c].audioDriver))
  {
    hide Held, SlotsFine;
    var (w', d) := Created(w, kind, server, o);
    if d.Some? {
      assert d.value !in w.drivers;
      assert w'.drivers - {d.value} == w.drivers;
    }
  }

  /** So two successful creations in a row, of different kinds on one server, share a client, unless the
      first one joined an older client. */
  lemma PairsUp(w: World, kind: Kind, server: string, o: Outcome, o': Outcome)
    requires Inv(w) && !HasRoom(w, kind, Some(server))
    requires o.settingsOk && o.clientOpens && o.portsRegister && o.activates && o'.settingsOk && o'.portsRegister
    ensures var (w1, d1) := Created(w, kind, Some(server), o);
            var (w2, d2) := Created(w1, if kind == Audio then Midi else Audio, Some(server), o');
            && d1.Some? && d2.Some? && d1 != d2 && d1.value in w2.drivers && d2.value in w2.drivers
            && w2.drivers[d1.value].client == w2.drivers[d2.value].client
            && w2.clients.Keys == w1.clients.Keys && w2.lastClient == None
  {
  }

  // ---------- Runs ----------

  datatype Op = Create(kind: Kind, server: Option<string>, outcome: Outcome) | Delete(driver: DriverId)

  /** Deleting needs a driver that is alive; the caller sees to that. */
  function Next(w: World, op: Op): World {
    match op
    case Create(kind, server, o) => Created(w, kind, server, o).0
    case Delete(d) => if d in w.drivers && w.drivers[d].client in w.clients then Deleted(w, d) else w
  }

  function Run(ops: seq<Op>, n: nat): World
    requires n <= |ops|
  {
    if n == 0 then START else Next(Run(ops, n - 1), ops[n - 1])
  }

  lemma {:induction false} RunInv(ops: seq<Op>, n: nat)
    requires n <= |ops|
    ensures Inv(Run(ops, n))
  {
    hide Created, Deleted;
    if n != 0 {
      RunInv(ops, n - 1);
      var w := Run(ops, n - 1);
      match ops[n - 1]
      case Create(kind, server, o) => CreatedKeepsInv(w, kind, server, o);
      case Delete(d) => if d in w.drivers { DeletedKeepsInv(w, d); }
    }
  }

  /** In every run: each client alive has one or two drivers of different kinds and of its own server,
      no driver holds a dead client, and only a client with one driver can be the last client. */
  lemma ClientsShared(ops: seq<Op>, n: nat)
    requires n <= |ops|
    ensures var w := Run(ops, n);
            && (forall d :: d in w.drivers ==> w.drivers[d].client in w.clients && w.drivers[d].client !in w.freed)
            && (forall id :: id in w.clients ==>
                  exists d :: d in w.drivers && w.drivers[d].client == id
                              && w.drivers[d].server == w.clients[id].server)
            && (forall d, e :: d in w.drivers && e in w.drivers && d != e
                               && w.drivers[d].client == w.drivers[e].client ==>
                  w.drivers[d].kind != w.drivers[e].kind && w.drivers[d].server == w.drivers[e].server)
            && (w.lastClient.Some? ==> w.lastClient.value in w.clients && Unpaired(w.clients[w.lastClient.value]))
  {
    hide Run;
    RunInv(ops, n);
    var w := Run(ops, n);
    forall id | id in w.clients
      ensures exists d :: d in w.drivers && w.drivers[d].client == id && w.drivers[d].server == w.clients[id].server
    {
      assert SlotsFine(w, id);
      var kind := if w.clients[id].audioDriver.Some? then Audio else Midi;
      var d := Slot(w.clients[id], kind).value;
      assert Held(w, d);
    }
    forall d, e | d in w.drivers && e in w.drivers && d != e && w.drivers[d].client == w.drivers[e].client
      ensures w.drivers[d].kind != w.drivers[e].kind && w.drivers[d].server == w.drivers[e].server
    {
      assert Held(w, d) && Held(w, e);
    }
  }

  /** In every run: a client that was open at some point is still alive or was freed, never both, and
      no client was freed twice. */
  lemma {:induction false} FreedOnce(ops: seq<Op>, k: nat, n: nat, id: ClientId)
    requires k <= n <= |ops| && id in Run(ops, k).clients
    ensures id in Run(ops, n).clients <==> id !in Run(ops, n).freed
    ensures forall i, j :: 0 <= i < j < |Run(ops, n).freed| ==> Run(ops, n).freed[i] != Run(ops, n).freed[j]
    decreases n
  {
    hide Created, Deleted;
    RunInv(ops, n);
    if k < n {
      FreedOnce(ops, k, n - 1, id);
      RunInv(ops, n - 1);
      NextFrees(Run(ops, n - 1), ops[n - 1], id);
    }
  }

  lemma NextFrees(w: World, op: Op, id: ClientId)
    requires Inv(w) && (id in w.clients || id in w.freed)
    ensures id in Next(w, op).clients || id in Next(w, op).freed
  {
    if op.Delete? && op.driver in w.drivers {
      assert Held(w, op.driver);
    }
  }

  // ---------- The driver code ----------

  class Registry {
    var clients: map<ClientId, Client>
    var drivers: map<DriverId, Driver>
    var lastClient: Option<ClientId>
    var nextId: nat
    ghost var freed: seq<ClientId>

    ghost function View(): World
      reads this
    {
      World(clients, drivers, lastClient, nextId, freed)
    }

    constructor ()
      ensures View() == START
    {
      clients, drivers, lastClient, nextId, freed := map[], map[], None, 0, [];
    }

    method CreateDriver(kind: Kind, server: Option<string>, o: Outcome) returns (driver: Option<DriverId>)
      requires Inv(View())
      modifies this
      ensures Inv(View())
      ensures (View(), driver) == Created(old(View()), kind, server, o)
    {
      CreatedKeepsInv(View(), kind, server, o);
      assert lastClient.Some? ==> lastClient.value in clients;
      hide Inv, Created;
      driver := NewClient(kind, server, o);
    }

    method NewClient(kind: Kind, server: Option<string>, o: Outcome) returns (driver: Option<DriverId>)
      requires lastClient.Some? ==> lastClient.value in clients
      modifies this
      ensures (View(), driver) == Created(old(View()), kind, server, o)
    {
      if !o.settingsOk {
        return None;
      }
      if lastClient.Some? {
        var c := clients[lastClient.value];
        if c.server.Some? && server.Some? && c.server.value == server.value
           && ((kind.Midi? && c.midiDriver.None?) || (kind.Audio? && c.audioDriver.None?)) {
          if !o.portsRegister {
            return None;
          }
          var id := lastClient.value;
          lastClient := None;
          clients := clients[id := if kind.Audio? then c.(audioDriver := Some(nextId))
                                   else c.(midiDriver := Some(nextId))];
          drivers := drivers[nextId := Driver(kind, server, id)];
          driver := Some(nextId);
          nextId := nextId + 1;
          return;
        }
      }
      if !o.clientOpens || !o.portsRegister || !o.activates {
        return None;
      }
      var id := nextId + 1;
      lastClient := Some(id);
      clients := clients[id := if kind.Audio? then Client(server, Some(nextId), None)
                               else Client(server, None, Some(nextId))];
      drivers := drivers[nextId := Driver(kind, server, id)];
      driver := Some(nextId);
      nextId := nextId + 2;
    }

    method DeleteDriver(d: DriverId)
      requires Inv(View()) && d in drivers
      modifies this
      ensures Inv(View())
      ensures Held(old(View()), d) && View() == Deleted(old(View()), d)
    {
      DeletedKeepsInv(View(), d);
      hide Inv, Deleted;
      CloseClient(d);
    }

    method CloseClient(d: DriverId)
      requires d in drivers && drivers[d].client in clients
      modifies this
      ensures View() == Deleted(old(View()), d)
    {
      var id := drivers[d].client;
      drivers := drivers - {d};
      if clients[id].audioDriver == Some(d) {
        clients := clients[id := clients[id].(audioDriver := None)];
      } else if clients[id].midiDriver == Some(d) {
        clients := clients[id := clients[id].(midiDriver := None)];
      }
      if clients[id].audioDriver.Some? || clients[id].midiDriver.Some? {
        return;
      }
      if lastClient == Some(id) {
        lastClient := None;
      }
      clients := clients - {id};
      freed := freed + [id];
      assert clients == old(clients) - {id};
    }
  }
}
