# Verified models of FluidSynth's sequencer queue, LADSPA engine and audio drivers

The files here model parts of FluidSynth in Dafny and prove what they keep.

* **The sequencer's event queue** (`Events`, `BinaryHeap`, `QueueModel`, `Dispatch`, `EventQueue`). A binary
  heap ordered by a hand-derived boolean comparator. The comparator is shown to be a strict weak order and to
  mean "later tick, or same tick and lower precedence". The heap algorithms are array methods equal to
  functions on sequences; those functions keep the heap and the contents. Over every run of pushes, removals,
  invalidations and pops the queue refines a priority queue on multisets. The dispatch loop is proved for
  arbitrary client callbacks that use the queue between deliveries: what is delivered, in which order, that
  nothing is lost, when it ends, and that a dispatch may be split in two.
* **The LADSPA effects engine** (`LadspaNames`, `LadspaGraph`, `LadspaRuns`, `LadspaOwnership`,
  `LadspaControls`, `LadspaBuffers`, `LadspaLookup`, `LadspaOutcomes`, `LadspaProtocol`, `LadspaSafety`,
  `LadspaCalls`, `LadspaEngine`). The node and port graph is a value; the operations on it are functions, and
  `LadspaEngine.LadspaFx` is the engine as an object whose methods compute them. What the link counters really
  count, which nodes exist and who frees them is proved for every sequence of operations. The protocol between
  the API and the render thread is a state machine that interleaves single steps; its guarantees hold in every
  reachable state, and every graph the API can make is reached. `LadspaCalls.CallIsAtomic` shows that each call
  has the effect it would have as a single step, which is what the methods of `LadspaFx` do. Every change of
  the graph in the protocol is one of the graph operations, so the two halves meet in
  `LadspaSafety.ActiveMeansConnected` and `LadspaControls.ResetGivesAllBack`. All of this is for both builds:
  with effects that work on the host's buffers directly (`inPlace`, the code under WITH_FLOAT) and with buffers
  of their own.
* **PCM conversion** (`Pcm`, `Dither`, `PcmConvert`), over exact reals.
* **Jack clients** (`Jack`): ownership of a client by up to two drivers.
* **The DirectSound loop** (`DirectSound`): where in the ring the frames go, in unsigned 32-bit arithmetic.
* **OSS fragments** (`Oss`) and **generated tables** (`GenTables`).

Where the code changes something in place there is a method with loops or a class, proved equal to a function
of the old state; the properties are lemmas about that function.

Places where the code does not do what its documentation says:

* Looking up a plugin port by name promises an exact match, or else the only port that starts with the name.
  The loop gives up at the second port that merely starts with the name, even if an exact match follows
  (`src/bindings/fluid_ladspa.c:1183-1186`). `LadspaNames.ExactMatchMissed` is an example and
  `LadspaNames.PortLookupAsDocumented` says exactly when the promise is kept.
* An effect is looked up by prefix too, so an effect whose name starts another one's name can be out of reach:
  `LadspaNames.EffectOutOfReach` is an example and `LadspaNames.EffectFoundByName` says exactly when it is not.
* The check before activation is meant to find buffers nobody writes to. Linking a port a second time does not
  take the first link off the counters of the old node (`src/bindings/fluid_ladspa.c:1617-1632`), so the
  counters count link operations. `LadspaOwnership.RelinkFoolsTheCheck` is a graph that passes the check with
  a buffer no port writes; `LadspaOwnership.RealLinks` says exactly when a counter stands for a real link.
* A link operation on a port whose descriptor calls it both audio and control takes the port off its
  control node, which a reset then does not find any more: `LadspaControls.ResetLosesNode` is an example and
  `LadspaControls.ResetFreesAllUnless` says that nothing else loses memory. The LADSPA interface forbids such
  ports; with plugins that obey it every control port owns its node and a reset frees everything it should, by
  `LadspaControls.ControlPortsOwnNodes`.
* `round_clip_to` compares with the lowest value and with its negation. For unsigned types both are zero, and
  every argument becomes zero or the maximum: `Pcm.UnsignedSaturates`. The repository only uses signed types.

## Model

| member | source | states |
|---|---|---|
| Events.EventCompare | src/midi/fluid_seq_queue.cpp:42-115 | the disjunctive normal form holds exactly if the right event must be dispatched before the left: an earlier tick, or the same tick and a type higher in the precedence list |
| Events.StrictWeakOrder | src/midi/fluid_seq_queue.cpp:87-114 | the comparator is irreflexive, asymmetric and transitive; incomparability is transitive and means equal tick and precedence; it is the order of one number |
| Events.DocumentedOrder | src/midi/fluid_seq_queue.cpp:56-85 | by type number, events of one tick come in the order documented: note-offs, system resets, unregistering, bank changes, program changes, all others, notes |
| BinaryHeap.SiftUpHeap | src/midi/fluid_seq_queue.cpp:152-153 | sifting up repairs a heap in which only one event may be out of order with its parent |
| BinaryHeap.SiftDownHeap | src/midi/fluid_seq_queue.cpp:220-224 | sifting down repairs the part of a heap below an index in which only one event may be out of order with its children |
| BinaryHeap.RootIsFirst | src/midi/fluid_seq_queue.cpp:112-114 | no event of a heap has to be dispatched before the one at the front |
| BinaryHeap.PushedHeap | src/midi/fluid_seq_queue.cpp:146-161 | a push keeps the heap and adds exactly one event |
| BinaryHeap.PoppedHeap | src/midi/fluid_seq_queue.cpp:220-224 | a pop keeps the heap and takes out exactly the front event |
| BinaryHeap.MakeHeapHeap | src/midi/fluid_seq_queue.cpp:188-188 | rebuilding makes any sequence a heap of the same events |
| BinaryHeap.PushHeap | src/midi/fluid_seq_queue.cpp:153-153 | the heap push in place is the sift-up function on the cells of the heap, and leaves the other cells alone |
| BinaryHeap.PopHeap | src/midi/fluid_seq_queue.cpp:222-223 | the heap pop in place leaves a heap without its root in front, the root in the last cell, and the other cells alone |
| BinaryHeap.MakeHeapCells | src/midi/fluid_seq_queue.cpp:188-188 | the rebuild in place is the rebuild function |
| QueueModel.RemovedIsFilter | src/midi/fluid_seq_queue.cpp:163-190 | an event stays, as often as it was there, exactly if its source, its destination or its type differs from a filter that is not -1; the others are gone, and the result is a heap |
| QueueModel.ClearShortcutAgrees | src/midi/fluid_seq_queue.cpp:167-189 | the shortcut for deleting everything and the general case give the same queue |
| QueueModel.EarliestTarget | src/midi/fluid_seq_queue.cpp:196-209 | the index found is the first of the earliest note-offs of the note below the last tick, and there is none exactly if it is -1 |
| QueueModel.InvalidatedHeap | src/midi/fluid_seq_queue.cpp:211-217 | changing the destination keeps the heap without a rebuild |
| QueueModel.InvalidatedFixpoint | src/midi/fluid_seq_queue.cpp:192-218 | an invalidation changes nothing exactly if the destination is -1 already or there is no note-off of that destination and note below the last tick |
| QueueModel.InvalidatesEarliest | src/midi/fluid_seq_queue.cpp:196-217 | otherwise it takes the destination from the first of the earliest of these note-offs, and changes nothing else |
| QueueModel.StripTakesEarliest | src/midi/fluid_seq_queue.cpp:192-218 | for a destination other than -1, k invalidations clear the destinations of the k earliest matches, or all of them, each once, in nondecreasing time, and nothing else changes |
| QueueModel.InvalidateRefines | src/midi/fluid_seq_queue.cpp:192-218 | on the multiset, an invalidation replaces at most one event, an earliest match, by one without destination |
| QueueModel.StepRefines | src/midi/fluid_seq_queue.cpp:146-224 | every operation keeps the heap and is a step of the priority queue on multisets |
| QueueModel.RunRefines | src/midi/fluid_seq_queue.cpp:146-251 | over every run from a heap the array stays a heap and each step refines the priority queue on multisets |
| Dispatch.DispatchIsRun | src/midi/fluid_seq_queue.cpp:226-251 | a dispatch with callbacks leaves what a certain run of single operations leaves, so results about runs hold across dispatches |
| Dispatch.DeliveredFirstAndDue | src/midi/fluid_seq_queue.cpp:230-244 | whatever the callbacks do, each event delivered was due, was in the queue, and nothing in the queue at that moment had to go before it |
| Dispatch.NothingDueLeft | src/midi/fluid_seq_queue.cpp:234-249 | when the loop ends, no event in the queue is due |
| Dispatch.DispatchConserves | src/midi/fluid_seq_queue.cpp:226-251 | initial events and those the callbacks put in are, as multisets, the events delivered, left, and taken out by callbacks |
| Dispatch.RoundsAreBudgeted | src/midi/fluid_seq_queue.cpp:230-250 | deliveries and due events left never exceed the due events at the start and those pushed by callbacks |
| Dispatch.DispatchTerminates | src/midi/fluid_seq_queue.cpp:230-250 | if the callbacks push finitely many due events, the loop ends after at most that many rounds plus the due events at the start |
| Dispatch.DeliveredInOrder | src/midi/fluid_seq_queue.cpp:226-251 | as long as no callback pushes an event that should have gone before the one it handles, deliveries are sorted by tick and precedence |
| Dispatch.CallbackFreeDispatch | src/midi/fluid_seq_queue.cpp:226-251 | without callbacks exactly the due events are delivered, sorted, and exactly the others are left |
| Dispatch.DispatchSplits | src/midi/fluid_seq_queue.cpp:226-251 | dispatching to one tick and then to a later one delivers the same sequence and leaves the same queue as dispatching to the later one, also with callbacks |
| Dispatch.CompletesOnce | src/midi/fluid_seq_queue.cpp:226-251 | queue, tick and callbacks determine what is delivered and what is left |
| EventQueue.EventQueue.Push | src/midi/fluid_seq_queue.cpp:146-161 | appends and sifts up: the contents become the pushed heap |
| EventQueue.EventQueue.Remove | src/midi/fluid_seq_queue.cpp:163-190 | clears, or erases in place and rebuilds: what stays is what differs from a filter in source, destination or type |
| EventQueue.EventQueue.InvalidateNote | src/midi/fluid_seq_queue.cpp:192-218 | the scan and the assignment change the contents as the invalidation function says; a changed event was a note-off of that destination and note |
| EventQueue.EventQueue.Pop | src/midi/fluid_seq_queue.cpp:220-224 | the contents become the popped heap |
| EventQueue.EventQueue.Process | src/midi/fluid_seq_queue.cpp:226-251 | the loop ends if callbacks push finitely many due events, and its deliveries and contents are those of a completed dispatch |
| LadspaOutcomes.SameNameMeans | src/bindings/fluid_ladspa.c:1128-1154 | names are equal if they have the same letters in any case, and the same other characters |
| LadspaOutcomes.HasPrefixMeans | src/bindings/fluid_ladspa.c:1450-1468 | likewise for a name that another one starts with |
| LadspaNames.FindEffect | src/bindings/fluid_ladspa.c:1450-1468 | the first effect whose name starts with the name given, in any case |
| LadspaNames.EffectFoundByName | src/bindings/fluid_ladspa.c:1450-1468 | an effect is found under its own name exactly if that is no prefix of an earlier effect's name |
| LadspaNames.EffectOutOfReach | src/bindings/fluid_ladspa.c:1450-1468 | two effects of which no name finds the second |
| LadspaNames.GetEffectPortIdx | src/bindings/fluid_ladspa.c:1167-1193 | the loop computes the port resolution |
| LadspaNames.PortLookupAsDocumented | src/bindings/fluid_ladspa.c:1156-1193 | the documented lookup result is returned exactly if fewer than two ports that merely start with the name come before an exact match |
| LadspaNames.ExactMatchMissed | src/bindings/fluid_ladspa.c:1183-1186 | three ports, one called exactly as asked for, and the lookup fails |
| LadspaGraph.FirstNamed | src/bindings/fluid_ladspa.c:1128-1154 | the first node of the list with that name in any case, and none exactly if there is no such node |
| LadspaLookup.LinkRequest | src/bindings/fluid_ladspa.c:953-999 | a link request refers to a port and a node exactly if the port is an audio port, found by the port lookup, of the first effect whose name starts with the one given, and the node is the one found by name |
| LadspaOutcomes.HostNameMeans | src/bindings/fluid_ladspa.c:286-298 | a single host port has the name given, the i-th of several has i + 1 in digits after it, and 98 characters are kept |
| LadspaOutcomes.HostsAdded | src/bindings/fluid_ladspa.c:278-317 | of a group added successfully the i-th node, after the ones there were, has the i-th name and stands for the i-th buffer |
| LadspaOutcomes.HostAdded | src/bindings/fluid_ladspa.c:1357-1426 | a host port is added exactly if there is a buffer and the name is empty or free |
| LadspaOutcomes.BufferAdded | src/bindings/fluid_ladspa.c:796-821 | a buffer is added exactly if its name is empty or free; it has memory of its own and no links |
| LadspaOutcomes.EffectAdded | src/bindings/fluid_ladspa.c:885-926 | an effect added is the last one, inactive and not mixing, and nothing else changes |
| LadspaOutcomes.EffectPorts | src/bindings/fluid_ladspa.c:1583-1615 | its control ports are linked to new nodes with the default values, counted in the direction of the port; its other ports are not linked |
| LadspaOutcomes.MixSet | src/bindings/fluid_ladspa.c:627-657 | mixing is switched as asked, for the effect found and no other, exactly if it is switched off or the plugin can mix |
| LadspaOutcomes.ControlSet | src/bindings/fluid_ladspa.c:832-874 | a control is set exactly if the port found is a control port, and only the value of its node changes |
| LadspaRuns.StepKeeps | src/bindings/fluid_ladspa.c:278-317 | every operation keeps the graph well formed: links lead to allocated nodes, a control node has one port, names of audio nodes are unique, the node lists have no duplicates |
| LadspaControls.ControlPortsLinked | src/bindings/fluid_ladspa.c:1583-1632 | in every run each control port of each effect is linked to a node |
| LadspaControls.ControlPortsOwnNodes | src/bindings/fluid_ladspa.c:1583-1632 | in every run in which no effect added has a port that is both audio and control, each control port is linked to an allocated control node no other port is linked to, and clearing leaves exactly the host nodes allocated |
| LadspaRuns.StepCounts | src/bindings/fluid_ladspa.c:1617-1632 | each operation keeps the account: counter is current links plus links overwritten |
| LadspaRuns.CountersConserved | src/bindings/fluid_ladspa.c:1617-1632 | over every sequence of operations the counter of an audio node is the number of ports of that direction linked to it plus the overwritten links since the last clear |
| LadspaOwnership.RealLinks | src/bindings/fluid_ladspa.c:1617-1632 | a node has a real writer, or reader, exactly if its counter exceeds its overwritten links |
| LadspaOwnership.CheckedMeansConnected | src/bindings/fluid_ladspa.c:1706-1748 | if no port was linked twice since the last clear, a graph that passes the check has a host node written by an effect, and a writer and a reader for each user node |
| LadspaOwnership.RelinkFoolsTheCheck | src/bindings/fluid_ladspa.c:1617-1632 | six operations after which the check passes though no port writes to a user buffer |
| LadspaOwnership.ClearedMemory | src/bindings/fluid_ladspa.c:659-694 | clearing leaves the same host nodes with zero counters, no effects and user nodes, and no memory but host nodes and nodes orphaned before |
| LadspaOwnership.OrphanStep | src/bindings/fluid_ladspa.c:1617-1632 | an operation orphans exactly the control node it takes a port off |
| LadspaControls.ResetFreesAllUnless | src/bindings/fluid_ladspa.c:659-694 | clearing frees everything but the host nodes exactly if no link request so far referred to a port that is a control port as well as an audio port |
| LadspaControls.ResetLosesNode | src/bindings/fluid_ladspa.c:1617-1632 | three operations after which a reset leaves a control node allocated |
| LadspaControls.ResetGivesAllBack | src/bindings/fluid_ladspa.c:486-503 | after any interleaving with the render thread, if no effect has a port that is both, the last step of a reset leaves exactly the host nodes allocated |
| LadspaBuffers.SharedOnlyByHosts | src/bindings/fluid_ladspa.c:1386-1414 | in every run, two nodes share a buffer only if both are host nodes and effects work on the host's buffers directly |
| LadspaBuffers.HostsMayShare | src/bindings/fluid_ladspa.c:1398-1403 | two host ports on one host buffer share it in that build, and do not in the other |
| LadspaBuffers.CheckComparesNodes | src/bindings/fluid_ladspa.c:1667-1698 | with separate buffers, the in-place check of a connected effect fails exactly if two opposed audio ports of an in-place-broken plugin are linked to the same node |
| LadspaBuffers.CheckedMeans | src/bindings/fluid_ladspa.c:1024-1092 | the check passes exactly if there are effects, all ports are linked, no plugin that cannot work in place has two audio ports with different direction bits on one buffer, a host node has counted inputs, and every user node counted inputs and outputs |
| LadspaRuns.ConnectLinks | src/bindings/fluid_ladspa.c:1617-1632 | after connecting, the port is linked to the node and to no other, and every other port is linked as before |
| LadspaLookup.NamesAreUnambiguous | src/bindings/fluid_ladspa.c:1128-1154 | looking up a nonempty name returns a node exactly if it is an audio node of that name: there is never a second one, so the order of the search does not matter |
| LadspaLookup.AddedNodeFound | src/bindings/fluid_ladspa.c:1357-1367 | a node added is found under its name, and all other names refer to what they did before |
| LadspaLookup.ControlSettingIsLocal | src/bindings/fluid_ladspa.c:832-874 | setting a control writes the value into the private node of the port named, and no node another port is linked to changes |
| LadspaProtocol.StepKeepsInv | src/bindings/fluid_ladspa.c:389-584 | every step of either thread keeps the invariant that ties phase, lock, pending flag, program counters and graph together |
| LadspaCalls.CallIsAtomic | src/bindings/fluid_ladspa.c:389-584 | every call, however its steps interleave with the render thread, leaves the graph and the phase it would leave as a single step |
| LadspaCalls.CallReturns | src/bindings/fluid_ladspa.c:389-503 | a call that finds the engine inactive, or no run under way, returns after at most eight steps more than there are effects |
| LadspaCalls.ActivationOutcome | src/bindings/fluid_ladspa.c:389-427 | activation of an inactive engine ends active, with every effect on and nothing else changed, exactly if there are effects and the four checks hold; otherwise nothing changes |
| LadspaCalls.ActivationReturns | src/bindings/fluid_ladspa.c:389-427 | from every reachable state it returns within that many steps, in the phase active exactly if the check passes |
| LadspaCalls.DeactivationOutcome | src/bindings/fluid_ladspa.c:437-475 | deactivation ends inactive with every effect off and nothing else changed |
| LadspaCalls.ResetOutcome | src/bindings/fluid_ladspa.c:486-503 | reset, and a change of the sample rate while active, end inactive, with host nodes as they were but without links, and no effects or user nodes |
| LadspaCalls.OperationOutcome | src/bindings/fluid_ladspa.c:796-1011 | adding and linking are refused exactly if the engine is not inactive; setting controls and mixing is not |
| LadspaCalls.GraphIsReached | src/bindings/fluid_ladspa.c:796-1011 | every graph the operations can make is reached by calling them, in both builds |
| LadspaCalls.AudioRuns | src/bindings/fluid_ladspa.c:518-537 | if such a graph passes the check, it is reached active, and with the render thread at the start of its walk in the phase running |
| LadspaCalls.AudioCanRun | src/bindings/fluid_ladspa.c:389-584 | in both builds there are reachable states that are active, that are running, and in which deactivate sleeps |
| LadspaCalls.WalkVisitsAll | src/bindings/fluid_ladspa.c:539-569 | a run visits each user node and effect once, and in the build without in-place buffers each host node twice, and no more |
| LadspaCalls.RunReturns | src/bindings/fluid_ladspa.c:571-584 | a run that goes on ends, active again, in a bounded number of steps |
| LadspaCalls.SleeperGetsThrough | src/bindings/fluid_ladspa.c:456-475 | a sleeping deactivate returns, inactive, once the run under way has returned |
| LadspaSafety.ChangesOnlyWhileInactive | src/bindings/fluid_ladspa.c:796-926 | in every reachable state a step changes lists, links, counters or activation only while the phase is inactive and stays so, with no run under way |
| LadspaSafety.WalkIsStable | src/bindings/fluid_ladspa.c:534-568 | while the render thread walks the lists, the phase is running and they are those it found on entry |
| LadspaSafety.ExchangesSucceed | src/bindings/fluid_ladspa.c:571-574 | neither the exchange that ends activation nor the one that ends a run ever fails |
| LadspaSafety.ActiveMeansChecked | src/bindings/fluid_ladspa.c:389-427 | whenever the phase is active or running, all four checks hold and every effect is activated |
| LadspaSafety.GraphIsRun | src/bindings/fluid_ladspa.c:389-584 | the graph after any interleaving is the one its graph operations make, one after the other, so what holds over every sequence of operations holds under the protocol |
| LadspaSafety.ActiveMeansConnected | src/bindings/fluid_ladspa.c:1024-1092 | after any interleaving that linked no port twice since the last reset, whenever the phase is active or running a host node has a real writer, and each user node a real writer and reader |
| LadspaSafety.DeactivateSucceeds | src/bindings/fluid_ladspa.c:454-474 | deactivation ends in the inactive phase with every effect off and the flag cleared |
| LadspaSafety.ResetCompletes | src/bindings/fluid_ladspa.c:486-503 | from every reachable state, reset ends inactive with no effects and user nodes, the same host nodes, and host counters zero |
| LadspaSafety.NoLostWakeup | src/bindings/fluid_ladspa.c:456-459 | whoever sleeps in deactivate without a signal faces a render thread between entering its run and its broadcast, which can go on and keeps that until it has woken the sleeper |
| LadspaSafety.WaitsAtMostOnce | src/bindings/fluid_ladspa.c:451-459 | once the pending flag is set at most one more run is entered, and deactivate falls asleep at most once, spurious wakeups aside |
| LadspaSafety.DeactivateNeverStuck | src/bindings/fluid_ladspa.c:437-475 | while a deactivation is pending, the API thread or a run under way can take a step |
| LadspaSafety.DeactivateTerminates | src/bindings/fluid_ladspa.c:437-475 | however the threads interleave, a pending deactivation lasts for a bounded number of steps of the API thread and of runs that got past the start, spurious wakeups aside |
| LadspaEngine.LadspaFx.AddHostPorts | src/bindings/fluid_ladspa.c:278-317 | refused while active; otherwise ports are added until the first failure, numbered if there are several |
| LadspaEngine.LadspaFx.GetNode | src/bindings/fluid_ladspa.c:1128-1154 | the search over both lists finds the node the specification names |
| LadspaEngine.LadspaFx.AddBuffer | src/bindings/fluid_ladspa.c:796-821 | refused while active; otherwise adds a user node unless the name is taken |
| LadspaEngine.LadspaFx.AddEffect | src/bindings/fluid_ladspa.c:885-926 | refused while active; otherwise adds the effect with a private node for each control port |
| LadspaEngine.LadspaFx.EffectLink | src/bindings/fluid_ladspa.c:940-1011 | refused while active; otherwise connects the port resolved, counts the link in the port's direction, and keeps everything else |
| LadspaEngine.LadspaFx.SetControl | src/bindings/fluid_ladspa.c:832-874 | writes the value of one control node in any phase and keeps the graph checked if it was |
| LadspaEngine.LadspaFx.SetMix | src/bindings/fluid_ladspa.c:627-657 | switches mixing of one effect if it can mix, and keeps the graph checked if it was |
| LadspaEngine.LadspaFx.CheckNoInplaceBroken | src/bindings/fluid_ladspa.c:1667-1698 | the nested loops fail exactly if the plugin cannot work in place and two ports with the audio bit and different direction bits are linked to nodes with the same buffer |
| LadspaEngine.LadspaFx.Check | src/bindings/fluid_ladspa.c:1024-1092 | succeeds exactly if there are effects, all ports are connected, no in-place-broken effect shares a buffer, a host node is written, and user nodes are written and read |
| LadspaEngine.LadspaFx.Activate | src/bindings/fluid_ladspa.c:389-427 | succeeds exactly if inactive and checked; then every effect is activated, otherwise nothing changes |
| LadspaEngine.LadspaFx.Deactivate | src/bindings/fluid_ladspa.c:437-475 | every effect is off afterwards, and nothing else changes |
| LadspaEngine.LadspaFx.DeleteEffect | src/bindings/fluid_ladspa.c:1317-1355 | frees, each while it is allocated, exactly the control nodes this effect's ports are linked to |
| LadspaEngine.LadspaFx.ClearLadspa | src/bindings/fluid_ladspa.c:659-694 | the three loops free control and user nodes, each while it is allocated, reset the counters of the host nodes, and leave the cleared graph |
| LadspaEngine.LadspaFx.Reset | src/bindings/fluid_ladspa.c:486-503 | frees control and user nodes one by one, none twice, and leaves the cleared graph, inactive |
| Pcm.RoundClip | src/drivers/fluid_audio_convert.h:39-76 | the result is in the range of the type, for every real |
| Pcm.RoundClipMonotone | src/drivers/fluid_audio_convert.h:39-76 | a larger sample never gives a smaller integer |
| Pcm.RoundClipExact | src/drivers/fluid_audio_convert.h:50-75 | for signed types the result is the rounded sample exactly if that is within the clamps |
| Pcm.RoundHalvesAway | src/drivers/fluid_audio_convert.h:71-71 | halves are rounded away from zero |
| Pcm.Int16Result | src/drivers/fluid_audio_convert.h:50-75 | for 16 bits, limits beyond the range and the nearest integer in it |
| Pcm.Int32Result | src/drivers/fluid_audio_convert.h:50-75 | for 32 bits likewise, with 2147483520 just below the maximum |
| Pcm.UnsignedSaturates | src/drivers/fluid_audio_convert.h:50-59 | for unsigned types only zero and the maximum are returned |
| Pcm.S16Headroom | src/drivers/fluid_audio_convert.cpp:151-151 | between -1 and 1, with dither of at most one step, nothing is clipped and the result is within 1.5 of the scaled sample |
| Pcm.S24IsS32RoundedDown | src/drivers/fluid_audio_convert.cpp:187-188 | the masked 24-bit sample is the 32-bit one rounded down to a multiple of 256, also below zero |
| Pcm.S32Value | src/drivers/fluid_audio_convert.cpp:219-219 | a 32-bit sample is within half a step of 2^31 times the input up to the clamp, and at the limits from 1 and up to -1 |
| Pcm.S24Value | src/drivers/fluid_audio_convert.cpp:187-188 | a 24-bit sample is the multiple of 256 just below the 32-bit sample |
| Dither.WindowTelescopes | src/drivers/fluid_audio_convert.cpp:279-290 | the dither of any number of frames from any index, with any wraps, depends only on the random numbers at its two ends |
| Dither.WindowBounded | src/drivers/fluid_audio_convert.cpp:279-290 | it adds up to at most one step in either direction |
| Dither.PeriodSumsToZero | src/drivers/fluid_audio_convert.cpp:52-70 | over a whole table, from any index, it cancels out |
| Dither.InitDither | src/drivers/fluid_audio_convert.cpp:52-70 | each channel of the table holds the differences of successive random numbers, the first of them less one half, and in the end what returns to zero |
| Dither.AdvanceIsModulo | src/drivers/fluid_audio_convert.cpp:284-287 | the index with its reset counts modulo the size of the table |
| PcmConvert.ValidateArgs | src/drivers/fluid_audio_convert.cpp:74-124 | accepts exactly non-null buffers and channel pointers, positive channels, a nonnegative number of frames and a stride of at least the channels |
| PcmConvert.CellsDistinct | src/drivers/fluid_audio_convert.cpp:146-160 | for a stride of at least the channels each frame and channel has a cell of its own |
| PcmConvert.PlanarWritten | src/drivers/fluid_audio_convert.cpp:146-160 | after all frames each of these cells holds its sample |
| PcmConvert.PlanarUntouched | src/drivers/fluid_audio_convert.cpp:146-160 | every other cell keeps what it held |
| PcmConvert.PlanarToS16 | src/drivers/fluid_audio_convert.cpp:126-163 | the loops write the dithered samples of all frames, or nothing if the arguments are refused |
| PcmConvert.S16Cell | src/drivers/fluid_audio_convert.cpp:146-160 | sample f of channel ch is in cell f * stride + ch, with entry f, modulo the size, of the table of even or odd channels |
| PcmConvert.PlanarToInt32 | src/drivers/fluid_audio_convert.cpp:165-226 | cell f * stride + ch holds the 32-bit sample, for 24 bits rounded down to a multiple of 256; nothing is written if the arguments are refused |
| PcmConvert.Int32Cell | src/drivers/fluid_audio_convert.cpp:183-223 | the same for the function of the memory, cell by cell |
| PcmConvert.DitherS16 | src/drivers/fluid_audio_convert.cpp:260-293 | memory and dither index after the loop are those of the frame-by-frame function, for any offsets and increments |
| PcmConvert.StereoSplits | src/drivers/fluid_audio_convert.cpp:260-293 | converting a + b frames at once, or a and then b with the index carried over, gives the same memory and index |
| PcmConvert.StereoWritten | src/drivers/fluid_audio_convert.cpp:279-288 | for any offsets and increments, frame i is in its two cells, with the entries i after the index carried in, unless a later frame shares a cell |
| PcmConvert.PlanarIsStereo | src/drivers/fluid_audio_convert.cpp:126-293 | with two adjacent channels the planar converter writes what the stereo one writes from index zero |
| PcmConvert.DitheredS16NeverClips | src/drivers/fluid_audio_convert.cpp:52-70 | with the table of random numbers between 0 and 1 no sample between -1 and 1 is clipped |
| Jack.CreatedKeepsInv | src/drivers/fluid_jack.c:145-308 | creating a driver, whatever fails, keeps: drivers and clients know each other, clients have a driver, the last client is alive and unpaired |
| Jack.Joins | src/drivers/fluid_jack.c:158-190 | a creation joins the last client, opening none and leaving no last client, exactly if settings and ports are fine, both servers are given and equal, and the slot of its kind is free |
| Jack.OpensClient | src/drivers/fluid_jack.c:198-276 | otherwise it succeeds exactly if a client opens, with its ports, and is activated; that is a new client and the last client then |
| Jack.CreationIsLocal | src/drivers/fluid_jack.c:145-308 | a new driver is in the slot of its kind of its client; all else stays, and a failure changes nothing |
| Jack.PairsUp | src/drivers/fluid_jack.c:156-190 | an audio and a MIDI driver created one after the other on one server share a client |
| Jack.DeletedKeepsInv | src/drivers/fluid_jack.c:513-551 | so does deleting one |
| Jack.FreedWithLastDriver | src/drivers/fluid_jack.c:513-551 | a client is freed exactly with its last driver, and is not the last client then; otherwise it stays, unpaired, and so does the last client; other clients and drivers stay |
| Jack.ClientsShared | src/drivers/fluid_jack.c:145-308 | in every run a client alive has drivers of its server and different kinds, no driver holds a freed client, and the last client is alive with exactly one driver |
| Jack.FreedOnce | src/drivers/fluid_jack.c:513-551 | in every run a client once open is either alive or freed, and none is freed twice |
| Jack.Registry.CreateDriver | src/drivers/fluid_jack.c:145-308 | the assignments to the slots and to the last client are those of the specification, for every outcome of the calls into Jack |
| Jack.Registry.DeleteDriver | src/drivers/fluid_jack.c:513-551 | likewise for closing |
| DirectSound.NewConfigValid | src/drivers/fluid_dsound.c:325-328 | within the limits of the settings the sizes are whole frames and fit in 31 bits |
| DirectSound.PassFollowsPlay | src/drivers/fluid_dsound.c:590-691 | the write position stays on a frame inside the ring; a pass leaves it or renders at least one frame and moves it to the play position rounded down to a frame |
| DirectSound.PassRendersWhen | src/drivers/fluid_dsound.c:594-609 | a pass renders exactly if the part up to the play position holds a period and, if that wraps around, the reported write position is not ahead |
| DirectSound.PassWraps | src/drivers/fluid_dsound.c:602-691 | when the play position is behind, the first part ends with the buffer, the second starts at its beginning, and both are whole frames but for the rest after the play position |
| DirectSound.PlaceIsModulo | src/drivers/fluid_dsound.c:585-691 | the k-th frame goes to byte k times the frame size, modulo the ring size |
| DirectSound.AudioRun | src/drivers/fluid_dsound.c:585-691 | for all positions polled, the frames were written one after the other to these places, as many as the passes add up to, and the write position is the place of the next |
| DirectSound.FrameStays | src/drivers/fluid_dsound.c:585-691 | a frame can be read at its place until the ring has been filled once more |
| Oss.FloorLogIs | src/drivers/fluid_oss.c:491-499 | the result is the exponent of the power of two at most the number and more than half of it, and no other is |
| Oss.CountBits | src/drivers/fluid_oss.c:491-497 | the halving loop counts one more than the logarithm, or zero for zero |
| Oss.SetQueueSize | src/drivers/fluid_oss.c:483-525 | the two loops and the shifts compute the packed word in unsigned 32-bit arithmetic |
| Oss.QueueWithinQuarter | src/drivers/fluid_oss.c:491-521 | the queue chosen is at most the one wanted and more than a quarter of it |
| Oss.PackingDecodes | src/drivers/fluid_oss.c:520-522 | for fragments of some bytes, the word decodes to the count and the exponent chosen exactly if the count wanted is below 2^16 |
| Oss.QueueRead | src/drivers/fluid_oss.c:491-522 | from periods and bytes to what the device reads: at most the queue asked for and more than a quarter of it, or two fragments if it holds less than two periods |
| Oss.EmptyFragments | src/drivers/fluid_oss.c:499-522 | fragments of no bytes, which its callers never ask for, decode to the exponent 65535 and one fragment too few |
| GenTables.ImplTabulates | src/gentables/ConstExprArr.hpp:13-42 | the recursion turns the arguments collected so far, n + 1 and on, into the values from 0 on, each in its place |
| GenTables.TableTabulates | src/gentables/ConstExprArr.hpp:47-54 | for every positive size the table holds the values at 0 to size - 1 |
| GenTables.DepthIs | src/gentables/ConstExprArr.hpp:13-42 | the recursion is n % 10 + n / 10 + 1 deep |
| GenTables.DepthLimit | src/gentables/ConstExprArr.hpp:34-37 | a limit of 500 admits every size up to 4919, and not 4920 |
| GenTables.TableHoldsTaps | src/gentables/fluid_interp_coeff.cpp:18-31 | entry 4 r + k of the table is tap k of row r |
| GenTables.RowSums | src/gentables/fluid_interp_coeff.cpp:18-31 | the four taps of row r, by their sums with powers of the sample positions, at x = r / 256 |
| GenTables.InterpolationError | src/gentables/fluid_interp_coeff.cpp:10-31 | on the samples of a cubic each row is off by its leading coefficient times x (1 - x) (1 - 2 x) |
| GenTables.ExactInterpolation | src/gentables/fluid_interp_coeff.cpp:10-31 | a row reproduces a polynomial exactly if that has degree two at most, or if the row is 0 or 128 |
| GenTables.RowsMirror | src/gentables/fluid_interp_coeff.cpp:27-30 | row r and row 256 - r hold the same taps in opposite order |

## Left out

- Allocation failure and the exceptions it raises, in all parts.
- BinaryHeap: the C++ standard leaves open where its heap algorithms put events of equal rank; the model swaps events along one path. What is proved about contents, order and the root is what the standard promises; the order of equal events is the model's.
- EventQueue.EventQueue.Process: callbacks push, remove and invalidate, but do not call the dispatch loop from inside a dispatch. The bound on due events pushed is what makes the loop end; without one it need not.
- The buffer of the event queue grows by copying; a deque does not copy, which shows in time only.
- LADSPA: loading and instantiating plugins, what plugins compute, the audio data and the copies of it. Default port values come with the descriptor. Warnings and error texts are not modelled.
- LADSPA: delete_fluid_ladspa_fx, which callers may use only when nobody uses the engine any more, and the sample rate itself, whose change is a deactivation and a reset in the protocol.
- LADSPA: the names of control nodes, which no lookup finds.
- LadspaProtocol: steps are sequentially consistent, also for the plain int flag; the API mutex is modelled by having one API call at a time; there is one render thread. The check before activation is one step, since nothing else can change the graph meanwhile.
- LadspaEngine.LadspaFx.Deactivate: the object is the engine without a render thread; waiting for one is in LadspaProtocol, and LadspaCalls shows that the result is the same.
- Pcm.RoundClip: floats are exact reals, so NaN, infinities and rounding of products are not modelled. The scale of the 32-bit formats is the single-precision value of its literal, and the clamp the single-precision number below the maximum.
- PcmConvert: the table is initialised on first use by a static flag; here it is an argument. PlanarToInt32 is one method for two functions that differ in the last conversion.
- PcmConvert.DitherS16: the two output pointers are offsets into one memory.
- Jack: creating and deleting a driver are atomic; the emptiness test outside the mutex, the process callback and the sleep before closing are not part of the model, and neither are ports.
- DirectSound: GetCurrentPosition and Lock are assumed contracts (positions inside the ring, a range split at its end); failures of them, waiting times and the region between play and write cursor are left out. The bytes of a frame come from an arbitrary stream.
- Oss: the call into the device, and arguments that overflow a signed int.
- GenTables: values of type double are exact reals; the tables with transcendental functions are left out.
- Other audio and MIDI drivers, the shell, settings and the synthesizer itself.
