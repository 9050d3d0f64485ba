# Show-control protocols, modelled and proved

Dafny models of three programs that move lighting data, with proofs about every packet, every
call and every run:

- **libartnet**, an Art-Net protocol node: the stop-and-wait firmware upload (`firmware*.dfy`),
  the two-source DMX merge (`dmx_*.dfy`), the ring of joined nodes (`node_ring.dfy`), the list of
  discovered nodes (`node_list.dfy`) and the table of RDM devices (`tod.dfy`).
- **olad**, the Open Lighting daemon: outstanding RDM requests (`rdm*.dfy`), port patching and
  candidate ports (`wiring.dfy`, `patching.dfy`, `device_patching.dfy`, `candidates.dfy`), and the
  device manager with its aliases and saved port settings (`device_registry.dfy`,
  `device_manager.dfy`, `number_text.dfy`, `port_settings.dfy`, `port_ids.dfy`,
  `saved_devices.dfy`).
- **frameserver**: the byte layout of frames (`frame_layout.dfy`, `frame_buffers.dfy`) and the
  table of sources (`frame_sources.dfy`, `frame_server.dfy`).

Code that updates fields, arrays and heap nodes is a class or a method over arrays. Each such
method is proved equal to a step function on values, and the properties of whole runs are lemmas
about those functions. Time, the network's acceptance of a packet, and the success of an
allocation are parameters. `dafny verify dfyconfig.toml` checks everything.

## What the proofs found

- A firmware upload gets across if and only if it has more than one block, a short last block and
  at most 255 blocks. Senders wrap block ids modulo 255 (`transmit.c:349`), receivers unwrap them
  modulo 256 (`receive.c:611`), and a full last block is typed CONT.
- Only a FIRST packet sets the time of a transfer (`receive.c:558`), so an upload that takes longer
  than the timeout is dropped however many blocks arrive. A FIRST packet for which there is no
  memory takes the slot and is not answered (`receive.c:550`).
- The truth table above `handle_dmx` starts a merge when slot A is empty and slot B belongs to
  another source. The code repeats an earlier test there (`receive.c:180`), so such a source is
  locked out for as long as slot B is alive.
- `artnet_join` returns ARTNET_ESTATE when it succeeds (`artnet.c:372`); its comment promises 0.
- `artnet_tx_tod_data` sends no packet for an empty table although a request is answered with it
  (`receive.c:437`), and clears 200 bytes, not 200 UIDs, of the area (`transmit.c:166`): a last
  packet that is not full carries stale UIDs of the one before.
- The firmware callback gets a length in bytes for a one-block upload and in words otherwise
  (`receive.c:585` and `receive.c:665`).
- The failure path of `SendRDMRequest` would pop a queue that a broadcast was never pushed on
  (`InternalRDMController.cpp:234`), losing another request or doing something undefined. No
  universe refuses a broadcast (`Universe.cpp:369`), so no run of olad takes that path.
- Saved port settings come back if and only if the port ids are distinct, not empty, and none is
  a key that a port's priority is saved under. The ids olad makes always are. A universe id of
  2^31 or more is saved but not restored.
- What the frame server sends is not a packet that a frame server accepts: its header stays blank.

## Model

The first 45 rows are the main results; the others support them, file by file.

| member | source | states |
|---|---|---|
| Firmware.EveryWriteInBounds | open-lighting-architecture/libartnet-1.1.0/artnet/receive.c:527-690 | After any traffic from any senders, with timeouts and failing allocation, the next accepted FIRST, CONT or LAST block is written wholly inside the buffer, LAST ends exactly at bytes_total, and every other packet is answered FAIL and changes nothing. |
| Firmware.Packetisation | open-lighting-architecture/libartnet-1.1.0/artnet/transmit.c:272-352 | For every positive length the sends stop after ceil(bytes / 1024) packets; packet k carries block id k mod 255, is typed FIRST, CONT or LAST by its place and size, and the payloads join up to exactly the source. |
| FirmwareUpload.UploadIsSafe | open-lighting-architecture/libartnet-1.1.0/artnet/receive.c:527-741 | For firmware of more than one block, not a multiple of 1024 bytes and at most 255 blocks, every run from an idle receiver with any losses and refused sends keeps the sender ahead by exactly the block in flight and the received prefix equal to the source; the receiver hands over exactly the source, once, its slot idle, and ALLGOOD is reported only then, once. |
| FirmwareLimits.UploadCompletesIff | open-lighting-architecture/libartnet-1.1.0/artnet/receive.c:527-741 | Every firmware of a given length gets across an undisturbed network if and only if it has more than one block, a short last block and at most 255 blocks. |
| Firmware.RefusesIff | open-lighting-architecture/libartnet-1.1.0/artnet/receive.c:592-686 | A packet is answered FAIL if and only if it is a FIRST while the slot is taken, a CONT or LAST from anyone but the peer, with another length or out of place, or of no known type; it then changes nothing. |
| Firmware.TransferSurvivesIff | open-lighting-architecture/libartnet-1.1.0/artnet/artnet.c:1624-1636 | Further blocks do not keep a transfer alive: after any CONT packets from anyone it is still there if and only if all of them came before the timeout after its FIRST. |
| FirmwareUpload.AllGoodIsTrue | open-lighting-architecture/libartnet-1.1.0/artnet/receive.c:527-741 | From any receiver, idle or busy, and over any losses and refused sends: the sender reports at most one outcome, ALLGOOD only when exactly the source has been handed over, and FAIL only by a busy receiver. |
| DmxMerge.MergeRefinesHistory | open-lighting-architecture/libartnet-1.1.0/artnet/receive.c:140-211 | The merge refines the packet history: after every packet the output is the maximum of what the two sources last sent (HTP) or the newest value (LTP) on the covered channels, and what it was on the others. |
| DmxSilence.MergeEndsIff | open-lighting-architecture/libartnet-1.1.0/artnet/receive.c:140-211 | When one of two merged sources goes on alone, each of its packets is merged with the last values of the other until one has come more than the timeout after the other's last packet; from the next one on its packets are put out as they are. |
| DmxMerge.ThirdSourceIsIgnored | open-lighting-architecture/libartnet-1.1.0/artnet/receive.c:180-219 | In every reachable state the branches for two equal owners and for the dead start of a merge are not taken, and a third source changes no buffer and no length. |
| DmxMerge.DispatchMatchesTableIff | open-lighting-architecture/libartnet-1.1.0/artnet/receive.c:111-223 | The chain of tests agrees with the truth table in its comment except in one cell, slot A empty and slot B another source's, where the documented start of a merge is unreachable and the packet is dropped. |
| DmxMerge.LockedOutWhileBLives | open-lighting-architecture/libartnet-1.1.0/artnet/receive.c:180-219 | While slot A is empty and slot B stays alive, no other source gets in: the port ends up as if only slot B's owner had sent. |
| NodeRing.Join | open-lighting-architecture/libartnet-1.1.0/artnet/artnet.c:347-373 | Joining two well-formed groups terminates; disjoint groups become one ring of exactly their union, a common ring keeps its pointers, and the first argument is the only master. A null or started node changes nothing. |
| NodeRing.JoinAll | open-lighting-architecture/libartnet-1.1.0/artnet/artnet.c:347-373 | After any sequence of joins every node is in a well-formed group with exactly one master and all joined pairs share a group. |
| NodeLists.ListIsDirectory | open-lighting-architecture/libartnet-1.1.0/artnet/artnet.c:1498-1531 | After any sequence of replies there is exactly one entry for each source address, in order of first appearance, with the fields of its latest reply. |
| NodeLists.NodeList.UpdateAll | open-lighting-architecture/libartnet-1.1.0/artnet/artnet.c:1498-1545 | On the heap: after any sequence of replies the linked list is acyclic with exact last and length, and is the directory of those replies. |
| TableOfDevices.TransmissionIsComplete | open-lighting-architecture/libartnet-1.1.0/artnet/transmit.c:162-180 | Any table goes out in ceil(n / 200) packets; all but the last carry 200 UIDs, packet k is block k mod 256, and the first uidCount UIDs of the packets join up to the table in order. |
| TableOfDevices.TailIsCleanIff | open-lighting-architecture/libartnet-1.1.0/artnet/transmit.c:165-175 | Nothing stale lies behind a packet's UIDs if and only if it is the first packet, is full, or the table before it ends in zero bytes there. |
| Rdm.ExactlyOnce | open-lighting-architecture/ola-0.8.4/olad/InternalRDMController.cpp:113-320 | After any run of sends, responses, sweeps and teardown every accepted request stands in exactly one place of one queue or has had its callback run exactly once, never both. |
| RdmOutcomes.CallbacksAreTruthful | open-lighting-architecture/ola-0.8.4/olad/InternalRDMController.cpp:58-94 | After any run every callback has been told the truth: an answer only if it answers its own order in addressee, sub-device, number and command, a broadcast exactly for broadcasts, else that it timed out. |
| RdmOutcomes.ResponseAnswersFirst | open-lighting-architecture/ola-0.8.4/olad/InternalRDMController.cpp:245-283 | In every reachable state a response runs the callback of the first order waiting in its universe that it answers and takes only that out; if it answers none, nothing changes. |
| RdmOutcomes.SweepTimesOutIff | open-lighting-architecture/ola-0.8.4/olad/InternalRDMController.cpp:290-320 | In every reachable state a sweep times out exactly the orders sent more than three seconds ago. |
| Rdm.SendConservesIff | open-lighting-architecture/ola-0.8.4/olad/InternalRDMController.cpp:218-238 | Whatever the port makes of it, a send keeps that account if and only if it is not a broadcast that is refused: the failure path pops somebody else's request or an empty queue, which is undefined. |
| Rdm.SweepKeepsExactly | open-lighting-architecture/ola-0.8.4/olad/InternalRDMController.cpp:296-309 | A sweep removes exactly the expired requests and keeps the order of the rest. |
| RdmControllers.RdmController.HandleEvents | open-lighting-architecture/ola-0.8.4/olad/InternalRDMController.cpp:113-320 | On the object: any sequence of events on a new controller leaves it in the state of the run, with the account kept. |
| RdmNumbers.ResponseIsUnambiguous | open-lighting-architecture/ola-0.8.4/olad/InternalRDMController.cpp:58-76 | While no outstanding request of a universe and source is older than the last 256 issued for them, a response to that source matches at most one of them. |
| RdmNumbers.ConfusedIff | open-lighting-architecture/ola-0.8.4/olad/InternalRDMController.cpp:61-76 | Two outstanding requests can be answered by the same response if and only if they agree in source, sub-device and command and were issued a multiple of 256 apart. |
| DevicePatching.MakeCalls | open-lighting-architecture/ola-0.8.4/olad/PortManager.cpp:113-169 | Over every sequence of patch and unpatch calls on any devices, all devices keep to their looping and multi-port rules and the universe lists stay exact. |
| Wirings.AllowedIff | open-lighting-architecture/ola-0.8.4/olad/PortManager.cpp:113-137 | For a device that keeps its rules, a port may be patched or moved to a universe if and only if the device still keeps them with the port there. |
| CandidatePorts.OfferedIffPatchable | open-lighting-architecture/ola-0.8.4/olad/OlaServerServiceImpl.cpp:470-551 | A port object is offered for a universe exactly when it is unbound and PatchPort on it would succeed in the same state, but for the ports after the first on a device without multi-port patching. |
| CandidatePorts.GetCandidatePorts | open-lighting-architecture/ola-0.8.4/olad/OlaServerServiceImpl.cpp:448-553 | A missing universe is reported. Otherwise there is one entry, with the registered alias, for each device that has a port to offer (or, without a universe, any port), in device order; its input list has exactly the input ports that may be patched, each once and in port order, and its output list the output ports. |
| PortIds.RoundTripIff | open-lighting-architecture/ola-0.8.4/olad/DeviceManager.cpp:240-384 | The ports of a device come back with every setting they can have if and only if their ids are distinct, not empty, and none is a key that some port's priority is saved under, given its capability. |
| PortIds.ReRegistrationRestoresIff | open-lighting-architecture/ola-0.8.4/olad/DeviceManager.cpp:240-384 | Saving, unpatching and restoring gives back exactly the same device if and only if every universe id is below 2^31. |
| SavedDevices.EveryDeviceComesBack | open-lighting-architecture/ola-0.8.4/olad/DeviceManager.cpp:226-233 | Whatever devices are saved, how often and in whatever order, each gets the settings of its last save back. |
| PortSettings.RestoreStaysLawful | open-lighting-architecture/ola-0.8.4/olad/DeviceManager.cpp:263-281 | Restoring from any preferences, however they came about, never breaks the device's rules. |
| DeviceRegistry.ReachableIsConsistent | open-lighting-architecture/ola-0.8.4/olad/DeviceManager.cpp:52-233 | In every state a device manager can get into, aliases of distinct ids differ and lie between 1 and the number of ids, and the alias map holds an alias exactly when its device is registered and maps it to that device. |
| DeviceRegistry.FindsWhatIsPresent | open-lighting-architecture/ola-0.8.4/olad/DeviceManager.cpp:78-233 | Over any run an id finds exactly the device of the last register that found the id free and has not been undone by an unregister or unregister-all since. |
| DeviceRegistry.SameAliasAgain | open-lighting-architecture/ola-0.8.4/olad/DeviceManager.cpp:85-102 | Registering again, whatever happened in between, gives the alias of the first time. |
| DeviceManagers.DeviceManager.HandleEvents | open-lighting-architecture/ola-0.8.4/olad/DeviceManager.cpp:78-233 | On the object: any registering and unregistering of devices leaves the two maps in the state of the run, in step. |
| FrameLayout.ParseDraw | frameserver/Server.cpp:120-143 | Parsing a packet in the client layout gives exactly the drawn z, windows and segments. |
| FrameLayout.DrawParseIff | frameserver/Server.cpp:66-143 | An accepted packet is the drawing of the frame read from it if and only if all its newlines are in place; the server checks none of them. |
| FrameBuffers.Serialise | frameserver/Server.cpp:176-209 | The body is the frame as a client draws it; the header bytes stay what they were. |
| FrameSources.RunTracks | frameserver/Server.cpp:85-153 | The table refines the packet history: if no more endpoints send than there are buffers, each source is what its own packets and expiry alone make of it. |
| FrameSources.StepTracksIff | frameserver/Server.cpp:85-153 | A packet changes its own sender's source only and expiry drops a source by its own age, exactly as long as no new sender finds the table full. |
| FrameServers.Server.Serve | frameserver/Server.cpp:66-153 | On the object: any interleaving of packets and expiry leaves the vectors aligned and the table in the state of the run, with distinct endpoints. |
| Firmware.AcceptedBlockInBounds | open-lighting-architecture/libartnet-1.1.0/artnet/receive.c:603-658 | Whatever block id and length a packet announces, an accepted CONT block lies inside the allocated buffer and an accepted LAST block ends exactly at the end of the firmware. |
| Firmware.ReceiveKeepsConsistent | open-lighting-architecture/libartnet-1.1.0/artnet/receive.c:539-690 | Every packet keeps the slot consistent: the buffer is as long as the announced total, and a slot without a peer is idle. |
| Firmware.CountIsInWordsIff | open-lighting-architecture/libartnet-1.1.0/artnet/receive.c:580-666 | The application is told a length in words, unless a FIRST packet is the whole, non-empty upload: then in bytes. |
| Firmware.LengthRoundTrip | open-lighting-architecture/libartnet-1.1.0/artnet/misc.c:44-56 | The word count a sender splits into four bytes is the one the receiver puts together. |
| Firmware.RemainingBlocks | open-lighting-architecture/libartnet-1.1.0/artnet/transmit.c:282-349 | From any point of a transfer the packets still to come are exactly the remaining blocks, field by field. |
| Firmware.BlocksRejoin | open-lighting-architecture/libartnet-1.1.0/artnet/transmit.c:335-337 | Blocks of consecutive numbers join up to the source from the first of them on. |
| Firmware.ReplyMeans | open-lighting-architecture/libartnet-1.1.0/artnet/receive.c:705-740 | The application is told ALLGOOD exactly when the peer says so and everything has been sent, and FAIL exactly when the peer says so; either ends the transfer. A packet leaves only for a BLOCKGOOD with blocks left, and any other reply changes nothing. |
| Firmware.SilentIff | open-lighting-architecture/libartnet-1.1.0/artnet/receive.c:550-556 | Nothing is sent back if and only if there is no memory for a new transfer, and the slot is taken all the same. |
| Firmware.BlockIndexIs | open-lighting-architecture/libartnet-1.1.0/artnet/receive.c:607-615 | An id that is the low byte of the expected block stands for that block, any other for itself. |
| Firmware.OneBlockDelivers | open-lighting-architecture/libartnet-1.1.0/artnet/receive.c:571-586 | A FIRST packet that is the whole upload hands over exactly the words it carries. |
| Firmware.TimesOutIff | open-lighting-architecture/libartnet-1.1.0/artnet/artnet.c:1624-1636 | A slot that has been taken for the timeout is idle again, any other is left alone. |
| Firmware.ClockStartsWithFirst | open-lighting-architecture/libartnet-1.1.0/artnet/receive.c:558-558 | Only a FIRST packet sets the time a transfer is measured by. |
| FirmwareSlots.FirmwareSlot.HandleFirmware | open-lighting-architecture/libartnet-1.1.0/artnet/receive.c:527-690 | The handler that copies into the buffer in place gives the slot, reply and callback of the receiving step, for every packet, and keeps the slot consistent. |
| FirmwareSlots.FirmwareSlot.HandleFirst | open-lighting-architecture/libartnet-1.1.0/artnet/receive.c:543-590 | The new-transfer branch: peer recorded before the allocation, first block copied, ALLGOOD for a one-block upload although the slot stays taken. |
| FirmwareSlots.FirmwareSlot.UnwrapBlockId | open-lighting-architecture/libartnet-1.1.0/artnet/receive.c:607-615 | A late block id is unwrapped modulo 256. |
| FirmwareSlots.FirmwareSlot.ResetFirmwareUpload | open-lighting-architecture/libartnet-1.1.0/artnet/receive.c:905-912 | A reset leaves an idle slot that remembers only the expected block. |
| FirmwareSlots.FirmwareSlot.CheckTimeouts | open-lighting-architecture/libartnet-1.1.0/artnet/artnet.c:1624-1636 | A silent transfer is reset and reported as failed, any other left alone. |
| FirmwareSlots.FirmwareSlot.StartTransfer | open-lighting-architecture/libartnet-1.1.0/artnet/artnet.c:863-883 | A copy of the caller's firmware and fresh counters, or no data and everything else as it was when allocation fails. |
| FirmwareSlots.FirmwareSlot.TxFirmwarePacket | open-lighting-architecture/libartnet-1.1.0/artnet/transmit.c:272-352 | The packet is the next block; the record advances only when the network took it. |
| FirmwareSlots.FirmwareSlot.HandleFirmwareReply | open-lighting-architecture/libartnet-1.1.0/artnet/receive.c:695-741 | BLOCKGOOD sends the next block unless all are sent, ALLGOOD completes only when all are sent, FAIL cancels; completing and cancelling clear the record. |
| FirmwareUpload.RunHealthy | open-lighting-architecture/libartnet-1.1.0/artnet/receive.c:539-741 | The inductive invariant behind it: exactly the first k blocks are received and block k or its reply is in flight or lost, or the upload has finished. |
| FirmwareUpload.BusyReceiverRefuses | open-lighting-architecture/libartnet-1.1.0/artnet/receive.c:592-598 | A busy receiver keeps its transfer, and its refusal ends with the sender reporting FAIL and free again. |
| FirmwareUpload.ReceiveFirst | open-lighting-architecture/libartnet-1.1.0/artnet/receive.c:543-590 | An idle receiver takes the first block of a longer upload and asks for more. |
| FirmwareUpload.ReceiveCont | open-lighting-architecture/libartnet-1.1.0/artnet/receive.c:600-626 | A receiver with k blocks takes block k and then holds k + 1. |
| FirmwareUpload.ReceiveLast | open-lighting-architecture/libartnet-1.1.0/artnet/receive.c:634-671 | A receiver with all other blocks takes the short last one, hands over exactly the source and is idle. |
| FirmwareLimits.RegularCompletes | open-lighting-architecture/libartnet-1.1.0/artnet/receive.c:734-738 | Such an upload completes after as many exchanges as it has blocks. |
| FirmwareLimits.OneBlockNeverCompletes | open-lighting-architecture/libartnet-1.1.0/artnet/receive.c:574-588 | An upload of one block leaves the receiver's slot taken for good. |
| FirmwareLimits.WholeBlocksNeverComplete | open-lighting-architecture/libartnet-1.1.0/artnet/transmit.c:304-312 | Firmware that fills its last block never gets a LAST packet, so it is never handed over. |
| FirmwareLimits.ManyBlocksNeverComplete | open-lighting-architecture/libartnet-1.1.0/artnet/transmit.c:346-349 | With more than 255 blocks the ids collide: there is firmware of every such length that never gets across. |
| DmxMerge.OwnersStayDistinct | open-lighting-architecture/libartnet-1.1.0/artnet/receive.c:140-223 | In every reachable port state two taken slots have different owners. |
| DmxMerge.KeepsSlotIff | open-lighting-architecture/libartnet-1.1.0/artnet/receive.c:105-140 | As owners are read before silent ones are dropped, a known source keeps its slot if and only if it has not been silent too long, even when its packet is taken. |
| DmxMerge.SlotsHoldHistory | open-lighting-architecture/libartnet-1.1.0/artnet/receive.c:144-209 | Over any run of two sources that are never silent too long, the slots and their times are those of the last packets of each, and dataA and dataB hold the last value each sent for every channel. |
| DmxMerge.OnTheWire | open-lighting-architecture/libartnet-1.1.0/artnet/receive.c:142-211 | A packet that is taken leaves on each channel it covers the maximum of the slots (HTP merge) or its own value, and moves no channel above its length. |
| DmxMerge.DeadCellIsReached | open-lighting-architecture/libartnet-1.1.0/artnet/receive.c:140-219 | A port gets into that state: when the first of two sources stops and the second goes on, later packets of the first meet the cell where code and table disagree. |
| DmxMerge.LengthIs | open-lighting-architecture/libartnet-1.1.0/artnet/receive.c:94-96 | The announced length is read high byte first and cut to 512. |
| DmxSilence.GoesOutAlone | open-lighting-architecture/libartnet-1.1.0/artnet/receive.c:140-211 | The same from any state in which the two slots have different owners. |
| DmxSilence.OtherGoneIff | open-lighting-architecture/libartnet-1.1.0/artnet/receive.c:867-885 | While one source goes on, the other one's slot is emptied if and only if some packet comes too late for it, and keeps its values and time meanwhile. |
| DmxSilence.OtherKeepsSlotIff | open-lighting-architecture/libartnet-1.1.0/artnet/receive.c:140-140 | A packet drops the other source, whichever slot that has, if and only if that has been silent too long. |
| DmxPorts.OutputPort.HandlePacket | open-lighting-architecture/libartnet-1.1.0/artnet/receive.c:105-223 | The branch that updates the port's arrays in place does what the value step says, for every packet and state. |
| DmxPorts.OutputPort.Merge | open-lighting-architecture/libartnet-1.1.0/artnet/receive.c:891-902 | The loop (HTP) or copy (LTP) changes the covered channels of the output only. |
| DmxPorts.OutputPort.CheckMergeTimeouts | open-lighting-architecture/libartnet-1.1.0/artnet/receive.c:867-885 | Owners silent for more than the timeout are dropped, nothing else changes. |
| DmxPorts.HandleDmx | open-lighting-architecture/libartnet-1.1.0/artnet/receive.c:85-231 | Every enabled port with the packet's address is marked active and takes the packet, no other port changes, and the application is called for exactly those ports in order. |
| NodeRing.Splice | open-lighting-architecture/libartnet-1.1.0/artnet/artnet.c:361-364 | The pointer surgery alone gives the joined ring. |
| NodeRing.FindLast | open-lighting-architecture/libartnet-1.1.0/artnet/artnet.c:363-364 | The walk stops at the node before n2 and redirects only that node. |
| NodeRing.MakeOnlyMaster | open-lighting-architecture/libartnet-1.1.0/artnet/artnet.c:366-370 | The loop leaves exactly one master in the ring and keeps the ring. |
| NodeRing.Peers | open-lighting-architecture/libartnet-1.1.0/artnet/artnet.c:317-324 | The loop of artnet_read visits every other member of the group exactly once, in ring order, and ends. |
| NodeRing.SharedOrDisjoint | open-lighting-architecture/libartnet-1.1.0/artnet/artnet.c:361-364 | Two well-formed groups in the heap are disjoint or have the same members, so the two cases of a join are all there are. |
| NodeRing.JoinKnown | open-lighting-architecture/libartnet-1.1.0/artnet/artnet.c:347-373 | In a world of well-formed groups with one master each, a join merges two groups and leaves a world of the same kind; no node loses a companion. |
| NodeLists.UpdateListsLatest | open-lighting-architecture/libartnet-1.1.0/artnet/artnet.c:1526-1529 | An update keeps every entry at the latest reply of its address. |
| NodeLists.UpdateListsInOrder | open-lighting-architecture/libartnet-1.1.0/artnet/artnet.c:1518-1525 | An update keeps the entries in order of first appearance. |
| NodeLists.EntriesShowLatest | open-lighting-architecture/libartnet-1.1.0/artnet/artnet.c:1580-1604 | Every entry shows each field of the latest reply of its address, 16-bit fields high byte first. |
| NodeLists.NodeList.Update | open-lighting-architecture/libartnet-1.1.0/artnet/artnet.c:1498-1531 | On the linked list the update keeps the chain acyclic, last the true tail and length the entry count, and updates or appends exactly one entry; if allocation fails nothing changes. |
| NodeLists.NodeList.FindEntryFromIp | open-lighting-architecture/libartnet-1.1.0/artnet/artnet.c:1537-1545 | The walk finds the entry of an address, or null when there is none. |
| TableOfDevices.PacketsAreBlocks | open-lighting-architecture/libartnet-1.1.0/artnet/transmit.c:165-179 | From any point on, the packets still to come are the remaining blocks, field by field. |
| TableOfDevices.BlocksJoin | open-lighting-architecture/libartnet-1.1.0/artnet/transmit.c:171-175 | The UIDs that blocks carry join up to the table from the first of them on. |
| TableOfDevices.FlattenSlice | open-lighting-architecture/libartnet-1.1.0/artnet/transmit.c:171-175 | The byte range copied for a packet is that of its UIDs. |
| TableOfDevices.FlattenAt | open-lighting-architecture/libartnet-1.1.0/artnet/tod.c:64-65 | Byte j of UID i is byte 6 i + j of the table. |
| TableOfDevices.AttemptsAre | open-lighting-architecture/libartnet-1.1.0/artnet/transmit.c:177-177 | Packets are handed to the network up to and including the first that it refuses. |
| TableOfDevices.Table.Add | open-lighting-architecture/libartnet-1.1.0/artnet/tod.c:29-68 | Adding a UID appends it, across the first allocation of 100 and every growth by 50, and keeps the earlier bytes; a failed growth loses the data but not the length. |
| TableOfDevices.Table.Flush | open-lighting-architecture/libartnet-1.1.0/artnet/tod.c:107-117 | A flush leaves an empty table. |
| TableOfDevices.Table.FillArea | open-lighting-architecture/libartnet-1.1.0/artnet/transmit.c:166-175 | The first 200 bytes of the area are cleared and the next UIDs copied over it; the rest stays. |
| TableOfDevices.AreaOf | open-lighting-architecture/libartnet-1.1.0/artnet/transmit.c:165-175 | Behind its UIDs a packet is zero up to byte 200; from there on it still has what the packet before carried at the same place. |
| TableOfDevices.RealUidsTailIff | open-lighting-architecture/libartnet-1.1.0/artnet/transmit.c:165-175 | For UIDs that end in no zero byte: the last packet has no stale bytes if and only if there are at most 200 UIDs or a multiple of 200. |
| TableOfDevices.Table.TxTodData | open-lighting-architecture/libartnet-1.1.0/artnet/transmit.c:133-181 | The loop sends the packets of the table in order, up to and including the first one the network refuses, and returns 0 if and only if it refuses none. |
| Rdm.RunConserves | open-lighting-architecture/ola-0.8.4/olad/InternalRDMController.cpp:113-320 | Over any run nothing undefined happens, and outstanding and completed requests together are exactly the accepted ones. |
| Rdm.RefusedIff | open-lighting-architecture/ola-0.8.4/olad/Universe.cpp:369-393 | A bound port refuses exactly the requests for one device that its universe does not know, so it never refuses a broadcast. |
| Rdm.StepConserves | open-lighting-architecture/ola-0.8.4/olad/InternalRDMController.cpp:113-320 | One send, response, sweep or teardown keeps the account. |
| Rdm.RefusedUnicastRestores | open-lighting-architecture/ola-0.8.4/olad/InternalRDMController.cpp:216-238 | A refused unicast request leaves every queue and the log as they were. |
| RdmOutcomes.QueuedRequestIs | open-lighting-architecture/ola-0.8.4/olad/InternalRDMController.cpp:44-84 | Each request in a queue is a unicast order of that universe; a response matches it if and only if it answers that order, a GET with a GET response and a SET with a SET response. |
| RdmOutcomes.OrderIsQueued | open-lighting-architecture/ola-0.8.4/olad/InternalRDMController.cpp:211-230 | A unicast order that is taken stands last in its universe's queue under its own name. |
| RdmOutcomes.AnswersAreReplies | open-lighting-architecture/ola-0.8.4/olad/InternalRDMController.cpp:214-231 | Answers that come while a request is being handed over act as answers that come right after it. |
| RdmOutcomes.SendAccepts | open-lighting-architecture/ola-0.8.4/olad/InternalRDMController.cpp:155-239 | A send succeeds exactly when a port can be had and takes the request; without a port nothing changes, and a port is kept for the next send. |
| RdmOutcomes.CountsAre | open-lighting-architecture/ola-0.8.4/olad/InternalRDMController.cpp:175-184 | The counters of a run are the numbers of requests issued for each universe and source, and of those accepted. |
| RdmOutcomes.RunFaithful | open-lighting-architecture/ola-0.8.4/olad/InternalRDMController.cpp:113-320 | The invariant behind these: queues and callbacks stand for the orders of the run. |
| RdmOutcomes.InOrderSplit | open-lighting-architecture/ola-0.8.4/olad/InternalRDMController.cpp:296-318 | Callbacks that time out together run universe by universe in ascending order, each queue in its own order. |
| RdmNumbers.NumbersCount | open-lighting-architecture/ola-0.8.4/olad/InternalRDMController.cpp:175-184 | The k-th request issued for a universe and source gets transaction number k mod 256, over any run. |
| RdmNumbers.RunNumbered | open-lighting-architecture/ola-0.8.4/olad/InternalRDMController.cpp:175-184 | In every reachable state each queued request carries its ordinal modulo 256 and a queue lists the requests of a source in order of issue. |
| RdmControllers.RdmController.SendRDMRequest | open-lighting-architecture/ola-0.8.4/olad/InternalRDMController.cpp:143-239 | The method on queues and counters in place is the sending step, for every outcome: pushed before the universe sees it, completed at once for a broadcast, popped when refused, even from an empty queue. |
| RdmControllers.RdmController.HandleRDMResponse | open-lighting-architecture/ola-0.8.4/olad/InternalRDMController.cpp:245-283 | The first matching request of the universe is taken out and its callback run; without a match nothing changes. |
| RdmControllers.RdmController.CheckTimeouts | open-lighting-architecture/ola-0.8.4/olad/InternalRDMController.cpp:290-320 | All queues are swept before the callbacks of the expired requests run, in the order of universes and queues. |
| RdmControllers.RdmController.TakeExpired | open-lighting-architecture/ola-0.8.4/olad/InternalRDMController.cpp:296-309 | The loop over queues takes out the expired requests and leaves the live ones. |
| RdmControllers.RdmController.RemoveExpired | open-lighting-architecture/ola-0.8.4/olad/InternalRDMController.cpp:298-308 | Erasing while walking one queue splits it into live and expired requests. |
| RdmControllers.RdmController.TearDown | open-lighting-architecture/ola-0.8.4/olad/InternalRDMController.cpp:113-137 | The destructor runs every outstanding callback as timed out and leaves nothing. |
| Wirings.ChangesStayLawful | open-lighting-architecture/ola-0.8.4/olad/PortManager.cpp:113-169 | No sequence of patch and unpatch calls gives a device without looping an input and an output port on one universe, or a device without multi-port patching two ports of a kind on one. |
| Wirings.ApplyLawful | open-lighting-architecture/ola-0.8.4/olad/PortManager.cpp:124-136 | One patch or unpatch call keeps the device's rules. |
| Wirings.CandidatesAgreeWithPatch | open-lighting-architecture/ola-0.8.4/olad/OlaServerServiceImpl.cpp:503-550 | A port is a candidate exactly when it is unbound and patching it now would succeed, and, without multi-port patching, it is the first such port of its kind. |
| Wirings.AnyUniverseIsAFreshOne | open-lighting-architecture/ola-0.8.4/olad/OlaServerServiceImpl.cpp:498-501 | Without a universe in the request the candidates are those for a universe no port is bound to. |
| Patching.PortManager.PatchPort | open-lighting-architecture/ola-0.8.4/olad/PortManager.cpp:113-151 | The call succeeds exactly when the device's rules allow it, then binds the port; otherwise nothing changes. A port is in a universe's list exactly when it points to that universe, before and after. |
| Patching.PortManager.UnPatchPort | open-lighting-architecture/ola-0.8.4/olad/PortManager.cpp:156-169 | The port is released and the universe lists stay exact. |
| Patching.PortManager.AnyPortOn | open-lighting-architecture/ola-0.8.4/olad/PortManager.cpp:229-241 | The loop finds out whether any port is bound to a universe. |
| Patching.PortManager.Conflicts | open-lighting-architecture/ola-0.8.4/olad/PortManager.cpp:126-136 | The looping and multi-port checks together refuse exactly what the rules forbid. |
| Patching.PortManager.GetUniverseOrCreate | open-lighting-architecture/ola-0.8.4/olad/UniverseStore.cpp:87-106 | A known universe is returned, an unknown one created empty. |
| Patching.PortManager.SetPriorityInherit | open-lighting-architecture/ola-0.8.4/olad/PortManager.cpp:78-85 | A port with priorities is put in inherit mode. |
| Patching.PortManager.SetPriorityOverride | open-lighting-architecture/ola-0.8.4/olad/PortManager.cpp:93-110 | The value is cut to 200; the mode changes only on ports with full capability. |
| Patching.Universe.AddPort | open-lighting-architecture/ola-0.8.4/olad/Universe.cpp:716-730 | A port is appended unless it is already listed. |
| Patching.Universe.RemovePort | open-lighting-architecture/ola-0.8.4/olad/Universe.cpp:737-770 | Exactly that port leaves the list. |
| DevicePatching.PatchOnDevice | open-lighting-architecture/ola-0.8.4/olad/PortManager.cpp:113-151 | Seen from its device, a patch call is the patch step of the rules: only that port's universe changes, and only if allowed. |
| DevicePatching.UnpatchOnDevice | open-lighting-architecture/ola-0.8.4/olad/PortManager.cpp:156-169 | Seen from its device, an unpatch call releases that port only. |
| DevicePatching.StatesShow | open-lighting-architecture/ola-0.8.4/olad/Port.cpp:28-78 | The state a device is seen in has each port's id, capability, universe, priority and mode. |
| DevicePatching.MakeCall | open-lighting-architecture/ola-0.8.4/olad/PortManager.cpp:113-169 | One patch or unpatch call on any of several devices changes that device's bindings as the rules say and no other device's, and leaves all devices lawful. |
| CandidatePorts.ReplyIsExact | open-lighting-architecture/ola-0.8.4/olad/OlaServerServiceImpl.cpp:470-551 | The reply computed device by device is exactly that. |
| CandidatePorts.CandidatesOf | open-lighting-architecture/ola-0.8.4/olad/OlaServerServiceImpl.cpp:470-550 | The flags and counters of the loop body decide as the candidate rules do. |
| CandidatePorts.Tally | open-lighting-architecture/ola-0.8.4/olad/OlaServerServiceImpl.cpp:477-509 | The counting loops find out whether each side may bind one more port and has one to bind. |
| CandidatePorts.List | open-lighting-architecture/ola-0.8.4/olad/OlaServerServiceImpl.cpp:524-536 | The listing loop offers every unbound port, or the first only. |
| CandidatePorts.SeenIff | open-lighting-architecture/ola-0.8.4/olad/OlaServerServiceImpl.cpp:485-496 | Comparing universe pointers is comparing universe ids. |
| NumberText.UniverseRoundTrip | open-lighting-architecture/ola-0.8.4/olad/DeviceManager.cpp:372-379 | A universe id written as text is read back if and only if it fits an int. |
| NumberText.ByteRoundTrip | open-lighting-architecture/ola-0.8.4/common/utils/StringUtils.cpp:152-160 | A byte written as text is read back. |
| NumberText.ByteIff | open-lighting-architecture/ola-0.8.4/common/utils/StringUtils.cpp:118-160 | A number in text is accepted as a byte if and only if it is below 256. |
| NumberText.NumberIsReadAs | open-lighting-architecture/ola-0.8.4/olad/DeviceManager.cpp:376-379 | Any number in text is read through a long, which saturates, and an int, which wraps. |
| NumberText.NegativeIsReadAs | open-lighting-architecture/ola-0.8.4/olad/DeviceManager.cpp:377-379 | A negative number is skipped unless the int has wrapped around. |
| NumberText.PaddingIsIgnored | open-lighting-architecture/ola-0.8.4/olad/DeviceManager.cpp:377-377 | Blanks before a number and anything but a digit behind it make no difference. |
| NumberText.TextRoundTrip | open-lighting-architecture/ola-0.8.4/common/utils/StringUtils.cpp:107-111 | The digits of a number spell that number. |
| PortSettings.SaveRestoreRoundTrip | open-lighting-architecture/ola-0.8.4/olad/DeviceManager.cpp:240-384 | A device whose keys are apart, saved and registered again with its ports unpatched, gets back every port's universe, as far as it fits an int, and the priority value and mode its capability covers. |
| PortSettings.HeldSettingsComeBack | open-lighting-architecture/ola-0.8.4/olad/DeviceManager.cpp:263-384 | Whatever preferences hold a device's settings give them back to it. |
| PortSettings.SaveHoldsDevice | open-lighting-architecture/ola-0.8.4/olad/DeviceManager.cpp:240-323 | After a save the preferences hold every port of a device whose ids are distinct, not empty, and no key that a port's priority is saved under. |
| PortSettings.SidesComeBack | open-lighting-architecture/ola-0.8.4/olad/DeviceManager.cpp:361-384 | Patching port by port, under the device's own rules, never refuses a universe of a lawful saved patching. |
| PortSettings.NothingSavedNothingChanges | open-lighting-architecture/ola-0.8.4/olad/DeviceManager.cpp:329-384 | A device none of whose keys is in the preferences is left as it is. |
| PortSettings.RestoredPriorityIs | open-lighting-architecture/ola-0.8.4/olad/DeviceManager.cpp:329-355 | A legible value is taken, cut to 200; a port with both modes overrides then; a saved inherit mode has the last word; nothing else of the port changes. |
| PortSettings.WalkEndsWithoutId | open-lighting-architecture/ola-0.8.4/olad/DeviceManager.cpp:286-292 | The ports behind one without an id are not saved. |
| PortIds.LosesUniverse | open-lighting-architecture/ola-0.8.4/olad/DeviceManager.cpp:286-303 | A port without an id, or whose key a later port or a priority overwrites, loses its universe. |
| PortIds.StandardIdsAreApart | open-lighting-architecture/ola-0.8.4/olad/Port.cpp:60-68 | The ids olad gives to the ports of a device meet that condition. |
| PortIds.CollidingIdsLoseSettings | open-lighting-architecture/ola-0.8.4/olad/DeviceManager.cpp:309-323 | An instance: two ports with different ids, the second one the key of the first one's priority, do not come back. |
| SavedDevices.SaveAllHolds | open-lighting-architecture/ola-0.8.4/olad/DeviceManager.cpp:226-233 | What the last save of a device writes survives the saves of any other devices. |
| SavedDevices.StandardDevicesAreApart | open-lighting-architecture/ola-0.8.4/olad/Port.cpp:170-179 | Ports of devices with different ids never share a preference key. |
| DeviceRegistry.RunConsistent | open-lighting-architecture/ola-0.8.4/olad/DeviceManager.cpp:78-233 | The same from any consistent state on, as long as the aliases do not run out. |
| DeviceRegistry.LookupsAgree | open-lighting-architecture/ola-0.8.4/olad/DeviceManager.cpp:194-220 | Both GetDevice forms agree: an alias finds a device exactly when some id finds both. |
| DeviceRegistry.UnregisteredIsGone | open-lighting-architecture/ola-0.8.4/olad/DeviceManager.cpp:123-140 | A device that is unregistered is found under neither its id nor its alias and can come back; no other device is touched. |
| DeviceRegistry.EmptiedIsGone | open-lighting-architecture/ola-0.8.4/olad/DeviceManager.cpp:226-233 | After unregister-all nothing is found under any id or alias, and every id can come back. |
| DeviceRegistry.RegisteredIsFound | open-lighting-architecture/ola-0.8.4/olad/DeviceManager.cpp:78-115 | A device registers if and only if its id is not empty and nobody has it; it is then found under both names, and no other device is touched. |
| DeviceRegistry.AliasIsForLife | open-lighting-architecture/ola-0.8.4/olad/DeviceManager.cpp:85-102 | An id keeps its alias over any run, unregister-all included. |
| DeviceRegistry.NewAliasIsItsOwnIff | open-lighting-architecture/ola-0.8.4/olad/DeviceManager.cpp:97-101 | A new id gets an alias of its own, and one that is not the missing alias, if and only if the unsigned counter has not wrapped. |
| DeviceManagers.DeviceManager.RegisterDevice | open-lighting-architecture/ola-0.8.4/olad/DeviceManager.cpp:78-115 | Both maps and the counter change as the registry step says, and the device's ports are restored from the preferences; a refused device changes nothing. |
| DeviceManagers.DeviceManager.UnregisterDevice | open-lighting-architecture/ola-0.8.4/olad/DeviceManager.cpp:123-140 | The device is saved, its alias leaves the alias map and its entry stays without a device. |
| DeviceManagers.DeviceManager.UnregisterDeviceByPointer | open-lighting-architecture/ola-0.8.4/olad/DeviceManager.cpp:148-157 | A device pointer is unregistered by its id. |
| DeviceManagers.DeviceManager.UnregisterAllDevices | open-lighting-architecture/ola-0.8.4/olad/DeviceManager.cpp:226-233 | Every registered device is saved exactly once, in the order of the ids, and both maps are emptied of devices while the aliases stay. |
| DeviceManagers.DeviceManager.GetDevice | open-lighting-architecture/ola-0.8.4/olad/DeviceManager.cpp:194-200 | The lookup by alias. |
| DeviceManagers.DeviceManager.GetDeviceById | open-lighting-architecture/ola-0.8.4/olad/DeviceManager.cpp:209-220 | The lookup by id. |
| DeviceManagers.DeviceManager.SaveDevicePortSettings | open-lighting-architecture/ola-0.8.4/olad/DeviceManager.cpp:240-257 | Patchings of both sides, then priorities, are written as the save function says; without preferences nothing happens. |
| DeviceManagers.DeviceManager.SavePortPatchings | open-lighting-architecture/ola-0.8.4/olad/DeviceManager.cpp:286-303 | The loop writes or removes the key of each port up to the first one without an id. |
| DeviceManagers.DeviceManager.SavePortPriority | open-lighting-architecture/ola-0.8.4/olad/DeviceManager.cpp:309-323 | Value and mode are written as far as the port's capability covers them. |
| DeviceManagers.DeviceManager.RestoreDevicePortSettings | open-lighting-architecture/ola-0.8.4/olad/DeviceManager.cpp:263-281 | Restoring in place, through PatchPort and the priority setters, is the restore function. |
| DeviceManagers.DeviceManager.RestorePortPatchings | open-lighting-architecture/ola-0.8.4/olad/DeviceManager.cpp:361-384 | The loop patches the ports of one side in turn, each under the bindings the earlier ones have got. |
| DeviceManagers.DeviceManager.RestorePortPriority | open-lighting-architecture/ola-0.8.4/olad/DeviceManager.cpp:329-355 | The override value is set first and inherit mode after it, so that a port in inherit mode still remembers its value. |
| FrameLayout.OffsetsAreDistinct | frameserver/Server.cpp:123-142 | For all frame dimensions, every channel has a byte of its own. |
| FrameLayout.NewlinesAreApart | frameserver/Server.cpp:185-209 | No channel sits on the newline of any row. |
| FrameLayout.InBounds | frameserver/Server.cpp:123-142 | Every channel lies inside its grid, before its row's newline. |
| FrameLayout.EveryByteIsUsed | frameserver/Server.cpp:176-176 | Every byte of a grid is a channel or a row's newline: the layout has no gaps. |
| FrameLayout.DrawnAt | clients/s2llib.py:60-71 | A client that appends pixel after pixel puts each channel at the server's offset and a newline behind each row. |
| FrameLayout.BodyRoundTrip | frameserver/Server.cpp:183-209 | A body with both grids is read back as the frame, whatever header precedes it. |
| FrameBuffers.FillGrid | frameserver/Server.cpp:121-142 | The nested loops fill the array with what stands at the offsets. |
| FrameBuffers.WriteGrid | frameserver/Server.cpp:183-209 | The nested loops write the grid as a client draws it, newlines included, and nothing outside it. |
| FrameBuffers.ParseBuffer | frameserver/Server.cpp:119-143 | Both grids and z are taken from one packet. |
| FrameBuffers.SentFrame | frameserver/Server.cpp:176-210 | What send puts on the wire carries the server's frame in its body, but with its blank header no frame server accepts it as a packet. |
| FrameSources.RunGood | frameserver/Server.cpp:85-153 | No interleaving of packets and expiry gives two sources one endpoint or makes more than NUMBUFS entries. |
| FrameSources.DrawnFrameArrives | frameserver/Server.cpp:85-153 | The frame a client draws is the frame the server then holds for it. |
| FrameSources.Written | frameserver/Server.cpp:145-152 | Writing one source leaves the lookups of all others alone. |
| FrameSources.ExpiredExactly | frameserver/Server.cpp:597-611 | Expiry keeps exactly the sources no older than the timeout. |
| FrameSources.WrongHashIsIgnored | frameserver/Server.cpp:70-75 | A packet that does not start with the hash changes nothing. |
| FrameSources.ExpiredInOrder | frameserver/Server.cpp:597-611 | The sources that are kept keep their order. |
| FrameSources.ExpiredLookup | frameserver/Server.cpp:597-611 | A source is known after expiry exactly when it was known and is not stale. |
| FrameServers.Server.Listen | frameserver/Server.cpp:66-153 | One locked step of listen: the three vectors stay aligned and the table they hold changes as the packet step says. |
| FrameServers.Server.Admit | frameserver/Server.cpp:85-117 | A known sender is found, a new one gets the last entry if there is room. |
| FrameServers.Server.Store | frameserver/Server.cpp:145-152 | Frame and time of one entry change, nothing else. |
| FrameServers.Server.FindSource | frameserver/Server.cpp:89-99 | The loop finds the sender's index. |
| FrameServers.Server.Expire | frameserver/Server.cpp:590-614 | Erasing while walking leaves the table without its stale sources, aligned. |
| FrameServers.Server.Erase | frameserver/Server.cpp:603-605 | One entry leaves all three vectors. |

## Left out

- UploadIsSafe: runs without timeouts, duplication and reordering; EveryWriteInBounds, RefusesIff and TransferSurvivesIff cover those for the receiver alone.
- MergeRefinesHistory: two sources that are never silent too long; MergeEndsIff, LockedOutWhileBLives and OnTheWire speak of the others.
- ExactlyOnce: an internal port keeps the universe it was patched to until the controller is destroyed; nothing else in olad unpatches it, but universes deleted before the controller are not modelled.
- ResponseIsUnambiguous: needs every request of the pair to be among its last 256; ConfusedIff says what happens beyond.
- ReachableIsConsistent: up to 2^32 - 1 distinct device ids; NewAliasIsItsOwnIff says what happens beyond.
- SaveRestoreRoundTrip: needs keys that are apart (RoundTripIff says that this is exactly what it takes) and priorities of at most 200, which is all that SetPriority lets a port have.
- RunTracks: no more endpoints than buffers; StepTracksIff says what a full table does.
- GetCandidatePorts: device names, plugin ids and the other text fields of the reply.
- PatchPort: PreSetUniverse accepts, the universe store finds or makes a universe, and an empty universe is never collected.
- GetUniverseOrCreate: a new universe's own saved settings are not restored.
- RemovePort: a universe without ports is not marked for collection, and the UIDs behind a port are not forgotten.
- Add: nothing is said of a table after a growth has failed, when it has a length but no data.
- SendRDMRequest: a callback does not call back into the controller.
- RdmController: outstanding requests are values in the queues, not heap objects, so freeing them is not modelled.
- Port status bits other than the activity bit, application callbacks that swallow a packet, and log output.
- Exported counters, a null RDM response, and the parameter data of RDM requests.
- Overflow of the receiver's expected block number after 2^31 blocks of one transfer.
- Firmware packets of an unknown type, which the code answers FAIL like any other refused packet; the reply packet's own layout.
- Receiving from hosts with address 0, which stands for no peer in the firmware slot and the merge slots.
- remove_tod_uid, whose search starts at slot 1, and reset_tod.
- find_nodes_from_uni and the accessors of the node list.
- The preference file, the text of endpoints, and the locale of number conversion.
- DeviceCount and Devices, which only list the registered devices.
- Threads and locks of the frame server: what is done under one lock is one step. The alpha blend, the console and the sockets.
- The contents of a receive buffer behind a short packet are any bytes, as in the code.
- Start, stop, polling, addressing, input and DMX sending of an Art-Net node; universes, plugins, RPC and clients of olad.
- Freeing memory.
