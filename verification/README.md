# RoomControl: a verified model

RoomControl is the firmware of a smart-home controller: it speaks to radio (ZigBee) and bus devices, runs function blocks
such as blinds and animated lights, and forwards messages between MQTT-SN connections. This project models the parts whose
correctness is hardest to see from the code and proves what they are meant to guarantee, for all inputs and over all runs.
A wait of a coroutine is a boundary between atomic steps. Code that changes arrays and fields is modelled by methods on
arrays and fields; each method's contract ties it to a function on values, and the properties are proved about the
functions. Beside each operation stands what it is for, in terms of its inputs, events and octets, without the functions that
the methods are tied to: the modules `Rfc3610`, `Mmo`, `FrameOctets` and those whose names end in `Laws`.
`dafny verify dfyconfig.toml` checks everything.

| files | what they model |
|---|---|
| `Bytes`, `DataBuffer`, `Rfc3610`, `Ccm`, `Crypt` | CCM\* sealing with the block cipher as an arbitrary function, and the standard on its own (`Options` holds what several modules share) |
| `RadioFrame`, `FrameOctets`, `PacketWriter`, `PacketReader` | an application layer frame sealed inside a network layer frame, in one packet buffer, and its octets written out |
| `Selection`, `BusModel`, `BusRun`, `BusInterface`, `CommissionLaws`, `PowerLoss`, `LeftoverRun` | commissioning of bus devices, and loading them from storage |
| `SecurityCounter` | the security counter that the sending coroutines of the bus share |
| `SystemTime`, `TimedBlind`, `AnimatedLight`, `LightLaws` | two function blocks with their timing |
| `MqttSn`, `Forward`, `Delivery`, `Sessions`, `TopicLaws`, `ForwardLaws`, `ForwardRun`, `MqttSnBroker` | the broker: forwarding with retransmissions, duplicate suppression, connection and subscription tables |
| `StringHash`, `TopicTable` | the hash table of the broker's topics, and how messages of the gateway find them |
| `Clusters`, `ClusterBuilder` | endpoint clusters, packed into a buffer and looked up there |
| `Mmo`, `Hash`, `Crc` | Matyas-Meyer-Oseas hash, HMAC and CRC-16 |
| `SwapModel`, `SwapLaws`, `Menu` | the two bitmaps of the display between transfers and nested menus |
| `BusCode` | the unary code for bus arbitration |

## What turned out differently

Where a promise does not hold for all inputs, the code is modelled as it is, and the exact condition is proved.

- CCM\*: the code always writes a two-octet header length, so it agrees with RFC 3610 exactly for headers of 1 to 0xfeff
  octets (`Ccm.FollowsRfcExactly`). The round trips do not depend on this and hold for all lengths.
- Hash: the padding takes one block more than needed when 13 octets are left over, and then differs from the standard's
  hash (`Hash.FollowsStandardExactly`). It is injective nevertheless, for inputs of any length.
- Forwarding: the check for the return code of a PUBACK asks for something behind it, so that the acknowledge of the
  protocol never stops the retransmissions; a longer one does (`Forward.AcceptedExactly`, `Forward.PubackSendsThrice`).
- An acknowledge is copied with its own length. One that stops the attempts and stays inside the buffer of eight octets has one
  to three octets more than the protocol's (`Forward.AcceptedInsideExactly`).
- Subscriptions with quality of service -1 are confirmed but stored as "not subscribed" (`Sessions.ConfirmedExactly`).
- Duplicate suppression: a topic remembers only its last message that asks for an acknowledge, so that a message is
  forwarded once exactly if no other such message arrives between its attempts (`Delivery.OnceExactly`). Two messages whose
  attempts alternate are forwarded again with every attempt (`Delivery.Alternating`).
- Busy forwarders: a message that arrives while no forwarding coroutine waits is marked, acknowledged and lost; so are its
  retransmissions until another message arrives (`Delivery.ForwardedExactly`, `Delivery.LostWhenBusy`).
- Retransmissions go to whoever holds the slot. They reach the client of the first attempt exactly if the slot has not been
  opened since, or was opened for that client last (`ForwardRun.AttemptGoesTo`); otherwise a client gets a message that it
  never subscribed to (`ForwardRun.TakeoverHappens`).
- Messages of the gateway: the search for a topic by its id stops at 1024 although the table has 1365 places, and what it has
  not found is taken for place 1024. A topic is found exactly if it is not beyond that place (`TopicTable.KnownFoundExactly`),
  and an unknown id is rejected exactly if that place is free (`TopicTable.UnknownRejectedExactly`).
- Hash table: a key is read back exactly if it is shorter than 16384 characters (`StringHash.KeyBackExactly`).
- Security counter: the status of a counter write is ignored. A restart can lead to a repeated number exactly when a message
  has been sent whose number the stored value does not cover (`SecurityCounter.RepeatsExactly`). Without failed writes that
  never happens, whether the storage takes the value at issue or at completion; after a failed one it does
  (`SecurityCounter.FailedWriteReuses`) until a later write covers it (`SecurityCounter.LaterWriteCovers`).
- Power failure between the writes of a commissioning: the other devices are loaded as they were exactly if none of the new
  ids still has an entry that such a device has lost before (`PowerLoss.OthersIntactExactly`); entries of lost endpoints are
  never erased (`PowerLoss.LeftoversStay`), and in `LeftoverRun.LeftoverHappens` a device gets such an endpoint back.
- Animated light: a published fade is to end at the next wake-up, with the brightness that the light is to have then. It ends
  then exactly if nothing was merged, the step began now and whole tenths of a second remain, as far as each of these matters
  (`AnimatedLight.PublishedInTimeExactly`); a merged fade is published with its full time and ends late
  (`AnimatedLight.MergedFadeLate`).
- Animated light: a fade goes on from the level that the light has exactly if it takes time, or ends at that level; a fade
  time of zero is a jump (`AnimatedLight.ContinuousExactly`).
- Timed blind: a position message can move the target behind a moving blind, which then jumps to it in its model of the
  position. That is the only way to lose the direction
  (`TimedBlind.TargetBehindExactly`, `TimedBlind.TargetBehindHappens`). A step message can take the target out of range
  (`TimedBlind.RangeLostExactly`).
- Cluster builder: the size that is allocated is the size of the data exactly unless all 32 entries are client clusters
  (`ClusterBuilder.EndpointDataBuilder.SizeExactly`), which does happen (`ClusterBuilder.AllClients`).
- Bus address: the two-octet code holds addresses up to 71 (`BusCode.AddressBackExactly`).

## Model

| member | source | states |
|---|---|---|
| `Ccm.OpenSealed` | software/protocol/src/crypt.cpp:54-179 | For every block function, nonce, header, payload of any length and integrity code of up to 16 octets: what was sealed is accepted, and its payload restored |
| `Ccm.SealOpened` | software/protocol/src/crypt.cpp:54-179 | A message is accepted if and only if sealing the payload found in it gives back the message, octet for octet |
| `Ccm.SealedOctet` | software/protocol/src/crypt.cpp:8-112 | Every octet of a sealed message, for all lengths of header, payload and integrity code: the payload under the key stream of RFC 3610, and the standard's authentication value under its block 0 |
| `Ccm.KeyBlockIs` | software/protocol/src/crypt.cpp:8-36 | Block i of the key stream is the cipher of the flags 1, the nonce and the counter, higher octet first |
| `Ccm.TagIs` | software/protocol/src/crypt.cpp:54-95 | The authentication value, for every header length, is the chain of RFC 3610 over B_0, header and payload with a header length of always two octets |
| `Ccm.FollowsRfcExactly` | software/protocol/src/crypt.cpp:54-112 | Sealing agrees with RFC 3610, sections 2.2 and 2.3, for all ciphers and payloads exactly for header lengths from 1 to 0xfeff |
| `Ccm.EmptyHeaderDiffers` | software/protocol/src/crypt.cpp:61-82 | An empty header is authenticated as if it were present, unlike in the standard |
| `Ccm.LongHeaderDiffers` | software/protocol/src/crypt.cpp:61-82 | From 0xff00 octets on the short length field departs from the standard |
| `Crypt.Encrypt` | software/protocol/src/crypt.cpp:54-112 | The streaming loops, in place or not, leave the sealed payload and integrity code in the result buffer and nothing else changed |
| `Crypt.Decrypt` | software/protocol/src/crypt.cpp:114-179 | The result buffer holds the opened payload, and the answer is true exactly for sealed messages |
| `Crypt.Authenticate` | software/protocol/src/crypt.cpp:54-95 | The streaming computation with clipping and padding is the CBC-MAC chain over the complete list of formatted blocks |
| `Crypt.ApplyCtr` | software/protocol/src/crypt.cpp:8-52 | Block by block, also in place, the output is the whole counter mode stream added to the input |
| `DataBuffer.SetData` | software/protocol/src/DataBuffer.hpp:60-66 | Copies what fits behind the index and leaves the rest of the buffer |
| `DataBuffer.XorData` | software/protocol/src/DataBuffer.hpp:88-94 | Adds what fits behind the index and leaves the rest of the buffer |
| `DataBuffer.XorPadded` | software/protocol/src/DataBuffer.hpp:88-94 | Adding clipped data is the same as adding the zero-padded block |
| `RadioFrame.NwkFrameOpens` | software/control/src/RadioInterface.cpp:1588-1645 | The network stage accepts every network frame that was sealed and gives back frame control, source, counter and payload |
| `RadioFrame.ApsFrameOpens` | software/control/src/RadioInterface.cpp:1811-1867 | The application stage accepts every application command that was sealed, whichever key type it uses |
| `RadioFrame.NestedFrameOpens` | software/control/src/RadioInterface.cpp:1588-1645 | A command sealed inside a sealed network frame comes out of the two stages unchanged, for all keys, addresses, counters and contents |
| `RadioFrame.OpenedLayerSeals` | software/control/src/RadioInterface.cpp:1592-1641 | A layer is accepted if and only if some payload seals to it, up to the level bits that are cleared on the wire |
| `RadioFrame.RoutedFrameOpens` | software/control/src/RadioInterface.cpp:1542-1645 | A network frame to which relays have added a source route of any length is opened all the same |
| `RadioFrame.ShortApsFrameOpens` | software/control/src/RadioInterface.cpp:1821-1845 | An application command without source address is opened with the source address of the network frame |
| `FrameOctets.NetworkFrameOctets` | software/control/src/RadioInterface.cpp:640-729 | A written network frame, octet by octet: addresses, security control without its level, counter, source, key number, and the payload sealed with the full control in nonce and header |
| `FrameOctets.CommandFrameOctets` | software/control/src/RadioInterface.cpp:731-767 | The same for an application command and each of its three keys |
| `FrameOctets.NonceOctets` | software/protocol/src/Nonce.hpp:12-25 | The nonce is source address, counter with the lowest octet first, and security control |
| `FrameOctets.CountersAdvance` | software/control/src/RadioInterface.cpp:700-755 | Every layer takes the next 32-bit counter; no two counters have the same successor |
| `FrameOctets.LayersApart` | software/control/src/RadioInterface.cpp:1926-1952 | The two layers of a nested command never share a nonce |
| `FrameOctets.NwkRefusals` | software/control/src/RadioInterface.cpp:1590-1645 | Network frames without security, under another key or without source address are dropped |
| `FrameOctets.ApsRefusals` | software/control/src/RadioInterface.cpp:1811-1867 | Application frames that are no commands, or claim the network key, are dropped; unsecured commands are taken as they are |
| `PacketWriter.PacketWriter.Push` | software/control/src/RadioInterface.hpp:379-383 | Saves the fields of the outer layer and starts an inner one without security |
| `PacketWriter.PacketWriter.Pop` | software/control/src/RadioInterface.hpp:385-390 | Restores exactly the saved fields |
| `PacketWriter.PacketWriter.ClearSecurityLevel` | software/control/src/RadioInterface.hpp:371-373 | Changes the level bits of the control octet of the layer and no other octet |
| `PacketWriter.PacketWriter.Finish` | software/control/src/RadioInterface.hpp:395-401 | Sets length and send flags around the unchanged packet |
| `PacketWriter.RadioInterface.WriteFooter` | software/control/src/RadioInterface.cpp:1008-1045 | Seals the layer under the key that its control octet selects and clears the level on the wire |
| `PacketWriter.RadioInterface.WriteNestedCommand` | software/control/src/RadioInterface.cpp:1926-1952 | Header, push, command, inner footer, pop and outer footer leave exactly the nested frame in the packet |
| `PacketWriter.NestedCommandOpens` | software/control/src/RadioInterface.cpp:1926-1952 | What that sequence writes, the receiver opens to the same command and data |
| `PacketReader.PacketReader.Decrypt` | software/protocol/src/MessageReader.hpp:257-271 | Cuts off the integrity code, opens in place, and reports acceptance of the original octets |
| `PacketReader.NwkStage` | software/control/src/RadioInterface.cpp:1542-1645 | The in-place network stage succeeds exactly when the frame opens, and then the payload is what is left to read |
| `PacketReader.ApsStage` | software/control/src/RadioInterface.cpp:1808-1867 | The in-place application stage succeeds exactly when the command opens, and then its content is what is left to read |
| `BusInterface.EraseElement` | software/control/src/Interface.hpp:90-100 | In-place compaction keeps the other ids, all of them and in their order |
| `BusInterface.BusInterface.constructor` | software/control/src/BusInterface.cpp:25-75 | The loading loop computes the loaded interface from storage, dropping unusable ids in place |
| `BusInterface.BusInterface.AllocateId` | software/control/src/BusInterface.cpp:253-265 | Finds the smallest id that is not taken, or reports that all are |
| `BusInterface.BusInterface.AllocateDeviceId` | software/control/src/BusInterface.cpp:267-281 | The same for device ids |
| `BusInterface.HandleCommission` | software/control/src/BusInterface.cpp:561-593 | Refuses or starts a commissioning without touching the interface |
| `BusInterface.Commissioning.PlugListArrived` | software/control/src/BusInterface.cpp:636-663 | Reuses the id of the former endpoint or takes a fresh one, and the interface's devices and ids stay as they are |
| `BusInterface.Commissioning.ModelIdentifierArrived` | software/control/src/BusInterface.cpp:666-676 | Appends the endpoint at the position that is its index on the device |
| `BusInterface.Commissioning.Finish` | software/control/src/BusInterface.cpp:679-728 | Erasing, relinking and storing step by step commits the whole transaction |
| `BusRun.FreeIdExists` | software/control/src/BusInterface.cpp:253-265 | With fewer than 255 ids taken there is always a free one, at most one above their number |
| `BusModel.IdsAreEndpointIds` | software/control/src/BusInterface.cpp:627-728 | In a consistent interface the ids are exactly those of all endpoints of all devices, without 0 |
| `BusModel.NewDeviceInOrder` | software/control/src/BusInterface.cpp:627-683 | After a commit the list of ids has the endpoints of the new device in their order on the device |
| `BusModel.OtherDeviceInOrder` | software/control/src/BusInterface.cpp:679-706 | A commit keeps the order of the ids of every other device |
| `BusModel.CommitConsistent` | software/control/src/BusInterface.cpp:679-728 | Whatever the device answered, after the commit ids, devices and storage describe the same endpoints |
| `BusRun.LoadRestores` | software/control/src/BusInterface.cpp:28-75 | Loading gives back the ids in order and the same devices, each with its endpoints in the same order |
| `BusRun.NextGood` | software/control/src/BusInterface.cpp:561-728 | Every step, abort, cancellation, change of name and restart keeps the interface consistent |
| `BusInterface.TakeAnswers` | software/control/src/BusInterface.cpp:627-677 | Over any sequence of plug lists and names, each a step on the shared id array, the interface's devices, ids and storage stay as they are, while the working data follows the state machine |
| `BusInterface.Commission` | software/control/src/BusInterface.cpp:561-728 | A commissioning is a transaction: dropped after any answers it leaves the interface as it was; completed it makes the state machine's transition |
| `CommissionLaws.Commissioned` | software/control/src/BusInterface.cpp:561-728 | After a commissioning for which there is room: the device has the endpoints that it has told about, in order, with their plugs and names, under the ids of those that they replace and new ids beyond; all other devices are as before; so it is after a restart, too |
| `CommissionLaws.CommissionedNothing` | software/control/src/BusInterface.cpp:679-728 | A device that tells of no endpoints is gone, and the others are as before |
| `CommissionLaws.RefusedExactly` | software/control/src/BusInterface.cpp:566-587 | A commissioning is refused if and only if the device is not known and 128 elements or all 72 device ids are taken |
| `CommissionLaws.NamedExactly` | software/control/src/BusInterface.cpp:125-133 | A new name goes to the endpoint with that id, in memory and storage, and nothing else changes |
| `PowerLoss.LoadGives` | software/control/src/BusInterface.cpp:28-75 | From any storage, consistent or not, loading gives each device its usable entries in the order of the ids |
| `PowerLoss.LastWriteCommits` | software/control/src/BusInterface.cpp:704-723 | After the list of ids and all endpoints only the entry of the device is left to write |
| `PowerLoss.OtherDeviceLoaded` | software/control/src/BusInterface.cpp:704-723 | After a power failure between any two writes of a commit, another device is loaded with its own endpoints and the left over ones, in the order of the new ids |
| `PowerLoss.OthersIntactExactly` | software/control/src/BusInterface.cpp:704-723 | It is loaded as it was if and only if no new id whose entry is not written yet has a left over entry of it |
| `PowerLoss.LeftoversStay` | software/control/src/BusInterface.cpp:679-723 | A device that is commissioned again with fewer endpoints leaves entries of the others behind |
| `LeftoverRun.LeftoverHappens` | software/control/src/BusInterface.cpp:561-728 | A run from the empty interface, with two endpoints, then one, then another device, after which a power failure gives the first device its lost endpoint back |
| `BusRun.RunGood` | software/control/src/BusInterface.cpp:25-75 | Over every run the interface is consistent, and a restart would restore it |
| `SecurityCounter.NextSafe` | software/control/src/BusInterface.cpp:731-773 | Each step of each coroutine keeps numbers in flight distinct and what may be sent below the stored value |
| `SecurityCounter.NoCounterReused` | software/control/src/BusInterface.cpp:882-919 | In every interleaving with cancellations and restarts, without failed writes, no two sent messages have the same number; equal 32-bit registers are at least 2^32 messages apart |
| `SecurityCounter.NextUnrepeatedExactly` | software/control/src/BusInterface.cpp:77-81 | Failed writes included, a step keeps numbers distinct and below the counter, except a restart exactly when the stored value does not cover what has been sent |
| `SecurityCounter.RunUnrepeated` | software/control/src/BusInterface.cpp:882-919 | Whatever writes fail, no number is repeated over a run whose restarts find everything covered |
| `SecurityCounter.RepeatsExactly` | software/control/src/BusInterface.cpp:77-81 | From any state a restart can lead to a repeated number if and only if a message has been sent whose number is not below the stored value |
| `SecurityCounter.FailedWriteReuses` | software/control/src/BusInterface.cpp:914-919 | A failed write leaves such a state, and after a restart the next message repeats the number |
| `SecurityCounter.LaterWriteCovers` | software/control/src/BusInterface.cpp:914-919 | A later write that is stored makes up for a failed one |
| `SystemTime.DiffIsElapsed` | software/system/src/SystemTime.hpp:153-171 | Over less than half the range of the clock the signed difference of two registers is the true one |
| `TimedBlind.Coroutine.Wake` | software/control/src/FunctionInterface.cpp:685-794 | One turn of the coroutine updates its local variables as the function on values does |
| `TimedBlind.ReachedPosition` | software/control/src/FunctionInterface.cpp:703-717 | The position after a turn: moved by the time passed, up to the target |
| `TimedBlind.PressStops` | software/control/src/FunctionInterface.cpp:743-746 | A press of rocker or trigger stops a moving blind at the position that it has reached |
| `TimedBlind.RockerLaw` | software/control/src/FunctionInterface.cpp:736-742 | A press sends a stopped blind to 0 or to its lowest position, unless going down is disabled |
| `TimedBlind.TriggerLaw` | software/control/src/FunctionInterface.cpp:733-735 | The trigger sends a stopped blind away from the end where it is, and from between back where it came from |
| `TimedBlind.ReleaseLaw` | software/control/src/FunctionInterface.cpp:724-728 | A release stops the blind if and only if the hold time has passed since the start |
| `TimedBlind.HoldTimePassed` | software/control/src/FunctionInterface.cpp:724-728 | The registers compare like the true times |
| `TimedBlind.PositionLaw` | software/control/src/FunctionInterface.cpp:749-767 | A position message sets the target within the range, or moves it by a step |
| `TimedBlind.EnableLaw` | software/control/src/FunctionInterface.cpp:768-776 | Disabling stops a blind on its way down at once |
| `TimedBlind.MotorLaw` | software/control/src/FunctionInterface.cpp:778-787 | A blind elsewhere than its target starts toward it and notes the time; a moving one keeps direction and start time |
| `TimedBlind.TurnSettles` | software/control/src/FunctionInterface.cpp:774-787 | After every turn the blind is stopped exactly when it is at its target |
| `TimedBlind.TurnDistance` | software/control/src/FunctionInterface.cpp:703-717 | A moving blind travels the elapsed time or the distance to the target, whichever is less |
| `TimedBlind.RangeLostExactly` | software/control/src/FunctionInterface.cpp:749-776 | A turn takes position or target out of range if and only if a position message asks for a target below it, or above it while going down is not disabled; only steps do |
| `TimedBlind.RangeLostHappens` | software/control/src/FunctionInterface.cpp:756-760 | A step that does so |
| `TimedBlind.TargetBehindExactly` | software/control/src/FunctionInterface.cpp:749-787 | A moving blind loses its direction if and only if a position message puts the target behind it |
| `TimedBlind.TargetBehindHappens` | software/control/src/FunctionInterface.cpp:685-794 | A run from the start of the coroutine, up and then to the lowest position, after which the blind moves away from its target |
| `TimedBlind.TargetBehindJumps` | software/control/src/FunctionInterface.cpp:709-717 | Such a blind is taken to be at its target at the next timeout |
| `TimedBlind.RunSafe` | software/control/src/FunctionInterface.cpp:685-794 | Over every run, position messages included: stopped exactly at the target, never down while that is disabled; in range without steps, and always toward the target without position messages |
| `TimedBlind.SlicingDoesNotMatter` | software/control/src/FunctionInterface.cpp:692-717 | While the target stays, the position depends on the time passed only, however wake-ups slice it and the clock wraps |
| `TimedBlind.StopsInTime` | software/control/src/FunctionInterface.cpp:689-717 | Once messages stop, the blind stops within one timeout for every started 200 ms of distance, one if the target is behind it |
| `AnimatedLight.Coroutine.Resume` | software/control/src/FunctionInterface.cpp:480-538 | The end of a wait: command, next step and end of the transition, as the function on values says |
| `AnimatedLight.Coroutine.Advance` | software/control/src/FunctionInterface.cpp:474-649 | One turn updates the local variables and publishes as the function on values does |
| `AnimatedLight.TickOk` | software/control/src/FunctionInterface.cpp:523-535 | After the clock part a transition that is left strictly contains the current time |
| `AnimatedLight.TurnDefined` | software/control/src/FunctionInterface.cpp:549-628 | Whenever a turn divides by the length of a fade, that length is positive |
| `AnimatedLight.ContinuousExactly` | software/control/src/FunctionInterface.cpp:549-576 | Starting or reversing a fade keeps its level if and only if the new fade takes time or the light already has the level at which it ends, whatever the two fade times are |
| `AnimatedLight.NoFadeJumps` | software/control/src/FunctionInterface.cpp:549-576 | Switching on with a fade time of zero jumps from dark to full |
| `AnimatedLight.PublishInRange` | software/control/src/FunctionInterface.cpp:591-642 | Published brightness is between 0 and 1 and no published fade time is negative |
| `AnimatedLight.PublishedOnLevel` | software/control/src/FunctionInterface.cpp:591-642 | The published brightness is that of the animation step scaled by the level that the fade will have at the next step or, if that is earlier, at its end |
| `AnimatedLight.PublishedInTimeExactly` | software/control/src/FunctionInterface.cpp:591-642 | The published fade time ends just then if and only if: the step begins now where the next step comes first; nothing was merged where the light has just been switched; the step takes as long as the fade on; whole tenths of a second remain of the fade off |
| `AnimatedLight.BeginsNowExactly` | software/control/src/FunctionInterface.cpp:549-559 | The fade of a light that has just been switched begins now if and only if it merges no other one or takes no time |
| `AnimatedLight.MergedFadeLate` | software/control/src/FunctionInterface.cpp:549-626 | A light switched off half way through a fade of two seconds is told to take two more, though its fade ends after one |
| `AnimatedLight.RunSafe` | software/control/src/FunctionInterface.cpp:474-649 | After every run from the start of the coroutine the next turn divides safely, publishes in range and as the level of the fade says, in time exactly under the condition above, and continues the level of a fade that it starts or reverses exactly under that condition |
| `LightLaws.StepLaw` | software/control/src/FunctionInterface.cpp:523-531 | A turn at or after the time of the next step goes to the next step, modulo their number; any other turn keeps the step |
| `LightLaws.StepAfterRun` | software/control/src/FunctionInterface.cpp:474-531 | After every run from the start of the coroutine the step is the number of such turns modulo the number of steps |
| `LightLaws.SwitchLaw` | software/control/src/FunctionInterface.cpp:486-546 | What off, on, toggle, other messages and the timer do to the switch |
| `LightLaws.TimeoutLaw` | software/control/src/FunctionInterface.cpp:489-519 | The timer switches off only when the timeout has passed, and stays on only when something else came first |
| `LightLaws.OffTimeLaw` | software/control/src/FunctionInterface.cpp:543-546 | Exactly the messages that leave the light on start its timeout again |
| `LightLaws.FadeTimeLaw` | software/control/src/FunctionInterface.cpp:500-576 | A light that is switched fades in its time for on, for off, or for the timeout |
| `LightLaws.TransitionLaw` | software/control/src/FunctionInterface.cpp:533-576 | A transition ends with its time or when a message leaves the switch as it is |
| `LightLaws.PublishLaw` | software/control/src/FunctionInterface.cpp:578-650 | What is published when: exactly for a change of the switch, a transition cut short or a next step of a light that is not dark |
| `LightLaws.PublishedFadeLaw` | software/control/src/FunctionInterface.cpp:591-628 | The published fade time in each of these cases |
| `LightLaws.BrightnessLaw` | software/control/src/FunctionInterface.cpp:596-631 | The published brightness in numbers: that of the step, scaled by how far the fade will have come at the next step, or 0 if the light is off by then |
| `LightLaws.TimesLaw` | software/control/src/FunctionInterface.cpp:505-517 | Which time to fade off is remembered, and when the next step comes |
| `MqttSn.ParseEncoded` | software/node/src/MqttSnBroker.hpp:96-136 | What a packet writer writes, a packet reader reads back |
| `MqttSn.QosSurvives` | software/protocol/src/mqttsn.hpp:38-69 | The flags carry the quality of service through a retransmission, and the duplicate mark is set once |
| `MqttSn.DrawCounts` | software/node/src/MqttSnBroker.hpp:157-160 | Message ids count from 1 to 65535, over any number of draws from any start |
| `MqttSn.IdsDistinct` | software/node/src/MqttSnBroker.hpp:157-160 | No drawn id is 0, and any 65535 consecutive ones are distinct |
| `MqttSn.IdsRepeat` | software/node/src/MqttSnBroker.hpp:157-160 | The ids have period 65535 |
| `Forward.AcceptedExactly` | software/node/src/MqttSnBroker.cpp:1214-1225 | A positive acknowledge stops the attempts if and only if it is longer than the protocol's |
| `Forward.AcceptedInsideExactly` | software/node/src/MqttSnBroker.cpp:1119-1130 | An acknowledge stays inside the buffer that it is copied into if and only if it has at most eight octets, and also stops the attempts if and only if it has six to eight |
| `Forward.SentAt` | software/node/src/MqttSnBroker.cpp:1188-1230 | Attempts differ in the duplicate flag only, number at most three, and go on exactly while nothing stops them |
| `Forward.TargetsHaveOwnIds` | software/node/src/MqttSnBroker.cpp:1170-1173 | Different targets of a job have different message ids, other coroutines drawing in between, up to 65534 draws apart |
| `Forward.ForwardedFaithfully` | software/node/src/MqttSnBroker.cpp:1135-1234 | Whatever tables and acknowledges the forwarder finds: a connection is sent the message exactly if its tables ask for it and it is not the source; each packet decodes to the same data, topic, id and quality, marked as duplicate exactly on retransmissions |
| `Forward.PubackSendsThrice` | software/node/src/MqttSnBroker.cpp:1203-1230 | A connection that acknowledges as the protocol says is sent every message three times |
| `ForwardLaws.SentExactly` | software/node/src/MqttSnBroker.cpp:1152-1230 | Who is sent a message and how often, written out in connection, quality of service and the octets of the acknowledges |
| `ForwardLaws.PacketOctets` | software/node/src/MqttSnBroker.cpp:1170-1195 | Every octet of every packet: length, type, flags with quality of service and duplicate mark, topic id of gateway or client, message id, data |
| `ForwardLaws.LongParsed` | software/node/src/MqttSnBroker.hpp:96-136 | A packet whose length takes three octets is read alike |
| `ForwardLaws.TrailingIgnored` | software/node/src/MqttSnBroker.hpp:96-136 | What follows a packet does not matter |
| `Delivery.TakenExactly` | software/node/src/MqttSnBroker.cpp:1019-1025 | For any sequence of packets of a topic: an attempt is new exactly if another message that asks for an acknowledge has arrived since every earlier attempt, and since the start if the topic started with the message's mark |
| `Delivery.ForwardedExactly` | software/node/src/MqttSnBroker.cpp:1019-1048 | An attempt is forwarded exactly if it is new and a forwarding coroutine waits |
| `Delivery.OnceExactly` | software/node/src/MqttSnBroker.cpp:1019-1048 | While forwarders wait, a message is forwarded once, however many of its attempts arrive among whatever other packets, if and only if an attempt arrives that the topic does not take for its last message and from then on no other message that asks for an acknowledge arrives between two attempts |
| `Delivery.DeliveredOnce` | software/node/src/MqttSnBroker.cpp:1019-1048 | For the attempts of a job, any of them lost, reordered or mixed with other packets: what is forwarded is the job's data, and it is forwarded once exactly under that condition |
| `Delivery.AttemptsAlone` | software/node/src/MqttSnBroker.cpp:1019-1048 | Attempts with nothing in between make one message |
| `Delivery.Unacknowledged` | software/node/src/MqttSnBroker.cpp:1201-1202 | A message without acknowledge is sent once and is new whenever it arrives |
| `Delivery.Alternating` | software/node/src/MqttSnBroker.cpp:1019-1025 | Two messages whose attempts alternate are forwarded again with every attempt |
| `Delivery.LostWhenBusy` | software/node/src/MqttSnBroker.cpp:1019-1048 | After an attempt, whether it was forwarded or lost, no retransmission is forwarded until another message arrives |
| `ForwardRun.SentToSubscribers` | software/node/src/MqttSnBroker.cpp:1152-1170 | While the tables change during every wait: a slot is sent the message exactly if the client that holds it when the forwarder comes to it has the topic in its session and is not the source |
| `ForwardRun.AttemptGoesTo` | software/node/src/MqttSnBroker.cpp:1187-1212 | Every attempt goes to a connected client; it is the client of the first attempt if and only if the slot has not been opened since, or was opened for it last; and it is subscribed exactly if the slot still has a quality of service |
| `ForwardRun.StayingClientGetsAll` | software/node/src/MqttSnBroker.cpp:1187-1212 | All attempts go to a client that does not disconnect meanwhile |
| `ForwardRun.RetransmittedToAnother` | software/node/src/MqttSnBroker.cpp:1187-1212 | If the client leaves and another one takes its slot during the wait, the retransmission goes to that one, which has not subscribed |
| `ForwardRun.TakeoverHappens` | software/node/src/MqttSnBroker.cpp:1187-1212 | A run from the empty broker in which that happens |
| `Forward.Forwarder.SendTo` | software/node/src/MqttSnBroker.cpp:1188-1230 | The retry loop over one shared buffer sends these packets and leaves the data in place |
| `Forward.Forwarder.Run` | software/node/src/MqttSnBroker.cpp:1152-1234 | The loop over the connections sends to each what the job says, drawing ids as it goes |
| `Sessions.FullExactly` | software/node/src/MqttSnBroker.cpp:790-800 | A free slot for a new client is missing exactly when there are 31 clients |
| `Sessions.StepRefines` | software/node/src/MqttSnBroker.cpp:772-947 | The slot tables answer every message as a store of sessions by endpoint would, and keep standing for it |
| `Sessions.RunRefines` | software/node/src/MqttSnBroker.cpp:748-1100 | So over every run of client messages, gateway events and local subscriptions |
| `Sessions.ConfirmedExactly` | software/node/src/MqttSnBroker.cpp:870-905 | A confirmed subscription is stored if and only if its quality of service is not -1 |
| `Sessions.SubscribedExactly` | software/node/src/MqttSnBroker.hpp:204-212 | A topic counts as subscribed if and only if it is locally or in the session of a connected client |
| `Sessions.ReceiversExactly` | software/node/src/MqttSnBroker.cpp:1157-1170 | A connected slot with a subscription exists for an endpoint exactly if its session has the topic with that quality of service |
| `Sessions.ReachableTables` | software/node/src/MqttSnBroker.cpp:772-1100 | In every reachable state used client slots have distinct endpoints and unused ones no subscriptions |
| `TopicLaws.NamesAlways` | software/node/src/MqttSnBroker.cpp:333-337 | In every reachable state the names of the topics are pairwise different and not empty, at most 1024, with at most 32768 characters |
| `TopicLaws.NamesAfter` | software/node/src/MqttSnBroker.cpp:832-905 | A name is added exactly if somebody who may asks for it, it is new, and there is room; otherwise the names stay |
| `TopicLaws.SameTopicExactly` | software/node/src/MqttSnBroker.cpp:832-905 | Over any run, two clients are told the same topic id if and only if they asked for the same name |
| `TopicLaws.SubscribeAnswer` | software/node/src/MqttSnBroker.cpp:882-911 | The answer to every subscription: refused for the gateway, strangers, empty names and lack of room; otherwise the place of the name |
| `TopicLaws.RegisterAnswer` | software/node/src/MqttSnBroker.cpp:842-868 | The same for registrations, where the gateway keeps its own id |
| `TopicLaws.GatewayTopicAfter` | software/node/src/MqttSnBroker.cpp:842-862 | What every message does to the gateway's id of every topic |
| `TopicLaws.ConnectionAnswers` | software/node/src/MqttSnBroker.cpp:772-831 | Who is told what when connecting, disconnecting and unsubscribing |
| `TopicLaws.ClientsAfter` | software/node/src/MqttSnBroker.cpp:782-812 | Who is a client after a message |
| `TopicLaws.QualityAfter` | software/node/src/MqttSnBroker.cpp:803-940 | What every message does to the subscription of every client to every topic |
| `TopicLaws.ServedSince` | software/node/src/MqttSnBroker.cpp:748-1100 | After any run, messages of a topic go to a client with some quality of service if and only if the broker has confirmed such a subscription and nothing has ended or changed it since |
| `ForwardLaws.PublishReaches` | software/node/src/MqttSnBroker.cpp:963-1195 | Whatever has happened before: who publishes under the id that it was told for a name reaches every other client whose subscription to that name was confirmed and not ended since, under the id that this client was told |
| `MqttSnBroker.MqttSnBroker.OnConnect` | software/node/src/MqttSnBroker.cpp:772-821 | Search, slot allocation and the loop over the topics make the step for CONNECT |
| `MqttSnBroker.MqttSnBroker.OnSubscribe` | software/node/src/MqttSnBroker.cpp:870-912 | Makes the step for SUBSCRIBE |
| `MqttSnBroker.MqttSnBroker.OnUnsubscribe` | software/node/src/MqttSnBroker.cpp:913-947 | Makes the step for UNSUBSCRIBE |
| `MqttSnBroker.MqttSnBroker.OnRegister` | software/node/src/MqttSnBroker.cpp:832-869 | Makes the step for REGISTER |
| `MqttSnBroker.MqttSnBroker.OnDisconnect` | software/node/src/MqttSnBroker.cpp:1087-1100 | Makes the step for DISCONNECT |
| `MqttSnBroker.MqttSnBroker.OnPublish` | software/node/src/MqttSnBroker.cpp:1019-1048 | Forwards exactly what is not a repetition of the topic's last message while a forwarding coroutine waits, takes that coroutine, and marks the message in any case |
| `MqttSnBroker.MqttSnBroker.OnPublishes` | software/node/src/MqttSnBroker.cpp:1019-1048 | Over any sequence of arrivals the method forwards what the model of deliveries says |
| `MqttSnBroker.MqttSnBroker.IsClientSubscribed` | software/node/src/MqttSnBroker.hpp:204-212 | The loop answers whether anyone is subscribed |
| `MqttSnBroker.MqttSnBroker.ResolveTopic` | software/node/src/MqttSnBroker.cpp:975-989 | The topic that a client publishes to, by id or by short name |
| `StringHash.StringHash.Locate` | software/util/src/StringHash.hpp:115-132 | Walking through the table finds a key if and only if it is stored |
| `StringHash.StringHash.GetOrPut` | software/util/src/StringHash.hpp:141-173 | Finds the key, or stores it at a free place if there is room for one more key and its characters; everything stored stays at its place |
| `StringHash.NotMissed` | software/util/src/StringHash.hpp:145-156 | A walk that ends at a free place has not missed the key |
| `StringHash.StoredOk` | software/util/src/StringHash.hpp:158-173 | Storing there keeps every key within reach of its walk |
| `StringHash.SamePlaceExactly` | software/util/src/StringHash.hpp:141-173 | Over any run of requests two get the same place if and only if their keys are equal |
| `StringHash.KeyBackExactly` | software/util/src/StringHash.hpp:15-18 | A key is read back from its packed length and offset if and only if it is shorter than 16384 characters |
| `TopicTable.RequestAgrees` | software/node/src/MqttSnBroker.cpp:333-337 | The table and the list of names take or refuse the same names, and keep standing for each other |
| `TopicTable.FindGatewayTopic` | software/node/src/MqttSnBroker.cpp:966-992 | The search for a topic by the id of the gateway |
| `TopicTable.KnownFoundExactly` | software/node/src/MqttSnBroker.cpp:966-992 | A topic that alone has the id is found if and only if its place is not beyond 1024 |
| `TopicTable.UnknownRejectedExactly` | software/node/src/MqttSnBroker.cpp:966-992 | A message under an id that no place has is rejected if and only if place 1024 is free; otherwise the topic there gets it |
| `TopicTable.UnknownHappens` | software/node/src/MqttSnBroker.cpp:966-992 | It happens for a first name whose hash leads to place 1024 |
| `TopicTable.LostHappens` | software/node/src/MqttSnBroker.cpp:966-992 | A first name whose hash leads beyond it never gets what the gateway publishes |
| `Clusters.ClientOfPlug` | software/control/src/RadioInterface.cpp:411-425 | For every list of brackets the client look-up gives cluster and range of the client bracket that added the plug, and the empty entry for plugs of servers |
| `Clusters.NoClientOutside` | software/control/src/RadioInterface.cpp:411-425 | It gives the empty entry for indices out of range |
| `Clusters.FirstServer` | software/control/src/RadioInterface.cpp:396-409 | The server look-up gives the range of the first server bracket of the cluster with plugs, or an empty range |
| `Clusters.PlugsOf` | software/control/src/RadioInterface.hpp:212-233 | The range of a bracket holds exactly the plugs that were added in it |
| `Clusters.BracketOf` | software/control/src/RadioInterface.hpp:212-233 | Every plug is in the range of some bracket |
| `Clusters.BracketsDisjoint` | software/control/src/RadioInterface.hpp:212-233 | No plug is in the ranges of two brackets |
| `ClusterBuilder.EndpointDataBuilder.AddServer` | software/control/src/RadioInterface.hpp:212-223 | A server bracket extends plugs and server entries, and the client entries at the other end stay |
| `ClusterBuilder.EndpointDataBuilder.AddClient` | software/control/src/RadioInterface.hpp:212-233 | A client bracket extends plugs and client entries, and the server entries stay |
| `ClusterBuilder.EndpointDataBuilder.Build` | software/control/src/RadioInterface.cpp:356-384 | A buffer of just the needed size holds plugs, servers and clients afterwards, none overwriting another |
| `ClusterBuilder.StoredOctets` | software/control/src/RadioInterface.cpp:356-384 | Where each octet of a plug or a cluster entry is stored |
| `ClusterBuilder.EndpointDataBuilder.SizeExactly` | software/control/src/RadioInterface.cpp:350-354 | Builder and data agree on the size if and only if not all 32 entries are clients; then the size is too small |
| `ClusterBuilder.Describe` | software/control/src/RadioInterface.cpp:2886-2950 | Any brackets that fit are what the stored data holds, in a buffer of exactly the size that the builder gives, unless all entries are clients |
| `ClusterBuilder.AllClients` | software/control/src/RadioInterface.cpp:350-354 | 32 client brackets fit |
| `ClusterBuilder.EndpointData.FindServerCluster` | software/control/src/RadioInterface.cpp:396-409 | The search through the packed buffer is the look-up in the list |
| `ClusterBuilder.EndpointData.GetClientCluster` | software/control/src/RadioInterface.cpp:411-425 | The search through the packed buffer is the look-up in the list |
| `Hash.PaddingInjective` | software/protocol/src/hash.cpp:28-49 | Different inputs of any lengths are padded differently |
| `Hash.BlockCountsAgree` | software/protocol/src/hash.cpp:34-47 | The padding is the shortest one, except for one block when the length modulo 16 is 13 |
| `Hash.FollowsStandardExactly` | software/protocol/src/hash.cpp:4-54 | Below 8192 octets the hash is that of ZigBee 05-3474, section B.6, under every cipher exactly if the length modulo 16 is not 13 |
| `Hash.HashIs` | software/protocol/src/hash.cpp:4-54 | For inputs of any length the hash is the chain of the standard over the padded octets, in (n + 3) / 16 + 1 blocks |
| `Hash.KeyHashIs` | software/protocol/src/hash.cpp:56-76 | HMAC over this hash is HMAC over the standard's for every key and octet |
| `Hash.Hash` | software/protocol/src/hash.cpp:4-54 | The loop and the tail compute the Matyas-Meyer-Oseas chain over the padded input |
| `Hash.KeyHash` | software/protocol/src/hash.cpp:56-76 | Computes HMAC of RFC 2104, section 2, over this hash |
| `Crc.EntryDivides` | software/protocol/src/crc.cpp:6-23 | Each of the 256 table entries is the remainder of its octet, divided bit by bit |
| `Crc.TurnDivides` | software/protocol/src/crc.cpp:27-29 | A table look-up does what eight bit-wise divisions do, for every register and octet |
| `Crc.Crc16` | software/protocol/src/crc.cpp:25-31 | The loop computes the remainder of the bit-wise division |
| `Crc.CheckChained` | software/protocol/src/crc.cpp:25-31 | The check value of a concatenation is that of the second part from the check value of the first |
| `Crc.HelloWorld` | software/protocol/test/protocolTest.cpp:21-27 | The check value of the text that the repository gives for the initial register 0xffff |
| `Crc.RemainderSum` | software/protocol/src/crc.cpp:25-31 | The remainder is linear in register and message |
| `Crc.BurstDetected` | software/protocol/src/crc.cpp:25-31 | Messages of equal length that differ within 16 consecutive bits have different check values |
| `Crc.AdjacentOctetsDetected` | software/protocol/src/crc.cpp:25-31 | So do messages that differ in two adjacent octets at most |
| `SwapModel.StepOk` | software/control/src/SwapChain.cpp:4-61 | From every good state, each step of transfer or menus runs without a failing assertion and leads to a good state |
| `SwapModel.ReachableOk` | software/control/src/SwapChain.cpp:4-61 | In every interleaving the bitmaps are partitioned over free ring, show slot, transfer and client, and none waits while the transfer coroutine sleeps |
| `SwapLaws.ShownIsSent` | software/control/src/SwapChain.cpp:4-61 | However transfers, menus and clock interleave, the display is sent exactly what was handed over to be shown and not taken back, in that order; only the last of it may still wait |
| `SwapLaws.TransferLaw` | software/control/src/SwapChain.cpp:42-61 | What the end of a transfer does: the bitmap is free behind the others, and the waiting one is sent |
| `SwapLaws.ClockLaw` | software/control/src/RoomControl.cpp:1141-1177 | Without menus a bitmap is taken and handed over |
| `SwapLaws.OpenLaw` | software/control/src/Menu.cpp:8-10 | A menu begins with a bitmap, the waiting one or the one that is free for longest |
| `SwapLaws.EntryLaw` | software/control/src/Menu.cpp:43-68 | The selected entry of an activated menu, and no other, gives the bitmap back |
| `SwapLaws.EditLaw` | software/control/src/Menu.cpp:70-88 | An edited entry takes the activation; a removed one moves the selection |
| `SwapLaws.ShowLaw` | software/control/src/Menu.cpp:90-150 | A pass shows the bitmap and waits, or draws again |
| `SwapLaws.WakeLaw` | software/control/src/Menu.hpp:143-148 | However a wait ends the menu has a bitmap to draw into |
| `Menu.SwapChain.GetBitmap` | software/control/src/SwapChain.cpp:4-26 | The ring with its wrap-around is a queue; a bitmap that waits to be shown is taken back first |
| `Menu.SwapChain.PutBitmap` | software/control/src/SwapChain.cpp:28-33 | Appends to the queue |
| `Menu.SwapChain.ShowBitmap` | software/control/src/SwapChain.cpp:35-40 | Hands the bitmap to the transfer coroutine if that sleeps, otherwise lets it wait |
| `Menu.SwapChain.DisplayReady` | software/control/src/SwapChain.cpp:42-61 | Puts the sent bitmap back and takes the next one |
| `Menu.Menu.Entry` | software/control/src/Menu.cpp:43-68 | An activated entry gives the bitmap back; any other leaves bitmap and swap chain alone |
| `Menu.Menu.ShowMenu` | software/control/src/Menu.cpp:90-150 | Shows the bitmap or gets one, up to the wait |
| `Menu.Menu.EndWait` | software/control/src/Menu.hpp:143-148 | When the wait ends or is cancelled the menu has a bitmap again |
| `BusCode.ReadArbiter` | software/protocol/src/bus.cpp:13-22 | The shift loop finds the position of the lowest one |
| `BusCode.CountCode` | software/protocol/src/bus.hpp:77-79 | Every value from 0 to 8 is read back |
| `BusCode.CodesAre` | software/protocol/src/bus.hpp:77-79 | The codes of all nine values |
| `BusCode.DigitsAre` | software/protocol/src/bus.cpp:35-40 | The eleven digits that are written for an id: three bits each, the lowest first, plus one |
| `BusCode.AndIsLeast` | software/protocol/src/bus.hpp:72-79 | Of two codes on the wired-and bus the lower value survives |
| `BusCode.LeastSurvives` | software/protocol/src/bus.hpp:72-79 | Of any number of writers one survives completely, and its message is the lexicographically least |
| `BusCode.IdBack` | software/protocol/src/bus.cpp:24-38 | Every 32-bit id is read back |
| `BusCode.ReadId` | software/protocol/src/bus.cpp:24-30 | The loop with its growing shift computes the id from the octets |
| `BusCode.WriteId` | software/protocol/src/bus.cpp:35-40 | Writes the eleven codes and nothing else |
| `BusCode.EnumerationRead` | software/system/src/BusMaster.hpp:22-26 | When devices enumerate together the master reads the id of one of them, the least in low-digit-first order |
| `BusCode.Priorities` | software/control/src/BusInterface.cpp:602-606 | A commissioning message beats every enumeration and an enumeration every address |
| `BusCode.AddressBackExactly` | software/protocol/src/bus.hpp:53-90 | An address is read back if and only if it is at most 71, and its code never starts with 0 |

## Left out

- The AES block function is an arbitrary function of a block (for the hash, of key and block); key expansion is not modelled.
- Radio, network, timers, storage and the display are events and parameters; coroutine internals are replaced by atomic steps between waits.
- PacketReader.NwkStage: asks for complete headers and an integrity code; the receiver does not look at the length and reads what is left in its buffer behind a short frame.
- PacketReader.ApsStage: the same for the application header.
- MQTT-SN packets that are cut off inside the header count as no packets.
- Source routes in written network frames: the writer never writes them; the reader skips them.
- The security counters that the radio receiver stores for its devices, which it only reports when they go backwards.
- BusInterface.BusInterface.constructor: an entry of the wrong size counts as absent; the security counter is loaded in the model of the counter.
- BusInterface.Commissioning.Finish: subscribers that move from a replaced device to its successor, and the stored counter of the device. A power failure between its writes is modelled on values.
- Plugs of a bus device arrive as decoded lists; names are strings without the limit of their storage.
- Erasing a bus device or a radio device: the loop over the endpoints of a device does not advance.
- A failed counter write is an event of its own; that storage keeps the order of writes is assumed in one of the two storage models and not in the other.
- The clock is looked at once per turn of the blind and the light; overflow of the 32-bit position of a blind by steps and the rounding of fractions are not modelled. Colours of the light are left out, as are the other function blocks.
- AnimatedLight.RunSafe: times are real numbers that never wrap; there is at least one animation step.
- Sessions.Obtain: topics are a list in the order of their creation, and a topic id is a position in it; that the hash table takes the same names and keeps them apart is `TopicTable.RequestAgrees`. The bit fields are lists of flags.
- StringHash.StringHash.GetOrPut: asks for keys below 16384 characters, beyond which a key is not read back; names come in packets of one network message.
- Forward.Fits: the debug assertion in the packet writer that the buffer is not full; it fails for 57 octets of data, which the model forwards as the release build does.
- Publishing by local publishers and the keep-alive exchange of the broker: only what they do to the tables and to the message ids is modelled.
- MQTT-SN client names, wills and sleeping clients.
- The cluster builder does not check its capacity; the brackets here fit. An allocation that is too small is reported.
- The pixels of the bitmaps and the layout of menus. One menu at a time is active; that each nested menu is opened after an activated entry is how the menus are written.
- Encryption of bus messages, which uses the sealing modelled for the radio, and the acknowledge of the bus.
- Room control, drawing, device drivers, message conversions and generated tables.
