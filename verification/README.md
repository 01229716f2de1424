# A verified model of the BACnet controller example and its wire-test library

This project models, in Dafny, the parts of the repository where mistakes are easy to make and
hard to see, and proves what they are for:

- **The tag codec** (`wiretest/codec.py`, `services.py`, `alarm.py`). Octets are `seq<byte>`,
  Python's truncating slices and its exceptions are explicit, and `read_tag` is a partial
  function. The reference for constructed data is a recursive descent that builds a tree; the
  depth-counting loops are proved equal to it on every octet string, failures included, and the
  descent is proved sound and complete for encoded forests of any depth. On that rest the round
  trips of ReadProperty, WriteProperty, ReadPropertyMultiple and EventNotification. A value
  survives WriteProperty, a ReadProperty-ACK or a ReadPropertyMultiple-ACK *if and only if* its
  octets are balanced; the primitive encoders get the same exact treatment.
- **Frames.** NPDU and BVLL round trips, reply routing, and the agreement of the decoder with
  the second walker in `common/CASExampleHelper.ts`.
- **Command prioritization** (clause 19.2 of ANSI/ASHRAE 135-2024), which the repository
  implements twice. The specification is the history of commands; `main.ts`'s recomputed winner
  and the cached Present_Value of `wiretest/peer.py` are both proved equal to it, and to each other.
- **The actuator** of `main.ts` over arbitrary runs of writes, NULLs, clock ticks, valve faults
  and key presses: ranges, rate, no overshoot, convergence, and the view served through the
  typed getters; for any monotone rounding, and for binary32 exactly.
- **Requests and responses**: invoke ids modulo 256, retries and late replies, against a reference
  that names the arrival which decides an exchange; and the workstation as a state machine whose
  schedules interleave its two threads at the granularity of its lock.

Laws are stated on raw priorities, octets and numbers rather than through the functions that
compute with them, and `Examples` works a few messages out octet by octet, so that the encoders and
the decoders that undo them are held to the wire format itself.

The end-to-end theorem is `EndToEnd.ClientReadsWinner`: any sequence of WriteProperty datagrams,
framed, decoded and executed by the peer, followed by a ReadProperty datagram, gives the client
exactly the winning command.

Code that updates state in place has that form here too: `Commandable`, `Controller`,
`SimulatedServer` and `Client` are classes, the decode loops are `while` loops over `position`
and `depth`, the bit-string packer works on an array. Each is proved against a function or an
outright property, and the lemmas are about those.

## What the proofs found

- A character string comes back exactly when it has at most 252 UTF-8 octets: at a content of 254
  or 255 octets the unescaped length octet reads as an escape (`CharacterStringRoundTrip`).
- A bit string comes back exactly when it has at most 24 bits or 33 to 48: a content of five
  octets reads as an escaped length, eight or more change the tag (`BitStringRoundTrip`).
- `Frame.service` takes the sequence number of a segmented Confirmed-Request or ComplexACK for
  its service choice; `SummarizeBacnetFrame` does not (`ServiceChoiceAgrees`, `SegmentedAckDisagrees`).
- In the peer, a write to a commandable Present_Value with a priority above 16 raises after the raw
  value has been stored, so the cache is lost exactly then, unless that value was the winner
  already; the exception also ends the serving thread (`AnswerKeepsCache`, `PriorityPastSixteen`).
- The peer receives 2048 octets. A command one or two octets longer, so that only its priority is
  cut, is acknowledged and executed at priority 16 whatever it asked for (`OversizedCommand`).
- A rounded step of the valve can be longer than one degree, by 2^-20: exactly from the binary32
  numbers between 15 and 16 that are three past a multiple of four grid points, when the setpoint
  is more than a degree higher (`StepPastOneIff`, `StepPastOneIsReached`). The excess does not add
  up: over a run of any length it is at most 2^-20 (`RateBound32`).
- A ReadPropertyMultiple request that names an object twice loses the first list of properties
  (`RepeatedObjects`).
- A response of one octet stays in the workstation's queue for good, and every later request ends in
  an exception (`AliveIff`, `RequestsEnd`).
- `SummarizeBacnetFrame` does not look into Distribute-Broadcast-To-Network, `Frame` does (`OtherFrames`).
- A reply delayed across a multiple of 256 requests that arrives first is returned as the answer of the
  later one (`LateReplyIsMistaken`, `Client.Request`); within 256 it never is.

## Model

| member | source | states |
|---|---|---|
| Octets.UnsignedOctets | wiretest/codec.py:291-295 | the octets chosen decode to the value and have no zero octet in front |
| Octets.UnsignedOctetsShortest | wiretest/codec.py:291-295 | no octet string that decodes to the same number is shorter |
| Octets.SignedOctets | wiretest/codec.py:448-452 | the octets chosen decode, as two's complement, to the value |
| Octets.SignedOctetsShortest | wiretest/codec.py:448-452 | no two's-complement octet string for the same number is shorter |
| Tags.ReadTag | wiretest/codec.py:690-716 | a successful read starts inside the data and strictly advances; opening and closing tags end inside the data, so every decode loop terminates |
| Tags.ReadTagLocal | wiretest/codec.py:690-716 | a tag depends on its own octets only: wherever the same octets stand, the same tag is read, with any octets following |
| Tags.EveryTagForm | wiretest/codec.py:690-716 | every form clause 20.2.1 has for a tag - any number, class, content, and length in the first octet or escaped into one, two or four - is read as exactly that tag |
| Tags.EveryCut | wiretest/codec.py:690-716 | a tag cut short at any place, in every form: which exception it raises, or with how much less content it is read |
| Forests.Descend | wiretest/services.py:120-129 | the reference recursive descent: what it delimits lies inside the data and the closing tag follows it |
| Forests.DescendSound | wiretest/services.py:120-129 | whatever is accepted on arbitrary octets is exactly the encoding of a well-formed forest, followed by a closing tag |
| Forests.DescendComplete | wiretest/services.py:120-129 | every encoded forest, of any depth, is found again up to exactly the matching closing tag, whatever follows |
| Forests.BalancedIff | wiretest/services.py:120-129 | octets are the encoding of some forest if and only if the descent over them stops at the closing tag put after them |
| Forests.ConstructedEnd | wiretest/services.py:111-117 | the depth-counting loop ends on every input, at the position after the matching closing tag that the descent finds, or with the same exception |
| Forests.ConstructedBody | wiretest/services.py:120-129 | the depth-counting loop returns exactly the encoded forest inside the tag and the same end position as the loop above |
| Values.ObjectId | wiretest/codec.py:287-288 | four octets from which object type and instance are recovered |
| Values.TaggedElement | wiretest/codec.py:298-304 | the tag written, with the length in its first octet or escaped at 5, is read back as exactly that tag number, class and content |
| Values.NumbersRoundTrip | wiretest/codec.py:824-858 | unsigned, enumerated, signed, object identifier, REAL octets, BOOLEAN and NULL decode to what was encoded |
| Values.OctetStringRoundTrip | wiretest/codec.py:461-467 | an octet string comes back, across the escapes at 5 and 254, if and only if it has fewer than 65536 octets |
| Values.CharacterStringRoundTrip | wiretest/codec.py:347-351 | text comes back if and only if it has at most 252 octets |
| Values.LongTextMisread | wiretest/codec.py:347-351 | text of 253 or 254 octets is decoded to something else |
| Values.BitStringRoundTrip | wiretest/codec.py:490-497 | a bit string comes back if and only if it has at most 24 bits or 33 to 48 |
| Values.UnpackPack | wiretest/codec.py:849-854 | unpacking every bit of the packed octets gives the bits back, bit 0 first |
| Values.WhatIsDecoded | wiretest/codec.py:824-858 | what is decoded of tags of every number, class and kind, and which lengths raise |
| Values.TooManyUnused | wiretest/codec.py:849-854 | what is left of a bit string that claims more unused bits than it has |
| Values.PackInPlace | wiretest/codec.py:490-495 | setting bit after bit in a bytearray of zeros gives the packed octets |
| Elements.ApplicationElements | wiretest/codec.py:773-782 | the splitting loop, on every input, gives one part for each tag or the exception of the tag that fails |
| Elements.SplitIsLossless | wiretest/codec.py:773-782 | whatever is split joins back to exactly the octets it came from |
| Elements.SplitFindsElements | wiretest/codec.py:773-782 | a run of whole tags is split into exactly those tags |
| Elements.ErrorValues | wiretest/codec.py:785-793 | the class and code of an error are found as its two enumerations |
| Elements.ValuesAt | wiretest/codec.py:785-793 | a run of application-tagged values is read as exactly those values, in order |
| Requests.WritePropertyRoundTrip | wiretest/codec.py:366-376 | parsing a WriteProperty returns object, property, array index, value octets and priority unchanged if and only if the value octets are balanced |
| Requests.ParseWriteProperty | wiretest/codec.py:891-925 | the parser with its depth loop computes, on every APDU, what the reference descent delimits; None for another service and for what ends too soon |
| Requests.ReadPropertyRoundTrip | wiretest/codec.py:359-363 | parsing a ReadProperty returns object, property and optional array index |
| Requests.ThirdParameter | wiretest/codec.py:750-770 | a third parameter is the array index if and only if it is a value tagged [2] |
| Requests.ReadPropertyValue | wiretest/codec.py:730-747 | the scan for the opening tag 3 and its depth loop end on every APDU with the value the reference descent delimits |
| Requests.ReadPropertyAckRoundTrip | wiretest/codec.py:388-391 | the client recovers the value octets of an ACK, indexed or not, if and only if they are balanced |
| Requests.BalancedBracket | wiretest/codec.py:313-318 | putting balanced octets between an opening and a closing tag keeps them balanced, to any depth |
| Frames.NpduRoundTrip | wiretest/codec.py:262-284 | DNET/DADR, SNET/SADR, reply flag, message type and payload are decoded back, the vendor id of a proprietary message skipped |
| Frames.FrameRoundTrip | wiretest/codec.py:588-624 | the same through a unicast, broadcast or Distribute-Broadcast-To-Network BVLL |
| Frames.ForwardedRoundTrip | wiretest/codec.py:229-231 | the same through a Forwarded-NPDU, with the originating address |
| Frames.ApduFrameRoundTrip | wiretest/codec.py:225-226 | what a client or peer sends arrives as the same APDU, destination and reply flag |
| Frames.RoutedOctets | wiretest/codec.py:262-284 | the octets of an APDU sent to another network, hop count 255 included |
| Frames.ReplyIsRouted | wiretest/peer.py:148-153 | the reply to any decoded request carries DNET/DADR equal to the request's SNET/SADR and the answer as payload, and exists exactly when it fits the BVLL length |
| Walkers.WalkersAgree | common/CASExampleHelper.ts:162-250 | for every frame the decoder accepts with function 0x04, 0x0A or 0x0B, the console labeller reaches the same APDU offset and labels it from the same octets |
| Walkers.ServiceChoiceAgrees | wiretest/codec.py:626-646 | both report the same PDU type, reason and, when unsegmented, service choice; when segmented, for every length of the APDU, exactly if both octets are there and equal or a Confirmed-Request has neither |
| Walkers.SegmentedAckDisagrees | common/CASExampleHelper.ts:225-231 | a concrete segmented ACK on which the two disagree |
| Walkers.OtherFrames | common/CASExampleHelper.ts:162-180 | what both make of frames that are not BACnet/IP and of messages of the BVLL alone, and of Distribute-Broadcast-To-Network, which only the decoder looks into |
| Commands.SlotHistory | main.ts:341-351 | after any history a slot holds a value exactly when the latest command that names its priority, or for slot 16 none of the sixteen, wrote it |
| Commands.WinnerOfHistory | main.ts:392-399 | the first set slot is the value last written at the smallest priority whose latest command is a write, else the default, and nothing else is; priorities are the raw ones of the commands, and those outside 1..16 are for slot 16 |
| Commands.ApplyCommutes | main.ts:336-351 | commands for different slots commute |
| Commands.InterleavingIrrelevant | main.ts:336-351 | histories with the same commands at each priority, in any interleaving, leave the same slots |
| Commands.Commandable.constructor | main.ts:322-328 | sixteen slots, all null, and the default |
| Commands.Commandable.CommandWrite | main.ts:341-345 | the slots move by the write command at its effective priority and no other slot changes |
| Commands.Commandable.CommandRelinquish | main.ts:348-351 | the slots move by the relinquish command |
| Commands.Commandable.ResolvedCommand | main.ts:392-399 | the loop returns the first set slot or the default |
| Actuator.AcceptedIff | main.ts:1001-1127 | a write is accepted if and only if it is for this device, for the Present_Value of the output its type belongs to, and in range; otherwise nothing changes |
| Actuator.VerdictIs | main.ts:1001-1127 | the verdict on every write, in raw numbers: declined where it does not belong, refused with 37 outside 10..30, 0..1 or 1..3, otherwise accepted |
| Actuator.WriteReachesSlot | main.ts:341-351 | an accepted write puts the number itself into the slot its raw priority names and changes nothing else |
| Actuator.StepKeepsCommands | main.ts:455-484 | every event keeps every set slot and the binary and multi-state feedback in range |
| Actuator.ValveStaysBetween | main.ts:471-480 | the valve never passes the setpoint nor moves away from it, under any monotone idempotent rounding |
| Actuator.StepKeepsTemperature | main.ts:455-484 | without key presses the temperature stays a rounded number within 10..30 |
| Actuator.RunIsSafe | main.ts:455-484 | both invariants after any run from start-up |
| Actuator.OutputHistory | main.ts:1001-1127 | after any run, key presses and ticks included, the winner of each output is the winner of clause 19.2 of the commands accepted for it |
| Actuator.TickRate | main.ts:455-484 | one tick moves the temperature by at most 1 plus the rounding error when the second has changed, not at all otherwise |
| Actuator.RateBound | main.ts:445-484 | between any two points of a run with a clock that does not go back, the temperature moves at most one degree, up to rounding, for each whole second counted, and no second is counted before the clock reached it |
| Actuator.RateByClock | main.ts:445-484 | the same against the clock: each whole second since the last tick before, and each whole second since any reading `from` and one more, since a first tick may come late |
| Actuator.Converges | main.ts:455-484 | with a steady winner and a connected valve, from any temperature and rounding included, after n acting ticks at least d - (1 + eps) n and at most d - (1 - eps) n of the distance d is left |
| Actuator.Settles | main.ts:471-480 | after enough acting ticks the temperature is exactly the rounded setpoint |
| Actuator.ConvergesExactly | main.ts:455-484 | in exact arithmetic the distance after n acting ticks is max(0, d - n) |
| Actuator.NeverCrosses | main.ts:471-480 | over a whole run with a steady winner the temperature stays on its side of the setpoint and never moves away, rounding included |
| Actuator.DisconnectedFreezes | main.ts:470-481 | while the valve is disconnected the temperature stays, whatever is commanded |
| Actuator.NullExactlyWhenDeclined | main.ts:782-809 | the null getter says null exactly when the typed getter of that output declines, for every index 1..16 |
| Actuator.ServedViewIsWinner | main.ts:372-399 | resolving through the getters and Relinquish_Default gives the winner the equipment obeys, rounded or truncated as it travels |
| Actuator.ServedExactly | main.ts:757-765 | the served Present_Values of the binary and multi-state outputs are, as numbers, exactly the winners |
| Actuator.ServedSlots | main.ts:782-809 | each served element of the Priority_Array is the value last written at that priority, and null exactly if nothing is held there |
| Actuator.GettersAnswerOnly | main.ts:555-809 | which reads of the outputs each getter answers and which it declines |
| Actuator.LimitsAreServed | main.ts:1018-1024 | a REAL write is refused if and only if it is outside the served Min_Pres_Value and Max_Pres_Value |
| Actuator.AtStartUp | main.ts:296-331 | at start-up the defaults win and the feedback agrees with them |
| Actuator.KeysMove | main.ts:1575-1583 | the arrow keys move the temperature by 1.1 degrees up to rounding, each its own way, and nothing else |
| Actuator.FeedbackFollowsServed | main.ts:455-484 | after an acting tick the feedback equals the served Present_Value, and Reliability says whether the valve is connected |
| Actuator.FeedbackExactly | main.ts:482-483 | after an acting tick the contact and the speed are, as numbers, exactly the winners |
| Binary32.StepPastOneIff | main.ts:471-480 | in binary32, from every temperature and for every setpoint: a step is longer than one degree if and only if it starts above 15 and below 16 at a number three past a multiple of four grid points, with a setpoint more than a degree higher; it is then longer by 2^-20 |
| Binary32.StepPastOneIsReached | main.ts:455-484 | every such temperature is reached from start-up by commands and ticks, and the next second takes the longer step |
| Binary32.RateBound32 | main.ts:445-484 | in binary32, between any two points of a run, the temperature falls at most one degree for each whole second counted and rises at most that plus 2^-20 in all, however long the run |
| Binary32.RateByClock32 | main.ts:445-484 | the same against the readings of the clock |
| Actuator.Controller.constructor | main.ts:296-331 | the state at start-up |
| Actuator.Controller.SetPropertyReal | main.ts:1001-1032 | new state and verdict are those of a REAL write |
| Actuator.Controller.SetPropertyEnumerated | main.ts:1035-1065 | new state and verdict are those of an ENUMERATED write |
| Actuator.Controller.SetPropertyUnsignedInteger | main.ts:1068-1097 | new state and verdict are those of an Unsigned write |
| Actuator.Controller.SetPropertyNull | main.ts:1101-1127 | new state and verdict are those of a NULL write |
| Actuator.Controller.ActuatorSimulationTick | main.ts:455-484 | the new state is that of a tick with these clock readings and this valve connection |
| Multiple.ReadAccessSpecifications | wiretest/codec.py:806-821 | the loop ends on every input with the members in order of first insertion, or the exception |
| Multiple.RequestIsUnderstood | wiretest/services.py:136-141 | the server parses exactly the list of distinct objects and properties the client asked for |
| Multiple.RepeatedObjects | wiretest/codec.py:806-821 | of a request that names objects more than once the server understands each once, with the properties asked where it is named last |
| Multiple.ParseReadPropertyMultipleAck | wiretest/services.py:144-177 | None for anything but a ComplexACK of this service; on every ACK the loop ends with the map its turns build, or None |
| Multiple.AccessResultsAt | wiretest/codec.py:526-541 | the results the server encodes are all taken, each under its own object and property, nested values included |
| Multiple.ResultsAddUp | wiretest/services.py:161-162 | results of an object that comes more than once are put together, and nothing known before is lost |
| Multiple.IndexedResultAt | wiretest/services.py:165-172 | a result with an array index is filed under the property and that index |
| Multiple.OtherAnswers | wiretest/services.py:96-103 | anything but a ComplexACK of ReadPropertyMultiple gives None, and one without its service octet raises |
| Multiple.ParsedBalanced | wiretest/services.py:144-177 | whatever octets arrive, every value a client learns is balanced |
| Multiple.MultipleRoundTrip | wiretest/services.py:136-177 | request, server parse, ACK and client parse give exactly the properties asked, each with the octets served or error 2/32, if and only if the values asked for are balanced |
| Server.Start | wiretest/peer.py:216-233 | a new server satisfies the invariant every answer keeps |
| Server.Answer | wiretest/peer.py:275-319 | every APDU, well-formed or not, in every mode, keeps that invariant |
| ServerRuns.AnswerChanges | wiretest/peer.py:275-319 | answering stores the one write the APDU carries and acknowledges it, or leaves objects and slots as they were |
| ServerRuns.ErrorsChangeNothing | wiretest/peer.py:365-398 | every Error answer leaves objects and slots unchanged |
| ServerRuns.AnswerServes | wiretest/peer.py:391-396 | answering changes what is served only at the property written, and there to the value written, unless that is a command |
| ServerRuns.StoreKeepsCache | wiretest/peer.py:391-396 | storing a write keeps the cache exact if and only if its priority has a slot or the value was the winner already |
| ServerRuns.AnswerKeepsCache | wiretest/peer.py:275-319 | the same for any APDU in any mode |
| ServerRuns.StartIsCached | wiretest/peer.py:216-233 | at start-up the cache is exact, every slot is null and the default is the original value |
| ServerRuns.ReachableCache | wiretest/peer.py:365-398 | in every reachable state, also after an exception has ended the serving thread, the served Present_Value is the winner of clause 19.2 of exactly the commands accepted |
| Agreement.TwoImplementationsAgree | wiretest/peer.py:391-396 | any run of the peer and any run of main.ts that accept the same commands for an output: the cached Present_Value is the encoding of the winner the controller recomputes |
| Serving.ServeDatagram | wiretest/peer.py:83-105 | every datagram, whatever it holds, keeps the invariant of the server |
| EndToEnd.Transported | wiretest/peer.py:83-105 | a request datagram is answered as its APDU is, and the client finds that answer in the reply datagram |
| EndToEnd.CommandExecuted | wiretest/peer.py:365-398 | one WriteProperty datagram puts its value, or nothing for NULL, into the slot its priority names, slot 16 without one or with 0, and into no other, and is acknowledged with its invoke id |
| EndToEnd.StartIsReady | wiretest/peer.py:216-233 | a server as it is made is ready to be commanded |
| EndToEnd.CommandsExecuted | wiretest/peer.py:365-398 | any sequence of them leaves the slots of its history |
| EndToEnd.ReadBack | wiretest/peer.py:304-318 | a ReadProperty datagram gives the client exactly the octets served |
| EndToEnd.ClientReadsWinner | wiretest/codec.py:730-747 | after any sequence of WriteProperty and NULL datagrams the client reads exactly the winner of what they say, priorities as the clients gave them, or the original value if every slot is NULL |
| EndToEnd.IndexedReads | wiretest/peer.py:321-352 | indexed reads give the length and each element, in an ACK with the index, and past the end error 2/42 |
| EndToEnd.MultipleEndToEnd | wiretest/peer.py:354-363 | a client asking the server for distinct objects learns exactly what it serves, if and only if the values asked for are balanced, and the server records the read and changes nothing else |
| EndToEnd.WhoIsAnswered | wiretest/peer.py:133-138 | Who-Is is answered if and only if it has no limits or they hold the instance, by an I-Am that carries the instance |
| EndToEnd.LimitsAreValues | wiretest/peer.py:133-146 | the limits of a Who-Is are the values among its tags, in order |
| EndToEnd.IAmHolds | wiretest/codec.py:405-408 | an I-Am holds the Device, maximum APDU 1476, segmentation 3 and the vendor |
| EndToEnd.IAmOfOther | wiretest/codec.py:719-727 | an I-Am that does not begin with an object identifier gives the client none |
| EndToEnd.IAmOfObject | wiretest/codec.py:719-727 | an I-Am gives the client an instance if and only if its object is a Device |
| EndToEnd.ErrorPduRoundTrip | wiretest/codec.py:883-888 | the client reads the class and code the Error PDU was made with |
| EndToEnd.WriteIsAnswered | wiretest/peer.py:365-398 | what the client learns from every WriteProperty: acknowledged, unknown object, or write access denied |
| EndToEnd.UnknownReads | wiretest/peer.py:114-131 | unlisted properties and objects are answered with errors 2/32 and 1/31 |
| EndToEnd.DeviceReads | wiretest/peer.py:114-131 | Object_Identifier and Object_Name of the Device are read back, also through the wildcard instance |
| EndToEnd.DeviceUnknown | wiretest/peer.py:114-131 | any other property of the Device is error 2/32 |
| Behaviour.WriteStores | wiretest/peer.py:365-398 | every WriteProperty is recorded; one that is taken and is no command makes the server serve its value; one that is not taken changes nothing; no write changes another property |
| Behaviour.PropertyReads | wiretest/peer.py:304-318 | any listed property is read as it is served, and the read is recorded |
| Behaviour.WriteThenRead | wiretest/peer.py:391-396 | by datagram, a write that is taken and then a read give the client the octets written |
| Behaviour.WholeArrayRefused | wiretest/peer.py:327-332 | the read of a refused whole array is aborted with reason 4 |
| Behaviour.ElementReadIsRecorded | wiretest/peer.py:339-341 | a read of one element is recorded with its index |
| Behaviour.OfflineSilence | wiretest/peer.py:290-299 | offline nothing is answered and nothing changes, the three services are counted and writes recorded |
| Behaviour.FailureIsServed | wiretest/peer.py:275-289 | the Reject, Abort or silence set for an object, in octets |
| Behaviour.MalformedRead | wiretest/peer.py:321-326 | with the malformed failure set, a read is answered with a NULL |
| Behaviour.FailureOnlyThere | wiretest/peer.py:278-280 | a failure is met only online and only in requests about its object |
| Boundaries.PriorityPastSixteen | wiretest/peer.py:391-396 | a WriteProperty datagram with any priority above 16 and a new value raises, ends the serving thread and leaves a cache that is not the winner |
| Boundaries.OversizedCommand | wiretest/peer.py:88-105 | a command cut off at 2048 octets is executed and acknowledged at priority 16 if only its priority is cut, and otherwise changes nothing and gets no answer |
| OverTheWire.HeardIsAnswered | wiretest/peer.py:83-105 | for every request and every answer, or none, that fits a datagram, the client hears exactly what the server answers |
| OverTheWire.EveryDatagram | wiretest/peer.py:83-105 | what becomes of any datagram at all; an answer goes back to the network and address the request came from |
| OverTheWire.IndexedReadsHeard | wiretest/peer.py:321-352 | indexed reads by datagram give the length, each element, and past the end error 2/42 |
| OverTheWire.MultipleHeard | wiretest/peer.py:354-363 | ReadPropertyMultiple by datagram gives exactly what is served, if and only if the values asked for are balanced |
| OverTheWire.WriteHeard | wiretest/peer.py:365-398 | the client hears the outcome of every WriteProperty that fits a datagram |
| OverTheWire.UnknownHeard | wiretest/peer.py:114-131 | the client hears errors 2/32 and 1/31 for unlisted properties and objects |
| OverTheWire.DeviceHeard | wiretest/peer.py:114-131 | the client reads Object_Identifier and Object_Name of the Device by datagram |
| SimulatedServers.SimulatedServer.constructor | wiretest/peer.py:216-233 | the object starts in the start state |
| SimulatedServers.SimulatedServer.StoreWrite | wiretest/peer.py:391-396 | the value is stored, then the slot and the winner over it; nothing else changes |
| SimulatedServers.SimulatedServer.WriteRequested | wiretest/peer.py:365-398 | new state and answer are those of the write |
| SimulatedServers.SimulatedServer.ReadRequested | wiretest/peer.py:321-352 | new records and answer are those of the read |
| SimulatedServers.SimulatedServer.AnswerRequest | wiretest/peer.py:275-319 | new state and answer are those of the request, for every APDU |
| SimulatedServers.SimulatedServer.Serve | wiretest/peer.py:83-105 | new state and reply are those of the datagram; an exception ends the loop |
| Identities.MatchesIff | wiretest/client.py:157-161 | a frame is taken for the answer to an id if and only if it is a SimpleACK, ComplexACK, Error, Reject or Abort with that id in its second octet |
| Identities.RepliesAreIdentified | wiretest/codec.py:630-636 | every reply, framed to any destination, matches the id it was made with and no other |
| Identities.ReportedFields | wiretest/codec.py:626-646 | the PDU type, invoke id and service reported of each reply and request |
| Identities.AnswerCarriesId | wiretest/peer.py:275-319 | whatever confirmed request arrives, in every mode, an answer responds to that request's id |
| Identities.ClientGetsItsAnswer | wiretest/client.py:148-162 | the datagram with which the server answers a request, arriving first, is the answer of the exchange for that request's id, and passed over for any other |
| Alarms.DecodeParameters | wiretest/alarm.py:195-245 | the decode loop ends on every input with the fields its turns set, or the exception |
| Alarms.ItemsAt | wiretest/alarm.py:195-245 | any list of parameters is decoded item by item; constructed ones are skipped whatever they nest |
| Alarms.EventValuesBalanced | wiretest/alarm.py:153-158 | the event values the builder nests are balanced |
| Alarms.EventValuesHold | wiretest/alarm.py:153-158 | the event values hold the exceeding value, the status flags, the deadband and the limit, each in its place |
| Alarms.FieldMeans | wiretest/alarm.py:221-245 | what each field of a notification means, for every content |
| Alarms.OtherStamps | wiretest/alarm.py:178-188 | time stamps of the other forms are passed over |
| Alarms.NotificationRoundTrip | wiretest/alarm.py:128-162 | every confirmed or unconfirmed notification is decoded back field by field, date and time included; an acknowledgement notification leaves from-state and ack-required empty |
| Examples.Primitives | wiretest/codec.py:298-351 | the octets of a value of each kind |
| Examples.Flags | wiretest/codec.py:490-497 | the octets of a bit string |
| Examples.Reads | wiretest/codec.py:359-391 | the octets of a ReadProperty and its ACK |
| Examples.Writes | wiretest/codec.py:366-376 | the octets of a WriteProperty with index and priority |
| Examples.Refusals | wiretest/codec.py:394-445 | the octets of SimpleACK, Reject, Abort and Error |
| Examples.MultipleServices | wiretest/codec.py:411-541 | the octets of a ReadPropertyMultiple and its results |
| Examples.Datagrams | wiretest/codec.py:220-231 | the octets of a unicast and of a forwarded datagram |
| Examples.Routed | wiretest/codec.py:262-284 | the octets of a routed network layer message |
| Examples.Notification | wiretest/alarm.py:128-162 | the octets of every event notification with one-octet numbers |
| Summaries.ParseEventSummaries | wiretest/alarm.py:267-320 | the loop and the two loops inside it end on every APDU with the summaries their turns build, or the exception |
| Summaries.StampsForEachTransition | wiretest/alarm.py:298-306 | from arbitrary octets, a summary with time stamps has exactly three |
| Summaries.SummariesRoundTrip | wiretest/alarm.py:267-320 | every GetEventInformation-ACK is read back: each summary field by field, in order, and whether there are more |
| Summaries.OutOfPlace | wiretest/alarm.py:276-320 | what becomes of fields before the first object and of tags that do not belong |
| Clients.IdNamesRequest | wiretest/client.py:144-146 | within 256 requests the invoke id names the request |
| Clients.LateReplyIsMistaken | wiretest/client.py:148-162 | a reply delayed across any multiple of 256 requests that arrives first is the answer the later request gets |
| Clients.FirstArrivalDecides | wiretest/client.py:90-101 | the first arrival that decides is the outcome, after one send for each wait that ended before and one more: an earliest match is returned and nothing else is |
| Clients.OutcomeOfFirst | wiretest/client.py:90-101 | every answer and every exception is that of the first arrival that decides |
| Clients.UnansweredIff | wiretest/client.py:90-101 | there is no answer if and only if no arrival within the attempts decides, and then every attempt was made |
| Clients.WhatDecides | wiretest/endpoint.py:56-70 | an exception comes only from a datagram that does not decode or a response too short for an invoke id; an answer is a datagram that matches |
| Clients.MatchedOrigin | wiretest/client.py:148-162 | a frame that matches replies to a request with the same number modulo 256 |
| Clients.Client.Receive | wiretest/endpoint.py:35-46 | one arrival is taken: a datagram is kept in order, a reset is skipped, the end of the wait keeps nothing, and it raises exactly when a datagram does not decode |
| Clients.Client.Scan | wiretest/endpoint.py:56-70 | the scan stops at the first frame that matches or raises, having tested each position up to it once, in order |
| Clients.Client.WaitFor | wiretest/endpoint.py:56-70 | the outcome of the first decisive frame among those kept and those that arrive; positions 0, 1, 2, ... are tested once each; it raises only for that frame or a datagram that does not decode; None only at the end of the wait |
| Clients.Client.SendWithRetries | wiretest/client.py:90-101 | answer, exception and number of identical datagrams are exactly those of the reference exchange with 1 + retries attempts |
| Clients.Client.Request | wiretest/client.py:148-162 | a fresh invoke id and the outcome of the reference exchange; the answer belongs to this request unless it was delayed across 256 or more later ones, and one delayed across a multiple of 256 that arrives first is returned |
| Workstations.EverySchedule | wiretest/workstation.py:66-94 | the receiver's and the requester's invariants over every schedule |
| Workstations.ResponsesAreExclusive | wiretest/workstation.py:120-140 | no response goes to two requests, no request gets two, and each has its request's id and arrived after it began |
| Workstations.NoResponseIsLost | wiretest/workstation.py:66-140 | every response that arrived is still queued, was handed over, or left the queue when a request began under its id |
| Workstations.PollHandsOver | wiretest/workstation.py:127-139 | a requester woken up takes the first queued response with its id and no other, and goes on waiting while there is none |
| Workstations.NotificationsAreKept | wiretest/workstation.py:66-94 | notifications are kept each once in arrival order and never enter the response list |
| Workstations.AcknowledgedOnce | wiretest/workstation.py:84-90 | every confirmed notification but a pending one is decided exactly once, in order of arrival |
| Workstations.AnsweredIffAnswering | wiretest/workstation.py:88-90 | a decision is to answer if and only if answering was on in the step that took it |
| Workstations.EveryNotificationIsAcknowledged | wiretest/workstation.py:84-90 | while answering is never switched off, the acknowledgements are exactly one for each settled confirmed notification, in order, each with its own invoke id |
| Workstations.AcknowledgementsCarryIds | wiretest/workstation.py:88-90 | one for one and in order, each acknowledgement is a SimpleACK of service 2 with the very octet that is its notification's invoke id |
| Workstations.NotificationIsNoted | wiretest/alarm.py:261-264 | a framed notification is kept as confirmed with its invoke id, or as unconfirmed |
| Workstations.ResponseIsQueued | wiretest/workstation.py:91-94 | a framed response is queued under the id in its second octet |
| Workstations.OthersAreIgnored | wiretest/workstation.py:80-94 | exactly what is neither is passed over |
| Workstations.AliveIff | wiretest/workstation.py:66-94 | the receiver lives exactly until a datagram raises, and a response too short for an id stays queued for good |
| Workstations.DecideFrees | wiretest/workstation.py:88-90 | a receiver that has decided is free for the next datagram |

## Left out

- The CAS BACnet Stack: only its documented rule for finding Present_Value from the getters appears, as `StackWinner`.
- Sockets, `select`, threads, timeouts and console lines: arrivals and clock readings are inputs, and a wait ends by an `Expired` arrival. `recvfrom(2048)` is modelled: the end-to-end theorems are about datagrams received whole, and `Boundaries.OversizedCommand` about longer ones.
- IEEE 754: a REAL on the wire is four octets, and its arithmetic is over `real` with `Math.fround` as a monotone, idempotent function that fixes 1, -1, 10 and 30, and in `Binary32` by what it does to multiples of 2^-20 up to 31 (`Binary32.FroundExists` gives a rounding that meets all of it). NaN passes the range test of `main.ts:1021` and is outside the model.
- Actuator.RateBound: allows the rounding error `eps` for each second, because it is for any rounding; for exact arithmetic `eps` is 0, and for binary32 `Binary32.RateBound32` allows 2^-20 once.
- Actuator.ConvergesExactly: for exact arithmetic; `Converges` and `Settles` include rounding.
- UTF-8: text is its octets; the "replace" decoding is not modelled.
- Encoder limits are preconditions: tag numbers below 15, unsigned values below 2^32, object types below 2^10, instances below 2^22, network numbers and BVLL lengths below 2^16.
- Property references with an array index in ReadPropertyMultiple requests: the peer's parser drops the index.
- EndToEnd.ClientReadsWinner: the server runs, is online and fails nothing, as `Ready` says; `ServerRuns.ReachableCache` covers every mode, failure, APDU and exception.
- Callable served values, and the `check_write` and `on_write` hooks that tests override: the defaults are modelled.
- Direct changes to the peer's `objects` by a test; changes of mode, failures and refused arrays are events of a run.
- Constant properties in the get callbacks (units, polarity, state texts, network port), DeviceCommunicationControl, HeartbeatTick and command-line handling.
- The wording of the console labels: `Summary` keeps the numbers a label is made from.
- ReadRange, file, object, list-element, landing-call and lighting services: flat lists of tags that would add only easy members.
- Decoders without an encoder in the repository: `CovNotificationMultiple` and `event_log_records`; for `parse_event_summaries` the ACK of clause 13.12 is written out here.
- The workstation is a state machine over its locked sections and sends rather than an object, since its two threads interleave; `Frame` is a value, since it never changes once decoded.
