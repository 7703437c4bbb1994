# Verification of the repeater's core

This project models the stateful core of a LoRa mesh repeater firmware and proves what it is meant to
guarantee. All numbers are the firmware's own: machine integers appear as ranges with their saturation,
clamping and byte order written out (`Bytes`).

* **Forwarding engine** (`SeenPackets`, `Outbound`, `Airtime`, `Engine`, `EngineRuns`,
  `EngineTheorems`, `Schedules`).
  The handler and the radio loop share a bounded transmit queue with one packet in flight, a list of
  reserved signatures, a seen cache bounded by age and size, and an airtime budget. The classes change
  these in place, one method per stretch of code between two awaits. `EngineRuns` interleaves the same
  stretches as steps under a clock that never goes back, with every clock reading of a step a parameter of
  its own, and keeps one invariant over all of them together; `EngineTheorems` draws the conclusions: no
  double forward, no leaked reservation, the duty cycle, conservation, draining. `Schedules` says exactly what
  each step does, and that over every run nothing leaves before it is due.
* **Wire format** (`Paths`, `Payloads`, `Packets`, `Wire`, `Layout`, `Faults`, `Utf8`). Decoder and encoder are
  proved exact inverses in both directions, the offset-moving and buffer-filling forms are proved equal to
  them, and layout and errors are stated in numbers.
* **Mesh routing** (`Forwarding`, `FloodChains`, `Allowed`, `Decisions`, `ForwardingSteps`, `Traces`, `Mesh`,
  `Replies`). What a repeater does with floods, direct packets and traces, and exactly which it passes on as
  what; a network of repeaters in which whatever was sent or originated may be heard by anyone, any number
  of times, after any delay, while the configuration of a node may change between any two steps; and replies
  on their way back, through the decision of each node and its engine. Digests and region keys are arbitrary
  functions of the hashed bytes.
* **Firmware update** (`Flash`, `Ota`, `Images`, `OtaStream`). NOR flash on which erasing sets a sector to
  0xFF and programming only clears bits, and on which every access may fail; the streaming writer; and the image
  verifier, against a validity predicate on the uploaded bytes that is met by exactly the images built from
  segments.
* **WebSocket stream** (`WebSocket`, `WebSocketReader`, `WebSocketStreams`). The incremental reader against
  a one-shot parser of sections 5.2 to 5.5 of RFC 6455, legal server streams, and the masked frames sent by
  the client.
* **Remote logins** (`RemoteLogins`, `RemoteRuns`) and **neighbours** (`Neighbours`, both over `Keys`). The two
  session tables over every run of their operations, and the neighbour table with its sorting and paging.

Where a guarantee fails at an edge, the edge is stated exactly. The airtime gate opens for an uncovered
packet at the last 64-bit clock reading and nowhere else (`Airtime.GateFailsOnlyAtClockEnd`), which is why
runs take clock readings below it. A packet whose reserved numbers exceed their four bits encodes but does
not come back (`Packets.RoundTripExactly`). A neighbour listing is complete exactly as far as two-byte
offsets reach (`Neighbours.ListingIsComplete`, with a table that is cut short in
`Neighbours.LongTableIsCutShort`); both boards configure 64 neighbours (platform/esp32/src/heltec.rs:50,
platform/nrf52840/src/lib.rs:14), far below that edge. A route may name one node twice; a reply along it
is dropped at the second pass there, because a signature does not cover the route
(`Replies.RouteNamesNodeTwice`, `Replies.SecondPassRefused`).

## Model

| member | source | states |
|---|---|---|
| EngineTheorems.NoDoubleForward | repeater/src/app/mod.rs:493-577 | Over every interleaving of handler and radio steps with a clock that never goes back, two transmissions of one forwarded signature are more than 15000 ms apart, or at least as many other signatures as the cache holds were transmitted in between. |
| EngineTheorems.AwaitPointInvariant | repeater/src/app/mod.rs:493-577 | In every reachable state: reservations have no duplicates, equal as a multiset what the queue and the packet in flight carry, and are disjoint from the seen cache; the queue is in eligibility order; queue plus flight stays within capacity even after a retry is re-inserted; no packet is past its fifth attempt; accepted = transmitted + dropped + queued + in flight. |
| EngineTheorems.DutyCycleRespected | repeater/src/app/mod.rs:806-866 | With a fixed configured percentage d below 100 (0 counting as 1), 100 times the airtime charged in any closed interval of any run is below 3600000 d plus d times the length of the interval plus 100. |
| EngineTheorems.HourlyAirtime | repeater/src/app/mod.rs:806-866 | So 100 times the airtime of any hour is below 7200000 d plus 100. |
| Schedules.RecordedWhenDue | repeater/src/app/mod.rs:493-577 | Over every run, each forward recorded as transmitted is one that some event put into the queue, at a reading not before that event's own reading plus the delay given then, unless that sum saturates. |
| Schedules.StartsWhenDue | repeater/src/app/mod.rs:1016-1056 | The same of every start of a transmission, forwards and replies alike, first attempts and retries. |
| Schedules.QueueConserved | repeater/src/app/mod.rs:493-577 | Over every run, packet for packet with its due time and attempt, what was put into the queue is what was taken off it to transmit or discard, plus what is still there. |
| Schedules.DecidedExactly | repeater/src/app/mod.rs:1016-1056 | The radio task discards the head if and only if it is a forward and repeating is off, transmits it if and only if it is wanted, due, and covered by the budget in the configured percentage, and otherwise waits. |
| Schedules.StartExactly | repeater/src/app/mod.rs:1016-1056 | And what becomes of queue, reservations, cache, radio and log in each of the three cases. |
| Schedules.EndExactly | repeater/src/app/mod.rs:1057-1104 | A success is logged with signature, time and frame; one of the first four failures puts the packet back, due after the retry delay, with its reservation; the fifth drops both. |
| Schedules.ChargedExactly | repeater/src/app/mod.rs:1086-1104 | A success is charged its own airtime at its end, off exactly what the refill had come to; nothing is charged at 100 percent. |
| Schedules.ReplyExactly | repeater/src/app/mod.rs:484-492 | A reply is taken exactly when fewer than sixteen packets, or than configured, are queued or in flight, and is due after its delay. |
| EngineTheorems.QueueDrains | repeater/src/app/mod.rs:1016-1104 | With nothing new accepted, every effective radio step uses up an attempt; after as many of them as attempts were left (at most five per slot) queue and flight are empty. |
| EngineTheorems.WakesToWork | repeater/src/app/mod.rs:1143-1175 | After a poll, with nothing in between, the task that slept until the computed wake-up time, or longer, does not wait again: the head, if a full budget can cover it, is transmitted or discarded. |
| EngineTheorems.WorkContinues | repeater/src/app/mod.rs:1016-1104 | So from every reachable state whose head fits there is a legal continuation of radio steps alone that makes an effective step and leaves fewer attempts. |
| EngineTheorems.StepMetered | repeater/src/app/mod.rs:1048-1104 | One step charges airtime at most once, at its own time, and pays for it from the budget; gate and charge use the same packet and settings. |
| EngineTheorems.StepWork | repeater/src/app/mod.rs:766-799 | No step adds attempts; a transmission, a retry or a discard takes at least one away. |
| EngineTheorems.RepeatIsLate | repeater/src/app/mod.rs:536-571 | A history without early repeats has same-signature transmissions more than the TTL apart or separated by a full cache of others. |
| EngineRuns.StepKeeps | repeater/src/app/mod.rs:1016-1104 | Every step of either side keeps the whole invariant: exact reservations, queue order and capacity, a solvent budget that covers the packet in flight, a cache that represents the transmission history, and conservation. |
| EngineRuns.RunKeeps | repeater/src/app/mod.rs:881-960 | The invariant holds after every legal run. |
| EngineRuns.HandlerForwardKeeps | repeater/src/app/mod.rs:493-507 | Reserving, enqueueing and undoing the reservation on a full queue keep the invariant, with two separate clock readings. |
| EngineRuns.RadioEndOk | repeater/src/app/mod.rs:1086-1104 | A completed transmission releases its reservation, enters the seen cache without having been remembered there, and pays for its airtime. |
| EngineRuns.RadioEndFailed | repeater/src/app/mod.rs:1058-1085 | A failed transmission is re-queued with its reservation or dropped together with it. |
| EngineRuns.GateSound | repeater/src/app/mod.rs:1035-1056 | The decision to transmit takes the head of the queue, and then the budget covers exactly that packet. |
| Engine.AppContext.ReserveForward | repeater/src/app/mod.rs:545-555 | New state and answer equal the specification: pending wins over seen, seen over a full list, and only then is the signature reserved. |
| Engine.AppContext.ReleaseForward | repeater/src/app/mod.rs:557-571 | Exactly one occurrence of the signature leaves the list, and it enters the cache only if transmitted. |
| Engine.AppContext.EnqueueOutbound | repeater/src/app/mod.rs:509-524 | The item goes into the queue in order, or the queue is full and nothing changes. |
| Engine.AppContext.EnqueueForward | repeater/src/app/mod.rs:493-507 | Reserve, send, and release again when the queue was full: the state afterwards is that of the specification over which the invariant is proved. |
| Engine.AppContext.FinishForward | repeater/src/app/mod.rs:573-577 | Releases the reservation of a forward, and does nothing for other packets. |
| Engine.AppContext.StartTransmit | repeater/src/app/mod.rs:1035-1056 | Which of waiting, discarding and transmitting happens, for which packet, and what state and budget it leaves. |
| Engine.AppContext.EndTransmit | repeater/src/app/mod.rs:1057-1104 | State and budget after success, retry or final failure. |
| Outbound.InsertedIsFifo | repeater/src/app/mod.rs:710-728 | Insertion keeps the queue sorted and puts the item behind everything eligible no later, so ties are first come, first served. |
| Outbound.SortedOutboundChannel.TrySend | repeater/src/app/mod.rs:710-728 | Full means queue plus flight reached the capacity; otherwise the queue is the ordered insertion. |
| Outbound.SortedOutboundChannel.TakeFirst | repeater/src/app/mod.rs:754-764 | The head leaves the queue and becomes the packet in flight; an empty queue changes nothing. |
| Outbound.SortedOutboundChannel.RetryCurrent | repeater/src/app/mod.rs:766-794 | Retried exactly when fewer than five attempts would have been made; the item returns in order with one attempt more and the flight slot is free. |
| Airtime.AirtimeBudget.Update | repeater/src/app/mod.rs:819-836 | Refill with the floor, the cap and the saturating arithmetic; the time stamp moves only when something was refilled. |
| Airtime.AirtimeBudget.ReadyAtMs | repeater/src/app/mod.rs:838-853 | The time returned and the budget left behind are those of the specification below. |
| Airtime.AirtimeBudget.RecordTransmit | repeater/src/app/mod.rs:855-862 | The charge after a refill, none at 100 percent. |
| Airtime.ReadyAtIsSound | repeater/src/app/mod.rs:838-853 | At the returned wake-up time the budget covers the requirement, despite rounding, if nothing touches it in between. |
| Airtime.ReadyAtIsTight | repeater/src/app/mod.rs:838-853 | The wake-up time is less than 100/d ms after any time at which the budget covers the requirement. |
| Airtime.ReadyStays | repeater/src/app/mod.rs:838-853 | Having waited longer than the wake-up time does no harm: the budget still covers the requirement. |
| Airtime.GateIsExact | repeater/src/app/mod.rs:1045-1053 | For any clock reading with a successor the gate opens exactly when the budget covers the packet. |
| Airtime.GateOpensAtClockEnd | repeater/src/app/mod.rs:838-853 | At the last 64-bit clock reading the saturating sum lets an uncovered packet through: a concrete budget. |
| Airtime.GateFailsOnlyAtClockEnd | repeater/src/app/mod.rs:838-853 | The gate agrees with the budget if and only if the clock reading has a successor or the packet was covered anyway. |
| Airtime.ChargeStaysSolvent | repeater/src/app/mod.rs:1048-1104 | A charge let through by the gate at an earlier reading never takes the budget below zero. |
| Airtime.UpdateCredit | repeater/src/app/mod.rs:819-836 | A refill never raises the exact balance, counted with its fractions and capped. |
| Airtime.ChargeCredit | repeater/src/app/mod.rs:855-862 | A charge takes its full airtime off that balance. |
| Airtime.RefillExactly | repeater/src/app/mod.rs:819-836 | In the configured percentage d: a full bucket is 36000 d ms, and an update leaves the smaller of that and what was available plus d hundredths of the time passed, despite saturation. |
| Airtime.ChargeExactly | repeater/src/app/mod.rs:855-862 | A charge takes its airtime off exactly that. |
| Airtime.UnlimitedExactly | repeater/src/app/mod.rs:819-862 | At 100 percent and above the budget is an hour, never waited for and never charged. |
| SeenPackets.CacheRefinesHistory | protocol/src/seen_packet_cache.rs:24-65 | Over every run with a clock that never goes back, a signature is contained exactly when it was last touched at most one TTL ago and fewer than the capacity of distinct signatures were touched since, although pruning looks only at the front. |
| SeenPackets.ContainsIsRemembers | protocol/src/seen_packet_cache.rs:33-38 | The answer of a lookup is the answer of the history. |
| SeenPackets.TouchRepresents | protocol/src/seen_packet_cache.rs:40-54 | Moving a signature to the back and evicting from the front represents the longer history. |
| SeenPackets.PruneRepresents | protocol/src/seen_packet_cache.rs:56-65 | Pruning from the front drops exactly what the history no longer remembers. |
| SeenPackets.SeenPacketCache.CheckAndInsert | protocol/src/seen_packet_cache.rs:24-31 | Inserted exactly when not contained after pruning; the entries afterwards. |
| SeenPackets.SeenPacketCache.Contains | protocol/src/seen_packet_cache.rs:33-38 | The entries are the pruned ones and the answer is membership among them. |
| SeenPackets.SeenPacketCache.Touch | protocol/src/seen_packet_cache.rs:40-54 | The loops compute removal, eviction down to the capacity and the append. |
| SeenPackets.SeenPacketCache.Prune | protocol/src/seen_packet_cache.rs:56-65 | The loop removes the stale front. |
| Mesh.FloodForwardedOnce | protocol/src/packet.rs:194-219 | In every run of a network with any delivery, and in any window no longer than the TTL in which a node sends at most as many different signatures as its cache holds, that node transmits a given flood (kind, route type, region code, payload) at most once as a forward, whatever else the run holds. |
| Mesh.FloodForwardedAtMostN | protocol/src/packet.rs:194-219 | In a network of N repeaters, one such window per node, each placed anywhere in the run, sees at most N forwards of the flood in total. |
| Mesh.FloodsDescend | repeater/src/app/mod.rs:1312-1392 | Every flood in the air descends from an originated frame through a chain of forwards of at most 63 hops; a node that never had loop detection off appears on it at most as often as its largest threshold, and if that holds of all nodes the whole chain is at most as long as those thresholds together. Configurations may change between any two steps. |
| Mesh.SameFloodSamePreimage | protocol/src/packet.rs:194-219 | The bytes hashed for deduplication are equal exactly when two packets are the same flood. |
| Mesh.MeshStepKeeps | repeater/src/app/mod.rs:1208-1284 | One step of one node, in any configuration it may then have, or one origination, keeps: every node sound, every queued forward signed as it will be sent, every flood frame descended from an origin. |
| FloodChains.ChainLengthBounded | repeater/src/app/mod.rs:72-86 | Along a chain of flood forwards a node that has loop detection on at each of its hops appends itself at most as often as the largest of its thresholds; if all nodes have, the chain is at most as long as those together; every chain ends by 63 hops. |
| Forwarding.FloodHop | repeater/src/app/mod.rs:1363-1392 | One flood forward adds exactly this node's prefix at the end, below its threshold, within 63 hops and 64 bytes. |
| Replies.ReplyRetraces | repeater/src/app/mod.rs:493-555 | A direct packet sent on the reversed route of a flood that came through pairwise distinct nodes v1..vk is decided to be passed on by vk, then on down to v1, and each of their engines takes it into its queue, if that node did not know the signature, handles no other packet of it and has room. |
| Replies.ReplyNamesEachHop | protocol/src/path.rs:62-110 | The decisions alone, for any chain: the reply with k hops ahead is passed on by the k-th node of the original route and then has k - 1 ahead, under whatever configuration that node then has. |
| Schedules.AcceptedExactly | repeater/src/app/mod.rs:493-555 | A forward is taken into the queue if and only if its signature is neither reserved nor transmitted in the last 15 s with fewer others since than the cache holds, and fewer than sixteen packets, or than configured, are queued or in flight; then it is due after its delay, and otherwise queue, reservations and history stay as they were. |
| Replies.HeldIsRefused | repeater/src/app/mod.rs:545-555 | While a node has the signature reserved or remembers having transmitted it, it refuses the reply. |
| Replies.SecondPassRefused | repeater/src/app/mod.rs:545-555 | Of two passes in a row at one node the second is dropped as a duplicate. |
| Replies.RouteNamesNodeTwice | repeater/src/app/mod.rs:72-86 | Such routes exist: in minimal mode with one-byte hops a node passes the same plain flood on twice in a row. |
| Replies.ReplyStep | repeater/src/app/mod.rs:1394-1418 | The node a reply meets next takes exactly its own hop off and forwards it. |
| Forwarding.ForwardedFits | repeater/src/app/mod.rs:1228-1246 | Whatever decodes and is forwarded or captured encodes to at most 254 bytes and decodes back, so the encode-failed and too-long branches cannot be reached. |
| Forwarding.SignatureSurvivesHop | repeater/src/app/mod.rs:1312-1392 | The reserved signature is that of the packet as sent: appending or consuming a hop does not change what is hashed. |
| Allowed.FloodOnlyWhereAllowed | repeater/src/app/mod.rs:1312-1392 | A flood leaves only in a scope that admits it and below the hop limits: adverts below theirs, unscoped floods below theirs and not where the wildcard is closed, scoped ones with the usable code of an open region. |
| Allowed.FloodExactly | repeater/src/app/mod.rs:1312-1392 | A flood, plain, scoped or captured, is passed on if and only if the scope it is in or is put into by region capture is open here (the wildcard, or the first admitting region) and no hop limit, loop threshold or route size is reached. |
| Allowed.PlainFloodExactly | repeater/src/app/mod.rs:1343-1392 | A plain flood to which region capture does not apply is passed on if and only if the wildcard is open, the hop limits and the loop threshold are not reached, and another hop fits. |
| Allowed.CaptureIsFirstHop | repeater/src/app/mod.rs:1324-1346 | A captured flood came unscoped with no hops and leaves, one hop on, in the scope of the default region. |
| Allowed.DirectExactly | repeater/src/app/mod.rs:1394-1418 | A direct packet is passed on if and only if its next hop names this node, and leaves without that hop and otherwise as it came. |
| Allowed.MatchIsFirst | repeater/src/app/regions.rs:201-212 | The region found is the first one open with the packet's code such that no region before it lacks a usable key. |
| Allowed.CodeOf | repeater/src/app/regions.rs:214-236 | A packet has a code in a region exactly when the region's key is usable: the digest of kind and payload, with 0 moved to 1 and 0xFFFF to 0xFFFE. |
| Allowed.UnloopedExactly | repeater/src/app/mod.rs:72-86 | A loop is detected from four, two or one own prefixes on, by mode and hash length, counted as stretches of the route's bytes. |
| Decisions.PrepareExactly | repeater/src/app/mod.rs:1286-1310 | Over every packet off the wire: it is passed on if and only if repeating is on, its kind is neither reserved nor raw, and for a trace the next name is this node's and a sample fits, for another flood its scope is open and no limit is reached, for another direct packet its next hop is this node. |
| Decisions.PreparedExactly | repeater/src/app/mod.rs:1312-1454 | As what it is passed on: a trace with the clamped sample, a flood in its scope with the node's prefix at the end and marked captured exactly if it was moved, a direct packet without its first hop; each under its own signature. |
| Decisions.DropExactly | repeater/src/app/mod.rs:1286-1454 | Which packets that are not passed on are reported as dropped, and which are let go. |
| ForwardingSteps.PrepareFloodForward | repeater/src/app/mod.rs:1312-1392 | The branch-by-branch preparation, changing the packet on the way, decides what the rules above are proved about. |
| ForwardingSteps.PrepareDirectForward | repeater/src/app/mod.rs:1394-1418 | The same for direct packets. |
| ForwardingSteps.PrepareTraceForward | repeater/src/app/mod.rs:1420-1454 | The same for traces. |
| ForwardingSteps.MatchTransportRegion | repeater/src/app/regions.rs:201-212 | The loop finds the first allowed region with the packet's code, and an unusable key ends it. |
| ForwardingSteps.DetectsLoop | repeater/src/app/mod.rs:72-86 | The counting loop decides whether own prefixes reach the threshold. |
| Traces.TraceFollowsItsList | repeater/src/app/mod.rs:1420-1454 | A trace visits exactly the nodes it names, in order, each adding its clamped sample at the end, and never goes past the last name. |
| Traces.TraceHashesAnew | protocol/src/packet.rs:194-219 | No two hops of one trace hash the same bytes, so deduplication does not stop it. |
| Packets.PacketCodec | protocol/src/packet.rs:17-113 | For all bytes and packets: b decodes to p if and only if p is in range and encodes to exactly b. |
| Packets.DecodedEncodes | protocol/src/packet.rs:17-113 | Every byte string the decoder accepts is the encoding of its packet. |
| Packets.EncodedDecodes | protocol/src/packet.rs:66-113 | Every in-range packet that encodes is decoded back. |
| Packets.RoundTripExactly | protocol/src/payload_kind.rs:20-56 | A packet that encodes comes back if and only if its reserved numbers are in range. |
| Packets.OutOfRangeKindIsLost | protocol/src/payload_kind.rs:39-56 | A concrete packet with a reserved kind of 16 encodes and does not come back. |
| Packets.HeaderCodec | protocol/src/header.rs:11-36 | The header byte and (kind, route) determine each other, with the 0xFF sentinel and other versions refused. |
| Layout.PacketLayout | protocol/src/packet.rs:66-113 | In numbers: kind over route type in the first byte, the codes little-endian with the primary one first, the length byte of the route and its hashes or samples, then the payload. |
| Layout.PayloadLayout | protocol/src/payload.rs:46-88 | In numbers: every field of every kind of payload at its place. |
| Layout.DataLayout | protocol/src/advert_app_data.rs:66-99 | In numbers: node type and flags, signed coordinates, features and name. |
| Layout.HashedLayout | protocol/src/packet.rs:194-219 | In numbers: the bytes hashed for deduplication. |
| Layout.EncodesExactly | protocol/src/packet.rs:66-113 | A packet has a wire form if and only if codes match the route type, a neighbours-only control payload goes direct with no hops, the route fits 64 bytes and 63 hops, and the payload fits its own format and 184 bytes. |
| Faults.DecodeFaults | protocol/src/packet.rs:17-64 | Which error the decoder gives for which bytes in front of the payload, the first fault first, and that the payload decides otherwise. |
| Faults.PayloadFaults | protocol/src/payload.rs:46-88 | Which error for which payload bytes of each kind. |
| Faults.AdvertDataFaults | protocol/src/advert_app_data.rs:17-64 | Which error for which advert data. |
| Utf8.ValidExactly | protocol/src/advert_app_data.rs:44-64 | A name passes if and only if it is the UTF-8 form of a sequence of Unicode scalar values. |
| Packets.RouteCodec | protocol/src/trace_path.rs:21-49 | A route, normal or trace, decodes from exactly the bytes it encodes to. |
| Packets.DecodeStepwise | protocol/src/packet.rs:17-64 | Decoding by moving an offset equals the specified decoder. |
| Packets.DecodeAfterCodes | protocol/src/packet.rs:36-64 | The part behind the transport codes: length byte, path, payload. |
| Packets.EncodeStepwise | protocol/src/packet.rs:66-113 | Encoding by pushing onto a buffer equals the specified encoder. |
| Payloads.PayloadCodec | protocol/src/payload.rs:46-88 | For every kind: a payload decodes from exactly the bytes it encodes to. |
| Payloads.AppDataCodec | protocol/src/advert_app_data.rs:17-99 | Flag-driven fields: decoding and encoding advert data are exact inverses on in-range values. |
| Payloads.AdvertCodec | protocol/src/advert_payload.rs:18-49 | The same for the whole advert. |
| Payloads.TraceCodec | protocol/src/trace_payload.rs:16-48 | The same for trace payloads, with flags and alignment to the hash size. |
| Payloads.KindCodec | protocol/src/payload_kind.rs:20-56 | A kind and its nibble determine each other for in-range kinds. |
| Paths.PathCodec | protocol/src/path.rs:112-154 | The length byte and bytes of a path decode to it if and only if it encodes to them. |
| Paths.AppendHashes | protocol/src/path.rs:86-102 | Appending puts exactly the node's prefix behind the listed hashes and keeps the path valid. |
| Paths.RemoveHashes | protocol/src/path.rs:104-110 | Removing drops exactly the first hash. |
| Paths.ReversedHashes | protocol/src/path.rs:62-71 | Reversal reverses whole hashes and is its own inverse. |
| Paths.ReversePath | protocol/src/path.rs:62-71 | The loop from the last hash computes the reversal. |
| Wire.Cursor.ReadBytes | protocol/src/wire.rs:10-20 | The next bytes and the moved offset, or an error that leaves the offset where it was. |
| Wire.Cursor.ReadU16 | protocol/src/wire.rs:37-39 | A little-endian half word off the cursor. |
| Wire.Cursor.ReadU32 | protocol/src/wire.rs:41-43 | A little-endian word off the cursor. |
| Wire.Cursor.ReadI32 | protocol/src/wire.rs:45-47 | A signed little-endian word off the cursor. |
| Wire.ReadAppData | protocol/src/advert_app_data.rs:17-64 | Reading field by field equals the decoder proved canonical. |
| Wire.WriteAppData | protocol/src/advert_app_data.rs:66-99 | Gathering flags and extending the buffer equals the encoder proved canonical. |
| Wire.ReadTrace | protocol/src/trace_payload.rs:16-37 | Reading a trace payload equals the decoder proved canonical. |
| Wire.PathBuffer.AppendHash | protocol/src/path.rs:86-102 | In place: the path grows by one hash, or an error leaves it unchanged. |
| Wire.PathBuffer.RemoveFirstHash | protocol/src/path.rs:104-110 | In place: the first hash is handed back and gone, or there was none. |
| Wire.PathFromHashes | protocol/src/path.rs:24-44 | Succeeds exactly when count, length and sizes fit, and then the path lists exactly these hashes; otherwise which error arises. |
| OtaStream.ReceiveUpdate | platform/esp32/src/ota.rs:173-199 | For every way of cutting an upload: success means the joined pieces are a valid image that the slot now holds, padded with the erased value; a valid image that fits fails only on a flash error; and in every outcome nothing outside the slot differs and all accesses asked for are disciplined and erase no more than the slot. |
| OtaStream.OtaUpdate.Write | platform/esp32/src/esp.rs:206-249 | Each error exactly when the source gives it, and then with flash untouched; on success whole words of everything uploaded are in flash and the rest is in the tail; after a flash error the accesses are still disciplined and what was accepted is a prefix of what was offered. |
| OtaStream.OtaUpdate.Finish | platform/esp32/src/esp.rs:251-265 | Flushes the tail with its padding; unless flash fails, succeeds exactly when the uploaded bytes are a valid image; disciplined in every outcome. |
| OtaStream.OtaUpdate.VerifyImage | platform/esp32/src/esp.rs:267-327 | Reading back through unaligned block reads decides exactly the validity predicate of the uploaded bytes. |
| OtaStream.OtaUpdate.CheckSegments | platform/esp32/src/esp.rs:281-326 | Segment by segment with a running checksum equals the one-shot layout and checksum. |
| OtaStream.OtaUpdate.SumSegment | platform/esp32/src/esp.rs:306-314 | Summing in blocks of 1024 bytes is summing the segment. |
| OtaStream.OtaUpdate.EnsureErased | platform/esp32/src/esp.rs:335-341 | Erases no more sectors than needed, keeping content and discipline. |
| OtaStream.OtaUpdate.WriteAlignedTail | platform/esp32/src/esp.rs:329-333 | The tail word lands behind what is already there. |
| OtaStream.XorInto | platform/esp32/src/esp.rs:309-311 | The byte loop computes the checksum of the block. |
| Ota.AccessInSlot | platform/esp32/src/esp.rs:335-341 | Every erase is a whole sector of the slot and every write is 4-aligned and inside it. |
| Ota.TouchedOnce | platform/esp32/src/esp.rs:335-341 | No sector is erased twice and no byte is programmed twice. |
| Ota.ErasedBeforeProgrammed | platform/esp32/src/esp.rs:335-341 | Every programmed byte was erased before and is not erased after. |
| Ota.ProgramNext | platform/esp32/src/esp.rs:541-586 | Programming, which can only clear bits, stores the bytes because the sector was erased. |
| Ota.DisciplinedBlocks | platform/esp32/src/esp.rs:563-586 | Writing in blocks of at most 256 words keeps the discipline. |
| Ota.SealedStep | platform/esp32/src/esp.rs:281-326 | Validity from one segment on is: it fits, and validity of the rest with the checksum carried on. |
| Ota.ValidIsLong | platform/esp32/src/esp.rs:267-327 | Every accepted image has at least 48 uploaded bytes (hence at least 36), starts with the magic and carries the app-descriptor magic in uploaded bytes. |
| Images.AcceptedExactly | platform/esp32/src/esp.rs:267-327 | An upload is accepted if and only if it is an image as built: 0xE9 and the count, a header otherwise ignored, one to sixteen segments of little-endian address, length and payload, padding to the last byte of a 16-byte line, there the exclusive or of all payload bytes with 0xEF, any tail, and the application magic at byte 32. |
| Images.FirstPayloadDescribes | platform/esp32/src/esp.rs:267-327 | In particular every such image whose first payload begins with the application magic. |
| Ota.CorruptionRejected | platform/esp32/src/esp.rs:306-326 | A valid image with any one payload byte, or the checksum byte, changed is no longer valid. |
| Flash.Chip.Read | platform/esp32/src/esp.rs:515-538 | An unaligned read through aligned words returns exactly the bytes asked for. |
| Flash.Chip.WriteWords | platform/esp32/src/esp.rs:541-561 | Refuses unaligned offsets; otherwise programs the words in little-endian order. |
| Flash.Chip.WriteBlock | platform/esp32/src/esp.rs:574-583 | The next block of at most 256 words. |
| Flash.Chip.WriteAligned | platform/esp32/src/esp.rs:563-586 | Refuses partial words; otherwise programs exactly these bytes, block by block with the offset saturating; even on failure nothing outside differs and the accesses asked for are the first of its blocks. |
| Flash.BlocksExactly | platform/esp32/src/esp.rs:572-583 | A range is written 1024 bytes at a time, in order, and what is left at last. |
| Flash.Chip.EraseSector | platform/esp32/src/esp.rs:606-619 | Refuses unaligned offsets; otherwise the sector reads 0xFF and nothing outside differs. |
| Flash.PackedBytes | platform/esp32/src/esp.rs:575-578 | Packing bytes into words and storing the words stores the bytes. |
| Flash.AlignUpIsLeast | platform/esp32/src/esp.rs:664-666 | The result is the least multiple not below the value. |
| WebSocketReader.Reader.Read | repeater/src/app/mqtt/transport.rs:163-242 | For every buffer size and every way the connection cuts the stream: the fields equal the state of the one-shot parser on the bytes consumed and the bytes handed over extend what it delivers; it fails only if the connection fails or no payload byte comes before the end or a violation. |
| WebSocketReader.Reader.ReadFrame | repeater/src/app/mqtt/transport.rs:172-229 | Takes one data header or one whole control frame off the stream, as the parser does, leaving what is still to come unchanged. |
| WebSocketReader.Reader.ReadHeader | repeater/src/app/mqtt/transport.rs:173-204 | Reserved bits, mask bit and the three length forms (section 5.2 of RFC 6455), refusing longer forms than needed. |
| WebSocketReader.Reader.ReadPayload | repeater/src/app/mqtt/transport.rs:230-241 | Hands over at least one and at most the remaining payload bytes. |
| WebSocketStreams.ReaderOnLegalStream | repeater/src/app/mqtt/transport.rs:163-242 | On every legal sequence of server frames, fragmented and with control frames in between, what a reader has handed over is a prefix of the joined binary payloads, its pongs a prefix of the pings, and it can go on while any payload is missing. |
| WebSocketStreams.ReadSession | repeater/src/app/mqtt/transport.rs:163-242 | Reading on into buffers of any size until the reader gives up ends, on every legal stream, with every payload byte handed over in order, unless the connection failed. |
| WebSocketStreams.DeliveredIsPrefix | repeater/src/app/mqtt/transport.rs:163-242 | The same of the parser, wherever between items the stream is cut. |
| WebSocketStreams.LegalScans | repeater/src/app/mqtt/transport.rs:163-242 | The parser reads every legal stream to its end and delivers exactly its payloads and pings (sections 5.4 and 5.5 of RFC 6455). |
| WebSocket.ScanSplit | repeater/src/app/mqtt/transport.rs:163-242 | Parsing in two goes is parsing at once. |
| WebSocket.DeliversPayload | repeater/src/app/mqtt/transport.rs:163-242 | What delivers anything has a payload byte to offer, so the reader is not stuck on it. |
| WebSocket.HeaderExactly | repeater/src/app/mqtt/transport.rs:173-204 | In numbers: which headers are refused, when a header is all there, and the length that two or eight bytes say with the first one highest. |
| WebSocket.FrameExactly | repeater/src/app/mqtt/transport.rs:204-229 | Which frames are refused by opcode, place in a message, fragmentation and length of a control frame, and what is taken off otherwise. |
| WebSocketStreams.Write | repeater/src/app/mqtt/transport.rs:244-272 | Builds the frame with the shortest length form and masks byte by byte. |
| WebSocketStreams.WrittenIsRead | repeater/src/app/mqtt/transport.rs:251-267 | A conforming server reads back exactly the opcode and data (section 5.3 of RFC 6455). |
| WebSocketStreams.MaskedTwice | repeater/src/app/mqtt/transport.rs:266-266 | Masking with the same key again unmasks. |
| RemoteRuns.OneEntryPerKey | repeater/src/app/remote.rs:45-157 | Over every run a public key has at most one entry across both privilege tables. |
| RemoteRuns.AcceptedIncrease | repeater/src/app/remote.rs:125-145 | Over every run, a timestamp accepted for a key exceeds the one its last login brought and every one accepted since. |
| RemoteRuns.RevokedUntilLogin | repeater/src/app/remote.rs:45-48 | A removed key has no privilege, no session and no accepted timestamp until it logs in again. |
| RemoteRuns.LoginDisplacesOldest | repeater/src/app/remote.rs:50-76 | A login displaces another fresh session only of its own kind, only when all slots of that kind hold fresh sessions, and then one idle for longest. |
| RemoteRuns.GuestsNeverEvictAdmins | repeater/src/app/remote.rs:50-76 | A guest login leaves every fresh admin session of another key as it was. |
| RemoteRuns.PrivilegeExactly | repeater/src/app/remote.rs:78-96 | A key has a privilege exactly when a session of that privilege was used in the last ten minutes. |
| RemoteRuns.AcceptRaises | repeater/src/app/remote.rs:125-145 | An accepted timestamp beats the one on record and becomes it. |
| RemoteRuns.AcceptExactly | repeater/src/app/remote.rs:125-145 | A timestamp is accepted if and only if it is newer than the one on record in a session of that privilege used in the last ten minutes. |
| RemoteRuns.UseExtends | repeater/src/app/remote.rs:50-145 | A login, a question for the privilege and an accepted timestamp give the session ten minutes from then, and no more. |
| RemoteRuns.OthersStay | repeater/src/app/remote.rs:45-145 | Everything but a login leaves the fresh sessions of other keys exactly as they are. |
| RemoteLogins.RemoteLoginTable.Authenticate | repeater/src/app/remote.rs:50-76 | Prune, remove from both tables, take the first empty or the oldest slot: the whole new state. |
| RemoteLogins.RemoteLoginTable.PrivilegeFor | repeater/src/app/remote.rs:78-96 | Admin before guest, with the last-seen time refreshed; the whole new state. |
| RemoteLogins.RemoteLoginTable.SessionsMatching | repeater/src/app/remote.rs:98-123 | The eight slots hold the session of exactly those slots, admins first and in order, that hold a login used in the last ten minutes whose key begins with the hash, once each, with its key, secret, reply path and the privilege of its table; then nothing. |
| RemoteLogins.RemoteLoginTable.AcceptNewerTimestamp | repeater/src/app/remote.rs:125-145 | Accepted exactly when strictly newer in the table of that privilege; the whole new state. |
| RemoteLogins.RemoteLoginTable.Remove | repeater/src/app/remote.rs:45-48 | The key leaves both tables. |
| RemoteLogins.RemoteLoginTable.Prune | repeater/src/app/remote.rs:147-150 | Exactly the sessions idle for more than ten minutes go. |
| RemoteLogins.PruneEntries | repeater/src/app/remote.rs:160-169 | The loop clears exactly the stale slots. |
| RemoteLogins.Find | repeater/src/app/remote.rs:171-179 | The first slot with the key, or none. |
| RemoteLogins.FirstEmptyIndex | repeater/src/app/remote.rs:213-215 | The first empty slot, or none. |
| RemoteLogins.OldestIndex | repeater/src/app/remote.rs:217-233 | The first empty slot or else the first of those idle for longest. |
| RemoteLogins.AppendMatching | repeater/src/app/remote.rs:191-211 | Appends exactly the matching sessions behind those already found. |
| Neighbours.ListingIsComplete | repeater/src/app/neighbours.rs:100-149 | Paging with the offset advanced by what came back ends and lists every neighbour exactly once in the chosen order if and only if the table is no longer than two-byte offsets reach; up to 65535 it always is. |
| Neighbours.LongTableIsCutShort | repeater/src/app/neighbours.rs:100-149 | For every way of paging there is a table one neighbour longer than its reach whose last neighbour is never listed. |
| Neighbours.ResponseReadsBack | repeater/src/app/neighbours.rs:118-147 | A client reads back the capped table length, the number of entries, and for each its key prefix, its age in whole seconds and its clamped signal. |
| Neighbours.ClientGetsPage | repeater/src/app/neighbours.rs:100-149 | A client that sends count, little-endian offset, order and prefix length gets back the table length, the number of lines, and the lines of exactly that stretch of the table in the order asked for, as many as fit 130 bytes. |
| Neighbours.OwnUnobserved | repeater/src/app/neighbours.rs:56-62 | An observation of the node's own key, by its first four bytes, changes nothing. |
| Neighbours.PageBounds | repeater/src/app/neighbours.rs:126-141 | A page takes at most 130 result bytes and is never empty while entries remain. |
| Neighbours.TableStaysSound | repeater/src/app/neighbours.rs:56-98 | Under every sequence of observations keys stay unique, within capacity, and the node never lists itself. |
| Neighbours.ObservedEffect | repeater/src/app/neighbours.rs:56-98 | What one observation changes and what it leaves alone, with the longest-unheard neighbour making room in a full table. |
| Neighbours.SortIsSort | repeater/src/app/neighbours.rs:252-271 | The selection sort yields the same entries in the chosen order. |
| Neighbours.SortNeighbours | repeater/src/app/neighbours.rs:252-262 | The in-place loops compute that sort. |
| Neighbours.NeighbourTable.EncodeBinaryResponse | repeater/src/app/neighbours.rs:100-149 | Malformed requests change nothing; otherwise exactly the page of the sorted listing is appended, with its count patched in. |
| Neighbours.EncodeEntries | repeater/src/app/neighbours.rs:126-141 | The loop stops at the first of count, end of listing and room, and encodes exactly those entries. |
| Neighbours.NeighbourTable.ObservePublicKey | repeater/src/app/neighbours.rs:56-98 | The whole new table. |
| Neighbours.NeighbourTable.OldestIndex | repeater/src/app/neighbours.rs:178-190 | The first of the neighbours unheard for longest. |

## Left out

- Hashing, message authentication, signatures and encryption: the packet digest and the region code are arbitrary functions of their inputs, and every theorem holds whichever they are.
- Async executor, wakers and locks: each stretch between two awaits is one atomic step; how a waiting future is woken is not modelled. Within `prepare_flood_forward` the configuration is read twice with an await in between (repeater/src/app/mod.rs:1324-1357); the model takes one configuration for both.
- Radio, channel-activity detection, timers and random delays: the outcome of a transmission, retry delays and forwarding delays are arbitrary values of the steps; `packet_airtime_ms` is an arbitrary function of the packet length.
- The reboot after a reply (repeater/src/app/mod.rs:1138-1140) ends a run and is not a step; the flag only travels with its packet.
- Clock readings of a run are below the last 64-bit value, where `Airtime.GateOpensAtClockEnd` shows the gate failing.
- Packet and route values: `Path`, `TracePath` and `Packet` are values in the codec and the forwarding proofs; `Wire.PathBuffer` shows the in-place path operations on them. Sharing of one packet object between callers is not modelled, as the source has none.
- Names of fields inside error values are dropped; which error arises, and its numbers, are kept.
- Mesh.FloodForwardedAtMostN: counts one window per node, no longer than a TTL and within that node's cache, as the source promises no more: after a TTL, or after a cache full of other signatures, a flood may be forwarded again. Node hashes are fixed over a run.
- OtaStream.OtaUpdate.Write: after a flash error does not say how much of the offered piece was taken or what the slot then holds; the caller drops the update (platform/esp32/src/ota.rs:173-199).
- WebSocketReader.Reader.Read: after an error promises nothing about the reader, whose session ends then; a read abandoned half way through a header is not modelled.
- The pong signal keeps only the latest ping; the model keeps the list of all of them, of which the signal shows the last.
- Selecting the OTA slot, the partition table, the HTTP exchange around an upload and the activation readback are not modelled.
- Signature checks and packet filters in front of `observe_public_key` (repeater/src/app/neighbours.rs:31-54), summaries and logging: one-branch facts.
- Login passwords and access lists (repeater/src/app/remote.rs:235-269), the command line, configuration text and the region map editor: string handling.
- RSSI and SNR units, packet counters in status reports, MQTT reporting, TLS and the upgrade handshake.
