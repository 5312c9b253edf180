# Verified models of the gateway's media, presence and streaming cores

This project models, in Dafny, the parts of the gateway and its front end whose correctness ranges over
whole runs, and proves the properties they exist for.

* **The H.264 RTP pipeline.** `Rtp`, `StapA`, `Mode0`, `AccessUnits`, `ParameterSets`, `Injection`,
  `Outbound`, `FirstMb` and `Normalizer` model the packets, the STAP-A walkers and builder (section 5.7.1 of RFC 6184),
  the FU-A reassembler of single-NAL mode (sections 5.8 and 6.2 of RFC 6184) and the access-unit normalizer:
  a state machine on values, and a mutable class proved to implement it. `AssemblyRuns`, `AssemblyLimits`,
  `OutboundRuns` and `NormalizerRuns` prove what holds over every run; `OutboundHistory` and `NormalizerHistory`
  say what is sent, held and emitted from the operations and events alone.
* **The SPS parser.** `ExpGolomb`, `EmulationPrevention` and `Sps` model the bit reader, the emulation
  prevention filter and the picture-size parser, against encoders written from sections 7.3.1, 7.3.2.1.1
  and 9.1 of ITU-T H.264 and the size formula of section 7.4.2.1.1.
* **Agent presence.** `AgentPresence` models the reference-counted SIP registration as atomic steps of one
  program counter per client, interleaved freely under the server mutex and one operation lock per trunk;
  `PresenceRuns` proves what each client and each cleanup can rely on.
* **Fast forms against simple ones.** `EchoGuard`/`EchoGuardRuns` (a map bounded in time and size against an
  unbounded memory), `ChatBody` (the canonical form of a message), `LogTail` (a backward chunked reader against
  splitting the whole file), `SseStream`/`SseCuts` (an incremental parser against the printer, under any chunking) and
  `DiagnosticsRate` (a fixed window against every sliding one). `Text` holds the library string functions and
  `Sequences` facts about concatenation.

Bytes are integers below 256, sequence numbers and timestamps are kept modulo 2^16 and 2^32 explicitly, and
the 64-bit steps of the wall clock and of the picture size are written out. Clocks, the network and SIP
operations are inputs: a method takes the time it would read, and an interleaving decides when a SIP call
completes. Where an object of the repository updates its fields, the model is a class whose methods are proved
against functions on the old state; the lemmas about whole runs are about those functions.

Five promises turned out narrower than they read, and are stated as they are, each with an exact condition and
an input for which it fails:

* Loss at the head of an access unit is noticed if and only if it cuts an FU-A unit in two (`HeadLossEmittedIff`,
  `HeadLossExample`).
* An emitted access unit lacks its marker if and only if a forced injection met an IDR unit ending in a bare SPS or PPS
  (`EmittedMarkerLostIff`, `MarkerLostExample`).
* The wall-clock step is exact up to the 64-bit product, about 28 hours (`WallStepExactIff`, `WallStepWraps`).
* The log tail can report more lines than there are, or return only the end of a line, when two or more line feeds
  close the file; `CallRightIff` says for which files, sizes and chunks, `TailExactIff` when no request can go
  wrong, and `LongLineCut` and `ClosingLfsMislead` give requests that do.
* In an event stream with CR LF line ends, a chunk that ends between a CR and its LF can lose deliveries: the blank
  line they end is missed and the event before it runs on into the next one (`CutMergesEvents`, and `CutLosesDelivery`
  for an input). For a subscriber that can deliver anything at all, such a cut is harmless whatever follows if and only
  if the line is not blank, or the event before it has no data and a name that tells the subscriber no more than none
  (`CutCrLfHarmlessIff`).

The comment above the picture-size parser says that profiles other than Baseline are refused; the code reads
the high profiles too, as long as they carry no scaling matrix, and the model follows the code.

## Model

| member | source | states |
|---|---|---|
| Rtp.MasksAsQuotients | apps/gateway/internal/session/h264_mode0.go:103-117 | the type and the reference bits the model takes by quotients are those the code takes by masks, for every byte |
| Rtp.BitsAsQuotients | apps/gateway/internal/session/h264_mode0.go:104-106 | so are the start and end bits of a fragment header |
| Rtp.NextSeqWraps | apps/gateway/internal/session/h264_mode0.go:112 | sequence numbers count up and start again after 65535 |
| AgentPresence.PresenceTable.BindAgentClient | apps/gateway/internal/api/ws_agent.go:95-131 | a client moves to a trunk; the result says whether the trunk was empty and what is left of the client's previous trunk; no trunk changes nothing |
| AgentPresence.PresenceTable.UnbindAgentClient | apps/gateway/internal/api/ws_agent.go:135-160 | a client leaves its trunk; the result says which, whether it was counted there, and how many remain |
| AgentPresence.PresenceTable.Detach | apps/gateway/internal/api/ws_agent.go:109-117 | the client leaves one trunk's set, an emptied set leaves the map, and the number that remain is returned |
| AgentPresence.BindMoves | apps/gateway/internal/api/ws_agent.go:107-130 | binding changes no other client's membership, keeps sets and fields in agreement, asks for a REGISTER exactly when the trunk had no members, and reports the trunk left, how many remain there, and so exactly the trunk that became empty |
| AgentPresence.UnbindRemoves | apps/gateway/internal/api/ws_agent.go:142-159 | unbinding removes the client everywhere and nobody else, and reports its trunk, how many remain there, and so exactly the trunk that became empty |
| AgentPresence.StepKeepsBoundWatched | apps/gateway/internal/api/ws_agent.go:67-76 | after any step of any handler, a trunk that is bound but not registered has a handler that will register it |
| AgentPresence.StepKeepsUnboundWatched | apps/gateway/internal/api/ws_agent.go:236-277 | after any step, a trunk that is unbound but registered, or about to be registered again by a repair, has a handler that will unregister it |
| AgentPresence.RepairExcludesUnregister | apps/gateway/internal/api/ws_agent.go:186-191 | the per-trunk lock keeps a repairing REGISTER and an UNREGISTER of the same trunk apart |
| AgentPresence.StepKeepsInv | apps/gateway/internal/api/ws_agent.go:58-278 | every step of every handler keeps the invariant over all program counters, locks and bindings |
| AgentPresence.UntouchedTrunkMatchesPresence | apps/gateway/internal/api/ws_agent.go:58-278 | in every interleaving, a trunk no handler is working on is registered if and only if some client is bound to it, whatever happens to other trunks |
| AgentPresence.QuietMatchesPresence | apps/gateway/internal/api/ws_agent.go:267-277 | in every interleaving, once no handler is in flight, exactly the bound trunks are registered and no trunk lock is held |
| AgentPresence.SomeHandlerCanStep | apps/gateway/internal/api/ws_agent.go:186-191 | the trunk locks never deadlock |
| AgentPresence.HandlersCanFinish | apps/gateway/internal/api/ws_agent.go:58-278 | from every reachable state the handlers in flight can all finish without any new message |
| AgentPresence.EveryScheduleFinishes | apps/gateway/internal/api/ws_agent.go:58-278 | however the handlers in flight are scheduled, they take no more steps than they have left, and nothing can step exactly when all have finished |
| PresenceRuns.FinishedFindsRegistered | apps/gateway/internal/api/ws_agent.go:58-278 | in every interleaving, a client whose handler has finished and that is resolved to a trunk finds it registered, with no UNREGISTER for it in flight |
| PresenceRuns.UnregisteredClientsRegister | apps/gateway/internal/api/ws_agent.go:257-277 | in every interleaving, every client bound while an UNREGISTER completes still has its own handler on the way to registering |
| PresenceRuns.HarmOnlyUnused | apps/gateway/internal/api/ws_agent.go:238-263 | a step that lists or ends the trunk's sessions or sends its UNREGISTER starts from a state in which nobody is bound to the trunk |
| PresenceRuns.UnusedIsUnregistered | apps/gateway/internal/api/ws_agent.go:236-265 | a cleanup that finds the trunk unused goes on to its UNREGISTER and touches no other trunk |
| PresenceRuns.UsedIsLeftAlone | apps/gateway/internal/api/ws_agent.go:238-260 | a cleanup that finds the trunk in use before its UNREGISTER only releases the lock |
| PresenceRuns.CleanupStartsIff | apps/gateway/internal/api/ws_agent.go:68-70 | a cleanup starts exactly when a step leaves its trunk without clients |
| PresenceRuns.PendingStep | apps/gateway/internal/api/ws_agent.go:71-76 | what a bind found about its trunk stands until the trunk is looked at under its lock, and a REGISTER is sent exactly for the first client or an unregistered trunk |
| PresenceRuns.FirstClientRegisters | apps/gateway/internal/api/ws_agent.go:62-76 | in every interleaving, the first client of a trunk sends a REGISTER before its handler finishes |
| PresenceRuns.RegisterOnlyUsed | apps/gateway/internal/api/ws_agent.go:58-278 | in every interleaving, a REGISTER, first or repairing, is sent only for a trunk somebody is bound to |
| StapA.InspectStapA | apps/gateway/internal/session/h264_access_unit_normalizer.go:603-627 | accepts exactly the well-formed STAP-A payloads and flags exactly the types of their units |
| StapA.H264SpsUnits | apps/gateway/internal/session/h264_sps.go:137-163 | the type 7 units in order, up to the first malformed unit |
| StapA.FindCacheable | apps/gateway/internal/session/h264_access_unit_normalizer.go:648-664 | the cache's walk returns the first unit of the wanted type that has a body |
| StapA.BuildStapAPayload | apps/gateway/internal/session/h264_paramsets.go:6-41 | the payload is the aggregate of the two units, or none when either is empty |
| StapA.WriteUnit | apps/gateway/internal/session/h264_paramsets.go:27-38 | one size field and one unit are written at the offset and no other byte changes |
| StapA.WellFormedIffAggregate | apps/gateway/internal/session/h264_access_unit_normalizer.go:603-627 | a STAP-A payload is well formed if and only if it is the aggregate of some non-empty list of NAL units shorter than 65536 bytes |
| StapA.ReadersAgree | apps/gateway/internal/session/h264_access_unit_normalizer.go:603-677 | every walker sees exactly the aggregated units: accepted, same units in order, same SPS list |
| StapA.JunkIgnored | apps/gateway/internal/session/h264_access_unit_normalizer.go:603-677 | a malformed end makes an aggregate invalid, but the cache's and the SPS walkers still read the whole units before it |
| StapA.SingleSps | apps/gateway/internal/session/h264_sps.go:137-147 | a packet that aggregates nothing yields itself when it is an SPS, and no unit otherwise |
| StapA.OfTypeExact | apps/gateway/internal/session/h264_sps.go:148-162 | filtering keeps every unit of the type and only those |
| StapA.CacheableIff | apps/gateway/internal/session/h264_access_unit_normalizer.go:648-664 | the cache finds something exactly when a unit of the type has more than its header byte |
| StapA.CacheableFirst | apps/gateway/internal/session/h264_access_unit_normalizer.go:648-664 | of several units of the type with a body the first is found |
| StapA.BuildReadsBackIff | apps/gateway/internal/session/h264_paramsets.go:27-38 | what the builder aggregates reads back as its inputs if and only if both lengths fit 16 bits |
| Mode0.Reassembler.Push | apps/gateway/internal/session/h264_mode0.go:76-145 | one push of the mutable reassembler is one step of the state machine, in state and decision |
| Mode0.Reassembler.PushShortFua | apps/gateway/internal/session/h264_mode0.go:38-58 | the step for fragments without a body, taken exactly for payloads under three bytes |
| Mode0.Reassembler.ResetUnit | apps/gateway/internal/session/h264_mode0.go:60-63 | the open unit is dropped with its bytes |
| Mode0.PassedOnIff | apps/gateway/internal/session/h264_mode0.go:76-98 | from any state a packet is passed on as it came if and only if it is not empty, of a type up to 24 and of at most 65495 bytes |
| Mode0.OtherDropped | apps/gateway/internal/session/h264_mode0.go:76-98 | every other packet that is no fragment is dropped for the first reason that applies, as discontinuous when it interrupts an open unit, and closes that unit |
| Mode0.ShortFragment | apps/gateway/internal/session/h264_mode0.go:38-58 | a fragment of less than three bytes is dropped unless it is a whole one-byte unit |
| Mode0.FragmentDropped | apps/gateway/internal/session/h264_mode0.go:99-145 | a full fragment is dropped as discontinuous exactly when it neither starts a unit nor goes on with the open one, as oversized exactly beyond 65495 bytes, and otherwise held or delivered by its end bit |
| Mode0.PushBoundsBuffer | apps/gateway/internal/session/h264_mode0.go:76-144 | from any state, a push leaves at most 65495 retained bytes and none when inactive, unless its packet is empty and changes nothing |
| Mode0.RunBoundsBuffer | apps/gateway/internal/session/h264_mode0.go:76-145 | after every push of every run from a bounded state, such as a new one, the retained bytes are within 65495 and there are none when inactive |
| Mode0.OpenUnitIsRecent | apps/gateway/internal/session/h264_mode0.go:109-126 | over any run, an open unit is the rebuilt form of the packets pushed last |
| Mode0.ReassembledIsRecentRun | apps/gateway/internal/session/h264_mode0.go:76-145 | whenever a push reassembles, the packets pushed last are one start-to-end run of one source and timestamp with consecutive sequence numbers, and the payload is exactly their rebuilt unit |
| Mode0.RunDeliveredIffWithinLimit | apps/gateway/internal/session/h264_mode0.go:109-144 | from any state, a start-to-end run is buffered and then delivered whole if and only if the unit is within the limit |
| Mode0.FragmentsRebuild | apps/gateway/internal/session/h264_mode0.go:116-125 | however a NAL unit was cut into fragments, rebuilding them gives the unit back |
| Mode0.FragmentedUnitDelivered | apps/gateway/internal/session/h264_mode0.go:72-145 | round trip and self-healing: from any state the fragments of a unit are buffered but the last, then exactly the unit is forwarded, if and only if it has at most 65495 bytes |
| Mode0.OneTimestamp | apps/gateway/internal/session/h264_mode0.go:120-124 | all fragments of a run share source and timestamp, and fragment i has sequence number first + i modulo 2^16 |
| AccessUnits.ObservePayload | apps/gateway/internal/session/h264_access_unit_normalizer.go:244-287 | the payload check and the open FU-A unit it leaves |
| AccessUnits.InspectAccessUnit | apps/gateway/internal/session/h264_access_unit_normalizer.go:569-601 | the three flags are true exactly when some packet carries, or starts, a unit of the type |
| AccessUnits.ScanMeaning | apps/gateway/internal/session/h264_access_unit_normalizer.go:244-287 | an accepted prefix is complete FU-A blocks and forwardable payloads, plus at most one open block at its end |
| AccessUnits.ScanAcceptsIffForwardable | apps/gateway/internal/session/h264_access_unit_normalizer.go:211-225 | the one-pass check accepts with nothing open if and only if every payload is forwardable and every FU-A unit is opened, continued with one type and closed with nothing interleaved |
| AccessUnits.HeadCutForwardableIff | apps/gateway/internal/session/h264_access_unit_normalizer.go:244-287 | what is left of forwardable packets after a cut is forwardable if and only if no FU-A unit started before the cut and goes on after it |
| AccessUnits.CarriesIffHolds | apps/gateway/internal/session/h264_access_unit_normalizer.go:569-601 | a complete access unit is found to carry a type exactly when it holds a whole NAL unit of that type, in a packet of its own, in an aggregate or cut into fragments |
| ParameterSets.ReassembleFuaParameterSet | apps/gateway/internal/session/h264_access_unit_normalizer.go:679-711 | the loop returns what collecting consecutive fragments of one type gives, and nothing on any break or above 1200 bytes |
| ParameterSets.CacheableNalFromPackets | apps/gateway/internal/session/h264_access_unit_normalizer.go:640-677 | present, cacheable and the unit are the latest find's, spoiled by any unusable one |
| ParameterSets.UpdateCachedNal | apps/gateway/internal/session/h264_access_unit_normalizer.go:629-638 | the cache after an access unit |
| ParameterSets.ReassembledIsRun | apps/gateway/internal/session/h264_access_unit_normalizer.go:694-710 | a successful reassembly consumed a complete start-to-end run and returns exactly its rebuilt unit |
| ParameterSets.ReassemblersAgree | apps/gateway/internal/session/h264_access_unit_normalizer.go:679-711 | whatever the cache reassembles, single-NAL mode forwards after the same packets, from any state |
| ParameterSets.ReassembledIff | apps/gateway/internal/session/h264_access_unit_normalizer.go:679-711 | on one source a set is reassembled if and only if the packets start with a complete run of its fragments under one indicator, and it is what they rebuild to, of at most 1200 bytes |
| ParameterSets.FragmentedSetReassembled | apps/gateway/internal/session/h264_access_unit_normalizer.go:679-711 | a parameter set cut into two or more fragments is reassembled exactly, or not at all beyond 1200 bytes |
| ParameterSets.FragmentedSetCached | apps/gateway/internal/session/h264_access_unit_normalizer.go:640-677 | fragmented anywhere in an access unit that otherwise says nothing about its type, a set ends up in the cache exactly, or clears it beyond 1200 bytes |
| ParameterSets.PlainSetCached | apps/gateway/internal/session/h264_access_unit_normalizer.go:640-677 | so does a set in a packet of its own |
| ParameterSets.AggregatedSetCached | apps/gateway/internal/session/h264_access_unit_normalizer.go:648-664 | so does the first set of its type in an aggregate |
| ParameterSets.SilentIff | apps/gateway/internal/session/h264_access_unit_normalizer.go:640-677 | a packet says nothing about a type exactly when it is no such set with a body, aggregates none and starts no fragments of one |
| ParameterSets.NewestMeaning | apps/gateway/internal/session/h264_access_unit_normalizer.go:640-677 | the verdict without the loop: the last find wins unless some find is unusable, and nothing is present if and only if no packet says anything |
| ParameterSets.UpdatedIsSet | apps/gateway/internal/session/h264_access_unit_normalizer.go:629-638 | a cache that holds units of its type keeps doing so |
| Injection.StripSingleNalParameterSets | apps/gateway/internal/session/h264_access_unit_normalizer.go:746-758 | what is left is the packets that are not bare parameter sets |
| Injection.StrippedMembers | apps/gateway/internal/session/h264_access_unit_normalizer.go:746-758 | a packet survives stripping if and only if it is not a bare SPS or PPS |
| Injection.PrefixParameterSets | apps/gateway/internal/session/h264_access_unit_normalizer.go:717-744 | the access unit after injection and whether anything was injected |
| Injection.InjectionKeepsOthers | apps/gateway/internal/session/h264_access_unit_normalizer.go:717-758 | packets other than bare parameter sets come out unchanged and in order |
| Injection.InjectionCompletesSets | apps/gateway/internal/session/h264_access_unit_normalizer.go:721-734 | with both sets cached, the result carries an SPS and a PPS |
| Injection.InjectedExact | apps/gateway/internal/session/h264_access_unit_normalizer.go:717-765 | what is put in front is exactly the cached sets that are missing, or all of them when forced, SPS first, one unmarked packet each with the first packet's header; what follows is the access unit, less its bare sets when forced |
| Injection.MarkerLostIff | apps/gateway/internal/session/h264_access_unit_normalizer.go:736-758 | a marked access unit comes out marked on its last packet and no other, except that a forced injection that strips a trailing bare parameter set leaves no packet marked |
| Outbound.WallClockH264TimestampStep | apps/gateway/internal/session/h264_access_unit_normalizer.go:406-419 | the 90 kHz step and the elapsed time, with the 64-bit product and the clamp |
| Outbound.WallStepMeaning | apps/gateway/internal/session/h264_access_unit_normalizer.go:405-419 | without an earlier time, or with a clock that stands or runs back, one tick; otherwise the whole ticks of the time elapsed, between 1 and 2^31 - 1 |
| Outbound.WallStepExactIff | apps/gateway/internal/session/h264_access_unit_normalizer.go:410-418 | the step is the exact one if and only if the product does not wrap or still lands above the clamp |
| Outbound.WallStepWraps | apps/gateway/internal/session/h264_access_unit_normalizer.go:411-414 | a gap just past 28 hours for which the timeline moves one tick instead of the maximum |
| Outbound.MapAdvances | apps/gateway/internal/session/h264_access_unit_normalizer.go:357-400 | the assigned timestamp is the previous one plus the source's step on a continuous frame and the wall clock's otherwise, and a discontinuity is reported exactly when not continuous |
| Outbound.NumberAdvances | apps/gateway/internal/session/h264_access_unit_normalizer.go:316-400 | numbering advances by at most 2^31 - 1 and by nothing exactly on same-timestamp reuse |
| Outbound.ReplayAdvances | apps/gateway/internal/session/h264_access_unit_normalizer.go:488-494 | a replay advances the timeline by one default frame step and leaves the source reference alone |
| FirstMb.H264FirstMbInSlice | apps/gateway/internal/session/uplink_picture.go:121-143 | the first Exp-Golomb value after the headers of a slice start, in a single NAL unit or a first fragment, and nothing otherwise |
| FirstMb.FirstInStapA | apps/gateway/internal/session/h264_access_unit_normalizer.go:553-563 | the fourth walk of a STAP-A finds the first unit whose slice header reads |
| FirstMb.H264AccessUnitFirstMb | apps/gateway/internal/session/h264_access_unit_normalizer.go:541-567 | the first value found over the packets in order, or -1 |
| FirstMb.FirstOfRange | apps/gateway/internal/session/h264_access_unit_normalizer.go:566 | a value is found exactly when some candidate holds a slice header that reads |
| FirstMb.FirstSliceFound | apps/gateway/internal/session/h264_access_unit_normalizer.go:539-567 | whatever packets and units come first that start no slice, the value found is the address the first slice was written with, as a single NAL unit, an FU-A or inside a STAP-A |
| FirstMb.NoSliceNoAddress | apps/gateway/internal/session/h264_access_unit_normalizer.go:539-567 | an access unit in which no packet starts a slice has no address |
| OutboundRuns.EmissionFits | apps/gateway/internal/session/h264_access_unit_normalizer.go:421-430 | what one operation sends starts where the line stood, is consecutive, carries one timestamp and leaves the line right after it |
| OutboundRuns.LineFollowsSent | apps/gateway/internal/session/h264_access_unit_normalizer.go:345-347 | over any run the line stands right after the last packet sent, and has output exactly when something was sent |
| OutboundRuns.SentConsecutive | apps/gateway/internal/session/h264_access_unit_normalizer.go:313-339 | over any mix of numbering, replays and switches, all packets sent have consecutive sequence numbers modulo 2^16 |
| OutboundRuns.TimelineUnwraps | apps/gateway/internal/session/h264_access_unit_normalizer.go:344-401 | the unwrapped timeline is the 32-bit timestamp on the wire modulo 2^32 |
| OutboundRuns.TimelineStep | apps/gateway/internal/session/h264_access_unit_normalizer.go:344-430 | each operation moves the timeline by 0 to 2^31 - 1, by 0 exactly if it numbers nothing or reuses a repeated source timestamp, and all packets it sends carry the timeline's value |
| OutboundRuns.TimelineMonotone | apps/gateway/internal/session/h264_access_unit_normalizer.go:403-405 | the timeline never goes backwards over any stretch of any run |
| OutboundRuns.SentStampsAdvance | apps/gateway/internal/session/h264_access_unit_normalizer.go:403-405 | over any run, from one packet sent to the next the 32-bit timestamp moves forward by at most 2^31 - 1, and the line holds that of the last packet |
| OutboundRuns.UnbrokenKeepsOffset | apps/gateway/internal/session/h264_access_unit_normalizer.go:366-373 | on an unbroken stretch the offset between source and outbound timestamps is constant |
| OutboundHistory.RemembersTime | apps/gateway/internal/session/h264_access_unit_normalizer.go:344-403 | over any run the line holds the time of the last operation that sent anything |
| OutboundHistory.RemembersSource | apps/gateway/internal/session/h264_access_unit_normalizer.go:344-403 | over any run the line holds the source timestamp of the last access unit, or of the replay the run started with |
| OutboundHistory.RemembersSwitch | apps/gateway/internal/session/h264_access_unit_normalizer.go:344-403 | over any run with output, a switch is pending exactly when no access unit was numbered since the latest one, and a replay likewise |
| OutboundHistory.SwitchedFrameSteps | apps/gateway/internal/session/h264_access_unit_normalizer.go:356-403 | over any run with output, the first access unit after a switch, whatever replays come between and whatever its source timestamp, steps by the time since something was last sent and reports the switch's reason, with "+source-gap" exactly when the source does not go on plausibly |
| OutboundHistory.FrameFollowsSource | apps/gateway/internal/session/h264_access_unit_normalizer.go:366-373 | without a switch, a source step of at most ten seconds is the step on the wire |
| OutboundHistory.FrameReuses | apps/gateway/internal/session/h264_access_unit_normalizer.go:358-364 | without a switch or a replay since, a repeated source timestamp keeps its timestamp when reuse is on |
| OutboundHistory.FrameStepsByClock | apps/gateway/internal/session/h264_access_unit_normalizer.go:375-403 | every other access unit steps by the time since something was last sent, and the report of it is exact |
| OutboundHistory.FrameCases | apps/gateway/internal/session/h264_access_unit_normalizer.go:344-403 | over any run a discontinuity is reported exactly when a switch is pending or the source neither goes on plausibly nor repeats under reuse |
| OutboundHistory.FirstSent | apps/gateway/internal/session/h264_access_unit_normalizer.go:345-355 | what is first sent keeps the source's own sequence numbers and timestamp |
| OutboundHistory.NumberCopies | apps/gateway/internal/session/h264_access_unit_normalizer.go:316-339 | an access unit goes out packet by packet with nothing but sequence numbers and timestamp changed |
| OutboundHistory.ReplayCopies | apps/gateway/internal/session/h264_access_unit_normalizer.go:496-512 | a replay goes out packet by packet, with the marker on its last packet and no other |
| OutboundHistory.ReplaySteps | apps/gateway/internal/session/h264_access_unit_normalizer.go:488-494 | after any output a replay is sent at one timestamp, one frame of 30 a second after the last packet sent |
| Normalizer.H264AccessUnitNormalizer.constructor | apps/gateway/internal/session/h264_access_unit_normalizer.go:137-148 | non-positive bounds fall back to the defaults |
| Normalizer.H264AccessUnitNormalizer.SetParameterSets | apps/gateway/internal/session/h264_access_unit_normalizer.go:163-172 | only units of the right type with a body replace a cache |
| Normalizer.H264AccessUnitNormalizer.Push | apps/gateway/internal/session/h264_access_unit_normalizer.go:176-229 | one push is one event of the state machine, and returns a fresh access unit exactly when the event emits one, with its contents |
| Normalizer.H264AccessUnitNormalizer.Admit | apps/gateway/internal/session/h264_access_unit_normalizer.go:191-217 | a stale access unit is dropped and counted, a new one opened, and the packet absorbed |
| Normalizer.H264AccessUnitNormalizer.AbsorbPacket | apps/gateway/internal/session/h264_access_unit_normalizer.go:199-217 | the sequence, overflow and payload checks of one packet and what the access unit holds after them |
| Normalizer.H264AccessUnitNormalizer.Finish | apps/gateway/internal/session/h264_access_unit_normalizer.go:289-311 | caches are updated before injection and the assembly is cleared |
| Normalizer.H264AccessUnitNormalizer.DropCurrent | apps/gateway/internal/session/h264_access_unit_normalizer.go:432-441 | an open access unit is counted once, as overflow or incomplete |
| Normalizer.H264AccessUnitNormalizer.ResetCurrent | apps/gateway/internal/session/h264_access_unit_normalizer.go:443-452 | the assembly is cleared |
| Normalizer.H264AccessUnitNormalizer.StartAccessUnit | apps/gateway/internal/session/h264_access_unit_normalizer.go:231-242 | a fresh access unit, with no sequence reference |
| Normalizer.H264AccessUnitNormalizer.MapSourceTimestamp | apps/gateway/internal/session/h264_access_unit_normalizer.go:344-401 | the line, timestamp, discontinuity and reuse flag of the mapping |
| Normalizer.H264AccessUnitNormalizer.ApplyOutboundRtp | apps/gateway/internal/session/h264_access_unit_normalizer.go:421-430 | packets are renumbered in place from the line's next sequence number |
| Normalizer.H264AccessUnitNormalizer.NumberAccessUnit | apps/gateway/internal/session/h264_access_unit_normalizer.go:316-339 | numbering in place, with counters, the forced-injection budget, the discontinuity and the split report, including the first macroblock before renumbering |
| Normalizer.H264AccessUnitNormalizer.Drain | apps/gateway/internal/session/h264_access_unit_normalizer.go:465-469 | the open access unit is dropped and counted, nothing else changes |
| Normalizer.H264AccessUnitNormalizer.ResetSource | apps/gateway/internal/session/h264_access_unit_normalizer.go:473-477 | the open access unit is dropped; caches and line are kept |
| Normalizer.H264AccessUnitNormalizer.RewriteForReplay | apps/gateway/internal/session/h264_access_unit_normalizer.go:481-513 | copies with the marker on the last, renumbered on the line, the originals untouched |
| Normalizer.H264AccessUnitNormalizer.ResetForStreamSwitch | apps/gateway/internal/session/h264_access_unit_normalizer.go:524-537 | assembly and caches are dropped, the generation and one forced injection set, and the next numbering told to step by the wall clock |
| AssemblyRuns.EmittedIsRecentBlock | apps/gateway/internal/session/h264_access_unit_normalizer.go:190-229 | over any run, an emitted access unit was assembled from the packets pushed last, a gapless block with one timestamp, consecutive sequence numbers, the marker on its last packet only and every payload forwardable |
| AssemblyRuns.FrameEmittedIff | apps/gateway/internal/session/h264_access_unit_normalizer.go:190-229 | a frame that opens a fresh access unit is emitted, as exactly its packets, if and only if it is consecutive, forwardable and within the limits |
| AssemblyRuns.HeadLossEmittedIff | apps/gateway/internal/session/h264_access_unit_normalizer.go:231-242 | when the first k packets of an emittable frame never arrive, the rest is still emitted, as exactly those packets, if and only if no FU-A unit of the frame started before the cut and goes on after it |
| AssemblyRuns.HeadLossExample | apps/gateway/internal/session/h264_access_unit_normalizer.go:231-242 | a complete frame of SPS, PPS and IDR slice that loses its SPS is emitted by a new normalizer as an IDR unit without an SPS |
| AssemblyRuns.RetentionBounded | apps/gateway/internal/session/h264_access_unit_normalizer.go:205-217 | over any run the retained packets never exceed MaxPackets nor their bytes MaxBytes |
| AssemblyRuns.PushConserves | apps/gateway/internal/session/h264_access_unit_normalizer.go:190-229 | one push balances access units opened, emitted, dropped and still open |
| AssemblyRuns.AccessUnitsConserved | apps/gateway/internal/session/h264_access_unit_normalizer.go:432-477 | over any run, access units started equal those finished, dropped incomplete, dropped for overflow, and the one open |
| AssemblyLimits.EmittedInTime | apps/gateway/internal/session/h264_access_unit_normalizer.go:190-230 | over any run an access unit is emitted only if every packet of it came within the maximum age of its first |
| AssemblyLimits.DefaultBounds | apps/gateway/internal/session/h264_access_unit_normalizer.go:137-148 | without bounds asked for, at most 2048 packets and 4 MiB are retained and half a second is waited |
| AssemblyLimits.FrameDropCounted | apps/gateway/internal/session/h264_access_unit_normalizer.go:190-230 | a frame counts nothing when it is emitted, overflow when it is complete but too large, incomplete when it is within the limits but not complete; a unit it cuts short counts as incomplete besides |
| NormalizerRuns.CachesTyped | apps/gateway/internal/session/h264_access_unit_normalizer.go:289-294 | over any run the caches only hold units of their own type with a body |
| NormalizerRuns.ReadyIdrCarriesSets | apps/gateway/internal/session/h264_access_unit_normalizer.go:295-302 | every emitted IDR access unit with both sets ready carries an SPS and a PPS |
| NormalizerRuns.EmittedKeepsPackets | apps/gateway/internal/session/h264_access_unit_normalizer.go:289-311 | packets other than bare parameter sets reach the emitted unit unchanged and in order, and without injection all do |
| NormalizerRuns.FinishedMarkerLostIff | apps/gateway/internal/session/h264_access_unit_normalizer.go:298-302 | a finished unit is marked on its last packet and no other, except that no packet is marked when a forced injection meets a trailing bare parameter set |
| NormalizerRuns.EmittedMarkerLostIff | apps/gateway/internal/session/h264_access_unit_normalizer.go:298-302 | the same over every run |
| NormalizerRuns.MarkerLostExample | apps/gateway/internal/session/h264_access_unit_normalizer.go:524-537 | a run of switch, seeded sets, IDR slice and marked PPS that emits an access unit with no marker at all |
| NormalizerRuns.SwitchForgetsThePast | apps/gateway/internal/session/h264_access_unit_normalizer.go:524-537 | after a stream switch everything emitted is what a new normalizer would emit after the same switch, so nothing from before can appear |
| NormalizerRuns.GenerationStable | apps/gateway/internal/session/h264_access_unit_normalizer.go:307-310 | until the next switch every emitted unit carries the current generation |
| NormalizerRuns.LineSeesOnlyOps | apps/gateway/internal/session/h264_access_unit_normalizer.go:313-315 | the line and everything on the wire are functions of the numbered units, replays and switches alone |
| NormalizerRuns.RejectedAccessUnitsLeaveNoTrace | apps/gateway/internal/session/h264_access_unit_normalizer.go:313-315 | a stretch of the run whose access units are never numbered can be cut out without changing the line or any packet sent |
| NormalizerRuns.WireConsecutive | apps/gateway/internal/session/h264_access_unit_normalizer.go:421-430 | over any run of the normalizer the packets on the wire carry consecutive sequence numbers, and from one to the next the timestamp moves forward by at most 2^31 - 1 |
| NormalizerHistory.CacheIsLastWord | apps/gateway/internal/session/h264_access_unit_normalizer.go:163-174 | over any run a cache holds what the last event that says anything about its type said: the latest set of an access unit, a seeded set, or nothing after a switch or an unusable set |
| NormalizerHistory.CacheStartsEmpty | apps/gateway/internal/session/h264_access_unit_normalizer.go:163-174 | and nothing when no event said anything |
| NormalizerHistory.ForcedOncePerSwitch | apps/gateway/internal/session/h264_access_unit_normalizer.go:335-338 | a forced injection is owed exactly when a switch has happened and no injected access unit was numbered since |
| NormalizerHistory.GenerationIsLastSwitch | apps/gateway/internal/session/h264_access_unit_normalizer.go:514-534 | the generation is that of the latest switch |
| NormalizerHistory.NumberingCounted | apps/gateway/internal/session/h264_access_unit_normalizer.go:316-339 | over any run the counters count the access units numbered and those sent at the timestamp before, and hold the last one's size |
| NormalizerHistory.EmittedExact | apps/gateway/internal/session/h264_access_unit_normalizer.go:289-314 | an emitted access unit is an IDR unit exactly when a packet of it carries an IDR slice, and it is what its packets and the caches make of it, set by set |
| ExpGolomb.BitReader.Bit | apps/gateway/internal/session/h264_sps.go:188-196 | takes the next bit, most significant first, and fails exactly at the end |
| ExpGolomb.BitReader.U | apps/gateway/internal/session/h264_sps.go:198-211 | reads n bits as a value for n up to 32 and refuses any other n |
| ExpGolomb.BitReader.SkipZeros | apps/gateway/internal/session/h264_sps.go:214-227 | counts the zeros before the first one bit and gives up at 32 |
| ExpGolomb.BitReader.Ue | apps/gateway/internal/session/h264_sps.go:213-236 | reads one Exp-Golomb code and leaves exactly what follows it |
| ExpGolomb.URoundTrip | apps/gateway/internal/session/h264_sps.go:198-211 | reading n bits undoes writing n bits, whatever follows |
| ExpGolomb.UReadsOnlyCodes | apps/gateway/internal/session/h264_sps.go:198-211 | the bits consumed are the fixed-width code of the value returned |
| ExpGolomb.UeRoundTripIff | apps/gateway/internal/session/h264_sps.go:213-236 | reading undoes the code of section 9.1 of ITU-T H.264 exactly for the values up to 2^32 - 2, whatever follows, and refuses the code of any larger value |
| ExpGolomb.UeReadsOnlyCodes | apps/gateway/internal/session/h264_sps.go:213-236 | the bits consumed by a successful read are the code of the value returned |
| ExpGolomb.PackRoundTrip | apps/gateway/internal/session/h264_sps.go:192-195 | bits packed into bytes, first bit on top, are the bits the reader sees |
| EmulationPrevention.StripEmulationPrevention | apps/gateway/internal/session/h264_sps.go:165-181 | the loop keeps what the recursive definition keeps |
| EmulationPrevention.StripUndoesInsert | apps/gateway/internal/session/h264_sps.go:165-181 | stripping undoes the insertion of section 7.3.1 of ITU-T H.264 for every byte string |
| EmulationPrevention.StripExact | apps/gateway/internal/session/h264_sps.go:165-181 | from any byte string exactly the threes that follow two zero bytes are taken out |
| EmulationPrevention.InsertedHasNoStartCode | apps/gateway/internal/session/h264_sps.go:165-181 | the strings stripping is meant for hold no start code |
| EmulationPrevention.NoStartCodeMeaning | apps/gateway/internal/session/h264_sps.go:165-181 | holding no start code means that two zero bytes are followed by a byte of at least 3, wherever they stand |
| Sps.H264SpsPictureSize | apps/gateway/internal/session/h264_sps.go:6-135 | the parser over the bit reader computes the size the field-by-field definition gives, and fails exactly when it fails |
| Sps.SpsBitsRoundTrip | apps/gateway/internal/session/h264_sps.go:12-111 | every encodable field assignment is read back from its bits, whatever follows |
| Sps.ParsedIffWritten | apps/gateway/internal/session/h264_sps.go:12-111 | the parser accepts exactly the bits of encodable fields without a scaling matrix and with picture order count type 0 or 2, as exactly those fields, and leaves exactly what follows |
| Sps.CodedSizeIsStandard | apps/gateway/internal/session/h264_sps.go:113-134 | for all encodable fields no 64-bit step wraps: the size is the standard's over unbounded integers, with reserved chroma formats cropped like 4:4:4, and refused exactly when a dimension is not positive |
| Sps.SpsRoundTrip | apps/gateway/internal/session/h264_sps.go:6-135 | for every encodable field assignment, encoded with emulation prevention and any tail, the parser returns the cropped size by the standard's formula, exactly when both dimensions are positive |
| Sps.SizeReadIff | apps/gateway/internal/session/h264_sps.go:6-135 | a NAL unit gets a size if and only if it is an SPS whose stripped bytes start with the bits of encodable fields, and the size is theirs by the standard's formula and positive |
| Sps.HighProfilesStandard | apps/gateway/internal/session/h264_sps.go:26 | the profiles read with a chroma format are those of section 7.3.2.1.1 |
| EchoGuard.Guard.RememberRelay | apps/gateway/internal/api/ws_notify_chat_echo.go:90-110 | expiry, a new entry with the next generation, then eviction; blank keys return generation 0 and change nothing |
| EchoGuard.Guard.Add | apps/gateway/internal/api/ws_notify_chat_echo.go:99-107 | expired entries go and the key gets the next number and a full window |
| EchoGuard.Guard.ForgetRelay | apps/gateway/internal/api/ws_notify_chat_echo.go:113-130 | the entry goes exactly when the generation is the key's latest |
| EchoGuard.Guard.SuppressCopy | apps/gateway/internal/api/ws_notify_chat_echo.go:134-149 | answers whether an unexpired entry is held, and keeps it |
| EchoGuard.Guard.ExpireLocked | apps/gateway/internal/api/ws_notify_chat_echo.go:151-157 | exactly the unexpired entries stay |
| EchoGuard.Guard.EvictLocked | apps/gateway/internal/api/ws_notify_chat_echo.go:159-177 | entries remembered longest ago go until the limit holds |
| EchoGuard.Guard.FindOldest | apps/gateway/internal/api/ws_notify_chat_echo.go:162-171 | the scan finds an entry with the smallest sequence number |
| EchoGuardRuns.EvictionLaw | apps/gateway/internal/api/ws_notify_chat_echo.go:159-177 | eviction from one over the limit drops a key if and only if limit newer live keys exist |
| EchoGuardRuns.SuppressedExactIff | apps/gateway/internal/api/ws_notify_chat_echo.go:88-177 | over every run with a clock that never goes back, a copy is suppressed if and only if an unbounded memory has its pair relayed within the window and not forgotten by its latest generation, and no relay since found limit newer live keys |
| EchoGuardRuns.CopySuppressed | apps/gateway/internal/api/ws_notify_chat_echo.go:78-148 | after any run, a copy of a message just relayed that differs in surrounding space and line ends is suppressed exactly as long as the window lasts, two seconds unless another is given |
| EchoGuardRuns.BlankIgnored | apps/gateway/internal/api/ws_notify_chat_echo.go:90-148 | a blank session or body is never suppressed, and relaying one changes nothing |
| EchoGuardRuns.DefaultGuard | apps/gateway/internal/api/ws_notify_chat_echo.go:49-61 | a guard given no bounds holds at most 256 messages and forgets none before 256 others |
| EchoGuardRuns.FewOthersSuppressed | apps/gateway/internal/api/ws_notify_chat_echo.go:134-149 | a live relay with fewer than limit other keys relayed since is always suppressed |
| EchoGuardRuns.CrowdingTakesLimit | apps/gateway/internal/api/ws_notify_chat_echo.go:159-177 | a key can be crowded out only by limit distinct other keys relayed since |
| EchoGuardRuns.SizeBounded | apps/gateway/internal/api/ws_notify_chat_echo.go:159-161 | the map never outgrows its limit |
| ChatBody.NormalizeIsTrimmedLf | apps/gateway/internal/api/ws_notify_chat_echo.go:78-86 | trimming, rewriting line ends only when a CR is left and trimming again is the same as rewriting all line ends and trimming once |
| ChatBody.NormalizeIdempotent | apps/gateway/internal/api/ws_notify_chat_echo.go:78-86 | a canonical body is trimmed, has no CR and is its own canonical form |
| ChatBody.CopiesAgree | apps/gateway/internal/api/ws_notify_chat_echo.go:76-77 | copies that differ only in surrounding space and line ends have one canonical form |
| LogTail.ReadLastLines | apps/gateway/internal/logger/log_files.go:189-236 | the chunked loop returns the lines and flag of reading back to where it stops |
| LogTail.ReadChunks | apps/gateway/internal/logger/log_files.go:204-228 | the loop stops where reading back does, with what follows there, and knows whether it saw more LFs than asked for |
| LogTail.ReadLogTail | apps/gateway/internal/logger/log_files.go:143-175 | a request below 1 is refused, one above 5000 is cut to 5000, and the rest is what reading back gives |
| LogTail.SplitLogLines | apps/gateway/internal/logger/log_files.go:238-249 | the lines of a text without the line ends that close it and without the CR of each end |
| LogTail.SplitMeaning | apps/gateway/internal/logger/log_files.go:243 | the lines hold no LF and give the text back when joined |
| LogTail.LogLinesReadBack | apps/gateway/internal/logger/log_files.go:238-249 | splitting undoes writing for all lines without line ends in them, whichever of LF and CR LF closes each |
| LogTail.ReadBackIsWhole | apps/gateway/internal/logger/log_files.go:189-236 | for every file closed by at most one LF, every tail from 1 and every chunk size, the backward reader returns the last lines of the whole file and truncated exactly when there are more |
| LogTail.TruncatedFlag | apps/gateway/internal/logger/log_files.go:222-234 | for every file, the flag is set if and only if the file has more LFs, or more lines, than asked for |
| LogTail.CallRightIff | apps/gateway/internal/logger/log_files.go:189-249 | for one file, request and chunk size: the lines are right if and only if the reader reached the start, saw enough LFs before the closing ones, or cut nothing visible off the lines it returns; the flag if and only if more LFs than asked for mean more lines |
| LogTail.LongLineCut | apps/gateway/internal/logger/log_files.go:210-229 | a last line longer than a chunk and closed by two LFs comes back cut at the chunk, with the flag set, when one line is asked for |
| LogTail.LongLineLoses | apps/gateway/internal/logger/log_files.go:189-236 | at the reader's own chunk size such a line of 4095 characters or more loses all but its last 4094 |
| LogTail.ClosingLfsMislead | apps/gateway/internal/logger/log_files.go:222-234 | for every file of at most 5000 lines closed by two or more LFs and every chunk size, a request from 1 to 5000 for which the flag is wrong |
| LogTail.TailExactIff | apps/gateway/internal/logger/log_files.go:143-249 | for every file and chunk size, every request from 1 to 5000 lines is right if and only if at most one LF closes the file, or it has more than 5000 lines and no request has its lines cut |
| SseStream.WriteSse | apps/gateway/internal/api/handlers_sse.go:153-164 | the event is printed whole and flushed where the connection can flush, or printed exactly as far as it takes it and not flushed |
| SseStream.ParseEvent | apps/frontend/src/lib/sse-subscriber.ts:32-45 | the name and data lines of one raw event |
| SseStream.DeliveredMeaning | apps/frontend/src/lib/sse-subscriber.ts:32-53 | a raw event delivers its data lines joined, when it has any and they parse, exactly to subscribers of the name on its last event line, or of "message" when it has none; other lines say nothing |
| SseStream.Subscriber.HandleChunk | apps/frontend/src/lib/sse-subscriber.ts:22-56 | every event the chunk completes that has the subscribed name, some data and a text that parses is delivered, and the unfinished rest kept |
| SseStream.DrainAppend | apps/frontend/src/lib/sse-subscriber.ts:25-30 | draining what arrived and then the rest is draining it all at once |
| SseStream.ChunkingIrrelevant | apps/frontend/src/lib/sse-subscriber.ts:22-56 | however a text is cut, as long as no cut falls between a CR and its LF, deliveries and buffer are those of the whole text |
| SseStream.RoundTrip | apps/frontend/src/lib/sse-subscriber.ts:22-56 | for every list of printed events and every chunking, exactly the payloads with the subscribed name that parse are delivered in order and the buffer ends empty |
| SseStream.DeliveredSoFar | apps/frontend/src/lib/sse-subscriber.ts:22-56 | at any point of the stream the deliveries are a prefix of those called for |
| SseCuts.CutCrLfHarmlessIff | apps/frontend/src/lib/sse-subscriber.ts:22-56 | after any chunks, a cut between a CR and its LF changes no delivery, for all text and chunks that follow, if and only if the line is not blank, or the event before it has no data and a name that reads as no name would, or no event can be delivered at all |
| SseCuts.CutOutsideBlankLine | apps/frontend/src/lib/sse-subscriber.ts:22-56 | after any chunks, a cut between the CR and the LF of a line that is not blank changes no delivery, whatever text and chunks follow |
| SseCuts.BlankLineDeliveries | apps/frontend/src/lib/sse-subscriber.ts:22-56 | for all text and chunks that follow, all deliveries with and without a cut in a blank line: without it the event before is delivered and the rest read alone, with it the next event is read on top of the one before |
| SseCuts.CutCrLfHoldsEventBackIff | apps/frontend/src/lib/sse-subscriber.ts:22-56 | until the next blank line such a cut holds back exactly what the line feed would have completed |
| SseCuts.CutMergesEvents | apps/frontend/src/lib/sse-subscriber.ts:23-55 | for any two events, a cut in the blank line between them gives one event with the second name and both payloads instead of the two |
| SseCuts.CutLosesDelivery | apps/frontend/src/lib/sse-subscriber.ts:23-55 | one input cut in two ways: the event subscribed to is delivered, or lost because an event of another name came before it |
| DiagnosticsRate.Limiter.AllowClientDiagnostics | apps/gateway/internal/api/client_diagnostics.go:459-478 | one decision and the window it leaves; an empty key counts as unknown |
| DiagnosticsRate.WindowCounts | apps/gateway/internal/api/client_diagnostics.go:468-477 | over any run the open window counts exactly the uploads accepted since it opened |
| DiagnosticsRate.SlidingBound | apps/gateway/internal/api/client_diagnostics.go:459-478 | over every run with nondecreasing times, every half-open stretch of one window length holds at most 59 accepted uploads of a key |
| DiagnosticsRate.SlidingBoundIsExact | apps/gateway/internal/api/client_diagnostics.go:468-477 | for every key and every stretch there is a run that meets the bound of 59 |
| DiagnosticsRate.RefusedOnlyWhenFull | apps/gateway/internal/api/client_diagnostics.go:473-475 | an upload is refused only after 30 accepted ones of its key within the last window length |
| DiagnosticsRate.KeysIndependent | apps/gateway/internal/api/client_diagnostics.go:468-477 | leaving out every other key changes neither a key's window nor any decision on its uploads |
| DiagnosticsRate.MissingKeyIsUnknown | apps/gateway/internal/api/client_diagnostics.go:459-478 | clients without a key share the budget of "unknown", and no other two keys share one |

## Left out

- SIP failures in the presence protocol: REGISTER and UNREGISTER succeed; after a failure the code only logs.
- Paths that change a client's resolved trunk outside the binding set (apps/gateway/internal/api/ws_call.go:345-348, agent devices): they follow other rules.
- Two registrations of one client at a time: the handlers of one connection run in sequence (apps/gateway/internal/api/ws_conn.go:214-240).
- Owned sessions hung up between unbinding and cleanup: the hang-ups take time but do not touch the presence state.
- Locks of single objects, goroutines and callbacks: each method of a class is one atomic step.
- Normalizer.H264AccessUnitNormalizer.RewriteForReplay: packets are never nil, so skipping nil ones is not modelled.
- The fields of the normalizer are grouped into four records that its methods reassign; counters do not wrap at 64 bits.
- Cloning of packets on Push and the reuse of cache buffers: packets are values, so aliasing with the caller's buffers is not modelled.
- Nil packets inside an access unit, Stats, SetNow and logging.
- RTP headers are an SSRC, sequence number, timestamp, payload type, marker and an encoded size; extensions are part of the size only.
- mode0DropArmsRecovery and forceNRI: single expressions with nothing to relate.
- ParameterSets.ReassembledIff, ParameterSets.ReassembledIsRun and ParameterSets.ReassemblersAgree: for packets of one SSRC and timestamp, which is what an access unit holds; the cache itself does not compare them.
- Sps.SpsRoundTrip: for picture order count types 0 and 2 and no scaling matrix, since the parser refuses the rest.
- Echo guard generations do not wrap at 64 bits, and the guard itself is never nil.
- SseStream.Subscriber.HandleChunk: which texts parse as JSON is a parameter, and an event delivers its data text instead of the parsed value.
- Decoding of the stream's bytes to text.
- SseStream.RoundTrip: for names and payloads without line ends or surrounding space, which the format cannot carry.
- Read errors and files that change while the log tail is read; the checks of a log's name and path.
- Saturation of clock differences beyond 292 years in the rate limit and the echo guard.
- HTTP and WebSocket handlers, authentication, storage, push senders, keyframe timing, media endpoints and the user interface.
