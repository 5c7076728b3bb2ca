# Verified model of the switch helpers

This project models the parts of the repository that move Ethernet frames and IP packets between User
Mode Linux guests and the host, and proves what those parts are for:

- **SLIP codec and stream reassembler** (`legacy/slirp.c`): `SlipSpec`, `SlipSender`, `SlipReceiver`,
  `SlipLink`.
- **C learning hub** (`vde_plug/vde_plug.c`): `MacTable`, `HubSpec`, `HubLinks`, `HubLaws`, `Hub`, `PortForward`.
- **Hub failover and lease inheritance** (`vdeplug-go`): `HubSeat`, `Beacon`, `LeasePool`, `LeaseChain`.
- **ICMP echo relay and Internet checksum** (`vdeplug-go/internal/nat/icmp.go`): `Checksum`, `IcmpRelay`.
- **Go switch** (`vdeplug-go/internal/vswitch/vswitch.go`): `GoSwitch`.

`Bytes` and `Subsequences` hold what they share.  `dafny verify dfyconfig.toml` checks everything.

## How the model is built

Code that changes state in place is a class with the program's fields, and each method is proved against a
function on values; the properties are lemmas about those functions.  Everything outside the program is an
input: the answers of `read`, `write`, `sendmmsg` and `connect` come from schedules or are chosen freely per
step, clock readings are parameters, map iteration order is arbitrary, and the NAT's answer to a new port
forward is a parameter.

**SLIP.**  A byte stream drives a small automaton (`Scan`): an END closes a frame, and 3202 bytes without an
END are thrown away.  `slip_recv` resets a full buffer only on its next read; the automaton resets at once.
The receiver's invariant says that the two never disagree about packets or drops, so what comes out depends
on the bytes alone and not on how reads cut them.  Both ends are exact about their schedules: a send stops short
only at a real write error, and `slip_recv` says NULL exactly when the descriptor answers with end of file, no data
yet or an error (`ReadOn` follows its answers), so `Session` tells what is read from the schedules alone.  The
receive struct is one block of memory and pointers are
offsets into it, so the Ethernet header really is written over the bytes in front of the packet.

**Hub.**  The MAC table is compared with the Go switch's plain map.  They agree on every run that invalidates
nothing and learns at most 256 MACs.  They part in two ways, and for each the condition is exact: a learn that
overwrites a bucket head of a full table (`LearnAgreesIff`) and the invalidation of slots
(`InvalidateAgreesIff`).  Over all histories the weaker, always-true statement is `AnswersAreSound`.  Batched
forwarding is proved to leave the table and every port's output that the one-frame forwarder, which has its own
code, leaves.  Links may lose frames anywhere: table, log, peers and the decision to stop never depend on it;
what a port is offered is one function, and what the kernel's answers leave of it another (`HubLinks`).
`HubLaws` says where frames go without any of these functions: by the plain map of who was heard where
(`BatchFollowsMap`), or, in a table that has lost entries, by what the history backs (`FrameIsFloodedOrBacked`).

**Leases.**  A restored pool counts its entries and goes on from there (`dhcp.go:135`).  That is safe exactly
when the gossip claims no address above one that nobody claims (`RestoredIsSafeIff`).  A beacon carries at most 32
leases, so a larger table can reach a peer with a hole (`BigTablesCanGoWrong`).  The chain of hubs therefore admits
a beacon iff the entries it carries hold the pool's lowest addresses: always so for a table that fits, and for a
larger one exactly when the cut is safe (`CutBeaconIsSafeIff`).  Under that one hypothesis every run leases cleanly.

**Hub seat.**  Every system call of the discovery loop is one step.  A crash stops the instance; the kernel
then drops its lock and its sockets one by one in any order, and a `connect` may fail at any time for no
reason.  Safety holds under all of that.  The join branch under the seat, which the comment in `main.go:458`
reserves for older binaries, is unreachable when a crash closes everything at once and reachable when the lock
goes first (`LingeringSocketIsJoined`); `JoinUnderSeatIff` says in exactly which states.

**Go switch.**  The package comment says that frames to a given port leave in order.  The inline fast path
can overtake frames that still wait in the queue; `ForwardKeepsOrderIff` gives the exact condition for one frame,
`RunKeepsOrderIff` for whole runs, and `LastPeerLeavingReorders` a run in which it happens.

## Model

| member | source | states |
|---|---|---|
| SlipSpec.RoundTrip | legacy/slirp.c:478-625 | Any list of packets of 1 to MAXPKT bytes, encoded back to back, is found again exactly, in order, with no drop and no overflow reset |
| SlipSpec.RoundTripFrom | legacy/slirp.c:478-625 | The same for packets of any length: empty ones vanish, long ones arrive cut to MAXPKT |
| SlipSpec.RoundTripSoFar | legacy/slirp.c:532-625 | At every prefix of the transfer the packets found are the first ones sent and nothing was dropped |
| SlipSpec.Resync | legacy/slirp.c:503-518 | From every stream state, one encoded packet closes what was pending and then arrives intact |
| SlipSpec.ResyncAfterGarbage | legacy/slirp.c:552-565 | After any garbage of any length the next packet follows exactly the frames the garbage alone would give |
| SlipSpec.TornWritesAreHarmless | legacy/slirp.c:490-522 | However whole sends and torn ones are mixed, all whole packets arrive, in order |
| SlipSpec.DecodeStuff | legacy/slirp.c:505-514 | Decoding a stuffed body gives the packet back |
| SlipSpec.SpecialBytesOnTheWire | legacy/slirp.c:500-518 | END and ESC go out as the byte pairs RFC 1055 names, between two ENDs |
| SlipSpec.UnstuffMeans | legacy/slirp.c:597-620 | Any escaped frame, from any sender, decodes to what its bytes stand for, unknown escapes as themselves, cut to the room; a dangling ESC makes it malformed unless the cut comes first |
| SlipSpec.ArrivesCut | legacy/slirp.c:480-481 | Of a packet that is too long the first MAXPKT bytes arrive |
| SlipSpec.StuffIsClean | legacy/slirp.c:486-514 | Stuffed bytes hold no END, at most double in size, and equal the packet when nothing needed escaping (the fast path's test) |
| SlipSpec.ScanOffset | legacy/slirp.c:532-625 | What was found earlier never influences what is found next |
| SlipSpec.ScanFull | legacy/slirp.c:552-557 | SLIP_MAXPKT bytes without an END cost one drop and leave nothing pending |
| SlipSender.DrainStopsShortIff | legacy/slirp.c:147-167 | A write of n bytes stops short iff a real error comes before the kernel has accepted n bytes, and then exactly the rest is missing |
| SlipSender.WriteAll | legacy/slirp.c:147-167 | For every schedule of short writes, EINTR, EAGAIN and errors: what is written, what is returned and what is left of the schedule |
| SlipSender.WritevAll | legacy/slirp.c:172-199 | The same for a vector of buffers advanced in place |
| SlipSender.Advance | legacy/slirp.c:178-187 | After n bytes, the remaining vector is exactly the rest of the data |
| SlipSender.StuffInto | legacy/slirp.c:500-518 | The stack buffer always suffices and holds the encoding |
| SlipSender.Sender.Send | legacy/slirp.c:478-523 | Both paths write exactly the encoding, as far as the schedule lets them; stopping short counts one drop |
| SlipReceiver.Receiver.Compact | legacy/slirp.c:545-550 | Compaction keeps the unread bytes and empties discard |
| SlipReceiver.Receiver.ResetIfFull | legacy/slirp.c:552-557 | The reset keeps the receiver equal to the stream automaton and leaves room to read |
| SlipReceiver.Receiver.Fill | legacy/slirp.c:543-577 | For every read schedule: the first END of the unread bytes, or -1 exactly when the descriptor has said end of file, no data or an error; what was read is what its answers bring |
| SlipReceiver.Receiver.Unescape | legacy/slirp.c:597-620 | The loop decodes the frame into scratch without touching the data area, and reports a dangling ESC |
| SlipReceiver.Receiver.TakeFrame | legacy/slirp.c:579-624 | A frame is consumed once: skipped if empty, handed out in place, unescaped, or dropped |
| SlipReceiver.Receiver.Recv | legacy/slirp.c:532-625 | A packet is the next one of the whole stream read so far; NULL comes exactly when the descriptor has said end of file, no data or an error, with all complete frames out and exactly the unread bytes pending |
| SlipReceiver.Receiver.ToOutside | legacy/slirp.c:633-657 | The header lands in headroom, consumed bytes or tailroom: the unread bytes survive and the frame is header plus packet; short packets and refused frames count as drops, the others as sent |
| SlipReceiver.EthernetFields | legacy/slirp.c:642-645 | The injected frame's addresses, type and packet at their offsets |
| SlipReceiver.WrappedIff | legacy/slirp.c:635-639 | Exactly the packets under 20 bytes are left out |
| SlipReceiver.Receiver.Pump | legacy/slirp.c:839-844 | After the loop exactly what the descriptor's answers bring has been read, every packet of it was handed over wrapped and in order, and each is counted once |
| SlipReceiver.CloseEscaped | legacy/slirp.c:597-624 | A frame with an ESC yields its unescaped packet, never empty, or one drop |
| SlipLink.Session | legacy/slirp.c:815-846 | Sender, wire and event loop together: the wire and what is read of it follow from the schedules, cut and delayed anyhow; without a write error the first packets sent come out with no drop, and exactly all of them once nothing is left to read; torn writes cost no complete packet |
| SlipLink.ReadRoundsBring | legacy/slirp.c:543-577 | As many data-bearing reads as there are bytes read all of them, however short |
| SlipLink.SendAll | legacy/slirp.c:478-523 | Wire and drop counter hold exactly what the write schedule makes of the packets |
| SlipLink.SendsAreWholeOrTorn | legacy/slirp.c:478-523 | Each send is whole or, only if the schedule holds a real error, a strict prefix; without one the wire is the encoding of all packets |
| MacTable.FindableIffHealthy | vde_plug/vde_plug.c:411-423 | Every entry is found by its own MAC iff there are no duplicates and no free slot cuts a probe chain |
| MacTable.HashIgnoresTheMiddle | vde_plug/vde_plug.c:378-380 | Only the first and the last byte of a MAC decide its bucket |
| MacTable.LearnKeepsFindable | vde_plug/vde_plug.c:382-408 | Learning keeps the probing healthy, the overwrite of a full table included |
| MacTable.LookupAfterLearn | vde_plug/vde_plug.c:382-423 | In every table, a lookup right after a learn returns the port just learned |
| MacTable.LookupAgrees | vdeplug-go/internal/vswitch/vswitch.go:270-282 | A healthy table answers every lookup as the map with the same facts |
| MacTable.LearnKeepsSame | vdeplug-go/internal/vswitch/vswitch.go:255-268 | Learning keeps table and map in step while at most 256 MACs are known |
| MacTable.FullWithout | vde_plug/vde_plug.c:402-407 | The overwrite of the bucket head needs 256 other MACs in the table |
| MacTable.TableIsMap | vde_plug/vde_plug.c:378-423 | From empty, with at most 256 distinct MACs and nothing expired, the table answers every lookup of a run as the map does |
| MacTable.LearnAgreesIff | vde_plug/vde_plug.c:402-407 | After a learn, table and map still agree on all lookups iff at most 256 MACs are known |
| MacTable.InvalidateAgreesIff | vde_plug/vde_plug.c:411-429 | After invalidating any slots, table and map still agree on all lookups iff no surviving entry was probed past one of them |
| MacTable.ForgetAgreesIff | vde_plug/vde_plug.c:425-429 | The same for mac_forget_port against the map's removal of the port |
| MacTable.ExpiryAgreesIff | vde_plug/vde_plug.c:416-419 | The same for the lookup that invalidates an expired entry |
| MacTable.ForgetHidesNeighbour | vde_plug/vde_plug.c:416-429 | A concrete run in which forgetting one port hides another port's MAC |
| MacTable.ForgetUncoversOlder | vde_plug/vde_plug.c:391-429 | A concrete run in which the table answers with an older port than the last one learned |
| MacTable.AnswersAreSound | vde_plug/vde_plug.c:382-429 | After any run of learns, lookups, expiries and forgets, a returned port was learned for that MAC at most MAC_TTL seconds ago and not forgotten since |
| HubSpec.ForwardEachByPort | vde_plug/vde_plug.c:951-972 | Forwarding frames one by one gives each port exactly the frames whose destination reaches it |
| HubSpec.RunGoesTogether | vde_plug/vde_plug.c:976-984 | Consecutive frames with one destination reach a port all together or not at all |
| HubSpec.NothingComesBack | vde_plug/vde_plug.c:951-1034 | No frame of a batch leaves through the port it arrived on |
| HubSpec.BatchKeepsPorts | vde_plug/vde_plug.c:990-1002 | Forwarding only ever adds the arrival port to those the table names |
| HubSpec.RunIsTakenWhole | vde_plug/vde_plug.c:915-923 | Short and interrupted sends never cost a run of frames anything; only a full socket does |
| HubSpec.RunStopsShortIff | vde_plug/vde_plug.c:905-924 | A run is cut short iff the socket fills up before all of it is taken, and then exactly there |
| HubSpec.SingleFrameIsTakenIff | vde_plug/vde_plug.c:907-910 | A single frame has one try, which an interruption loses too |
| HubSpec.BatchKeepsSound | vde_plug/vde_plug.c:990-1002 | Forwarding a batch keeps every entry backed by the events its frames report |
| HubSpec.NothingEchoes | vde_plug/vde_plug.c:1051-1169 | Over any run of the loop a port is only offered frames that arrived on other ports |
| HubSpec.LogIsTrue | vde_plug/vde_plug.c:1051-1169 | Over any run of the loop every logged event is a frame that arrived or a peer that left |
| HubSpec.WatchedAreAllowed | vde_plug/vde_plug.c:1062-1086 | poll watches the guest, the uplink if there is one, the listener and exactly the live peers, each once |
| HubLinks.FlushServes | vde_plug/vde_plug.c:1005-1034 | For every answer of the kernel a flushed run grows each port its destination reaches by an in-order selection, by all of it without losses, and no other port |
| HubLinks.BatchRefines | vde_plug/vde_plug.c:1036-1049 | Flushing run by run gives each port an in-order selection of the one-frame forwarder's output, exactly that output without losses, and the arrival port nothing |
| HubLinks.LoopLinksGrow | vde_plug/vde_plug.c:1051-1169 | The same over any run of the poll loop |
| HubLaws.FrameGoesWhereHeard | vde_plug/vde_plug.c:951-1002 | A frame goes to the port its unicast destination was last heard on within MAC_TTL, or else to every attached port; never back |
| HubLaws.BatchFollowsMap | vde_plug/vde_plug.c:990-1049 | While nothing expires and the MACs fit, each port gets of a batch exactly what a switch with a plain map sends it, and table and map end in step |
| HubLaws.FrameIsFloodedOrBacked | vde_plug/vde_plug.c:951-1002 | In every table a frame is flooded, or goes to exactly one port that the history backs for its destination |
| HubLaws.RuntGoesNowhere | vde_plug/vde_plug.c:992 | Bytes too short for an Ethernet header go nowhere and teach nothing |
| HubLaws.FrameIsOffered | vde_plug/vde_plug.c:1115-1165 | A frame poll delivers is offered to exactly the attached ports it should reach |
| HubLaws.BroadcastsReachEveryone | vde_plug/vde_plug.c:1005-1034 | A batch of broadcasts is offered whole and in order to everyone else; the uplink hands over one frame |
| HubLaws.PeerLeaves | vde_plug/vde_plug.c:1125-1132 | A lost peer's slot is free, no lookup answers with it again, other entries stay, the hub goes on |
| HubLaws.FixedPortLeaves | vde_plug/vde_plug.c:1117-1122 | Losing the guest or the uplink stops the hub |
| HubLaws.PeerJoins | vde_plug/vde_plug.c:1096-1112 | A connection gets the lowest free slot and is turned away only when there is none |
| HubLaws.RoundIsTurns | vde_plug/vde_plug.c:1090-1166 | A round is one turn after the other: none is skipped and only a stop ends it |
| HubLaws.RunIsRounds | vde_plug/vde_plug.c:1061-1169 | A run is one round after the other, each over what is watched by then |
| Hub.Switch.MacLearn | vde_plug/vde_plug.c:382-408 | The loop over the array is the learn of the table model |
| Hub.Switch.MacLookup | vde_plug/vde_plug.c:411-423 | The loop over the array is the lookup of the table model, invalidation included |
| Hub.Switch.MacForgetPort | vde_plug/vde_plug.c:425-429 | The loop invalidates exactly the entries of the port |
| Hub.Switch.HubDest | vde_plug/vde_plug.c:990-1002 | Destination and table are those of the model, and exactly the frame's source is logged |
| Hub.Switch.BatchSend | vde_plug/vde_plug.c:905-924 | For every schedule of short, interrupted and refused sends the port gets an exactly told prefix of the run: all of two or more frames unless the socket was full |
| Hub.Switch.HubEmit | vde_plug/vde_plug.c:1005-1034 | What every port gets, frame by frame, as a function of the kernel's answers; each port the destination reaches grows, every other port not at all |
| Hub.Switch.HubFlood | vde_plug/vde_plug.c:941-948 | Every attached port but the arrival port is offered the frame once |
| Hub.Switch.HubForward | vde_plug/vde_plug.c:951-972 | Its own learn, lookup, flood and hairpin test amount to the one-frame forwarder of the model; the arrival port gets nothing |
| Hub.Switch.HubForwardBatch | vde_plug/vde_plug.c:1036-1049 | Without losses table and outputs equal forwarding each frame in turn; with losses the table does, each port gets an in-order selection, and which one the kernel's answers tell exactly |
| Hub.Switch.Join | vde_plug/vde_plug.c:1096-1112 | The lowest free slot is taken, or nothing changes; npeers stays the number of live slots |
| Hub.Switch.Leave | vde_plug/vde_plug.c:1125-1132 | The slot is freed and its MACs forgotten; no entry names a dead slot |
| Hub.Switch.Serve | vde_plug/vde_plug.c:1115-1165 | One reported descriptor, over lossy links: table, log, peers and the decision to stop in full; every port gets exactly what the kernel takes of what it is offered, the served port nothing |
| Hub.Switch.Round | vde_plug/vde_plug.c:1062-1166 | The same for a whole poll round; a reported descriptor is still open at its turn |
| Hub.Switch.Loop | vde_plug/vde_plug.c:1051-1169 | Over any rounds and any losses: the exact table, log, peers and outputs; npeers counts the live slots and every entry names a live port; nothing is sent out of the port it arrived on; an answered port was heard from that MAC at most MAC_TTL ago in a frame that really arrived |
| PortForward.Forwards.Install | vde_plug/vde_plug.c:679-702 | The NAT's table keeps matching the applied flags, refusals included |
| PortForward.OctetCompletes | vde_plug/vde_plug.c:653-659 | A last octet completes to the address of the network's /24 that ends in it |
| PortForward.ProperTargets | vde_plug/vde_plug.c:662-679 | A pin wins, by address before octet; a rule without one follows the first client, and dhcp_start before there is one |
| PortForward.TargetIsProper | vde_plug/vde_plug.c:662-679 | A target is left open only for a rule without a pin on a shared switch before the first client |
| PortForward.Forwards.Apply | vde_plug/vde_plug.c:704-726 | After start-up every applied rule points at its pin or at dhcp_start, and the NAT's table shows exactly those |
| PortForward.Forwards.NoteFirstClient | vde_plug/vde_plug.c:732-748 | The first nonzero address is latched, applied fallback rules point at it, pinned rules do not move |
| PortForward.Forwards.Watch | vde_plug/vde_plug.c:757-783 | Over any sequence of leases and refusals the first nonzero one moves the fallback rules, once, and which of them end up applied is exact; nothing else moves a rule |
| PortForward.LatchedIsFirst | vde_plug/vde_plug.c:732-735 | The latch holds the earliest nonzero lease of any sequence, and is open iff there is none |
| Beacon.RoundTrip | vdeplug-go/internal/elect/elect.go:60-109 | Parsing an encoded beacon gives its number and the first MaxLeases leases |
| Beacon.BeaconLayout | vdeplug-go/internal/elect/elect.go:60-78 | Every field of the beacon at its offset, numbers in network order |
| Beacon.AcceptedIff | vdeplug-go/internal/elect/elect.go:81-109 | Exactly which frames are taken for beacons |
| Beacon.ParseReadsWhatEncodeWrites | vdeplug-go/internal/elect/elect.go:81-109 | Any accepted frame is, past its destination address, what encoding the parsed table writes |
| Beacon.EncodeBeacon | vdeplug-go/internal/elect/elect.go:60-78 | The filled buffer is the beacon of the model |
| Beacon.ParseBeacon | vdeplug-go/internal/elect/elect.go:90-109 | The loop returns the table of the model, and every malformed frame is refused |
| LeasePool.AssignKeepsPrefix | vdeplug-go/internal/dhcp/dhcp.go:97-113 | Assigning keeps MACs in bijection with the first addresses, never moves a lease, and fails exactly for a new MAC on an exhausted pool |
| LeasePool.PrefixIsBijection | vdeplug-go/internal/dhcp/dhcp.go:59-63 | In a healthy pool the leased addresses are exactly the first `next`, each held by one MAC |
| LeasePool.Pool.GetOrAssign | vdeplug-go/internal/dhcp/dhcp.go:97-113 | The method is the assignment of the model, keyed by the first six bytes of the hardware address |
| LeasePool.Pool.Restore | vdeplug-go/internal/dhcp/dhcp.go:119-136 | For any map order and any pool: old leases stand, each in-range gossiped address is claimed once, new leases are listed in ascending order and next counts all; on a fresh pool exactly the gossip's in-range leases |
| LeasePool.FirstIsLowest | vdeplug-go/internal/dhcp/dhcp.go:139-147 | After a restore the first listed MAC holds the lowest in-range gossiped address |
| LeasePool.Pool.First | vdeplug-go/internal/dhcp/dhcp.go:139-147 | It returns the first lease, so after a restore an address no higher than any in-range gossiped one |
| LeasePool.RestoreOfSnapshot | vdeplug-go/internal/dhcp/dhcp.go:119-136 | Restoring a healthy pool's own table gives back that pool: table, order and next |
| LeasePool.RestoredIsSafeIff | vdeplug-go/internal/dhcp/dhcp.go:97-136 | No run on a restored pool leases an address twice iff the gossip claims no pool address above one that nobody claims |
| LeasePool.RestoreTestPoolIsUnsafe | vdeplug-go/internal/dhcp/dhcp_test.go:42-68 | The gossip of the repository's restore test has such a hole, so its pool would lease an address twice |
| LeasePool.LeasesStayInside | vdeplug-go/internal/dhcp/dhcp.go:59-92 | Every offset below UsableLeases maps without wrap to an address of the subnet below its broadcast address |
| LeasePool.PoolIsAsLargeAsFits | vdeplug-go/internal/dhcp/dhcp.go:73-92 | A start inside the subnet gives a pool of the wanted size or up to the broadcast address, whichever is less; anything else gives none |
| LeasePool.BlockIsExact | vdeplug-go/internal/dhcp/dhcp.go:82-85 | A subnet's addresses are exactly those from its base to its broadcast address |
| LeasePool.RunsStayInside | vdeplug-go/internal/dhcp/dhcp.go:71-113 | No run of requests leaves the subnet or leases its broadcast address |
| LeaseChain.LeaseMapOf | vdeplug-go/main.go:576-582 | The loop builds the map of the model, later entries winning |
| LeaseChain.LastEntryWins | vdeplug-go/main.go:576-582 | Of several entries for one MAC the last one counts |
| LeaseChain.HeardIsSnapshot | vdeplug-go/main.go:497-506 | A table that fits reaches a peer's cache unchanged, whatever order it was listed in |
| LeaseChain.FittingTablesQualify | vdeplug-go/main.go:556-574 | The hypothesis of the chain, that a beacon carries the lowest addresses, holds of every table that fits |
| LeaseChain.HeardIsLowest | vdeplug-go/main.go:497-506 | Under it a peer caches exactly the first 32 leases of the pool, or all of them |
| LeaseChain.SnapshotToRestore | vdeplug-go/main.go:216-229 | Snapshot, beacon, parse, cache and restore give back exactly the pool |
| LeaseChain.CutBeaconIsSafeIff | vdeplug-go/internal/elect/elect.go:60-63 | A larger table is restored safely iff the entries kept are the lowest addresses |
| LeaseChain.BigTablesCanGoWrong | vdeplug-go/main.go:556-574 | Every larger table has an iteration order after which a promoted hub double-leases |
| LeaseChain.NextKeepsInv | vdeplug-go/main.go:543-582 | Requests, beacons (whole or safely cut), promotions and restarts keep every pool and every cache a healthy snapshot |
| LeaseChain.EveryHubLeasesCleanly | vdeplug-go/main.go:216-229 | In every run from a cold start whose beacons are whole or safely cut, at every moment, the hub's leases are a bijection onto its first addresses |
| LeaseChain.InheritedNeverMoves | vdeplug-go/main.go:497-506 | A lease every promoted peer had heard of keeps its address over any number of failovers |
| LeaseChain.LateLeasesAreReusedIff | vdeplug-go/main.go:216-229 | A promoted hub's next newcomer gets an address the old hub leased to another MAC iff the old hub leased something the peer had not heard of, and first of all to another MAC |
| LeaseChain.LateLeaseIsReused | vdeplug-go/main.go:216-229 | A five-step run from a cold start in which that happens, for any three MACs |
| HubSeat.StepKeepsInv | vdeplug-go/main.go:435-471 | Every step of every instance, crash and kernel step keeps the seat, socket and path invariants |
| HubSeat.SingleHub | vdeplug-go/internal/elect/elect.go:30-41 | In every interleaving an instance that owns a bound socket holds the seat, and at most one does |
| HubSeat.JoinersReachTheHub | vdeplug-go/internal/unixseq/unixseq.go:29-39 | While a hub is up the path names its listening socket and no other, so a connect reaches it |
| HubSeat.RemoveSparesLiveListeners | vdeplug-go/internal/unixseq/unixseq.go:73-144 | No Remove of BindOrConnect or Close deletes the file of a live instance's socket |
| HubSeat.RegularFileSurvives | vdeplug-go/internal/unixseq/unixseq.go:73-77 | A path that is not a socket is never removed or replaced |
| HubSeat.JoinUnderSeatMeetsTheDead | vdeplug-go/main.go:456-467 | Joining under the seat only happens against a dead instance's lingering socket |
| HubSeat.JoinUnderSeatIff | vdeplug-go/main.go:464-467 | In every reachable state a join under the seat is possible iff the path names a dead instance's lingering socket that still listens |
| HubSeat.JoinUnderSeatUnreachable | vdeplug-go/main.go:464-467 | With crashes that close everything at once the join branch under the seat cannot run |
| HubSeat.LingeringSocketIsJoined | vdeplug-go/main.go:464-467 | A reachable state in which it does run, when the lock is dropped before the socket |
| HubSeat.PromotionIsNeverBlocked | vdeplug-go/main.go:435-471 | From every reachable leaderless state a live instance alone is the hub within ten steps iff the path is absent or a socket; otherwise it exits and leaves the file alone |
| HubSeat.EveryoneElseJoins | vdeplug-go/main.go:437-462 | While a hub is up every other live instance, running alone, is its peer within two steps, with socket, seat and everyone else unchanged |
| HubSeat.LateJoinersBecomePeers | vdeplug-go/main.go:464-468 | Finding a listener under the seat gives the seat back and makes the instance a peer |
| HubSeat.SeatIsNotKept | vdeplug-go/main.go:447-470 | Whatever its calls answer, an instance under the seat is the hub or has given it back after at most ten own steps |
| HubSeat.SeatHolderCanMove | vdeplug-go/main.go:447-470 | On that way it is never stuck |
| HubSeat.ErrorsGiveTheSeatBack | vdeplug-go/main.go:458-463 | A socket error under the seat gives it back, ends the instance and changes nothing else |
| HubSeat.StuckFileEndsTheAttempt | vdeplug-go/internal/unixseq/unixseq.go:73-94 | A stale file that cannot be removed ends the attempt after one more connect, with path and sockets as before |
| HubSeat.FailedListenCleansUp | vdeplug-go/internal/unixseq/unixseq.go:95-99 | A failed listen closes the socket, clears the path and gives the seat back |
| HubSeat.StuckFileIsLeft | vdeplug-go/internal/unixseq/unixseq.go:95-144 | A file that cannot be removed on the way out stays, and the seat is given back all the same |
| HubSeat.HubRemembersItsFile | vdeplug-go/internal/unixseq/unixseq.go:105-109 | A new hub that can stat its path remembers the very file it bound |
| HubSeat.ShutdownCleansUp | vdeplug-go/internal/unixseq/unixseq.go:131-144 | An orderly shutdown closes the socket, removes the file if its inode is known, and gives the seat back |
| Checksum.SumIsOnesComplement | vdeplug-go/internal/nat/icmp.go:270-282 | Adding in 32 bits and folding at the end is ones'-complement addition of the words, as section 1 of RFC 1071 defines it |
| Checksum.NoOverflow | vdeplug-go/internal/nat/icmp.go:270-277 | The 32-bit sum does not overflow up to 131074 bytes |
| Checksum.SealVerifies | vdeplug-go/internal/nat/icmp.go:122-130 | Writing the checksum into its zeroed field makes the checksum of the packet zero, odd lengths included |
| Checksum.AcceptedIff | vdeplug-go/internal/nat/icmp.go:270-282 | Exactly which field values verify |
| Checksum.Compute | vdeplug-go/internal/nat/icmp.go:270-282 | The two loops compute the checksum of the model and terminate |
| IcmpRelay.ParseRequest | vdeplug-go/internal/nat/icmp.go:204-234 | A guest's request parses to its own fields; Ethernet padding is left out of the data |
| IcmpRelay.IsRequestIff | vdeplug-go/internal/nat/icmp.go:204-221 | Exactly which frames are taken for echo requests, by their wire fields |
| IcmpRelay.RequestFields | vdeplug-go/internal/nat/icmp.go:218-234 | What is read off any accepted frame, header options and wrong IP lengths included |
| IcmpRelay.RequestIsRemembered | vdeplug-go/internal/nat/icmp.go:81-102 | A guest's request is remembered by the guest's own MAC, address, id and sequence, and relayed iff its target is not one of the gateway's |
| IcmpRelay.PingComesBack | vdeplug-go/internal/nat/icmp.go:81-200 | In every state a relayed ping and its reply yield one frame to that guest's MAC and address, with its id, sequence and the reply's data |
| IcmpRelay.ReplyRestores | vdeplug-go/internal/nat/icmp.go:171-200 | A built reply carries the flow's MAC, address, id and sequence and the replier's address and data at their wire offsets |
| IcmpRelay.FrameChecksums | vdeplug-go/internal/nat/icmp.go:171-192 | Both checksums of a built frame verify |
| IcmpRelay.BuildEchoReply | vdeplug-go/internal/nat/icmp.go:171-200 | The filled buffer is the reply frame of the model |
| IcmpRelay.LatestIsLatest | vdeplug-go/internal/nat/icmp.go:101-106 | The closed form for the latest request given a host sequence is right for a counter that wraps at 16 bits |
| IcmpRelay.SequenceStillOwnedIff | vdeplug-go/internal/nat/icmp.go:101-106 | A host sequence still means request i iff fewer than 65536 requests followed it |
| IcmpRelay.HappensKeepsInv | vdeplug-go/internal/nat/icmp.go:81-166 | Requests, sweeps, late send errors and replies keep every flow that of the latest, unanswered request with its sequence |
| IcmpRelay.NoRequestAnsweredTwice | vdeplug-go/internal/nat/icmp.go:150-166 | In every interleaving each relayed request yields at most one delivered frame |
| IcmpRelay.ReplyMeetsItsRequest | vdeplug-go/internal/nat/icmp.go:150-166 | In every interleaving a reply under request i's sequence answers request i iff fewer than 65536 were relayed since, and otherwise the latest with that sequence; the flow it meets is that request's |
| IcmpRelay.FlowWaitsIff | vdeplug-go/internal/nat/icmp.go:81-166 | In every run a host sequence has a waiting flow iff a request was relayed under it, no later one was, and neither a reply, a send error nor a sweep past its deadline came since; the flow is that request's |
| IcmpRelay.DeliversIff | vdeplug-go/internal/nat/icmp.go:150-166 | In every run a host packet is delivered iff it is an echo reply under a waiting sequence |
| IcmpRelay.Relay.Sweep | vdeplug-go/internal/nat/icmp.go:237-244 | Exactly the expired flows are dropped, in any map order |
| IcmpRelay.Relay.Issue | vdeplug-go/internal/nat/icmp.go:81-108 | Only public echo requests are taken; each gets the next sequence, a flow and a sealed message with the socket's id |
| IcmpRelay.Relay.HandleFrame | vdeplug-go/internal/nat/icmp.go:81-118 | A failed send leaves the request's sequence consumed and its flow gone |
| IcmpRelay.Relay.HandleReply | vdeplug-go/internal/nat/icmp.go:150-166 | A matched reply is delivered once, as the frame of the latest request with its sequence, and the flow is retired |
| IcmpRelay.Relay.DeliveredToItsGuest | vdeplug-go/internal/nat/icmp.go:171-200 | Every frame delivered so far is addressed to the guest of the request it answers |
| IcmpRelay.Relay.Run | vdeplug-go/internal/nat/icmp.go:81-166 | Any event sequence is the run of the model, with the delivered frames booked |
| GoSwitch.NextKeepsCounted | vdeplug-go/internal/vswitch/vswitch.go:91-160 | Queues never exceed 1024 frames and peers counts the peer ports, after every step |
| GoSwitch.KnownFrameIsDelivered | vdeplug-go/internal/vswitch/vswitch.go:167-217 | A frame to a known address goes to that port alone: inline, queued, or refused and counted when the queue is full |
| GoSwitch.OtherFramesReachEveryone | vdeplug-go/internal/vswitch/vswitch.go:219-245 | Any other frame goes to every port but its own, and exactly the refusals are counted |
| GoSwitch.ForwardLearns | vdeplug-go/internal/vswitch/vswitch.go:255-282 | What a Forward leaves in the MAC map |
| GoSwitch.WriterSendsTheOldest | vdeplug-go/internal/vswitch/vswitch.go:95-111 | An idle writer sends the oldest queued frame, and only that |
| GoSwitch.RemovedIsForgotten | vdeplug-go/internal/vswitch/vswitch.go:115-130 | A removed port is gone with exactly the addresses heard on it |
| GoSwitch.NewPortHearsBroadcasts | vdeplug-go/internal/vswitch/vswitch.go:133-160 | A new peer takes a free port, starts empty and gets the next broadcast |
| GoSwitch.RunKeepsOrder | vdeplug-go/internal/vswitch/vswitch.go:167-245 | While uplink, guest and a peer stay attached, each port's sent, in-flight and queued frames are the accepted ones in order |
| GoSwitch.ForwardKeepsOrderIff | vdeplug-go/internal/vswitch/vswitch.go:197-234 | In every state a Forward keeps all ports in order iff it does not send inline past waiting frames |
| GoSwitch.RunKeepsOrderIff | vdeplug-go/internal/vswitch/vswitch.go:91-245 | Over any run, whoever is attached, the ports stay in order throughout iff no frame is ever sent inline past frames waiting at its port |
| GoSwitch.LastPeerLeavingReorders | vdeplug-go/internal/vswitch/vswitch.go:231-234 | A concrete run in which the inline path overtakes a queued broadcast |
| GoSwitch.Switch.Offer | vdeplug-go/internal/vswitch/vswitch.go:209-216 | A full queue refuses the frame, changes nothing else and counts one drop |
| GoSwitch.Switch.FloodFrom | vdeplug-go/internal/vswitch/vswitch.go:219-245 | For any map order every target gets one offer, and each refusal counts one drop |
| GoSwitch.Switch.EmitTo | vdeplug-go/internal/vswitch/vswitch.go:197-217 | One port gets the frame, inline exactly when no peer is connected |
| GoSwitch.Switch.ForwardFrame | vdeplug-go/internal/vswitch/vswitch.go:167-191 | Learning, routing and delivery together are the Forward of the model |
| GoSwitch.Switch.AddPeer | vdeplug-go/internal/vswitch/vswitch.go:133-160 | The lowest free peer number is taken, or none is free |
| GoSwitch.Switch.RemovePort | vdeplug-go/internal/vswitch/vswitch.go:115-130 | The port and its MACs are gone, and peers drops by one for an attached peer only |
| GoSwitch.Switch.WriterFinishes | vdeplug-go/internal/vswitch/vswitch.go:95-111 | A sent frame moves from the writer to the sent ones; a failed send takes the port down |
| GoSwitch.Switch.Perform | vdeplug-go/internal/vswitch/vswitch.go:91-245 | Any run of the object is the run of the model: bounds and counts hold throughout, and order while the three ports stay attached |

## Left out

- `patches/`, `launcher/`, `rootfs/`, configuration parsing, argument parsing, the socket-path cascade: not part of this model.
- gVisor and libslirp internals, TCP and UDP relays, WireGuard, tap devices and WebSocket bridges: wrappers over libraries that are not part of this model.
- DHCP message parsing and building goes through third-party packages; only the pool and its addresses are modelled.
- `outside_to_slip` in `legacy/slirp.c`: the ARP reply and the address filter in front of `slip_send`.
- `sniff_dhcp_ack` in `vde_plug/vde_plug.c`: the header checks; `Watch` starts from the address it extracts.
- The C hub's own bind path (`sw_bind_or_connect`) does not use the seat; the seat model is of a fleet of the Go binaries alone, over the unix socket transport.
- flock, connect, bind, listen, stat and unlink are atomic steps; nobody outside the fleet touches the path.
- Timing: heartbeats, backoff and silence detection appear only as "the hub is lost" at any moment; nothing is claimed about when.
- Schedules of system-call outcomes are finite; after the last entry a write or send is accepted whole and a read has nothing to say, so an endless run of EINTR is not modelled.
- `hub_send` and `hub_flood` block where `batch_send` does not; a send is modelled as taken or refused at once.
- The C hub's receive path (`recvmmsg`) is an input: a round says which frames each descriptor delivered.
- The textual MAC and IP forms that `poolSnapshot` goes through are taken as faithful; IPv4 addresses are 32-bit values.
- LeasePool.LeasesStayInside: networks are IPv4 prefixes; what `UsableLeases` does with an IPv6 network is not modelled.
- LeasePool.Pool.Restore: stated for pools of at most 2^32 addresses.
- LeaseChain.EveryHubLeasesCleanly: excludes beacons whose cut drops a low address; CutBeaconIsSafeIff and BigTablesCanGoWrong say what those do.
- LeaseChain.NextKeepsInv: has the same hypothesis.
- The Go switch's Forward, writer steps and port changes are atomic; races between a reader and a writer over a reused port number are not modelled.
- GoSwitch.RunKeepsOrder: needs the three ports attached throughout; what happens otherwise is the exact condition of RunKeepsOrderIff.
- The beacon frame's path through the switch to a peer is taken as delivery to any set of peers.
