# p2pd, modelled and proved

A Dafny model of the self-contained cores of p2pd, with proofs about them. `dafny verify dfyconfig.toml`
checks the whole project.

| files | what they model |
|---|---|
| `Bandwidth`, `BandwidthStarved`, `BandwidthZero`, `Slicer` | the toxic proxy's shared bandwidth limiter, over every interleaving of its coroutines, with lost sends and cancellations, and at rate 0, and its slicer |
| `TcpPuncher`, `Rendezvous`, `P2PNode`, `SignalRouting`, `PunchChoice` | TCP hole punching: a node's puncher, the two-node rendezvous over a lossy signalling network, the choice of relays, the choice of one connection |
| `NatPredict`, `NatSingle`, `NatSetup` | port prediction: the prediction as a whole, one mapping by kind of NAT, and what it starts from and is patched with |
| `StunCodec`, `StunAddr`, `StunReply` | STUN and TURN messages (sections 6, 15, 15.2 and 15.4 of RFC 5389): attributes, header, scanning, XOR addresses, and what a reply tells |
| `PnpPacket`, `PnpStore`, `PnpQuota`, `PnpPenalty`, `PnpReplay` | the name server: its packets, its tables, every run of requests, the names one address can hold, how long an update lives, and old packets sent again |
| `AckUdp`, `AckDelivery`, `PipeQueue` | acknowledged messages over UDP between two ends, and bounded subscription queues |
| `ClockSkew`, `IpRange`, `RoutePool`, `PeerAddr` | clock-offset cleaning, address blocks, the route pool with its search, and the text form of a peer address |
| `Bytes`, `Bits`, `Endian`, `Families`, `Modular`, `Ranges`, `Options` | byte strings, bit operators, integer fields, remainders, closed ranges |

Systems with several parties are step machines: a `Step` datatype, `Enabled`, `Apply`, and `Replay` over any list
of steps; the theorems are about every replay. Objects that the source changes in place are classes whose methods
are proved equal to the functions those theorems are about. A result of type `Option` stands for a Python `None` or
for a call that raised; where both occur they are told apart.

## Where the code differs from what it says

The model follows the code. These differences are stated as members, for all inputs where a condition is involved:

- A bandwidth rate of 0 is documented as no limit (`toxiserver.py:88-90`); nothing but empty messages gets
  through (`ZeroRateSendsNothing`, `DeliverableIffPositiveRate`). A coroutine that is cancelled keeps its share for
  good: from then on bytes can be sent exactly while such shares are below the rate (`CanSendMoreIff`), and one
  cancellation can take it all (`StarvedReachable`, `StarvedForGood`). `run` does not look at what `send` returns, so it
  finishes after a lost send as after a good one (`DoneMeansDelivered`, `FinishedWithoutSending`).
- `update_for_reply_ports` is called with its two lists of mappings in the wrong order (`tcp_punch_client.py:170-177`,
  `nat_predict.py:374`): after the reply the initiator aims where the recipient said exactly in the entries whose own
  mapping asks for no reply port or for that very one (`MappingsAgreeIff`, `MappingsDisagree`).
- Predictions for a counting NAT all name one port, because the running mapping is not carried from one
  prediction to the next (`CountingPredictionsCoincide`), so all of several are right only when a step goes round the
  whole range (`PredictionsFollowCounterIff`, `SecondPredictionMisses`). `field_wrap` leaves its range
  exactly when the range starts above the middle (`WrappedInRangeIff`).
- Against a NAT that keeps the distance between local and outside ports, the distance is taken without its sign: the
  port bound is mapped onto the port announced exactly when that one is not below the last one seen and the local ports do
  not run out, save one chance pair of distances (`KeptDistanceIff`, `WrongWay`).
- After a relay that is not connected, the loop over relays raises instead of going on (`GetsOutIff`,
  `WillingServerMissed`): `load_signal_pipe` is called there without an address family.
- A STUN body with two or three bytes over never reaches the end of a scan (`StragglersStick`, `ScansEndIff`); a TURN scan
  then loops for ever and a STUN reply is rejected.
- On a platform that does not number IPv6 as 23, each prune of the name store drops every IPv6 row
  (`V6RowKeptIff`). The names of an IPv6 address are counted by that row, so the address can pass its limit
  (`V6Overfilled`, `V6BoundedIff`); for IPv4 the limit holds (`PnpQuota.NamesPerIp`).
- The name server refuses an update that is not newer than the stored time (`pnp_server.py:191-192`), and the penalty
  makes the stored time older than the update's. So a packet signed by the owner is answered exactly when its address
  has a place for it and it is newer than that stored time, older than later updates or not (`WriteAnsweredIff`,
  `WrittenTime`); a packet sent twice is answered twice exactly when it was no insert and its IP row already held names
  (`ReplayAnsweredIff`, `ReplayAccepted`), and an old value can come back (`OldValueReturns`). The time is asked only of
  a name that is stored: once it is deleted, any old packet for it is answered when there is room (`DeletedAnsweredIff`,
  `DeletedNameReturns`).
- The timestamp columns are unsigned (`pnp.sql:33,48,64`), so a prune raises while any row is newer than the clock; such
  a row, whose time is its owner's choice, stops every write that prunes (`NewerRowStopsPruning`).
- Unsubscribing with an address that is not in its normal spelling removes nothing (`UnsubscribedIff`).
- An address with host bits is documented as a single host; indexing ignores the host bits
  (`FirstIndexIsAddressIff`). A block of CIDR 0 is compared as the addresses 0 and 1 (`EqualIsNestedIff`).
- `sorted_search` is a lower bound on every increasing list of up to six numbers and on no longer list
  (`SearchRightIff`), so indexing a route pool agrees with iterating it exactly up to six routes (`IndexingIff`).
- A peer address with a negative port delta, or with a dash in an id or an address, is rejected as a whole by the
  parser (`RejectedIff`). The parser computes a validation and ignores its outcome, so `AddressReturns` needs no
  range for ports or NAT types.

## Model

| member | source | states |
|---|---|---|
| BandwidthLimit.ToxicBandwidthLimit.Allocate | src/p2pd/protocol/toxiproxy/toxiserver.py:93-121 | one turn of get_bandwidth: while bytes are free the grant is the smaller of what is wanted and what is free, recorded at once; otherwise nothing changes |
| BandwidthLimit.GrantedInFull | src/p2pd/protocol/toxiproxy/toxiserver.py:93-121 | in any run a coroutine resumed at its loop head while bytes are free goes to sleep holding exactly the smaller of its unsent bytes and the free ones |
| BandwidthLimit.Coroutine.Continue | src/p2pd/protocol/toxiproxy/toxiserver.py:93-141 | a coroutine between two awaits changes its own variables and the shared counter as the step machine does |
| BandwidthLimit.Coroutine.Deliver | src/p2pd/protocol/toxiproxy/toxiserver.py:132 | the bytes handed to the pipe are the granted prefix of what is left |
| BandwidthLimit.UsedIsOutstanding | src/p2pd/protocol/toxiproxy/toxiserver.py:80-141 | in every interleaving `used` is the sum of outstanding grants and stays within 0..rate_ms |
| BandwidthLimit.Coroutine.Drop | src/p2pd/net/pipe/pipe_client.py:212-256 | a send that fails inside the pipe returns 0: nothing goes out and the coroutine goes on |
| BandwidthLimit.DoneMeansDelivered | src/p2pd/protocol/toxiproxy/toxiserver.py:124-141 | under any schedule a coroutine that finished has sent exactly its message, in order, if and only if none of its sends was lost |
| BandwidthLimit.FinishedWithoutSending | src/p2pd/protocol/toxiproxy/toxiserver.py:124-141 | a run that finishes although its only send was lost |
| BandwidthLimit.WindowBound | src/p2pd/protocol/toxiproxy/toxiserver.py:93-141 | no half-open window of 100 ms carries more than rate_ms bytes, in any interleaving |
| BandwidthLimit.LongWindowBound | src/p2pd/protocol/toxiproxy/toxiserver.py:93-141 | m consecutive windows carry at most m times rate_ms bytes |
| BandwidthLimit.LoneMessage | src/p2pd/protocol/toxiproxy/toxiserver.py:93-141 | an undisturbed lone message goes out in full shares of rate_ms bytes, and whole in one emission if it fits one share |
| BandwidthLimit.LoneMessageGoes | src/p2pd/protocol/toxiproxy/toxiserver.py:93-141 | such a run exists: one sleep, one emission of the whole message, and the coroutine is done |
| BandwidthStarved.StarvedForGood | src/p2pd/protocol/toxiproxy/toxiserver.py:93-141 | once cancelled coroutines hold the whole rate, no continuation of the run sends another byte |
| BandwidthStarved.StarvedReachable | src/p2pd/protocol/toxiproxy/toxiserver.py:93-141 | one coroutine cancelled in its first sleep brings that about, at any positive rate |
| BandwidthStarved.CanSendMoreIff | src/p2pd/protocol/toxiproxy/toxiserver.py:93-141 | after any run some continuation sends more bytes if and only if cancelled coroutines hold less than the rate |
| BandwidthZero.ZeroRateSendsNothing | src/p2pd/protocol/toxiproxy/toxiserver.py:88-97 | with rate 0 no byte is sent in any run and only empty messages finish |
| BandwidthZero.ZeroRateSpins | src/p2pd/protocol/toxiproxy/toxiserver.py:88-141 | with rate 0 resuming a coroutine with a message leads straight to a send of nothing, with no sleep and no byte less to send |
| BandwidthZero.DeliverableIffPositiveRate | src/p2pd/protocol/toxiproxy/toxiserver.py:93-141 | some schedule delivers a message if and only if the rate is positive or the message is empty |
| Slicer.Chunk | src/p2pd/protocol/toxiproxy/toxiserver.py:252-291 | for every random draw the offsets tile the stretch; sizes are bounded above, and below for all but the last; it raises exactly for a negative variation with several chunks |
| Slicer.Run | src/p2pd/protocol/toxiproxy/toxiserver.py:293-306 | the chunks sent concatenate to the message and keep to the size bounds |
| NatPredict.FieldWrap | src/p2pd/utility/utils.py:393-407 | the loop computes the wrapped number |
| NatPredict.WrappedInRangeIff | src/p2pd/utility/utils.py:393-407 | every number is wrapped into its range if and only if twice the start is at most the stop plus one |
| NatPredict.WrappedIsRingIff | src/p2pd/utility/utils.py:393-407 | up to one lap past the end, wrapping is the ring counter if and only if the number is at most stop plus start |
| NatPredict.RingMissed | src/p2pd/utility/utils.py:393-407 | the default port range leaves the ring at 2001 past its end |
| NatPredict.PredictionMatchesCounter | src/p2pd/nic/nat/nat_predict.py:246-281 | a predicted port is a counting NAT's next one if and only if the step stays within that window |
| NatPredict.NatsCanPredict | src/p2pd/nic/nat/nat_utils.py:457-501 | the loop over both orders of the NATs decides on the STUN port, or raises |
| NatPredict.BothEndsDecideAlike | src/p2pd/nic/nat/nat_utils.py:457-501 | the decision does not depend on whose side it is, and the STUN port is chosen only where one end needs it and the other can use it |
| NatPredict.TemplatesFit | src/p2pd/nic/nat/nat_predict.py:87-140 | an unprompted prediction aims at the STUN port alone, or at two ports above 1024 that our NAT allocates from |
| NatPredict.NatPrediction | src/p2pd/nic/nat/nat_predict.py:307-364 | the whole prediction: the NATs taken as open off the internet, the checks, the range, the templates, and one mapping per wanted mapping, or a raise |
| NatSetup.MeetIff | src/p2pd/nic/nat/nat_utils.py:457-501 | in terms of the two NATs alone: there is no way exactly when one is strict with random ports and the other is strict or cannot come from the STUN port; that port is used exactly when the other can |
| NatSetup.RangeToUse | src/p2pd/nic/nat/nat_utils.py:424-450 | the range to use, by its two ends, when there is none, and when our own range is raised in place |
| NatSetup.LocalSetup | src/p2pd/nic/nat/nat_predict.py:87-140 | off the internet both NATs count as open and the whole upper range is used |
| NatSetup.RemoteSetup | src/p2pd/nic/nat/nat_predict.py:87-140 | across the internet there is nothing to start from if and only if the NATs defeat each other or leave no range; otherwise the given mappings, the STUN port, or two random ports of the range |
| NatSetup.AnyTwoPorts | src/p2pd/nic/nat/nat_predict.py:87-104 | the two ports are drawn independently: any two ports of the range can be the ones aimed at |
| NatSetup.PredictedIff | src/p2pd/nic/nat/nat_predict.py:307-364 | one mapping for each wanted one, in order, each from the last mapping seen; it raises if and only if there is no starting point, nothing seen, or one of the mappings raises |
| NatSingle.NoMappingIff | src/p2pd/nic/nat/nat_predict.py:154-305 | exactly when a single mapping raises, by kind of NAT |
| NatSingle.WantedPortAnnounced | src/p2pd/nic/nat/nat_predict.py:189-223 | where the NAT lets us choose, the port wanted is announced, from our range if it has it; an open NAT and one with equal ports bind the very port |
| NatSingle.SelfAvoidsPort | src/p2pd/nic/nat/nat_predict.py:165-183 | punching ourselves: the port bound and announced is never the peer's own and lies in 2001..65535, and which it is |
| NatSingle.SeenMappingUsed | src/p2pd/nic/nat/nat_predict.py:283-296 | for ports that cannot be foretold the mapping a STUN server saw is used, with the STUN port as reply port of a strict NAT |
| NatSingle.ReplyPortAsked | src/p2pd/nic/nat/nat_predict.py:185-278 | only a NAT that admits one port asks for a reply port, and for the one the peer wanted |
| NatSingle.CounterLocalPort | src/p2pd/nic/nat/nat_predict.py:246-281 | the local port bound against a counting NAT |
| NatSingle.KeptDistanceIff | src/p2pd/nic/nat/nat_predict.py:208-223 | the bound port is mapped onto the announced one if and only if that is not below the last one seen and the local ports do not run out, or two distances coincide by chance |
| NatSingle.WrongWay | src/p2pd/nic/nat/nat_predict.py:216-217 | asked for 2500, a NAT that maps 3000 to 3100 gets 3600 bound, which it maps to 3700 |
| NatPredict.CountingPredictionsCoincide | src/p2pd/nic/nat/nat_predict.py:307-364 | for a counting NAT all predictions name the same port |
| NatPredict.PredictionsFollowCounterIff | src/p2pd/nic/nat/nat_predict.py:307-364 | n predictions are what a counting NAT hands out next if and only if the first step stays in the window and n is 1 or a step is whole laps |
| NatPredict.SecondPredictionMisses | src/p2pd/nic/nat/nat_predict.py:307-364 | two mappings and a step of 1 are enough: both predictions say 3001 |
| NatPredict.UsedRangeFits | src/p2pd/nic/nat/nat_utils.py:424-450 | a port of the range to use is above 1024, in our range, and in theirs when enough is shared |
| NatPredict.SelfPunchPatch | src/p2pd/nic/nat/nat_predict.py:366-372 | in self mode every mapping is shifted in place, otherwise none is |
| NatSetup.SelfPunchShifts | src/p2pd/nic/nat/nat_predict.py:366-372 | where every local port goes, and that it is announced as it is |
| NatPredict.UpdateForReplyPorts | src/p2pd/nic/nat/nat_predict.py:374-412 | the in-place update, with our range as raised by then, leaves the entries the specification gives, also where it stops on a raise |
| NatPredict.UpdateIsLocal | src/p2pd/nic/nat/nat_predict.py:374-412 | entries without a wanted reply port are untouched; on success the others aim at that port |
| NatSetup.ReplyPortsUpdated | src/p2pd/nic/nat/nat_predict.py:374-412 | after a completed update, which entries changed, and each of them to the reply port and the local port of a mapping for it, in the raised range |
| Ranges.IntersectionIsExact | src/p2pd/utility/utils.py:355-373 | ranges intersect if and only if they share a number, and the middle two end points bound exactly the shared ones |
| TcpPuncher.TcpPuncherStates | src/p2pd/traversal/tcp_punch/tcp_punch_utils.py:53-79 | which progressions are allowed, with and without the peer's mappings |
| TcpPuncher.TCPPuncher.Enter | src/p2pd/traversal/tcp_punch/tcp_punch_client.py:119-135 | the first part of a proto call: the state advances or the call raises |
| TcpPuncher.TCPPuncher.FinishFetch | src/p2pd/traversal/tcp_punch/tcp_punch_client.py:136-163 | after the prediction, side, start time and both mapping lists are set |
| TcpPuncher.TCPPuncher.FinishUpdate | src/p2pd/traversal/tcp_punch/tcp_punch_client.py:164-179 | the reply's mappings are taken over and patched, with the arguments in the order the call passes them |
| TcpPuncher.RefreshedEntry | src/p2pd/traversal/tcp_punch/tcp_punch_client.py:164-179 | entry by entry: what patching leaves alone, and after a completed update exactly which entries still aim at the port received |
| Rendezvous.StepKeepsInv | src/p2pd/node/p2p_protocol.py:68-143 | every step of the network keeps the session invariant for every pipe id |
| Rendezvous.NeverInvalid | src/p2pd/traversal/tcp_punch/tcp_punch_client.py:119-135 | no run, however messages are lost, copied or reordered, raises the invalid progression |
| Rendezvous.EveryCallAllowed | src/p2pd/traversal/tcp_punch/tcp_punch_client.py:119-135 | after any run, whatever step comes next, the protocol call it makes is an allowed progression of the puncher it meets |
| Rendezvous.ActedOnOnce | src/p2pd/node/p2p_protocol.py:68-114 | a node acts once for a pipe id: what it handled is seen, in time or not, and nothing later for that id changes anything |
| Rendezvous.AtMostTwoMessages | src/p2pd/node/p2p_pipe.py:167-275 | a pipe id has at most two distinct messages, one from each side |
| Rendezvous.SidesAreOpposite | src/p2pd/traversal/tcp_punch/tcp_punch_client.py:119-163 | of two distinct nodes the opener is initiator, the other recipient, and no third node has a puncher |
| Rendezvous.SidesMeet | src/p2pd/traversal/tcp_punch/tcp_punch_client.py:136-163 | once both are ready the start times are equal and the recipient aims at what was sent |
| Rendezvous.MappingsAgree | src/p2pd/traversal/tcp_punch/tcp_punch_client.py:164-179 | after the reply, completed or not, the initiator has the recipient's mappings wherever its own reply field is 0 |
| Rendezvous.MappingsAgreeIff | src/p2pd/traversal/tcp_punch/tcp_punch_client.py:164-179 | in any run, after a completed update an entry aims at the port the recipient sent if and only if our mapping there asks for no reply port or for that one |
| Rendezvous.MappingsDisagree | src/p2pd/traversal/tcp_punch/tcp_punch_client.py:164-179 | a run that leaves the initiator aiming at its own reply port 4000 instead of the recipient's 5000 |
| Rendezvous.RendezvousCompletes | src/p2pd/node/p2p_pipe.py:167-275 | with nothing lost a run exists in which both sides hold each other's mappings and one start time |
| P2PNode.PunchNode.Accept | src/p2pd/node/p2p_protocol.py:94-114 | a message is acted on once, by its destination, in time; it is marked seen before its age is checked |
| P2PNode.PunchNode.TcpHolePunch | src/p2pd/node/p2p_pipe.py:167-228 | a puncher is created if there are STUN clients, or reused if its own side is unchanged, taking over the peer's newer entry; it enters its protocol, and no other pipe id's puncher changes |
| P2PNode.PunchNode.Open | src/p2pd/node/p2p_pipe.py:167-228 | opening a pipe changes the node's tables as the network model's Connect changes its share of the network's |
| P2PNode.PunchNode.Receive | src/p2pd/node/p2p_protocol.py:94-143 | a message received changes them as the network model's handling does, also where hole punching stops before the protocol |
| P2PNode.PunchNode.Finish | src/p2pd/traversal/tcp_punch/tcp_punch_client.py:136-163 | the prediction's return changes them as the network model's step does, and what is sent to the peer is that step's message |
| SignalRouting.AwaitPeerCon | src/p2pd/node/p2p_node_extra.py:286-353 | the loop sends through the servers the specification names and raises where it does |
| SignalRouting.OrderIsRotation | src/p2pd/node/p2p_node_extra.py:275-310 | connected servers first, rotated; every server once |
| SignalRouting.CopiesBounded | src/p2pd/node/p2p_node_extra.py:286-353 | never more copies than the relay limit, each through a connected server that took it |
| SignalRouting.GetsOutIff | src/p2pd/node/p2p_node_extra.py:286-353 | a message gets out if and only if a willing server comes before the first unconnected one |
| SignalRouting.AllConnected | src/p2pd/node/p2p_node_extra.py:286-353 | with all servers connected nothing raises, and the limit is reached or every willing server used |
| SignalRouting.WillingServerMissed | src/p2pd/node/p2p_node_extra.py:326-340 | a connected willing server can be missed altogether |
| PunchChoice.ChooseSamePunchSock | src/p2pd/traversal/tcp_punch/tcp_punch_utils.py:240-278 | the choice is the first of largest hash among the connections scanned, or none |
| PunchChoice.ScannedIff | src/p2pd/traversal/tcp_punch/tcp_punch_utils.py:240-278 | scanned are exactly the connections before the first one that is dead or whose sorted addresses and ports do not hash to a positive number |
| PunchChoice.QuadIsSymmetric | src/p2pd/traversal/tcp_punch/tcp_punch_utils.py:252-262 | both ends of a connection sort its addresses and ports alike |
| PunchChoice.SameChoice | src/p2pd/traversal/tcp_punch/tcp_punch_utils.py:240-278 | peers with mirrored views in any order choose the same connection when hashes are positive and distinct |
| PunchChoice.AgreeInEveryOrderIff | src/p2pd/traversal/tcp_punch/tcp_punch_utils.py:240-278 | mirrored views lead to one choice in every order of listing if and only if the largest hash belongs to one connection |
| PunchChoice.TieDisagrees | src/p2pd/traversal/tcp_punch/tcp_punch_utils.py:240-278 | two connections under equal hashes are chosen differently |
| StunCodec.STUNMsg.WriteAttr | src/p2pd/protocol/stun/stun_defs.py:246-269 | the padded attribute is appended and the length counts it |
| StunCodec.AttributeBytes | src/p2pd/protocol/stun/stun_defs.py:246-269 | type, length and value byte by byte, and zeros up to a multiple of four |
| StunCodec.STUNMsg.Pack | src/p2pd/protocol/stun/stun_defs.py:324-339 | the header of section 6 byte by byte, with the type alone in RFC 3489 mode and type and code mixed by the masks otherwise, and the body; a message built by writing attributes packs if they fit and reads back as those attributes |
| StunCodec.STUNMsg.WriteHmac | src/p2pd/protocol/stun/stun_defs.py:280-284 | the message packed afterwards is the bytes that were hashed followed by the attribute with their digest |
| StunCodec.STUNMsg.ReadAttr | src/p2pd/protocol/stun/stun_defs.py:289-319 | one read moves the cursor past the padded attribute, gives up, or stays put |
| StunCodec.STUNMsg.Decode | src/p2pd/protocol/stun/stun_defs.py:341-360 | the fields of the message are set from the buffer, or decoding fails |
| StunCodec.RoundTrip | src/p2pd/protocol/stun/stun_defs.py:246-360 | any attributes written, packed, decoded and scanned come back exactly, an empty value as none, with the header fields and what followed; the type read is the sender's in RFC 3489 mode and carries its method and class otherwise |
| StunCodec.ScanWritten | src/p2pd/protocol/stun/stun_utils.py:51-68 | a scan of written attributes lists them and ends at eof |
| StunCodec.AlignedNeverStuck | src/p2pd/protocol/stun/stun_defs.py:286-319 | a scan of a body whose length is 0 or 1 modulo 4 always ends |
| StunCodec.StragglersStick | src/p2pd/protocol/stun/stun_defs.py:286-319 | with two or three bytes over, the cursor stops for ever |
| StunCodec.ScansEndIff | src/p2pd/protocol/stun/stun_defs.py:286-319 | every body of a length has a scan that ends if and only if the length is 0 or 1 modulo 4 |
| StunCodec.HmacCoversMessage | src/p2pd/protocol/stun/stun_defs.py:276-284 | the bytes hashed are the final message without its last 24 bytes (section 15.4) |
| StunCodec.TypeBitsSeparate | src/p2pd/traversal/turn/turn_process.py:13-20 | a method below sixteen and any class are told apart again by the two masks |
| StunCodec.TypeFieldCarries | src/p2pd/protocol/stun/stun_defs.py:324-339 | the two bytes that carry type and code in each mode, and that by the masks they give back method and class |
| Bits.XorBufs | src/p2pd/utility/utils.py:808-818 | mixing cyclically gives the position-wise XOR over the shorter length, and fails exactly when one side is empty |
| Bits.XorBits | src/p2pd/utility/utils.py:808-818 | XOR bit by bit |
| Bits.AndBits | src/p2pd/protocol/stun/stun_defs.py:324-339 | AND bit by bit |
| Bits.OrBits | src/p2pd/protocol/stun/stun_defs.py:324-339 | OR bit by bit |
| StunAddr.WholeBufferRoundTrip | src/p2pd/protocol/stun/stun_defs.py:143-211 | an address encodes if and only if the mask is long enough, and decodes to the same IP and port (section 15.2) |
| StunAddr.FormsAgreeIff | src/p2pd/protocol/stun/stun_defs.py:143-174 | the field-wise and whole-buffer forms agree on the IP always, on the port if and only if the cookie starts as the standard one |
| StunAddr.StunProto | src/p2pd/protocol/stun/stun_utils.py:25-68 | the scan loop collects the addresses the specification gives, or raises |
| StunAddr.ReplyAddressRecovered | src/p2pd/protocol/stun/stun_utils.py:25-68 | the address a server packs is the address the client learns, whatever attributes stand around it |
| StunReply.EncodedBytes | src/p2pd/protocol/stun/stun_defs.py:143-211 | the bytes of an address as sent: the family, the port masked by the cookie's first half, the IP masked by cookie and transaction id |
| StunReply.FirstOfEachCounts | src/p2pd/protocol/stun/stun_utils.py:25-48 | in any list of attributes the first mapped address and the first CHANGED-ADDRESS count; it raises if and only if one of these is too short, and otherwise finds what their bytes tell |
| StunReply.ReplyTellsBoth | src/p2pd/protocol/stun/stun_utils.py:25-68 | the same from the packed message, in any mode and whatever follows it |
| StunReply.CutShort | src/p2pd/protocol/stun/stun_defs.py:341-360 | a buffer without a header tells nothing; one shorter than its header says raises |
| StunReply.StragglersRaise | src/p2pd/protocol/stun/stun_utils.py:51-68 | every otherwise good message with two or three bytes over is rejected |
| StunAddr.TurnGetDataAttr | src/p2pd/traversal/turn/turn_process.py:30-67 | the TURN scan returns the last data and peer address of the message and resets the cursor |
| StunAddr.RelayedRecovered | src/p2pd/traversal/turn/turn_process.py:30-67 | the last peer address encoded and the last data come back exactly, wherever they stand among other attributes |
| StunAddr.RelayedEndToEnd | src/p2pd/traversal/turn/turn_process.py:30-67 | the same from the packed message, in any mode and whatever follows it |
| AckUdp.PacketFields | src/p2pd/protocol/ack_udp.py:22-53 | data and acknowledgement packets read back with their sequence number and are never mistaken for each other |
| AckUdp.ACKUDP.Register | src/p2pd/protocol/ack_udp.py:115-127 | a new unset event stands under the sequence number |
| AckUdp.ACKUDP.HandleAck | src/p2pd/protocol/ack_udp.py:55-106 | byte by byte: an acknowledgement sets the event standing under its number, data is handed on and acknowledged with its number, and when the table is dropped; no other event changes |
| AckUdp.WorkerLoop | src/p2pd/protocol/ack_udp.py:130-179 | between one and `tries` transmissions, each later one only after a timeout |
| AckUdp.SetMeansAccepted | src/p2pd/protocol/ack_udp.py:55-186 | in every run a sender's event is set only if the peer accepted that message with the payload sent |
| AckDelivery.EventSetIff | src/p2pd/protocol/ack_udp.py:55-186 | in every run a sender's event is set if and only if a packet with its number, an acknowledgement or data, was delivered to it while its entry stood |
| AckDelivery.AcknowledgementSets | src/p2pd/protocol/ack_udp.py:55-106 | in every run delivering the acknowledgement's nine bytes to a side whose table holds the number sets its event |
| AckDelivery.DeliveredAtOnce | src/p2pd/protocol/ack_udp.py:55-186 | with nothing lost a run exists with one transmission, one acceptance, the event set and the worker finished |
| AckUdp.AcksAreNotAnswered | src/p2pd/protocol/ack_udp.py:55-106 | an acknowledgement puts nothing on the network; there are never more of them than data deliveries |
| AckUdp.BoundedTransmissions | src/p2pd/protocol/ack_udp.py:130-186 | at most `tries` transmissions, and none started once the event is set |
| AckUdp.WorkersDieOnlyAfterOverflow | src/p2pd/protocol/ack_udp.py:89-90 | a worker loses its event only on a side that dropped an overfull table |
| AckUdp.WorkersDieIff | src/p2pd/protocol/ack_udp.py:89-179 | over any run a worker has died if and only if its own entry was dropped and it then came back from a send with a try to spare |
| AckUdp.WorkerDies | src/p2pd/protocol/ack_udp.py:89-90 | a run in which that happens to a worker with a try to spare |
| AckUdp.MachineRunsLoop | src/p2pd/protocol/ack_udp.py:130-179 | a worker of the machine that is through has sent as often as the loop does on the outcomes it met |
| AckUdp.LoopDetermined | src/p2pd/protocol/ack_udp.py:130-179 | what the loop promises fixes that number |
| PipeQueue.PipeClient.SubscribeTo | src/p2pd/net/pipe/pipe_client.py:75-90 | a queue of its own for a new pattern, nothing for a known one |
| PipeQueue.PipeClient.UnsubscribeFrom | src/p2pd/net/pipe/pipe_client.py:93-98 | the subscription under the pattern as given is gone, the others stand |
| PipeQueue.PipeClient.AddMessage | src/p2pd/net/pipe/pipe_client.py:107-168 | every matching queue without a handler gains the message, dropping its oldest when full; no other changes |
| PipeQueue.ArrivalIff | src/p2pd/net/pipe/pipe_client.py:107-168 | a message goes to the end of a queue if and only if its sender and data pass the two patterns and no handler takes it, at the cost of the oldest only in a full queue |
| PipeQueue.PipeClient.ReceiveFrom | src/p2pd/net/pipe/pipe_client.py:171-208 | the oldest queued message is handed out, or nothing |
| PipeQueue.SubscribedReceivesIff | src/p2pd/net/pipe/pipe_client.py:75-208 | a new subscriber receives the next message if and only if the sender is the host asked for, in any spelling, and the data fits |
| PipeQueue.UnsubscribedIff | src/p2pd/net/pipe/pipe_client.py:75-98 | a subscription can be undone with the same pattern if and only if its address was in the normal spelling |
| PipeQueue.SubscribedIff | src/p2pd/net/pipe/pipe_client.py:75-98 | after any run a pattern has a queue if and only if it was subscribed, in any spelling, and not unsubscribed under the common one since |
| PipeQueue.QueueLaw | src/p2pd/net/pipe/pipe_client.py:75-208 | in any run the queue is the end of the matching stream, and every earlier message was either handed out in order or dropped in order |
| PipeQueue.UnlimitedKeepsAll | src/p2pd/net/pipe/pipe_client.py:75-208 | with the default size 0, messages handed out and queued are exactly the stream |
| PipeQueue.QueueBounded | src/p2pd/net/pipe/pipe_client.py:115-125 | a limited queue never exceeds its limit |
| PnpPacket.Pack | src/p2pd/protocol/pnp/pnp_utils.py:71-108 | the bytes of a packet, or a raise for a field that does not fit |
| PnpPacket.HeaderLayout | src/p2pd/protocol/pnp/pnp_utils.py:71-108 | at which bytes of the header id, reply key, behaviour, time and the two lengths stand |
| PnpPacket.Layout | src/p2pd/protocol/pnp/pnp_utils.py:71-108 | the header, then name and value cut to their limits, then key and signature |
| PnpPacket.Unpack | src/p2pd/protocol/pnp/pnp_utils.py:110-143 | reading with a moving pointer gives the packet, or fails exactly for a buffer cut short |
| Endian.SmallNumber | src/p2pd/protocol/pnp/pnp_utils.py:71-143 | where the lowest byte of a field stands in each byte order |
| PnpPacket.SignedBytesSurvive | src/p2pd/protocol/pnp/pnp_utils.py:48-143 | the reader derives the very bytes that were signed, cut fields included, if and only if the id on the wire is not 0 or the later draws are 0 |
| PnpPacket.FieldsReturnIff | src/p2pd/protocol/pnp/pnp_utils.py:24-143 | all fields come back if and only if name and value keep to their limits and the reply key is not all zeros |
| PnpStore.PartsDetermineAddress | src/p2pd/protocol/pnp/pnp_server.py:87-95 | two addresses with equal columns are equal |
| PnpStore.ColumnsAreBits | src/p2pd/protocol/pnp/pnp_server.py:87-95 | the four columns are the first 32 bits of the address, the next 16, the next 16 and the last 64 |
| PnpStore.PNPServer.RecordAddress4 | src/p2pd/protocol/pnp/pnp_server.py:126-144 | the id of the address's row, inserted if missing |
| PnpStore.PNPServer.RecordAddress6 | src/p2pd/protocol/pnp/pnp_server.py:97-124 | the same under the subnet and interface limits, raising beyond them |
| PnpStore.AddressRefusedIff | src/p2pd/protocol/pnp/pnp_server.py:97-124 | only a new IPv6 address is refused, and exactly when it is of a new LAN in a subnet with its number of LANs, or of a LAN with its number of interfaces |
| PnpStore.PNPServer.RecordOneName | src/p2pd/protocol/pnp/pnp_server.py:174-257 | a newer update with its penalty, if the time left can be stored, an insert within the limit, or a raise that changes nothing; the size of the penalty is `PnpPenalty.StoredInSeconds` |
| PnpStore.PNPServer.VerifiedDeleteName | src/p2pd/protocol/pnp/pnp_server.py:260-271 | the row goes if the request is newer |
| PnpStore.PNPServer.VerifiedPruning | src/p2pd/protocol/pnp/pnp_server.py:274-322 | the four deletes in order, committed; or a raise, exactly when a row is newer than the clock, that leaves nothing after a rollback |
| PnpStore.PNPServer.VerifiedWriteName | src/p2pd/protocol/pnp/pnp_server.py:324-346 | pruning is committed first; after a raise only the rest is taken back |
| PnpStore.PNPServer.MsgCb | src/p2pd/protocol/pnp/pnp_server.py:388-483 | one message as the run theorems have it, with its reply, keeping the invariant |
| PnpStore.FailedWriteUsesId | src/p2pd/protocol/pnp/pnp_server.py:324-346 | a write that fails after recording a new address leaves all rows as they were, with the id it took used up |
| PnpStore.RunKeepsInv | src/p2pd/protocol/pnp/pnp_server.py:30-346 | after any run rows are unique, IPv4 names refer to live rows, and both IPv6 quotas hold |
| PnpStore.NamesPerRow | src/p2pd/protocol/pnp/pnp_server.py:174-257 | in any run the names on an IP row never exceed the limit plus the moves onto it |
| PnpQuota.NamesPerIp | src/p2pd/protocol/pnp/pnp_server.py:174-257 | in any run the names last written from an IPv4 address never exceed its limit plus the moves onto the address |
| PnpQuota.V6Overfilled | src/p2pd/protocol/pnp/pnp_server.py:97-124 | a run without moves in which an IPv6 address holds one name more than its limit |
| PnpQuota.V6BoundedIff | src/p2pd/protocol/pnp/pnp_server.py:97-257 | for IPv6 the bound holds in every run if and only if one of the three IPv6 limits is 0 |
| PnpReplay.LaterRecordIff | src/p2pd/protocol/pnp/pnp_server.py:185-223 | once a name has been recorded, any other record of it is accepted if and only if its address can take an update and it is newer than the time stored |
| PnpReplay.SecondRecordRefusedIff | src/p2pd/protocol/pnp/pnp_server.py:185-223 | the very same record is refused if and only if the first was an insert, its IP row held no names, or its address cannot take an update |
| PnpReplay.WrittenTime | src/p2pd/protocol/pnp/pnp_server.py:185-223 | the time an answered write is stored under: its own for an insert or an IP row without names, else less the penalty |
| PnpReplay.WriteAnsweredIff | src/p2pd/protocol/pnp/pnp_server.py:388-483 | after an answered write and any run quiet for its row, a write of the name signed by its owner is answered if and only if its address has a place for it and it is newer than the time stored |
| PnpReplay.ReplayAnsweredIff | src/p2pd/protocol/pnp/pnp_server.py:388-483 | the same packet, sent again after a quiet run with a place for it, is answered if and only if it was an update and its IP row already held names |
| PnpReplay.ReplayAccepted | src/p2pd/protocol/pnp/pnp_server.py:185-223 | a write, an update of it, and the same update answered again |
| PnpReplay.OldValueReturns | src/p2pd/protocol/pnp/pnp_server.py:185-223 | a write, an update of it, and the first packet answered again: the old value is back |
| PnpReplay.InsertAnsweredIff | src/p2pd/protocol/pnp/pnp_server.py:225-257 | a write of a name without a row is answered if and only if there is room; its time is not asked |
| PnpReplay.DeletedAnsweredIff | src/p2pd/protocol/pnp/pnp_server.py:260-271 | after an answered delete and any run without a write of the name, any validly signed write of it is answered if and only if there is room |
| PnpReplay.DeletedNameReturns | src/p2pd/protocol/pnp/pnp_server.py:260-271 | a write, a delete, and the first packet answered again: the name is back |
| PnpStore.ChangesAreSigned | src/p2pd/protocol/pnp/pnp_server.py:388-483 | a stored name changes or is deleted only by a newer request signed by its owner; otherwise it only expires |
| PnpStore.OwnerIsForLife | src/p2pd/protocol/pnp/pnp_server.py:174-346 | over any run a living row keeps its name and its owner |
| PnpStore.V4NamesStayPut | src/p2pd/protocol/pnp/pnp_server.py:126-144 | over any run an IPv4 name's row stands and is the row it was recorded against |
| PnpStore.WriteStores | src/p2pd/protocol/pnp/pnp_server.py:174-257 | an answered write is stored, under a time between updated - 604740 and updated |
| PnpStore.QuietRunsKeepRow | src/p2pd/protocol/pnp/pnp_server.py:388-483 | a row stands exactly as it is through any run without prunes after its time and without newer requests signed by its owner |
| PnpStore.NewerRowStopsPruning | src/p2pd/protocol/pnp/pnp_server.py:274-322 | while the clock is behind a row and its owner sends nothing newer, no write that prunes is answered, after any run |
| PnpStore.WriteSurvives | src/p2pd/protocol/pnp/pnp_server.py:185-223 | with the default duration a written row stands exactly as it is through every run whose prunes come before updated + 60 and that has no further request for the name signed by its owner |
| PnpStore.NameSurvivesUpdates | src/p2pd/protocol/pnp/pnp_server.py:185-223 | the owner may also go on updating with later times: the name lives on with its owner |
| PnpStore.FullIpLastsOneMinute | src/p2pd/protocol/pnp/pnp_server.py:185-198 | on an IP at its limit that bound is exact |
| PnpPenalty.StoredInSeconds | src/p2pd/protocol/pnp/pnp_server.py:185-223 | the time an update stores, in whole seconds, for any number of names held and any limit |
| PnpPenalty.UpdateOutlivesIff | src/p2pd/protocol/pnp/pnp_server.py:185-223 | exactly how long an update outlives prunes, for any number of names held and any limit |
| PnpPenalty.MoreNamesEarlier | src/p2pd/protocol/pnp/pnp_server.py:185-198 | on a row with more names an update is stored no later, and below the cap strictly earlier once the further names' share comes to a second |
| PnpPenalty.UpdateRefusedIff | src/p2pd/protocol/pnp/pnp_server.py:185-223 | exactly when an update is refused |
| PnpStore.FetchReturnsWritten | src/p2pd/protocol/pnp/pnp_server.py:406-421 | a fetch after any such run returns exactly the written value, its owner, and a time of that interval |
| PnpStore.DeleteAnsweredIff | src/p2pd/protocol/pnp/pnp_server.py:260-271 | the owner's delete is answered if and only if it is newer than the time stored, and takes that row alone |
| PnpStore.FetchAfterDelete | src/p2pd/protocol/pnp/pnp_server.py:431-455 | a fetch after an answered delete returns the empty value |
| PnpStore.ReplyTells | src/p2pd/protocol/pnp/pnp_server.py:388-483 | a reply to a signed request holds its own fields; a fetch is always answered, with the stored row or the empty value, and changes nothing |
| PnpStore.NothingToCommit | src/p2pd/protocol/pnp/pnp_server.py:219-220 | an UPDATE that changes nothing leaves nothing else to commit |
| PnpStore.V6RowKeptIff | src/p2pd/protocol/pnp/pnp_server.py:276-320 | an IPv6 row outlives a prune if and only if it and a name on it are fresh and the platform numbers IPv6 as 23 |
| PnpStore.V4RowKeptIff | src/p2pd/protocol/pnp/pnp_server.py:285-320 | an IPv4 row outlives a prune if and only if a fresh IPv4 name is on it |
| PnpStore.ExpiredRowsGo | src/p2pd/protocol/pnp/pnp_server.py:285-346 | every answered write that may prune removes each expired row |
| PnpStore.RunFrame | src/p2pd/protocol/pnp/pnp_server.py:67-346 | over any run IPv4 rows are never rewritten and no row id is handed out twice |
| ClockSkew.SquareForm | src/p2pd/protocol/ntp/clock_skew.py:210-217 | lying outside avg - sdev .. avg + sdev is having a squared distance above the variance |
| ClockSkew.PassKeeps | src/p2pd/protocol/ntp/clock_skew.py:205-217 | a pass keeps every occurrence of a point within one deviation of the average and none of any other |
| ClockSkew.Moments | src/p2pd/protocol/ntp/clock_skew.py:156-182 | average and variance by the sum of the points and the sum of their squares |
| ClockSkew.PassShrinks | src/p2pd/protocol/ntp/clock_skew.py:205-227 | a pass never drops everything and never increases the variance |
| ClockSkew.CleanKeeps | src/p2pd/protocol/ntp/clock_skew.py:202-239 | what all passes keep is a non-empty subsequence |
| ClockSkew.SkewIsSound | src/p2pd/protocol/ntp/clock_skew.py:184-251 | the result is 0, or the mean of at least ten kept points of deviation at most 60, within the original bounds |
| ClockSkew.SkewIsMeanOfPasses | src/p2pd/protocol/ntp/clock_skew.py:184-251 | the skew is the average after the first pass, of three, that leaves fewer than ten points or a deviation of at most 60, and 0 where they are too few or too far apart |
| ClockSkew.SysClock.StatxAvg | src/p2pd/protocol/ntp/clock_skew.py:156-162 | the loop computes the mean |
| ClockSkew.SysClock.StatxVar | src/p2pd/protocol/ntp/clock_skew.py:164-182 | the population variance, refused for fewer than two points |
| ClockSkew.SysClock.CalculateClockSkew | src/p2pd/protocol/ntp/clock_skew.py:184-251 | the loop with its early exits leaves the cleaned points and returns the skew |
| IpRange.HammingWeight | src/p2pd/utility/utils.py:344-350 | the loop counts the set bits |
| IpRange.HammingInvertsNetmask | src/p2pd/net/net.py:294-302 | a netmask exists if and only if the CIDR fits, and counting its bits gives the CIDR back |
| IpRange.NetmaskInvertsHammingIff | src/p2pd/utility/utils.py:344-350 | a mask comes back from its weight if and only if it has no gaps |
| IpRange.MakeRange | src/p2pd/net/ip_range.py:41-151 | the constructor's fields, or a raise |
| IpRange.BlockFacts | src/p2pd/net/ip_range.py:107-151 | network and host parts give the address back, the network is aligned, and the range is the whole block unless the CIDR is 0 |
| IpRange.IndexLandsInside | src/p2pd/net/ip_range.py:214-248 | any integer index lands inside the block, and off its network address if there is a choice |
| IpRange.NegativeIndex | src/p2pd/net/ip_range.py:214-248 | negative indices count back from the end |
| IpRange.HostsAreAllButNetwork | src/p2pd/net/ip_range.py:205-248 | the indices list every address of the block but the network address, once, in order |
| IpRange.FirstIndexIsAddressIff | src/p2pd/net/ip_range.py:214-248 | index 0 gives the address itself if and only if it is a single address or its host part is 1 |
| IpRange.IPRangeIter.Next | src/p2pd/net/ip_range.py:13-32 | each call delivers the next element of the listing, then stops; in reverse a block too long for len() raises |
| IpRange.IterationOrder | src/p2pd/net/ip_range.py:13-32 | forward iteration lists the hosts and reverse iteration lists them backwards |
| IpRange.EqualIsNestedIff | src/p2pd/net/ip_range.py:285-287 | in one family == is containment one way or the other, if and only if no block of CIDR 0 misses the other |
| RoutePool.SortedSearch | src/p2pd/utility/utils.py:278-315 | the loop, for any start position, with its bound on rounds |
| RoutePool.SearchResult | src/p2pd/utility/utils.py:278-315 | a result on an increasing list is the lower bound or the last index |
| RoutePool.SearchRightIff | src/p2pd/utility/utils.py:278-315 | the search finds every member if and only if the list has at most six; then it is a lower bound |
| RoutePool.SearchMisses | src/p2pd/utility/utils.py:278-315 | 6 in 1..7 gives index 6, and in 1..8 raises |
| RoutePool.LenListIncreasingIff | src/p2pd/nic/route/route_defs.py:399-416 | the prefix sums rise strictly from above 0 if and only if every route has an outside range |
| RoutePool.MakePool | src/p2pd/nic/route/route_defs.py:389-416 | the loop builds the prefix sums and the host count, and raises if and only if an outside range is too long for len() |
| RoutePool.InfoIsFlat | src/p2pd/nic/route/route_defs.py:474-507 | asked for a host of a route with a range and a card, the host is the flat list's, or an assertion about its address fails |
| RoutePool.InfoIff | src/p2pd/nic/route/route_defs.py:474-507 | a host of a route is had if and only if there is a card whose first range can be measured and the host's address is not zero, is public and of one family with route and cards |
| RoutePool.ForwardIterationIff | src/p2pd/nic/route/route_defs.py:13-56 | a loop over the pool sees exactly the concatenation of all hosts if and only if no route that cannot be shown precedes one with hosts |
| RoutePool.RoutePoolIter.Next | src/p2pd/nic/route/route_defs.py:27-56 | each call takes one element off what is ahead, stops, or raises |
| RoutePool.Pool.GetAt | src/p2pd/nic/route/route_defs.py:512-530 | pool[key] through the length list, as the result below has it, or a raise |
| RoutePool.IndexingIff | src/p2pd/nic/route/route_defs.py:512-530 | indexing agrees with iteration everywhere if and only if there are at most six routes |
| PeerAddr.MakePeerAddr | src/p2pd/node/p2p_addr.py:28-102 | the printed address, or a failed assertion |
| PeerAddr.TextOfOneInterface | src/p2pd/node/p2p_addr.py:28-102 | the exact text for any one IPv4 interface |
| PeerAddr.ParsePeerAddr | src/p2pd/node/p2p_addr.py:302-394 | the parsed address, None, or the exception of a signal that is no number |
| PeerAddr.NamedServersKept | src/p2pd/node/p2p_addr.py:313-319 | of the printed offsets exactly those that name a server are kept, each as often as it was printed |
| PeerAddr.SignalsRaiseIff | src/p2pd/node/p2p_addr.py:313-319 | the offsets raise if and only if one is no number |
| PeerAddr.SplitJoin | src/p2pd/node/p2p_addr.py:302-345 | splitting undoes joining if and only if no part holds the delimiter |
| PeerAddr.EntryReturns | src/p2pd/node/p2p_addr.py:80-89 | a printed interface is read back if and only if its numbers are not negative and its addresses are valid, and is skipped otherwise |
| PeerAddr.RejectedIff | src/p2pd/node/p2p_addr.py:302-311 | a printed address is rejected if and only if a number is negative or a text holds a dash |
| PeerAddr.AddressReturns | src/p2pd/node/p2p_addr.py:28-102 | printing and parsing gives back signals, both interface maps and both ids |
| PeerAddr.EachInterfaceKept | src/p2pd/node/p2p_addr.py:51-98 | without a given index every readable interface is found under its own place |
| PeerAddr.InterfaceReturnsIff | src/p2pd/node/p2p_addr.py:51-98 | field by field which addresses, NAT and index come back, with each override and default, and exactly when |
| PeerAddr.NoRouteNoInterface | src/p2pd/node/p2p_addr.py:51-98 | an interface without a route of the family does not come back in it |
| PeerAddr.GivenIndexKeepsOne | src/p2pd/node/p2p_addr.py:80-89 | with a given index at most one interface of a family comes back |

## Left out

- StunAddr.TurnGetDataAttr: requires that the scan does not stick, because the source loops for ever there.
- PnpStore.NameSurvivesUpdates: excludes the owner's own updates with an older time, because the penalty makes the source
  accept them and they shorten the name's life.
- PnpReplay.WriteAnsweredIff: for a row that outlives the second request's prune; once it is gone the packet is an insert,
  as `InsertAnsweredIff` has it.
- PnpQuota.V6BoundedIff: durations of a configuration are whole seconds above 0 and below 2^32.
- PipeQueue.QueueLaw: for subscriptions without a handler; one with a handler passes matching messages on and queues nothing.
- RoutePool.IndexingIff: for pools whose routes all have an outside range and a card and can be shown; others raise.
- IpRange.EqualIsNestedIff: for two blocks of one family; the source also compares blocks of different families by number.
- PnpStore.PNPServer.VerifiedPruning: MariaDB's default modes are taken: a difference below 0 of unsigned columns and a
  time below 0 are errors.
- AckUdp.SetMeansAccepted: for unique sequence numbers and no close.
- NatPredict.NatPrediction: the mappings the STUN servers give are a parameter, and so are the random draws.
- IpRange.MakeRange: starts from a parsed address; the text form, the family guessed for a small number, and the private
  and public flags are not part of it.
- P2PNode.PunchNode.TcpHolePunch: the punching mode is a parameter; the delayed punching task, the count of active punchers
  and the limit on them are not part of it.
- NatPredict.UpdateForReplyPorts: destination address and interface of the punch are not part of this model.
- Sockets, event loops, process pools, real sleeping, DNS, MQTT, MySQL, HTTP, UPnP and interface discovery.
- Signatures, hashes, HMAC and encryption are arbitrary functions; the choice of a connection assumes distinct hashes
  where it says so.
- Decimal and binary floating point: times, penalties and offsets are exact, deviations are given by their squares.
- The text form of IP addresses, their validity and the private/public flags: addresses are numbers, or texts with a
  validity predicate.
- Name-store tables compare names byte by byte; interleaving inside one transaction and the database's own isolation
  levels are not modelled.
- Regular expressions in subscriptions are a predicate; hashes of patterns are taken as free of collisions.
- `int()` in the parser accepts digits with a minus sign; blanks, underscores and other digits are not modelled.
- `encode` for attribute 0x8020, whose branch compares a value with itself; the reversed route iterator, which passes
  the forward position; `pack_peer_addr` and `unpack_peer_addr`, whose result the validator cannot index.
- TURN client liveness: its retry and refresh loops.
- The ordering of blocks by their last address.
- `nats_intersect` may change a NAT's own range in place; the model returns that range and uses it in the same call, and
  does not store it in the shared address entry.
