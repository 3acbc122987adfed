# A verified model of the krot VPN's protocol core

Krot carries IP packets over several TLS/WebSocket channels that together form one tunnel. This project models the parts of it
that keep state and follow a protocol, and proves what their comments promise, or the exact condition under which it holds.

| file | modules | what it models |
|---|---|---|
| `Bytes.dfy`, `Modular.dfy`, `Lists.dfy` | `Wrappers`, `Bytes`, `Modular`, `Lists` | machine words, big-endian encoding, congruences, lists |
| `FlowHash.dfy` | `Flow` | the FNV-1a flow hash in 32 bits |
| `Aead.dfy`, `Frame.dfy`, `Conn.dfy` | `Aead`, `Frame`, `Connection`, `Channel` | counter-nonce streams, padded records, one connection, and a channel under every interleaving |
| `Lifecycle.dfy`, `Tunnel.dfy`, `Bonded.dfy` | `Lifecycle`, `Failover`, `Bonded` | the bonded tunnel: its life at lock granularity, its retry loop, and the object itself |
| `Striping.dfy`, `FlowOrder.dfy`, `Reordering.dfy` | `Striping`, `FlowOrder`, `Reordering` | which channel a flow gets, order from end to end, and when exactly a flow keeps it |
| `Handshake.dfy`, `Replay.dfy`, `Auth.dfy` | `Handshake`, `Replay`, `Auth` | transcripts and keys, the replay filter, admission |
| `Address.dfy`, `Pool.dfy`, `Sessions.dfy`, `Admission.dfy` | `Address`, `Pool`, `Sessions`, `Admission` | dotted quads, the address pool, the whole server as one machine, and the way from an accepted request to an attached channel |
| `Routes.dfy`, `Sockets.dfy`, `Dispatch.dfy` | `Routes`, `Sockets`, `Dispatching` | that machine's runs: when a registration finds or displaces another, how many connections a session keeps open, and what a packet that cannot be sent does to a session |
| `Checksum.dfy`, `Dns.dfy`, `Socks.dfy` | `InternetChecksum`, `Dns`, `Socks` | the probe's packets and the SOCKS5 handshake |

Code that works in steps is a class or a loop here, proved equal to a function of the old state; theorems are about that
function. Where goroutines interleave, a step is what one lock (or one atomic operation) protects, an event list is any
interleaving, and theorems hold after every list.

Cryptography is idealised by terms: a derived key is the triple it was derived from, a sealed record is the triple of key,
nonce and plaintext, a token is the pair of key and message. Opening succeeds exactly on the right key and nonce. Of the
curve only symmetry is assumed, as a hypothesis of the one lemma that needs it.

## What the proofs show about the code

- A closed tunnel can still hold channels. Closed implies empty, at every moment and however the teardown goes on, exactly when
  nothing is attached between the emptiness test and the setting of `closed` (`Lifecycle.ClosedMeansEmptyExactly`); any channel
  attached then survives. What holds always: an empty tunnel that once had a channel is closed or some thread still owes it the
  teardown, and the channels of a closed tunnel are only those attached in that gap.
- `WritePacket` never detaches a healthy channel over a packet of at most 9000 bytes. Over a longer one it detaches four channels,
  or all: with one channel healthy and at most three not, a healthy channel is lost exactly when the packet exceeds 9000 bytes
  (`Bonded.HealthyDetachedExactly`). Such packets can arrive: the configured MTU is not bounded (internal/config/config.go:105-107,
  120-122), and packets are read into buffers of MTU + 256 bytes (internal/server/server.go:204, internal/client/client.go:137).
  On the server it does not stop at four: the caller answers the failed write by closing the tunnel (internal/server/server.go:223-227),
  so one packet over 9000 bytes ends the whole session, however many channels it had (`Dispatching.RefusedPacketEndsTheSession`).
- The choice of a channel is fixed by the hash alone: entry j of `order` serves exactly the hashes that leave j modulo its length
  (`Striping.ChoosesExactly`), and flows that differ in one byte share a channel exactly if that byte agrees modulo the number of
  channels, when that is a power of two (`Striping.SameChannelUsedExactly`). The next try is the next entry except where hash plus
  try wraps at 2^32 and the number of channels does not divide that (`Striping.NextTryExactly`).
- Per-flow order holds from any state on while `order` stays as it is (`FlowOrder.FlowOrderPreserved`). That is sufficient, not
  necessary. What decides is where the part of the flow lies that has been written and not yet passed on: if all of it is on one
  channel, no course of the deliveries reorders the flow, and if it is on two, some course does (`Reordering.OneWayExactly`). So a flow
  is in order throughout a run exactly if each of its writes uses the channel of what is under way of it then
  (`Reordering.InOrderExactly`). A changed `order` is neither harmful by itself, since it may leave the flow's pick alone or come when
  nothing is under way, nor need a channel leave: an attach changes the modulus, and so the pick of other flows too.
- The session key stands for both secrets: a client's keys equal another's exactly if both multiplications and the salts agree, so a
  server with another static secret shares no key with it (`Handshake.WrongServerSharesNothing`). What the gate grants is what was
  asked for, and a granted request ends as a channel under exactly its index (`Admission.AcceptedRequestComesUp`).
- A token can be accepted twice: in the first and the last second of its validity, exactly 240 s apart, because an entry expires
  at the second the window still admits. A lifetime of 241 s closes this when both clock readings of a call fall in one second;
  in general it must exceed 240 s by the pause between the readings (`Auth.ReplayableExactly`).
- A token is accepted three times exactly when twice its lifetime is at most 240 s plus the longest pause: as deployed, never
  unless a call pauses for 240 s (`Auth.ThriceExactly`).
- The comment in `register` says that there is never a prior tunnel registered under the address. That is not so even when every
  tunnel registers while it holds its address: one that has released the address and whose handler has not yet ended is still
  registered when the next holder registers (`Routes.TimelyStartFindsPrior`). Among runs of such timely registrations, none finds
  a prior entry exactly if every tunnel also stops its route before it releases (`Routes.NoPriorExactly`). What timely registration
  alone does give is that no tunnel loses its route while it holds its address (`Sessions.TimelyStartsNeverDisplace`); a dead tunnel
  whose goroutine starts late can take a live one's route (`Sessions.LateStartDisplaces`). Over all runs nobody is displaced exactly
  if no tunnel registers an address it has given back while another is registered and holds it (`Routes.NeverDisplacedExactly`).
  A late start finds an entry exactly if the address has a registered holder, and then displaces it, as long as no earlier start did
  such harm and no route has outlived its tunnel's hold on the address (`Routes.LateStartFindsExactly`).
- The cap of sixteen channels is tested before the attach, so any number of handlers may pass it at once; it holds all the same,
  because every index is below sixteen (`Sessions.ChannelCapHolds`). But it caps the map only, not what a session keeps open: every
  attach under a live index leaves one connection open that neither `Close` nor the teardown closes, and those are all there are
  beside the map's (`Sockets.OpenSocketsExactly`); for every n there is a session with n open connections and one channel
  (`Sockets.SocketsPileUp`).
- `ErrCounterExhausted` is described as coming after 2^64 records; a stream stops after 2^64 - 1 (`Aead.SealsUntilExhausted`).
- A padding policy is safe exactly when its largest record fits the receiver's read limit (`Channel.SafetyExactly`); the default
  one is.
- The checksum is that of RFC 1071 for every buffer of k words exactly when k is at most 65537 (`InternetChecksum.RfcAgreementExactly`);
  a stored checksum verifies at every length. The one call passes 20 bytes (cmd/krot-probe/main.go:116), so the program never
  computes a different one.
- The DNS question skip stops at the first empty label, so for names such as `a..b` or `a.` it does not reach the end of the
  question the same program wrote (`Dns.SkipLandsAtEndExactly`). The probe's only name is `example.com` (cmd/krot-probe/main.go:56), so
  the program never writes a name with an empty label.

## Model

| member | source | states |
|---|---|---|
| `Flow.FlowHash` | internal/transport/tunnel.go:162-191 | the hash of a packet is FNV-1a over its flow identity (addresses, protocol, ports of a first fragment), 0 for what is not a complete IPv4 header; in bounds for every byte string |
| `Flow.MixIn` | internal/transport/tunnel.go:168 | mixing one byte extends the hash of the bytes before it |
| `Flow.FlowKeyIgnoresTheRest` | internal/transport/tunnel.go:170-189 | TTL, id, options, flags and payload do not influence the flow |
| `Flow.WholeFlowIsFiveTuple` | internal/transport/tunnel.go:182-188 | unfragmented TCP (6), UDP (17) or SCTP (132) packets share a flow if and only if their addresses, protocol and ports agree |
| `Flow.OtherFlowIsAddresses` | internal/transport/tunnel.go:178-183 | other complete packets, such as later fragments and ICMP, share one if and only if addresses and protocol agree |
| `Flow.SharedFlowExactly` | internal/transport/tunnel.go:158-191 | for any two byte strings: when they share a flow, with the three kinds (no IPv4 header, without ports, with ports) never sharing one |
| `Flow.XorIsBitwise` | internal/transport/tunnel.go:168 | the mixing's exclusive or is that of each binary digit |
| `Flow.XorCongruence` | internal/transport/tunnel.go:168 | exclusive or preserves and reflects congruence modulo every power of two |
| `Flow.PrimeCancels` | internal/transport/tunnel.go:163-168 | multiplying by the odd prime is a permutation modulo every power of two up to 2^32 |
| `Flow.MixPermutes` | internal/transport/tunnel.go:168 | each mixing step is a permutation of the state, and of the byte |
| `Flow.OneByteDecides` | internal/transport/tunnel.go:162-191 | hashes of strings that differ in one byte agree modulo 2^k exactly when that byte does |
| `Flow.OneByteNeverCollides` | internal/transport/tunnel.go:158-191 | flows whose identities differ in one byte never share a hash |
| `Flow.OneByteSpread` | internal/transport/tunnel.go:145 | with 2^k channels such flows share a position in `order` exactly when the byte agrees modulo 2^k |
| `Aead.AeadStream.Advance` | internal/crypto/crypto.go:152-160 | the next nonce is written and the counter moves, until the counter is used up |
| `Aead.AeadStream.Seal` | internal/crypto/crypto.go:166-171 | seals under the next nonce or fails without change |
| `Aead.AeadStream.Open` | internal/crypto/crypto.go:174-179 | opens exactly a record of this key and the next nonce; the counter moves also when that fails |
| `Aead.NonceIsTheCounter` | internal/crypto/crypto.go:156-157 | a nonce is four zero bytes and the counter, most significant byte first |
| `Aead.NonceInjective` | internal/crypto/crypto.go:156-157 | different counters give different nonces |
| `Aead.SealRunShape` | internal/crypto/crypto.go:152-171 | call i of any run uses counter start + i, or fails once the maximum is reached |
| `Aead.NoncesNeverRepeat` | internal/crypto/crypto.go:10-14 | no two successful seals of a stream share a nonce |
| `Aead.SealsUntilExhausted` | internal/crypto/crypto.go:43-45 | a fresh stream seals exactly 2^64 - 1 records and never wraps |
| `Aead.OpensExactlyInOrder` | internal/crypto/crypto.go:174-179 | record i opens if and only if it is the i-th one sealed under the key, whatever came before |
| `Frame.Sealer.Build` | internal/frame/frame.go:114-120 | the buffer filled in place is the record layout |
| `Frame.Sealer.Seal` | internal/frame/frame.go:109-123 | refuses oversized payloads untouched, otherwise seals the padded layout and counts the record even if sealing fails |
| `Frame.Opener.Open` | internal/frame/frame.go:127-140 | every plaintext is either sliced in bounds or refused as short or inconsistent |
| `Frame.ParseOfLayout` | internal/frame/frame.go:132-139 | parsing inverts the layout under any padding |
| `Frame.LayoutOfParse` | internal/frame/frame.go:132-139 | an accepted plaintext is the layout of what was read from it |
| `Frame.LayoutFields` | internal/frame/frame.go:113-120 | where type, length, payload and padding lie in a plaintext |
| `Frame.CountsEveryRecord` | internal/frame/frame.go:109-123 | a payload of at most 9000 bytes is counted even when the cipher fails, a longer one changes nothing |
| `Frame.OpenOfSeal` | internal/frame/frame.go:107-140 | type and payload survive sealing and opening for every payload up to 9000 bytes, policy and draw, and the counters stay equal |
| `Frame.SealedSize` | internal/frame/frame.go:113-122 | the size of a record on the wire |
| `Frame.PolicyFitsExactly` | internal/transport/conn.go:51 | every record of a policy passes the read limit if and only if its largest burst target and largest steady record do |
| `Frame.DefaultPadBounds` | internal/frame/frame.go:54-55 | under the default policy every record fits, the first 12 plaintexts have at least 900 bytes, small ones fewer than 1380, later padding is under 128 |
| `Connection.Conn.WritePacket` | internal/transport/conn.go:55-65 | seal and send are one step; a failed socket refuses every later message |
| `Connection.Conn.WriteKeepalive` | internal/transport/conn.go:67-77 | the same for an empty padding record |
| `Connection.Conn.ReadPacket` | internal/transport/conn.go:79-99 | returns the next data packet, dropping padding, or the first error |
| `Connection.OnlyPaddingIsDropped` | internal/transport/conn.go:88-97 | the reader drops records of type 2 and returns the payload of every other type |
| `Connection.BadMessageEndsTheRead` | internal/transport/conn.go:84-91 | a message too large, or not the one due, ends the call with an error and leaves what follows |
| `Connection.Conn.Close` | internal/transport/conn.go:101-103 | nothing is sent or received afterwards |
| `Channel.StepKeepsInv` | internal/transport/conn.go:28-34 | every step keeps both counters in lockstep with the FIFO; a write adds at most its own packet, a receive yields at most one |
| `Channel.ChannelSafety` | internal/transport/conn.go:28-34 | in every interleaving of writers, keepalives, reader and socket failure, nothing fails to open, and what was read followed by what is in flight is what was written, in lock order |
| `Channel.SafetyExactly` | internal/transport/conn.go:42-53 | a padding policy makes every run safe if and only if it fits the read limit |
| `Channel.UnfitPolicyIsUnsafe` | internal/transport/conn.go:51 | the run in which an unfit policy stops the reader |
| `Channel.ReadReturnsNext` | internal/transport/conn.go:81-99 | started on records in flight, the reader's loop returns the oldest data packet and leaves the rest |
| `Channel.ReadPacketReturnsNext` | internal/transport/conn.go:79-99 | on every reachable channel ReadPacket returns the oldest unread packet, or an error when none is in flight |
| `Channel.SendingOutOfSealOrderFails` | internal/transport/conn.go:31-34 | two records sent in the other order than sealed: the receiver refuses the first |
| `Channel.SendOrderDecides` | internal/transport/conn.go:28-34 | with sealing and sending as separate steps, in every interleaving, the receiver opens everything sent if and only if the sends follow the order of sealing |
| `Lifecycle.StepKeepsInv` | internal/transport/tunnel.go:52-118 | the tunnel's invariant is kept by each critical section and each step of the teardown |
| `Lifecycle.LifecycleInAnyRun` | internal/transport/tunnel.go:24-26 | at every moment of every run: onEmpty has fired at most once, dead implies closed, `order` lists exactly the live indices, an emptied tunnel is closed or owed its teardown, a closed one holds only channels attached while that was owed |
| `Lifecycle.RunIsMonotone` | internal/transport/tunnel.go:52-118 | closed and dead never revert, onEmpty's count never falls, a closed tunnel only loses channels |
| `Lifecycle.ClosedMeansEmptyWithoutLateAttach` | internal/transport/tunnel.go:99-112 | if nothing is attached between the emptiness test and the setting of `closed`, closed implies empty at every moment, however the teardown goes on |
| `Lifecycle.LateAttachSurvivesClosing` | internal/transport/tunnel.go:99-112 | from every state that owes its teardown, a channel attached then is still attached when the tunnel is closed, dead and reported empty |
| `Lifecycle.ClosedMeansEmptyExactly` | internal/transport/tunnel.go:99-112 | for every run: closed implies empty at all its moments and their teardowns if and only if it attaches nothing in that gap |
| `Lifecycle.AttachKeepsNoDupExactly` | internal/transport/tunnel.go:61-62 | an attach keeps `order` free of duplicates if and only if the index is not live |
| `Lifecycle.NoDupExactly` | internal/transport/tunnel.go:52-106 | for every run: `order` is free of duplicates at every moment if and only if every accepted attach uses an index not live then |
| `Lifecycle.DistinctAddsKeepNoDup` | internal/transport/client.go:70-86 | in particular when each index is attached at most once, as Dial does |
| `Lifecycle.IndexNamesExactly` | internal/transport/tunnel.go:68-75 | from the attach of a reader's connection on: its index leads to that connection or nowhere at every later moment if and only if no later accepted attach of this index brings another connection |
| `Lifecycle.IndexNamesOneConnection` | internal/transport/client.go:70-86 | in particular when each index is attached at most once, as Dial does: a reader's index never names another reader's connection |
| `Lifecycle.RepeatedIndexDetachesTheNewcomer` | internal/transport/tunnel.go:61-74 | with a repeated index the failing first connection detaches the second |
| `Lifecycle.OpenIsLivePlusOverwritten` | internal/transport/tunnel.go:61-105 | in every run: open connections are those in the map and one for every attach that hit a live index |
| `Lifecycle.OpenCapExactly` | internal/transport/wire.go:24-26 | a cap on indices caps the map; the map is all that is open if and only if every attach was fresh, and then the cap is on open connections |
| `Lifecycle.OverwrittenStaysOpen` | internal/transport/tunnel.go:230-246 | nothing closes an overwritten connection, neither Close nor the teardown |
| `Lifecycle.ReattachesPileUp` | internal/transport/tunnel.go:61-62 | for every n a run with n connections open and one in the map, n - 1 of them open after Close |
| `Lifecycle.UninterruptedMarkDead` | internal/transport/tunnel.go:108-118 | the teardown steps run without interruption are the sequential markDead |
| `Failover.AttemptExactly` | internal/transport/tunnel.go:134-156 | each failed try detaches one more distinct channel, none healthy; the call succeeds on a healthy one, or fails after the tries are used up or with `order` empty; survivors keep their order |
| `Failover.SendsExactly` | internal/transport/tunnel.go:136-156 | a packet gets through if and only if one of the channels that would be lost were all to refuse it takes it |
| `Failover.ThreeBrokenChannelsAreTolerated` | internal/transport/tunnel.go:136-156 | a packet gets through whenever some channel takes it and at most three do not |
| `Failover.FourBrokenChannelsMayRefuse` | internal/transport/tunnel.go:138 | three is the limit for every tunnel of four or more channels and every hash |
| `Failover.UnsendablePacketDetachesFour` | internal/transport/tunnel.go:149-151 | a packet that no channel accepts, whatever its hash, removes exactly min(4, n) channels |
| `Failover.HealthySurvive` | internal/transport/tunnel.go:136-156 | if exactly the healthy channels accept, all of them survive the call |
| `Bonded.Tunnel.AddChannel` | internal/transport/tunnel.go:52-66 | attaches unless closed, else closes the connection |
| `Bonded.Tunnel.RemoveChannel` | internal/transport/tunnel.go:84-106 | detaches and closes exactly this channel; the last one leaving tears the tunnel down |
| `Bonded.Tunnel.FilterOut` | internal/transport/tunnel.go:92-98 | the filter keeps the other entries in order |
| `Bonded.Tunnel.DoMarkDead` | internal/transport/tunnel.go:108-118 | once only: closed, dead, onEmpty |
| `Bonded.Tunnel.TryChannel` | internal/transport/tunnel.go:149-153 | succeeds exactly when the channel accepts the packet, having sent one record that opens to it; otherwise the channel is dropped; no other channel is touched |
| `Bonded.Tunnel.WritePacket` | internal/transport/tunnel.go:136-156 | if the entry of `order` at the flow's hash modulo its length takes the packet, that is the channel used and nothing is dropped; in all cases the object does what the retry loop's specification says, sends exactly one record of p on the channel reported, and touches no other surviving channel; up to 9000 bytes no healthy channel is lost, beyond that min(4, n) are |
| `Bonded.AcceptingIsHealthy` | internal/frame/frame.go:109-112 | a packet of at most 9000 bytes is accepted by exactly the healthy channels, a longer one by none |
| `Bonded.HealthyDetachedExactly` | internal/transport/tunnel.go:134-156 | with one healthy channel and at most three that are not, a write detaches a healthy channel if and only if the packet exceeds 9000 bytes; in general the loss is of the healthy among the channels the hash picks |
| `Bonded.Tunnel.TryKeepalive` | internal/transport/tunnel.go:206-210 | exactly one keepalive is sent if the channel accepts it, else the channel is dropped; no other channel changes |
| `Bonded.Tunnel.KeepAlive` | internal/transport/tunnel.go:206-210 | the same turn keeps the round's account of every channel: what it has sent, whether it has had its turn, whether it is gone |
| `Bonded.Tunnel.KeepAliveNext` | internal/transport/tunnel.go:206-210 | one turn keeps the account of the round: who refused is gone, who remains has sent |
| `Bonded.Tunnel.KeepAliveAll` | internal/transport/tunnel.go:206-211 | after the loop every entry of `order` has had its turn |
| `Bonded.Tunnel.WriteKeepalive` | internal/transport/tunnel.go:193-212 | drops every channel that would refuse a keepalive and no other unless it is listed twice; survivors keep their order and have each sent a message |
| `Bonded.Tunnel.Close` | internal/transport/tunnel.go:230-246 | every channel is closed and the tunnel torn down |
| `Bonded.Tunnel.ReadPacket` | internal/transport/tunnel.go:214-228 | the oldest queued packet; closed only when dead and drained |
| `Bonded.Wanted` | internal/transport/client.go:41-47 | the number of channels dialled is the one from 1 to 16 nearest to the setting |
| `Bonded.Dial` | internal/transport/client.go:35-91 | the tunnel holds channel 0 and exactly the channels that came up, each once, at most as many as asked for |
| `Bonded.FanOutIsFresh` | internal/transport/client.go:60-86 | whatever dials fail and in whatever order the rest arrive, every attach uses a fresh index |
| `Striping.ChoosesExactly` | internal/transport/tunnel.go:145 | entry j of `order` is a hash's first choice if and only if the hash leaves j when divided by the number of channels |
| `Striping.EveryEntryIsChosen` | internal/transport/tunnel.go:145 | for every number of channels, every entry is some hash's choice |
| `Striping.SameChannelExactly` | internal/transport/tunnel.go:129-132 | with 2^k channels, flows that differ in one byte get the same channel if and only if that byte agrees modulo the number of channels |
| `Striping.SameChannelUsedExactly` | internal/transport/tunnel.go:136-156 | the same of the channel a write reports as used |
| `Striping.FirstChoiceIsUsed` | internal/transport/tunnel.go:145-153 | a write ends at its first choice if that channel takes the packet |
| `Striping.NextTryExactly` | internal/transport/tunnel.go:145 | while `order` is unchanged the next try looks at the next entry, cyclically, if and only if the 32-bit sum does not wrap there or the number of channels divides 2^32 |
| `Striping.FourTriesDiffer` | internal/transport/tunnel.go:138-145 | without a wrap, the four tries on an unchanged `order` of at least four are four different entries |
| `FlowOrder.StepKeepsInv` | internal/transport/tunnel.go:68-82 | for every channel: what was passed on plus what its reader holds is what it has read, in order |
| `FlowOrder.ChannelOrder` | internal/transport/tunnel.go:16-20 | in every run, with any failover and with readers racing `dead`: what comes out by a channel is a prefix of what was written to it |
| `FlowOrder.FlowLiesOnItsChannel` | internal/transport/tunnel.go:127-132 | while every packet lies where its flow hash says, a flow is a part of one channel |
| `FlowOrder.OutIsStriped` | internal/transport/tunnel.go:216-228 | what comes out travelled on the channel it was written to |
| `FlowOrder.FlowOrderPreserved` | internal/transport/tunnel.go:127-132 | from every reachable state, while `order` is unchanged: what is written of a flow goes to one channel, and what that channel yields is, in order, what was left on it of the flow and then what is written, nothing twice or skipped |
| `FlowOrder.WholeFlowInOrder` | internal/transport/tunnel.go:127-132 | if all earlier packets lie where `order` says, as on a new tunnel, the whole flow comes out in the order written |
| `FlowOrder.ChangedOrderMayReorder` | internal/transport/tunnel.go:92-98 | an example of reordering: the flow's channel leaves `order`, and any two packets of the flow come out in the other order |
| `FlowOrder.TwoAttachesAreFresh` | internal/transport/tunnel.go:52-66 | the state that run starts from is reachable |
| `Reordering.OneWayExactly` | internal/transport/tunnel.go:127-132 | on every reachable link whose readers run: a flow in order stays in order under every course of reads, pushes and consumption if and only if all of it that is under way is on one channel |
| `Reordering.WriteKeepsOneWayExactly` | internal/transport/tunnel.go:136-156 | a write keeps the flow in order, and keeps it on one way if and only if it is of another flow or uses the channel of what is under way |
| `Reordering.StepKeepsWayExactly` | internal/transport/tunnel.go:68-82 | every step of every thread keeps a flow on one way in order, and on one way if and only if it writes nothing of the flow elsewhere |
| `Reordering.TwoWaysOvertake` | internal/transport/tunnel.go:68-82 | of two packets of a flow under way on two channels the later can be passed on first, from every reachable link |
| `Reordering.InOrderExactly` | internal/transport/tunnel.go:127-132 | over all runs in which no reader gives up: the flow is in order at every moment and in every course deliveries could then take if and only if each of its writes uses the channel of what is under way of it |
| `Reordering.UndisturbedJoin` | internal/transport/tunnel.go:127-132 | while `order` stays and no write needs a second try, all writes do |
| `Reordering.InOrderMeansOutput` | internal/transport/tunnel.go:214-228 | a flow in order throughout a run is read in the order written, nothing twice or skipped |
| `Reordering.JoiningFlowComesOutInOrder` | internal/transport/tunnel.go:127-132 | in every run, readers that give up included: a flow whose writes use the channel of what is under way of it is read in the order written |
| `Handshake.KeyAgreement` | internal/crypto/crypto.go:122-133 | assuming only symmetry of the curve: both ends fail together, or each end's sending key is the other's receiving key and the two differ, each under its fixed label |
| `Handshake.ClientKeysDetermine` | internal/transport/client.go:160-167 | the client has keys if and only if neither point is of low order; two clients' keys are equal if and only if both secrets, the one with the server's static key included, and the salts are |
| `Handshake.ServerKeysDetermine` | internal/transport/server.go:173-178 | the same of the server |
| `Handshake.WrongServerSharesNothing` | internal/transport/handshake.go:22-40 | a server whose static key gives another secret shares no key with the client, and neither opens the other's records |
| `Handshake.AuthMessageInjective` | internal/transport/handshake.go:16-20 | a token's message determines ephemeral key, timestamp, static key and session id |
| `Handshake.ChannelSaltInjective` | internal/transport/handshake.go:42-56 | a salt determines both ephemeral keys, session id and channel index |
| `Handshake.ChannelsAreSeparate` | internal/transport/handshake.go:42-46 | channels that differ in any input share no key, and neither opens the other's records |
| `Replay.ReplayFilter.constructor` | internal/crypto/crypto.go:222-231 | the lifetime in whole seconds, 300 when that is not positive |
| `Replay.TtlIsWholeSeconds` | internal/crypto/crypto.go:222-226 | the lifetime is the duration in whole seconds, rounded down, and 300 below one second |
| `Replay.ReplayFilter.Check` | internal/crypto/crypto.go:235-257 | the loop of deletions is the sweep of expired entries; answer and new map follow the specification step |
| `Replay.AnswerFollowsRule` | internal/crypto/crypto.go:233-234 | a faithful map answers by the history rule |
| `Replay.FilterRefinesRule` | internal/crypto/crypto.go:202-208 | for every history in time order: call i is answered true if and only if no earlier accepted call for its token is within its lifetime |
| `Replay.EntriesAreRecent` | internal/crypto/crypto.go:241-250 | every stored entry expires after the last sweep, which is at most one lifetime ago |
| `Replay.MapIsBounded` | internal/crypto/crypto.go:241-242 | every stored token was accepted within the last two lifetimes, and the map is no larger than the number of such acceptances |
| `Auth.Gate.constructor` | internal/transport/server.go:67-71 | the default filter remembers for 240 s |
| `Auth.Gate.CheckAuth` | internal/transport/server.go:195-251 | admits exactly a complete, well-formed, timely and authentic request that the filter finds fresh; no other request reaches the filter |
| `Auth.GrantIsTheRequest` | internal/transport/server.go:250 | what is granted is the request's own key, session and channel |
| `Auth.ClientRequestGrantedExactly` | internal/transport/client.go:126-139 | what a client sends is granted if and only if both ends agree on shared key and static key, the session id has 16 bytes, the channel is one of 16, the clocks differ by at most 120 s and the token is fresh; and what is granted is what was asked |
| `Auth.TokenBinds` | internal/transport/handshake.go:9-15 | a token admits nothing but the ephemeral key, timestamp and session it was made for, at the server and under the shared key it was made for |
| `Auth.TokenStaysRemembered` | internal/transport/server.go:244-249 | an accepted token stays in the filter for its lifetime, whatever else is presented |
| `Auth.AcceptancesAreFarApart` | internal/transport/server.go:236-249 | two acceptances of a token share its timestamp, lie in one window and are a lifetime apart |
| `Auth.SecondAcceptanceIsAtTheBoundary` | internal/transport/server.go:67-71 | as deployed a second acceptance is possible only exactly 240 s after the first, with a timestamp 120 s ahead of it |
| `Auth.NeverThreeTimes` | internal/transport/server.go:67-71 | a third never happens for pauses up to 239 s between the two clock readings |
| `Auth.ThriceExactly` | internal/transport/server.go:67-71 | three acceptances are possible if and only if two lifetimes are at most 240 s plus the longest pause |
| `Auth.TripleReplay` | internal/transport/server.go:236-249 | the three requests then accepted |
| `Auth.BoundaryReplay` | internal/transport/server.go:236-249 | the two requests that are both accepted: one token stamped 120 s ahead, presented at once and 240 s later |
| `Auth.ReplayableExactly` | internal/transport/server.go:67-71 | a token can be accepted twice if and only if the lifetime is at most 240 s plus the longest pause between the two clock readings |
| `Address.ParseHostIP` | internal/server/server.go:257-275 | the text before the first slash, read as a dotted quad or, with a colon first, as the IPv6 parser given says |
| `Address.DecimalRoundTrip` | internal/server/pool.go:66 | printed numbers are canonical and read back |
| `Address.QuadRoundTrip` | internal/server/pool.go:64-66 | every printed address parses back to itself |
| `Address.ParsedTextIsCanonical` | internal/server/server.go:266-274 | an accepted text is the printed form of its address |
| `Address.CidrRoundTrip` | internal/server/pool.go:64-66 | the assignment text names the allocated address, for every address, prefix and IPv6 parser |
| `Address.PrefixRoundTrip` | internal/server/pool.go:66 | the assignment text after the slash reads back as the prefix |
| `Address.BareRoundTrip` | internal/server/server.go:256-264 | an address without a prefix is read too |
| `Pool.IpPool.Reserve` | internal/server/pool.go:52-80 | takes one free address, or none if all are used; text, number and closure name the same address |
| `Pool.Lease.Fire` | internal/server/pool.go:68-78 | gives the address back the first time, then changes nothing |
| `Pool.NewPool` | internal/server/pool.go:34-50 | the free list is the hosts of the subnet; refused exactly when there are none |
| `Pool.ListHosts` | internal/server/pool.go:39-45 | the constructor's loop |
| `Pool.LastOffsetIs` | internal/server/pool.go:36-39 | the 32-bit loop bound is the subnet size minus one for every prefix, the wrap at /0 included |
| `Pool.NewPoolHoldsTheHosts` | internal/server/pool.go:10-11 | free holds each address but network, broadcast and gateway exactly once; their number in closed form; none exactly for /31 and /32 |
| `Pool.AllocKeepsPartition` | internal/server/pool.go:54-62 | free and used stay a partition of the hosts; alloc fails exactly when all are used, else returns an unused one |
| `Pool.ReleaseKeepsPartition` | internal/server/pool.go:69-78 | releasing keeps the partition and frees exactly that address |
| `Pool.PoolConservation` | internal/server/pool.go:54-80 | over every sequence of reservations and releases: the partition holds and used is exactly the outstanding reservations, one address each |
| `Pool.SecondReleaseDoesNothing` | internal/server/pool.go:68-78 | a closure that has fired never changes the pool again, even after its address was reissued |
| `Sessions.Handler.Enter` | internal/transport/server.go:116-151 | under the lock: join, refuse at the cap or with the pool exhausted, or create with a fresh address |
| `Sessions.Handler.OnEmpty` | internal/transport/server.go:129-135 | forgets the session, then gives the address back at most once |
| `Sessions.Router.Start` | internal/server/server.go:160-165 | the route claimed is the address in the assignment text |
| `Sessions.Router.Stop` | internal/server/server.go:241-247 | only the tunnel's own route is removed |
| `Sessions.StepKeepsInv` | internal/transport/server.go:108-189 | every step of every thread keeps the server's invariant over sessions, tunnels, pool and routes |
| `Sessions.AddressesAreConserved` | internal/transport/server.go:119-138 | in every run the used addresses are exactly those of tunnels whose release has not run, one distinct address each |
| `Sessions.SessionsAreExact` | internal/transport/server.go:130-137 | `sessions` names for each id exactly the one tunnel whose deletion has not run, so an old teardown never deletes a newer session |
| `Sessions.ChannelCapHolds` | internal/transport/server.go:144-149 | at most sixteen channels per tunnel, however many handlers pass the test at once |
| `Sessions.RoutingIsCorrect` | internal/server/server.go:201-247 | a packet is handed only to a tunnel assigned its destination; ending a handler removes no other tunnel's route |
| `Sessions.HandsOverExactly` | internal/server/server.go:211-222 | a packet is handed to the tunnel its destination leads to, and dropped if there is none or no IPv4 header |
| `Sessions.RegisteredGetsItsPackets` | internal/server/server.go:216-223 | while nobody is displaced, a registered tunnel that holds its address gets every packet for it |
| `Sessions.NewcomerGetsItsPackets` | internal/server/server.go:231-239 | whoever has just registered gets the packets for its address |
| `Sessions.DisplacementExactly` | internal/server/server.go:231-239 | a registration takes a live tunnel's route if and only if the newcomer has already given that very address back |
| `Sessions.TimelyStartsNeverDisplace` | internal/server/server.go:231-239 | if every tunnel registers before it releases its address, none loses its route while it holds its address |
| `Sessions.LateStartDisplaces` | internal/server/server.go:231-239 | otherwise one can: the run, for every address |
| `Admission.JoinsExactly` | internal/transport/server.go:143-151 | a request for an existing session passes if its tunnel has fewer than sixteen channels, and otherwise changes nothing |
| `Admission.OpensExactly` | internal/transport/server.go:121-138 | one for a new session takes the address freed last and opens an empty tunnel; with none left it changes nothing |
| `Admission.AttachesExactly` | internal/transport/server.go:187-188 | a handler that has passed attaches under its own index and changes nothing else, unless the tunnel has closed |
| `Admission.AcceptedRequestComesUp` | internal/transport/server.go:108-189 | a request the gate accepts, entered and attached, leaves its session's tunnel with a channel under exactly the index asked for, whatever happens in between short of the tunnel closing |
| `Admission.GivingUpUndoesJoining` | internal/transport/server.go:153-183 | a handler that joined a session and gives up before it attaches leaves no trace |
| `Admission.GrantedEndsMeet` | internal/transport/server.go:173-178 | what the server derives from a grant matches what the client derives from its request |
| `Admission.SessionComesUp` | internal/transport/server.go:116-118 | a session admitted under any distinct indices ends with exactly those channels, in that sequence, on one address |
| `Admission.SessionOfAnySize` | internal/transport/wire.go:24-26 | for every n up to sixteen, indices 0 to n - 1 give n channels |
| `Routes.NeverDisplacedExactly` | internal/server/server.go:231-247 | over all runs: nobody is displaced at any moment if and only if no tunnel registers an address it has given back while another is registered and holds it |
| `Routes.StepDisplacesExactly` | internal/server/server.go:231-239 | one step leaves nobody displaced if and only if it is not such a registration |
| `Routes.LateStartFindsExactly` | internal/server/server.go:232-235 | with nobody displaced and every route its holder's, a registration after the release finds an entry if and only if the address has a registered holder, and displaces it |
| `Routes.PriorEntryExactly` | internal/server/server.go:232-235 | a holder's registration finds a prior entry if and only if another tunnel has released the address without having stopped the route that stands |
| `Routes.ReleaseIsFoundExactly` | internal/server/server.go:160-166 | the next session gets the address just released, and its registration would find an entry if and only if the releasing tunnel's route stood |
| `Routes.NoPriorExactly` | internal/server/server.go:232-235 | in every run of timely registrations: none would find a prior entry, now or after one more session, if and only if every tunnel stops its route before it releases |
| `Routes.TimelyStartFindsPrior` | internal/server/server.go:232-235 | the run, for every address, in which both tunnels register in time and the second finds the first |
| `Sockets.OpenSocketsExactly` | internal/transport/wire.go:24-26 | in every run of the server a tunnel's open connections are those in its map and one for every attach that hit a live index; at most sixteen plus that number |
| `Dispatching.Forward` | internal/server/server.go:221-227 | the packet is sent as the retry loop's specification says, or the tunnel is closed; one over 9000 bytes is never sent |
| `Dispatching.RefusedWriteEndsTheTunnel` | internal/server/server.go:223-227 | whatever the failed write left of a tunnel, the close tears it down, once, without channels |
| `Dispatching.RefusedPacketEndsTheSession` | internal/server/server.go:221-228 | on the whole server: a packet its tunnel refuses, as every one over 9000 bytes, ends exactly that session; its entry is deleted, its address is free again, no other tunnel changes |
| `Sockets.SocketsPileUp` | internal/transport/server.go:144-149 | for every n: one session admitted n times under one index has n connections open and one channel, and Close leaves n - 1 open |
| `InternetChecksum.IpChecksum` | cmd/krot-probe/main.go:182-191 | the complement of the folded 32-bit sum, for every length |
| `InternetChecksum.SumWords` | cmd/krot-probe/main.go:183-186 | the loop computes the word sum modulo 2^32 |
| `InternetChecksum.FoldSum` | cmd/krot-probe/main.go:187-189 | the carry loop ends in the one's-complement value of the sum |
| `InternetChecksum.FoldKeepsOnes` | cmd/krot-probe/main.go:188 | each fold preserves that value |
| `InternetChecksum.StoredChecksumVerifies` | cmd/krot-probe/main.go:116 | for every buffer and aligned zero field: with its checksum stored there, the buffer's checksum is 0 |
| `InternetChecksum.AgreesWithRfc` | cmd/krot-probe/main.go:182-191 | up to 65537 words the result is that of RFC 1071 |
| `InternetChecksum.DiffersFromRfcBeyond` | cmd/krot-probe/main.go:183-186 | at every greater length there are buffers for which it differs |
| `InternetChecksum.RfcAgreementExactly` | cmd/krot-probe/main.go:182-191 | the result is that of RFC 1071 for all buffers of k words if and only if k is at most 65537 |
| `Dns.BuildDNSMessage` | cmd/krot-probe/main.go:126-146 | the name is written label by label between the header and the question's end |
| `Dns.SkipQuestion` | cmd/krot-probe/main.go:158-163 | the skip loop |
| `Dns.ReadAnswers` | cmd/krot-probe/main.go:164-179 | the answer loop yields the A records among at most the announced number, in bounds on every input |
| `Dns.ParseDNSAnswers` | cmd/krot-probe/main.go:148-180 | the whole reader, for every input |
| `Dns.SkipLandsAtEndExactly` | cmd/krot-probe/main.go:158-163 | for labels up to 255 bytes the skip lands at the end of the written question if and only if no label is empty |
| `Dns.AnswersOfEncoded` | cmd/krot-probe/main.go:164-179 | encoded records, read, yield exactly their addresses |
| `Dns.ReplyIsRead` | cmd/krot-probe/main.go:148-180 | from every well-formed reply the probe reads exactly the addresses it carries |
| `Dns.QuestionReadsBack` | cmd/krot-probe/main.go:126-146 | for labels up to 255 bytes: the message asks one question, recursion desired, type A, class IN, and its labels read back as the name's if and only if none is empty |
| `Dns.BuildDNSQuery` | cmd/krot-probe/main.go:99-124 | header with its checksum, UDP header without one, then the message |
| `Dns.FillIpv4` | cmd/krot-probe/main.go:107-116 | the header bytes written in place, checksum last |
| `Dns.QueryIsWellFormed` | cmd/krot-probe/main.go:101-124 | the query's header verifies, and router and striping read from it the destination and ports it was built with |
| `Dns.LengthsReadBack` | cmd/krot-probe/main.go:104-122 | the length fields are the packet's and its UDP part's, the ports 40000 and 53 |
| `Socks.Client.ReadFull` | internal/socks/socks.go:144 | exactly n bytes or none, however the network cuts the stream |
| `Socks.Client.Handshake` | internal/socks/socks.go:141-158 | for every stream and chunking: target, bytes left over and bytes sent are those of the specification |
| `Socks.Client.Request` | internal/socks/socks.go:159-170 | the same for the request |
| `Socks.Client.Address` | internal/socks/socks.go:172-206 | the same for address and port |
| `Socks.HandshakeRoundTrip` | internal/socks/socks.go:139-207 | every well-formed greeting and request is understood and exactly it is consumed |
| `Socks.OnlyWellFormedIsAccepted` | internal/socks/socks.go:139-207 | a target comes only from a well-formed greeting and request for it; malformed or truncated input yields none |
| `Socks.AnswersExactly` | internal/socks/socks.go:154-199 | for every stream: the client is sent "no authentication" exactly when it has greeted, then code 7 exactly when command or address type is not supported, and nothing else; no target comes with a refusal |

## Left out

- TLS, uTLS, certificate pinning, WebSocket framing, HTTP headers, cookies and the decoy: only the decoded fields and a reliable
  FIFO of messages whose writes may fail remain. The path test after `checkAuth` is not modelled; it only turns more requests away.
- ChaCha20-Poly1305, X25519, HKDF and HMAC are terms; nothing is said about secrecy.
- `internal/netif`, `internal/tun`, `internal/config`, `internal/client`, the command-line tools and the deployment files.
- Real time: clocks are integers passed in. `Check` reads its clock before taking its lock, so the order of the readings is
  a hypothesis (`Ordered`); 64-bit overflow of clock sums is not modelled.
- Socket reads: `Conn.inbox` is what will still arrive before the socket fails or its deadline passes.
- `Sealer.count` and the padding sizes are unbounded integers; `AEADStream.nonce` is a 12-byte value, not a shared buffer.
- The replacement of an all-zero padding policy by the default one.
- `Bonded` runs each method without interruption; interleavings are modelled on values in `Lifecycle`, `FlowOrder` and `Sessions`.
  A write to a channel picked before `order` changed is, in `FlowOrder`, a write between two changes of `order`.
- Dispatching.RefusedPacketEndsTheSession: the failed write and the close run without interruption; of what other threads do in
  between, only the invariant of `Sessions` is proved.
- Bonded.Tunnel.ReadPacket: blocking is an outcome of its own, and of the random choice between a packet and `dead` only the
  order of packets is kept.
- An overwritten connection ends when its socket fails or its peer closes it; `open` counts what the tunnel itself has not closed.
- `Sessions` and `Routes` take session ids of any length; that an admitted one has 16 bytes is part of `Auth.Admissible` only.
- `Sessions` folds key generation, upgrade and key derivation into one step that either attaches or gives up; the gap between
  the lookup and the write in `dispatch` is one step, with the routes as they were at the lookup.
- Address.ParseHostIP: what `net.ParseIP` makes of text with a colon before any dot is a parameter.
- Pool.NewPool: starts from the gateway and prefix that `net.ParseCIDR` would return.
- Dns.SkipLandsAtEndExactly: labels over 255 bytes, whose length byte is truncated, are excluded.
- Dns.QuestionReadsBack: the same.
- Socks.AnswersExactly: covers the handshake; the reply after dialling (0, 1 or 4) is not part of this model.
- Socks.Client.Handshake: yields the address in binary; its text form, dialling and the relay are not part of this model.
- IP fragments beyond the first share a flow without ports, as in the code; the order among a packet's fragments is not treated.
