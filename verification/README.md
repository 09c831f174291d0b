# Verified model of go-afxdp

A Dafny model of the AF_XDP library's difficult parts, with proofs that cover every input,
every run and every interleaving of the model. `dafny verify dfyconfig.toml` checks all of it.

The project has four parts.

**The filter compiler** (`filter.go`, `match.go`, `matchpacket.go`). Match builders emit labelled
eBPF blocks; exception blocks and match blocks are chained, and a prologue and two tails go
around them. `Ebpf` is a small-step interpreter for the instructions used, following RFC 9669
(arithmetic in section 4.1, jumps in 4.3, loads and stores in 5.1), on a little-endian host. A load
outside the packet, the stack, the context or a map value is a fault. `Wire` says what each rule
means on big-endian header fields, with no reference to any instruction: RFC 791 section 3.1,
RFC 8200 section 3, RFC 4861 section 4, IEEE 802.1Q clause 9, and RFC 4632 section 3.1 and RFC 4291
section 2.3 for prefixes. `Refinement` proves each builder's block decides its rule; `Linking` and
`Chain` show that a block placed in a program runs there as it runs alone; `FilterTheorems` puts
the program together, and a theorem that says which action it returns also says that it halts.
`LoadSafety` adds what the interpreter alone does not say, since it answers for any readable
address: every load the chain executes lies between `data` and `data_end`, and only the redirect tail
jumps back. `Contract` and `Splicing` do the same for user-written blocks: what `checkBlock`
guarantees of every run, that `NewMatch` preserves labels and meaning, and the theorem for filters
that mix library and custom matches in any order. `Independence` and `Interference` are about what
one block may do to the next.

**The socket** (`socket.go`, `pool.go`, `multibuffer.go`). `SocketProtocol` is a state machine over
frames: every atomic step of the receive goroutine, of the transmit goroutine and of the kernel is an
action, and an execution is any sequence of enabled actions. The kernel moves frames from the fill
ring to itself to the rx ring, and from the tx ring to itself to the completion ring, one at a time,
never past a full ring, and may report any address inside a frame. `FrameConservation` proves what
every such execution keeps. `Rings` and `FramePools` are the in-place data structures, and `Sockets`
is the object itself: between any two memory accesses of a method the kernel may take any number
of its steps, and each method is shown to amount to kernel steps and one protocol action, so what
holds of all runs of the protocol holds of the code. `UmemFrames` and `Batches` follow the bytes of a
send into the UMEM; `Segments` and `MultiBuffer` add packets that span frames. `Kicks` is the retry loop around sendto, and
`Shutdown` the reference count that lets Close wait.

**Fleets** (`fleet.go`, `program.go`, `tune.go`). `Fleets` is a ledger of everything that exists:
loaded programs, links, sockets and NAPI settings. Every request to the host may fail at
any point, and every answer is recorded: a call that fails does so because of a refusal, and what
it had to try before giving up is stated against that record.

**Checksums** (`examples/dns`, `examples/udpreflector`). One's-complement arithmetic after RFC 1071
sections 1 and 2, the DNS example's reply builder and the reflector's in-place swap.

Where the documentation and the code differ, the model follows the code.

- `MatchUDPPort()` with no ports is described as matching any packet of the protocol; the code still
  demands a 20-byte IPv4 header and fragment offset zero, and so does the meaning of that rule here
  (`Wire.PlainIpv4`).
- The contract for custom blocks reserves registers so that a block cannot disturb the ones after
  it. `checkBlock` does not achieve that, in two ways. A block may store into the packet, and later
  blocks see the changed bytes (`Interference.MarkerDisturbs`: a bounds-checked store makes the
  filter redirect frames no match asks for). And a block may leave a value in a scratch register
  that a later block reads (`Interference.ScratchDisturbs`: neither block stores or loads anything).
  A block decides a packet by itself exactly when its runs leave, keep the packet, and do not
  depend on scratch (`Independence.DecidesExactly`); it leaves later verdicts alone exactly when its
  runs through Next keep the packet (`Independence.HarmlessExactly`); and
  `Independence.CustomDecides` gives a check on the instructions that is enough.
- A ring size of zero is described as switching a direction off; `NewSocket` first replaces every
  zero by its default (`Sockets.WithDefaults`), so no direction is ever off.
- When no match can redirect, `newFilterProgram` returns the pass-only program without validating
  the exceptions, so it accepts lists `matchPacket` refuses (`FilterTheorems.PassOnlyAccepts`).
- Where the kernel has no XDP links, opening or closing a fleet takes the program of any other
  open fleet off the same interface (`Fleets.World.Open`, `Fleets.World.Close`).

## Model

| member | source | states |
|---|---|---|
| Fragments.GuardFlow | filter.go:178-186 | the guard falls through exactly for a 20-byte IPv4 header with fragment offset zero |
| Fragments.BaseFlow | filter.go:197-207 | R9 becomes the start of the frame seen past one 802.1Q tag, and its first 14 bytes are in bounds, or the block leaves to the next one |
| Fragments.PortsFlow | filter.go:221-272 | a list of port tests jumps exactly when the loaded port is one of the listed ports |
| Builders.EmitPortTests | filter.go:244-249 | the port loop emits one test per port, in order |
| Builders.EmitCidrTest | filter.go:499-522 | the word loop emits the test the CIDR theorems are about, for both address families |
| Cidr.ByteTest | filter.go:499-522 | masking a byte and comparing is agreement on the prefix bits that fall in it |
| Cidr.WordTest | filter.go:505-519 | masking a little-endian word and comparing is agreement on the prefix bits that fall in it |
| Cidr.AndExtended | filter.go:510-517 | ANDing a 32-bit word with the sign-extended mask is ANDing it with the mask |
| Cidr.MaskFlow | filter.go:510-519 | the AND and the 32-bit compare fall through exactly when the masked word is the constant, for every mask and constant |
| Cidr.CidrFlow | filter.go:499-522 | for every prefix length of both families the test falls through exactly when the leading bits agree |
| Refinement.EtherTypeDecided | filter.go:391-402 | the block hits exactly the frames of that EtherType, a tag skipped |
| Refinement.Ipv4ProtoDecided | filter.go:328-341 | the block hits exactly the IPv4 packets of that protocol |
| Refinement.Ipv6NextHeaderDecided | filter.go:352-365 | the block hits exactly the IPv6 packets with that next header |
| Refinement.Icmpv4EchoDecided | filter.go:299-317 | the block hits exactly unfragmented option-free ICMP echo requests |
| Refinement.Icmpv6EchoDecided | filter.go:369-384 | the block hits exactly ICMPv6 echo requests |
| Refinement.Icmpv6NdDecided | filter.go:594-610 | the block hits exactly ICMPv6 types 133 to 137 |
| Refinement.AddressDecided | filter.go:453-482 | the block hits exactly packets whose source (or destination) lies in the prefix |
| Refinement.FlowDecided | filter.go:422-451 | the block hits exactly packets with both addresses in their prefixes |
| Refinement.L4PortDecided | filter.go:221-272 | the two-family port block hits exactly its ports, or the whole guarded protocol when none is listed |
| Refinement.LocalPortDecided | filter.go:534-588 | the management port block hits exactly its protocol, port and local address |
| Refinement.BlockDecides | filter.go:209-682 | every built-in block, on every packet of every length, halts without a fault and leaves through its hit exactly when the rule holds |
| Classifier.ContractExactly | match.go:163-196 | the contract forbids naming R8, writing R6 or R7, and returning, and nothing else |
| Classifier.CheckBlock | match.go:163-184 | the scan reports a violation exactly when some instruction breaks the register contract |
| Classifier.ValidateMatches | filter.go:770-792 | the lists are accepted exactly when no exception is catch-all and every match can be built |
| Classifier.ClassifierBlocks | filter.go:730-765 | the two loops chain exception blocks to `pass` and match blocks to `redirect`, or report the first failure |
| Classifier.NewFilterProgram | filter.go:803-889 | which program is assembled: none, the pass-only one, an error, or prologue, chain and both tails |
| Classifier.MatchPacketProgram | matchpacket.go:92-134 | the harness is refused without a filter or an Ethernet header, and otherwise wraps the same chain |
| Linking.BlockInProgram | filter.go:730-765 | a block placed anywhere in a program with unique labels runs there as it runs alone |
| BlockShape.CodeShaped | filter.go:209-682 | every built-in block passes the register contract, stores nothing and calls nothing, labels and targets only what it owns or was given, and jumps to its own labels only forward |
| Chain.ChainInProgram | filter.go:730-765 | a chain placed in a program reaches `redirect` or `pass` as its blocks decide, in every case |
| Chain.FirstHitMeaning | filter.go:730-765 | the chain's verdict is: no exception holds and some match does |
| Chain.ChainOfDecided | filter.go:730-765 | blocks that each decide a predicate form a chain that decides the combination |
| Filter.ItoaRoundTrip | filter.go:730-765 | generated block names can be read back, so no two are equal |
| Filter.EntryDistinct | filter.go:730-765 | entry symbols of different places differ from each other and from both tails |
| Filter.LabelsDistinct | filter.go:730-765 | and so do all labels derived from them |
| Filter.BlocksOfRules | filter.go:730-765 | lists of library matches always assemble, to exactly the blocks of their rules |
| Filter.ChainLinks | filter.go:730-889 | any chain of blocks with labels of their own links between any prologue and tails, every jump resolved, every block in place |
| FilterTheorems.RuleProgramsLink | filter.go:803-889 | both programs built from library rules are linked with the chain in place |
| Filter.RedirectTail | filter.go:864-889 | the tail delivers to the packet's queue when that queue is enabled and bound, and passes when it is not enabled |
| FilterTheorems.FilterCorrect | filter.go:803-889 | compiler correctness: for all accepted lists and every packet the program reaches `redirect` iff no exception and some match holds, always halts, and returns the delivery or XDP_PASS |
| FilterTheorems.VerdictOfChain | filter.go:864-889 | the verdict of a chain inside prologue and tails, for blocks of any origin |
| FilterTheorems.BuiltExactly | filter.go:209-682 | a library builder fails exactly for a flow between an IPv4 and an IPv6 prefix, whatever the protocol, ports and addresses of a rule; only MatchAll is catch-all and only MatchNone passes everything |
| FilterTheorems.FilterBuilds | filter.go:803-904 | newFilterProgram builds the full program the theorems are about exactly when no exception is MatchAll, some match is not MatchNone and no flow mixes address families; these are the accepted lists |
| FilterTheorems.HarnessAgrees | matchpacket.go:92-151 | for library matches the test harness returns its sentinel exactly when the live program redirects |
| FilterTheorems.PassOnlyAccepts | filter.go:803-831 | when no match redirects, matchPacket accepts exactly the lists with no MatchAll and no flow between two address families among the exceptions, while the live program is built for all of them |
| FilterTheorems.PassOnlyAgrees | filter.go:803-831 | on lists both accept, the pass-only program, the full program it stands for and the harness all pass the packet |
| LoadSafety.LoadsInPacket | filter.go:160-207 | a plain block that decides in every world loads only from the packet, at every step of every run |
| LoadSafety.BlockLoads | filter.go:160-682 | every load any built-in block executes lies in the packet, and its own jumps go forward |
| LoadSafety.ChainLoads | filter.go:730-889 | the same at every step of a program, for chains of any such blocks |
| LoadSafety.LoadsInBounds | filter.go:803-889 | on every packet of every length the attached program executes only arithmetic, jumps and in-bounds loads between its prologue and its tails |
| LoadSafety.RuleProgramJumps | filter.go:864-889 | every jump resolves, and the only backward ones are the two from the redirect tail to `pass` |
| FilterTheorems.VlanTransparent | filter.go:188-207 | inserting any 802.1Q tag into an untagged frame changes no verdict |
| FilterTheorems.FlowIsBoth | filter.go:404-451 | MatchFlow takes a packet exactly when MatchSrcIP and MatchDstIP both do, as programs |
| Management.ListPortRules | filter.go:626-642 | the loop lists both directions of every TCP port, then DNS replies over UDP and TCP, in that order |
| Management.ManagementExceptions | filter.go:625-658 | the nested loops build one exception per rule and matching address, after ARP and ND |
| Management.PortRulesMeaning | filter.go:626-642 | the list of port rules means TCP with a listed port at either end, or UDP or TCP from port 53 |
| Management.ExceptionsMeaning | filter.go:625-658 | some exception holds exactly for ARP, neighbour discovery, or such ports toward a listed address (any, when addresses are unknown) |
| Management.KeepsManagement | filter.go:625-658 | with MatchAll the program passes exactly the management packets to the kernel |
| Management.ManagementGrows | filter.go:625-658 | more addresses or ports only add packets, and every scoped set is inside the unscoped one |
| Management.NoAddresses | filter.go:625-658 | knowing that there are no addresses leaves only ARP and neighbour discovery |
| Contract.ContractSound | match.go:163-196 | on every run an accepted block leaves R6, R7 and R8 as they were |
| Contract.LeavesByContract | match.go:163-209 | an accepted block with labels of its own can leave only through Next or Redirect |
| Contract.LabelsSurvive | match.go:278-314 | wrapping keeps every user label on the same instruction |
| Contract.WrappedMeaning | match.go:278-314 | the entry symbol, filler and appended jump leave the block's outcome on every packet unchanged |
| Contract.WrappedContract | match.go:278-314 | a wrapped block passes checkBlock exactly when the user code does |
| Splicing.WrappedShaped | match.go:278-314 | wrapping code that keeps to its own labels gives a block the assembler accepts anywhere |
| Splicing.SourcesLink | filter.go:730-889 | a list of library and custom matches assembles exactly when every builder succeeds and passes checkBlock, and then links, live and in the harness, with every block in place |
| Splicing.FilterOfBlocks | filter.go:803-889 | a filter of any deciding blocks redirects iff no exception hits and some match does, and always halts |
| Splicing.HarnessOfBlocks | matchpacket.go:92-151 | and the harness returns its sentinel exactly then, and XDP_PASS otherwise |
| Splicing.FilterOfSources | match.go:246-314 | compiler correctness for every program newFilterProgram returns for mixed lists, and agreement with MatchPacket |
| Splicing.EnvLabels | match.go:119-123 | Label gives each name its own symbol, owned by the block, never its entry or the landing pad |
| Splicing.EnvFragments | match.go:95-117 | FrameBase defines one label of the block and Bounds none; both leave only to Next |
| Splicing.UdpShaped | match.go:255-269 | the documented example keeps to its own labels and passes checkBlock |
| Splicing.UdpDecided | match.go:255-269 | and hits exactly the frames whose fields say UDP over IPv4 to that port |
| Splicing.UdpFilter | match.go:255-269 | behind any library exceptions it assembles, and the program redirects exactly those frames no exception holds of |
| Independence.StoreFreeSound | match.go:163-196 | a block without stores keeps packet and stack on every run |
| Independence.CustomDecides | match.go:163-314 | an accepted block that jumps forward, neither stores nor calls, and sets registers before reading them decides every packet its loads stay inside |
| Independence.DecidesExactly | match.go:125-163 | an accepted block decides a packet iff its runs leave, keep the packet and do not depend on scratch registers |
| Independence.HarmlessExactly | match.go:125-163 | an accepted block leaves the verdict of every later block alone on every packet iff its runs through Next keep the packet |
| Interference.MarkerGoesOn | match.go:246-314 | a bounds-checked packet store never traps and always goes on to the next block |
| Interference.MarkerDisturbs | match.go:125-163 | yet the assembled filter of it and one rule redirects what the rule alone, and it alone, leave to the kernel |
| Interference.DisturbedSample | match.go:125-163 | a concrete world and frame on which the two programs return different actions |
| Interference.MarkerKeepsNot | match.go:125-163 | in the terms of the exact condition: that block does not keep the packet |
| Interference.ScratchDisturbs | match.go:125-163 | two accepted matches without stores: what the first leaves in R2 decides every packet |
| Interference.ScratchDecides | match.go:125-163 | in those terms: the first decides "never" on every packet, the second stores nothing but depends on scratch |
| Rings.WrappedDistance | socket.go:599-613 | an unsigned 32-bit difference recovers the queue length across every wrap |
| Rings.MaskIndex | socket.go:479-484 | masking a free-running 32-bit counter never jumps slots at a wrap |
| Rings.PowerOfTwoTest | socket.go:208-217 | the test on ring sizes accepts exactly the powers of two |
| Rings.Ring.WriteSlot | socket.go:479-485 | writing an unpublished slot changes nothing the consumer can see |
| Rings.Ring.Publish | socket.go:485-486 | storing the producer index appends everything staged to the queue, in order |
| Rings.Ring.ReadSlot | socket.go:578-583 | a slot read through the mask is that element of the queue |
| Rings.Ring.Release | socket.go:584-585 | storing the consumer index removes exactly what was read |
| Rings.Ring.Free | socket.go:601-613 | the free count is exact and its fallback branch is dead |
| Rings.Ring.Avail | socket.go:616-626 | the fill count is exact and its clamp is dead |
| Rings.RingCounter.Update | socket.go:164-168 | the 64-bit count follows the index when fewer than 2^32 packets pass between samples |
| FramePools.FramePool.constructor | pool.go:30-36 | the pool holds its region's frames in address order |
| FramePools.FramePool.Pop | pool.go:44-55 | the last addresses pushed leave the pool, in pool order, as many as asked for or all |
| FramePools.FramePool.Push | pool.go:58-60 | the address goes on top |
| FramePools.PushThenPop | pool.go:41-60 | what is pushed last is popped first, leaving the pool as it was |
| SocketProtocol.BaseOfFrame | socket.go:446-458 | every byte of a frame has that frame's base |
| FrameConservation.StepKeepsInv | socket.go:446-597 | every action of either goroutine or the kernel keeps the frame partition, the regions, the counters and the ring capacities |
| FrameConservation.RunKeepsInv | socket.go:446-597 | so does every interleaving |
| FrameConservation.InitInv | socket.go:367-383 | the pool split starts with every frame in its own region |
| FrameConservation.RoutingSplits | socket.go:806-824 | routing completions by address gives each pool exactly its own frames |
| FrameConservation.OneOwner | pool.go:9-22 | in every reachable state each frame is in exactly one of the ten places, once |
| FrameConservation.HomeRegion | socket.go:367-383 | receive places hold receive frames, the tx pool and allocated frames are transmit frames, and so is the rest unless frames are reused |
| FrameConservation.PoolDistinct | pool.go:9-22 | the transmit pool holds whole aligned frames, none twice |
| FrameConservation.SidesCommute | socket.go:66-80 | without frame reuse a receive-side and a transmit-side step commute, which is why no lock is needed |
| Sockets.WithDefaults | options.go:111-139 | each field is what was asked for, or its default where that was zero: 8192 frames of 2048 bytes, half of them for transmit, 4096-slot rings |
| Sockets.Accepted | socket.go:193-227 | the checks of NewSocket accept exactly the documented options, zero sizes included |
| Sockets.NewSocket | socket.go:193-418 | the first failing check, the kernel's refusal, or a socket each of whose rings, frame counts and flags is the option of that name or its default, the fill ring filled before bind |
| Sockets.Socket.Fill | socket.go:466-488 | amid kernel steps, one Fill action; the count is exactly the least of request, pool and room |
| Sockets.Socket.Receive | socket.go:568-588 | amid kernel steps, one Receive action of exactly the oldest descriptors |
| Sockets.Socket.Recycle | socket.go:593-597 | one Recycle action: each frame's base goes back to the receive pool |
| Sockets.Socket.Alloc | socket.go:647-661 | amid kernel steps, one Alloc action; never more frames than free ring slots |
| Sockets.Socket.Wake | socket.go:694-702 | without need-wakeup always a kick; with it the tx ring's flag is read once, and kicked exactly when it says parked |
| Sockets.Socket.Transmit | socket.go:667-692 | amid kernel steps, one Transmit action of the longest prefix that fits; it kicks exactly when something was queued and the socket is without need-wakeup or the flag it read says the driver has parked |
| Sockets.Socket.Complete | socket.go:796-828 | amid kernel steps, one Complete action, each frame pushed to the pool its region names |
| Sockets.Socket.SendFunc | socket.go:907-951 | all visible completions are reclaimed first; full ring: a kick, unless the need-wakeup flag it read says awake; bad length: everything handed back, nothing queued; otherwise exactly the allocated frames are queued with the lengths built and kicked by the same rule, each frame holding what the builder wrote and no other frame changed |
| Sockets.BuildFrames | socket.go:934-947 | the build loop fills the frames in place, each from what it held, and stops at the first length outside the frame |
| Batches.SendBatch | socket.go:866-893 | a payload longer than a frame refuses the batch and changes nothing; otherwise a prefix of the payloads is queued, byte for byte, one frame each |
| UmemFrames.CopyIn | multibuffer.go:206-222 | a copy into a frame overlays its start and leaves every other frame alone |
| SendProgress.TxFrameCount | socket.go:907-951 | without reuse the transmit places always add up to TxFrames |
| SendProgress.StarvationExactly | socket.go:907-951 | a settled socket with ring room can always allocate iff TxFrames >= TxRingNumDescs |
| SendProgress.NoStall | socket.go:907-951 | then every call with something valid to send queues at least one packet or finds the ring full, and kicks, or on a need-wakeup socket read that the driver is awake |
| SendProgress.CanStall | socket.go:907-951 | with fewer frames than slots a reachable state makes SendFunc queue nothing and kick nothing |
| Kicks.Kick | socket.go:713-752 | at most TxRingNumDescs/16+8 uninterrupted calls, again only after EINTR or EAGAIN, giving up on EAGAIN only when they are spent, and failing only as the kernel did; a cooperative kernel's ring is empty afterwards |
| Segments.FramesExact | multibuffer.go:156-162 | the frame count is exact, one for an empty payload |
| Segments.ChainBytes | multibuffer.go:206-222 | a chain carries its payload byte for byte |
| Segments.GroupKeeps | multibuffer.go:93-105 | grouping loses and reorders nothing, returns only whole packets and holds back only unfinished ones |
| Segments.GroupAppend | multibuffer.go:81-107 | the result does not depend on where the stream was cut into batches |
| Segments.RoundTrip | multibuffer.go:70-235 | chains delivered in order regroup to exactly the payloads sent |
| MultiBuffer.PacketReader.ReceivePackets | multibuffer.go:70-108 | packets returned plus fragments held back are always the grouping of the whole stream received |
| MultiBuffer.PacketReader.RecyclePackets | multibuffer.go:113-119 | one Recycle action over every fragment |
| MultiBuffer.Regroup | multibuffer.go:93-105 | the slicing loop computes the grouping |
| MultiBuffer.CopyOut | multibuffer.go:124-133 | writes min(length, buffer) leading bytes of the packet and nothing past them |
| MultiBuffer.Fit | multibuffer.go:176-186 | the longest prefix of payloads that fits the budget |
| MultiBuffer.FitsUnique | multibuffer.go:176-186 | there is only one such prefix |
| MultiBuffer.SplitAll | multibuffer.go:206-222 | every payload is laid out in its own frames, later ones never overwriting earlier ones |
| MultiBuffer.CountEnds | multibuffer.go:228-233 | counts the descriptors that end a packet |
| MultiBuffer.EndsOfWhole | multibuffer.go:225-233 | which is the number of whole packets |
| MultiBuffer.ReserveFrames | multibuffer.go:188-204 | frames for as many whole payloads as ring and pool allow; the rest of a short allocation goes back |
| MultiBuffer.OversizedExactly | multibuffer.go:164-172 | a payload is refused exactly when it is longer than 18 frames |
| MultiBuffer.SendBatchSG | multibuffer.go:138-235 | full ring: a kick, unless the need-wakeup flag it read says awake; an over-long payload: nothing happens; otherwise exactly the longest fitting prefix goes out, one chain per payload, is counted, and kicked by the same rule |
| MultiBuffer.ReadBack | multibuffer.go:70-235 | at any point of a reader's history, a batch that went out and arrived adds exactly its payloads to what was returned, however it was read |
| Shutdown.LetIn | socket.go:175-185 | on an open socket a call is let in: all three steps of incref can be taken, and leave the goroutine inside one more body and the count one higher |
| Shutdown.LetInAmong | socket.go:175-185 | so is every call on a socket nobody has closed by its end, however other goroutines interleave |
| Shutdown.ShutOut | socket.go:175-185 | a Close that begins before the second check, wherever, shuts the call out and the count comes back |
| Shutdown.CloseInterruptsPoll | socket.go:529-562 | from a fresh socket a run puts a goroutine to sleep inside a body; Close alone wakes it, then tears down and returns |
| Shutdown.RunKeeps | socket.go:170-187 | in every interleaving the count is the number of registrations, and one Close wins |
| Shutdown.Exclusion | socket.go:1068-1119 | once any Close tears down no goroutine is inside a guarded body, and only one Close does |
| Shutdown.SomeoneMoves | socket.go:529-562 | while Close waits some goroutine can move without traffic or timeout, a sleeping Poll included |
| Shutdown.Drains | socket.go:1078-1086 | from any state in which Close waits the goroutines can run until the count is zero, without traffic or a new call |
| Shutdown.WaitIsBounded | socket.go:1078-1086 | after Close begins only a bounded number of steps remains, in every interleaving |
| Fleets.World.Open | fleet.go:103-218 | failing leaves nothing behind, and happens only after a refusal: either a program could not be built, or every bind variant the mode allows was tried or its attach mode refused; succeeding adds exactly one fleet with one socket per queue, registered for it, attached, tuned where wanted and possible, in an allowed bind variant, every preferred one having been tried or its attach refused; fleets on other interfaces keep their attachment and those on this one lose it |
| Fleets.World.TryGroup | fleet.go:171-216 | one attach mode with its bind variants either yields the fleet or is undone; then it stops Open only if the program could not be built, and otherwise its attach was refused or every variant tried |
| Fleets.World.StartGroup | fleet.go:172-180 | stops exactly when the program could not be built; a refused attach closes the program and goes on |
| Fleets.World.TryBinding | fleet.go:181-212 | one bind variant fails exactly when some queue's socket is refused; tuning is best-effort, in native mode |
| Fleets.World.RegisterSockets | fleet.go:310-326 | one socket per queue, bound as asked and registered for that queue, or none at all exactly when the host refuses one |
| Fleets.World.CloseAll | fleet.go:328-332 | closes each socket of the list |
| Fleets.World.RemoveProgram | program.go:233-264 | takes what is attached over netlink off the interface, and fails while a link holds it |
| Fleets.World.Attach | program.go:130-158 | left-overs are removed first; then a link, or netlink only where the kernel has no links |
| Fleets.World.Detach | program.go:162-169 | closes the link, or removes the netlink attachment |
| Fleets.World.CloseSockets | fleet.go:400-409 | every queue is unregistered and every socket closed, and an error is reported exactly when one of these was refused |
| Fleets.World.Close | fleet.go:395-425 | every step is attempted, an error is reported exactly when one was refused, the ledger balances, closing twice changes nothing, and another fleet keeps its attachment unless it shares the interface over netlink |
| Fleets.World.ApplyTuning | tune.go:78-113 | the first fleet saves the values in force and applies the wanted ones, later ones always share them unchanged, and no tuning results only where the host refuses; a half-applied pair is rolled back |
| Fleets.World.Restore | tune.go:117-134 | the last reference puts both saved values back |
| Fleets.CountAdded | tune.go:53-65 | adding a fleet keeps the reference counts equal to the tuned fleets |
| Fleets.CountRemoved | tune.go:53-65 | so does removing one, in any order |
| Fleets.AddFleet | fleet.go:207-211 | a recorded fleet owns its program and sockets alone |
| Fleets.RemoveFleet | fleet.go:395-425 | a closed fleet takes exactly its own program and sockets with it |
| Fleets.History | fleet.go:45-59 | the ledger holds after any history of Open and Close on any interfaces, with any failures |
| Fleets.World.AllClosed | fleet.go:395-425 | with no fleet open nothing is left and the host's settings are the original ones |
| Fleets.World.OriginalsBack | tune.go:115-134 | an interface has its original settings whenever no tuned fleet is open on it |
| Fleets.World.AlwaysAttached | program.go:125-158 | with XDP links every open fleet keeps its attachment and no interface has two |
| Checksums.SumThenFold | examples/dns/main.go:239-249 | summing plainly and folding once is one's-complement summing |
| Checksums.Fold | examples/dns/main.go:245-247 | the fold loop ends, with the one's-complement value |
| Checksums.IpChecksum | examples/dns/main.go:240-249 | the complement of the one's-complement sum, for every header whose sum fits 32 bits |
| Checksums.ChecksumCompletes | examples/dns/main.go:232-234 | storing it in the zeroed field makes the header sum to all ones |
| Checksums.BuildReply | examples/dns/main.go:213-237 | addresses and ports exchanged, answer in place, header checks out, bytes past the reply untouched |
| Checksums.LengthsExact | examples/dns/main.go:226-227 | the length fields are right exactly for answers up to 65507 bytes |
| Reflectors.Swap | examples/udpreflector/main.go:167-171 | the loop exchanges the two ranges and nothing else |
| Reflectors.Reflect | examples/udpreflector/main.go:160-164 | the three in-place swaps compute the reflected frame |
| Reflectors.Involution | examples/udpreflector/main.go:155-164 | reflecting twice is the identity |
| Reflectors.ChecksumsSurvive | examples/udpreflector/main.go:155-164 | the sums both checksums cover are unchanged, for every payload length |

## Left out

- System calls, mmap, setsockopt, netlink, sysfs parsing and loading programs into the kernel: they are nondeterministic steps here. The kernel's verifier is replaced by its own requirement, that no load is out of bounds.
- Load and store offsets are unbounded integers in the machine; the instruction has 16 bits for them.
- Big-endian hosts: `cidrTest` hard-codes a little-endian load order and the model follows it.
- Instructions outside the set the library emits, helper calls other than the two in the redirect tail, and atomic fetch stores, whose register effect `writesDst` does not see.
- Independence.CustomDecides: sufficient, not necessary; blocks that store to the stack or call helpers may decide too, and Independence.DecidesExactly says when. That loads stay inside the packet is asked for, because the kernel refuses other programs.
- Splicing.FilterOfSources: a custom builder is a function of the three names it is given, as the library demands of it.
- Parsing of prefixes and options, filter descriptions, statistics formatting, and the `bpfmatch` and `pcapfilter` translations, whose compilers are not part of this model.
- Sockets.NewSocket: the one negative ring size that passes the power-of-two test, -2^63, is rejected here; negative frame sizes are not modelled. That mmap, ring setup or bind fails is one nondeterministic refusal.
- Sockets.Socket.SendFunc: the statistics counters are not modelled. The builder's length is a function of the packet number, its bytes of the number and of what the frame held; its effects outside the frame are not modelled.
- Sockets.Socket.Transmit: what the need-wakeup flag says each time it is read is the kernel's choice; that the driver drains while it says awake is not modelled. The kick is an interval of kernel steps; its retry loop is `Kicks.Kick`.
- Kicks.Kick: interrupted calls are assumed to stop eventually; an unbounded stream of signals would keep the loop going.
- Socket methods after Close has begun: they return at once, and SendFunc may lose the frames it had allocated. Shutdown is modelled by itself, over goroutine steps rather than over method bodies.
- `GetFrame`, `UMEM`, `NeedsWakeupRx` and `NeedsWakeupTx` after Close: they do not take part in the reference count.
- The two goroutines interleave at the granularity of protocol actions; the kernel interleaves between any two memory accesses. The methods of one side write nothing the other side reads, as their modifies clauses show, except in frame-reuse mode, which the library documents as single-goroutine.
- Weak memory: atomics are sequentially consistent and publishing an index is one step.
- Checksums.IpChecksum: says nothing about inputs whose plain sum overflows 32 bits, which no IPv4 header reaches.
- Fleets.World.Open: which queues are enabled in the program's map is not tracked; the failure path closes sockets without unregistering them, so an enabled queue need not have a socket.
- Fleets.World.OriginalsBack: holds when the writes that put values back succeed; other processes changing the same settings are not modelled.
- WaitLinkUp, CountQueues, interface address discovery, busy polling, and the example programs' main loops.
