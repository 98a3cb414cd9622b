# Gordion VPN: a Dafny model of its state machines

A Gordion agent is given an address by the config service, finds its peers through the discovery
service, and carries WireGuard datagrams to them over libp2p streams. The files below describe the
state that each of these parts keeps and how it changes, and prove what holds over every run: with
any command failing, and with operations interleaved wherever the code lets them.
`dafny verify dfyconfig.toml` checks everything.

| file | models |
|---|---|
| `RelayTable.dfy`, `Bridge.dfy`, `BridgeRuns.dfy`, `BridgeClose.dfy` | the relay table of the WireGuard/libp2p bridge: its locked sections, the object that runs them, runs in which they interleave, and what closing the bridge leaves |
| `StreamAgreement.dfy`, `StreamSchedules.dfy` | two such bridges and the streams between them: when both ends hold the same live stream, and under which schedules |
| `Framing.dfy` | the length-prefixed framing and the two pump loops |
| `Bytes.dfy`, `Address.dfy`, `FirstFit.dfy`, `Allocator.dfy` | the IP allocator: bytes and masks against arithmetic, the search, the store |
| `CircuitBreaker.dfy`, `BreakerSlots.dfy`, `BreakerRuns.dfy` | the circuit breaker with concurrent callers, its half-open episodes, and the runs that show its limits |
| `Registry.dfy`, `RegistryCommands.dfy` | the discovery registry over expiring keys and the online set: by operations, and by the Redis commands they consist of |
| `Agent.dfy`, `Discovery.dfy` | peer reconciliation and the seeding of its table; the way from the registry's listing, cut to a limit, to that table |
| `RateLimit.dfy` | the per-client request limiter |
| `Text.dfy`, `Endpoint.dfy` | splitting and decimal text, and the endpoint text of a peer |
| `ConfigVersion.dfy` | the versioned network config |

How the parts are built. Each object of the source is a class whose methods are proved against
functions of the state (`AfterAllow`, `Allocate`, `Step`, ...); runs are sequences of such steps, and
the theorems are about every run. Time is an integer parameter of each operation. Redis is a map and a
set, the WireGuard device a map, a socket a port number and a stream a number. Whether an outside
command succeeds is a parameter. Where an operation gives its mutex up, or Redis commands of two
operations can interleave, the operation is split into steps at that point.

Where the code and its texts differ, the model follows the code:

- README.md:121 of the repository promises a sliding window. The limiter keeps that promise exactly
  when its quota is one request (`RateLimit.SlidingWindowOnlyForOne`).
- The same line calls the limit per IP. The window key is the text of the peer address, which for TCP
  includes the port (pkg/ratelimit/ratelimit.go:87-90). The limit holds per IP exactly for clients on
  one port; over n ports an IP gets up to n times as much through
  (`RateLimit.PerAddressOnlyOnOnePort`).
- The comment at services/discovery/internal/registry/registry.go:160-161 has the cleanup keep the set
  coherent. Uninterrupted it does (`Registry.CoherenceKeptExactly`). With the commands of other
  operations in between, the set covers every live peer exactly as long as no SRem, of a cleanup, a
  listing or an unregistration, hits a live peer whose SAdd is through, and no SAdd fails for a live
  peer outside the set (`RegistryCommands.CoveredExactly`). A live peer is hit where it has come back
  since it was found missing, or where a listing could not read it (`RegistryCommands.HarmNeedsPut`).
- The comment at services/agent/internal/p2p/bridge.go:79 has the larger ID open the stream so that
  there is no race. The two ends agree on a live stream exactly when both have attached the same
  stream last (`StreamAgreement.AgreementExactly`); overlapping calls, handlers out of order, and a
  stream that arrives between the check and the allocation of the waiting side can each prevent it
  (`StreamSchedules.TwoStreams`, `GapLosesStream`).
- `Close` (services/agent/internal/p2p/bridge.go:253-270) neither ends operations in flight nor takes the
  stream handler back. A handler that it overtakes binds a socket afterwards
  (`BridgeClose.HandlerOutlivesClose`), and so does that of the next stream, whatever came before
  (`BridgeClose.OpensAgain`). Until a stream comes in or AddPeer is called, everything stays closed once
  the relays are, exactly when no operation was in flight and no relay was ever overwritten
  (`BridgeClose.ClosedUntilBegun`).
- pkg/circuitbreaker/circuitbreaker.go:155-166 gives the lock up for the callback, which all breakers
  of the agent have (services/agent/internal/client/client.go:34-43, 88-90). An open breaker lets nobody
  through before its timeout exactly when no callback is set (`BreakerRuns.OpenSafeExactly`).
- pkg/circuitbreaker/circuitbreaker.go:179 lets canceled and timed-out calls go unrecorded. With or
  without a callback, each of them uses up a slot of its half-open episode, and the breaker refuses every
  call for good exactly when none is in flight, nobody is held up by a callback, and successes and drops
  fill the slots, but for those that a caller who resumed in the episode has made the counter forget
  (`BreakerSlots.StuckByDrops`, `BreakerRuns.DroppedProbesStick`).
- `syncPeers` asks for 50 peers (services/agent/internal/agent/agent.go:359) and removes whoever is not
  listed, while the listing is cut in whatever order it comes. With more than 50 live nodes, the agent's
  own included, there are orders in which live peers are removed (`Discovery.InEveryOrderExactly`).
- The version of services/config/internal/grpc/handler.go:75-82 has 32 bits. From the 2^31-th config on
  a client can be told that a stale config is up to date (`ConfigVersion.NeverStaleExactly`).

Assumptions about the outside. A node has one public key, no two nodes share one
(services/identity/internal/storage/postgres.go:43-51, services/identity/migrations/0001_initial.sql:7).
A failed `wg set` command changes nothing. After a failed write no further byte of a stream reaches its
reader. Redis keeps a key alive strictly before its expiry. Clocks do not go back where a lemma says
`Monotone`.

## Model

| member | source | states |
|---|---|---|
| StreamAgreement.AgreementExactly | services/agent/internal/p2p/bridge.go:51-191 | For every interleaving of two nodes, with failing binds and removals, they agree on a live stream exactly when both have attached the same stream last; if they do not and no stream is on its way or to be closed, the smaller ID holds none or a dead one |
| StreamAgreement.AliveExactlyIfCommon | services/agent/internal/p2p/bridge.go:51-191 | If no waiting call has replaced a relay with a stream, then at rest a stream that one end holds is alive exactly when the other holds it, too |
| StreamAgreement.AgreeOrBothDead | services/agent/internal/p2p/bridge.go:51-173 | Once a stream was opened, and at rest, the larger ID holds one if no bind failed and nothing was removed there; if neither happened at the smaller ID and no waiting call replaced a relay with a stream, both hold one, and either these are the same and alive or both are dead |
| StreamAgreement.CommonIsAlive | services/agent/internal/p2p/bridge.go:56-64 | In every run a stream that both ends hold was reset by neither |
| StreamAgreement.PlacedKept | services/agent/internal/p2p/bridge.go:113-191 | What every step of the pair keeps: at each end a stream is pending, held, or reset, never two of these, and none is lost unless a waiting call replaces a relay that has one |
| StreamSchedules.Agreement | services/agent/internal/p2p/bridge.go:51-111 | If no bind fails, nothing is removed, at each end calls do not overlap, streams are handled in order, and no relay appears between check and allocation, then at rest both ends agree on the latest stream |
| StreamSchedules.InvKept | services/agent/internal/p2p/bridge.go:51-173 | What an orderly step keeps: how far each end is behind, and what it holds |
| StreamAgreement.NamingIrrelevant | services/agent/internal/p2p/bridge.go:80 | The two nodes differ by their IDs alone |
| StreamSchedules.TwoStreams | services/agent/internal/p2p/bridge.go:56-103 | Two streams of overlapping calls, or handled out of order, leave both ends on dead streams; with both, the ends agree on the older one |
| StreamSchedules.GapLosesStream | services/agent/internal/p2p/bridge.go:82-90 | A stream handled between check and allocation of the waiting side is lost to it |
| StreamAgreement.AddUninterrupted | services/agent/internal/p2p/bridge.go:78-111 | With nothing in between, the sections of AddPeer at one end of the pair make up the operation |
| RelayTable.LessIsBefore | services/agent/internal/p2p/bridge.go:80 | The smaller ID is the one that is a proper prefix of the other, or that has the smaller character where they first differ |
| RelayTable.LessTotal | services/agent/internal/p2p/bridge.go:80 | Of two different IDs exactly one is the larger |
| RelayTable.PortAnswered | services/agent/internal/p2p/bridge.go:113-173 | The port answered is the one the peer then has, with its stream; none exactly when a needed socket could not be bound; an existing relay keeps its port, and each new one takes the next in line, which a failed bind spends, too; other peers keep theirs |
| Bridge.Bridge.AllocateRelay | services/agent/internal/p2p/bridge.go:138-173 | An existing relay swaps and resets its stream in place, otherwise a new one takes the next port; a failed bind spends the port |
| Bridge.Bridge.AllocateRelayNoStream | services/agent/internal/p2p/bridge.go:113-136 | A new relay without stream, whether or not the peer has one |
| Bridge.Bridge.HandleIncoming | services/agent/internal/p2p/bridge.go:51-76 | An uninterrupted handler attaches the stream or, if the bind fails, resets it |
| Bridge.Bridge.AddPeer | services/agent/internal/p2p/bridge.go:78-111 | The ID that comes first in the lexicographic order keeps its relay or makes one that waits; the other attaches the stream it opened or closes it |
| Bridge.Bridge.GetProxyPort | services/agent/internal/p2p/bridge.go:193-201 | The port of the peer's relay, if there is one |
| Bridge.Bridge.RemovePeer | services/agent/internal/p2p/bridge.go:175-191 | The relay leaves the table, its socket and stream are closed, all else stays |
| Bridge.Bridge.Close | services/agent/internal/p2p/bridge.go:253-270 | The table is empty, and exactly the sockets and streams of its relays are closed |
| BridgeRuns.AccountsKeptExactly | services/agent/internal/p2p/bridge.go:78-191 | One step leaves every open socket and stream with exactly one owner if and only if it is not a waiting AddPeer overwriting a relay that has appeared since its check |
| BridgeRuns.AccountsForever | services/agent/internal/p2p/bridge.go:51-191 | Each bound socket belongs to exactly one relay, and each stream is attached to exactly one relay, on its way to one, or no longer open, in exactly the runs without such an overwrite |
| BridgeRuns.PortsDistinct | services/agent/internal/p2p/bridge.go:117-118 | All ports ever handed out are different, in every run |
| BridgeRuns.PortStable | services/agent/internal/p2p/bridge.go:113-191 | In every run without RemovePeer of that peer and without Close a peer's port never falls, and it stays the same exactly when no waiting AddPeer overwrites the relay of that peer |
| BridgeClose.CloseExactly | services/agent/internal/p2p/bridge.go:253-270 | Once Close has closed the relays it took, in any order, nothing is open exactly when no relay was ever overwritten and no operation in flight held a socket or a stream |
| BridgeClose.NothingOpenExactly | services/agent/internal/p2p/bridge.go:51-270 | In every run nothing is open exactly when no relay was ever overwritten, the table is empty, and no operation in flight holds a socket or a stream |
| BridgeClose.ClosedUntilBegun | services/agent/internal/p2p/bridge.go:253-270 | As long as no stream comes in and AddPeer is not called, and however operations in flight interleave with it, nothing is open after Close exactly when no relay was ever overwritten and all operations had finished |
| BridgeClose.OpensAgain | services/agent/internal/p2p/bridge.go:51-76 | After Close, whatever came before it, the next stream gets a relay with a socket of its own |
| BridgeClose.StreamAfterClose | services/agent/internal/p2p/bridge.go:51-76 | The shortest such run, in which nothing was in flight and no relay was overwritten |
| BridgeClose.HandlerOutlivesClose | services/agent/internal/p2p/bridge.go:65-70 | The run in which a stream handler puts a relay with its socket and stream into the table after Close |
| BridgeRuns.OverwriteLeaks | services/agent/internal/p2p/bridge.go:113-136 | After an overwrite the old socket stays bound in every continuation |
| BridgeRuns.GapReached | services/agent/internal/p2p/bridge.go:82-90 | A run that reaches the overwrite |
| BridgeRuns.AddUninterrupted | services/agent/internal/p2p/bridge.go:78-111 | With nothing in between, the sections of AddPeer make up the operation: the smaller ID waits and keeps a relay that it has, the larger one attaches the stream it opened even if it has one |
| BridgeRuns.IncomingExactly | services/agent/internal/p2p/bridge.go:51-76 | A stream replaces the one that the relay of its peer holds at once; if there is no relay, or it holds none yet, it waits for the second section of the handler |
| Framing.PrefixDecodes | services/agent/internal/p2p/bridge.go:272-293 | Any prefix of the encoding decodes to exactly the datagrams complete in it, then io.EOF at a clean cut and io.ErrUnexpectedEOF elsewhere |
| Framing.RoundTrip | services/agent/internal/p2p/bridge.go:272-293 | Any list of datagrams comes back whole |
| Framing.EncodeInjective | services/agent/internal/p2p/bridge.go:272-280 | Different lists never share an encoding |
| Framing.FitsExactly | services/agent/internal/p2p/bridge.go:274 | A datagram survives the 16-bit length exactly when it has at most 65535 bytes |
| Framing.EncodeShape | services/agent/internal/p2p/bridge.go:272-280 | The first two bytes, read as a number with the high byte first, are the length of the datagram, and the rest is the datagram |
| Framing.Reader.ReadFull | services/agent/internal/p2p/bridge.go:284-289 | The result depends on the bytes alone, not on the chunks |
| Framing.Reader.ReadPacket | services/agent/internal/p2p/bridge.go:282-293 | One datagram is taken off the stream, or the error of the read that fell short |
| Framing.Writer.WritePacket | services/agent/internal/p2p/bridge.go:272-280 | The whole encoding is sent, or a prefix of it and the stream breaks |
| Framing.StreamToUdp | services/agent/internal/p2p/bridge.go:235-251 | The reading loop hands on exactly the decoded datagrams, up to the first error |
| Framing.UdpToStream | services/agent/internal/p2p/bridge.go:203-233 | What the writing loop gets through under any write failures |
| Framing.ThroughIsPrefix | services/agent/internal/p2p/bridge.go:229-231 | That is a prefix of the encoding of all datagrams, and all of it exactly when no write fails |
| Framing.EndToEnd | services/agent/internal/p2p/bridge.go:203-251 | Whatever writes fail, the other side receives exactly the datagrams before the first failed write, in order, and all of them and then io.EOF if none fails |
| FirstFit.IncrementIP | services/config/internal/allocator/allocator.go:142-149 | The in-place loop is one carry step |
| FirstFit.IncrementByAdds | services/config/internal/allocator/allocator.go:142-149 | n increments add n modulo 256 to the length |
| Address.ContainsIsInterval | services/config/internal/allocator/allocator.go:131 | Membership by masked bytes is membership in one interval of 2^(32 - prefix) numbers |
| Address.DottedParts | services/config/internal/allocator/allocator.go:83-132 | The text of an address is its four bytes in decimal, in their order, between dots |
| Address.DottedInjective | services/config/internal/allocator/allocator.go:83-132 | Different addresses have different texts |
| FirstFit.FindAvailableIP | services/config/internal/allocator/allocator.go:117-140 | The loop ends unless prefix 0 has every address in use, and gives the least usable address whose text is unused, or nothing exactly when all are used; for prefix 0 it then goes on to 0.0.0.0 and 0.0.0.1 |
| FirstFit.FirstFitUnique | services/config/internal/allocator/allocator.go:117-140 | That determines its answer |
| FirstFit.NextMember | services/config/internal/allocator/allocator.go:131 | Incrementing leaves the network exactly past its end, even where the carry runs over the top |
| FirstFit.NeverGateway | services/config/internal/allocator/allocator.go:40-43 | The gateway is never handed out |
| FirstFit.UsableUpTo24 | services/config/internal/allocator/allocator.go:131 | Up to prefix 24 the usable addresses are base + 2 to the end, 2^(32 - prefix) - 2 of them |
| FirstFit.BlockParts | services/config/internal/allocator/allocator.go:40-43 | Up to prefix 24 the block is the disjoint union of its base, the gateway next to it, and the usable addresses |
| FirstFit.NothingUsable | services/config/internal/allocator/allocator.go:131 | From prefix 25 on, exactly when the search cannot start inside the block |
| Allocator.Allocator.constructor | services/config/internal/allocator/allocator.go:25-50 | The gateway is the base with last byte 1 |
| Allocator.Allocator.AllocateIP | services/config/internal/allocator/allocator.go:69-97 | The store and the answer under any faults, a failed Get counting as no address |
| Allocator.Allocator.ReleaseIP | services/config/internal/allocator/allocator.go:99-115 | The store under any faults, Del only after a good SRem |
| Allocator.AllocateExactly | services/config/internal/allocator/allocator.go:69-97 | A node that is not told an address it holds is promised the least usable one that is not marked; which of the set, the key and the answer come about under which faults |
| Allocator.FullRefuses | services/config/internal/allocator/allocator.go:117-140 | With every usable address marked such a node is refused, and nothing changes |
| Allocator.ReleaseExactly | services/config/internal/allocator/allocator.go:99-115 | A release unmarks exactly the address it names and deletes exactly the key of its node, each unless its command has no effect, and the key only after a good SRem |
| Allocator.UniqueKept | services/config/internal/allocator/allocator.go:69-115 | Allocation keeps addresses unique whatever fails; a release does exactly when it is matched |
| Allocator.UniqueForever | services/config/internal/allocator/allocator.go:69-115 | No two nodes share an address in any run with matched releases, whatever else fails |
| Allocator.ExactForever | services/config/internal/allocator/allocator.go:69-115 | Without faults the set holds exactly the held addresses, as many as there are nodes |
| Allocator.ExhaustedExactlyWhenFull | services/config/internal/allocator/allocator.go:117-140 | A new node is refused exactly when as many nodes hold an address as there are usable ones |
| Allocator.AllocateTwice | services/config/internal/allocator/allocator.go:73-76 | Asking again gives the same address |
| Allocator.ReleaseUndoesAllocate | services/config/internal/allocator/allocator.go:99-115 | Release after allocation restores the store |
| Allocator.UnmatchedReleaseShares | services/config/internal/allocator/allocator.go:99-115 | Every unmatched release that takes effect ends in two nodes with one address once enough new nodes ask |
| CircuitBreaker.WithDefaults | pkg/circuitbreaker/circuitbreaker.go:64-79 | Every field ends up positive, each positive field is kept, and the defaults are 5 failures, 30 s and one half-open call |
| CircuitBreaker.CircuitBreaker.Allow | pkg/circuitbreaker/circuitbreaker.go:89-114 | A caller is refused exactly unless the breaker is closed, is open and openTimeout has passed since the last failure, or is half-open with a free slot; and the new state, up to the callback if there is one |
| CircuitBreaker.CircuitBreaker.Resume | pkg/circuitbreaker/circuitbreaker.go:99-101 | What Allow still does after the callback |
| CircuitBreaker.CircuitBreaker.RecordSuccess | pkg/circuitbreaker/circuitbreaker.go:116-130 | The success step |
| CircuitBreaker.CircuitBreaker.RecordFailure | pkg/circuitbreaker/circuitbreaker.go:132-153 | The failure step |
| CircuitBreaker.CircuitBreaker.Execute | pkg/circuitbreaker/circuitbreaker.go:168-191 | One undisturbed call, with or without callback: it runs exactly if it may pass by that rule, and is then recorded unless dropped |
| CircuitBreaker.RefinesHistory | pkg/circuitbreaker/circuitbreaker.go:89-153 | For every interleaving, the next state follows from the results recorded since the last change of state alone |
| CircuitBreaker.AdmitsExactly | pkg/circuitbreaker/circuitbreaker.go:89-114 | In a run an arrival that may pass by that rule is let through, at once or when the callback is back, and no other |
| BreakerSlots.AdmissionExactly | pkg/circuitbreaker/circuitbreaker.go:89-114 | After every run a call is admitted at once exactly if the breaker is closed; is open without callback and openTimeout has passed since the last recorded failure; or is half-open and the probes in flight, succeeded and dropped leave a slot |
| CircuitBreaker.ChangesStartClean | pkg/circuitbreaker/circuitbreaker.go:116-166 | Only a recorded failure opens the breaker and only a recorded success closes it; it then has no success counted and no slot taken |
| CircuitBreaker.DroppedNeverEnds | pkg/circuitbreaker/circuitbreaker.go:178-182 | To the breaker a dropped call is one that never ends: every continuation goes as if it were still in flight |
| BreakerRuns.OpenAdmitsNothing | pkg/circuitbreaker/circuitbreaker.go:97-103 | Nobody takes the breaker out of Open, or gets through it without having been held up by a callback, before openTimeout after every failure recorded so far |
| BreakerRuns.OpenSafeExactly | pkg/circuitbreaker/circuitbreaker.go:97-103 | Over all runs an open breaker lets nobody through before that, exactly when no callback is set |
| BreakerRuns.HeldUpPassesOpen | pkg/circuitbreaker/circuitbreaker.go:155-166 | The run in which a caller held up by the callback passes a breaker that has just opened, for every configuration with callback |
| BreakerSlots.ProbeBound | pkg/circuitbreaker/circuitbreaker.go:97-110 | An episode admits at most halfOpenMax * (1 + k) calls, k being the callers that resume in it, and halfOpenMax without callback |
| BreakerRuns.ProbeBoundReached | pkg/circuitbreaker/circuitbreaker.go:155-166 | That number is reached from the start for every k |
| BreakerSlots.SlotAccounting | pkg/circuitbreaker/circuitbreaker.go:97-130 | In every half-open state of every run the calls admitted to the episode are in flight, succeeded or dropped, and halfOpenReq is their number, but for the 1 that an earlier resume has left and what the latest resume has made it forget; without callback it is their number |
| BreakerSlots.NextProbeAdmitted | pkg/circuitbreaker/circuitbreaker.go:105-110 | With no probe dropped and none in flight the next caller is refused exactly when an earlier resume has left its 1 in the counter, nobody has resumed in the episode, and one success is missing; never without callback |
| BreakerRuns.LateResumeRefuses | pkg/circuitbreaker/circuitbreaker.go:97-110 | The run that gets there, for every configuration with callback |
| BreakerSlots.StuckExactly | pkg/circuitbreaker/circuitbreaker.go:97-110 | With or without callback, from any state and at any time, every later call is refused exactly when no call is in flight, nobody is to resume, and all half-open slots are taken |
| BreakerSlots.StuckByDrops | pkg/circuitbreaker/circuitbreaker.go:97-130 | In every run that is so exactly when successes and drops of the episode fill the slots, but for those that a resume has made the counter forget; without callback there are none |
| BreakerRuns.DroppedProbesStick | pkg/circuitbreaker/circuitbreaker.go:178-182 | A run that gets there, for every configuration with or without callback |
| Registry.Registry.RegisterPeer | services/discovery/internal/registry/registry.go:58-76 | Set, then SAdd only if Set was good |
| Registry.Registry.Renew | services/discovery/internal/registry/registry.go:78-94 | The heartbeat renews a live key, and fails on any other and when a command fails |
| Registry.Registry.UnregisterPeer | services/discovery/internal/registry/registry.go:96-108 | Del, then SRem only if Del was good |
| Registry.Registry.GetPeer | services/discovery/internal/registry/registry.go:110-127 | The stored peer exactly when it is live and readable |
| Registry.Registry.ListOnlinePeers | services/discovery/internal/registry/registry.go:129-158 | Lists each readable live member once and removes all other members whose SRem works; nothing happens if SMembers fails |
| Registry.Registry.Cleanup | services/discovery/internal/registry/registry.go:162-189 | Removes the members without a live key whose SRem works, and counts them all, so that the set shrinks by the number answered if no SRem fails; nothing happens if a lookup fails |
| Registry.CleanupExactly | services/discovery/internal/registry/registry.go:162-189 | The set loses exactly its stale members whose SRem works, as many as it shrinks by; if it covered the live peers and no SRem fails, it is then exactly the live peers |
| Registry.ListExactly | services/discovery/internal/registry/registry.go:129-158 | A listing leaves in the set exactly the members that it could read and those whose SRem fails |
| Registry.OwnEffect | services/discovery/internal/registry/registry.go:58-108 | Registration lists the node and keeps it alive exactly up to now + ttl, a heartbeat does so only for a live key, unregistration deletes both, and all other nodes stay as they were |
| Registry.CoherentListing | services/discovery/internal/registry/registry.go:129-143 | A listing is exactly the live peers if and only if every live peer is in the set |
| Registry.CoherenceKeptExactly | services/discovery/internal/registry/registry.go:58-189 | Each operation keeps the set coherent exactly when it does not register without reaching the set and does not fail to read a live member |
| Registry.CleanupTransparent | services/discovery/internal/registry/registry.go:129-189 | In runs where no SAdd fails after its Set and no Get of a listing fails, a listing is exactly the live peers, and cleanups and other listings, inserted or left out, change none |
| Registry.Lease | services/discovery/internal/registry/registry.go:58-108 | In such runs a node is live and listed, as it last registered, exactly until its last renewal + ttl, whatever it lets lapse, misses, and takes up again |
| Registry.DeadUntilRegistered | services/discovery/internal/registry/registry.go:78-87 | After that it stays dead until it registers again |
| RegistryCommands.SweepIsList | services/discovery/internal/registry/registry.go:129-143 | The commands of a listing that nothing interrupts do what the operation does, in any order of the members and whatever SAdds and lookups of others are in flight |
| RegistryCommands.SweepIsCleanup | services/discovery/internal/registry/registry.go:162-189 | The commands of a cleanup that nothing interrupts do what the operation does, in any order of the members and whatever commands of others are in flight |
| RegistryCommands.CommandsAreOperations | services/discovery/internal/registry/registry.go:58-108 | So do the commands of a registration, a heartbeat and an unregistration |
| RegistryCommands.CoverageKeptExactly | services/discovery/internal/registry/registry.go:58-189 | One command leaves every live peer in the set, or about to be added, exactly when it does not remove a live peer with no SAdd to come and is not the last SAdd for a live peer outside the set, failing |
| RegistryCommands.CoveredExactly | services/discovery/internal/registry/registry.go:58-189 | For every interleaving of commands that holds throughout exactly when no command of the run is one of those |
| RegistryCommands.SettledListing | services/discovery/internal/registry/registry.go:129-143 | If no command of a run is one of those, a listing shows at any instant every live peer but those about to be added, and exactly the live peers while no registration is in flight |
| RegistryCommands.HarmNeedsPut | services/discovery/internal/registry/registry.go:96-189 | An SRem takes a live peer out of the set only if a Set for it came after the lookup or the Del that led to the SRem, or the lookup could not read the peer |
| RegistryCommands.NeverRelisted | services/discovery/internal/registry/registry.go:78-143 | An unlisted node with no SAdd to come is relisted by nothing but a registration |
| RegistryCommands.RacingRegisterIsLost | services/discovery/internal/registry/registry.go:129-189 | The run, from the start, after which a live node with any number of heartbeats stays unlisted |
| Agent.Agent.ChooseExitNode | services/agent/internal/agent/agent.go:365-387 | The configured exit node if it is offered, the first one offered if none is configured, else none |
| Agent.ExitChoiceUnique | services/agent/internal/agent/agent.go:365-387 | There is only one such choice |
| Agent.ExitChoiceStands | services/agent/internal/agent/agent.go:365-387 | A choice is an exit node that the listing offers, the configured one if one is configured, and stands whatever is listed after it |
| Agent.Agent.FetchKeys | services/agent/internal/agent/agent.go:389-401 | The other listed nodes whose key lookup went well, with their keys |
| Agent.Agent.AddPeer | services/agent/internal/agent/agent.go:406-460 | One round of the adding loop: whether a command is issued, and the peer with its route if it works |
| Agent.Agent.AddPeers | services/agent/internal/agent/agent.go:406-460 | In any order: who joins, how many commands are issued, and the device still mirrors the table |
| Agent.Agent.RemovePeers | services/agent/internal/agent/agent.go:462-473 | In any order: who leaves, how many commands are issued, and the device still mirrors the table |
| Agent.Agent.SyncPeers | services/agent/internal/agent/agent.go:358-474 | The whole call under any failures: the new table, the number of commands, device keys equal to the table's, routes kept or newly chosen |
| Agent.TableExactly | services/agent/internal/agent/agent.go:389-473 | A listed node is in the table afterwards exactly if it was and is online or could not be removed, or if it was not, is online, has addresses in its first entry and a port, and could be added |
| Agent.UnlistedLeaves | services/agent/internal/agent/agent.go:462-473 | A node that is not listed is in the table afterwards exactly if it was and could not be removed |
| Agent.RouteOfPeer | services/agent/internal/agent/agent.go:412-449 | Over the whole call a peer that joins gets its own port and its own address /32, the exit node all routes, a peer without address the network; a peer that stays keeps its route |
| Agent.Agent.SeedPeers | services/agent/internal/agent/agent.go:175-213 | The seeded table and routes, when it panics, and that the device then holds no other keys and lacks those of the table exactly if Configure failed |
| Agent.SeededWithoutDefault | services/agent/internal/agent/agent.go:199-203 | A freshly seeded device gives no peer the default route |
| Agent.MissingInRun | services/agent/internal/agent/agent.go:406-473 | Over every run of calls the device holds no key but the table's, and lacks exactly those it lacked at the start of nodes that have never left the table since |
| Agent.MirrorsForever | services/agent/internal/agent/agent.go:211-473 | It holds exactly the keys of the table again exactly when each node it lacked has been out of the table, and always if it lacked none |
| Agent.Converges | services/agent/internal/agent/agent.go:389-473 | If no command fails, no lookup fails and joining nodes get a port, the table becomes exactly the other listed nodes |
| Agent.SecondCallIsSilent | services/agent/internal/agent/agent.go:406-473 | A second call on the same listing issues no device command |
| Discovery.TableIsLiveExactly | services/discovery/internal/grpc/handler.go:107-115 | If all goes well, the table becomes the live other nodes exactly when the limit cuts off nobody but the agent's own node; all others that are cut off are removed though alive |
| Discovery.InEveryOrderExactly | services/agent/internal/agent/agent.go:359 | In whatever order the registry lists them, that is so exactly when no more nodes are alive than the agent asks for, itself included |
| Agent.DefaultRouteStep | services/agent/internal/agent/agent.go:440-449 | After a call the default route is held exactly by those who held it and stayed, and by the chosen node if it joined |
| Agent.DefaultRouteOnlyByChoice | services/agent/internal/agent/agent.go:365-458 | Over every run a peer without the default route at the start holds it exactly if it was the choice of the call that added it and has stayed, and never with UseExitNode off |
| Endpoint.RoundTrip | services/discovery/internal/grpc/handler.go:51-93 | An address without ':' comes back with its port, one with ':' as empty address and port 0 |
| Endpoint.FaithfulExactly | services/discovery/internal/grpc/handler.go:38-93 | A stored endpoint is listed as given exactly when its address has no ':' |
| Endpoint.TakeExactly | services/discovery/internal/grpc/handler.go:87-93 | A text with one colon is taken apart there, its port cut to 32 bits, or 0 if it does not read as a number; one without a colon shows nothing |
| Endpoint.BuildShape | services/discovery/internal/grpc/handler.go:51 | What is stored is the address, then a colon, then text that reads as the port |
| Endpoint.ListPeers | services/discovery/internal/grpc/handler.go:82-115 | As many entries as the lesser of the number of peers and a positive limit, all for any other limit: the first ones, each with its endpoint taken apart |
| Endpoint.ShownIsLesser | services/discovery/internal/grpc/handler.go:107-110 | The limit shows the lesser of the two numbers |
| Text.AtoiSprint | services/discovery/internal/grpc/handler.go:51-92 | Printed integers read back |
| Text.AtoiSigned | services/discovery/internal/grpc/handler.go:92 | A sign in front of digits decides the sign of what is read, and what is beyond 64 bits is refused |
| Text.SplitAt | services/discovery/internal/grpc/handler.go:87 | Splitting takes a text apart at any of its separators |
| ConfigVersion.ConfigHandler.GetConfig | services/config/internal/grpc/handler.go:40-72 | Refusal, up to date, or the config with its version |
| ConfigVersion.ConfigHandler.ReloadConfig | services/config/internal/grpc/handler.go:75-82 | Installs the config and bumps the 32-bit version |
| ConfigVersion.ServesLatest | services/config/internal/grpc/handler.go:57-82 | In every run the server serves what the last reload installed, its MTU cut to 32 bits, or the first config |
| ConfigVersion.VersionsCoherent | services/config/internal/grpc/handler.go:50-82 | Version v stands for the v-th installed config, on the server and in every cache, in exactly the runs with fewer than 2^31 - 1 reloads |
| ConfigVersion.UpToDateExactly | services/config/internal/grpc/handler.go:57-63 | Then a caching client is told it is up to date exactly when nothing was installed since |
| ConfigVersion.WrapTellsStaleClients | services/config/internal/grpc/handler.go:57-63 | From reload 2^31 - 1 on, and until the counter is back at 1, every client that holds a config under a positive version is told it is up to date |
| ConfigVersion.StaleClientReached | services/config/internal/grpc/handler.go:57-82 | For every number of configs from 2^31 on, a run after which a client is told that a stale config is up to date |
| ConfigVersion.NeverStaleExactly | services/config/internal/grpc/handler.go:57-82 | No run with n configs ends so exactly when n is less than 2^31 |
| RateLimit.Limiter.Allow | pkg/ratelimit/ratelimit.go:45-66 | The admission of one request and the window it leaves; the law over runs is `AdmitsByHistory` |
| RateLimit.Limiter.Cleanup | pkg/ratelimit/ratelimit.go:68-78 | In any order, exactly the windows that are over go |
| RateLimit.AdmitsByHistory | pkg/ratelimit/ratelimit.go:45-66 | In every run a request is admitted exactly if no window of its client is open, or the client has made fewer than maxReqs requests, refused ones included, since that window was opened; only requests that come more than the interval after its opening open another |
| RateLimit.NeverStricter | pkg/ratelimit/ratelimit.go:45-66 | The limiter is never stricter than a sliding window: with fewer than maxReqs requests of the client admitted in the interval before it, a request is admitted |
| RateLimit.CleanupForgets | pkg/ratelimit/ratelimit.go:68-78 | After a cleanup in any run the table holds a client exactly if its latest window is not over, and then the client made a request within the interval before |
| RateLimit.RateBound | pkg/ratelimit/ratelimit.go:45-66 | Any closed time interval as long as the window holds at most 2 * maxReqs - 1 admitted requests of one client |
| RateLimit.RateBoundReached | pkg/ratelimit/ratelimit.go:45-66 | That number is reached |
| RateLimit.SlidingWindowOnlyForOne | README.md:121 | The promise of a sliding window holds exactly for a quota of one |
| RateLimit.PerHostBound | pkg/ratelimit/ratelimit.go:80-95 | Over any ports a host gets at most that number through for each of them |
| RateLimit.PerAddressOnlyOnOnePort | README.md:121 | Hosts on n ports are held to the number for one client exactly when n is 1, and for every n up to 65536 some run reaches n times that number |
| RateLimit.ClientIndependence | pkg/ratelimit/ratelimit.go:45-78 | A client's answers depend on its own requests alone: no cleanup and no other client changes them |

## Left out

- libp2p host, ping and hole punching, UDP sockets: streams and sockets are tokens that are open or not; a stream that the far side closes on its own is not modelled.
- Framing: datagrams that `udpToStream` reads while its relay has no stream are dropped there and are not part of the list; a read that returns no byte and no error does not occur.
- RemovePeer: `Bridge.Bridge.RemovePeer` runs without interruption; its two sections are separate steps in `BridgeRuns`.
- Redis wire protocol and JSON: stored peers are values, a peer that cannot be decoded counts as unreadable, and addresses and exit node flag stand for its remaining fields.
- Registry with a time to live that is not positive: Redis then keeps or deletes keys at once instead of expiring them.
- Several config services on one Redis: the mutex is per process, so one allocator is modelled.
- FirstFit.FindAvailableIP: prefix 0 with all 2^32 addresses in use is excluded, where the loop does not end; IPv6 networks are excluded.
- Allocator.Allocator.AllocateIP: prefix 0 with every address from 0.0.0.2 on in use is excluded, where the search goes on at 0.0.0.0 and 0.0.0.1.
- CircuitBreaker: Go's zero time in `lastFailure` is 0; it is read only after a failure was recorded. The order in which callbacks are delivered is not modelled.
- Agent: dry-run mode and WireGuard's own rule that an allowed IP belongs to one peer at a time are not modelled; a bridge that yields no proxy port is one outcome of `ports`.
- Identity service, tokens, key generation, gateway, CLI, metrics, logging, tracing, TLS, health checks, config files: no state machine of their own.
- Agent timers (retry, heartbeat, token refresh): an operation happens at a time that is its parameter, whatever timer caused it; how the timers are set is not modelled.
