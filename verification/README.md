# Verification of the Diameter base protocol library

A Dafny model of the parts of the library that implement the RFC 6733 base protocol, with proofs about single calls,
about every run of a table, of a peer and of two connected peers, and about the bytes between them. Check everything
with `dafny verify dfyconfig.toml`.

## What is modelled

**Bytes** (`Bytes.dfy`, `AvpCodec.dfy`, `Header.dfy`, `Messages.dfy`, `Builders.dfy`). The builders push bytes into a
buffer; two independent walkers read AVPs back. The functions `EncodeAvps` and `Encode` say what the builders produce,
`StringAt` and `ResultCodeAt` what the walkers return, and the round trips connect them. A message descriptor (`Msg`)
holds the fields some handler reads; `CodecRoundTrip` says that a receiver's accessors and walkers recover it.

**Framing** (`Framing.dfy`). `Frames` is the reference reading of a byte stream. It is characterized completely
(`FramesConserve`, `FramesUnique`), shown to be resumable at any byte, and class `PeerConnection` with its reused
buffers is proved to deliver exactly that.

**Transactions** (`Table.dfy`, `Ledger.dfy`, `Transactions.dfy`, `Identifiers.dfy`, `Correlation.dfy`,
`Requests.dfy`, `Endpoints.dfy`). `DiameterClient` and `DiameterServer` run the same algorithm on `pending_` and `pendingByE2e_`. It is
written once; every section under `pendingMutex_` is one atomic step, and steps interleave freely. A ledger numbers every registration and records
how it left the table. The table object carries this ledger and every method of it, of the client and of the server is
a step of it, so the theorems about runs of the ledger are about the objects.

**Peers** (`PeerMachine.dfy`, `PeerSteps.dfy`, `PeerHistory.dfy`, `Peer.dfy`). The state machine of `Peer`, including the state callback
that is called re-entrantly and may send, disconnect or close. What a callback does is a `Reaction`, a list of calls for
each state; every event of a run brings its own reaction, so the theorems hold for all applications. Class `Peer` works
on bytes and refines the functions.

**Two peers** (`TwoPeers*.dfy`). A client and a server peer joined by two FIFO channels. Connecting, delivering, write
completion, write failure, end of stream, timers, user calls and a broken network are events in any order. An
inductive invariant over both states and the channel contents carries the handshake, order, identity and termination
theorems. `TwoPeersWire.dfy` puts the codec and the framing between the two; `TwoPeersIdentity.dfy` proves the
handshake over bytes for applications that send anything `send` accepts.

**Server** (`Server.dfy`). The list of accepted peers under acceptance, state reports, `shutdown` and `close`.

## Where the code is narrower than its comments

- "On 0 no callback is invoked" (`include/ert/diametercomm/DiameterClient.hpp:130-131`) holds for a `send` that nothing
  interrupts (`AtomicRefusedSend`). An answer between registration and write fires the callback of a send that then
  returns 0 (`InterruptedRefusedSendFires`). A refusal is silent for ever if and only if, between registration and
  roll-back, no answer whose lookup gives the key and no expiry under the key ran while the transaction was pending
  (`RefusedSendIsSilentIff`).
- A counter can draw 0 when it wraps. The peer then draws again while the table keeps 0, so a wire identifier equals its
  table key exactly when the key is not 0 (`SentOnWire`).
- Two pending transactions may share an end-to-end identifier, and finishing one erases the shared index entry. The
  index is always sound (`LedgerOfRun`); it is complete all along a run exactly when the pending identifiers are
  distinct all along it (`ExactWhileDistinct`). Distinctness at the end is not enough (`PastCollisionHides`).
- The expiry handler looks up by hop-by-hop. A queued expiry can end a newer transaction with the same key
  (`ExpiryEnds`).
- A refused send restores both maps exactly when its identifiers were fresh in both (`RefusedSendRestoresIff`).
- The completion handler of `connect` does not look at the state. The reported states are in order exactly when
  every completion finds the peer in WaitCEA (`HistoryInOrderIff`).
- `extractResultCode` does not compare the AVP's length with the four bytes it reads. What it returns is the AVP's own
  if and only if a byte follows the AVP's header (`ResultCodeReadsItselfIff`): without data, or with the V bit and at
  most four bytes, it returns bytes that follow (`EmptyResultCodeReadsOn`). A payload of one to three bytes is read
  together with its padding (`CodeInIsPayload`).
- A `close` during name resolution finds no open socket and cancels nothing: the completion then writes a CER from
  Closed. `OnConnected` takes whether the socket is open as a parameter, so `HistoryInOrderIff` covers this.
- A peer routes received bytes by their command alone. An application message reaches the other application if and
  only if its command bytes are none of the base protocol's (`RoutedAsAppIff`). The handshake and the identities survive
  even such messages (`WireHandshakeSafety`, `IdentityAgreement`).
- `handleDPR` has no state guard: a closed peer with a socket still answers (`ClosedAbsorbs`).

## Assumptions

Whole messages leave in the order in which their writes were initiated. `async_read` yields exactly the bytes asked for
or an error. A timer is a flag (running) and a number of expired handlers still queued. A closed socket accepts no writes; the
failed write is an event of its own. End of stream may be reported before all sent messages were read. A shared
transaction object is identified by a number that is fresh at each registration. `inet_pton` is any
four bytes or a failure. Counter seeds are arbitrary 32-bit values.

## Model

| member | source | states |
|---|---|---|
| Bytes.NetworkOrder | src/Peer.cpp:556-568 | fields are read as base-256 numbers, the most significant byte first |
| AvpCodec.PaddingsAgree | src/Peer.cpp:102-103 | the builder's padding, the string walker's rounding and the result-code walker's masking are the same boundary, a multiple of 4 less than 4 beyond the length |
| AvpCodec.EncodeAvp | src/Peer.cpp:86-104 | an encoded AVP occupies exactly the bytes up to the boundary at which a walker looks for the next one |
| AvpCodec.ExtractStringAvp | src/Peer.cpp:177-195 | the walking loop returns what the recursive walker `StringAt` sees, on arbitrary bytes |
| AvpCodec.ExtractResultCode | src/DiameterClient.cpp:51-77 | the same for the result-code loop; short messages give 0 |
| AvpCodec.EncodedFields | src/Peer.cpp:86-104 | code, flags, 24-bit length and data of an encoded AVP are found at its start, whatever surrounds it |
| AvpCodec.VendorBit | src/Peer.cpp:183-183 | only the top bit of the flags makes an AVP header 12 bytes long |
| AvpCodec.StringRoundTrip | src/Peer.cpp:86-195 | looking a code up in the bytes of any list of AVPs with 24-bit lengths, V bit or not, gives the payload of the first AVP with that code, and nothing if there is none |
| AvpCodec.StringRoundTripIff | src/Peer.cpp:95-98 | an appended value without the V bit comes back if and only if its AVP length fits 24 bits |
| AvpCodec.ResultCodeRoundTrip | src/DiameterClient.cpp:55-77 | the first Result-Code of any encoded list comes back if a byte follows its header; later ones may look like anything |
| AvpCodec.CodeInIsPayload | src/DiameterClient.cpp:64-68 | what is read is the first four payload bytes, or the whole payload with padding if it is shorter |
| AvpCodec.ResultCodeReadsItselfIff | src/DiameterClient.cpp:62-69 | what is read of a Result-Code AVP is the same whatever follows if and only if a byte follows its header |
| AvpCodec.EmptyResultCodeReadsOn | src/DiameterClient.cpp:62-69 | otherwise, with the V bit or without, the walker returns bytes behind the AVP, and which ones |
| AvpCodec.StopsArePrefix | src/DiameterClient.cpp:62-73 | on arbitrary bytes the boundaries one walker visits are a prefix of the other's |
| AvpCodec.StopsOfEncoded | src/Peer.cpp:179-193 | on encoded well-formed AVPs both walkers visit exactly their starts |
| Header.SetU32 | src/Peer.cpp:570-582 | the in-place setter yields the message with one field replaced |
| Header.WithU32Reads | src/Peer.cpp:562-582 | a field that is set is read back and no other byte changes |
| Header.SettersIndependent | src/Peer.cpp:556-582 | setting one identifier leaves the other, the command, the request flag and the length alone |
| Header.EncodeReads | src/Peer.cpp:140-166 | every header field that is read anywhere is read back from a written header, modulo its width |
| Header.RequestBit | src/Peer.cpp:560-560 | the top bit of the flags byte alone tells requests, for all values of the other flags |
| Header.Layout | src/Peer.cpp:556-568 | length, command and identifiers are the numbers at their places in the header |
| Messages.LookupInMessage | src/Peer.cpp:177-195 | in a built message shorter than 2^24 bytes, a string lookup is a lookup in its AVP list |
| Messages.KindReadsBack | src/Peer.cpp:320-335 | a built base message is routed as its own kind, with its identifiers and its size |
| Messages.RoutingOnBytes | src/Peer.cpp:320-341 | on the command bytes and the top flag bit: which six messages are the base protocol's, and that all others are the application's |
| Messages.DecodedFields | src/Peer.cpp:358-359 | what a handler sees of any base message, whoever built it |
| Messages.CodecRoundTrip | src/Peer.cpp:317-342 | what the receiver's accessors and walkers see of a message that fits is what the sender described |
| Messages.EncodedIsFramed | src/Peer.cpp:169-174 | the length field of a built message is its size, so the stream reader accepts it |
| Messages.WireFormat | src/Peer.cpp:432-518 | a built message has version 1, its command, flags, size and identifiers at their places, the sender's origin under codes 264 and 296, and every answer reports Result-Code 2001 |
| Messages.BuiltAvps | src/Peer.cpp:437-516 | the AVPs of each of the six messages, with codes and flags, in order |
| Messages.CapabilitiesReadBack | src/Peer.cpp:437-446 | a receiver's lookups find the six address bytes, the vendor, the product and the application AVPs of a CER or CEA |
| Messages.AdvertisedIds | src/Peer.cpp:442-446 | the advertised application ids are the configured ones without 0, in order |
| Builders.LengthWraps | src/Peer.cpp:87-102 | the 32-bit wrap of the AVP length is visible neither in the length bytes nor in the padding |
| Builders.MessageBuffer.constructor | src/Peer.cpp:140-166 | pushing the header gives the header encoding with length 0 |
| Builders.MessageBuffer.AppendAvp | src/Peer.cpp:86-104 | pushing bytes one after the other appends exactly one encoded AVP to the list in the buffer |
| Builders.MessageBuffer.AppendStringAvp | src/Peer.cpp:106-108 | appends the string's AVP, with the 32-bit cast of its size |
| Builders.MessageBuffer.AppendUint32Avp | src/Peer.cpp:110-117 | appends the big-endian value's AVP |
| Builders.MessageBuffer.AppendAddressAvp | src/Peer.cpp:119-137 | appends the address AVP, 0.0.0.0 when the address does not parse |
| Builders.MessageBuffer.FixMessageLength | src/Peer.cpp:169-174 | overwriting three bytes completes the message encoding |
| Builders.BuildCER | src/Peer.cpp:432-449 | the bytes are the encoding of a CER with the peer's own origin and capabilities |
| Builders.BuildCEA | src/Peer.cpp:454-474 | the bytes are the encoding of a CEA echoing the request's identifiers |
| Builders.BuildDWR | src/Peer.cpp:479-486 | the bytes are the encoding of a DWR |
| Builders.BuildDPR | src/Peer.cpp:295-300 | the bytes are the encoding of a DPR with its cause |
| Builders.BuildAnswer | src/Peer.cpp:491-518 | the bytes are the encoding of a DWA or DPA echoing the request's identifiers |
| Framing.FramesConserve | src/PeerConnection.cpp:321-330 | on arbitrary bytes: delivered messages and the rest are the input, every message is as long as its length field and at least 20, and reading stops only where no message starts |
| Framing.FramesUnique | src/PeerConnection.cpp:313-371 | the reading is the only one with these properties |
| Framing.FramingRoundTrip | src/PeerConnection.cpp:342-364 | any list of messages with correct length fields is delivered unchanged from its concatenation |
| Framing.FramesResume | src/PeerConnection.cpp:313-371 | reading may be interrupted at any byte; after a refused length nothing more is delivered |
| Framing.PrefixDeliversPrefix | src/PeerConnection.cpp:313-371 | any byte prefix of a stream delivers a prefix of its messages |
| Framing.PeerConnection.Arrive | src/PeerConnection.cpp:335-335 | received bytes only extend the undelivered ones |
| Framing.PeerConnection.ReadHeader | src/PeerConnection.cpp:315-331 | a header is accepted exactly when its length is at least 20, and no byte is lost |
| Framing.PeerConnection.ReadBody | src/PeerConnection.cpp:342-365 | the handed-over message is the next bytes of the stream, whatever the reused buffer held before |
| Framing.PeerConnection.ReadLoop | src/PeerConnection.cpp:304-371 | the loop delivers the reference reading of all bytes received so far and fails exactly where it does |
| Table.RegisterSound | src/DiameterClient.cpp:212-227 | a registration keeps every index entry pointing at a pending transaction with that end-to-end identifier, whatever collides |
| Table.RemoveSound | src/DiameterClient.cpp:311-313 | so does taking a transaction out |
| Table.RemoveExact | src/DiameterServer.cpp:372-374 | taking a transaction out keeps inverse maps inverse |
| Table.RegisterExactIff | src/DiameterServer.cpp:287-300 | a registration keeps the maps inverse if and only if no other pending transaction has its end-to-end identifier |
| Table.ExactIsDistinct | src/DiameterClient.cpp:225-226 | inverse maps mean distinct end-to-end identifiers |
| Table.LookupSound | src/DiameterClient.cpp:295-310 | after any collisions, a lookup never hits a transaction a scan would not accept |
| Table.LookupIsIndexedScan | src/DiameterClient.cpp:295-310 | in every reachable table the lookup finds the key's transaction if its command matches, and else exactly those hits of a scan that are indexed |
| Table.LookupIsScan | src/DiameterClient.cpp:295-310 | with inverse maps it finds exactly what a scan by (hop-by-hop, command), then (non-zero end-to-end, command) finds |
| Table.RefusedSendRestoresIff | src/DiameterClient.cpp:255-263 | registering and rolling back restores both maps if and only if both identifiers were fresh |
| Transactions.TransactionTable.constructor | include/ert/diametercomm/DiameterClient.hpp:252-254 | a new table is empty and so is its ledger |
| Transactions.TransactionTable.Add | src/DiameterClient.cpp:212-227 | a registration step of the ledger: the newest wins and the index entry of a replaced transaction goes |
| Transactions.TransactionTable.Withdraw | src/DiameterClient.cpp:256-263 | a roll-back step: takes out the same transaction only |
| Transactions.TransactionTable.TimeOut | src/DiameterClient.cpp:234-242 | an expiry step: ends what is registered under the key now and returns it |
| Transactions.TransactionTable.Answer | src/DiameterClient.cpp:287-314 | an answer step: resolves what the lookup finds and returns it |
| Transactions.TransactionTable.Clear | src/DiameterClient.cpp:382-388 | a clearing step |
| Ledger.StepKeeps | src/DiameterClient.cpp:203-347 | every critical section keeps: index sound, table entries are the newest registrations under their keys, each transaction pending or ended exactly once |
| Ledger.LedgerOfRun | src/DiameterClient.cpp:203-389 | over any interleaving these hold, and no fate is taken back |
| Ledger.CallbacksAtMostOnce | src/DiameterClient.cpp:248-249 | response and timeout callbacks of a transaction together fire at most once, never while it is pending |
| Ledger.RollBackDecides | src/DiameterClient.cpp:255-270 | a roll-back ends its transaction silently for ever if it is still pending, and otherwise does nothing |
| Ledger.ClearingIsSilent | src/DiameterClient.cpp:382-388 | clearing ends every pending transaction without a callback, for ever, and changes no earlier fate |
| Ledger.StruckCounts | src/DiameterClient.cpp:232-346 | over any run, the callbacks a transaction sees are one if some section strikes it while it is pending, else none |
| Ledger.RefusedSendIsSilentIff | src/DiameterClient.cpp:203-270 | for any sections between registration and roll-back and any after: no callback of a refused send ever fires if and only if none in between was an answer whose lookup gives its key, or an expiry under its key, while it was pending |
| Ledger.AtomicRefusedSend | include/ert/diametercomm/DiameterClient.hpp:130-131 | an uninterrupted refused send never fires a callback, in any later run |
| Ledger.InterruptedRefusedSendFires | src/DiameterClient.cpp:227-255 | an answer between registration and write fires the callback of a refused send |
| Ledger.ExpiryEnds | src/DiameterClient.cpp:232-242 | an expiry ends its own transaction if and only if that is pending, otherwise at most a later one under the same key |
| Ledger.StepExact | src/DiameterServer.cpp:286-331 | from inverse maps, a step leads to inverse maps if and only if it leads to distinct end-to-end identifiers |
| Ledger.ExactWhileDistinct | src/DiameterClient.cpp:212-314 | the maps are inverse all along a run if and only if the pending end-to-end identifiers are distinct all along it |
| Ledger.PastCollisionHides | src/DiameterClient.cpp:312-312 | a run after which a lone pending transaction is missing in the index and its answer is dropped |
| Ledger.AnswerResolvesAtMostTwice | src/DiameterClient.cpp:287-314 | without new registrations any answer resolves at most twice, whatever else happens |
| Ledger.EchoResolvesOnce | src/DiameterClient.cpp:287-346 | an answer echoing both identifiers and the command resolves exactly its transaction, and its repetitions always miss |
| Ledger.DistinctKeysEvictNone | src/DiameterClient.cpp:214-225 | a run that never reuses a key evicts no transaction |
| Identifiers.Counter.Draw | include/ert/diametercomm/Peer.hpp:169-172 | returns the current value and advances it modulo 2^32 |
| Identifiers.AfterIsModular | include/ert/diametercomm/Peer.hpp:169-172 | the k-th draw is seed + k modulo 2^32 |
| Identifiers.DrawsCollideIff | include/ert/diametercomm/Peer.hpp:169-172 | two draws agree if and only if a whole number of rounds lies between them |
| Identifiers.FreshKeysEvictNone | src/DiameterClient.cpp:190-194 | in runs of any length, keys drawn from one counter never evict a pending transaction, if only the pending ones are younger than 2^32 draws |
| Identifiers.FreshIdsStayExact | src/DiameterClient.cpp:197-201 | end-to-end identifiers drawn like this stay distinct among the pending transactions and keep the two maps inverse all along any run |
| PeerMachine.CallsOutsideOpen | src/Peer.cpp:263-312 | in any state but Open, calls draw identifiers or close, and write nothing; Closed stays Closed |
| PeerMachine.ForceCloseForm | src/Peer.cpp:308-312 | closing closes socket, timer and state and reports once, under any re-entrant callback |
| PeerMachine.OnErrorForm | src/Peer.cpp:347-350 | an error does the same but leaves the socket, unless a callback closes it |
| PeerMachine.DisconnectForm | src/Peer.cpp:286-303 | a disconnect from Open ends Closing with the request written, or Closed without it when its callback closes |
| PeerHistory.InputContinues | src/Peer.cpp:286-551 | no input but a stray transport completion puts the reported states out of order |
| PeerHistory.StrayConnect | src/Peer.cpp:235-237 | a completion outside WaitCEA puts them out of order for good |
| PeerHistory.HistoryInOrderIff | src/Peer.cpp:233-240 | reports are a strictly ordered subsequence of Wait, Open, Closing, Closed if and only if every completion finds WaitCEA |
| PeerHistory.HistoryOfPeer | src/Peer.cpp:223-258 | the same for a peer's whole life from its one `connect` or `start` |
| PeerHistory.ClosedAbsorbs | src/Peer.cpp:286-427 | Closed absorbs every message, error, timer, completion and call; at most a disconnect answer is written |
| PeerHistory.WatchdogStaysAlive | src/Peer.cpp:523-538 | whatever happens, a client that is Open has its watchdog running or its handler queued |
| PeerHistory.ClientIsWatched | src/Peer.cpp:387-388 | the same from the client's `connect` on |
| PeerHistory.InputKeepsWired | src/Peer.cpp:308-312 | a peer that is not Closed keeps an open socket, whatever happens |
| PeerSteps.DisconnectRequestIsAnswered | src/Peer.cpp:415-419 | in every state, with a socket, a DPR gets exactly one DPA with its identifiers and the own origin, and nothing else changes |
| PeerSteps.WatchdogRequestIsAnswered | src/Peer.cpp:394-401 | an Open peer answers a DWR with exactly one DWA with its identifiers; any other ignores it |
| PeerSteps.CapabilityRequestIsAnswered | src/Peer.cpp:355-371 | the CEA echoes the CER's identifiers and is written before the callback for Open runs |
| PeerSteps.CapabilityAnswerOpens | src/Peer.cpp:376-389 | the client knows the server, runs the callback, then starts the watchdog if one is configured |
| PeerSteps.DisconnectAnswerCloses | src/Peer.cpp:424-427 | the awaited DPA closes peer and socket, whatever the callback calls |
| PeerSteps.AnswerCompletionCloses | src/Peer.cpp:418-418 | so does the completed write of a DPA, in any state |
| PeerSteps.OutOfPlaceIsIgnored | src/Peer.cpp:317-427 | messages out of place change nothing |
| PeerSteps.ApplicationMessageIsDelivered | src/Peer.cpp:336-341 | an Open peer hands an application message over once |
| PeerSteps.WatchdogSends | src/Peer.cpp:528-537 | the handler of an Open peer writes exactly one DWR under new identifiers and restarts the timer; of any other it does nothing |
| PeerSteps.ExpiryConserves | src/Peer.cpp:527-528 | an expiring timer is neither lost nor doubled |
| PeerSteps.ConnectionSends | src/Peer.cpp:235-243 | the completion a client waits for writes exactly one CER under new identifiers, if the socket is open, and starts reading |
| PeerSteps.DisconnectSends | src/Peer.cpp:286-303 | a disconnect whose callback does not close writes one DPR with the cause under the identifiers drawn last |
| PeerSteps.SendFacts | src/Peer.cpp:263-281 | an accepted message is written once with its zero identifiers replaced by the counters', which move on exactly then; no other byte differs; a refused one has no effect |
| PeerSteps.CallsAreServed | src/Peer.cpp:545-551 | calls from callbacks are served in order, each for what it is |
| PeerSteps.ReportRunsCallback | src/Peer.cpp:545-551 | a new state is reported once and its callback runs in that state |
| PeerSteps.ConnectWaitsIff | src/Peer.cpp:223-225 | `connect` leaves WaitCEA, with nothing written, if and only if its callback neither disconnects nor closes |
| PeerSteps.StartWaitsIff | src/Peer.cpp:253-258 | the same for `start` and WaitCER |
| PeerObject.Peer.constructor | src/Peer.cpp:208-216 | a new peer is Closed and has done nothing |
| PeerObject.Peer.SendMessage | src/Peer.cpp:263-281 | refines the machine on bytes; accepted exactly when Open and long enough |
| PeerObject.Peer.SetState | src/Peer.cpp:545-551 | refines the machine, re-entrant callbacks included |
| PeerObject.Peer.Disconnect | src/Peer.cpp:286-303 | refines the machine: the callback runs before the request is built |
| PeerObject.Peer.Close | src/Peer.cpp:308-312 | refines the machine |
| PeerObject.Peer.Connect | src/Peer.cpp:223-225 | refines the machine |
| PeerObject.Peer.WriteCER | src/Peer.cpp:238-239 | draws two identifiers and writes one CER |
| PeerObject.Peer.OnConnected | src/Peer.cpp:235-243 | refines the machine, with the socket open or not |
| PeerObject.Peer.Start | src/Peer.cpp:253-258 | refines the machine |
| PeerObject.Peer.OnError | src/Peer.cpp:347-350 | refines the machine |
| PeerObject.Peer.OnMessage | src/Peer.cpp:317-342 | routing by command and flag is the machine's step on the decoded message; short messages change nothing |
| PeerObject.Peer.HandleCER | src/Peer.cpp:355-371 | refines the machine: the answer is written before Open is reported |
| PeerObject.Peer.HandleCEA | src/Peer.cpp:376-389 | refines the machine: the watchdog starts after the callback |
| PeerObject.Peer.HandleDWR | src/Peer.cpp:394-401 | refines the machine |
| PeerObject.Peer.HandleDPR | src/Peer.cpp:415-419 | refines the machine, in any state |
| PeerObject.Peer.HandleDPA | src/Peer.cpp:424-427 | refines the machine |
| PeerObject.Peer.OnAnswerWritten | src/Peer.cpp:418-418 | refines the machine |
| PeerObject.Peer.WriteDWR | src/Peer.cpp:534-535 | draws two identifiers and writes one DWR |
| PeerObject.Peer.OnTimer | src/Peer.cpp:528-537 | refines the machine |
| PeerObject.Peer.TimerElapses | src/Peer.cpp:527-529 | a running timer becomes one queued handler, which no cancellation reaches |
| TwoPeers.StepKeeps | src/Peer.cpp:223-427 | every event keeps the invariant over both states and the channel contents |
| TwoPeers.RunKeeps | src/Peer.cpp:223-427 | so does every run |
| TwoPeers.RunByCalls | src/Peer.cpp:545-551 | the complete effect any calls from any callbacks can have on a peer |
| TwoPeersFlow.WaitersReadHandshake | src/Peer.cpp:338-338 | in every reachable state a waiting peer reads next the handshake message it waits for |
| TwoPeersFlow.HandshakeSafety | src/Peer.cpp:233-389 | in every run: a client that is Open has a server that left WaitCER, and no application message reaches a waiting side |
| TwoPeersFlow.ApplicationOrder | src/Peer.cpp:263-341 | application messages are delivered in order, without loss or duplication while the receiver is Open, a prefix afterwards |
| TwoPeersFlow.WatchdogOrder | src/Peer.cpp:394-410 | an Open side has answered every DWR it has read, in order; the identifiers of the DWAs a side has read are a prefix of those of the DWRs it wrote |
| TwoPeersAnswers.WatchdogCounts | src/Peer.cpp:528-537 | in every run a side has written exactly one DWR for each time its handler ran while it was Open |
| TwoPeersAnswers.DisconnectOrder | src/Peer.cpp:415-427 | in every run a side with a socket has answered every DPR it has read, in order and in any state; the DPAs a side has read answer a prefix of the DPRs it wrote |
| TwoPeersAnswers.HandshakeEchoes | src/Peer.cpp:355-371 | in every run the server's first message is a CEA with the identifiers of the client's first message, its CER |
| TwoPeersAnswers.UnwatchedNeverAsks | src/Peer.cpp:523-524 | a server, and a client with interval 0, never has a running timer and never writes a DWR |
| TwoPeersAnswers.ConstructedPeersStart | src/Peer.cpp:208-258 | constructed peers are where the theorems about runs start, once `connect` was called with a callback that does not close |
| TwoPeersFlow.WatchdogOnlyWhileOpen | src/Peer.cpp:528-536 | a DWR is written by the handler of an Open peer and by nothing else |
| TwoPeersProgress.ClosingIsNeverStuck | src/Peer.cpp:286-312 | a side in Closing has its request unread, an answer under way, the other side about to close, or a cut connection to be told of |
| TwoPeersProgress.CallsAfford | src/Peer.cpp:286-312 | calls that send nothing write at most what the potential of the state they leave pays for |
| TwoPeersProgress.InternalDecreases | src/Peer.cpp:317-427 | every internal event decreases a measure, even if its callbacks disconnect, close or draw identifiers |
| TwoPeersProgress.PassiveKeepsMeasure | src/Peer.cpp:286-350 | calls other than sends, write errors and a broken network do not increase it |
| TwoPeersProgress.QuiescentIsClosed | src/Peer.cpp:415-427 | where nothing can happen any more, an ending connection is Closed on both sides |
| TwoPeersProgress.DisconnectEnds | src/Peer.cpp:286-427 | without new sends and timer handlers, a run has no more internal events than the measure says, and where none is left both sides are Closed, whatever callbacks and callers close |
| TwoPeersProgress.EveryDisconnectEnds | src/Peer.cpp:286-427 | the same from every reachable state, simultaneous disconnect requests included |
| TwoPeersWire.OwnFits | src/Peer.cpp:432-518 | if a peer's CEA fits 24 bits then everything it builds does |
| TwoPeersWire.WireStepIsStep | src/Peer.cpp:317-342 | encoding and decoding on the wire changes no step |
| TwoPeersWire.WireRunIsRun | src/Peer.cpp:317-342 | from any state whose messages fit, every run over bytes is the run over descriptors |
| TwoPeersWire.WireRunFromStart | src/Peer.cpp:223-342 | the same from the start of a connection, asking only that both configurations fit and the application sends application messages |
| TwoPeersWire.RoutedAsAppIff | src/Peer.cpp:323-341 | an Open peer treats received bytes as an application message if and only if their command bytes are none of the base protocol's |
| TwoPeersIdentity.IdentityAgreement | src/Peer.cpp:355-389 | in every run over bytes, whatever the applications send, whoever is Open or Closing holds the other side's configured origin host and realm |
| TwoPeersIdentity.WireHandshakeSafety | src/Peer.cpp:233-389 | in every such run an Open client has a server that left WaitCER, and the bytes a waiting side reads next decode to its handshake message |
| TwoPeersWire.StreamDelivers | src/PeerConnection.cpp:342-364 | a side's byte stream cut anywhere delivers exactly its first messages, and they decode to what was written |
| Correlation.AssignFacts | src/DiameterClient.cpp:189-201 | for a zero the counter's value is taken and the counter moves on, a given identifier is kept and the counter with it; the bytes carry the result and are the caller's elsewhere |
| Correlation.SentOnWire | src/Peer.cpp:263-281 | one message is written, the caller's outside the identifiers; each wire identifier is the table key if and only if the key is not 0 |
| Requests.SendDraws | src/DiameterClient.cpp:189-255 | how many identifiers a send draws, with the second draw for a zero |
| Requests.SendsEvictNone | src/DiameterClient.cpp:189-227 | over any run of sends, draws elsewhere and table sections: hop-by-hop identifiers left to the library never evict a pending transaction, unless one stays pending for 2^32 draws |
| Requests.SendsStayExact | src/DiameterClient.cpp:195-227 | end-to-end identifiers left to the library keep index and table exact inverses over such runs |
| Requests.AssignedIdsAreFresh | src/DiameterServer.cpp:265-301 | both, from the first send of a peer with any counters on |
| Correlation.EchoResolvesSent | src/DiameterClient.cpp:190-346 | from bytes to bytes: after anything else has happened to the table, the endpoint completes exactly that send with an answer echoing the sent bytes, if it is pending |
| Correlation.AnswerCompletesAtMostOne | src/DiameterServer.cpp:405-426 | one inbound answer completes at most one transaction of both tables, one a scan accepts, changes nothing on a double miss and never becomes a request |
| Correlation.AnswerCompletes | src/DiameterServer.cpp:409-425 | what the lookup by the header's fields finds in the own table is completed; what it finds only in the other is completed there; all other answers are dropped; a message with the request bit is a request |
| Correlation.ShortAnswer | src/DiameterServer.cpp:405-411 | a short message is looked up in the own table with zero fields |
| Endpoints.AssignIdentifiers | src/DiameterClient.cpp:189-201 | the in-place assignment is the specified one |
| Endpoints.DiameterClient.constructor | include/ert/diametercomm/DiameterClient.hpp:252-254 | a new client has an empty table |
| Endpoints.Register | src/DiameterClient.cpp:189-227 | the first half of a send: assigned identifiers and one registration step |
| Endpoints.Submit | src/DiameterClient.cpp:255-276 | the second half, from any later state of peer and table: accepted and registered, or refused and one roll-back step |
| Endpoints.TryResolve | src/DiameterClient.cpp:282-347 | messages with the request bit and short ones never touch the table; other answers are one answer step |
| Endpoints.Correlate | src/DiameterServer.cpp:409-425 | the own table first, then the other leg, as specified |
| Endpoints.DiameterClient.Connect | src/DiameterClient.cpp:154-167 | a new peer for each connection, with the state reported; the table is kept |
| Endpoints.DiameterClient.Send | src/DiameterClient.cpp:172-277 | returns 0 and registers nothing unless Open and long enough; else, uninterrupted, the message is written and the transaction registered |
| Endpoints.DiameterClient.OnExpiry | src/DiameterClient.cpp:232-250 | one expiry step |
| Endpoints.DiameterClient.OnPeerRequest | src/DiameterClient.cpp:432-466 | own table first, then the other leg; an answer never reaches the request callback, a request never touches a table |
| Endpoints.DiameterClient.Close | src/DiameterClient.cpp:377-389 | the peer is closed and nothing stays pending |
| Server.DiameterServer.constructor | include/ert/diametercomm/DiameterServer.hpp:225-237 | a new server has no peers |
| Server.DiameterServer.OnPeerStateChange | src/DiameterServer.cpp:494-497 | a Closed report removes that peer and keeps the others, without duplicates |
| Server.DiameterServer.Accept | src/DiameterServer.cpp:449-463 | the new peer is listed exactly if it is not already Closed, even when its callback closes it |
| Server.DiameterServer.OnPeerEvent | src/DiameterServer.cpp:479-505 | after every handler the list holds exactly the accepted peers that are not Closed |
| Server.DiameterServer.ActivePeerCount | src/DiameterServer.cpp:219-226 | the loop counts the accepted peers that are Open |
| Server.DiameterServer.Shutdown | src/DiameterServer.cpp:184-200 | no peer of the snapshot stays Open; one that its own callback does not close is Closing with one request of the given cause written; the others are untouched |
| Server.DiameterServer.Close | src/DiameterServer.cpp:202-217 | the list is empty and every accepted peer is Closed, its socket too |
| Server.DiameterServer.SendRequest | src/DiameterServer.cpp:257-341 | registers before the peer is asked; a peer that is not Open refuses and the registration is rolled back, two steps of the ledger |
| Server.DiameterServer.OnExpiry | src/DiameterServer.cpp:306-319 | one expiry step |
| Server.DiameterServer.OnPeerMessage | src/DiameterServer.cpp:405-435 | own table first, then the other leg's `tryResolve`, as specified |
| Server.ClosedIsLast | src/DiameterServer.cpp:494-497 | a peer reports Closed among its new reports exactly when it has become Closed |

## Left out

- Sockets, SCTP, TLS, DNS, source address selection, listening: foreign calls without logic of their own.
- Byte-level interleaving of writes: `asyncWrite` does not queue; the model assumes whole messages in initiation order.
- Reconnection, metrics, labels, logging and round-trip times: no effect on the protocol state.
- A failed transport connection and a reconnect in the two-peer system: one connection attempt that succeeds or is cancelled by a close.
- Concurrent threads inside one `Peer` handler: handlers are atomic; only the sections under `pendingMutex_`, the two halves of a send, and the read and write completions interleave.
- sendAnswer of client and server: passes the message to the peer's send.
- Ledger.Step: an expiry may happen at any time, and any number of times; the cancellation of timers is not modelled, so the theorems hold with and without it.
- TwoPeers.Step: an application message is opaque even if its bytes carry a base command.
- TwoPeersWire.WireRunIsRun: asks the application to send messages of other commands with a correct length field, because bytes with a base command are routed to a handler and the two runs then differ.
- TwoPeersWire.WireRunFromStart: the same; the handshake and the identities are proved without it.
- TwoPeers.Enabled: a close cancels an outstanding connect; `PeerHistory` has the same machine without this, and with a socket that a close during name resolution does not reach.
- Framing.PeerConnection.ReadBody: the branch for an empty body cannot be reached with a length of at least 20.
- Server.DiameterServer.OnPeerEvent: a peer's state reports reach the server's list at the end of the handler that made them; the application's own event callback is the peer's reaction and does not call back into the server.
- Server.DiameterServer.Accept: the same for the reports made by `start`.
- Server.DiameterServer.Shutdown: the same for the reports made by `disconnect`.
- Detection of a dead peer from missing watchdog answers: the code only logs them.
