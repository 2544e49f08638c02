# DOS-MCP, verified

A Dafny model of the parts of DOS-MCP that have to be right without being watched: the bridge that
sends requests over UDP, the simulator and the resident DOS agent that serve them, and what these
are built of. Every module follows one component of the repository. Code that changes state in
place is a class or a method over arrays, proved to leave what a function of the old state says;
the properties are proved of those functions.

- **Requests and replies.** `RequestIds`, `Packets`, `Sessions`, `Link` and `LinkSafety` put the
  bridge, a channel and a target together as one state machine and prove stop-and-wait safe over
  all runs. `LinkHazards` proves the condition for issuing a request exact, `LinkKnowledge` that the
  bridge can tell it, and `LinkRefutations` gives whole runs, over `LinkPaths`, in which it is not met.
  `SessionPrograms` and `RequestAssembly` are the programs that take those steps; `Exchanges` says by
  the packets that arrive what an exchange comes to, and `LinkExchanges` that the exchange of `Link`
  comes to the same. `Handshake` is how a session comes about.
- **File transfers.** `TransferSpec` says what one transfer may do. `TransferClient` proves upload
  and download correct against any server that keeps to it and any loss, and `LinkTransfers` that
  the packets of `Link` are such exchanges. `TransferServer` (the simulator) and `AgentServer` (the
  agent, over `AgentTransfers`, `DosFiles` and `DosPaths`) prove that both keep to it, and
  `LinkedServers` puts each of them behind the link, the agent in the bytes of `TransferMessages`.
  `AgentAnswers` is what the agent answers to each operation, and that with a healthy disk it serves
  every request. `TransferSafety` is what an upload does to the files of the machine, `PathSafety`
  which names are accepted and where they lie, and `Confinement` that nothing else is touched.
- **The resident worker.** `ResidentReplies` is the reply to every request, `ResidentBuffer` the
  handlers that build it over the request in one shared buffer. `ResidentWorker` is one run of the
  worker as a function, `ResidentProgram` the same as a program on static variables. `ResidentSafety`
  is what one run keeps, `ResidentRuns` what holds over whole lives of runs and arriving frames, and
  `ResidentSessions` that the agent so described is the agent of `Link`. `InterruptHooks`,
  `ReceiveSlot` and `BiosKeys` are the interrupt handlers, the receive upcall and the keyboard ring
  around it, and `KeyLayout` the keys its words stand for.
- **Codecs.** `PacketCodec`, `PacketMac` over `Speck`, `SessionKeys`, `Checksums` and `Sha256`, the agent's
  streaming form and the bridge's batch form of each proved against one reference. `Chains` holds
  what the checks have in common, `KnownAnswers` and
  `HashVector` their test vectors and the places of the fields.
- **Terminal and frames.** `Terminal`, `TerminalBuffer` and `TerminalPage`, and `TerminalControls`, what
  each control does in the terms of the screen; `DmNet`.

Hypotheses that the code needs, each stated in the contract that uses it:

- Runs start from an agreed session. The channel loses packets and repeats them in place, but keeps
  their order: a refused repetition sets the watermark back (`dos/agent/ragent.c:719`,
  `src/dos_mcp/agent_server.py:438`), so order matters. An authentic packet is one the peer encoded.
- `Link.MayIssue`: at most 0x7FFE requests in a row without an answer (`Patient`), and the target
  holds nothing under the new identifier that it could take for this request or its reply (`Clear`).
  The second is not a consequence of the first: the simulator's four cached replies and its partial
  requests outlive 65535 requests, and the agent's reassembly record outlives a handshake. For each
  there is a run that goes wrong, and the condition is exact (`LinkHazards.ExactlyWhenSafe`).
- While a picture is being captured it stays as it is (`ResidentRuns.Possible`); at other times the
  screen may change from run to run.
- A graphics end is not gated but can end a file download (`dos/agent/ragent.c:1722-1726`,
  `dos/agent/ragent.c:2180`). `ResidentSafety.CallsAreGated` says exactly when, and
  `ResidentRuns.DosIsSafe` that nothing else breaks the rule; the bridge sends no such request.
- A commit removes the destination before it renames (`dos/agent/ragent.c:2274-2279`), and a short
  write moves the file but not the offset (`dos/agent/ragent.c:2243-2248`). Both are modelled, every
  DOS call succeeding, failing or stopping short as an arbitrary schedule says; the properties they
  break are stated with their exact conditions.
- Packet drivers ask for the buffer before they report a frame, one frame at a time. Interrupts stay
  disabled from the entry of a hook to its stack switch and from the worker's end to the switch back.
- Control sequences hold no characters beyond ASCII (`Terminal.AsciiControls`): other digits have
  values of their own, and a superscript raises (`src/dos_mcp/terminal.py:124`).

`dafny verify dfyconfig.toml` checks the whole project.

## Model

| member | source | states |
|---|---|---|
| `LinkSafety.StopAndWaitIsSafe` | src/dos_mcp/backends/udp.py:375-473 | over every run from an agreed session, with either target, on a channel that loses and repeats packets but keeps their order: each request is dispatched at most once, in order, with its own operation and bytes; none is refused as a repetition; every payload returned by `_request`, and every error it raises from a reply, answers that request's own dispatch. At the agent this is so although a fragment stored over the last reply destroys it: what is sent again is never such a reply |
| `LinkSafety.ReturnedIsNewestDispatch` | src/dos_mcp/backends/udp.py:420-473 | at the moment a payload is returned its request is the newest one dispatched: nothing was dispatched between a caller's request and its return |
| `LinkSafety.StepKeepsInv` | dos/agent/ragent.c:672-753 | the invariant of bridge, channel and target survives every step of any of them |
| `LinkSafety.SimulatorServes` | src/dos_mcp/agent_server.py:118-172 | whatever packet the simulator takes next (a repetition, a fragment, the last fragment), cache, watermark and partial requests stay those of the requests on record |
| `LinkSafety.AgentServes` | dos/agent/ragent.c:688-753 | the same for the DOS agent with its one reassembly record and its one kept reply, in one buffer with what is received |
| `LinkSafety.ReceiveKeepsInv` | src/dos_mcp/backends/udp.py:437-471 | a packet the bridge ignores, keeps, raises on or returns leaves the system in a state it may be in |
| `LinkSafety.IssueKeepsInv` | src/dos_mcp/backends/udp.py:375-388 | a new identifier may be issued for any request the target holds nothing for, and not only the first time round |
| `LinkSafety.ChannelStepKeepsInv` | src/dos_mcp/backends/udp.py:428-471 | losing a packet or repeating it in place, in either direction, breaks nothing |
| `LinkHazards.ExactlyWhenSafe` | src/dos_mcp/backends/udp.py:375-388 | at every quiet state a patient bridge can be in, with either target and for every request: the condition under which the request may be issued holds if and only if no run of its exchange dispatches other bytes, dispatches twice or out of order, or answers it with another reply |
| `LinkHazards.StaleAnswered` | src/dos_mcp/agent_server.py:135-144 | half of that at the simulator: a cached reply of the same operation under the new identifier is handed to the new request |
| `LinkHazards.MixtureDispatched` | src/dos_mcp/agent_server.py:146-170 | the other half: fragments left behind with the header of the new request are dispatched together with its own, once everything else held there can be written over |
| `LinkHazards.PartsMixed` | dos/agent/ragent.c:722-752 | the same at the agent, for parts of a request of this operation and this many fragments that its one record still holds |
| `LinkHazards.CarriedOverDispatched` | dos/agent/ragent.c:784-838 | the agent's record outlives a handshake: in a session just agreed, the very first request can be dispatched with a part of an earlier session's |
| `LinkKnowledge.BridgeCanTell` | src/dos_mcp/backends/udp.py:375-388 | what the bridge knows by itself is enough for that condition: which requests it issued and which of them were answered |
| `LinkKnowledge.AgentNeedsOnlyPatience` | dos/agent/ragent.c:713-735 | at the agent, once a packet of the session was taken, patience alone is enough |
| `LinkRefutations.StaleReplyReturned` | src/dos_mcp/agent_server.py:135-144 | with the half-range bound alone, three answers among the first 65535 requests leave the first reply in the simulator's cache of four, and request 65536 is handed that reply: the cache condition is needed |
| `LinkRefutations.FragmentsMixed` | src/dos_mcp/agent_server.py:146-170 | with the half-range bound alone, a partial request left behind is completed 65535 requests later by a fragment of another one: the condition on partial requests is needed |
| `RequestIds.SameIdExactly` | src/dos_mcp/backends/udp.py:380-383 | identifiers repeat exactly every 65535 requests, zero being skipped |
| `RequestIds.NewerExactly` | src/dos_mcp/agent_server.py:469-471 | exactly when a later identifier looks newer to the half-range comparison, the skipped zero included |
| `RequestIds.NewerWithinHalfRange` | dos/agent/ragent.c:660-664 | every later request within 0x7FFE looks newer |
| `RequestIds.HalfRangeIsTight` | dos/agent/ragent.c:660-664 | 0x7FFF later, a request looks newer only if the identifiers did not wrap in between: 0x7FFE is the largest safe distance |
| `SessionPrograms.ExchangeWithPacket` | src/dos_mcp/backends/udp.py:420-473 | the retry loop with its dictionary of fragments: when what arrives holds all fragments of one reply, in any order, repeated, with anything else between, and no matching error came before, it returns the bytes of the reply; a matching error before that raises; it times out exactly when neither arrived; every attempt sends all the packets, and the attempt that settles the exchange is the last |
| `Exchanges.ListenOn` | src/dos_mcp/backends/udp.py:437-471 | listening in two stretches comes to the same as listening once to both |
| `Exchanges.ExchangeDecides` | src/dos_mcp/backends/udp.py:437-471 | over every sequence of arrivals whose matching responses are fragments of one reply: all of it before any error, an error before all of it, or neither, decide the result, and nothing else does |
| `LinkExchanges.ReturnedIsOutcome` | src/dos_mcp/backends/udp.py:420-473 | over every run of one exchange of the packet link: what it has on record as returned, as raised or as timed out is what the retry loop of the program returns for the packets the bridge received |
| `SessionPrograms.UdpBackend.Request` | src/dos_mcp/backends/udp.py:375-388 | the identifier advances before a message that is too long is refused; otherwise what is sent in every attempt is the fragments of the message, and the result is the reply to this identifier, the error, or a timeout, as for the exchange |
| `SessionPrograms.SimulatorSession.HandleDatagram` | src/dos_mcp/agent_server.py:118-172 | the session object, its cache and its dictionary of partial requests, updated in place, do what the packet step of the protocol says and send its packets to the peer, but for a first reply that is to be dropped; a packet from another address does nothing |
| `SessionPrograms.SimulatorSession.SendResponse` | src/dos_mcp/agent_server.py:421-446 | the reply is cached, the oldest beyond four forgotten, the watermark set to this identifier even if lower, and all fragments sent unless this is the first reply and it is to be dropped |
| `Packets.ReassembleFragments` | src/dos_mcp/protocol/packet.py:150-206 | distinct fragments of one message, in any order, reassemble exactly when none is missing, and then to the message |
| `Packets.CountingIsEnough` | src/dos_mcp/protocol/packet.py:179-206 | for packets their constructor accepted, the test on each index is already decided by the count of distinct ones |
| `Packets.Store` | src/dos_mcp/backends/udp.py:460-463 | storing a fragment in the dictionary replaces the one with the same index and keeps indices distinct |
| `RequestAssembly.Assembly.Collect` | dos/agent/ragent.c:722-752 | the bit mask, the lengths and the buffer written at `index * 1024` hold what the packet step says, nothing is written outside the buffer, and the request is complete exactly when that step dispatches, with its bytes in the buffer |
| `RequestAssembly.AllBits` | dos/agent/ragent.c:737-741 | the comparison of the mask with `(1 << count) - 1` is the test that every fragment is there |
| `RequestAssembly.AnyOrderAnyDuplicates` | dos/agent/ragent.c:722-752 | fragments of one request of at most 4229 bytes, in any order and with any duplicates: silent before the last distinct one, dispatched then with the bytes of the request, the same reply repeated afterwards |
| `RequestAssembly.LargestKeyRequest` | dos/agent/ragent.c:1359-1368 | no well-formed key request is longer than the 4229 bytes of the buffer, and exactly those with 4096 characters and 128 keys fill it |
| `RequestAssembly.LargestKeyRequestExists` | dos/agent/ragent.c:1359-1368 | there is a well-formed key request that fills the buffer |
| `PacketCodec.DecodeEncode` | src/dos_mcp/protocol/packet.py:56-147 | decoding inverts encoding, with or without one zero pad byte |
| `PacketCodec.AcceptedIsEncoding` | src/dos_mcp/protocol/packet.py:87-147 | every accepted datagram is the encoding of the packet it decodes to, or that and one zero byte |
| `PacketCodec.DecodersAgree` | dos/agent/dmproto.c:248-306 | the agent and the bridge accept the same datagrams and read the same fields from them |
| `PacketCodec.TransportIsTransparent` | src/dos_mcp/backends/udp.py:56-58 | what the bridge puts on the wire is a whole number of words and means the same at both ends |
| `KnownAnswers.FieldPositions` | src/dos_mcp/protocol/packet.py:20-85 | every field of every encoded packet, by the place and order of its bytes |
| `KnownAnswers.CheckPositions` | src/dos_mcp/protocol/packet.py:56-85 | the check covers the fourteen bytes before it and the payload, and the tag everything but itself |
| `KnownAnswers.LowestFirst` | dos/agent/dmproto.c:51-80 | fields of two and four bytes are little-endian |
| `KnownAnswers.GoldenPacket` | tests/protocol/test_packet.py:16-31 | the packet both halves of the repository test their encoders with has those bytes |
| `PacketCodec.DmPacketEncode` | dos/agent/dmproto.c:191-246 | which code is returned, each exactly when: an enumeration out of range, a fragment index or count out of range, a payload too long, a buffer too small; on success the bridge's encoding of the same packet is at the front of an otherwise unchanged buffer, else the buffer is unchanged |
| `PacketCodec.DmPacketDecode` | dos/agent/dmproto.c:248-306 | the in-place decoder, with its scratch copy for the two checks, reads what the decoding function says |
| `Speck.Permutation` | dos/agent/dmproto.c:352-369 | under every key encryption is a permutation of the blocks, undone both ways |
| `Speck.Expand` | dos/agent/dmproto.c:325-350 | the table of 22 round keys built with a rotating slot is the recursion of the published key schedule |
| `Speck.EncryptInPlace` | dos/agent/dmproto.c:352-369 | a block rewritten in place by 22 rounds over the table is the cipher |
| `KnownAnswers.SpeckVector` | dos/agent/dmproto.c:325-369 | the vector the authors of the cipher give |
| `PacketMac.Speck32Encrypt` | src/dos_mcp/protocol/crypto.py:112-128 | masked wider integers, with the key schedule run beside the rounds, give the same cipher |
| `PacketMac.OneBlockDetected` | dos/agent/dmproto.c:169-189 | messages of equal length that differ in exactly one four-byte block have different authenticators, under every key |
| `PacketMac.MacContext.Feed` | dos/agent/dmproto.c:308-313 | byte by byte, the context stands for all bytes fed: whole blocks chained, the rest waiting |
| `PacketMac.MacContext.Absorb` | dos/agent/dmproto.c:315-323 | a full block is added to the state and encrypted in place |
| `PacketMac.DmPacketMac` | dos/agent/dmproto.c:169-189 | fed byte by byte, the agent's authenticator is the tag of the message, for every message and key |
| `PacketMac.PacketMacOf` | src/dos_mcp/protocol/crypto.py:131-151 | padded and cut at once, the bridge's authenticator is the same tag; only a key of the wrong size is refused |
| `SessionKeys.XteaPermutation` | dos/agent/dmproto.c:131-152 | under every key XTEA is a permutation of the blocks, undone both ways |
| `KnownAnswers.XteaVector` | tests/protocol/test_crypto.py:16-22 | the vector of the repository's tests |
| `SessionKeys.SessionKeysDiffer` | dos/agent/dmproto.c:154-167 | under one root key, handshakes with different nonces have session keys that differ in both halves |
| `SessionKeys.DmXteaEncrypt` | dos/agent/dmproto.c:131-152 | eight bytes anywhere in a buffer are encrypted where they are, and no others change |
| `SessionKeys.DmDeriveSessionKey` | dos/agent/dmproto.c:154-167 | two blocks laid out and then encrypted in place are the session key |
| `SessionKeys.XteaEncrypt` | src/dos_mcp/protocol/crypto.py:73-95 | masked wider integers give the same cipher; wrong sizes raise |
| `SessionKeys.DeriveSessionKey` | src/dos_mcp/protocol/crypto.py:98-101 | the bridge derives the session key the agent derives |
| `Chains.OneSymbolDetected` | dos/agent/dmproto.c:78-94 | when no step forgets its state or its symbol, sequences that differ in one symbol lead to different states |
| `Chains.TwoSymbolsDetected` | dos/agent/dmproto.c:78-94 | for a shift register, the same for two symbols in a row, taken as one wide symbol |
| `Checksums.Crc16Ccitt` | src/dos_mcp/protocol/crc.py:4-10 | the nested loops of the bridge compute the register run over the message |
| `Checksums.DmCrc16Ccitt` | dos/agent/dmproto.c:78-94 | so does the agent, over the front of a buffer |
| `Checksums.AdjacentBytesDetected` | dos/agent/dmproto.c:78-94 | messages of equal length that differ only in two adjacent bytes have different CRC-16 values |
| `KnownAnswers.Crc16Digits` | tests/protocol/test_crc.py:4-5 | the nine digits have the check 0x29B1 |
| `Checksums.Crc32Update` | dos/agent/ragent.c:1965-1977 | the loops of the agent compute CRC-32 continued from a running value |
| `Checksums.Crc32Append` | dos/agent/ragent.c:1965-1977 | rolling the check along pieces of a file gives the check of the whole |
| `Checksums.OneByteDetected` | dos/agent/ragent.c:1965-1977 | files that differ in exactly one byte have different CRC-32 values |
| `KnownAnswers.Crc32Digits` | dos/agent/ragent.c:1965-1977 | the nine digits have the check 0xCBF43926, and nothing has 0 |
| `Sha256.HashPieces` | dos/agent/dmproto.c:371-504 | however a message is cut into updates, the context ends with its SHA-256 (sections 5.1.1 and 6.2 of FIPS 180-4) |
| `Sha256.ShaContext.Transform` | dos/agent/dmproto.c:405-487 | the block transform is the compression function of section 6.2.2 |
| `Sha256.ShaContext.Update` | dos/agent/dmproto.c:385-396 | the bytes fed so far grow by the data, whatever the fill level |
| `Sha256.ShaContext.PadZeros` | dos/agent/dmproto.c:489-497 | from every fill level the pad loop ends, with exactly the zeros of section 5.1.1 |
| `Sha256.ShaContext.Final` | dos/agent/dmproto.c:489-504 | padding and length make the digest that of all bytes fed |
| `Sha256.DerivePasswordKey` | dos/agent/dmproto.c:105-120 | the password key is the first half of the hash of the domain, its zero byte and the password, which is the bridge's |
| `HashVector.PasswordVector` | tests/protocol/test_crypto.py:38-41 | the key of the repository's test password, through all 64 rounds of its block |
| `TransferClient.UploadFile` | src/dos_mcp/backends/udp.py:279-336 | whenever it returns, the server committed exactly the caller's bytes, once, for every size; when it raises, they were committed once or not at all; and when every send is answered by a server that is idle at the begin and serves each request in its place, it returns |
| `TransferClient.DownloadFile` | src/dos_mcp/backends/udp.py:247-277 | what it returns is the content of the file as the begin found it; and when every send is answered by a server that is idle at the begin and serves each request in its place, it returns the content for every size up to the limit and refuses exactly a larger one |
| `TransferClient.DownloadBlocks` | src/dos_mcp/backends/udp.py:479-507 | the loop of blocks returns the whole content, in order, with its check, from every answering server that gives at least one byte a block |
| `TransferClient.Download` | src/dos_mcp/backends/udp.py:197-245 | the same of either kind of download, with its final check and the abort behind every failure |
| `TransferClient.UploadBlock` | src/dos_mcp/backends/udp.py:303-324 | an acknowledged block extends what the server accepted by exactly these bytes, with the rolling check of the prefix |
| `TransferClient.UploadCommit` | src/dos_mcp/backends/udp.py:325-336 | an acknowledged commit is of exactly these bytes; an unanswered one, even followed by an abort, committed them at most once |
| `TransferClient.AbortSettles` | src/dos_mcp/backends/udp.py:509-515 | a commit and the abort after it, of which any first part arrives, late or not: nothing committed or this upload once |
| `TransferClient.Link.Send` | src/dos_mcp/backends/udp.py:375-473 | the exchange as transfers see it: what is on its way may be dispatched later or never, in order; a reply is that of this request's own dispatch |
| `LinkTransfers.RunIsExchange` | src/dos_mcp/backends/udp.py:375-473 | every stretch of a run of bridge, channel and target in which one request is issued is one such exchange with the server behind the target, one server for the whole session: what was left from before and the new request reach it in order or are lost, and a returned payload is the reply of the newest dispatch, with nothing left on its way |
| `LinkTransfers.LogRuns` | src/dos_mcp/agent_server.py:118-172 | a stretch of the dispatches on record is the requests issued meanwhile, in order, some of them lost |
| `LinkedServers.AgentTracks` | dos/agent/ragent.c:840-982 | whatever the agent dispatches, transfers and other operations in any order, with its picture changing whenever none is being captured, is the history of one transfer server that stands where the agent stands; requests and replies are read by the bridge's own encodings, opcode by opcode |
| `LinkedServers.AgentExchanges` | dos/agent/ragent.c:672-753 | the bridge with the agent, end to end: there is one server behind everything the agent dispatches, and every stretch of a run in which one request is issued is one exchange with it, the exchange upload and download are proved correct for; again by the bridge's own encodings |
| `LinkedServers.ServeAll` | src/dos_mcp/agent_server.py:105-116 | the simulator, serving one dispatched request after the other, ends where that server ends; when the replies on record are its own, every stretch of a run in which one request is issued is one exchange with it |
| `LinkedServers.TrackedExchanges` | src/dos_mcp/backends/udp.py:375-473 | any history of one server behind the dispatches makes every such stretch of every run one exchange |
| `TransferMessages.SentIsAsked` | src/dos_mcp/protocol/messages.py:396-560 | what the bridge encodes for each transfer request, at its opcode, is read by the target as that request |
| `TransferSpec.AllowedKeepsValid` | src/dos_mcp/agent_server.py:339-419 | every step the transfer rules allow keeps a transfer's offset within its data |
| `TransferServer.Simulator.Serve` | src/dos_mcp/agent_server.py:213-337 | every transfer request the simulator serves is a step the transfer rules allow, with that step's reply; it is served if and only if it is in its place and of what the simulator may serve, a refusal changes nothing, and blocks are given whole |
| `TransferServer.Simulator.StartTransfer` | src/dos_mcp/agent_server.py:339-344 | a begin is refused, and changes nothing, while a transfer is active |
| `TransferServer.Simulator.ReadTransferBlock` | src/dos_mcp/agent_server.py:356-374 | only the block at the offset reached is given, and the rolling check is that of the prefix given |
| `TransferServer.Simulator.EndReadTransfer` | src/dos_mcp/agent_server.py:376-386 | an end is accepted only once everything was given |
| `TransferServer.Simulator.WriteTransferBlock` | src/dos_mcp/agent_server.py:388-403 | only the block at the offset reached is taken, and never beyond the declared size |
| `TransferServer.Simulator.CommitWriteTransfer` | src/dos_mcp/agent_server.py:405-419 | a commit needs the declared size and check, and is recorded with the accepted bytes |
| `AgentServer.AgentIsServer` | dos/agent/ragent.c:2117-2430 | every transfer request the DOS agent serves, over its files and handles, is a step of the same rules, answered in the bytes of that step's reply; an end is accepted for either kind of download |
| `AgentAnswers.AgentObliges` | dos/agent/ragent.c:840-982 | with a disk on which no call fails, the agent serves every request of the bridge that is in its place, permitted and of an accepted name: what the bridge reads out of the reply, and where the agent stands afterwards, is what the rules oblige a server to, and the disk stays such |
| `AgentAnswers.PlainAnswers` | dos/agent/ragent.c:848-898 | status, capabilities, diagnostics, screen and ping at their opcodes: what they answer, that they change nothing, and that they are refused a payload they do not take; a hello or a cancel is no request |
| `AgentAnswers.KeysAnswered` | dos/agent/ragent.c:1349-1400 | the key request at its opcode: the ring holds what it held, then the accepted prefixes of text and keys, and the reply counts both |
| `AgentAnswers.RefusalsSay` | dos/agent/ragent.c:899-975 | a refused transfer request, by its opcode: the code of the refusal |
| `AgentAnswers.HopelessIsRefused` | dos/agent/ragent.c:2117-2223 | a begin without permission, with a transfer under way, of a name that is not accepted, of no file or too large a one, or onto a file that may not be replaced, is refused, and neither files nor a transfer under way change |
| `AgentAnswers.ReadBegins` | dos/agent/ragent.c:2117-2139 | a file begins to be read: idle, permitted, an accepted name of a file that is not too long; the reply says how long it is |
| `AgentAnswers.BlockIsGiven` | dos/agent/ragent.c:2141-2172 | a block of a download, of a file or of the screen, is the next bytes of it, as many as asked for unless it ends or DOS gives less, with the check of everything up to its end |
| `AgentAnswers.ReadEnds` | dos/agent/ragent.c:2174-2189 | the end of a complete download: its size and check, nothing open, no file changed |
| `AgentAnswers.WriteBegins` | dos/agent/ragent.c:2191-2223 | an upload begins: an empty temporary, of a name no file has, stands beside the files |
| `AgentAnswers.BlockIsTaken` | dos/agent/ragent.c:2225-2254 | a block in sequence that DOS takes whole stands behind what the temporary held, is accepted, and is answered by the rolling check of everything accepted |
| `AgentAnswers.CommitReplies` | dos/agent/ragent.c:2256-2287 | a commit of everything announced puts the temporary's bytes under the name, the accepted ones unless some write was cut short |
| `AgentAnswers.AbortEnds` | dos/agent/ragent.c:2289-2296 | an abort of the transfer under way gives it up, with an empty reply |
| `AgentAnswers.GraphicsBegins` | dos/agent/ragent.c:2298-2316 | a capture begins: identifier and description, from which the bridge reads the size |
| `AgentServer.RenameFailureLosesFile` | dos/agent/ragent.c:2274-2284 | an allowed overwrite whose last DOS call fails is refused with the old file gone |
| `AgentServer.ShortWriteThenRetry` | dos/agent/ragent.c:2243-2251 | a write cut short and then sent again passes every check of the commit, and what it leaves at the destination is not what was acknowledged |
| `TransferSafety.UploadStep` | dos/agent/ragent.c:2191-2296 | while an upload is active a step changes the files in its own temporary only, or ends the upload: by a commit that leaves the temporary's bytes at the destination and no temporary, or with the files as they were, less a destination lost to a failed rename, and with the temporary left if and only if the removal that ends the upload failed |
| `TransferSafety.UploadRun` | dos/agent/ragent.c:2191-2296 | the same over any run that does not end it: every other file and the destination are as when it began |
| `TransferSafety.CommitReplaces` | dos/agent/ragent.c:2256-2287 | a successful commit puts the temporary's bytes in place of the destination and changes nothing else; an existing destination only if overwriting was allowed; declared size and CRC are those of the acknowledged bytes |
| `TransferSafety.RefusedCommit` | dos/agent/ragent.c:2256-2287 | what a commit refused after its checks leaves, exactly: the destination as it was if and only if it was not removed before a rename that failed, no temporary if and only if the removal that ends the refusal did not fail, on each branch, and every other file as it was |
| `TransferSafety.ReliableRename` | dos/agent/ragent.c:2279-2284 | where a rename onto a free name cannot fail, no refused commit changes the destination |
| `TransferSafety.CommittedIsAccepted` | dos/agent/ragent.c:2243-2251 | what is committed is what was acknowledged if and only if the temporary holds no more than was acknowledged |
| `TransferSafety.TornExactly` | dos/agent/ragent.c:2243-2251 | over every upload: the temporary holds more than was acknowledged, at whatever point, if and only if some write up to there was cut short after taking bytes |
| `TransferSafety.GiveUpKeeps` | dos/agent/ragent.c:1651-1655 | giving a transfer up, by abort or expiry, closes its handle; the files are as before the upload if and only if the temporary's removal does not fail |
| `TransferSafety.PerformKeeps` | dos/agent/ragent.c:2056-2430 | every transfer operation keeps: a handle is open exactly when a file is read or written, offset and rolling CRC are those of the bytes accepted or given, the temporary is a name that did not exist |
| `TransferSafety.CreateTempIsNew` | dos/agent/ragent.c:2066-2105 | the temporary an upload gets did not exist and is not the destination |
| `PathSafety.AcceptedExactly` | dos/agent/ragent.c:1979-2054 | which names are accepted, if and only if: of 1 to 80 bytes, ending at a zero; inside one directory no part between separators is empty, a dot, two dots, longer than 12 or holds a forbidden byte, and the whole path fits; on any drive the same behind a drive, a colon and a separator |
| `PathSafety.InsideLiesBelow` | dos/agent/ragent.c:2023-2054 | an accepted name names the folded directory, one separator and a name of such parts |
| `PathSafety.AbsoluteIsItself` | dos/agent/ragent.c:2010-2054 | on any drive an accepted name names itself, folded |
| `PathSafety.NeverClimbs` | dos/agent/ragent.c:1979-2009 | from whatever directory, a walk along an accepted name only goes down, by at least one step |
| `PathSafety.TempNamesDiffer` | dos/agent/ragent.c:2066-2105 | the temporaries of different transfers, and of different attempts at one, have different names |
| `Confinement.TempIsBelow` | dos/agent/ragent.c:2066-2105 | a temporary lies in the directory as well |
| `Confinement.PerformStays` | dos/agent/ragent.c:2117-2430 | every request keeps an agent installed for one directory below it: what it opens, and what it changes |
| `Confinement.RunStays` | dos/agent/ragent.c:2117-2430 | over every run of transfers no file outside the directory is created, changed, renamed or removed, whatever names are sent |
| `BiosKeys.BiosDataArea.QueueWord` | dos/agent/ratsr_hooks.asm:204-252 | a word is appended to the 16-slot ring, or the ring is full or insane and nothing changes: no unread word is overwritten |
| `BiosKeys.PrefixesAccepted` | dos/agent/ragent.c:1349-1400 | the queue is left with what it held, the accepted prefix of the text, then the accepted prefix of the keys; a key is accepted only if all text was, and text is cut short only by a full ring |
| `BiosKeys.BiosDataArea.InjectKeys` | dos/agent/ragent.c:1349-1400 | the request is read before its reply is put over it; the ring, the counts and the generation in the reply are those of the accepted prefixes, and a malformed request changes nothing |
| `BiosKeys.BiosDataArea.InjectText` | dos/agent/ragent.c:1369-1382 | how much of the text is accepted: as many words as there was room for |
| `BiosKeys.BiosDataArea.InjectNamed` | dos/agent/ragent.c:1383-1395 | named keys up to the first that has no word or finds the ring full |
| `BiosKeys.Appended` | dos/agent/ratsr_hooks.asm:220-241 | writing the free slot and moving the tail appends exactly that word to the queue the ring stands for |
| `KeyLayout.CharactersByPlace` | dos/agent/ragent.c:1434-1467 | the scan code of a character is the place of its key in the rows of the keyboard, a capital's is its letter's |
| `KeyLayout.NamedByPlace` | dos/agent/ragent.c:1469-1483 | the word of every key the bridge has a name for, by its place and the control character it types; no other number has a word |
| `ResidentBuffer.Agent.ProcessRequest` | dos/agent/ragent.c:840-982 | although the reply is built over the request in one buffer, what is about to go out is the reply the specification gives for the bytes received, the rest of the buffer unchanged |
| `ResidentReplies.RepliesFit` | dos/agent/ragent.c:108-113 | every reply fits 4013 bytes and sixteen fragments |
| `ResidentReplies.PerformFits` | dos/agent/ragent.c:2117-2430 | every transfer reply fits a block reply |
| `ResidentBuffer.Agent.SendResponse` | dos/agent/ragent.c:984-1040 | the record of the reply that goes out, and the watermark set to its identifier |
| `ResidentBuffer.Agent.SendError` | dos/agent/ragent.c:1042-1052 | code and message over the request, and its record |
| `ResidentBuffer.Agent.ResendCached` | dos/agent/ragent.c:1054-1070 | the last reply is due again from its first fragment, if there is one |
| `ResidentBuffer.Agent.ReadTransferBlock` | dos/agent/ragent.c:2141-2172 | DOS reads straight into the buffer behind the place of the header, and the finished reply is that block with its check |
| `ResidentBuffer.Agent.ReadGraphicsBlock` | dos/agent/ragent.c:2394-2430 | the same, byte by byte out of video memory |
| `ResidentBuffer.Agent.EndReadTransfer` | dos/agent/ragent.c:2174-2189 | size and check of a finished download, and its handle closed |
| `ResidentBuffer.Agent.BeginFileRead` | dos/agent/ragent.c:2117-2139 | opening, measuring and rewinding a file, or a refusal that leaves nothing open |
| `ResidentBuffer.Agent.BeginFileWrite` | dos/agent/ragent.c:2191-2223 | the fields of the request are read before the reply is put over them |
| `ResidentBuffer.Agent.CreateTransferTemp` | dos/agent/ragent.c:2066-2105 | sixteen attempts at a new name, none of them the destination |
| `ResidentBuffer.Agent.WriteTransferBlock` | dos/agent/ragent.c:2225-2254 | DOS writes straight out of the request, and the check rolls along it |
| `ResidentBuffer.Agent.CommitFileWrite` | dos/agent/ragent.c:2256-2287 | every check and every DOS call of a commit in order, each with its failure |
| `ResidentBuffer.Agent.AbortTransfer` | dos/agent/ragent.c:2289-2296 | an abort of the transfer it names, or a refusal |
| `ResidentBuffer.Agent.BeginGraphicsTransfer` | dos/agent/ragent.c:2298-2316 | a capture begins only when idle and only of a picture that fits |
| `ResidentProgram.Tsr.IdleWorker` | dos/agent/ragent.c:1635-1739 | the static variables changed in place by one run of the worker are left as the worker function says, in every branch |
| `ResidentProgram.Tsr.TakeTurn` | dos/agent/ragent.c:1635-1739 | a run of the worker on the static variables is an event of the agent's life, whatever the screen shows meanwhile |
| `ResidentProgram.Tsr.TakeFrame` | dos/agent/dmpacket_rx.asm:52-69 | so is a frame that arrives while the slot is free |
| `ResidentProgram.Tsr.ProcessDatagram` | dos/agent/ragent.c:672-721 | which key is tried, which packets start a session, repeat a reply, are refused or are collected |
| `ResidentProgram.Tsr.CollectFragment` | dos/agent/ragent.c:722-753 | a fragment collected in the shared buffer, and the request dispatched when complete |
| `ResidentProgram.Tsr.ValidateDeferred` | dos/agent/ragent.c:761-782 | which held frames are worth holding |
| `ResidentProgram.Tsr.StartSession` | dos/agent/ragent.c:784-838 | a handshake replaces the session and forgets the last reply |
| `Handshake.AgentAgrees` | dos/agent/ragent.c:784-838 | the agent takes the bridge's hello whatever session it has: the answer waits for where it came from, and what the bridge makes of it is the agent's own session, identifier and key; nothing else changes but the record of the last reply |
| `Handshake.AnswerIsSent` | dos/agent/ragent.c:1710-1720 | the run after the one that finds the hello sends that answer, whatever interrupts either comes from and whatever arrived meanwhile |
| `Handshake.SimulatorAgrees` | src/dos_mcp/agent_server.py:181-213 | the simulator takes the same hello, and both come out with the same session and key |
| `ResidentProgram.Tsr.EmitFragment` | dos/agent/ragent.c:1662-1709 | one due fragment is encoded and sent, and the next becomes due |
| `ResidentProgram.Tsr.FillScreenFragment` | dos/agent/ragent.c:1327-1347 | the fragment of a text capture is the screen at the moment it goes out |
| `ResidentWorker.WorkerShaped` | dos/agent/ragent.c:1635-1739 | every run keeps the worker's invariant, the one of the transfers included |
| `ResidentRuns.HeldFrameIsLetGo` | dos/agent/ragent.c:1641-1738 | in every life of the agent, from every reachable state, a frame held for an idle DOS is let go within 546 runs from the timer, whatever the other runs meanwhile |
| `ResidentSafety.KeptStep` | dos/agent/ragent.c:1721-1738 | a run that leaves the slot occupied leaves the same frame and never refreshes the session's last activity |
| `ResidentSafety.HeldExactly` | dos/agent/ragent.c:1721-1738 | a frame stays in the slot if and only if it is an authentic file request, other than the abort of a capture, where DOS may not be entered; every other frame is dealt with at once |
| `ResidentSafety.NoSessionNoTransfer` | dos/agent/ragent.c:1644-1655 | a run that finds no session, 546 ticks after its last request, and may enter DOS leaves no transfer: the last session's is given up |
| `ResidentSafety.AnnouncedExactly` | dos/agent/ragent.c:1656-1661 | an announcement goes out exactly on a run that finds no session, 91 ticks after the last one |
| `ResidentSafety.InstalledAnnounces` | dos/agent/ragent.c:415-417 | the first run after an installation announces the agent |
| `ResidentSafety.CallsAreGated` | dos/agent/ragent.c:1635-1739 | a run where DOS may not be entered makes no DOS call, except exactly one: it dispatches the end of a graphics capture that names a complete file download, and closes that file; all other calls are made inside INT 28h with no critical error |
| `ResidentRuns.DosIsSafe` | dos/agent/ragent.c:1635-1739 | over every life of the agent, of worker runs and arriving frames in any order: every DOS call is made where DOS may be entered if and only if that one request is never dispatched where it may not |
| `ResidentSafety.GraphicsEndClosesFile` | dos/agent/ragent.c:1722-1726 | the exception is real: a reachable kind of state and a datagram for which a timer run closes the file |
| `ResidentSafety.DispatchedOutside` | dos/agent/ragent.c:1722-1738 | where DOS may not be entered no file opcode is dispatched, but for an abort of a capture |
| `ResidentRuns.ReplyGoesOut` | dos/agent/ragent.c:1662-1709 | while the session lasts, successive runs send the fragments of one reply one after the other, all of the same bytes, whatever arrives meanwhile, and the bytes stay to be sent again |
| `ResidentRuns.RepetitionRepeats` | dos/agent/ragent.c:713-716 | the datagrams sent after a repeated request are those sent at first: through any life in between in which no fragment is stored and no refusal or handshake is served |
| `ResidentRuns.ReplyStays` | dos/agent/ragent.c:713-716 | the bytes of the reply and its record stay in the shared buffer until a fragment is stored, a refusal or a handshake is served, or the session ends |
| `ResidentRuns.AnswerGoesOut` | dos/agent/ragent.c:722-753 | a request dispatched by a run is answered by the reply its bytes call for, and the next runs send exactly that reply's fragments |
| `ResidentRuns.InstalledIsUp` | dos/agent/ragent.c:105-126 | the state an installation leaves is one from which all this holds |
| `ResidentSessions.PacketRefines` | dos/agent/ragent.c:688-753 | the agent with its one buffer is the agent of the packet link: every authentic packet of the session, repeated, refused, stored, completing a request or none of these, leaves the record and the last reply the session step says, with the same outcome |
| `ResidentSessions.LifeRefines` | dos/agent/ragent.c:1635-1739 | over every stretch of the agent's life within one session, the packets it takes take the agent of the packet link from where this one stands to where it stands afterwards |
| `ResidentSessions.OutcomeGoesOut` | dos/agent/ragent.c:1662-1739 | what that step says goes out does: the runs after a packet was taken send exactly the fragments of the reply, under the identifier of the packet, and nothing when there is none |
| `ResidentSessions.LifeSettles` | dos/agent/ragent.c:672-753 | from the installation on, the watermark is the identifier of the reply on record, and no part held is longer than a payload |
| `InterruptHooks.RunKeeps` | dos/agent/ratsr_hooks.asm:258-419 | over every run, however interrupts nest: at most one worker under way, the saved stack its own, and entries counted, each once, as runs or skips |
| `InterruptHooks.StepKeeps` | dos/agent/ratsr_hooks.asm:258-419 | every entry, return and switch keeps that |
| `InterruptHooks.InterruptedCodeResumes` | dos/agent/ratsr_hooks.asm:323-365 | when an interrupt is over, at whatever depth, the interrupted code goes on with exactly its stack, segment and pointer, although running code may move to any stack meanwhile |
| `InterruptHooks.WorkerSwitchesBack` | dos/agent/ratsr_hooks.asm:343-354 | the worker's end switches back to the very stack its own hook had when it claimed the worker |
| `InterruptHooks.EntryCountedOnce` | dos/agent/ratsr_hooks.asm:372-419 | an entry by 1Ch or 28h is counted once: as a run exactly if no worker is under way, else as a skip |
| `InterruptHooks.WatchdogKeeps` | dos/agent/ratsr_hooks.asm:270-312 | the turn 08h takes, when 1Ch did not run, is a run or a skip like any other |
| `ReceiveSlot.WaitingFrameUnchanged` | dos/agent/dmpacket_rx.asm:29-72 | a complete frame stays in the buffer as it is until released, and every frame offered meanwhile is counted as dropped |
| `ReceiveSlot.RunKeeps` | dos/agent/dmpacket_rx.asm:29-72 | the one buffer is never granted while a frame waits in it |
| `ReceiveSlot.PacketReceiver.AllocateBuffer` | dos/agent/dmpacket_rx.asm:29-50 | the first upcall, in place: the buffer or a counted drop |
| `ReceiveSlot.PacketReceiver.CompleteFrame` | dos/agent/dmpacket_rx.asm:52-69 | the second upcall, in place |
| `Terminal.SplittingIsInvisible` | src/dos_mcp/terminal.py:41-64 | however input is split among `feed` calls, cells, attributes, cursor and parser state come out the same |
| `Terminal.StepKeeps` | src/dos_mcp/terminal.py:80-219 | after every character the grid has its size, the cursor is inside it and attributes are bytes |
| `Terminal.FeedGrows` | src/dos_mcp/terminal.py:41-64 | every non-empty feed makes a strictly newer generation, an empty one changes nothing |
| `TerminalBuffer.SnapshotConstructs` | src/dos_mcp/models.py:36-52 | a snapshot taken after any input whose control sequences have ASCII digits passes every check of its constructor |
| `TerminalBuffer.Buffer.Feed` | src/dos_mcp/terminal.py:41-64 | the grid changed in place, character by character, is the one of the state machine |
| `TerminalBuffer.Buffer.Take` | src/dos_mcp/terminal.py:80-120 | one character in each parser state |
| `TerminalBuffer.Buffer.Apply` | src/dos_mcp/terminal.py:121-152 | every final of a control sequence, in place, is the step of the state machine whose controls `TerminalControls` states by row, column and cell |
| `TerminalBuffer.Buffer.AdvanceLine` | src/dos_mcp/terminal.py:163-171 | at the bottom the top row goes and a blank one comes |
| `TerminalBuffer.Buffer.PutCharacter` | src/dos_mcp/terminal.py:154-161 | a cell written, and the line advanced after the last column |
| `TerminalBuffer.Buffer.EraseScreen` | src/dos_mcp/terminal.py:173-184 | which cells each mode blanks |
| `TerminalBuffer.Buffer.SetColours` | src/dos_mcp/terminal.py:200-219 | colours and flags after a list of codes |
| `TerminalBuffer.Buffer.Snapshot` | src/dos_mcp/terminal.py:65-78 | it never raises, and is the screen |
| `TerminalPage.ScreenIsWindow` | src/dos_mcp/terminal.py:41-95 | for every input that names no rows of the screen, characters and attributes are the first or last `rows` lines of the page laid out without scrolling, and the cursor is the page's, up by the lines scrolled off |
| `TerminalPage.TextIsWrapped` | src/dos_mcp/terminal.py:154-171 | printable text on a fresh terminal, cell by cell: its last lines, cut every `columns` characters |
| `TerminalControls.CursorMoves` | src/dos_mcp/terminal.py:121-148 | the finals A, B, C, D, G, d, H and f with any decimal numbers, on any screen: where the cursor goes, stopping at the borders, a number that is zero or left out read as one; no cell changes |
| `TerminalControls.EraseBlanks` | src/dos_mcp/terminal.py:173-198 | the finals J and K, cell by cell: which cells are blank in the colours of the moment, that every other cell stays, and that the cursor does |
| `TerminalControls.ColoursSet` | src/dos_mcp/terminal.py:200-219 | the final m with any list of numbers: the colours and flags after each code in turn, by its number |
| `TerminalControls.AttributeFields` | src/dos_mcp/terminal.py:31-36 | the attribute of a cell: foreground, background, intensity and blinking, each in its bits |
| `TerminalControls.CursorShown` | src/dos_mcp/terminal.py:121-132 | the private mode 25 shows and hides the cursor, and no other does anything |
| `TerminalControls.ControlsMove` | src/dos_mcp/terminal.py:80-95 | carriage return, line feeds, backspace and tabulator: where the cursor goes; other controls do nothing |
| `TerminalControls.TitleIsSilent` | src/dos_mcp/terminal.py:97-108 | an operating system command of any length shows nothing and moves nothing |
| `TerminalControls.LongIsDropped` | src/dos_mcp/terminal.py:109-120 | a control sequence of more than 64 characters is dropped as a whole |
| `DmNet.FrameIsDelivered` | dos/agent/dmnet.c:42-112 | every frame built for a peer with up to 1476 bytes is taken by that peer's poll, with the same payload and sender, despite padding |
| `DmNet.FramePositions` | dos/agent/dmnet.c:139-186 | every field of every frame, by the place RFC 894, RFC 791 and RFC 768 give it |
| `DmNet.HighestFirst` | dos/agent/dmnet.c:139-186 | fields are big-endian |
| `DmNet.FrameIsWords` | dos/agent/dmnet.c:139-186 | a frame has at least the minimum length, fits the buffer and is a whole number of words |
| `DmNet.ChecksumVerifies` | dos/agent/dmnet.c:199-213 | a header with its checksum in place sums to a negative zero, by arithmetic modulo 65535 (section 1 of RFC 1071, section 3.1 of RFC 791) |
| `DmNet.IpChecksum` | dos/agent/dmnet.c:199-213 | both loops end and compute the complement of the folded sum |
| `DmNet.Endpoint.SendTo` | dos/agent/dmnet.c:139-186 | the static frame buffer, filled in place, holds that frame, and the identifier advances; a payload that is too long is refused with nothing changed |

## Left out

- Sockets, wall-clock time, threads and random numbers: arrivals per attempt, nonces, drawn transfer identifiers and clock ticks are parameters.
- Order-changing channels: a refused repetition lowers the watermark, so at-most-once holds only where order is kept.
- The handshake as part of the run of `Link`: it replaces the session, so runs start after it. That a handshake leaves both ends with one session is `Handshake`.
- Liveness across lost sessions: the bridge shakes hands only when it holds no session key.
- The simulator's `internal error` branch and replies above 32768 bytes or sixteen agent fragments inside `Link`: answers are taken to fit; that the agent's always do is `ResidentReplies.RepliesFit`.
- ResidentProgram.Tsr.CollectFragment: keeps received lengths as a map from index to length; the bit mask form is `RequestAssembly.Assembly.Collect`.
- ResidentProgram.Tsr.FillScreenFragment: the screen is a parameter of the run; a text capture sent again shows the screen of that moment.
- SessionPrograms.UdpBackend.Request: the branch that shakes hands first when there is no session.
- Handshake.SimulatorAgrees: a hello also ends the simulator's transfer.
- SessionPrograms.SimulatorSession.HandleDatagram: a handshake, and datagrams that do not decode under the session key, which change nothing.
- TransferServer.Simulator.Serve: takes requests as decoded; a payload that does not decode is answered by an error and changes nothing.
- LinkSafety.StopAndWaitIsSafe: a reply sent again is the same; at the agent one of a text capture shows the screen of that moment.
- ResidentSessions.LifeRefines: leaves out the stretches in which a text capture goes out, whose bytes pass through the buffer and may differ when it is sent again.
- LinkedServers.AgentExchanges: only the agent changes the files it works on.
- LinkedServers.ServeAll: the payload codecs of transfers are any that say what the simulator served and answered.
- TerminalBuffer.Buffer.Apply: reads a parameter with digits beyond ASCII as zero, where the code gives them their values or raises.
- TerminalBuffer.Buffer.Take: as `TerminalBuffer.Buffer.Apply`.
- ResidentRuns.HeldFrameIsLetGo: a frame the poll does not hand over as a datagram for this port is not an arrival.
- DosPaths: names are compared folded to upper case and one separator; short and long aliases of one file are not modelled.
- ResidentBuffer.Agent.BeginFileRead: a seek that measures a file counts among the DOS calls that must be gated.
- DmNet.FrameIsDelivered: speaks of frames `send_to` builds; the 16-bit sum of header and datagram length can wrap for a forged frame (`dos/agent/dmnet.c:78`).
- Sha256.ShaContext.Final: messages of 2^32 bytes and more, where the 32-bit length wraps.
- SessionKeys.DeriveSessionKey: nonces are 32-bit words; the bridge would raise for wider ones.
- ARP, broadcast and discovery packets, the message codecs of fixed size, the target registry and the mTCP configuration parser: short case analyses that would only add easy members.
- Installation, unloading, the loader, the multiplex interrupt, packet-driver calls, port input and output, and the video mode table: hardware and foreign code; what a run reads from them is a parameter.
- The foreground shell and its keyboard, the Linux PTY backend, MCP presentation and command lines: thin wrappers.
- Decoding of UTF-8 in `feed_bytes`: the terminal is fed characters.
- The strength of the authenticator and of the key derivation: only equality, permutation and detection are stated.
