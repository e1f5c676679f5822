# Direct-mode bridge: a verified model

The host side of the recompiled client logs in for the guest, hands the guest one secret
map key, follows the key's rollovers from zone to zone, and patches the guest's lobby and
world traffic in place. This project models that behaviour in Dafny and proves what it
promises.

MD5, the security provider, sockets, the clock and random numbers are parameters. MD5 is a
function `md5` from bytes to 16 bytes, and beside it a flag (`up`) saying whether the
provider answers that call. Everything else is the code's own branches, constants and
error conditions.

## How it is laid out

| file | what it models |
|---|---|
| `Bytes.dfy` | bytes, fixed-width integers, little- and big-endian codecs |
| `LobbyPackets.dfy` | the lobby packet codec, its self-excluding identifier and the rewrite of guest packets |
| `CharacterLists.dfy` | the variable-length character list: parser, independent layout, both directions |
| `MapKeys.dfy` | rollover and cipher derivation |
| `WorldDatagrams.dfy` | the frames of a decoded world datagram, and their serialisation |
| `DirectMapKeys.dfy` | the key globals as an object, its entry points, and the datagram walk, one call after the other |
| `MapKeyInterleavings.dfy` | the same entry points on any number of guest threads and one owner thread, one lock operation, atomic access or array byte a step |
| `MapKeyAtomicity.dfy` | an uninterrupted thread of that machine, guest or owner, does what the sequential methods do |
| `Rollovers.dfy` | which packets of a datagram roll the key, read off their ids and sizes |
| `LobbyClient.dfy` | the data exchange over a socket that sends and delivers in arbitrary pieces |
| `KeyAgreement.dfy` | the key an exchange sent against the cipher installed in the guest, over a whole session |
| `TlsReceive.dfy` | receive, decrypt, keep the extra bytes, re-enter the handshake |
| `TlsVerdicts.dfy` | what the TLS receive loop answers, item by item of the uncut stream |
| `TlsCuts.dfy` | which cuts of the stream change the TLS response, from the stream and the cut positions |
| `ViewBootstrap.dfy` | the one-shot view-login injection, one receive after the other |
| `ViewLoginInterleavings.dfy` | the injection on any number of threads, with the guest's own sends and receives beside it |
| `LoginAttempts.dfy` | how often that machine can send, and when its pieces stay one login |
| `ViewLoginAtomicity.dfy` | an uninterrupted receive of that machine does what the sequential one does |
| `LobbyBridge.dfy` | key hand-over, in-place rewrite and duplicate suppression of the bridge |
| `WorldLogin.dfy` | the transactional repair of a world login, and the endpoint repair |
| `PolResolver.dfy` | the resolver thunks over the guest's service table |
| `Descriptors.dfy` | the connection-slot scan and the synthesised descriptor |

Every predicate and constant a theorem is stated through is also pinned by a statement in
plain bytes and numbers (`...InBytes`, `...Exactly`, `...Fields`, and the closed forms), and
every interleaved machine by runs it can make.

State the code updates in place is a class or an array here, and each method is tied to a
function of the old state; the theorems are about those functions, so they hold of the
methods. Runs are lists of actions, and a theorem about runs is about every list.

## Where the code does less than one would expect

Three properties do not hold of the code as it stands. The model follows the code, shows
the failing input, and states exactly when the property holds.

- TLS reassembly depends on how the server's bytes are cut if the provider may report a
  post-handshake message that took its whole buffer: the code then finds no EXTRA buffer
  and gives up, while the same bytes followed by more in one receive succeed
  (`TlsReceive.WithoutTheMessageCutsMatter`). With a provider that decides a record or a
  message as soon as its last byte is there, the response is the uncut stream's exactly
  when no receive ends at the end of a post-handshake message that comes before the
  verdict, or when that verdict is the same failure
  (`TlsCuts.ResultIsTheStreamsUnlessCutAtAMessageEnd`); and every cut of a stream gives one
  response exactly when it holds no such message, or ends in that failure anyway
  (`TlsCuts.EveryCutAgreesExactlyWithoutMessages`). A provider that leaves the message as
  EXTRA never gets there (`TlsReceive.CutsDoNotMatter`).
- The bootstrap may send twice. It clears the sent flag of a failed send before it stores
  the failure, so a second thread that has tested for failure already sends the whole login
  behind the piece the first one left (`LoginAttempts.TwoThreadsCanBreakTheStream`). A run
  sends once if no thread is past that test while the flag of an earlier send is clear
  (`LoginAttempts.UnexposedRunsSendOnce`), from every state where one is, two steps send
  again (`LoginAttempts.ExposedRunsSendAgain`), and all runs send once exactly when at most
  one thread uses the hook (`LoginAttempts.SendsOnceExactlyAlone`).
- The resolver tests only the begin slot to see whether it is installed. If the guest
  rewrites some slots but not all three, the next install either leaves a slot to the guest
  or records a thunk as its own original, which then forwards to itself for ever
  (`PolResolver.SelfOriginalNeverReturns`). Hooks are back in force exactly when all three
  slots were rewritten or none
  (`PolResolver.ReinstallServesExactlyAfterFullRewrites`).

## What the environment is assumed to do

- One owner thread issues Configure and Clear of the map key. Atomics are sequentially
  consistent. The interleaved view bootstrap is armed once, before its threads start.
- The TLS provider looks at a message only as far as the message goes, consumes at least
  one and at most all of the bytes it is shown for a record or a handshake step, and
  decides before the buffer passes 1 MiB - 16 KiB (records are bounded by section 5.2 of
  RFC 8446). The segmentation lemmas use all three, the methods only the second. The
  lemmas of `TlsCuts.dfy` also take it to decide at the last byte of what it decides.
- The function dispatcher hands out addresses that were not in use. The guest's own
  targets are functions of the guest.

## Model

| member | source | states |
|---|---|---|
| LobbyPackets.MakeDataBind | src/login/lobby_packets.cpp:175-182 | the array built in place is the tag, eleven zeros and the session hash |
| LobbyPackets.MakeDataAccountRequest | src/login/lobby_packets.cpp:184-194 | the array built in place is the tag, little-endian account id, server address, padding and hash |
| LobbyPackets.MakeDataSelectionRequest | src/login/lobby_packets.cpp:196-203 | the array built in place is the tag, the key and padding |
| LobbyPackets.DataRequestFields | src/login/lobby_packets.cpp:175-203 | tags 0xFE, 0xA1, 0xA2, and account id, address, hash and key read back at their offsets, zeros elsewhere |
| LobbyPackets.ViewLoginFields | src/login/lobby_packets.cpp:241-252 | size, marker, command, hash and version of the login in bytes, zeros elsewhere |
| LobbyPackets.SelectionRequestCarriesKey | src/login/lobby_packets.cpp:196-203 | bytes 1..20 of any selection request are the whole key |
| LobbyPackets.MakeViewLogin | src/login/lobby_packets.cpp:241-252 | the 152-byte login: size, terminator, command, hash at 12 and version at 116, zero elsewhere |
| LobbyPackets.ViewLoginIsItsOwnImage | src/login/lobby_packets.cpp:241-252 | sent to the view port, the login the host builds is left as it is by the rewrite of guest sends |
| LobbyPackets.ValidateLobbyHeader | src/login/lobby_packets.cpp:47-69 | accepted if and only if long enough, size field between the minimum and the buffer, right terminator, right command; the value is the size field |
| LobbyPackets.IdentifierVerdict | src/login/lobby_packets.cpp:71-84 | behind a header check the identifier check never reports truncation or a bad size: it passes if and only if MD5 answered and the stored digest is that of the image with the field zeroed |
| LobbyPackets.HashInputByte | src/login/lobby_packets.cpp:150-173 | the hashed image is the packet with bytes 12..27 zero |
| LobbyPackets.IdentifierExactly | src/login/lobby_packets.cpp:150-173 | every answer of the identifier calculation in numbers, errors in their order, and the image the digest is of |
| LobbyPackets.StampingIsAFixpoint | src/login/lobby_packets.cpp:150-173 | the calculated identifier ignores its own field, so writing it there gives a packet that validates |
| LobbyPackets.SameIdentifierIsACollision | src/login/lobby_packets.cpp:71-84 | two accepted packets with one identifier that differ elsewhere inside their sizes are an explicit hash collision |
| LobbyPackets.PrepareLobbySend | src/login/lobby_packets.cpp:118-148 | succeeds exactly when the rewrite is defined and then outputs it; otherwise the output is empty |
| LobbyPackets.PreparedExactly | src/login/lobby_packets.cpp:118-148 | which packets are rewritten, if and only if: port, 28 bytes, marker, one of nine commands, and for 0x26 the view port and 152 bytes |
| LobbyPackets.PreparedIsFramed | src/login/lobby_packets.cpp:118-148 | same length, same command, the hash at 12..27, for command 0x26 the version at 116..125, every other byte the source's |
| LobbyPackets.PreparingTwiceIsPreparingOnce | src/login/lobby_packets.cpp:118-148 | preparing a prepared packet is the identity |
| LobbyPackets.KeyResponsesAccepted | src/login/lobby_packets.cpp:254-282 | which buffers hold a key response, if and only if, and the three fields read from it |
| LobbyPackets.KeyResponseErrors | src/login/lobby_packets.cpp:254-277 | which error a refused key response gives, in a fixed order |
| LobbyPackets.KeyResponseRoundTrip | src/login/lobby_packets.cpp:254-282 | a stamped 40-byte key response is complete and parses to what was encoded |
| LobbyPackets.CompleteKeyResponseIsStamped | src/login/lobby_packets.cpp:254-282 | conversely a complete key response is the stamped encoding of what it parses to |
| CharacterLists.ParseCharacterList | src/login/lobby_packets.cpp:284-326 | the loop returns the first error in the fixed order, or the entries the independent definition reads |
| CharacterLists.ReadEntry | src/login/lobby_packets.cpp:314-323 | one entry: id, status, and the name up to the first zero of its 16 bytes |
| CharacterLists.EntryFields | src/login/lobby_packets.cpp:312-323 | entry i has its id at 32 + 140i, its status 8 and its name 12 bytes further on |
| CharacterLists.CharacterListRoundTrip | src/login/lobby_packets.cpp:284-326 | parsing a laid-out, stamped list, whatever the fillers and whatever follows it, returns exactly that list |
| CharacterLists.AcceptedLists | src/login/lobby_packets.cpp:284-326 | which buffers are accepted, if and only if: size exactly 32 + 140 times a count of at most 16, inside the buffer, right terminator, command and digest |
| CharacterLists.AcceptedListIsLaidOut | src/login/lobby_packets.cpp:284-326 | conversely every accepted buffer is a laid-out, stamped list with whatever follows it |
| CharacterLists.ParserStaysInsideDeclaredSize | src/login/lobby_packets.cpp:284-326 | replacing everything after the declared size cannot change the result |
| CharacterLists.ErrorPrecedence | src/login/lobby_packets.cpp:284-326 | which error is reported, in a fixed order in which the identifier check only adds its own two |
| MapKeys.AdvanceByClosedForm | src/login/lobby_packets.cpp:218-224 | n rollovers keep bytes 0..15 and add 2n modulo 2^32 to the word at offset 16 |
| MapKeys.RolloverPeriod | src/login/lobby_packets.cpp:218-224 | n rollovers give the key back if and only if 2^31 divides n |
| MapKeys.AdvanceMapSessionKey | src/login/lobby_packets.cpp:218-224 | the in-place rollover is the rollover function |
| MapKeys.DerivedByte | src/login/lobby_packets.cpp:226-239 | each cipher byte is the digest's if no digest byte up to it is zero, and zero otherwise |
| MapKeys.DeriveMapCipherKey | src/login/lobby_packets.cpp:226-239 | writes the derived block in place, or zeros when MD5 fails |
| WorldDatagrams.ReadFrameHeader | src/runtime/revana_hooks.cpp:1465-1473 | the masked header arithmetic is id = header mod 512 and size = 4 times (header div 512), and decides the next step of the decomposition |
| WorldDatagrams.Decomposition | src/runtime/revana_hooks.cpp:1463-1566 | every frame of the greedy decomposition lies inside the datagram and is at least four bytes |
| WorldDatagrams.FramesReserialise | src/runtime/revana_hooks.cpp:1463-1566 | conversely, from any offset of any datagram, the frames are well-formed packets whose serialisation is exactly the bytes they cover |
| WorldDatagrams.WalkReturnsWhatWasSerialised | src/runtime/revana_hooks.cpp:1453-1566 | walking a serialised packet list visits exactly its frames, in order, up to the limit of 64, each with the id and size it was written with |
| DirectMapKeys.DirectMapKey.Configure | src/runtime/revana_hooks.cpp:2102-2143 | all or nothing: on a bad key or a failed derivation nothing changes, else key, cipher and flags are the configured ones |
| DirectMapKeys.DirectMapKey.Clear | src/runtime/revana_hooks.cpp:2145-2152 | keys zero, flags false |
| DirectMapKeys.DirectMapKey.Advance | src/runtime/revana_hooks.cpp:500-542 | rolls exactly when enabled, not pending and derived; else the state is unchanged; both results |
| DirectMapKeys.DirectMapKey.Apply | src/runtime/revana_hooks.cpp:1394-1424 | copies the cipher block to a nonzero destination when enabled, and touches no other byte of guest memory |
| DirectMapKeys.DirectMapKey.Walk | src/runtime/revana_hooks.cpp:1458-1567 | the loop visits the first 64 frames of the decomposition and leaves the key state at the fold of their events |
| DirectMapKeys.DirectMapKey.ReceiveDecodeResult | src/runtime/revana_hooks.cpp:1426-1567 | the whole decode hook with its gates on result range, tracing and enabled flag |
| KeyAgreement.DatagramsAgree | src/runtime/revana_hooks.cpp:500-542 | after any datagrams the keys are the configured key advanced by the rollover gate's count, the gate being defined without any key |
| KeyAgreement.BurstRollsAtMostOnce | src/runtime/revana_hooks.cpp:1490-1507 | any frames without a full-size login response roll the key at most once, and not at all while pending |
| Rollovers.GateClosedForm | src/runtime/revana_hooks.cpp:1490-1507 | for any frames: rollovers are the derived 0x00B frames with a 0x00A frame of at least 32 bytes between them and every earlier one, and pending is left exactly when one is unanswered |
| Rollovers.DatagramRollsTheKey | src/runtime/revana_hooks.cpp:1453-1566 | a serialised datagram of up to 64 packets leaves the configured key advanced by exactly its packets of that kind |
| Rollovers.TwoHandoffs | src/runtime/revana_hooks.cpp:1490-1507 | handoff, login response, handoff: two rollovers if the response has 8 words or more, one if fewer |
| Rollovers.OtherResultsDoNothing | src/runtime/revana_hooks.cpp:1453-1456 | results outside 1..10000 change nothing |
| Rollovers.DisabledKeysStay | src/runtime/revana_hooks.cpp:1426-1440 | without an enabled key no datagram moves it, and untraced none changes anything |
| KeyAgreement.HistoriesJoin | src/runtime/revana_hooks.cpp:500-542 | the key after two datagram histories is the key after the first, advanced by the rollovers the second gets through from the pending flag it finds |
| KeyAgreement.CipherAgreesWithTheWire | src/login/lobby_packets.cpp:196-239 | whatever prefix of the exchange was sent, once the key is out: after any datagrams the cipher is derived from the key read off it, bytes 0..15 unchanged and the word at 16 increased by 2n |
| KeyAgreement.CopiedBlocksAgreeWithTheWire | src/runtime/revana_hooks.cpp:1394-1418 | the same for every block copied in any interleaving of threads |
| KeyAgreement.RunSession | src/runtime/lobby_bridge.cpp:278-361 | the session composed: hand-over, exchange, datagrams, handoff; once the socket sent the key, the sixteen bytes in guest memory are the cipher of what it sent, advanced, and a refused hand-over sends and writes nothing |
| KeyAgreement.HandOver | src/runtime/revana_hooks.cpp:1394-1418 | the sixteen bytes a handoff leaves in guest memory after any datagrams are the cipher of the wire's key, advanced |
| MapKeyInterleavings.EveryRunKeepsInv | src/runtime/revana_hooks.cpp:500-542 | mutual exclusion, half-written arrays and flags are as described by the invariant in every reachable state |
| MapKeyInterleavings.CopiedBlocksAreCurrent | src/runtime/revana_hooks.cpp:1394-1418 | in every run every copied block is the cipher of the configured key advanced by the advances completed since: nothing torn, nothing stale |
| MapKeyInterleavings.AdvancesAreSeparated | src/runtime/revana_hooks.cpp:1503-1507 | in every run, even with the unlocked store, two advances have a store of pending = false between them |
| MapKeyInterleavings.FreeAndEnabledMeansCurrent | src/runtime/revana_hooks.cpp:2102-2152 | whenever the lock is free and the machine enabled, the two arrays belong together and are current |
| MapKeyInterleavings.FailedDerivationChangesNothing | src/runtime/revana_hooks.cpp:516-527 | over runs: whatever other threads do between a failed derivation and that thread's release, every key byte is as it was, pending was not set, and no advance, configuration, clear or copy happened |
| MapKeyInterleavings.OthersRunAround | src/runtime/revana_hooks.cpp:503-542 | while a guest thread holds the lock, no run of the others touches a key byte, sets pending or logs anything but the unlocked store |
| MapKeyInterleavings.KeyInForceClosedForm | src/runtime/revana_hooks.cpp:513-530 | the key in force after a history is the last configured one, advanced once per advance since |
| MapKeyAtomicity.SoloAdvanceIsAtomic | src/runtime/revana_hooks.cpp:500-542 | an uninterrupted advance of the fine-grained machine ends in exactly the state the sequential advance gives |
| MapKeyAtomicity.SoloApplyIsAtomic | src/runtime/revana_hooks.cpp:1394-1424 | an uninterrupted handoff copies the whole block of the state it locked, or nothing when the flag is off by then |
| MapKeyAtomicity.SoloConfigureIsAtomic | src/runtime/revana_hooks.cpp:2102-2143 | an uninterrupted Configure ends in the state the sequential one gives, refused or not |
| MapKeyAtomicity.SoloClearIsAtomic | src/runtime/revana_hooks.cpp:2145-2152 | an uninterrupted Clear ends in the cleared state |
| MapKeyAtomicity.AdvanceFromIdle | src/runtime/revana_hooks.cpp:500-542 | from any state with the lock free, an idle thread called to advance comes back idle in exactly the sequential state |
| MapKeyAtomicity.ApplyFromIdle | src/runtime/revana_hooks.cpp:1394-1424 | from any enabled state with the lock free, an idle thread called to hand off copies the cipher and comes back idle |
| MapKeyAtomicity.WorldLoginFromIdle | src/runtime/revana_hooks.cpp:1503-1507 | a login response stores pending = false, whoever holds the lock, and changes nothing else |
| MapKeyAtomicity.FramesAreRuns | src/runtime/revana_hooks.cpp:1463-1566 | every frame history is a run of the machine that ends in the key state of the sequential fold |
| MapKeyAtomicity.TwoRolloversAndAHandoff | src/runtime/revana_hooks.cpp:500-542 | for every key a run configures it, rolls over, is answered, rolls over and copies the cipher of the key two rollovers on |
| MapKeyAtomicity.EnabledIsReachable | src/runtime/revana_hooks.cpp:2102-2143 | from start-up the fine-grained machine reaches an enabled state with any key |
| LobbyClient.SendAll | src/login/lobby_client.cpp:257-271 | puts a prefix on the wire, all of it if and only if it returns true |
| LobbyClient.ReceiveExact | src/login/lobby_client.cpp:273-287 | true if and only if the buffer was filled, with exactly the next stream bytes |
| LobbyClient.ReceiveExactUntil | src/login/lobby_client.cpp:297-337 | terminates by bytes left and time left; complete exactly when the buffer is full, whatever clock and stop token say then; takes only stream bytes; a stop or a deadline already there is noticed before any; each failing answer only for its cause |
| LobbyClient.CoordinateCharacterLoginData | src/login/lobby_client.cpp:350-473 | reads nothing beyond byte 338, sends a prefix of the three messages, each only after what asks for it was accepted, reports the first failing stage and for its cause, and on a network that delivers in time succeeds exactly on the literal bytes 01 00 00 00 00, list 03 with a count of at most 16, 02 00 00 00 00, with that count |
| LobbyClient.OutcomeInBytes | src/login/lobby_client.cpp:396-464 | the outcome of every stream, stage and error included, on its bytes |
| LobbyClient.TriggerInBytes | src/login/lobby_client.cpp:402-406 | a trigger is the five bytes tag, 0, 0, 0, 0 |
| LobbyClient.SentInOrderInBytes | src/login/lobby_client.cpp:389-471 | what had been received before byte 28 and before byte 56 was sent, on the bytes |
| LobbyClient.ValidInputInBytes | src/login/lobby_client.cpp:353-369 | which inputs are refused, if and only if |
| LobbyClient.WireInBytes | src/login/lobby_client.cpp:389-466 | the three messages in their order by their tags, with hash, account id, address and key in place |
| LobbyClient.OutcomeIsOkExactlyOnAcceptedPrefixes | src/login/lobby_client.cpp:389-472 | that function succeeds if and only if the first 338 bytes are trigger, list, trigger, returns byte 1 of the list, and ignores all later bytes |
| TlsReceive.EncryptedBuffer.PreserveExtra | src/login/auth_client.cpp:663-674 | the buffer becomes its last extra bytes, in place |
| TlsReceive.TlsConnection.Receive | src/login/auth_client.cpp:693-708 | appends one piece if there is room for a whole chunk, so the buffer never passes 1 MiB |
| TlsReceive.TlsConnection.ContinueHandshake | src/login/auth_client.cpp:535-601 | terminates and leaves exactly what the handshake function says, the leftover bytes pending |
| TlsReceive.Continued | src/login/auth_client.cpp:535-601 | a successful handshake makes progress and conserves consumed ++ buffer ++ still to come |
| TlsReceive.OneTurn | src/login/auth_client.cpp:535-601 | what the handshake does for each answer of the provider: receive more, fail, finish or go on |
| TlsReceive.TlsConnection.ReceiveJson | src/login/auth_client.cpp:424-532 | terminates across the nested loop, equals the receive function, and never reaches its last line |
| TlsVerdicts.ReceiveAnswers | src/login/auth_client.cpp:429-531 | with any records and messages that did not stop it behind it: I/O failure on a close without plaintext, malformed response on a close with some, I/O failure inside a record, TLS failure when the provider or a handshake fails, too large over 16384 bytes, success on complete JSON |
| TlsVerdicts.CloseAnswers | src/login/auth_client.cpp:431-436 | a server that closes at once, and one that closes after unfinished plaintext |
| TlsReceive.HandshakeIgnoresCuts | src/login/auth_client.cpp:535-601 | the handshake loop consumes the same bytes however the stream is cut |
| TlsReceive.ReceiveIgnoresCuts | src/login/auth_client.cpp:424-532 | however the stream is cut, the result is the verdict on the uncut stream's records, unless a message was swallowed |
| TlsReceive.FirstStopDecides | src/login/auth_client.cpp:500-531 | the verdict: the shortest record-aligned plaintext that is complete or too long decides, else how the stream ends |
| TlsReceive.ResultIsTheStreamsUnlessSwallowed | src/login/auth_client.cpp:476-494 | for any provider, the result is that of the uncut stream exactly when the loop takes no message without EXTRA bytes, or the stream fails the same way |
| TlsCuts.ResultIsTheStreamsUnlessCutAtAMessageEnd | src/login/auth_client.cpp:476-494 | for a prompt provider, exactly when no receive ends at an offset at which the uncut stream ends a message before its verdict, or the stream fails the same way |
| TlsCuts.EveryCutAgreesExactlyWithoutMessages | src/login/auth_client.cpp:424-532 | all cuts of a stream give one result if and only if no message ends before its verdict, or that verdict is the failure |
| TlsCuts.BoundaryIsASumOfPieces | src/login/auth_client.cpp:693-708 | the offsets at which receives end are the buffered bytes plus the leading piece lengths |
| TlsCuts.HandshakeKeepsBoundaries | src/login/auth_client.cpp:535-601 | the handshake loop keeps every receive boundary past the bytes it consumes |
| TlsReceive.MessagesLeftAreNotSwallowed | src/login/auth_client.cpp:476-494 | a provider that leaves a post-handshake message as EXTRA never has it swallowed |
| TlsReceive.CutsDoNotMatter | src/login/auth_client.cpp:424-532 | with such a provider any two ways of cutting one stream give one result |
| TlsCuts.SwallowingIsPrompt | src/login/auth_client.cpp:476-494 | the provider of the counterexample is prompt, so the exact condition applies to it |
| TlsCuts.LeavingLeavesMessages | src/login/auth_client.cpp:476-494 | a provider that meets the contract and leaves its messages exists |
| TlsReceive.WithoutTheMessageCutsMatter | src/login/auth_client.cpp:476-494 | without it the same bytes fail or succeed with the cut: a concrete stream |
| ViewBootstrap.DirectViewBootstrap.Configure | src/runtime/revana_hooks.cpp:2081-2100 | arms everything or changes nothing |
| ViewBootstrap.DirectViewBootstrap.OnFourByteReceive | src/runtime/revana_hooks.cpp:2410-2500 | the flags, the packet and the send calls of one receive |
| ViewBootstrap.DirectViewBootstrap.AwaitAnswer | src/runtime/revana_hooks.cpp:2461-2481 | true if and only if some of the 500 peeks shows a complete response before a close |
| ViewBootstrap.FirstMatchDecides | src/runtime/revana_hooks.cpp:2427-2500 | the first matching receive sets exactly one of ready and failed; ready, sent and wiped each if and only if stated |
| ViewBootstrap.AnsweredExactly | src/runtime/revana_hooks.cpp:2464-2481 | an answer is a peek of 40 bytes that is a complete response, among 500 and before any peek of none |
| ViewBootstrap.OthersDoNothing | src/runtime/revana_hooks.cpp:2412-2432 | a receive of another size or on another socket changes and sends nothing |
| ViewBootstrap.SettledIsAbsorbing | src/runtime/revana_hooks.cpp:2427-2429 | a settled bootstrap never changes and never sends again |
| ViewBootstrap.RunIsItsFirstMatch | src/runtime/revana_hooks.cpp:2427-2500 | a whole run equals its first matching receive, and hands the login over once |
| ViewBootstrap.RunWithoutMatchStaysArmed | src/runtime/revana_hooks.cpp:2412-2432 | without a matching receive nothing changes and nothing is sent |
| ViewLoginInterleavings.AtMostOneFullSend | src/runtime/revana_hooks.cpp:2433-2456 | on any threads at most one full login leaves the host, and the packet is touched only after it |
| ViewLoginInterleavings.HostSendsOnlyTheLogin | src/runtime/revana_hooks.cpp:2436-2438 | every injected byte string is a prefix of the armed login, and none follows a full one |
| ViewLoginInterleavings.ReadyMeansAPeekPassed | src/runtime/revana_hooks.cpp:2465-2486 | ready is set only after a peek saw a complete key response as the next undelivered bytes |
| ViewLoginInterleavings.GuestStreamIsIntact | src/runtime/revana_hooks.cpp:2468-2469 | what the server delivered is what the guest received and what still waits; the hook only peeks, so for it this is by construction |
| ViewLoginInterleavings.ServerSeesEachLoginOnce | src/runtime/lobby_bridge.cpp:410-427 | of g guest logins one is consumed, so with i whole injected ones g - 1 + i whole logins go to the server, in any order |
| LoginAttempts.ServerGetsEachLoginOnce | src/runtime/lobby_bridge.cpp:410-427 | the same over the guest's actual sends: g of them are 152 bytes to the view port with command 26 00 00 00, and g - 1 + i whole logins go to the server |
| LoginAttempts.UnexposedRunsSendOnce | src/runtime/revana_hooks.cpp:2433-2456 | a run in which no thread is past its failed test while an earlier send's flag is clear sends at most once, all injected bytes are a beginning of the login, and the whole login alone when a full send is counted |
| LoginAttempts.ExposedRunsSendAgain | src/runtime/revana_hooks.cpp:2439-2444 | from every state where one is, two steps send the packet again behind what was injected |
| LoginAttempts.SendsOnceExactlyAlone | src/runtime/revana_hooks.cpp:2427-2456 | all runs make at most one send if and only if at most one thread uses the hook |
| LoginAttempts.TwoThreadsSendTwice | src/runtime/revana_hooks.cpp:2439-2444 | the run: with two threads a piece of any length and then the whole login go out |
| LoginAttempts.TwoThreadsCanBreakTheStream | src/runtime/revana_hooks.cpp:2439-2444 | with the real packet the injected bytes then do not begin with a login |
| ViewLoginAtomicity.SoloReceiveIsSequential | src/runtime/revana_hooks.cpp:2410-2500 | any uninterrupted receive of the fine-grained machine, matching or not, settled or not, ends with exactly the flags and packet of the sequential one |
| ViewLoginAtomicity.ReadyIsReachable | src/runtime/revana_hooks.cpp:2427-2486 | the run it is for: login out and wiped, ready, and the guest still receives the whole response |
| LobbyBridge.Bridge.Configure | src/runtime/lobby_bridge.cpp:278-315 | arms keys, endpoint, bootstrap and suppression with one key, or leaves keys and endpoint clear and nothing pending |
| LobbyBridge.Bridge.BeforeSend | src/runtime/lobby_bridge.cpp:391-409 | the guest's buffer becomes its prepared form, or stays |
| LobbyBridge.Bridge.ConsumeSend | src/runtime/lobby_bridge.cpp:410-427 | consumes a view login exactly when pending, and clears pending by it |
| LobbyBridge.ConsumedInBytes | src/runtime/lobby_bridge.cpp:413-420 | consumed if and only if pending, to the view port, 152 bytes and 26 00 00 00 at offset 8 |
| LobbyBridge.ViewLoginsAreConsumed | src/runtime/lobby_bridge.cpp:413-420 | every login the host could build, rewritten or not, is consumed on the view port |
| LobbyBridge.OnlyTheFirstViewLoginIsConsumed | src/runtime/lobby_bridge.cpp:410-427 | over any list of guest sends exactly the first view login is held back and all else passes in order |
| LobbyBridge.RewriteKeepsClassification | src/runtime/lobby_bridge.cpp:391-427 | the rewrite cannot change what is a view login, so the order of the two hooks does not matter |
| WorldLogin.RestoreWorldLoginCharacterId | src/runtime/revana_hooks.cpp:950-1007 | true exactly when a login needs restoring and the digest is available; false leaves every byte, the rollback included |
| WorldLogin.NeedsRestoringInBytes | src/runtime/revana_hooks.cpp:954-967 | which logins need it, on their bytes: id 0x00A, three ID bytes as stored, the fourth not, no zero ID |
| WorldLogin.ShortLoginsStay | src/runtime/revana_hooks.cpp:954-967 | packets below 136 bytes, and a stored ID of zero, never do |
| WorldLogin.RestoredPacket | src/runtime/revana_hooks.cpp:969-995 | only byte 43, byte 32 and the trailer change; the id is the full one, byte 32 the sum of 36..119 modulo 256, the trailer the digest of what is between |
| WorldLogin.RestoringIsDone | src/runtime/revana_hooks.cpp:960-967 | a restored packet needs no restoring for the same stored id |
| WorldLogin.Sum8IsSumMod256 | src/runtime/revana_hooks.cpp:975-982 | the wrapping accumulator holds the true sum modulo 256 |
| WorldLogin.LoginCheck | src/runtime/revana_hooks.cpp:975-982 | the check loop computes that sum of bytes 36..119 |
| WorldLogin.DirectMapEndpoint.Configure | src/runtime/revana_hooks.cpp:2154-2166 | accepts exactly usable endpoints, and changes nothing otherwise |
| WorldLogin.DirectMapEndpoint.RepairTarget | src/runtime/revana_hooks.cpp:1834-1851 | a target without a usable port gets the configured endpoint, any other and every later byte is kept; afterwards it lacks none |
| WorldLogin.DirectMapEndpoint.OnSendTarget | src/runtime/revana_hooks.cpp:1812-1851 | the whole send hook: nothing for a missing packet, a missing or a short target; else both repairs, each on its own buffer |
| PolResolver.DirectPolResolver.Install | src/runtime/revana_hooks.cpp:367-449 | all-or-nothing install over the three slots, with every early return |
| PolResolver.GuestStringEquals | src/runtime/revana_hooks.cpp:170-189 | equality with a guest string, reading up to the first difference or through the terminator and needing no more memory than that |
| PolResolver.TerminatedIsComparable | src/runtime/revana_hooks.cpp:178-188 | every terminated guest string has the memory that comparison needs |
| PolResolver.DirectPolResolver.OnBegin | src/runtime/revana_hooks.cpp:315-330 | the retail hostname gets the handle, any other call goes to the recorded original |
| PolResolver.DirectPolResolver.OnPoll | src/runtime/revana_hooks.cpp:332-353 | the handle gets a 20-byte record with the configured address and nothing else is written; other handles are forwarded |
| PolResolver.DirectPolResolver.OnCancel | src/runtime/revana_hooks.cpp:355-365 | the handle is released, others are forwarded |
| PolResolver.RetailHostname | src/runtime/revana_hooks.cpp:102 | the hostname is "ffxi00.pol.com" |
| PolResolver.HookAnswers | src/runtime/revana_hooks.cpp:315-365 | what each hook answers, in numbers, and which calls it forwards |
| PolResolver.RetailLookup | src/runtime/revana_hooks.cpp:315-365 | the handle begin answers is the one poll and cancel take for theirs |
| PolResolver.HostRecordFields | src/runtime/revana_hooks.cpp:345-350 | the address reads back big-endian at offset 4 of a record otherwise zero |
| PolResolver.FirstInstall | src/runtime/revana_hooks.cpp:401-448 | the first install on a complete table with thunks returns true, keeps the originals and installs all three |
| PolResolver.TwoInstalls | src/runtime/revana_hooks.cpp:367-449 | install, rewrite by the guest, install again: the second keeps the new targets as originals, and each time a foreign call reaches what the guest had put there |
| PolResolver.FailedInstallChangesNoSlot | src/runtime/revana_hooks.cpp:367-427 | when an install returns false, if and only if, and that it then changes no slot, original or thunk |
| PolResolver.RunKeepsInv | src/runtime/revana_hooks.cpp:367-449 | over any run with full rewrites the originals are the guest's own last targets, never thunks |
| PolResolver.ForeignCallsSeeOnlyTheGuest | src/runtime/revana_hooks.cpp:191-206 | after any such run a foreign call reaches the function the guest last put in that slot, through at most one forward |
| PolResolver.InstallAnswersTheRetailLobby | src/runtime/revana_hooks.cpp:315-365 | after an install that returned true the retail lobby's calls are answered without the guest |
| PolResolver.InstallIsReentrant | src/runtime/revana_hooks.cpp:393-399 | installing again changes and allocates nothing |
| PolResolver.SelfOriginalNeverReturns | src/runtime/revana_hooks.cpp:191-206 | a thunk recorded as its own original forwards foreign calls for ever |
| PolResolver.ReinstallServesExactlyAfterFullRewrites | src/runtime/revana_hooks.cpp:393-442 | after a partial rewrite and a reinstall the hooks are in force if and only if all three slots were rewritten or none |
| Descriptors.EndpointIsConcatenation | src/runtime/revana_hooks.cpp:1159-1166 | the two masked rotations are ((low or byte shifted by 8) shifted by 16) or high |
| Descriptors.ConnectionTable.Scan | src/runtime/revana_hooks.cpp:1129-1144 | the exact number of active slots and the least of them |
| Descriptors.ConnectionTable.OnLookup | src/runtime/revana_hooks.cpp:1061-1175 | synthesises only on a negative result with no active slot, and says what then changes |
| Descriptors.SynthesisesExactly | src/runtime/revana_hooks.cpp:1110-1157 | when a descriptor is synthesised, if and only if, in numbers and bytes |
| Descriptors.DescriptorFields | src/runtime/revana_hooks.cpp:1167-1171 | status, endpoint and identifier read back from the bytes written |
| Descriptors.SynthesisActivatesTheFirstSlot | src/runtime/revana_hooks.cpp:1167-1174 | afterwards the first slot and no other is active |
| Descriptors.NoSynthesisWhileActive | src/runtime/revana_hooks.cpp:1156-1157 | no further synthesis while the guest leaves that slot active |
| Descriptors.SynthesesAreBounded | src/runtime/revana_hooks.cpp:1156-1174 | over any run at most one synthesis more than the guest clears the first slot |

## Left out

- Logging and the tracing-only hooks: they read and report. Tracing appears only where it gates the datagram walk.
- Winsock, Schannel, BCrypt, DNS and certificate pins: parameters and oracles. Starting the network library, resolving and connecting are one value, `Connection`.
- In the TLS handshake, a failed reply to the server and a failed query of the stream sizes count as a refusal by the provider.
- An EXTRA buffer of zero length beside a post-handshake report is not told apart from none at all.
- JSON text: completeness is an abstract predicate, so its parsing and escaping are not modelled.
- EncodeLoginAttempt, DecodeLoginResponse, ParsePort, ParseCertificatePin and the hostname patterns: single range checks.
- Generating the map key is a parameter of the hand-over; wiping local copies of secrets is not modelled, wiping shared ones is.
- The send loop of the authentication client: line by line the one proved as `LobbyClient.SendAll`.
- Memory orders weaker than sequential consistency, and Configure interleaved with Clear: there is one owner thread.
- Guest memory beyond the bytes a hook touches, address translation, and bringing up the guest's network state, which is a flag of the call.
- The order in which the emulator calls the two send hooks: results hold in either order.
- The data thread's start and stop token, and the packaging and build scripts.
- LobbyBridge.Bridge.Configure: models the one call the application makes, on a bridge that is not configured yet (what a second call leaves depends on when the emulator drops the first call's hooks, whose last owner clears keys and endpoint); the branch for a bootstrap that refuses its packet is dead, since ports are not zero and the packet has the right size.
- TlsReceive.CutsDoNotMatter: asks that a post-handshake message stays in the EXTRA buffer; without that the property is false, as shown above.
- ViewLoginInterleavings.ServerSeesEachLoginOnce: counts whole logins on the wire; that an injected one starts on a clean stream is `LoginAttempts.UnexposedRunsSendOnce`, and false without its condition.
- PolResolver.ForeignCallsSeeOnlyTheGuest: asks that the guest rewrites the three slots together; for partial rewrites the exact condition is proved instead.
