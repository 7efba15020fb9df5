# TorCall in Dafny

TorCall is a peer-to-peer voice client: two programs agree on keys through a signed handshake carried over Tor and then
exchange padded, encrypted audio frames. This project models the parts of it that carry guarantees over whole calls and
proves those guarantees.

- `CallModel.dfy` is the call manager as a state machine: one `View` of the state, one `Event` for everything that can
  happen (the user, the network, timers, the audio thread, one turn of the sending or receiving loop), and `Step`. An
  event that is not due changes nothing, so a run is any sequence of events. `Pending` counts the disconnect callbacks,
  reconnect timers, dials and loops still alive, and the reads that a teardown leaves behind; `History` records what was
  sent, accepted and played.
- `CallManager.dfy` is the same program as an object that changes its fields, with the two loops as loops, each method
  proved against its step; `KeyRing.dfy` holds its three secret buffers on the heap; `CallRuns.dfy` drives it.
- `CallOutcomes.dfy` says once how an answered call can end, `CallTransitions.dfy` where every step leads. `CallLifecycle`,
  `CallOrderly`, `CallReconnect`, `CallNonces`, `CallSas`, `CallQueue`, `CallTrust`, `AudioChannel`, `TrafficShape` and
  `TwoParty` hold the theorems about runs,
  `CallDuplicates.dfy` the runs from start-up that show why their conditions are needed, and `Playback.dfy` joins the
  stream of bytes, the receiving loop and the playback buffer.
- `Protocol.dfy` and `PacketReader.dfy` are the wire formats and the stream reader, `Crypto.dfy` the padding, nonces,
  signed messages and key splitting, `PeerVerification.dfy` the handshake check, `JitterBuffer.dfy` the playback buffer,
  `Contacts.dfy` and `ContactStore.dfy` the trust-on-first-use store.

The foreign primitives (X25519, HKDF, Ed25519, AES-GCM, the UTF-8 codec) are function parameters collected in a `Suite`.
A theorem that needs a law of theirs (section 6.1 of RFC 7748 for the exchange, that a sealed frame opens, that a
signature verifies) names it in a `requires` clause, and `LawsAreConsistent` gives a suite that satisfies all of them.
Whatever the outside decides is part of an event: key material, clock readings, whether a send succeeds, what the Opus
codec returns or that it raises. A Python exception that ends a callback is modelled as the state at that point.

## What is false of the code, and exactly when

- The lifecycle invariant survives a step if and only if the step is `Allowed` (`StepKeepsLifecycleIff`): it is broken by
  a reconnect timer that fires between calls, by rejecting in the middle of a call, and by an answer that raises after
  the pending call has been taken (`RefusedExchangeRaises`). One drop starts two timers when both loops report it
  (`DoubleDropStartsTwoTimers`) or when the read that its teardown leaves behind ends later
  (`ReadLeftBehindStartsTwoTimers`), and `StaleTimerDialsWhileRinging` goes on from there to the first of the three.
- A secret buffer is replaced without being wiped if and only if the step `Overwrites` one (`LeaksIffOverwrites`), and
  none is over a run if and only if no step of it does (`CleanRunIff`); `SecondDialLeaksAKey` reaches such a step. Runs
  with one outstanding disconnect (`Orderly`) have none.
- The dialling state always has something pending, except after exactly the steps that `Sticks` describes
  (`StepKeepsSettledIff`): a verified peer offers a key that the exchange refuses (`RefusedExchangeSticks`), or the
  program's own address is too long for a handshake (`LongAddressSticks`).
- The numbering that makes nonces unique survives a step if and only if the step has `FreshKeys`
  (`StepKeepsNoncesIff`): keys are installed only when no sending loop is alive and nothing was sent under the new key.
  In constant-rate mode any other installation does leave two packets with one key and one nonce within two turns
  (`UnfreshKeysRepeat`), and `SecondLoopRepeatsNumber` reaches one from start-up, with any three private keys and any
  frames.
- A session is withheld until the user confirms its own words if and only if the gate is shut when its keys are installed
  (`SessionWithheldIff`). After an orderly run it is (`OrderlySessionWithheld`); a second re-dial that connects during a
  confirmed call finds it open (`UnconfirmedSessionSends`, from start-up).
- A forced re-pin keeps names coherent only under the condition of `RepinKeepsNamesIff`.

Where the code and its comments differ the model follows the code: `clear` keeps the learned target depth and a refill
does not reset the underrun count (`torcall/core/audio_engine.py:76-80` and `135-141`), `all_contacts` lists addresses
in insertion order, the `CONNECTING` state is never entered, and the onion pattern lets one final newline through.

## Model

| member | source | states |
|---|---|---|
| Bytes.ReadAfterPack | torcall/network/protocol.py:150-151 | Every integer that fits a big-endian field is read back from it. |
| Bytes.MostSignificantFirst | torcall/network/protocol.py:150-151 | The first byte of a field counts most: it is worth the weight of all that follow. |
| Bytes.HexAt | torcall/core/identity.py:235 | The text of a key has two digits for each byte, the greater one first. |
| Bytes.LexTrichotomy | torcall/core/crypto.py:354 | The order behind `sorted` on byte strings is total and antisymmetric. |
| Bytes.LexLessMeans | torcall/core/crypto.py:354 | One byte string comes before another when it is a proper beginning of it or smaller where they first differ. |
| Primitives.LawsAreConsistent | torcall/core/crypto.py:58-66 | The laws asked of the foreign primitives hold together for some suite. |
| Protocol.PacketRoundTrip | torcall/network/protocol.py:173-195 | Decoding an encoded packet gives it back, whatever bytes follow. |
| Protocol.PacketLayout | torcall/network/protocol.py:150-178 | The seven bytes of a header are the type, the sequence number and the length, each with its most significant byte first, and the payload follows. |
| Protocol.DecodedPacketIsCanonical | torcall/network/protocol.py:180-195 | A buffer that decodes begins with the encoding of what it decodes to. |
| Protocol.HandshakeRoundTrip | torcall/network/protocol.py:63-146 | Encoding is refused exactly for unencodable inputs; otherwise decoding gives the canonical form of the inputs, in all four forms and with an empty address. |
| Protocol.HandshakeLayout | torcall/network/protocol.py:63-101 | Key, identity, signature, nonce and address lie at their offsets in every form, the address behind its length. |
| Protocol.HandshakeReencodes | torcall/network/protocol.py:103-146 | Re-encoding an accepted payload gives its announced prefix, and all of it in the three fixed-length forms. |
| Protocol.DecoderIsExact | torcall/network/protocol.py:103-146 | A payload decodes to a handshake if and only if it is that handshake's encoding, followed in the v3 form by ignored bytes. |
| Protocol.HandshakeRejections | torcall/network/protocol.py:118-146 | Which payloads are refused: unknown lengths, a truncated address, an address that is not UTF-8. |
| PacketReader.RecvExactly | torcall/network/protocol.py:247-255 | Over any non-empty pieces: exactly the next n bytes, or None with the stream used up. |
| PacketReader.ReadPacketSync | torcall/network/protocol.py:227-244 | One read over any pieces does what `ReadOne` does on the joined bytes. |
| PacketReader.ReadAgreesWithFromBytes | torcall/network/protocol.py:188-195 | A read returns a packet exactly when `from_bytes` does, the same one, and consumes exactly its encoding. |
| PacketReader.CutStream | torcall/network/protocol.py:227-255 | A stream of encoded packets cut anywhere yields exactly the complete packets, then None. |
| PacketReader.WholeStream | torcall/network/protocol.py:227-255 | The concatenated encodings of any list of in-range packets read back as the list, then None. |
| PacketReader.DeliverAndRead | torcall/network/protocol.py:227-255 | The same through the socket loop, for every way of cutting the bytes into non-empty pieces. |
| Crypto.DirectionalKeysAgree | torcall/core/crypto.py:99-137 | The caller's send key is the callee's receive key and the other way round; both derivations succeed or both fail; the two keys together are the 64 expanded bytes, and they differ exactly when the halves do. |
| Crypto.FreshnessWindow | torcall/core/crypto.py:161-176 | A handshake nonce is accepted exactly within 120 seconds of the clock that made it, in either direction. |
| Crypto.SignedMessageInjective | torcall/core/crypto.py:235-247 | The v1, v2 and v3 signed bytes determine version, nonce, key and address. |
| Crypto.SasIsSymmetric | torcall/core/crypto.py:330-361 | Both ends compute the same words, whichever key is whose and whatever the list of words. |
| Crypto.SasBindsBothKeys | torcall/core/crypto.py:330-361 | The words of two pairs of 32-byte keys are the same under every lawful suite if and only if the pairs are the same. |
| Crypto.SasHasFourWords | torcall/core/crypto.py:330-361 | There are four words, all from the list. |
| Crypto.AnyWordsCanShow | torcall/core/crypto.py:354-361 | Each word has a byte of its own: some lawful suite shows any four words that bytes can point at. |
| Crypto.UnpadInvertsPad | torcall/core/crypto.py:366-418 | Unpadding gives back every frame up to 65535 bytes, for every block size from 1. |
| Crypto.PaddedLengthIsLeast | torcall/core/crypto.py:388-396 | The padded length is the least multiple of the block that holds the frame and its prefix. |
| Crypto.LargestFrame | torcall/core/call_manager.py:704-707 | With block 256, nonce and tag, a frame fits a packet exactly up to 65278 bytes. |
| Crypto.MakeNonceInjective | torcall/core/crypto.py:423-436 | Different counters give different nonces. |
| Crypto.WipeBytes | torcall/core/crypto.py:598-614 | A buffer is all zeros afterwards; a missing one is ignored. |
| JitterBuffers.JitterBuffer.Push | torcall/core/audio_engine.py:84-88 | The object's push is the state function's, with capacity twice the maximum. |
| JitterBuffers.JitterBuffer.Pop | torcall/core/audio_engine.py:90-122 | The object's pop is the state function's, silence standing for no frame. |
| JitterBuffers.JitterBuffer.NoteUnderrun | torcall/core/audio_engine.py:124-133 | The object's underrun note is the state function's. |
| JitterBuffers.JitterBuffer.Clear | torcall/core/audio_engine.py:135-141 | The object's clear is the state function's. |
| JitterBuffers.FifoConservation | torcall/core/audio_engine.py:84-122 | Over any run, accepted frames are the delivered ones followed by those held, in order, never more than twice the maximum. |
| JitterBuffers.RefusedOnlyWhenFull | torcall/core/audio_engine.py:84-88 | In any reachable state a push is refused exactly when twice the maximum are held. |
| JitterBuffers.AdaptationAccounting | torcall/core/audio_engine.py:70-133 | Over any run: the target stays within its limits, rises at most once for three empty pops, falls at most once for 250 frames, and is the initial depth plus rises minus falls. |
| JitterBuffers.DryBufferGrows | torcall/core/audio_engine.py:124-133 | From any reachable state three empty pops for each step are enough to reach the greatest depth. |
| JitterBuffers.ClearForgetsUnderruns | torcall/core/audio_engine.py:124-141 | After a clear the depth rises only after three new empty pops. |
| JitterBuffers.LoweringNeedsSteadiness | torcall/core/audio_engine.py:103-133 | After an empty pop the depth falls only once 250 more frames have come out. |
| JitterBuffers.SteadyStreamShrinks | torcall/core/audio_engine.py:103-119 | From any reachable state that plays, 250 frames for each step are enough to come back to the least depth. |
| JitterBuffers.NothingAfterUnderrunUntilRefilled | torcall/core/audio_engine.py:98-122 | After a pop that found nothing no frame comes out until a pop finds the current target depth, and that pop gives the oldest frame. |
| JitterBuffers.NothingAfterClearUntilFilled | torcall/core/audio_engine.py:135-141 | A cleared buffer is empty, keeps its learned depth, and gives no frame until a pop finds that depth. |
| JitterBuffers.Progress | torcall/core/audio_engine.py:84-122 | From any reachable state, with a push before every pop, a frame comes out within target pops and at every later pop. |
| Contacts.PurgeLoopbackEffect | torcall/core/identity.py:179-214 | Purging leaves no loopback address, keeps the pins under real addresses in order, and overwrites no name. |
| Contacts.PurgeTakesLoopback | torcall/core/identity.py:179-214 | After a purge nothing is stored under 127.0.0.1 or ::1, with any port behind it. |
| Contacts.PurgeLosesNoName | torcall/core/identity.py:197-210 | An identity that survives the purge keeps a name if it had one, even in an incoherent store. |
| Contacts.NamesStayCoherent | torcall/core/identity.py:179-319 | Over any run of checks, renames, removals and purges, all addresses of one identity share one name. |
| Contacts.RepinKeepsNamesIff | torcall/core/identity.py:265-271 | A forced re-pin keeps names coherent exactly when the other addresses of the new identity already carry its name. |
| Contacts.PinNeverChanges | torcall/core/identity.py:216-263 | Over any run an address that stays pinned keeps its key; exactly that key is a match, every other key a mismatch, and neither changes the store. |
| Contacts.CheckComparesKeys | torcall/core/identity.py:216-263 | Against a pinned key the comparison of hexadecimal texts is one of keys: the pinned key is a match, every other key a mismatch. |
| Contacts.CheckPins | torcall/core/identity.py:216-263 | When each of the four answers is given, what is pinned after it, under which name, and that no other address is touched. |
| Contacts.RenameTakesWholeIdentity | torcall/core/identity.py:273-287 | Renaming gives every address of the identity the new name and changes nothing else. |
| Contacts.RenamedIdentityHasName | torcall/core/identity.py:273-294 | A new name that is not empty is the one found for the identity from then on. |
| Contacts.RemoveTakesWholeIdentity | torcall/core/identity.py:296-319 | Removing an address removes exactly the addresses with its key, or that address alone when it has none; removing an unknown address changes nothing. |
| Contacts.WithoutKeepsOrder | torcall/core/identity.py:296-319 | The entries that stay keep their order. |
| Contacts.GroupingPartitions | torcall/core/identity.py:321-341 | In a grouping every keyed address is on the card of its key, on no other and only once, and nothing else is listed. |
| ContactStores.ContactStore.AllContacts | torcall/core/identity.py:321-341 | The loop returns a grouping: one card for each identity, its addresses in insertion order, the name that `name_for_key` finds. |
| ContactStores.ContactStore.NameForKey | torcall/core/identity.py:289-294 | The loop finds the first name stored for the key, or the empty string. |
| ContactStores.ContactStore.Check | torcall/core/identity.py:216-263 | Answer and new store are those of the store function. |
| ContactStores.ContactStore.SetName | torcall/core/identity.py:273-287 | The loop renames exactly the entries with the key of the address. |
| ContactStores.ContactStore.Remove | torcall/core/identity.py:296-319 | The new store and the number of entries removed. |
| ContactStores.ContactStore.PurgeLoopback | torcall/core/identity.py:179-214 | The nested loops do what the store function does; the count is that of the loopback addresses. |
| PeerVerification.BuildSucceedsIff | torcall/core/call_manager.py:271-291 | A handshake can be built exactly when the advertised address fits its 16-bit length. |
| PeerVerification.OnionAddresses | torcall/core/call_manager.py:74-79 | A valid onion address is exactly 56 base-32 characters and ".onion", with at most a newline behind. |
| PeerVerification.VerifierRebuildsSignedBytes | torcall/core/call_manager.py:271-291 | Decoding what was built gives back the key, the identity, the nonce, the address, and a signature over exactly the bytes the verifier rebuilds. |
| PeerVerification.BuiltHandshakeVerifies | torcall/core/call_manager.py:300-372 | An untampered handshake is accepted exactly within the freshness window, for every store and address. |
| PeerVerification.AcceptedExactly | torcall/core/call_manager.py:300-372 | For every payload: it leads on to a call if and only if it decodes and is anonymous, or is signed over exactly its own key, nonce and address by the identity it names and is recent. |
| PeerVerification.ForgeryIsRefused | torcall/core/call_manager.py:331-342 | Whatever store and clock, a payload whose signature does not hold is refused, reported as invalid, and pins nothing. |
| PeerVerification.AcceptedWasMade | torcall/core/crypto.py:250-298 | With signatures nobody else can make, an accepted payload brings key, nonce and address of one handshake that its identity has made within the window. |
| PeerVerification.ToldExactly | torcall/core/call_manager.py:343-372 | Who the user is told the peer is: unsigned exactly for anonymous payloads, a match, a mismatch or new exactly as the pin of the address says, under which address and by which name. |
| PeerVerification.PurgeKeepsOnions | torcall/core/identity.py:179-214 | No purge takes the pin of a valid onion address. |
| PeerVerification.VerificationPins | torcall/core/call_manager.py:300-372 | A refused handshake changes no pin; otherwise at most one new address is pinned, and with a valid dialled onion only that one. |
| CallOutcomes.AnswerConcludes | torcall/core/call_manager.py:427-577 | An answer, ours or the peer's, is passed over exactly when no caller waits or no dial is out; otherwise it has touched only the handshake, the private key, the peer's identity, the contacts and the counters of the call by the time it cleans up, raises or enters the call. |
| CallLifecycle.StepKeepsLifecycleIff | torcall/core/call_manager.py:378-657 | From a state with the lifecycle invariant (keys and socket iff in a call, a waiting caller iff ringing, no private key between calls, busy, reconnecting and attempts consistent) a step keeps it if and only if it is allowed. |
| CallLifecycle.RunKeepsLifecycle | torcall/core/call_manager.py:378-993 | From start-up the lifecycle invariant holds in every state of every run of allowed steps, and a further step keeps it if and only if it is allowed. |
| CallTransitions.StateDiagram | torcall/core/call_manager.py:378-993 | The whole diagram, for every step from every state: what enters a call, ends one, starts a re-dial, dials or rings, and that nothing else changes the state. |
| CallTransitions.TeardownIsComplete | torcall/core/call_manager.py:922-993 | A step that ends a call or starts a re-dial leaves no key, no socket and a fresh connection state; any other leaves socket and session keys alone unless it installs new ones. |
| CallTransitions.DisconnectsReported | torcall/core/call_manager.py:696-888 | A disconnect is posted exactly for a lost ping, a failed send, used-up numbers, a closed or broken stream, the peer's hang-up, or a read left behind, and taken back only when it is handled. |
| CallTransitions.SenderEnds | torcall/core/call_manager.py:713-761 | A turn ends its sending loop exactly when the loop is told to stop or its send fails. |
| CallTransitions.ReceiverEnds | torcall/core/call_manager.py:765-787 | A read that gives no packet ends the receiving loop, and nothing else does. |
| CallTransitions.OtherPacketsChangeNothing | torcall/core/call_manager.py:789-810 | Packets other than audio and the end of the call change nothing. |
| CallTransitions.CallerIsKept | torcall/core/call_manager.py:501-517 | A caller is kept when the machine is idle and not busy, and otherwise leaves no trace. |
| CallTransitions.HangUpIsFinal | torcall/core/call_manager.py:796-889 | Once either side has hung up, whatever happens, nothing is dialled again until the user places the next call, and a reported disconnect leaves the machine idle; the peer's hang-up is such a report. |
| CallOrderly.LeaksIffOverwrites | torcall/core/call_manager.py:395-457 | A secret buffer is dropped unwiped exactly by the steps that overwrite one. |
| CallOrderly.CleanRunIff | torcall/core/call_manager.py:395-457 | Over any run no secret is dropped unwiped if and only if no step overwrites one. |
| CallOrderly.OrderlyStep | torcall/core/call_manager.py:866-968 | With one outstanding disconnect at a time every step is allowed, leaves at most one dial or timer, and overwrites no secret. |
| CallOrderly.OrderlyRun | torcall/core/call_manager.py:866-968 | The same over whole runs. |
| CallReconnect.ScheduledOnce | torcall/core/call_manager.py:468-912 | A step schedules a re-dial if and only if it handles a drop, or the failure of a re-dial, of a caller within the budget who knows the address and does not want to stop; at most one, and the counter moves with it. |
| CallReconnect.PlacedCallHasWholeBudget | torcall/core/call_manager.py:378-393 | A call the user places starts as the caller's own, wanted, with the whole budget, whatever went before. |
| CallReconnect.AnsweredDialRestoresBudget | torcall/core/call_manager.py:427-449 | An answered dial gives the caller the whole budget back. |
| CallReconnect.ReconnectBudget | torcall/core/call_manager.py:871-912 | Between two resets of the counter at most the configured number of re-dials is scheduled, however many callbacks arrive, and the counter counts them. |
| CallReconnect.FailingEventsBounded | torcall/core/call_manager.py:866-918 | In any run without a new call of the user and without an answered dial, whatever else happens, the disconnects, timers and failed dials that come due are bounded by a measure of budget, timers, dials and callbacks, plus the disconnects posted on the way. |
| CallReconnect.StepKeepsSettledIff | torcall/core/call_manager.py:378-495 | A dialling machine always has a dial that reports or a timer that dials, except after exactly the steps that stick: the last thing pending ends in an exception. |
| CallReconnect.RunStaysSettled | torcall/core/call_manager.py:378-495 | Over whole runs from start-up without such a step a dialling machine always has a dial or a timer due. |
| CallReconnect.FailingRunEndsIdle | torcall/core/call_manager.py:468-495 | If every dial fails and nobody calls, with renames, pings and confirmations in between, the bad news is bounded by the measure and the disconnects posted on the way, outside a call no more than reads were left behind, and when nothing is due any more the machine is idle. |
| CallReconnect.RefusedExchangeSticks | torcall/core/call_manager.py:427-444 | A run from start-up that leaves the machine dialling with nothing pending: the exchange refuses the peer's key. |
| CallReconnect.RefusedExchangeRaises | torcall/core/call_manager.py:519-577 | A run from start-up in which answering raises after the waiting call has been taken, and the machine goes on ringing with nobody to answer. |
| CallReconnect.LongAddressSticks | torcall/core/call_manager.py:395-414 | Another one: the local address does not fit a handshake, and building it raises. |
| CallNonces.StepKeepsNoncesIff | torcall/core/call_manager.py:596-711 | A step keeps the numbering if and only if keys are installed only with no sending loop alive and a key under which nothing was sent. |
| CallNonces.NoncesUnique | torcall/core/call_manager.py:696-711 | Over any run from start-up with such keys: under one key the numbers are 0, 1, 2, ... below the limit, and no two packets carry the same nonce. |
| CallNonces.PacketCarriesNumber | torcall/core/call_manager.py:704-707 | The twelve bytes in front of a packet's ciphertext are its number. |
| CallNonces.CounterResetsWithKey | torcall/core/call_manager.py:956-965 | The send counter goes back only together with a change of key. |
| CallNonces.OrderlyNoncesUnique | torcall/core/call_manager.py:427-449 | In orderly runs from start-up, sessions with different send keys are all that uniqueness needs. |
| CallNonces.UnfreshKeysRepeat | torcall/core/call_manager.py:596-711 | In constant-rate mode, with frames that can be packed, any other installation of keys leaves two packets with one key and one nonce within two turns of the sending loops. |
| CallDuplicates.FirstCallConnects | torcall/core/call_manager.py:378-462 | A first call from start-up, answered by a peer without an identity, is in a call with one loop of each kind. |
| CallDuplicates.DoubleDropStartsTwoTimers | torcall/core/call_manager.py:765-918 | From start-up, a drop that the receiving loop and a failed send both report starts two reconnect timers. |
| CallDuplicates.ReadLeftBehindStartsTwoTimers | torcall/core/call_manager.py:765-918 | From start-up, a drop that only a failed send reports does so too, when the read that the teardown has left behind ends. |
| CallDuplicates.SecondDialLeaksAKey | torcall/core/call_manager.py:395-403 | From there the second of two re-dials drops the first private key unwiped. |
| CallDuplicates.StaleTimerDialsWhileRinging | torcall/core/call_manager.py:464-466 | From there, after the first re-dial is turned away the second timer dials while a new caller waits, which breaks the lifecycle invariant. |
| CallDuplicates.SecondLoopRepeatsNumber | torcall/core/call_manager.py:596-761 | From start-up, the second re-dial connects during the call that the first has led to, and two frames go out under one key and number. |
| CallDuplicates.UnconfirmedSessionSends | torcall/core/call_manager.py:596-681 | From start-up with gating on, a second re-dial that connects during a confirmed call shows new words, and a captured frame goes out under its key before anyone has confirmed them. |
| CallSas.SasGate | torcall/core/call_manager.py:661-1006 | With gating on, from any teardown to the next confirmation nothing is played and every packet carries silence, through any reconnects and duplicates. |
| CallSas.SessionWithheldIff | torcall/core/call_manager.py:192-195 | A session installed in any reachable state is withheld until the next confirmation, whatever happens in it, if and only if the gate is shut when its keys are installed. |
| CallSas.OrderlySessionWithheld | torcall/core/call_manager.py:192-195 | After an orderly run with confirmations in calls only, every new session, a re-dialled one too, is withheld until its own words are confirmed. |
| CallQueue.WireSelectsCaptured | torcall/core/call_manager.py:661-748 | Over any run the sounds on the wire are an in-order selection of those captured, none twice and none made up, and at most fifty wait. |
| CallQueue.ClosedCallHearsNothing | torcall/core/call_manager.py:661-672 | Outside a call, without a key or before the confirmation, a captured frame changes nothing. |
| CallQueue.BacklogIsNewest | torcall/core/call_manager.py:661-681 | While nothing is sent, the queue holds the newest of the frames captured: the oldest goes. |
| CallQueue.TurnTakesHead | torcall/core/call_manager.py:713-748 | Every turn of a live sending loop takes the oldest item, and one that cannot be encoded or packed is not tried again. |
| CallQueue.BacklogGoesOut | torcall/core/call_manager.py:713-748 | Turns that go well put the waiting frames on the wire: all, in order, under successive numbers. |
| TrafficShape.SpeechDoesNotShow | torcall/core/call_manager.py:713-748 | In constant-rate mode there is one packet for each turn and all packets have one length, whatever waits in the queue and whatever is captured. |
| TrafficShape.PayloadLength | torcall/core/call_manager.py:696-707 | A payload takes nonce, tag and the least number of whole blocks. |
| TrafficShape.SendableIff | torcall/core/call_manager.py:696-711 | Exactly the frames of up to 65278 bytes can be sent. |
| CallTrust.StepChangesContacts | torcall/core/call_manager.py:300-372 | The store changes only by renames, removals and one check for each verified handshake. |
| CallTrust.PinsSurviveRuns | torcall/core/call_manager.py:300-372 | Over any run of calls an address that stays known keeps its key, every other key is a mismatch there, and names stay coherent. |
| CallTrust.RefusedReplyPinsNothing | torcall/core/call_manager.py:427-439 | A refused answer changes no pin and leaves the caller idle without keys, whether or not the peer's address is still known; a valid dialled onion is the only address pinned. |
| CallTrust.RefusedRequestPinsNothing | torcall/core/call_manager.py:519-548 | A refused request changes no pin and leaves the callee idle without keys. |
| CallTrust.ForgeryEntersNothing | torcall/core/call_manager.py:331-342 | In any state, answering a forged request or taking a forged answer enters no call and leaves no key and no pin. |
| CallTrust.ForgeriesEnterNoCall | torcall/core/call_manager.py:300-372 | Over any run whose payloads are all forged no session starts, and every pin at the end was there before. |
| CallTrust.SessionPeerIsShown | torcall/core/call_manager.py:300-372 | Every session starts with the key of an anonymous payload or of one recently signed by the identity it names, and the user is shown exactly what its verification says. |
| CallTrust.SessionPeerIsGenuine | torcall/core/crypto.py:250-298 | With signatures nobody else can make, the session key comes from a recent handshake of the named identity. |
| CallTrust.CallerIsPinned | torcall/core/call_manager.py:343-372 | A caller over the loopback address is pinned under the onion address it has signed, and nothing else changes. |
| AudioChannel.UndecryptableMovesNothing | torcall/core/call_manager.py:812-843 | A packet that does not open changes nothing, least of all the replay counter. |
| AudioChannel.AcceptedInOrder | torcall/core/call_manager.py:812-843 | As long as a session lasts, whatever else the receiver does: out of copies, losses, reorderings and forgeries it accepts an in-order selection of the frames sent, each at most once, and its counter ends at the last of them. |
| AudioChannel.EndToEnd | torcall/core/call_manager.py:685-843 | The same between any run of a sender and any session of a receiver that holds its key. |
| AudioChannel.LosslessStream | torcall/core/call_manager.py:685-843 | When the arrivals are the first packets sent, in order, with anything of the receiver's own in between: the frames accepted are those frames, what is played is exactly what follows the confirmation of the words, and the bytes read back as those packets. |
| TwoParty.Agreement | torcall/core/call_manager.py:427-577 | After an untampered exchange within the freshness window, begun by any dial and with anything on both sides since, both are in the call, with crossed keys, fresh counters and the same words; they send with different keys exactly when the halves of the expanded secret differ. |
| TwoParty.DialAwaits | torcall/core/call_manager.py:378-414 | A first call and a re-dial alike leave a machine that awaits the answer to the request it has sent. |
| TwoParty.DialGoesOutIff | torcall/core/call_manager.py:378-414 | Among the steps that are not answers or ends of calls, a request goes out exactly for a call placed when idle, or a timer with a peer and no hang-up, that can build it. |
| TwoParty.AddressIsAdvertised | torcall/core/call_manager.py:260-291 | The request names the address last set, or none, in bytes the callee reads so, signed by our identity. |
| TwoParty.WaitingGoesOn | torcall/core/call_manager.py:378-577 | Nothing but a dial, its report, an answer, a rejection or the end of a call stops either side from waiting. |
| TwoParty.DialledCallAgrees | torcall/core/call_manager.py:378-577 | So a first call or a re-dial agrees as above, whatever else happens between the dial, the ringing and the answers. |
| TwoParty.ExchangeAgrees | torcall/core/call_manager.py:427-577 | The same for two programs, each after any run from its start that ends with the dial out or the caller waiting. |
| TwoParty.AgreedCallDelivers | torcall/core/call_manager.py:427-843 | After that agreement, first or re-dialled, both sides go on talking and listening, each accepts an in-order selection of the frames that the other sends under the key of that direction, and no packet of one shares key and nonce with one of the other. |
| Playback.StreamedSession | torcall/core/call_manager.py:765-843 | Over a stream of the sent packets with others in between, cut after any byte and read as far as you like with anything in between: the frames accepted are those of exactly the packets read, and those after the confirmation are played. |
| Playback.LastReadReports | torcall/core/call_manager.py:770-787 | A stream that ends is reported as a drop; one that turns unreadable ends the loop without a report. |
| Playback.Listen | torcall/core/call_manager.py:765-843 | The object's receiving loop over a socket whose stream is cut anywhere accepts the frames of exactly the complete packets. |
| Playback.StreamReachesLoudspeaker | torcall/core/audio_engine.py:258-262 | Behind the playback buffer, with pops at any times, what has come out and what still waits is an in-order selection of the sounds decoded after the confirmation. |
| KeyRings.KeyRing.Wipe | torcall/core/call_manager.py:956-963 | The secret buffers are zeroed before they are dropped: every buffer ever installed is then all zeros, except those that were replaced earlier, of which there are no more than the leaks counted. |
| CallManagers.CallManager.TeardownConnection | torcall/core/call_manager.py:922-971 | The object's teardown is the machine's. |
| CallManagers.CallManager.VerifyPeerIdentity | torcall/core/call_manager.py:300-372 | Result, stashed identity and store are those of the verification function. |
| CallManagers.CallManager.OnOutgoingConnected | torcall/core/call_manager.py:427-462 | The object's step is the machine's, refused and raising handshakes included. |
| CallManagers.CallManager.AcceptCall | torcall/core/call_manager.py:519-577 | The object's step is the machine's, with every early exit. |
| CallManagers.CallManager.OnAudioCaptured | torcall/core/call_manager.py:661-681 | The bounded queue drops its oldest item only when full, and takes nothing while the gate is shut. |
| CallManagers.CallManager.SendLoop | torcall/core/call_manager.py:713-761 | The sending loop is the run of its turns, and stops for good at a failed send, a refused number or the sentinel. |
| CallManagers.CallManager.RecvLoop | torcall/core/call_manager.py:765-810 | The receiving loop over any pieces of a byte stream is the run of its packets followed by the end of the stream. |
| CallManagers.CallManager.Handle | torcall/core/call_manager.py:378-1006 | Every due event does to the object what the step does to the state. |
| CallRuns.Lifetime | torcall/core/call_manager.py:922-968 | From start-up through any run of due events in which no step overwrites a secret, every secret buffer ever allocated is installed or all zeros; when every step is allowed the lifecycle invariant holds; orderly runs are both. |

## Left out

- Threads: each main-thread callback, loop turn and received packet is one atomic step, and a teardown ends both loops at once; the two-second join and the frame a loop may still send during it are not modelled.
- Reads left behind: a teardown does not wait for the receiving thread, and its read may end later with None or an error, which is an event; that it may also return a last packet, which is then handled, or go on as a second receiving loop of the next session, is not modelled.
- KeyRings.KeyRing.Wipe: covers the mutable buffers only, not the immutable copies that key generation and derivation return.
- The call manager object keeps the fields that a teardown clears and those that only the end of a call clears in two records, and the three key buffers in an object of their own.
- Dials: each dial reports exactly once; a client object collected while it is dialling is not modelled.
- Sockets, SOCKS, Tor control, Qt signals and timers' real time: only the events they deliver appear; closing the socket of a refused call does not.
- Keep-alive: the ping counter, the contents of control replies and the receive clock are not modelled, only whether a ping finds the peer silent or fails to send.
- The list of 64 words is a setting: nothing proved depends on which words they are.
- The Opus codec, microphone and loudspeaker: what encoding or decoding returns, or that it raises, is part of the event.
- The asyncio reader, `derive_shared_key`, fingerprints and the joining of the words with spaces: not part of this model.
- Persistence, passphrases and the vault: not modelled; contact entries hold strings or lack a field, JSON nulls are not modelled.
- The user interface and log scrubbing.
- Pairing of the call-started and call-ended signals: the code does not emit the second on a rejection during a reconnect.
- Altered packet headers: the header is not authenticated, so the replay theorems are about verbatim copies and packets that do not open.
