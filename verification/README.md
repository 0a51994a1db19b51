# Key lifecycle, message relay and wire format

A Dafny model of a key server with its clients: session keys are agreed, cached,
checked, rotated, revoked and expired; messages are relayed by decrypting under the
sender's key and re-encrypting under the receiver's; requests and responses are
protobuf packets in length-prefixed frames, handled by a thread pool.

`dafny verify dfyconfig.toml` checks the project.

## Structure

- **Keys.** `KeyTables` holds the committed tables and their lifecycle laws.
  `KeyStore` is `mysqlOP`: one connection, statement by statement, each of which may
  fail. `SlotArray` is the shared-memory cache and its refinement of a bounded map.
  `Coherence` says when cache and tables agree exactly; `KeyLookup` is `getActiveKey`;
  `Survival` says what leaves a live, cached key alone.
- **Serial system.** `Relay` is the decision of `handleSendMessage`; `KeyServer` has
  the handlers of `ServerOP`, `MessageService` and `MessageQueryService` as methods
  that change tables, slots, log and audits in place; `Serving` runs whole request
  sequences. `Client` is `ClientOP` and `MessageClient`, `EndToEnd` joins clients and
  server, and `Stories` puts any other requests between what they do. `MessageStore`,
  `MessageCrypto` and `ScopedIds` supply records, encryption and identifiers.
- **Interleaved system.** `Interleaving` has any number of workers and clients; each
  SQL statement and each slot call is one step, statements and rollbacks fail or land
  unreported, replies are lost, delayed or repeated, and workers die anywhere. `Alone`
  ties it to the serial system: a request that nobody interrupts ends as its handler does.
- **Wire.** `Varint`, `WireFormat` and `WireProofs` treat all generated message
  classes at once, over field lists; `WireMessage` has the generated loops as methods.
  `Packets` gives the field lists and the typed packets, `Codec` and `Codecs` the
  codecs over them; `RefusedPackets` has what is left of a packet that the parser
  refuses. `Records` and `Layout` say independently what the bytes are, `Utf8` what
  strings the parser takes. `Framing` is `TcpSocket`. The primitives follow the
  Protocol Buffers Encoding guide, sections "Base 128 Varints", "Message Structure",
  "Length-Delimited Records" and "Last One Wins", and section 3 of RFC 3629.
- **Dispatch.** `TaskPool` is `ThreadPool` as a step system, with `PoolProgress` on what
  it can always do, and `Dispatch` the event loop with its set of descriptors being
  processed.

AES-GCM is a pair of functions with the inverse law of sections 7.1 and 7.2 of NIST
SP 800-38D, Base64 one with that of section 4 of RFC 4648.

## Where the code falls short of its promise

Each of these is proved with its exact condition.

- A failed `rollback` leaves the transaction open and the next `start transaction`
  commits the half-done work, unless nothing had been done
  (`KeyStore.LeftoverNothing`, `KeyStore.LeftoverWork`,
  `KeyStore.LeftoverRotationIsCommitted`).
- `updateKeyId` returns true although its commit failed (`KeyStore.MysqlOP.UpdateKeyId`).
- `readn` does not retry an interrupted `recv`, and a length field of 2^31 or more is
  received as an empty message (`Framing.Receiver.Readn`, `Framing.AnnouncedLength`).
- `decodeMsg` ignores a failed parse, and the serializer accepts strings that the parser
  refuses, so packets of which only a part was stored are dispatched
  (`RefusedPackets.AnyRequestDecodes`, `Codecs.RefusedBytesDecodeEmpty`).
- An `enqueue` that straddles the stop loses its task, and a worker can sleep through
  the shutdown, because the stop flag is set outside the mutex (`TaskPool.LostExactly`,
  `TaskPool.WakeUpIsLostExactly`).
- A descriptor handed out again before its mark is removed loses its first event, and
  a task whose peer hung up can close the new connection
  (`Dispatch.FirstEventIsSkippedExactly`, `Dispatch.OldTaskOutlivesAHangup`,
  `Dispatch.OldTaskClosesTheNewConnection`).

## Model

| member | source | states |
|---|---|---|
| KeyTables.ReachableTables | ServerSeckey/ServerSeckey/mysqlOP.cpp:146-298 | From a fresh installation every run of agreements, expiries and revocations ends in tables with unique positive key ids below the counter, stamps exactly on rows that left Active, sound rotation sources, and at most one Active row per pair |
| KeyTables.RunEvolves | ServerSeckey/ServerSeckey/KeyLifecycle.h:3-11 | Over any run of any length a row keeps its pair, id, material, expiry and source, moves at most once and only out of Active; invalidatetime stays non-null exactly for rows that are not Active |
| KeyTables.StepEvolves | ServerSeckey/ServerSeckey/mysqlOP.cpp:304-308 | One agreement, expiry or revocation moves rows only from Active to a terminal state, with a stamp |
| KeyTables.AgreeEffect | ServerSeckey/ServerSeckey/mysqlOP.cpp:243-279 | An agreement adds one Active row that lasts 24 hours, counts up by one and stamps every Active row of its pair as Rotated; nothing else changes |
| KeyTables.NewRowNamesItsSource | ServerSeckey/ServerSeckey/mysqlOP.cpp:237-266 | The new row's rotated_from is the pair's greatest Active id, or null if it had no Active row |
| KeyTables.RetireEffect | ServerSeckey/ServerSeckey/mysqlOP.cpp:304-366 | A due check moves its row to Expired, a logout to Revoked, each stamped with its own time; nothing else changes |
| KeyTables.StepKeepsSound | ServerSeckey/ServerSeckey/mysqlOP.cpp:178-279 | Each table operation keeps ids unique and below the counter and keeps every rotated_from naming an older Rotated row of the same pair, no row being the source of two |
| KeyTables.RunKeepsSound | ServerSeckey/ServerSeckey/mysqlOP.cpp:178-279 | The same over whole runs, from any sound tables |
| KeyTables.StepKeepsOneActive | ServerSeckey/ServerSeckey/mysqlOP.cpp:215-254 | No operation gives a pair a second Active row |
| KeyTables.AgreeRepairsForGood | ServerSeckey/ServerSeckey/mysqlOP.cpp:215-254 | Even from a legacy table with several Active rows of the pair, one successful agreement leaves exactly the new one Active, and no later run changes that there is at most one |
| KeyTables.Lineage | ServerSeckey/ServerSeckey/mysqlOP.cpp:215-274 | Following rotated_from ends, with the key id as measure, and stays inside the table |
| KeyTables.LineageIsAChain | ServerSeckey/ServerSeckey/mysqlOP.cpp:215-274 | Each step back names an older row of the same pair in state Rotated |
| KeyTables.LineagesAreChains | ServerSeckey/ServerSeckey/mysqlOP.cpp:215-274 | Lineages are disjoint chains: two that share a row lie on one chain |
| KeyTables.RotatedExactly | ServerSeckey/ServerSeckey/mysqlOP.cpp:215-274 | From a fresh installation, over any run, a row is Rotated exactly if a row names it as its source, and then exactly one does, a later one of its pair |
| KeyStore.MysqlOP.WriteSecKeyWithTrans | ServerSeckey/ServerSeckey/mysqlOP.cpp:146-298 | All or nothing at each of the ten calls that may fail: true exactly when no call fails and the tables allow it, and then rotation, insert, counter bump and node are published together; false leaves the node, and the committed tables too unless a commit that reported an error had landed; after any other failure the tables in view are the old ones exactly if the rollback worked or nothing had been done yet |
| KeyStore.MysqlOP.CheckSecKey | ServerSeckey/ServerSeckey/mysqlOP.cpp:300-354 | Expires the row if due, then true exactly for an Active row that is not due, when neither statement fails |
| KeyStore.MysqlOP.LogoutSecKey | ServerSeckey/ServerSeckey/mysqlOP.cpp:356-380 | True exactly when one Active row became Revoked; otherwise nothing changes |
| KeyStore.MysqlOP.UpdateKeyId | ServerSeckey/ServerSeckey/mysqlOP.cpp:108-144 | True says nothing about the unchecked commit: the counter moved exactly if the transaction never opened or the commit succeeded |
| KeyStore.LeftoverNothing | ServerSeckey/ServerSeckey/mysqlOP.cpp:162-283 | The transaction that a failed rollback leaves open changes nothing exactly if a read or the rotation failed, the counter row is missing or not positive, or the pair had no Active row and the insert failed |
| KeyStore.LeftoverWork | ServerSeckey/ServerSeckey/mysqlOP.cpp:235-283 | What a failed rollback leaves open keeps ids below the counter exactly when the failing call was not the counter bump after a made insert; rows evolve properly either way |
| KeyStore.LeftoverSound | ServerSeckey/ServerSeckey/mysqlOP.cpp:162-283 | What it leaves open is sound (ids, stamps and rotation sources) exactly when it is not a key inserted without its counter bump |
| KeyStore.LeftoverOneActive | ServerSeckey/ServerSeckey/mysqlOP.cpp:235-254 | It never gives a pair a second Active row, whatever failed |
| KeyStore.LeftoverRotationIsCommitted | ServerSeckey/ServerSeckey/mysqlOP.cpp:154-159 | After a failed insert whose rollback fails too, the next agreement of another pair commits the half-done rotation and the first pair is left without an Active key |
| SlotArray.SecKeyShm.ShmWrite | ServerSeckey/ServerSeckey/SecKeyShm.cpp:31-75 | Overwrites the pair's slot or takes the first empty one; -1 when there is neither |
| SlotArray.SecKeyShm.ShmRead | ServerSeckey/ServerSeckey/SecKeyShm.cpp:77-105 | The pair's slot or an all-zero node |
| SlotArray.SecKeyShm.ShmUpdateStatus | ServerSeckey/ServerSeckey/SecKeyShm.cpp:107-133 | Changes the status of one slot and nothing else |
| SlotArray.SecKeyShm.ShmInit | ServerSeckey/ServerSeckey/SecKeyShm.cpp:23-29 | Zeroes every slot |
| SlotArray.WriteRefines | ServerSeckey/ServerSeckey/SecKeyShm.cpp:31-75 | A write is the write into a map of at most maxNode entries, fails exactly for a new pair on a full array, and appends a new pair behind the cached ones |
| SlotArray.ReadRefines | ServerSeckey/ServerSeckey/SecKeyShm.cpp:77-105 | A read is the map lookup |
| SlotArray.StatusRefines | ServerSeckey/ServerSeckey/SecKeyShm.cpp:107-133 | A status update is the map update; the empty pair also matches an unused slot, which is harmless while 0 is written |
| SlotArray.RunRefines | ServerSeckey/ServerSeckey/SecKeyShm.cpp:31-133 | From zeroed memory any sequence of writes and updates keeps the array a bounded map: occupied slots form a prefix, no pair has two, and the cached pairs are the first maxNode distinct pairs ever written |
| Coherence.AgreeCoherent | ServerSeckey/ServerSeckey/ServerOP.cpp:240-248 | Commit and cache write keep exact agreement: each slot holds the newest key of its pair, its material, and status 1 exactly when the row is Active |
| Coherence.RetireCoherent | ServerSeckey/ServerSeckey/ServerOP.cpp:306-326 | Revoking or expiring an Active row and disabling the pair's slot keeps exact agreement |
| Coherence.ExpireCoherent | ServerSeckey/ServerSeckey/ServerOP.cpp:269-278 | A check keeps exact agreement when it disables the slot only if the slot holds the checked key |
| Coherence.ActiveIsCachedKey | ServerSeckey/ServerSeckey/MessageService.cpp:389-414 | In agreement, an Active row of a cached pair is the one in the slot, with status 1 |
| KeyLookup.ValidIsLive | ServerSeckey/ServerSeckey/MessageService.cpp:381-440 | Whatever the cache holds and whatever fails, a valid answer is for an Active, unexpired row, with the slot of exactly that key, and changed nothing |
| KeyLookup.LookUpAnyhow | ServerSeckey/ServerSeckey/MessageService.cpp:381-440 | Whatever the cache holds and whatever fails: found exactly for a slot of the key or a passed check, valid exactly for an enabled slot of the key and a passed check; only a failed check of an enabled slot disables it, only a disabled slot spares the tables a check |
| KeyLookup.LookUpCoherent | ServerSeckey/ServerSeckey/MessageService.cpp:381-440 | In agreement and without faults: valid exactly for a live key of a cached pair, with the row's own material, found exactly for a held or live key, and still in agreement afterwards |
| Survival.AgreementSparesAll | ServerSeckey/ServerSeckey/ServerOP.cpp:225-248 | An agreement leaves every Active key of every other cached pair as it was, and cached |
| Survival.CheckSparesAll | ServerSeckey/ServerSeckey/ServerOP.cpp:256-293 | A check, whether or not it disables a slot, leaves every cached key that is not due as it was, and cached |
| Survival.LogoutSparesAll | ServerSeckey/ServerSeckey/ServerOP.cpp:295-326 | A logout leaves every other cached key as it was, and cached |
| Survival.SendSparesAll | ServerSeckey/ServerSeckey/MessageService.cpp:88-222 | The decision on a send leaves every cached key that is not due as it was, and cached, with any faults of its two lookups |
| Survival.SurvivalGoesOn | ServerSeckey/ServerSeckey/ServerOP.cpp:399-500 | Survival carries over one more request of a run, for all keys at once; a key needs a reason to end only if the request was answered SUCCESS |
| Survival.SurvivorIsUsable | ServerSeckey/ServerSeckey/MessageService.cpp:381-440 | In agreement, a key that survived and is not due is still the valid answer of the lookup, with its own material |
| Serving.HarmlessSpares | ServerSeckey/ServerSeckey/ServerOP.cpp:206-222 | Requests without a good signature, and logouts whose statement fails, are no reason to end, whatever key or pair they name |
| MessageCrypto.SealedOpens | ClientSecKey/ClientSecKey/MessageClient.cpp:373-420 | What the client seals opens on the server under the same key to the same text, except the empty text, which is refused |
| MessageCrypto.SealedSizes | ClientSecKey/ClientSecKey/MessageClient.cpp:373-420 | Sealing succeeds exactly for a key of 16, 24 or 32 bytes, and yields the nonce given, a tag of 16 bytes and a ciphertext as long as the text |
| MessageCrypto.OpenedExactly | ServerSeckey/ServerSeckey/MessageService.cpp:445-500 | Opening succeeds exactly for the one algorithm, a key of 16, 24 or 32 bytes, a nonce of 12, a tag of 16, a ciphertext that is not empty, and an authentic message |
| MessageCrypto.DecryptedIsRelayable | ServerSeckey/ServerSeckey/MessageService.cpp:503-551 | A text that was decrypted can be re-encrypted exactly when the receiver key has a cipher size |
| Relay.DecisionEvolves | ServerSeckey/ServerSeckey/MessageService.cpp:88-178 | Whatever is decided, key rows live on or expire |
| Relay.RelayedIsLive | ServerSeckey/ServerSeckey/MessageService.cpp:88-222 | With any cache and any faults: relayed only while both keys are live, nothing changed, and the receiver's cached material opens exactly what the sender's opened |
| Relay.RelayedExactly | ServerSeckey/ServerSeckey/MessageService.cpp:39-222 | In agreement and without faults: relayed exactly when the request is valid, the sender's key is live, cached and opens the message, and the receiver's cached key is live and of a cipher size; agreement is kept |
| Relay.RefusalsExactly | ServerSeckey/ServerSeckey/MessageService.cpp:62-291 | In agreement and without faults each result code with its audit action means one thing, both ways: an invalid request, a sender's key that nobody has, one that is dead or not cached, a message it does not open, a receiver without a cached key, with a dead one, with one of no cipher size, a failed insert, success; and each audit target is the key id, the message id or the receiver |
| Relay.RelayedRecordOk | ServerSeckey/ServerSeckey/MessageService.cpp:195-225 | The stored row opens to one text on both sides under the rows it names |
| MessageStore.RecordLasts | ServerSeckey/ServerSeckey/mysqlOP.cpp:244-248 | Later rotation, expiry or logout never changes what a stored message means |
| MessageStore.RecentIsTheEnd | ServerSeckey/ServerSeckey/mysqlOP.cpp:517-570 | The list query returns the last `limit` of the sender's messages, newest first, and misses none of them |
| KeyServer.Server.constructor | ServerSeckey/ServerSeckey/ServerOP.cpp:60-97 | A fresh server is in agreement and in balance |
| KeyServer.Server.LogAction | ServerSeckey/ServerSeckey/MessageService.cpp:600-603 | Exactly one audit attempt; only a successful send counts as one |
| KeyServer.Server.SeckeyAgree | ServerSeckey/ServerSeckey/ServerOP.cpp:190-253 | SUCCESS exactly when the signature verifies and the transaction commits; then tables, cache and response carry the new key, otherwise the cache is untouched and the reply carries neither key id nor data; a bad signature touches neither tables nor cache, whatever faults are due; the tables are exact for every fault; a fault-free call keeps agreement |
| KeyServer.Server.SecKeyCheck | ServerSeckey/ServerSeckey/ServerOP.cpp:256-293 | SUCCESS exactly for a live key, and no reply carries key material; a failed check disables the slot exactly if it holds the checked key; fault-free calls keep agreement |
| KeyServer.Server.SeckeyLogout | ServerSeckey/ServerSeckey/ServerOP.cpp:295-326 | SUCCESS exactly when the Active row was revoked, and then the slot is disabled; otherwise nothing changes; the reply carries the key id alone |
| KeyServer.Server.GetActiveKey | ServerSeckey/ServerSeckey/MessageService.cpp:381-440 | The lookup, on tables and slots in place |
| KeyServer.Server.BuildSendHeader | ServerSeckey/ServerSeckey/MessageService.cpp:555-590 | The response goes back to the sender under the request's message id |
| KeyServer.Server.ValidateRequest | ServerSeckey/ServerSeckey/MessageService.cpp:311-376 | The eight checks of a send, one after another |
| KeyServer.Server.Authorize | ServerSeckey/ServerSeckey/MessageService.cpp:62-222 | Steps 2 to 6 in the order of the source: the decision, with the audit action of each refusal |
| KeyServer.Server.SealForReceiver | ServerSeckey/ServerSeckey/MessageService.cpp:133-222 | The receiver's half: slot, lifecycle check, re-encryption under the checked material |
| KeyServer.Server.HandleSendMessage | ServerSeckey/ServerSeckey/MessageService.cpp:39-291 | One audit attempt, its result 1 exactly for SUCCESS; the decision fixes code, audit action and target, and in agreement without faults each pair of code and action means one thing (as in Relay.RefusalsExactly); a row is stored exactly for SUCCESS (or for an insert that landed unreported, counted exactly), with both triples; ACCEPTED exactly for SUCCESS, and only then a message id is given out; rows, answers and audited successes stay in balance |
| KeyServer.Server.HandleQueryMessage | ServerSeckey/ServerSeckey/MessageQueryService.cpp:29-84 | SUCCESS exactly for an existing message of which the requester is sender or receiver; a refusal discloses nothing but the id asked for; one audit attempt, its result 1 exactly for SUCCESS |
| KeyServer.Server.HandleQueryMessageList | ServerSeckey/ServerSeckey/MessageQueryService.cpp:86-142 | SUCCESS exactly for a valid request for the requester's own messages that the database answers; then the summaries are the recent messages, in order; one audit attempt, its result 1 exactly for SUCCESS |
| KeyServer.Server.ValidateQuery | ServerSeckey/ServerSeckey/MessageQueryService.cpp:144-171 | The checks of a query, one after another |
| KeyServer.Server.ValidateListQuery | ServerSeckey/ServerSeckey/MessageQueryService.cpp:173-215 | The checks of a list query, one after another |
| KeyServer.StoredIdsDiffer | ServerSeckey/ServerSeckey/MessageService.cpp:595-603 | Rows carry ids that were issued, one after another; until the 64-bit counter comes round the first message found under the id of a stored message is that message |
| Serving.ProcessV2Request | ServerSeckey/ServerSeckey/ServerOP.cpp:399-500 | Every packet is answered in kind, to its sender, under its message id, at the time of the call; key material goes out only in the answer to an agreement that succeeded, wrapped for its client, and that only with a good signature; sends and queries are audited once, key requests not at all; only an accepted send adds to the balance, and exactly a relayed send whose insert lands unreported to the unreported rows; a fault-free call keeps agreement, the meaning of every stored message, and every live cached key but one that it logged out or replaced, answering SUCCESS, or that is due |
| Serving.Serve | ServerSeckey/ServerSeckey/MessageService.cpp:229-290 | Over any run of requests: new message_log rows are exactly the SUCCESS answers to sends plus the inserts that landed unreported, audited successful sends exactly those answers; sends and queries are audited once each; stored messages stay; a fault-free run ends as healthy as it began, and every Active key of a cached pair ends unchanged and still cached unless a logout of it or an agreement of its pair was answered SUCCESS, or it came due; refused requests do it no harm |
| ScopedIds.ScopedIdsDiffer | ServerSeckey/ServerSeckey/MessageService.cpp:17-24 | Ids with different sequence numbers differ whatever prefix and clock do |
| ScopedIds.IdGenerator.Generate | ServerSeckey/ServerSeckey/MessageService.cpp:17-24 | Each id carries the next sequence number modulo 2^64 |
| ScopedIds.IssuedIdsDiffer | ServerSeckey/ServerSeckey/MessageService.cpp:595-603 | All ids of one generator differ until its 64-bit counter comes round |
| Client.ClientOP.AgreementRequest | ClientSecKey/ClientSecKey/ClientOP.cpp:97-103 | The request names client, server and command, is dated, and carries key and signature |
| Client.ClientOP.FinishAgreement | ClientSecKey/ClientSecKey/ClientOP.cpp:130-194 | True exactly for a successful reply to a client whose ids have 1 to 11 characters, when there is a slot to be had; the slot then holds the server's key |
| Client.WrittenIsRead | ClientSecKey/ClientSecKey/ClientOP.cpp:168-189 | The read-back finds ids exactly when they were copied whole and a slot was to be had |
| Client.ClientOP.VerificationRequest | ClientSecKey/ClientSecKey/ClientOP.cpp:197-215 | Asked only for a local key that is not disabled, with its id |
| Client.ClientOP.FinishVerification | ClientSecKey/ClientSecKey/ClientOP.cpp:245-267 | Only a readable refusal disables the local key; a lost reply leaves it |
| Client.ClientOP.LogoutRequest | ClientSecKey/ClientSecKey/ClientOP.cpp:270-284 | Asked only for a usable local key, with its id |
| Client.ClientOP.FinishLogout | ClientSecKey/ClientSecKey/ClientOP.cpp:313-335 | Only a confirmed logout disables the local key |
| Client.ClientOP.GetActiveKey | ClientSecKey/ClientSecKey/MessageClient.cpp:349-366 | The local slot, exactly when it is usable |
| Client.ClientOP.SendRequest | ClientSecKey/ClientSecKey/MessageClient.cpp:34-77 | The request carries the id of the key under which its text is sealed |
| Client.ClientOP.FinishSend | ClientSecKey/ClientSecKey/ClientOP.cpp:360-372 | Success exactly for a SUCCESS reply; the id the server stored the message under is remembered, and on failure the old one kept |
| Client.ClientOP.QueryRequest | ClientSecKey/ClientSecKey/MessageClient.cpp:147-164 | A query is asked exactly for an id that is not empty, in the client's name |
| EndToEnd.AgreeKey | ClientSecKey/ClientSecKey/ClientOP.cpp:75-195 | Against the server, with any table fault, rollbacks included, and any lost reply: every cached key stays the key of the row it names; success exactly when granted, delivered and storable, and then all three stores hold the same new key |
| EndToEnd.SendText | ClientSecKey/ClientSecKey/MessageClient.cpp:34-143 | With any caches and any faults: when the client is told SUCCESS, a message is stored under the id it remembers, which the receiver's row opens to exactly the text sent, and both keys are live; without faults it gets through exactly when both keys are live, cached and usable |
| EndToEnd.SealedGetsThrough | ServerSeckey/ServerSeckey/MessageService.cpp:88-222 | Without faults a sealed packet is relayed exactly when the sender's key is live and cached and the receiver's cached key is live and of a cipher size |
| EndToEnd.RelayedIsRead | ServerSeckey/ServerSeckey/MessageService.cpp:115-225 | A relayed message opens under the receiver's row to what the client sealed |
| EndToEnd.BothAgreed | ServerSeckey/ServerSeckey/ServerOP.cpp:190-253 | After agreements of two clients a message of one gets through to the other |
| EndToEnd.AgreeAndSend | ClientSecKey/ClientSecKey/ClientOP.cpp:339-373 | Two clients agree, one sends: it succeeds, and the receiver's own cached key opens the stored message to the text sent |
| Stories.StillHeld | ServerSeckey/ServerSeckey/MessageService.cpp:381-440 | A key that was held, live, before a run that did not end it with a SUCCESS is in its slot after the run, live, and the valid answer of the lookup |
| Stories.ServeThenSend | ServerSeckey/ServerSeckey/ServerOP.cpp:399-500 | Two clients hold live keys, the server serves any fault-free run, then one client sends: unless a logout of one of the keys or an agreement of one of the pairs was answered SUCCESS, or a key came due, it succeeds, and the receiver's own cached key opens the stored message to the text sent |
| Stories.AgreeServeAndSend | ClientSecKey/ClientSecKey/ClientOP.cpp:75-195 | The same from two agreements on: the agreed keys outlast every refused request, and every other but a logout of theirs or another agreement of their pairs, until they expire |
| Stories.QueryStored | ServerSeckey/ServerSeckey/MessageQueryService.cpp:29-84 | Until the id counter comes round, a query for the id of a stored message by its sender or its receiver returns that message: its id, sender, receiver, sender's key id and time, the type text and status 1 |
| Stories.ServeThenQuery | ServerSeckey/ServerSeckey/MessageQueryService.cpp:29-84 | The same after any further run of requests, with any faults |
| Stories.SendThenQuery | ClientSecKey/ClientSecKey/MessageClient.cpp:147-164 | A client that sends and queries the id it remembers gets its own message back, with the key id it sealed under and the time of the send |
| Interleaving.ApplyKeepsInv | ServerSeckey/ServerSeckey/ServerOP.cpp:225-251 | Any single step of any worker or client, failed rollbacks included, keeps: every used slot, reply and task in flight agrees with the row its key id names, stored messages keep their meaning, no pair has two Active keys, and tables stay sound but for a missing counter bump; each row moves at most out of Active |
| Interleaving.RunKeepsInv | ServerSeckey/ServerSeckey/ServerOP.cpp:96-97 | The same over any interleaving of any length |
| Interleaving.ReachableStates | ServerSeckey/ServerSeckey/mysqlOP.cpp:256-297 | From a fresh installation, in every reachable state each used server and client slot holds the client, server and material of the row its key id names, every stored message opens to one text on both sides, and no pair has two Active keys; tables are sound as long as no rollback failed after a key was inserted without its counter bump |
| Interleaving.ServerReadsWhatTheClientSealed | ServerSeckey/ServerSeckey/MessageService.cpp:381-407 | In every such state a message that a client sealed is opened by the server to exactly the text sealed |
| Interleaving.ReceiverReadsWhatTheSenderSealed | ServerSeckey/ServerSeckey/MessageService.cpp:126-253 | A stored message that a client sealed opens, under any cached copy of the receiver's key, to the text sealed |
| Interleaving.StoredMeaningLasts | ServerSeckey/ServerSeckey/mysqlOP.cpp:244-248 | A stored message opens to the same text after any further run |
| Interleaving.LoggedOutIsDead | ServerSeckey/ServerSeckey/ServerOP.cpp:306-316 | In every reachable state the cache is disabled for a logout only after the key's row has left Active, and the row stays as it is for good |
| Alone.AgreementAlone | ServerSeckey/ServerSeckey/ServerOP.cpp:225-251 | A request whose steps nobody interrupts ends as the serial handler ends: an agreement with any failing calls, in tables, slots and the key that goes out |
| Alone.CheckAlone | ServerSeckey/ServerSeckey/ServerOP.cpp:256-293 | The same for a check, with either statement failing, in tables, slots and answer |
| Alone.LogoutAlone | ServerSeckey/ServerSeckey/ServerOP.cpp:295-326 | The same for a logout, whether or not its statement fails, in tables and slots |
| Alone.SendFinish | ServerSeckey/ServerSeckey/MessageService.cpp:39-291 | The same for a send, with any faults of its lookups and its insert, in tables, slots and stored messages |
| Alone.CheckFinish | ServerSeckey/ServerSeckey/mysqlOP.cpp:300-354 | A check alone, with an expiry statement that fails and lands included |
| Alone.LogoutFinish | ServerSeckey/ServerSeckey/mysqlOP.cpp:356-380 | A logout alone, with a statement that fails and lands included: the cache is then not told |
| Alone.RequestsCanFinish | ServerSeckey/ServerSeckey/ServerOP.cpp:399-500 | From any state any request can arrive and run to its end, whatever else is under way, and leaves no task behind |
| Alone.DueKeysExpire | ServerSeckey/ServerSeckey/mysqlOP.cpp:300-354 | Time passes: a key that has come due and is then checked is Expired, and the check says so |
| Alone.ClientsSealUnderTheReply | ClientSecKey/ClientSecKey/MessageClient.cpp:349-420 | A reply that a client stores is what it then seals under, and a slot that it disables it no longer uses |
| Interleaving.ValidMeansLive | ServerSeckey/ServerSeckey/MessageService.cpp:381-440 | getActiveKey turns valid only at a select that finds the row Active, which had not expired at the expiry statement before it, and returns the row's material |
| Interleaving.SuccessIsLive | ServerSeckey/ServerSeckey/mysqlOP.cpp:300-354 | Any check, of getActiveKey or of secKeyCheck, succeeds only at a select that finds the row Active, which was not due at the expiry statement before it |
| Interleaving.DeadKeysStayDead | ServerSeckey/ServerSeckey/mysqlOP.cpp:300-354 | Once a key has left Active its row never changes and no later check of it succeeds, by getActiveKey or by secKeyCheck, whatever happens and whatever the caches hold; a SUCCESS that secKeyCheck still answers belongs to a check that had succeeded before |
| Varint.RoundTrip | ClientSecKey/ClientSecKey/MessageV2.pb.cc:2560-2610 | Every 64-bit value survives its varint, whatever bytes follow |
| Varint.SignedUnsigned | ClientSecKey/ClientSecKey/MessageV2.pb.cc:2566-2575 | Signed values survive the sign extension to 64 bits and the cut to 32 |
| Varint.CutToWidth | ClientSecKey/ClientSecKey/MessageV2.pb.cc:2566-2575 | A longer varint is cut to 32 or 64 bits as a C++ cast cuts it |
| Varint.ThreeHundred | ClientSecKey/ClientSecKey/MessageV2.pb.cc:2560-2610 | The example of the Encoding guide, bytes 172 and 2 |
| Utf8.ValidExactly | ClientSecKey/ClientSecKey/MessageV2.pb.cc:1140-1167 | A string passes the parser's check exactly if it encodes some sequence of Unicode scalar values |
| Varint.NegativesTakeTenBytes | ClientSecKey/ClientSecKey/MessageV2.pb.cc:2714-2717 | A negative int32, int64 or enum value takes ten bytes |
| WireProofs.ByteSizeIsLength | ClientSecKey/ClientSecKey/MessageV2.pb.cc:6679-6749 | ByteSizeLong is the exact number of bytes written, at every nesting level |
| WireProofs.RoundTrip | ClientSecKey/ClientSecKey/MessageV2.pb.cc:6453-6614 | For every message class: parse undoes serialize, and succeeds exactly if all strings are valid UTF-8; otherwise it leaves everything up to and including the first invalid string |
| WireProofs.ParseIsMerge | ClientSecKey/ClientSecKey/MessageV2.pb.cc:6766-6805 | Parsing serialize(b) into a is a.MergeFrom(b) |
| WireProofs.ParseMergesReceived | ClientSecKey/ClientSecKey/MessageV2.pb.cc:1140-1167 | Parsing any serialization into any message merges in what was received up to and including the first invalid string, at every nesting level |
| WireProofs.ParseConcatenation | ClientSecKey/ClientSecKey/MessageV2.pb.cc:6453-6558 | Parsing serialize(a) followed by serialize(b) gives a.MergeFrom(b) |
| WireProofs.MergeIntoDefault | ClientSecKey/ClientSecKey/MessageV2.pb.cc:6766-6805 | Merging into an empty message copies it, however deeply nested |
| WireProofs.ParseList | ClientSecKey/ClientSecKey/MessageV2.pb.cc:5883-5892 | Repeated submessages append in order |
| Records.SerializationIsRecords | ClientSecKey/ClientSecKey/MessageV2.pb.cc:6561-6614 | The serializer writes exactly the message's records, in field order: numbers as varints, strings and submessages with their lengths, nothing for a default value |
| Records.UnknownIsIgnored | ClientSecKey/ClientSecKey/MessageV2.pb.cc:6542-6556 | A record that a class does not know, of any wire type, nested groups included, changes nothing wherever it stands |
| Records.SkippedWhole | ClientSecKey/ClientSecKey/MessageV2.pb.cc:6542-6556 | A reader that knows no field skips every serialization whole |
| WireMessage.SizeOf | ClientSecKey/ClientSecKey/MessageV2.pb.cc:5992-6030 | The size loop adds up the exact size |
| WireMessage.WriteTo | ClientSecKey/ClientSecKey/MessageV2.pb.cc:6561-6614 | The serializer appends exactly the serialization |
| WireMessage.ParseInto | ClientSecKey/ClientSecKey/MessageV2.pb.cc:6453-6558 | The parse loop, record by record, is the parser function, with what a failed parse leaves |
| WireMessage.MergeInto | ClientSecKey/ClientSecKey/MessageV2.pb.cc:6766-6805 | The field-by-field merge loop is the merge function |
| WireMessage.GeneratedMessage.ByteSizeLong | ClientSecKey/ClientSecKey/MessageV2.pb.cc:7297-7350 | The number of bytes that serialization writes |
| WireMessage.GeneratedMessage.SerializeToString | ServerSeckey/ServerSeckey/V2RequestCodec.cpp:153-160 | Fails, with nothing written, exactly for 2^31 bytes or more |
| WireMessage.GeneratedMessage.MergePartialFromCodedStream | ClientSecKey/ClientSecKey/MessageV2.pb.cc:7119-7202 | Parses into the current contents; after a failure it keeps what was stored by then |
| WireMessage.GeneratedMessage.ParseFromString | ServerSeckey/ServerSeckey/V2RequestCodec.cpp:162-169 | Parses into a cleared message; after a failure it keeps what was stored by then |
| WireMessage.GeneratedMessage.MergeFrom | ClientSecKey/ClientSecKey/MessageV2.pb.cc:7370-7400 | Merges another message of the class in place and leaves that one alone |
| Packets.RequestConforms | ClientSecKey/ClientSecKey/MessageV2.pb.h:4440-4478 | A typed packet is a message with at most one body member set |
| Packets.ResponseConforms | ClientSecKey/ClientSecKey/MessageV2.pb.cc:7119-7202 | The same for responses, with their repeated summaries |
| Codec.RequestRoundTrip | ServerSeckey/ServerSeckey/V2RequestCodec.cpp:153-169 | Every request, nested header and every body including all-default ones, decodes from its encoding field by field; the parse fails exactly for strings that are not UTF-8 |
| Codec.ResponseRoundTrip | ServerSeckey/ServerSeckey/V2RespondCodec.cpp:137-152 | The same for every response, with all repeated summaries |
| Codec.DecodedFits | ClientSecKey/ClientSecKey/MessageV2.pb.cc:2560-2610 | Whatever bytes arrive, every number of the packet handed on fits its C++ field |
| Layout.RequestBytes | ServerSeckey/ServerSeckey/MessageV2.proto:129-280 | Every request is encoded as the records of its fields, by the number, type and order that the .proto file gives them |
| Layout.ResponseBytes | ServerSeckey/ServerSeckey/MessageV2.proto:182-299 | The same for every response |
| Layout.RequestStart | ClientSecKey/ClientSecKey/MessageV2.pb.cc:6561-6614 | An encoded request starts with byte 10 if it has a header, and else with 18, 26, 34, 42, 50 or 58, as its body is; only the empty packet is empty |
| Layout.ResponseStart | ClientSecKey/ClientSecKey/MessageV2.pb.cc:7205-7240 | An encoded response starts with byte 10 if it has a header, and else with 18, 26, 34 or 42 |
| Codec.MergeIsTyped | ClientSecKey/ClientSecKey/MessageV2.pb.cc:6766-6805 | RequestPacket::MergeFrom on packets: non-default scalars overwrite, the same body case merges, another replaces, none keeps |
| Codec.RequestConcatenation | ClientSecKey/ClientSecKey/MessageV2.pb.cc:6453-6558 | Two encoded requests one after the other decode to the second merged into the first |
| Codec.PacketMerge | ClientSecKey/ClientSecKey/MessageV2.pb.h:4440-4478 | MergeFrom of either packet, whatever its bodies: the header merges, the same body case merges, another replaces, none keeps |
| Codec.ResponseMergeIsTyped | ClientSecKey/ClientSecKey/MessageV2.pb.cc:7370-7400 | ResponsePacket::MergeFrom on packets: as for requests, and two lists of summaries are put one after the other |
| Codec.ResponseConcatenation | ClientSecKey/ClientSecKey/MessageV2.pb.cc:7119-7202 | Two encoded responses one after the other decode to the second merged into the first |
| Codec.GroupingMatters | ClientSecKey/ClientSecKey/MessageV2.pb.h:4469-4478 | For all packets: the grouping of three merges matters exactly when the outer two set the same body, the middle one another, and the last leaves a field at its default that the first sets |
| Codec.MergeIsNotAssociative | ClientSecKey/ClientSecKey/MessageV2.pb.h:4469-4478 | Three such packets |
| RefusedPackets.AnyRequestDecodes | ServerSeckey/ServerSeckey/V2RequestCodec.cpp:162-169 | What the dispatcher gets for any encoded request, valid strings or not: the parse succeeds exactly if all are valid, and the packet holds every field up to and including the first invalid string; an invalid header hides the body, an invalid body keeps its case |
| RefusedPackets.AnyResponseDecodes | ServerSeckey/ServerSeckey/V2RespondCodec.cpp:145-152 | The same for any encoded response; of a list the client gets the summaries up to the first that is refused, of which a part |
| RefusedPackets.RefusedAgreementIsDispatched | ClientSecKey/ClientSecKey/MessageV2.pb.cc:1140-1167 | An agreement whose signature is not UTF-8 is refused by the parser and reaches the dispatcher in full |
| Codecs.V2RequestCodec.InitMessage | ServerSeckey/ServerSeckey/V2RequestCodec.cpp:52-151 | Sets every header and body field, displacing a body set before |
| Codecs.V2RequestCodec.EncodeMsg | ServerSeckey/ServerSeckey/V2RequestCodec.cpp:153-160 | The serialization, or nothing for 2^31 bytes or more |
| Codecs.V2RequestCodec.DecodeMsg | ServerSeckey/ServerSeckey/V2RequestCodec.cpp:162-169 | The packet as far as it was parsed, whether or not the parse succeeded |
| Codecs.V2RespondCodec.InitMessage | ServerSeckey/ServerSeckey/V2RespondCodec.cpp:42-135 | Sets every header and body field; the summary loop adds every summary in order, behind those of an earlier call |
| Codecs.V2RespondCodec.EncodeMsg | ServerSeckey/ServerSeckey/V2RespondCodec.cpp:137-143 | The serialization, or nothing for 2^31 bytes or more |
| Codecs.V2RespondCodec.DecodeMsg | ServerSeckey/ServerSeckey/V2RespondCodec.cpp:145-152 | The packet as far as it was parsed, whether or not the parse succeeded |
| Codecs.RefusedBytesDecodeEmpty | ServerSeckey/ServerSeckey/V2RequestCodec.cpp:162-169 | decodeMsg ignores the parse result: bytes with a zero first tag decode to an empty packet |
| Codecs.WriteRequest | ServerSeckey/ServerSeckey/V2RequestCodec.cpp:52-160 | The codec writes an info structure as the records of its fields, or nothing from 2^31 bytes on |
| Codecs.WriteResponse | ServerSeckey/ServerSeckey/V2RespondCodec.cpp:42-143 | The same for responses |
| Codecs.RequestOverTheWire | ServerSeckey/ServerSeckey/V2RequestCodec.cpp:52-169 | Codec decode of codec encode gives back every info field |
| Codecs.ResponseOverTheWire | ServerSeckey/ServerSeckey/V2RespondCodec.cpp:42-152 | Codec decode of codec encode gives back every info field and every summary |
| Framing.Sender.Writen | ServerSeckey/ServerSeckey/TcpSocket.cpp:337-372 | Success puts all of the data on the wire, failure a proper prefix; success exactly if no call failed, however often it was interrupted |
| Framing.Sender.SendMsg | ServerSeckey/ServerSeckey/TcpSocket.cpp:102-136 | The same for one frame |
| Framing.Receiver.Readn | ServerSeckey/ServerSeckey/TcpSocket.cpp:283-313 | Success is exactly the requested bytes; the end of the stream is reported only when fewer are left; -1 exactly if some recv call failed, an interruption included; a length that is not positive succeeds with nothing |
| Framing.Receiver.RecvMsg | ServerSeckey/ServerSeckey/TcpSocket.cpp:157-180 | Success is the next frame of the stream, whole, and comes exactly if no recv call failed and the stream holds a whole frame |
| Framing.CutStream | ServerSeckey/ServerSeckey/TcpSocket.cpp:157-180 | A stream of frames cut anywhere yields exactly the payloads whose frames arrived whole, never a truncated one |
| Framing.FramesRoundTrip | ServerSeckey/ServerSeckey/TcpSocket.cpp:102-180 | A sequence of payloads sent in full arrives as the same sequence |
| Framing.AnnouncedLength | ServerSeckey/ServerSeckey/TcpSocket.cpp:172-180 | The received payload has the announced length exactly for lengths below 2^31; a larger one is taken for an empty message |
| Framing.MostSignificantFirst | ServerSeckey/ServerSeckey/TcpSocket.cpp:102-136 | The four length bytes are the length with the most significant byte first |
| Framing.SendAll | ServerSeckey/ServerSeckey/TcpSocket.cpp:102-136 | After a failure the wire holds the frames sent and a proper prefix of the next |
| Framing.ReceiveAll | ServerSeckey/ServerSeckey/TcpSocket.cpp:157-180 | Receives the payloads of the stream in order, all of them unless a call fails |
| Framing.Converse | ServerSeckey/ServerSeckey/TcpSocket.cpp:102-180 | Over any splitting by send and recv the receiver gets a prefix of what was sent, all of it when no call fails, with any finite number of send interruptions |
| TaskPool.ReachablePools | ServerSeckey/ServerSeckey/ThreadPool.cpp:25-65 | For any number of workers and any schedule: pushed tasks are the taken ones followed by the queued ones, each taken task is finished or on exactly one worker, and min(queued, workers) never exceeds awake workers plus notifications under way |
| TaskPool.ApplyKeepsInv | ServerSeckey/ServerSeckey/ThreadPool.cpp:40-65 | Each single step keeps this |
| TaskPool.DrainedOnExit | ServerSeckey/ServerSeckey/ThreadPool.cpp:12-23 | When all workers have exited and no enqueue straddled the stop, every pushed task has been run |
| TaskPool.LateTaskIsLost | ServerSeckey/ServerSeckey/ThreadPool.cpp:28-37 | A task pushed after the last exit stays queued through every continuation and is never run |
| TaskPool.LostExactly | ServerSeckey/ServerSeckey/ThreadPool.cpp:28-37 | After the last exit from a drained queue a task can still be lost exactly when some enqueue is past its stop test |
| TaskPool.StraddledLosesItsTask | ServerSeckey/ServerSeckey/ThreadPool.cpp:28-37 | Such a run |
| TaskPool.WakeUpIsLostExactly | ServerSeckey/ServerSeckey/ThreadPool.cpp:16-17 | A worker can be asleep after notify_all exactly when some worker is between its predicate and its block at that moment, because the stop flag is set without the mutex |
| TaskPool.SleepsOn | ServerSeckey/ServerSeckey/ThreadPool.cpp:18-22 | Such a worker sleeps through every continuation without spurious wake-ups |
| PoolProgress.TasksCanRun | ServerSeckey/ServerSeckey/ThreadPool.cpp:25-65 | In every reachable pool with workers, before the stop, all pushed tasks can be taken and run without spurious wake-ups and without further enqueues: no wake-up is lost |
| Dispatch.OneTaskEach | ServerSeckey/ServerSeckey/ServerOP.cpp:168-178 | In every reachable state a descriptor is marked exactly while it has a task being enqueued, queued or running, and then exactly one |
| Dispatch.ApplyKeepsExclusive | ServerSeckey/ServerSeckey/ServerOP.cpp:376-396 | Each single step keeps this |
| Dispatch.FirstEventIsSkippedExactly | ServerSeckey/ServerSeckey/ServerOP.cpp:168-178 | In every reachable state, hang-ups included, the first event of a new connection is skipped exactly when a task for an earlier connection of that number is still there |
| Dispatch.WithoutHangupsOnlyTheMarkIsLeft | ServerSeckey/ServerSeckey/ServerOP.cpp:370-371 | If the number never hung up, that task has closed the earlier connection and only its mark is left |
| Dispatch.OldTaskOutlivesAHangup | ServerSeckey/ServerSeckey/ServerOP.cpp:180-184 | A new connection meets a task that has yet to close exactly when an earlier peer of that number hung up with its task pending, and the task has been pending since |
| Dispatch.OldTaskClosesTheNewConnection | ServerSeckey/ServerSeckey/ServerOP.cpp:168-184 | In every reachable state, a new connection whose peer sends nothing and stays can be closed by the server exactly when a task for an earlier connection of its number has yet to close |
| Dispatch.TakenOverIsClosed | ServerSeckey/ServerSeckey/ServerOP.cpp:180-184 | Such a run: the old task closes a connection it was not made for |
| Dispatch.ReusedIsSkipped | ServerSeckey/ServerSeckey/ServerOP.cpp:171-178 | A run without hang-ups in which the first event is skipped; removing the mark does not bring it back |

## Left out

Assumptions:

- Each `mysqlOP` statement, the agreement's transaction and each slot call is atomic in
  `Interleaving`. The workers share one connection, so the code itself does not give this.
- Ids in requests are free of NUL and at most 11 characters, Base64 of a key at most 127:
  the server copies them into `char[12]` and `char[128]`. `Client` models the truncation of
  its own copies; the server side does not.
- The database compares ids byte by byte, and the two tables start as `init_db.sql`
  creates them.
- The mapping of the shared memory always succeeds.
- Clocks, random bytes, signature checks and results of RSA are parameters; RSA appears
  only as "the requester recovers the key".
- A serial statement that reports an error had no effect, except for `commit` and the
  `message_log` insert; in `Interleaving` it may have had one.

Not modelled:

- KeyServer.Server.HandleSendMessage: leaves response and audit texts empty and does not say
  whether the audit insert itself succeeds, which every caller ignores. The texts of the other handlers are left empty too.
- `writeSecKey` and `getKeyId`: the server does not call them.
- SQL text, escaping, reconnection, ties in `send_time`, and the conversion of date texts:
  the send time is a number and records are stored in its order.
- `sendMsg` for payloads of 2^31 - 4 bytes and more, whose frame size overflows an `int`.
- Timeouts, `select`, epoll set-up, accept errors, menus, logging and configuration.
- Unknown-field storage, arenas, cached sizes, reflection and the recursion limit of the
  protobuf runtime.
- The readers of the protobuf runtime are not part of the repository. A length that
  overruns its input is refused, as in the Encoding guide, and the bytes that were there
  are taken as read; what else a reader leaves when the input ends early is not modelled.
- `ServerOP::processV2Request` works on bytes; `Serving` takes the decoded packet, and
  `Codecs` has the way from info fields to bytes and back.
- The generated classes keep their fields as one value; submessages are not objects of their
  own, so aliasing through `mutable_` pointers is not captured.
- `KeyServer.Server` starts with an empty `message_log` and empty tables; its balance counts
  from there.
- Liveness under concurrency: a stale or wrongly disabled slot after racing handlers costs
  availability only.
- The pool's stop in `Dispatch`: the event loop never stops its pool while it runs.
- OpenSSL, `AesCrypto`, `Hash`, `RsaCrypto`, `Config`, `Logger` and the JSON library.
