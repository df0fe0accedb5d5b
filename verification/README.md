# Verified models of MeowLib's caches, voice pipeline and encodings

MeowLib is a C++ Discord library. This project models its state-carrying parts in Dafny and
proves what they promise over every input and every run. `dafny verify dfyconfig.toml` checks
all of it.

The code that updates fields in place is modelled by classes and loops; each method is proved
equal to a step of a plain function, and the theorems are about those functions and their runs.

| file | what it models |
|---|---|
| `Recency.dfy`, `Inclusion.dfy`, `Retention.dfy` | an LRU cache as a list of entries, most recent first; two capacities compared; how long an entry stays |
| `LruCache.dfy` | the pointer list and map of `LruCache`, refining that list |
| `DiscordCache.dfy`, `GuildRoles.dfy` | the cache with a time to live, and the role index of one guild |
| `Uleb128.dfy`, `Encryptor.dfy` | the DAVE frame encryptor: nonce, key generations, trailer |
| `Mls.dfy`, `DaveSession.dfy`, `Dave.dfy`, `Dispatch.dfy` | the DAVE session as a state machine, its handlers, the opcode dispatch |
| `DaveRuns.dfy`, `DaveInputs.dfy`, `MediaKeys.dfy`, `DaveExamples.dfy` | theorems over runs of the session: proposals, transitions, groups joined; what it remembers of its inputs; what media frames are sealed under; runs on which a law fails |
| `Rtp.dfy`, `VoicePipeline.dfy`, `VoiceConnection.dfy` | RTP packets, the interleaved send pipeline, its methods |
| `HChaCha20.dfy`, `HChaChaVector.dfy`, `Base64.dfy`, `Multipart.dfy`, `Bytes.dfy`, `Snowflake.dfy` | byte-level transformations |
| `Wrappers.dfy`, `FiniteSets.dfy` | the option type, sizes of sets |

Conventions. C++ widths appear as explicit moduli (`uint16_t` sequence numbers modulo 2^16, and so
on); HChaCha20 uses 32-bit vectors. Clock readings, random seeds, API answers and the success of
foreign calls (OpenSSL, mlspp, REST) are parameters, and one reading of the clock stands for all
readings within one call or loop. The machine is little-endian. A `requires` on a handler is what
the C++ dereferences without a check: `CanInsert` for the tail's predecessor, `CanCommit`,
`CanJoin` and `CanExecute` for optionals of the session. An exception that leaves a handler of the
session is caught nowhere (src/voice/recv.cpp catches only those of the HTTP library) and ends the
process, so it ends a run; what a throwing welcome check leaves behind, no event ever finds.

Where the code and an expected law differ, the exact condition is proved, and a lemma gives an
input on which the law fails:

- The nested revoke loop filters the proposal cache if and only if no revoked reference is cached
  more often than it is revoked (`RevokeIsFilter`; fails in `DuplicateSurvives`).
- After an append, the commit state stands for the whole proposal cache if and only if the cache
  was empty before (`AppendCoversCache`; fails in `SecondAppendForgets`).
- A welcome that passes the check has exactly the expected members if and only if no identity
  occurs twice in its roster (`AcceptedRoster`; fails in `RepeatedMemberPasses`).
- Media frames sealed under the same group state share generation and nonce if and only if their
  numbers, each since its own key change, agree modulo 2^56 (`UsesAgree`). Within one key period that
  is every 2^56 frames (`PairsDistinct`), but every key change starts the numbers over: over a run
  some (group state, generation, nonce) repeats if and only if one period emits more than 2^56 frames
  or media is keyed again, between two frames, from the state it was keyed from (`RepeatsIff`). Where
  no group state becomes current twice, that means an encryptor created anew while it is keyed from
  the current state already (`RepeatsIffRedundant`; fails in `KeyedTwice`).
- A prepared transition can be executed if and only if it is to version zero or creating an
  encryptor leaves one in place; otherwise an absent encryptor is dereferenced (`ExecuteGuard`; fails
  in `ExecuteBeforeGroup` and `ExecuteAfterReset`).
- An announced commit can be taken if and only if the lasting epoch has seen proposals and, where the
  message is a valid commit, answered some; otherwise an absent state is dereferenced (`CommitGuard`;
  fails in `UnansweredCommit`).
- Cached and known roles agree throughout a guild's history if and only if it never had more than a
  thousand known roles (`AgreeIffNeverCrowded`); beyond that the cache never serves (`TooManyRoles`;
  fails in `CrowdedGuild`).
- Form data reads back if and only if no body contains the delimiter or starts with the dashes and
  the boundary (`FormDataRoundTrip`, `BodyOkIs`). Serialised JSON has no carriage return and does not
  start with dashes, so only attachments matter (`FormDataReadsBack`; fails in `AttachmentMisread`).
- Transport nonces repeat exactly every 2^32 frames built (`NonceTheorem`; one does in `NonceRepeats`).

## Model

| member | source | states |
|---|---|---|
| LruCache.LruCache.Valid | include/lrucache.h:205-208 | the chain from hd visits the map's nodes once each, prev inverts next, tl is last while hd is not null, each node is stored under its own key, and the live nodes are exactly those of the chain |
| LruCache.LruCache.Insert | include/lrucache.h:41-70 | refines the list insert; the only demand is that a new key does not meet a single-node cache of capacity below two |
| LruCache.LruCache.InsertFirst | include/lrucache.h:42-49 | the first node of an empty cache, whatever the capacity |
| LruCache.LruCache.Overwrite | include/lrucache.h:50-55 | a present key gets the value and moves to the front |
| LruCache.LruCache.Evict | include/lrucache.h:56-62 | drops exactly the least recently used entry and frees its node |
| LruCache.LruCache.PushFront | include/lrucache.h:63-69 | adds one fresh node in front |
| LruCache.LruCache.Get | include/lrucache.h:73-78 | answers as the list does and moves a hit to the front; a miss changes nothing |
| LruCache.LruCache.Erase | include/lrucache.h:84-106 | removes exactly the key, at either end or between, and frees its node |
| LruCache.LruCache.MoveToHead | include/lrucache.h:186-203 | relinks one node to the front, moving no other and changing no payload |
| LruCache.LruCache.FreeCache | include/lrucache.h:175-184 | frees every live node exactly once |
| LruCache.LruCache.Clear | include/lrucache.h:32-35 | leaves an empty cache with no live node |
| LruCache.LruCache.SetMaxSize | include/lrucache.h:37-39 | changes the capacity only; nothing is evicted |
| LruCache.LruCache.Shape | include/lrucache.h:205-207 | map size, list length and entry count agree, and the map leads to the entry's node |
| LruCache.FrontKeepsValid | include/lrucache.h:186-203 | moving a node to the front is what a hit on its key does, and keeps the map in step |
| LruCache.DropKeepsValid | include/lrucache.h:84-106 | unlinking a node and erasing its key is what removing the key does |
| Recency.InsertKeys | include/lrucache.h:41-70 | an insert keeps keys distinct, drops only the last key and only when full, and never grows beyond the old size or the capacity (at least one) |
| Recency.InsertLookup | include/lrucache.h:41-70 | after an insert every key answers as before, except the inserted one and the one evicted |
| Recency.TouchLookup | include/lrucache.h:73-78 | a get changes no answer |
| Recency.RemoveLookup | include/lrucache.h:84-106 | an erase changes the answer of that key only |
| Inclusion.InclusionTheorem | include/lrucache.h:41-106 | on any run of inserts, gets and erases the smaller cache's recency list is a subsequence of the larger's |
| Inclusion.LargerNeverMissesMore | include/lrucache.h:41-106 | a hit in the smaller cache is a hit with the same value in the larger |
| Retention.RetentionTheorem | include/lrucache.h:41-106 | an entry stays until it is erased or capacity-many other keys have been used since its last use |
| DiscordCache.CachedIsLatest | include/cache.h:39-71 | in every run, what is cached under a key is what was last inserted there and not erased, stamped with that moment |
| DiscordCache.HitsAreNeverWrong | include/cache.h:66-71 | a hit is the latest insertion, not erased since and at most ten minutes old |
| DiscordCache.HitsAreGuaranteed | include/cache.h:66-71 | with fewer than a thousand other keys used since, the object is served exactly until it is ten minutes old |
| DiscordCache.UsersHaveNoGuild | include/cache.h:39-45 | a user served from the cache is the one inserted last, id and name, without guild data |
| DiscordCache.GenericDiscordCache.Insert | include/cache.h:39-45 | records the insertion of the prepared copy at the current time |
| DiscordCache.GenericDiscordCache.Erase | include/cache.h:47-50 | records the erasure of the key |
| DiscordCache.GenericDiscordCache.GetFromCache | include/cache.h:66-71 | what it serves is the last insertion in the object's history, not erased since and at most the time to live old; fresh and expired entries are promoted alike |
| DiscordCache.GenericDiscordCache.Get | include/cache.h:52-64 | serves a hit unless forced; otherwise returns the API's answer and caches it if it is not an error; counts hits and misses |
| GuildRoles.Coherence | src/guild.cpp:221-249 | in every run cached roles are known, sit under their own id, are the version last inserted, and number at most a thousand |
| GuildRoles.TooManyRoles | include/guild.h:130-138 | a guild with more than a thousand known roles is never served from the cache |
| GuildRoles.NothingLost | src/guild.cpp:221-249 | while a guild has never had more than a thousand known roles, exactly its known roles are cached |
| GuildRoles.AgreeIffNeverCrowded | src/guild.cpp:221-249 | cached and known ids agree at every moment of a history if and only if there were never more than a thousand known |
| GuildRoles.CrowdedGuild | src/guild.cpp:221-249 | a thousand and one roles just inserted: one is lost from the cache and nothing is served |
| GuildRoles.ServedIff | src/guild.cpp:251-266 | for such a guild the role list is served from the cache exactly when it is not empty and every known role was last inserted within the time to live |
| GuildRoles.KnownIffLatest | src/guild.cpp:221-249 | the id set holds exactly the ids inserted and not removed since |
| GuildRoles.ReadsKeep | src/guild.cpp:257-264 | looking at any ids in any order changes no known id, no cached key and no answer |
| GuildRoles.ServedIsCurrent | src/guild.cpp:251-274 | what is served for an id is known, current, and at most the time to live old |
| GuildRoles.GuildRoleCache.InsertGuildRole | src/guild.cpp:221-229 | records one insertion in id set and cache |
| GuildRoles.GuildRoleCache.InsertGuildRoles | src/guild.cpp:231-241 | records the insertions of a list in order |
| GuildRoles.GuildRoleCache.RemoveGuildRole | src/guild.cpp:243-249 | removes the id from set and cache |
| GuildRoles.GuildRoleCache.CollectRoles | src/guild.cpp:257-265 | yields a list exactly when every known id is cached and fresh; then one role per id |
| GuildRoles.GuildRoleCache.GetGuildRoles | src/guild.cpp:251-266 | served from the cache exactly when not forced and every known id is cached and fresh; otherwise the API's answer |
| GuildRoles.GuildRoleCache.GetGuildRole | src/guild.cpp:268-274 | consults the cache only for a known id; what a fetch returns is stored under its own id |
| GuildRoles.GuildRoleCache.FetchGuildRoles | src/guild.cpp:306-324 | stores what the API answered, or nothing on an error |
| GuildRoles.FetchStores | src/guild.cpp:306-324 | after a fetch the version that counts of every role in the answer is the last of its id there, as of now; the others, and all after a failure, are as before |
| GuildRoles.InsertsAre | src/guild.cpp:237-240 | a stored list is one insertion a role, in order, each under its own id |
| Uleb128.EncodeLoop | src/voice/dave/encryptor.cpp:21-29 | the loop terminates and computes the encoding |
| Uleb128.RoundTrip | src/voice/dave/encryptor.cpp:21-29 | decoding inverts encoding whatever bytes follow |
| Uleb128.Groups | src/voice/dave/encryptor.cpp:21-29 | byte i holds the i-th group of seven bits, with its high bit set exactly if another byte follows |
| Uleb128.PrefixFree | src/voice/dave/encryptor.cpp:21-29 | no encoding is a proper prefix of another |
| Uleb128.Minimal | src/voice/dave/encryptor.cpp:21-29 | no other byte string of that length or less decodes to the value |
| Uleb128.Length | src/voice/dave/encryptor.cpp:21-29 | n bytes suffice exactly for values below 128^n |
| Uleb128.LengthBounds | src/voice/dave/encryptor.cpp:21-29 | at most ten bytes for 64-bit and five for 32-bit values |
| FrameTrailer.SizeByte | src/voice/dave/encryptor.cpp:58-59 | the size byte is between 12 and 16 |
| FrameTrailer.Layout | src/voice/dave/encryptor.cpp:52-61 | behind what was sealed come the encoded nonce, a byte that counts it, eight bytes of tag and three more, and twice 0xFA |
| FrameTrailer.RoundTrip | src/voice/dave/encryptor.cpp:39-64 | a reader from the last byte recovers ciphertext, tag and nonce of every frame |
| Rotation.RotationTheorem | src/voice/dave/encryptor.cpp:39-64 | the n-th emitted frame uses nonce n mod 2^32, its IV, and the key of generation n / 2^24 mod 2^32, through failed attempts and both wraps, and carries the n-th successful plaintext |
| Rotation.IvLayout | src/voice/dave/encryptor.cpp:80-86 | the IV is eight zero bytes and then the nonce, least significant byte first |
| Rotation.PairsDistinct | src/voice/dave/encryptor.cpp:43-52 | two frames numbered since one key change share generation and nonce if and only if their numbers agree modulo 2^56 |
| Rotation.IvDistinct | src/voice/dave/encryptor.cpp:80-86 | distinct nonces give distinct IVs |
| Rotation.GenerationFromNonce | src/voice/dave/encryptor.cpp:43-46 | the nonce's top byte is the generation modulo 256 |
| Rotation.ReceiverRecovers | src/voice/dave/encryptor.cpp:39-64 | a holder of the ratchet recovers the n-th plaintext from the n-th frame |
| FrameEncryptor.Encryptor.Encrypt | src/voice/dave/encryptor.cpp:39-64 | the n-th success since the key change returns the n-th frame of the epoch, and the counters advance as in the session's runs; passthrough returns its input and touches nothing; a failure returns nothing and keeps the nonce |
| FrameEncryptor.Encryptor.Rekey | src/voice/dave/helpers.cpp:53-58 | restarts all counters under the new ratchet |
| FrameEncryptor.Encryptor.constructor | src/voice/dave/helpers.cpp:50-52 | starts at zero with the key of generation zero |
| ProposalCache.RevokeIsFilter | src/voice/dave/session.cpp:159-167 | the revoke loop is the order-preserving filter if and only if no revoked reference is cached more often than revoked |
| ProposalCache.DistinctRefsRevoke | src/voice/dave/session.cpp:159-167 | with distinct references it always is |
| ProposalCache.DuplicateSurvives | src/voice/dave/session.cpp:159-167 | a proposal cached twice and revoked once stays |
| ProposalCache.RevokeRebuilds | src/voice/dave/session.cpp:155-216 | after an answered revoke the commit state is the base with exactly the survivors, in order; the bytes sent are 28, the commit to it, and the welcome if there is anyone to welcome; the state cached is the one after that commit |
| ProposalCache.ReplayStops | src/voice/dave/session.cpp:168-171 | a replay handles the cache from the front up to the first proposal the state throws on |
| ProposalCache.AcceptedAreValid | src/voice/dave/session.cpp:180-194 | an append adds only proposals that passed validation, behind the old cache, each with its own reference |
| ProposalCache.PermittedIsValid | src/voice/dave/validators.cpp:8-34 | a proposal is valid exactly if the gateway sent it and it is a remove, or an add of somebody in the call |
| ProposalCache.AppendStops | src/voice/dave/session.cpp:180-194 | an append that is not taken in whole stops at one message: what came before is cached and handled, a message the state throws on is cached |
| ProposalCache.AppendLeaves | src/voice/dave/session.cpp:174-194 | answered or not, an append leaves the base with the proposals it added handled, except one that the state threw on |
| ProposalCache.AppendCoversCache | src/voice/dave/session.cpp:174-216 | after an answered append the commit state is the base with the new proposals only: the whole cache if and only if it was empty before; bytes and cached state are those of a commit to it |
| ProposalCache.StepKeepsCacheOk | src/voice/dave/session.cpp:82-333 | every event keeps cached proposals well-formed and a commit state present where one is needed |
| ProposalCache.CacheTheorem | src/voice/dave/session.cpp:149-197 | in every run every cached proposal was brought into the cache by an append, valid for the users of that moment, and has stayed there since, with no commit or welcome accepted and no reset |
| ProposalCache.CommitReadiness | src/voice/dave/session.cpp:149-255 | in every run there is a commit state exactly if the lasting epoch has seen proposals, and a cached state exactly if it has answered some with a commit |
| ProposalCache.CachedIsLastAnswer | src/voice/dave/session.cpp:205-206 | in every run the cached state is the one after the commit answered last |
| ProposalCache.CommitGuard | src/voice/dave/session.cpp:231-236 | so an announced commit finds what it dereferences if and only if there were proposals and, for a valid commit, an answer |
| TransitionSafety.PreparedIsOpen | src/voice/dave/session.cpp:224-333 | in every run a prepared transition has a non-zero id, was acknowledged by the event that prepared it, with the announced version, or version 1 after a commit or welcome, and nothing has been acknowledged or executed since |
| TransitionSafety.StaysPrepared | src/voice/dave/session.cpp:224-333 | what was acknowledged stays prepared until something else is acknowledged, or it is executed or cancelled |
| TransitionSafety.AnnouncedAndExecuted | src/voice/dave/session.cpp:300-333 | an announced transition, executed, leaves passthrough on if and only if it was announced to version zero, and media otherwise keyed from the current state |
| TransitionSafety.ExecutedWasAcknowledged | src/voice/dave/session.cpp:317-333 | every executed transition was acknowledged before |
| TransitionSafety.ExecutedOnce | src/voice/dave/session.cpp:317-333 | between two executions there is a fresh acknowledgement of the second |
| TransitionSafety.UnknownIdsChangeNothing | src/voice/dave/session.cpp:319-322 | executing an id that is not prepared changes nothing |
| TransitionSafety.ExecuteSwitches | src/voice/dave/session.cpp:324-331 | execution turns encryption on, keyed from the current state, or off for version zero |
| TransitionSafety.ExecuteGuard | src/voice/dave/session.cpp:324-330 | an execute of the prepared transition can be carried out exactly when it is to version zero or creating an encryptor leaves one |
| TransitionSafety.ExecuteBeforeGroup | src/voice/dave/session.cpp:324-330 | a transition prepared as the first event of a session cannot be executed as the second |
| TransitionSafety.ExecuteAfterReset | src/voice/dave/session.cpp:82-89 | a reset keeps the prepared transition, which can then be executed only towards version zero |
| MediaKeys.KeyChanges | src/voice/dave/helpers.cpp:42-59 | an executed transition in a group and the initial group key media from the current state with the counters at zero, also where the key stays the same; nothing else changes a key, except a reset, which drops it; only sealing moves the counters, and only an executed transition changes passthrough |
| MediaKeys.OnlySealedFrames | src/voice/opus.cpp:72-76 | a frame is sealed exactly with a current state and an encryptor that does not pass through |
| MediaKeys.CountersFollow | src/voice/dave/encryptor.cpp:39-64 | in every run the counters stand where the frames emitted since the last key change have taken them |
| MediaKeys.FrameUse | src/voice/dave/encryptor.cpp:39-64 | in every run a frame is sealed under the state media is keyed from and the pair of its number since the last key change |
| MediaKeys.UsesAgree | src/voice/dave/encryptor.cpp:39-64 | two frames of a run share group state, generation and nonce if and only if they are keyed from the same state and their numbers since their own key changes agree modulo 2^56 |
| MediaKeys.KeyWasCurrent | src/voice/dave/helpers.cpp:42-59 | in every run media is keyed from a state the session has been in |
| MediaKeys.KeyedFromChecked | src/voice/dave/session.cpp:224-333 | whenever an event arrives, the group media is keyed from was entered by an accepted commit or by a welcome that passed the check |
| MediaKeys.RepeatsIff | src/voice/dave/helpers.cpp:42-59 | a run repeats some use if and only if a key period emits more than 2^56 frames or media is keyed between two frames from the state both are keyed from |
| MediaKeys.KeyedAgainIsRedundant | src/voice/dave/helpers.cpp:42-59 | where no group state becomes current twice, such a key change finds the encryptor keyed from the current state already |
| MediaKeys.RepeatsIffRedundant | src/voice/dave/session.cpp:317-333 | so a use repeats if and only if a period is exhausted or an encryptor in use is created anew for the state it is keyed from, and used again |
| SessionExamples.KeyedTwice | src/voice/dave/session.cpp:300-333 | a transition prepared and executed without a new epoch: the frames before and after share group state, generation zero and nonce zero |
| SessionExamples.SecondAppendForgets | src/voice/dave/session.cpp:174-194 | after two answered appends in one epoch the commit state has handled only the second |
| SessionExamples.UnansweredCommit | src/voice/dave/session.cpp:183-236 | after an append whose message was refused, a valid announced commit dereferences an absent cached state |
| CurrentGroup.EnteredBy | src/voice/dave/session.cpp:224-297 | in every run every group that an event finds current was entered by a valid, accepted commit, or by a welcome, and then it was valid for the users and sender of that moment |
| CurrentGroup.CurrentStep | src/voice/dave/session.cpp:82-297 | a commit or welcome that is accepted enters its group, a reset or a rejected welcome leaves without another, and nothing else changes the current group |
| SessionInputs.InputsTheorem | src/voice/dave/session.cpp:91-168 | in every run the external sender is the one named last, the key package the one sent last, and the base of proposals the group started last until an epoch is entered, from then on the current group |
| SessionInputs.UsersTheorem | src/voice/dave/helpers.cpp:19-30 | in every run the users are those who joined, or were there from the start, and have not left since |
| WelcomeCheck.RosterVerdictIs | src/voice/dave/validators.cpp:71-78 | the walk accepts exactly a roster of members, and throws exactly if the first that is no member has no basic credential |
| WelcomeCheck.WelcomeVerdictIs | src/voice/dave/validators.cpp:52-80 | the check accepts exactly the valid groups, and throws exactly when the roster walk is reached and throws |
| WelcomeCheck.RepeatedMemberPasses | src/voice/dave/validators.cpp:66-79 | a group with one member twice passes for two expected users |
| WelcomeCheck.AcceptedRoster | src/voice/dave/validators.cpp:66-79 | in an accepted group the members are the expected users if and only if no identity repeats |
| WelcomeCheck.ExactRosterPasses | src/voice/dave/validators.cpp:66-79 | a roster that is the expected users, each once, passes |
| DaveObject.Dave.IsValidWelcomeState | src/voice/dave/validators.cpp:52-80 | the checks in order, with early return, accept, reject or throw as `WelcomeVerdictIs` says |
| DaveObject.Dave.EraseFirst | src/voice/dave/session.cpp:160-166 | erases the first proposal with that reference only |
| DaveObject.Dave.RevokeAll | src/voice/dave/session.cpp:159-167 | the nested loop removes once per revoked reference |
| DaveObject.Dave.ReplayAll | src/voice/dave/session.cpp:169-171 | replays the cache until a call throws |
| DaveObject.Dave.AcceptMessages | src/voice/dave/session.cpp:180-194 | accepts messages until one is refused; a proposal the state throws on stays cached |
| DaveObject.Dave.ProcessProposals | src/voice/dave/session.cpp:149-221 | takes the session's proposals step, exceptions included |
| DaveObject.Dave.ProcessCommitTransition | src/voice/dave/session.cpp:224-255 | takes the session's commit step |
| DaveObject.Dave.ProcessWelcome | src/voice/dave/session.cpp:258-297 | takes the session's welcome step; a rejected welcome leaves no current state, one whose check throws leaves the unchecked group |
| DaveObject.Dave.PrepareTransition | src/voice/dave/session.cpp:300-314 | acknowledges a non-zero id; id zero clears the prepared transition |
| DaveObject.Dave.ExecuteTransition | src/voice/dave/session.cpp:317-333 | takes the session's execute step |
| DaveObject.Dave.PrepareEpoch | src/voice/dave/session.cpp:130-146 | epoch one resets, starts a pending group and sends a key package |
| DaveObject.Dave.ProcessExternalSender | src/voice/dave/session.cpp:110-127 | stores the sender and starts a pending group |
| DaveObject.Dave.Reset | src/voice/dave/session.cpp:82-89 | forgets everything but the prepared transition, users, sender and key package |
| DaveObject.Dave.CreateEncryptor | src/voice/dave/helpers.cpp:42-59 | keys from the current state, starts the counters over and keeps passthrough; without a state it does nothing |
| DaveObject.Dave.EncryptFrame | src/voice/opus.cpp:70-76 | takes the session's framing step: sealed only with a current state and an encryptor that does not pass through |
| DaveObject.Dave.AddUsers | src/voice/dave/helpers.cpp:19-23 | adds every listed user |
| DaveObject.Dave.RemoveUsers | src/voice/dave/helpers.cpp:26-30 | removes every listed user |
| DaveObject.Dave.Receive | src/voice/dave/session.cpp:68-74 | every event reaches its handler and takes the session's step |
| DaveObject.Dave.Serve | src/voice/dave/session.cpp:63-333 | whatever events arrive from creation on, the object goes through a run of the session, which ends at the first exception |
| Dispatch.ResendIffRejected | src/voice/dave/payloadprocessor.cpp:27-39 | a key package is resent exactly after a rejected commit or welcome, which leaves transition and cache alone |
| Dispatch.RejectedIff | src/voice/dave/session.cpp:231-235 | a commit is rejected exactly if it unwraps to no commit or to one with a proposal by value, a welcome if its group does not pass; the rejection names the transition |
| Dispatch.Routes | src/voice/dave/session.cpp:68-74 | the whole table: the seven opcodes and their handlers, the four without one, and what is out of range |
| Dispatch.EventsByOpcode | include/voice/voiceOpcodes.h:14-24 | which event each opcode brings in, and under which opcode each reply goes out |
| Rtp.HeaderRoundTrip | include/voice/voiceconnection.h:54-62 | decoding inverts encoding of every header |
| Rtp.HeaderLayout | include/voice/voiceconnection.h:54-62 | the twelve header bytes, each field most significant byte first |
| Rtp.PacketLayout | src/voice/opus.cpp:77-89 | header, what was sealed under the nonce's IV and the header, and the nonce, least significant byte first |
| Rtp.HeaderIsEncoding | include/voice/voiceconnection.h:54-62 | every header with the two fixed bytes is the encoding of what it decodes to |
| Rtp.PacketRoundTrip | src/voice/opus.cpp:70-90 | header, payload and nonce are recovered from every packet |
| Rtp.IvDistinct | src/voice/encrypt.cpp:163-187 | distinct nonces give distinct IVs for both ciphers |
| Rtp.IvLayout | src/voice/encrypt.cpp:163-187 | the nonce in the first four bytes, least significant first, and zeros up to twelve or twenty-four |
| Rtp.FillFrame | src/voice/opus.cpp:77-89 | the three copies fill the buffer with exactly the packet |
| PcmFrames.Slice | src/voice/opus.cpp:15-39 | cuts the data into full frames of 11520 bytes whose concatenation is the data and fewer than a frame's worth of zeros |
| VoicePipeline.PipelineTheorem | src/voice/speaking.cpp:27-142 | in every interleaving the invariant holds and no queue is popped empty |
| VoicePipeline.WireTheorem | src/voice/speaking.cpp:44-142 | the k-th packet attempted, silence included, carries sequence number k mod 2^16 and, as its timestamp mod 2^32, the samples of the data sent before it, 960 for each of silence; each packet is recorded with its own data's samples and duration |
| VoicePipeline.NonceTheorem | src/voice/encrypt.cpp:165-186 | transport nonces are never rewound: distinct below 2^32 built frames, and equal exactly at multiples of 2^32 |
| VoicePipeline.NonceRepeats | src/voice/encrypt.cpp:165-186 | from any start there is a run in which packets 0 and 2^32 share their nonce |
| VoicePipeline.ConservationTheorem | src/voice/speaking.cpp:27-87 | in every state attempted, discarded, prepared, in hand and waiting are what was enqueued, in order; at most one packet is prepared, and at most one is discarded, by silence |
| VoicePipeline.HaltTheorem | src/voice/speaking.cpp:36-42 | an interrupted or stopped sender attempts at most one more packet and builds at most one more frame |
| VoicePipeline.InterruptTheorem | src/voice/speaking.cpp:36-78 | while interrupted the sender builds no frame but one it was already taking |
| VoicePipeline.LooksAhead | src/voice/speaking.cpp:74 | after an attempt another frame is taken exactly if one waits and the sender is not interrupted |
| VoicePipeline.SilenceTheorem | src/voice/speaking.cpp:117-142 | on close five packets of silence follow, the prepared packet is dropped, what waits stays; a second close does nothing |
| VoicePipeline.InvDemands | src/voice/speaking.cpp:44-77 | every enabled step finds the queue entries and header bytes it takes |
| VoicePipeline.InvStep | src/voice/speaking.cpp:27-142 | every step keeps numbering, nonces, conservation and control state |
| VoicePipeline.FrameContinues | src/voice/opus.cpp:78-88 | a frame built with counters in line continues the line |
| VoicePipeline.RewindStep | src/voice/speaking.cpp:120-128 | dropping the prepared packet and taking its header back puts the counters in line with the wire |
| VoicePipeline.SilenceStep | src/voice/speaking.cpp:129-140 | silence frames continue the line and carry no enqueued data |
| VoiceSender.VoiceConnection.FrameRtp | src/voice/opus.cpp:70-90 | builds the packet of the present counters and advances all three |
| VoiceSender.VoiceConnection.AddToQueue | src/voice/speaking.cpp:27-32 | appends to the waiting queue |
| VoiceSender.VoiceConnection.WakeUp | src/voice/speaking.cpp:42-55 | leaves if stopped, else frames the front of the queue unless a packet is prepared |
| VoiceSender.VoiceConnection.TakeAndSend | src/voice/speaking.cpp:57-72 | takes the prepared packet and attempts it |
| VoiceSender.VoiceConnection.TakeNext | src/voice/speaking.cpp:74-78 | takes the frame that was seen waiting |
| VoiceSender.VoiceConnection.PrepareNext | src/voice/speaking.cpp:79-86 | frames it and prepares it in front |
| VoiceSender.VoiceConnection.LookForNext | src/voice/speaking.cpp:74 | prepares another frame only if one waits and the sender is not interrupted |
| VoiceSender.VoiceConnection.UdpLoop | src/voice/speaking.cpp:34-100 | the loop, whatever others do between its steps, continues the run, attempts one packet a round, and ends early only stopped or blocked in the wait |
| VoiceSender.VoiceConnection.Guarantees | src/voice/speaking.cpp:27-142 | any two packets an object has ever attempted are numbered without gaps, timed by the samples of the data before them, in enqueued order, and share no nonce below 2^32 frames; all that was enqueued but one packet at most is attempted or still held |
| VoiceSender.VoiceConnection.SendSilence | src/voice/speaking.cpp:117-142 | drops the prepared packet, rewinds, and sends five silence frames, once |
| HChaCha20.Derive | src/voice/encrypt.cpp:24-42 | the derived key, read as words, is words 0 to 3 and 12 to 15 of the state after ten double rounds |
| HChaChaVector.HChaCha20Vector | src/voice/encrypt.cpp:24-42 | the example of draft-irtf-cfrg-xchacha, section 2.2.1 |
| HChaCha20.DerivedWords | src/voice/encrypt.cpp:40-41 | the thirty-two bytes are those eight words, least significant byte first |
| HChaCha20.RoundsInPlace | src/voice/encrypt.cpp:30-39 | the loop is ten double rounds, columns then diagonals of the matrix |
| HChaCha20.QuarterRoundInPlace | src/voice/encrypt.cpp:13-22 | the eight statements are the quarter round on four words and touch no other |
| HChaCha20.QuarterRoundVector | src/voice/encrypt.cpp:13-22 | the example of RFC 8439, section 2.1.1 |
| HChaCha20.QuarterRoundsCommute | src/voice/encrypt.cpp:31-38 | quarter rounds on disjoint words commute |
| HChaCha20.ColumnsInTurn | src/voice/encrypt.cpp:31-34 | four column calls are one round on all columns at once |
| HChaCha20.DiagonalsInTurn | src/voice/encrypt.cpp:35-38 | four diagonal calls are a column round of the skewed matrix |
| HChaCha20.QuarterRoundInverse | src/voice/encrypt.cpp:13-22 | the quarter round has an explicit inverse |
| HChaCha20.RoundsInverse | src/voice/encrypt.cpp:30-39 | any number of double rounds has an explicit inverse |
| HChaCha20.DistinctInputsDistinctStates | src/voice/encrypt.cpp:24-39 | final states agree if and only if key and nonce do |
| Base64.EncodeB64 | src/base64.cpp:21-54 | the loop computes the encoding |
| Base64.RoundTrip | src/base64.cpp:21-54 | a strict decoder of RFC 4648, section 4 inverts the encoding of every byte string |
| Base64.DecodesOnlyEncodings | src/base64.cpp:34-50 | whatever that decoder accepts, padding and zero unused bits included, is an encoding |
| Base64.Length | src/base64.cpp:25-52 | four characters per three bytes begun |
| Base64.Concatenation | src/base64.cpp:26-33 | encoding distributes over concatenation at multiples of three bytes |
| Multipart.MakeFormData | src/helpers.cpp:15-26 | the loop writes the parts, each behind a delimiter, and the close mark |
| Multipart.FileHeaderText | src/helpers.cpp:21 | the header of an attachment in full, with its index and name |
| Multipart.DecimalIs | src/helpers.cpp:21 | the index is written in decimal digits without a leading zero |
| Multipart.FormDataRoundTrip | src/helpers.cpp:15-26 | for CR-free boundary and names a reader recovers JSON and attachments in order if and only if no body disturbs it |
| Multipart.BodyOkIs | src/helpers.cpp:15-26 | a body disturbs the reader if and only if it contains the delimiter or starts with the dashes and the boundary |
| Multipart.JsonBodyOk | src/helpers.cpp:18 | text without carriage returns that does not start with two dashes never disturbs the reader |
| Multipart.FormDataReadsBack | src/helpers.cpp:15-26 | with such JSON the form reads back if and only if no attachment contains the delimiter or starts with the dashes and the boundary |
| Multipart.AttachmentMisread | src/helpers.cpp:19-23 | an attachment that starts with the dashes and the boundary of every caller does not read back |
| Multipart.NoStraddle | src/helpers.cpp:20-24 | no false delimiter straddles a join |
| Snowflake.GenBEBytes | src/voice/dave/session.cpp:28-36 | the loop writes the big-endian bytes |
| Bytes.BEDigit | src/voice/dave/session.cpp:28-36 | the i-th byte from the end is the digit of 256^i |
| Snowflake.LEBytesFrom | include/voice/dave/dave.h:87-100 | the loop writes the little-endian bytes, the big-endian ones reversed |
| Bytes.LEDigit | include/voice/dave/dave.h:87-100 | byte i of that layout is the digit of 256^i |
| Snowflake.SnowflakeFromCredential | src/voice/dave/helpers.cpp:33-39 | the fold reads the bytes as a number modulo 2^64 |
| Snowflake.IdRoundTrip | src/voice/dave/session.cpp:46-50 | every 64-bit id is read back from its credential |
| Snowflake.EightBytesFaithful | src/voice/dave/helpers.cpp:33-39 | eight-byte credentials of the same id are equal |
| Snowflake.LongCredential | src/voice/dave/helpers.cpp:33-39 | a longer credential stands for its last eight bytes |

## Left out

- Locks and data races of the caches: operations are sequential. `getGuildRoles` on an empty id set
  fetches while it still holds the role lock (src/guild.cpp:254-256); the model lets the fetch proceed.
- The map from guilds to their caches: one guild is modelled. A guild without an entry behaves as one
  with empty sets; two guilds share nothing.
- The channel-id set and the per-guild user cache of src/guild.cpp: they follow the same patterns as
  the role index.
- The LRU iterators (include/lrucache.h:109-173): they only walk the chain that `Valid` describes.
- Negative cache capacities, which C++ converts to huge ones; overflow of the hit and miss counters.
- Payloads that do not parse: the exception ends the process, except in the proposals handler, whose
  partly parsed payloads are modelled. Exceptions of the HTTP library, which lead to a reconnect.
- `Execute`: what follows the dereference of an absent encryptor (src/voice/dave/session.cpp:328-329).
  `ExecuteGuard` says exactly when it happens, and `ExecuteBeforeGroup` that it can; a run ends there.
- Interleaving within a handler: the voice thread frames a packet between two events of the session,
  never in the middle of one.
- Failures of the mlspp state, credential and ratchet constructors other than those that appear as an
  absent result.
- AES-GCM, ChaCha20-Poly1305, opus and the hash ratchet: functions with a length contract, and for
  the media encryptor an outcome that may be a failure. Transport encryption always succeeds, and the
  secret key and ssrc are stable for a run.
- What the DAVE layer makes of a voice payload: any bytes, chosen anew at every framing.
- `UdpLoop`: runs against a script of what producers and the gateway do between its steps; threads,
  pacing, sleeping, `poll` results and `flush` are not modelled.
- The websocket sequence number and the text or binary frame type in the payload processor.
- Part headers in the form-data reader: it recovers bodies, not names.
- Gateway, REST routes, JSON, components, polls, automod, permissions: field plumbing.
