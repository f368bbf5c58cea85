# mp-cache: a verified model

mp-cache keeps expiring key-value entries and client records in memory, appends every change to a
journal, replaces checkpoint and journal atomically, and exports and imports whole states. This
project models that service in Dafny and proves what its parts promise together.

- **The durability machine** (`Recovery`, `Machine`, `Durability`, `CrashPoints`, `Interrupted`,
  `Pacing`). A checkpoint image followed by journal records is one log; starting replays it. Requests,
  sweeps, failing appends, interrupted checkpoints, shutdowns and restarts are steps. Over every run a
  claim about the files is carried along (`Exact`, `Safe` or `Lost`), and `RestartRefinement` says what a
  later load returns under each. Where a plain claim is false of the code there is a concrete pair of
  files, and the exact condition under which it is true: for crashes between the rename of a checkpoint
  and the removal of the journal, for shortened lives, and for images of 4 GiB and more, whose length
  the packet header cannot hold.
- **The bytes** (`Packet`, `Codec`, `Formats`, `Files`, `Decoding`, `Serializer`, `Storage`, `Archive`). The loops
  that read and write packets, state payloads and journal records, proved against parsing functions, and
  the theorem that loading the two files as bytes is loading the decoded log. Every append and every
  checkpoint, however it ends, leaves bytes that hold the decoded disk.
- **The memory** (`CacheTable`, `HashStore`, `ReadView`, `Clients`, `Registry`, `Revocation`). The
  chained hash table with real linked nodes and unsigned byte accounting refines a finite map with a
  hard ceiling; the growing record array refines a list of clients; sweeping cannot be observed by
  reads; a revoked token stays revoked exactly until one of three kinds of step.
- **The primitives** (`Bytes`, `Sha256`, `Fips`, `Vectors`, `Crypto`, `Base64`, `Hex`). Streaming SHA-256 (sections 5.1.1,
  5.2.1 and 6.2.2 of FIPS 180-4), HMAC (section 2 of RFC 2104), the counter-mode stream, base64
  (section 4 of RFC 4648) and hexadecimal text (section 8 of RFC 4648). `Fips` says what the constants and
  functions have to be, and `Vectors` computes the published example through the model.
- **The requests** (`Limiter`, `KeyList`, `KeyGrammar`, `Purging`, `Answers`, `Authority`, `ReadBack`,
  `Dispatch`, `Routes`, `Service`). Budgets, the list of keys a purge names and the texts that spell it,
  what each answer means (`Answers`), what a token may do (`Authority`, `Routes`), what reads return in
  terms of the requests alone (`ReadsFollowTheRequests`), and the handlers that update store, registry,
  budgets and files in place. `Service.Service.Serve` is proved to compute `Dispatch.Serve` and to keep the object's
  invariant: the machine's, the bytes that hold its disk, and the claim about them. So
  `FilesOfAServiceLoad` holds of the running code, and `ServingIsAValidRun` turns any sequence of requests
  into a run to which the theorems about runs apply.

Two modelling choices matter when reading the theorems. File-system calls are atomic steps that may
fail, and a process crash is a step with failing outcomes followed by a restart; power loss is not
modelled. Nonces, issued tokens, the clock and file-system outcomes are inputs.

Where documentation and code differ the model follows the code: the limiter's comment speaks of a
sliding budget but the code counts fixed windows (`SlidingExactlyForTrivialBudgets`); the packet reader
checks one byte of the version field; an empty checkpoint file counts as a missing one; an import whose
final checkpoint fails answers 400 although the live state has been replaced.

## Model

| member | source | states |
|---|---|---|
| Recovery.ReplayComputesEffects | internal/storage/storage.c:775-868 | a load that succeeds computes the unlimited effects of its log |
| Recovery.ReplayConcat | internal/storage/storage.c:980-1037 | loading checkpoint then journal is replaying their concatenation, failures included |
| Recovery.ReplayMeaning | internal/storage/storage.c:798-867 | after a replay a key holds its last SET still unexpired at that time after its last DELETE or PURGE_ALL, otherwise what was there before |
| Recovery.ReplayMeaningForClients | internal/storage/storage.c:832-860 | after a replay a client's record is that of its last upsert |
| Recovery.KnownIdsStayInPlace | internal/security/security.c:321-356 | replaying upserts of known clients keeps the order of ids |
| Recovery.ReplayIsIdempotent | internal/storage/storage.c:1039-1070 | replaying a log over its own result gives that result again |
| Machine.StepKeepsInv | internal/httpserver/http_server.c:1093-1563 | every step keeps limits, unique well-formed clients, zeroed hashes of inactive clients and files that decode |
| Machine.StateImageOk | internal/storage/storage.c:593-628 | what a checkpoint lists of a reachable state satisfies every bound its reader checks |
| Machine.ImagesFitThePacketBound | internal/storage/storage.c:962 | every image within the limits is at most the memory limit and 16 MiB long, so a limit that much below 4 GiB makes every image loadable |
| Machine.ReplayKeepsWellFormed | internal/storage/storage.c:980-1037 | a successful load satisfies the limits and the registry invariant |
| Durability.SetJournals | internal/httpserver/http_server.c:1142-1143 | a SET record reproduces a write at every later time when it does not shorten a life |
| Durability.RemoveJournals | internal/httpserver/http_server.c:1187-1188 | a DELETE record reproduces a deletion at every later time |
| Durability.PurgeAllJournals | internal/httpserver/http_server.c:1541-1563 | a PURGE_ALL record reproduces emptying the table and keeps the clients |
| Durability.UpsertJournals | internal/httpserver/http_server.c:1300-1302 | a client record reproduces one registry change, also when the registry is full |
| Durability.AppendKeepsQuality | internal/storage/storage.c:362-400 | appending a record that reproduces the change keeps the claim about the files |
| Durability.ImageLoads | internal/storage/storage.c:631-717 | the listed image of a state loads, within the limits, to its unexpired entries and all clients in order |
| Durability.ImageLoadsAtAnyTime | internal/storage/storage.c:674 | loaded on a clock behind the writer's, it gives what was unexpired when it was written |
| Durability.CompleteCheckpointIsExactBelow4GiB | internal/storage/storage.c:1039-1070 | after a complete checkpoint, whatever the files were before, every later load reproduces the live state if and only if the image is below 4 GiB; otherwise no load succeeds |
| Durability.CheckpointIsCrashSafe | internal/storage/storage.c:313-359 | when files and memory agree, stopping a checkpoint before the rename, after it or after the removal leaves files with the same effects |
| Durability.JournalIsIdempotentOnItsResult | internal/storage/storage.c:1039-1070 | replaying the old journal over the state it led to changes nothing |
| Durability.StepKeepsQuality | internal/httpserver/http_server.c:1093-1563 | each step changes the claim about the files as `NextQuality` says |
| Durability.RunKeepsQuality | internal/httpserver/http_server.c:1596-1810 | over any run the claim computed along it holds of the files |
| Durability.StartIsExact | internal/storage/storage.c:1005-1021 | without files, an empty service is reproduced exactly |
| Durability.UntriedCheckpointsDoNotMatter | internal/httpserver/http_server.c:1031-1033 | a step that does not get as far as a checkpoint does not depend on how one would end |
| Durability.DependableRunsStayExact | internal/httpserver/http_server.c:1031-1033 | if every checkpoint that is tried completes with an image below 4 GiB and no overwrite shortens a life, no pattern of failing appends loses the claim |
| Durability.RestartRefinement | internal/storage/storage.c:980-1037 | in every run: under `Exact` any later load succeeds with exactly the unexpired entries and the clients in order, under `Safe` a load that succeeds does |
| CrashPoints.OverwriteSurvivesExactlyWhenNotShortened | internal/storage/storage.c:813-819 | a journaled overwrite keeps restarts exact if and only if it does not shorten the key's life |
| CrashPoints.AShortenedOverwriteComesBack | internal/storage/storage.c:813-819 | a journal whose later value expires first loads the earlier value again |
| CrashPoints.SteadyExactlyWhenNothingOutlived | internal/storage/storage.c:798-867 | all later loads agree with the present one if and only if no SET is outlived by an earlier one not removed since |
| CrashPoints.LoadedFilesDescribeExactlyWhenNothingOutlived | internal/storage/storage.c:980-1037 | files that load, wherever they come from, support the claim `Safe` if and only if no SET in them is outlived |
| Interrupted.LoadedFilesReproduceExactlyWhen | internal/storage/storage.c:980-1037 | files that load now support the claim `Exact` if and only if no SET in them is outlived and no later replay exceeds the limits on its way |
| Interrupted.RestartRefinementFromALoad | internal/storage/storage.c:980-1037 | restart refinement for every run that begins with loading any files, under the best claim they support |
| CrashPoints.FailedAppendIsAllOrNothing | internal/httpserver/http_server.c:1142-1143 | after a failed append, which wrote nothing, a part or everything, and a fallback checkpoint stopped anywhere, a load that succeeds returns the state before or after that one change |
| Interrupted.ReplayExactlyWhenWithin | internal/storage/storage.c:775-868 | a log of such records replays if and only if every prefix of it leaves a state within the memory ceiling and the 1024 clients |
| Interrupted.InterruptedCheckpointLoadsExactlyWhenPeaksFit | internal/storage/storage.c:1064-1067 | after a crash between rename and removal a load finds the live state if and only if the image is below 4 GiB and no prefix of the old journal replayed over it exceeds the ceiling; otherwise it fails |
| Interrupted.InterruptedCheckpointInARun | internal/storage/storage.c:1064-1067 | the same for an export or the final checkpoint in any state a run reaches under `Exact` or `Safe` |
| Interrupted.InterruptedCheckpointLoadsWithHeadroom | internal/storage/storage.c:1064-1067 | room for the journal's SETs beside the live charge is enough for that |
| Interrupted.WrittenImageLoads | internal/storage/storage.c:631-717 | every image a checkpoint writes decodes within the limits at every time, so a start fails in the journal or at an unreadable file only |
| CrashPoints.InterruptedCheckpointCanExceedTheCeiling | internal/storage/storage.c:1064-1067 | files for which that crash makes the next load fail |
| CrashPoints.InterruptedPurgeAllIsAMixture | internal/httpserver/http_server.c:1541-1563 | files for which an interrupted purge of everything loads neither the old nor the new state |
| Interrupted.InterruptedPurgeAllExactly | internal/httpserver/http_server.c:1541-1563 | a load after such a purge brings back exactly the unexpired entries the old journal decides; it is the old state if and only if those are all of them, the new one if and only if there are none |
| Interrupted.InterruptedPurgeIsPerKey | internal/httpserver/http_server.c:1484-1538 | after a purge of listed keys with any appends failing and its checkpoint stopped anywhere, a load finds each key as before or as after and every client as it was |
| CrashPoints.InterruptedImportReplaysTheOldJournal | internal/storage/storage.c:1295-1299 | files for which an interrupted import brings an old entry back |
| Interrupted.TableSurvivesExactlyWhenKeysAgree | internal/storage/storage.c:798-867 | replaying a journal over a table leaves it unchanged if and only if every key the journal decides already is what it decides |
| Interrupted.ClientsSurviveExactlyWhenTheyAgree | internal/storage/storage.c:832-860 | the same for the clients, in order |
| Interrupted.InterruptedReplacementSurvivesExactlyWhen | internal/storage/storage.c:1295-1299 | an import interrupted before the old journal is removed survives a restart if and only if its image is below 4 GiB, the replay stays within the limits, and it agrees with the old journal on every key and every client |
| Interrupted.InterruptedImportInARun | internal/storage/storage.c:1295-1299 | the same for an import in any state a run reaches with an untorn journal |
| Pacing.RunKeepsPace | internal/storage/storage.c:1017-1033 | in every run, while the claim is `Exact`, each prefix of the journal replays to the view of the live state right after that record's operation |
| Pacing.ReplayedPrefixesCostNoMoreThanTheStoreDid | internal/storage/storage.c:1017-1033 | so at no point does a start need more memory than the live store needed after that operation |
| Answers.GetAnswers | internal/httpserver/http_server.c:1045-1088 | a read answers 200 exactly while the key's entry lives, and 404 otherwise |
| Answers.EntryCharge | internal/cache/cache.c:69-70 | an entry is charged 48 bytes, its key with a NUL, and its value |
| Answers.PutAnswers | internal/httpserver/http_server.c:1112-1154 | a write answers 400 outside the bounds on times to live, 413 exactly when key, value or the table with the new entry is too large, and otherwise 200 if the change reached the files and 500 if it did not |
| Answers.DeleteAnswers | internal/httpserver/http_server.c:1170-1204 | a deletion answers 404 exactly for a key the store does not hold, and otherwise tells by 200 or 500 whether it reached the files |
| Answers.PurgeAnswers | internal/httpserver/http_server.c:1494-1531 | a purge of listed keys answers 200 exactly when every removal was appended or the checkpoint is complete |
| Answers.ClientAnswers | internal/httpserver/http_server.c:1260-1412 | exactly when registering, rotating and invalidating answer 400, 404, 409, 200 and 500, in terms of names, the registry and the file system |
| Answers.StateAnswers | internal/httpserver/http_server.c:1415-1461 | exactly when an export and an import answer 200 |
| Answers.AnsweredIsSaved | internal/httpserver/http_server.c:1142-1152 | for every kind of request, a 200 keeps the claim about the files, unless a PUT shortened a life |
| Answers.AnsweredIsLoaded | internal/httpserver/http_server.c:1142-1152 | after a 200 any later load that succeeds finds the state after the request, and with exact files and a loadable checkpoint it succeeds |
| Revocation.InvalidationRevokes | internal/httpserver/http_server.c:1373-1412 | an invalidation answered 200 leaves the client inactive in memory and in everything the files can load |
| Revocation.StepEndsRevocationExactlyWhen | internal/security/security.c:275-356 | a step ends a revocation if and only if it rotates this client, imports a state whose last word on the client is no revocation, or is a failing start whose applied records' last word is none |
| Revocation.RotationEndsRevocation | internal/security/security.c:275-300 | rotating an invalidated client's token always ends its revocation |
| Revocation.ImportKeepsRevocationExactlyWhen | internal/storage/storage.c:1248-1301 | an import keeps a revocation if and only if its image's last word on the client is one |
| Revocation.SalvageIsTheAcceptedPrefix | internal/storage/storage.c:980-1037 | a failing start leaves in memory the effects of the longest prefix of its records that replays |
| Revocation.AppliedAtStartIsTheLongestWithin | internal/storage/storage.c:980-1037 | of files the service wrote that is the longest readable prefix that stays within ceiling and registry capacity all along |
| Revocation.FailingStartKeepsRevocationExactlyWhen | internal/runtime/runtime.c:118-170 | the cleanup after a failing start checkpoints that prefix and keeps a revocation, in memory and in the files, exactly under the stated conditions |
| Revocation.AFailingStartCanEndARevocation | internal/runtime/runtime.c:118-170 | files with a revoked client that a failing start makes active again |
| Revocation.RevocationLasts | internal/security/security.c:207-239 | in any run without such a step, no digest authenticates as the revoked client's record, through crashes and restarts |
| CacheTable.WriteKeepsLimits | internal/cache/cache.c:46-112 | an accepted write stays under the memory ceiling and the size limits |
| CacheTable.TotalCostUpdate | internal/cache/cache.c:63-74 | replacing an entry changes the total charge by new charge minus old |
| CacheTable.ListingCostIsTotalCost | internal/cache/cache.c:345-364 | a listing of the table is charged what the table is |
| HashStore.CeilingTestIsRightExactlyWithoutWrap | internal/cache/cache.c:63-74 | the unsigned ceiling test means over the ceiling for every byte count up to it, every replaced cost and every admissible new cost if and only if the limits leave room below 2^64 |
| HashStore.Charge | internal/cache/cache.c:63-74 | the unsigned computation of the new total and its comparison |
| HashStore.ChargeDecidesAdmission | internal/cache/cache.c:63-74 | that comparison is the ceiling on the new table's total charge |
| HashStore.Store.constructor | internal/cache/cache.c:147-163 | a new store is empty and keeps each key in the bucket of its hash |
| HashStore.Store.FindSlot | internal/cache/cache.c:115-135 | the slot found holds the key, or is the end of its bucket's chain and the key is absent |
| HashStore.Store.WriteEntry | internal/cache/cache.c:46-112 | writing refines the map update or refusal and keeps chains, counts and charges exact |
| HashStore.Store.Set | internal/cache/cache.c:185-203 | a write with a time to live; zero is refused |
| HashStore.Store.Restore | internal/cache/cache.c:276-294 | a write with an absolute expiry; non-positive ones are refused |
| HashStore.Store.Get | internal/cache/cache.c:205-250 | a hit returns value and expiry; an expired entry is removed and is a miss |
| HashStore.Store.Delete | internal/cache/cache.c:252-274 | removes exactly that key, or reports it missing |
| HashStore.Store.PurgeExpired | internal/cache/cache.c:317-343 | removes exactly the expired entries and returns their number |
| HashStore.Store.Clear | internal/cache/cache.c:296-315 | empties the table and the accounts |
| HashStore.Store.Entries | internal/cache/cache.c:345-364 | visits every entry exactly once |
| ReadView.SweepsAreInvisibleToReads | internal/httpserver/http_server.c:837-846 | two runs that differ only in sweeps answer every read alike |
| ReadView.SweepsAreVisibleToDeletesExactlyWhenExpired | internal/cache/cache.c:252-274 | a deletion can tell a sweep if and only if its key had expired |
| Clients.RegistryOperationsKeepWellFormed | internal/security/security.c:241-356 | every operation keeps ids unique and valid, roles set, inactive hashes zero and at most 1024 clients |
| Clients.PutLookup | internal/security/security.c:321-356 | an upsert changes the record of its own id only |
| Clients.ChangeIsOnePut | internal/security/security.c:241-319 | registering, rotating and invalidating are each one upsert of one record |
| Clients.AuthenticateExactly | internal/security/security.c:207-239 | the bootstrap digest is the administrator; any other digest is the first active record that holds it, with that record's role and id, and is refused exactly when there is none |
| Clients.OwnTokenAuthenticates | internal/security/security.c:225-236 | a digest held by one active record authenticates as that record with its role |
| Authority.TokenKeepsItsRole | internal/security/security.c:207-273 | a registered token has its client's role at once and, in every later state of any run, through failing writes, crashes and restarts, no higher one until the digest is issued again or imported with one |
| Authority.ServedTokenKeepsItsRole | internal/httpserver/http_server.c:898-961 | the same over any requests served |
| Registry.Registry.constructor | internal/security/security.c:177-196 | a new registry has no clients |
| Registry.Registry.EnsureCapacity | internal/security/security.c:73-100 | growing by doubling keeps the records and is refused exactly at 1024 clients |
| Registry.Registry.FindRecord | internal/security/security.c:50-70 | the first record with that id |
| Registry.Registry.Register | internal/security/security.c:241-273 | refines registration, with its conflict, argument and limit refusals |
| Registry.Registry.Rotate | internal/security/security.c:275-300 | refines rotation, which also reactivates |
| Registry.Registry.Invalidate | internal/security/security.c:302-319 | refines invalidation, which zeroes the hash |
| Registry.Registry.Import | internal/security/security.c:321-356 | refines the upsert used when loading |
| Registry.Registry.Clear | internal/security/security.c:358-364 | drops every client |
| Registry.Registry.Authenticate | internal/security/security.c:207-239 | the bootstrap digest first, then the first active record with that digest, whose own role and id come out |
| Bytes.U32RoundTrip | internal/storage/storage.c:138-170 | a 32-bit field reads back modulo 2^32 |
| Bytes.U64RoundTrip | internal/storage/storage.c:149-188 | a signed 64-bit time reads back |
| Formats.BigEndianByte | internal/storage/storage.c:138-158 | every byte of a stored number, top byte first |
| Formats.PacketBytes | internal/storage/storage.c:266-298 | where magic, version, length, nonce, tag and ciphertext stand in a packet, what the tag covers, and which key-stream byte each payload byte is combined with |
| Formats.PacketReadExactlyWhen | internal/storage/storage.c:403-490 | reading takes a packet exactly when magic, version byte, length and tag are right |
| Formats.Magics | internal/config/constants.h:184-186 | the three magics and the bound on a packet |
| Formats.EmptyFilesAreMissing | internal/storage/storage.c:425-431 | an empty checkpoint or journal file loads like a missing one |
| Formats.RecordBytes | internal/storage/storage.c:720-772 | the bytes of each kind of journal record |
| Formats.StateBytes | internal/storage/storage.c:593-628 | the bytes of a state with an entry and a client |
| Formats.OldRecordsAreActive | internal/storage/storage.c:832-860 | a client record of version 1 is active |
| Formats.OtherVersionsAreRefused | internal/storage/storage.c:649-654 | states and records of other versions are refused |
| Packet.XorStreamInvolutive | internal/crypto/crypto.c:451-484 | applying the key stream twice is the identity |
| Packet.SealedPacketOpens | internal/storage/storage.c:403-490 | a built packet reads back as its payload whatever follows it |
| Packet.PacketRoundTripExactlyBelow4GiB | internal/storage/storage.c:241-310 | a built packet reads back if and only if its payload is shorter than 2^32 bytes |
| Packet.PrefixReadsWholePackets | internal/storage/storage.c:403-490 | any prefix of a packet file yields the whole packets before the cut and ends cleanly if and only if the cut is at a boundary |
| Packet.PacketsReadBack | internal/storage/storage.c:1017-1033 | a file of packets reads back as its payloads |
| Packet.PacketsThenRest | internal/storage/storage.c:1017-1033 | packets followed by any bytes read back first, then whatever those bytes read as |
| Packet.TornPacketIsReadOnlyByCoincidence | internal/storage/storage.c:403-490 | bytes that begin with a cut packet read as a packet only if they complete it or the tag in them authenticates another message; with a whole header that means two messages with one tag |
| Codec.ImageReadsBack | internal/storage/storage.c:631-717 | an encoded state parses to itself and uses every byte |
| Codec.RecordReadsBack | internal/storage/storage.c:720-868 | an encoded journal record parses to itself |
| Codec.ManyReadBack | internal/storage/storage.c:656-714 | values that read back one by one read back as a list |
| Codec.EncodedImageSize | internal/storage/storage.c:593-628 | the exact length of an encoded state, from its entries and clients |
| Files.RecordFits | internal/storage/storage.c:362-400 | every record the handlers write fits one packet |
| Files.ImageFits | internal/storage/storage.c:943-970 | every reachable state can be written in one packet, and its image parses when it is below 4 GiB |
| Files.CheckpointReadsBackExactlyBelow4GiB | internal/storage/storage.c:493-519 | a written checkpoint file decodes to its records if and only if the image is below 4 GiB; otherwise it does not decode |
| Files.JournalReadsBack | internal/storage/storage.c:1017-1033 | a written journal file decodes to its records |
| Files.AppendKeepsStored | internal/storage/storage.c:362-400 | whether an append writes everything, nothing, a part, or everything but is reported as failed, the bytes hold the machine's next disk |
| Files.CheckpointKeepsStored | internal/storage/storage.c:313-359 | whether a checkpoint stops before the rename, before the removal or not at all, the bytes hold the machine's next disk |
| Files.TornJournalDoesNotRead | internal/storage/storage.c:403-490 | a journal with a torn record, and anything appended behind it, does not read unless the bytes across the tear happen to be a packet |
| Files.LoadingFilesIsLoadingTheDisk | internal/storage/storage.c:980-1037 | loading files that hold a disk is the recovery of that disk, including torn journals and oversized images |
| Files.AppendedPacketExtendsTheFile | internal/storage/storage.c:362-400 | appending a sealed record to the file appends it to the decoded journal |
| Files.TornJournalDoesNotLoad | internal/storage/storage.c:431-455 | a journal cut inside a packet does not load |
| Files.RestartFromFiles | internal/storage/storage.c:980-1037 | under the claim `Exact`, reading the bytes of both files at any later time gives exactly the unexpired entries and every client |
| Files.StateCodecRoundTrip | internal/storage/storage.c:593-717 | decoding an encoded state of fewer than 2^32 entries, on a clock ahead of the encoder's or behind it, gives exactly the entries unexpired at the later of both times and every client in order, whatever the memory limit |
| Files.ExportReadsBackExactlyBelow4GiB | internal/storage/storage.c:1182-1246 | an export file reads back as the exported image if and only if that is below 4 GiB; otherwise it is refused |
| Files.ExportThenImport | internal/storage/storage.c:1248-1307 | importing an export on any clock makes its clients and its entries unexpired at the later of both times the live state, or changes nothing when it is 4 GiB or more |
| Files.ParsedImageIsGood | internal/storage/storage.c:631-717 | whatever bytes an import decodes, its records have 64-bit times, 32-byte digests and 32-bit roles |
| Decoding.ManyThenIsParseThenFold | internal/storage/storage.c:656-714 | applying values while reading them is reading all and then applying, failures included |
| Decoding.DecodeStateIsReplay | internal/storage/storage.c:631-717 | one-pass decoding of a state is parsing and then replaying it |
| Decoding.JournalThenIsReplay | internal/storage/storage.c:1017-1033 | applying packets as they are read is reading the whole journal and then replaying it |
| Decoding.LoadInOrderIsLoadFiles | internal/storage/storage.c:980-1037 | the one-pass load is the load of both files as one log |
| Decoding.JournalSalvageIsSalvage | internal/storage/storage.c:1017-1033 | applying packets as long as that goes is salvaging the records that can be read |
| Decoding.LeftBehindIsSalvage | internal/storage/storage.c:980-1037 | what loading the bytes leaves in memory, also when it fails, is what the machine salvages from the disk they hold |
| Storage.ConsumeU32 | internal/storage/storage.c:160-170 | takes a big-endian 32-bit field or refuses at the end |
| Storage.ConsumeU64 | internal/storage/storage.c:173-188 | takes a big-endian 64-bit field byte by byte |
| Storage.ConsumeBytes | internal/storage/storage.c:191-205 | takes exactly that many bytes |
| Storage.ConsumeEntry | internal/storage/storage.c:659-672 | takes one encoded entry |
| Storage.ConsumeClient | internal/storage/storage.c:685-704 | takes one encoded client of either version |
| Storage.RestoreEntries | internal/storage/storage.c:656-680 | the entry loop restores the unexpired entries it reads, or fails |
| Storage.ImportClients | internal/storage/storage.c:682-714 | the client loop imports the clients it reads, or fails |
| Storage.Deserialize | internal/storage/storage.c:631-717 | decodes a state payload into store and registry and requires its exact end |
| Storage.ApplyJournal | internal/storage/storage.c:775-868 | applies one journal payload of any operation and requires its exact end; a record that is refused changes nothing |
| Storage.BuildPacket | internal/storage/storage.c:241-310 | encrypts and authenticates a payload, or refuses one that is too long |
| Storage.ReadPacket | internal/storage/storage.c:403-490 | end of file, a broken packet, or the decrypted payload and the next position |
| Storage.ReadWholeFile | internal/storage/storage.c:493-519 | one packet must fill the file; a missing or empty file is absent |
| Storage.ReplayJournal | internal/storage/storage.c:1017-1033 | reads and applies packets until the journal ends, or fails with the records before in memory |
| Storage.LoadState | internal/storage/storage.c:980-1037 | starting up yields exactly the load of the two files, or fails exactly when it does and then leaves what had been loaded by then |
| Storage.TryDecode | internal/storage/storage.c:1273-1293 | the scratch decode succeeds exactly when the payload decodes into an empty state |
| Storage.ImportState | internal/storage/storage.c:1248-1301 | an import either replaces everything by the file's state or changes nothing |
| Serializer.Buffer.Reserve | internal/storage/storage.c:85-118 | grows by doubling, keeps the contents, is refused exactly when the length would not be a size |
| Serializer.Buffer.Append | internal/storage/storage.c:121-135 | appends the bytes or leaves the buffer as it was |
| Serializer.ActiveOnlyLists | internal/storage/storage.c:542-568 | filtering a listing of the store lists its unexpired part |
| Serializer.CountActive | internal/storage/storage.c:522-539 | counts the entries that will be written |
| Serializer.WriteEntries | internal/storage/storage.c:542-568 | writes exactly the unexpired entries in order |
| Serializer.WriteClients | internal/storage/storage.c:571-590 | writes every client in order |
| Serializer.Serialize | internal/storage/storage.c:593-628 | the payload is the encoding of the unexpired entries and the clients |
| Serializer.BuildRecord | internal/storage/storage.c:720-772 | the payload of a journal record of any operation is its encoding |
| Archive.Archive.constructor | internal/storage/storage.c:943-970 | takes over files that hold a disk |
| Archive.Archive.Append | internal/storage/storage.c:362-400 | encodes, seals and appends a record; for every way the write can end the bytes hold the machine's next disk |
| Archive.Archive.Checkpoint | internal/storage/storage.c:1039-1070 | serializes, seals and replaces the files in place; wherever it stops the bytes hold the machine's next disk |
| Fips.RoundConstantsAreCubeRoots | internal/crypto/crypto.c:20-28 | round constant i is the first 32 fractional bits of the cube root of the i-th prime, the primes following one another |
| Fips.InitialWordsAreSquareRoots | internal/crypto/crypto.c:94-104 | the initial words are those of the square roots of the first eight primes |
| Fips.BigSigmas | internal/crypto/crypto.c:31-41 | the two functions of a round by shifts of both halves of the word |
| Fips.SmallSigmas | internal/crypto/crypto.c:43-49 | the two functions of the schedule likewise |
| Fips.ChoiceChooses | internal/crypto/crypto.c:72 | where the first word has ones the choice is the second, where it has zeros the third |
| Fips.MajorityIsTwoOfThree | internal/crypto/crypto.c:73 | the majority has ones where two of the three words have |
| Fips.PaddingIs | internal/crypto/crypto.c:133-162 | a one bit, the fewest zeros and the length in bits |
| Fips.HmacPads | internal/crypto/crypto.c:176-216 | the inner and the outer pad are the key block combined with 0x36 and 0x5C |
| Vectors.DigestOfAbc | internal/crypto/crypto.c:52-162 | the digest of "abc" is the published one, through padding, byte order, schedule, all rounds and the final addition |
| Sha256.BuildSchedule | internal/crypto/crypto.c:52-66 | the message schedule of one block |
| Sha256.Transform | internal/crypto/crypto.c:52-91 | the compression function of one block, in place |
| Sha256.Context.constructor | internal/crypto/crypto.c:94-104 | a new context has absorbed nothing |
| Sha256.Context.Update | internal/crypto/crypto.c:107-130 | appends to the message absorbed, for any split into blocks |
| Sha256.Context.Final | internal/crypto/crypto.c:133-162 | the digest is the fold of the compression function over the padded message |
| Crypto.HashChunks | internal/crypto/crypto.c:107-162 | the digest does not depend on how the message was split into updates |
| Crypto.Sha256Digest | internal/crypto/crypto.c:164-174 | the one-shot digest |
| Crypto.HmacSha256 | internal/crypto/crypto.c:176-216 | the two-pass computation is H((K xor opad) H((K xor ipad) m)) for keys of any length |
| Crypto.StreamXor | internal/crypto/crypto.c:451-484 | the in-place block loop is the exclusive-or with the counter-mode key stream |
| Base64.RoundTrip | internal/crypto/crypto.c:330-449 | every value decodes from its text in the buffer a PUT allocates |
| Base64.EncodedLength | internal/crypto/crypto.c:330-343 | four characters for every three bytes begun |
| Formats.Base64Alphabet | internal/crypto/crypto.c:330-369 | the digits are those of table 1 of RFC 4648 |
| Formats.PublishedTexts | internal/crypto/crypto.c:330-369 | the order of bits and the padding: the examples of section 10 of RFC 4648 |
| Formats.HexAlphabet | internal/crypto/crypto.c:282-297 | hexadecimal digits in lower case |
| Base64.AcceptedExactly | internal/crypto/crypto.c:391-449 | a PUT accepts exactly whole groups of digits and padding not starting with four padding characters, and never needs more than 3/4 of the text |
| Base64.ReencodingIsTheTextExactlyWhenCanonical | internal/crypto/crypto.c:391-449 | re-encoding gives an accepted text back if and only if it is canonical |
| Base64.NotEveryAcceptedTextIsCanonical | internal/crypto/crypto.c:404-425 | an accepted text with bits behind its padding |
| Base64.EncodeInto | internal/crypto/crypto.c:330-369 | the encoding loop and its buffer check |
| Base64.DecodeInto | internal/crypto/crypto.c:391-449 | the decoding loop with its wrapping room test, in every buffer in which the writes of this text stay inside |
| Base64.BufferSufficesExactlyWithThreeBytesPerGroup | internal/crypto/crypto.c:391-449 | the writes of every text of a length stay inside the buffer if and only if it has three bytes for each group |
| Hex.RoundTrip | internal/crypto/crypto.c:282-328 | every byte string decodes from its text |
| Hex.AcceptedExactly | internal/crypto/crypto.c:299-328 | accepts exactly even numbers of digits that fit; re-encoding only changes the case |
| Hex.EncodeInto | internal/crypto/crypto.c:282-297 | the encoding loop and its buffer check |
| Hex.DecodeInto | internal/crypto/crypto.c:299-328 | the decoding loop and its buffer check |
| Limiter.Table.constructor | internal/httpserver/http_server.c:1846-1901 | no window is open at the start |
| Limiter.Table.Admit | internal/httpserver/http_server.c:849-895 | the search, growth and counting on the array refine the list of windows |
| Limiter.SubjectsAreIndependent | internal/httpserver/http_server.c:849-895 | a request never changes another subject's window |
| Limiter.RefusalConsumesNothing | internal/httpserver/http_server.c:885-894 | a refused request changes nothing |
| Limiter.AtMostTwoBudgetsPerInterval | internal/httpserver/http_server.c:849-895 | over every run, at most 2N-1 grants in any interval as long as the window |
| Limiter.TwoBudgetsAreReached | internal/httpserver/http_server.c:849-895 | for every budget with a window of two seconds or more that bound is reached |
| Limiter.SlidingExactlyForTrivialBudgets | internal/httpserver/http_server.c:848 | the budget is a sliding one if and only if it is one request or the window one second |
| Limiter.WindowsAreApart | internal/httpserver/http_server.c:885-894 | whatever the clock does, windows open at least their length apart and grant at most N each |
| KeyList.KeysReadBackExactlyWhen | internal/httpserver/http_server.c:410-564 | the server reads back the client's keys if and only if there are at most 256 and no control characters but newline, return and tab; otherwise it refuses |
| KeyGrammar.GrammarIsRead | internal/httpserver/http_server.c:410-564 | every text of the grammar, with white space after the colon, the brackets, the strings and the commas and with all six escapes, is read as the keys it spells, if there are at most 256 |
| KeyGrammar.ReadIsInTheGrammar | internal/httpserver/http_server.c:410-564 | and whatever is read is such a text, with those keys |
| KeyGrammar.ControlsAreHexadecimal | cmd/mp-cachectl/main.c:51-53 | other control characters are written as four hexadecimal digits |
| KeyList.EscapeKey | cmd/mp-cachectl/main.c:12-64 | escaping always fits six bytes for each byte of the key |
| KeyList.BuildBody | cmd/mp-cachectl/main.c:320-376 | the body is always built within the capacity computed for it |
| KeyList.ReadString | internal/httpserver/http_server.c:465-524 | the string loop with its escapes, up to the end of the C string |
| KeyList.ReadItems | internal/httpserver/http_server.c:453-556 | the array loop with its separators and its limit |
| Bytes.CutAtNul | internal/httpserver/http_server.c:410-430 | the body taken as a C string ends at its first NUL |
| KeyList.ReadKeys | internal/httpserver/http_server.c:410-564 | the whole reading of the named array from any body, which ends at its first NUL |
| KeyList.ParsedKeysAreShorter | internal/httpserver/http_server.c:410-564 | every key read is shorter than the body |
| Purging.PurgeCountsDifferentKeys | internal/httpserver/http_server.c:1494-1513 | a purge removes exactly the listed keys and counts the different ones that were there |
| Dispatch.SweepIsInvisible | internal/httpserver/http_server.c:837-846 | the sweep before a request changes no unexpired entry, client, file or budget |
| Dispatch.ChangeIsAuthorized | internal/httpserver/http_server.c:898-961 | a request that changes the registry, the files or an unexpired entry carried a token of the route's role and was admitted by its budget |
| Routes.RefusalsExactly | internal/httpserver/http_server.c:1596-1810 | for every request exactly which of 404, 405, 400, 401, 403 and 429 it is refused with, by its route, method, token, literal role and budget, or that it is handled |
| Routes.ForbiddenExactlyBelowTheRole | internal/httpserver/http_server.c:941-945 | a 403 is given exactly to valid tokens below the route's literal role |
| Routes.RolesAreLiteral | internal/httpserver/http_server.c:1613-1806 | changes outside the cache keys need an administrator, reports an operator, cache keys a client |
| Routes.ServedGet | internal/httpserver/http_server.c:1036-1090 | an admitted GET answers 200 exactly while the entry lives |
| Routes.ServedPut | internal/httpserver/http_server.c:1093-1167 | an admitted PUT answered 200 or 500 has put that value under that key to expire after its time to live, and nothing else |
| Routes.ServedDelete | internal/httpserver/http_server.c:1170-1204 | an admitted DELETE removes that key and nothing else |
| Routes.ServedPurge | internal/httpserver/http_server.c:1464-1563 | purges remove everything or exactly the listed keys, keep the clients, and are refused exactly for unusable lists |
| Routes.ServedClient | internal/httpserver/http_server.c:1260-1412 | client requests change the record of that one client as they say |
| Routes.ServedState | internal/httpserver/http_server.c:1415-1461 | an export leaves what is served alone, an import answered 200 has replaced it by the file's state |
| Routes.StartedServerIsClean | internal/httpserver/http_server.c:1869-1870 | a server that has just loaded its files holds nothing expired, as the next row asks of its start |
| Routes.ExpiredEntriesStayLessThanAnInterval | internal/httpserver/http_server.c:837-846 | over every run of requests memory holds no entry that expired a sweep interval or more before the last request |
| Dispatch.RefusingStatusChangesNothing | internal/httpserver/http_server.c:1596-1810 | every status but 200 and 500 leaves all three unchanged, except a 400 to an authorized import whose file decodes |
| Dispatch.A400CanFollowAReplacement | internal/httpserver/http_server.c:1439-1461 | an import answered 400 that has replaced the live state |
| Dispatch.NothingChangesWithoutAToken | internal/httpserver/http_server.c:1596-1810 | in any run without a valid token nothing changes |
| Dispatch.RegistryNeedsAnAdministrator | internal/httpserver/http_server.c:1703-1806 | in any run without an administrator's token the registry stays as it was |
| Dispatch.ServingIsARun | internal/httpserver/http_server.c:1596-1810 | serving any requests is a run of the durability machine |
| Dispatch.ServingIsAValidRun | internal/httpserver/http_server.c:1596-1810 | requests as the service receives them, on a clock that does not go back, are a run that satisfies what the theorems about runs ask |
| Dispatch.RestartAfterServing | internal/runtime/runtime.c:118-170 | from any server with exact files, after any requests whose tried checkpoints complete below 4 GiB and that shorten no life, a restart finds exactly the clients and the unexpired entries |
| Service.FirstStart | internal/storage/storage.c:1005-1021 | missing files hold the empty disk and load as the empty state, exactly |
| Service.Service.constructor | internal/runtime/runtime.c:100-116 | an empty service over files that hold a disk, with the first sweep due one interval after the start |
| Service.Service.Start | internal/runtime/runtime.c:100-121 | starting on the files an earlier service left succeeds exactly when they load, holds what the machine's restart holds, and carries the claim about the files over; a failing start holds what the machine salvages |
| Service.Service.GiveUp | internal/runtime/runtime.c:161-170 | the cleanup after a failing start checkpoints that and completes the machine's restart, with the claim that follows from the earlier service's |
| Service.Service.Checkpoint | internal/storage/storage.c:1039-1070 | the machine's checkpoint of the present store and registry, on the bytes of the files |
| Service.Service.Save | internal/httpserver/http_server.c:1142-1143 | append, or checkpoint when that fails, on the bytes of the files |
| Service.Service.HandleGet | internal/httpserver/http_server.c:1036-1090 | the machine's read step: 200 with the base64 text of the entry while it lives, 404 otherwise |
| Service.Service.HandlePut | internal/httpserver/http_server.c:1093-1167 | the machine's write step on the decoded value, or an unchanged 400; 200 only if the change reached the files and 500 only if it did not |
| ReadBack.ReadsFollowTheRequests | internal/httpserver/http_server.c:1036-1563 | in every run whose starts load under a claim not lost, through sweeps, failing writes, crashes and restarts, reads see at every later time exactly the entries of a plain map that follows the requests |
| ReadBack.DependableStartsLoad | internal/storage/storage.c:980-1037 | in a dependable run every start loads |
| ReadBack.SparedEntryIsReadBack | internal/cache/cache.c:205-250 | an entry is read back with its value and expiry after any such run that does not write, delete, purge or import over its key, until it expires |
| Service.PutThenGetReturnsTheText | internal/httpserver/http_server.c:1068-1130 | a value put as base64 text is read back as that text after any such run while it lives |
| Service.Service.HandleDelete | internal/httpserver/http_server.c:1170-1204 | the machine's delete step |
| Service.Service.HandlePurgeKeys | internal/httpserver/http_server.c:1484-1538 | the machine's purge of listed keys, with purged and missing adding up to the request |
| Service.Service.HandlePurgeAll | internal/httpserver/http_server.c:1541-1563 | the machine's purge of everything |
| Service.Service.HandleRegister | internal/httpserver/http_server.c:1260-1322 | the machine's registration step |
| Service.Service.HandleRotate | internal/httpserver/http_server.c:1325-1370 | the machine's rotation step |
| Service.Service.HandleInvalidate | internal/httpserver/http_server.c:1373-1412 | the machine's invalidation step |
| Service.Service.HandleExport | internal/httpserver/http_server.c:1415-1436 | the machine's export step: a checkpoint, then 200 only if the export file was written too |
| Service.Service.HandleImport | internal/httpserver/http_server.c:1439-1461 | the machine's import step on the bytes of the file |
| Service.Service.MaybeSweep | internal/httpserver/http_server.c:837-846 | the sweep, when it is due |
| Service.Service.Admit | internal/httpserver/http_server.c:898-961 | token, role and budget in this order, with the refusing status |
| Service.Service.Serve | internal/httpserver/http_server.c:1596-1810 | serving a request in place is the dispatch function on the service's abstract state, is a move of a valid run, and keeps the machine's invariant, files that hold its disk and the claim that this run leads to |
| Service.FilesOfAServiceLoad | internal/storage/storage.c:980-1037 | whenever a running service claims `Exact`, the bytes in its files load, at any later time, to exactly its clients and its unexpired entries |
| Service.Service.Shutdown | internal/runtime/runtime.c:161-170 | the final checkpoint of a stopping service is the machine's step and leaves files that hold the claim of that step |

## Left out

- Sockets, header and target parsing, percent decoding, response texts, metrics counters, logs and reports: requests start from a classified route and the fields of the body.
- The JSON extraction of single strings and numbers; the string array of a purge is modelled in full.
- Real files, permissions, path resolution, export-file counting and configuration parsing; limits and times to live satisfy what configuration validation guarantees.
- Power loss: the source never flushes to stable storage, so only process crashes with atomic file-system steps are modelled.
- Allocation failure, except that a write it stops changes nothing.
- Randomness and the strength of the cryptography: nonces and tokens are inputs, and no bound is put on the chance that bytes across a tear authenticate; the machine takes a torn journal for unreadable, which the bytes satisfy unless `Files.Straddles` holds.
- The bucket hash is any function of the key; its basis differs from the published one and no conformance is claimed.
- Archive.Archive.constructor: memory limits from about 2^61 bytes on, whose packets would outgrow the hash's bit counter, are not described.
- HashStore.Store.constructor: the memory limit leaves room below 2^64 for the sums of the ceiling test, the condition of `HashStore.CeilingTestIsRightExactlyWithoutWrap`.
- Files.StateCodecRoundTrip: encoding and decoding do not both happen before 1970, where a stored expiry of zero or less would be refused.
- Service.Service.Start: when bytes across a tear happen to read as a packet, only the outcome of the load is stated.
- Storage.LoadState: files are shorter than 2^61 bytes, so that authenticated messages stay within the hash's bit counter.
- Limiter.AtMostTwoBudgetsPerInterval: the clock does not go back during the run; without that only `Limiter.WindowsAreApart` holds.
