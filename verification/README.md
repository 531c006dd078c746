# BeaconNode: a verified model of the replicated agent registry

BeaconNode keeps a registry of agents on every node. A registration carries a
revision; the registry keeps the last writer, logs what it accepts, and nodes
exchange what they have over a line protocol. This project models that core in
Dafny and proves what the parts promise, alone and together. Everything is in
`*.dfy` beside this file; `dafny verify dfyconfig.toml` checks the whole project.

## The parts

- **Durable log** (`Bytes`, `ShiftRegister`, `Crc32`, `Persistence`, `Recovery`,
  `Snapshots`, `LogRuns`, `TornTails`). The write-ahead log and the snapshot are byte strings. `Crc32`
  treats the register of section 8 of RFC 1952 as a linear shift register over
  `bv32`; the algebra is in `ShiftRegister`, so that bit-vector reasoning stays in
  a few small lemmas. `Recovery` says what comes back from torn, damaged and
  arbitrary files and from a crash inside a snapshot rotation; `LogRuns` says it
  of whole runs of appends and rotations, and `TornTails` of appends behind a tear.
- **Registry** (`Records`, `Registry`, `RegistryRuns`, `MergeCells`, `MergeOrder`,
  `MergeFilter`, `Paging`, `PageCuts`, `Loading`, `Restore`, `ConcurrentLog`,
  `QuiescentLog`). A mutable vector that behaves as a map from agent id to record.
  `MergeCells` reduces a merge to what it does to one agent, and `MergeOrder` says
  exactly when its order matters. `ConcurrentLog` splits an
  upsert into its locked commit and its unlocked append and lets them interleave
  freely; `QuiescentLog` follows such a run through a restart.
- **Identity and codecs** (`Crypto`, `PayloadSplits`, `Identity`, `Framing`, `Text`,
  `ControlProtocol`, `ParseErrors`, `Layouts`). Hex, decimal numbers, tokens and lines, the signed payload,
  the trust store, binary frames and the command parser.
- **Sync** (`LineHandler`, `SyncClient`, `SyncTheorems`, `SyncEquality`, `SyncExpiry`,
  `SyncPages`, `Cluster`). The handler and the client exchange text. `SyncTheorems` shows that
  for wire-safe records the text protocol is the sync on records, and then proves
  convergence; `SyncEquality` says on the inputs when nothing gets in the way and
  when the two sides end up equal; `SyncPages` follows repeated syncs with a page
  limit; `Cluster` shows that records stay wire-safe in
  every run of any number of nodes.
- **Churn simulator** (`Churn`, `ChurnRuns`). The Python simulator with every
  random choice left open.

Time, the random choices of the simulator, the outcome of file operations and the
signature check are inputs. Integers are unbounded in the model and bounded by
subset types (`u16`, `u32`, `u64`) where the code has a width; size fields are
cut to 32 bits as the code cuts them. Host order is little endian. Times are in
milliseconds.

## Where the code sets the boundary

Properties that fail in general are stated with the condition under which they
hold, which is exact unless it says otherwise:

- The project README promises eventual consistency. One sync compares only the
  two highest revisions. It leaves both sides with the same records if and only if
  they agreed below the lower of them already (`SyncEqualisesIff`); two nodes with
  equal highest revisions exchange nothing, whatever else they hold
  (`EqualHighestTransfersNothing`, `StayDifferent`).
- Upsert accepts equal revisions, loading does not: a restart brings back the live
  fields of an agent if and only if they were the first ones appended at the live
  revision (`QuiescentFieldsIff`; `TieRecoversTheEarlier` is a run where they were
  not).
- The order of a merge matters for an agent unless one record is the end of every
  order: nothing admitted replaces it, it replaces everything that can be held
  before it, and it needs no key where two signed keys compete for being pinned
  (`MergeOrderFreeIff`, for any registry, trust store and keys).
- A pinned key is let go by an accepted record without a key, after which another
  key gets in (`UnkeyedLetsGo`). It stays exactly as long as no such upsert, and no
  load of a newer record with another key, comes (`KeyKeptIff`).
- A page cursor is a revision: a paged pull is complete exactly when no page
  boundary falls between two records of equal revision (`PagedPullCompleteIff`),
  and so are repeated syncs with a page limit (`RepeatedSyncsCompleteIff`).
- The load's replace branch overwrites the far-future expiry it has just set, so a
  recovered agent survives the next purge exactly when no later log record raised
  its revision (`RecoveredSurvivesPurge`).
- Replay drops timestamps at or below the snapshot's maximum, 0 without a
  snapshot: an appended entry is recovered exactly when it is above that maximum
  (`AppendIsDurable`), so that the log alone never gives back revision 0
  (`QuiescentLogAgrees`). Over a run nothing is lost at any moment exactly when
  every append is above the mark or not newer than what is kept for its agent
  (`NothingLostIff`).
- The log is truncated even when the snapshot rename failed
  (`FailedRenameLosesLog`). A torn tail is not cut before later appends: they fill
  the announced record first, and only what follows the fill is read
  (`TornTailSwallows`, `ShortTailSwallows`, `TornEndFilled`).
- A heartbeat that raises the revision leaves a signature of another payload
  behind (`HeartbeatChangesPayload`).
- A line feed in a field or an '=' in a metadata key can make the payload ambiguous
  (`PayloadAmbiguous`, `MetadataAmbiguous`). Two neighbouring fields can be read in
  another way, the rest being fixed, exactly when the text that stands between them
  occurs in one of them (`EndpointAmbiguousIff`, `NodeAmbiguousIff`,
  `EntryAmbiguousIff`). For all fields together the restriction of
  `PayloadInjective` is sufficient and not necessary.
- docs/protocol.md says that merges go by revision and expiry; the code looks at
  revision and key, never at the expiry, and so does the model.

## Model

| member | source | states |
|---|---|---|
| `Crc32.ComputeCrc32` | src/beacon_net/persistence_service.cpp:64-74 | the nested loops compute the reflected CRC-32, which `CrcReadsBits` identifies with a bit-serial shift register |
| `Crc32.WidenIsByte` | src/beacon_net/persistence_service.cpp:66-67 | the word mixed in for a byte has the byte's own value, for every byte |
| `Crc32.CrcReadsBits` | src/beacon_net/persistence_service.cpp:64-74 | mixing a byte in and turning eight times is feeding its eight bits one by one, lowest first |
| `Crc32.CrcIsLawful` | src/beacon_net/persistence_service.cpp:67-71 | the step is additive and injective, and words that fit its width shift through unchanged |
| `Crc32.ChecksumOfLetter` | src/beacon_net/persistence_service.cpp:64-74 | the checksum of the one-byte message "a" is the published 0xE8B7BE43, which fixes polynomial, start value, bit order and complement |
| `ShiftRegister.WindowDetected` | src/beacon_net/persistence_service.cpp:64-74 | in any lawful shift register, equal-length inputs that agree outside one window of its width and leave the same state are equal |
| `Crc32.DetectsBurst` | src/beacon_net/persistence_service.cpp:64-74 | messages that agree outside some 32 neighbouring bits have equal checksums if and only if they are equal |
| `Crc32.DetectsFourBytes` | src/beacon_net/persistence_service.cpp:64-74 | damage confined to at most four neighbouring bytes always changes the checksum |
| `Persistence.PersistenceService.EncodeRecord` | src/beacon_net/persistence_service.cpp:92-103 | length, checksum and payload in order, little endian, the size cut to 32 bits; nothing when serialising fails |
| `Persistence.PersistenceService.AppendEntry` | src/beacon_net/persistence_service.cpp:88-107 | the log grows by exactly one record when it is open, and nothing else changes |
| `Persistence.PersistenceService.CreateSnapshot` | src/beacon_net/persistence_service.cpp:109-158 | the two files afterwards for every combination of failing file operations; the log is truncated even if the rename failed |
| `Persistence.PersistenceService.ReadAll` | src/beacon_net/persistence_service.cpp:181-215 | the loop reads what the recursive reader reads: torn records end it, oversize records and trailing bytes refuse the file, bad checksums and unparsable payloads are skipped |
| `Persistence.PersistenceService.RecoverSnapshot` | src/beacon_net/persistence_service.cpp:171-219 | the snapshot reader including the count limit and a header shorter than four bytes |
| `Persistence.PersistenceService.ReplayWal` | src/beacon_net/persistence_service.cpp:221-260 | the replay loop terminates on arbitrary bytes, consuming at least eight per round, and yields the entries above the mark |
| `Persistence.PersistenceService.RecoverAll` | src/beacon_net/persistence_service.cpp:163-263 | snapshot entries, then the log above their highest timestamp, or the refusal |
| `Snapshots.RecoversWithinLimits` | src/beacon_net/persistence_service.cpp:160-263 | up to 1,000,000 snapshot entries and any number of log entries, with payloads of at most 10,485,760 bytes, come back: the snapshot whole, the log above its highest timestamp |
| `Snapshots.TooManyRefused` | src/beacon_net/persistence_service.cpp:175-179 | a header that announces 1,000,001 records refuses the snapshot |
| `Snapshots.TooLargeRefused` | src/beacon_net/persistence_service.cpp:187-190 | a snapshot record that announces 10,485,761 bytes refuses the snapshot |
| `Snapshots.TooLargeSkipped` | src/beacon_net/persistence_service.cpp:234-238 | in the log the eight header bytes of such a record are skipped and reading goes on |
| `Snapshots.TrailingRefused` | src/beacon_net/persistence_service.cpp:211-215 | bytes after the last announced record refuse a snapshot, and only they do |
| `Snapshots.TornSnapshot` | src/beacon_net/persistence_service.cpp:185-195 | a snapshot that ends inside a record gives back the records before it |
| `Snapshots.DamagedSnapshot` | src/beacon_net/persistence_service.cpp:197-200 | damage of at most 32 neighbouring bits in one payload of a snapshot loses that entry and no other |
| `Snapshots.RecordLayout` | src/beacon_net/persistence_service.cpp:98-103 | the bytes of a record: size and checksum, low bytes first, and the payload |
| `Recovery.TornWrite` | src/beacon_net/persistence_service.cpp:221-262 | every byte prefix of an appended log recovers exactly the entries whose whole record lies in the prefix and whose timestamp is above the mark, in order |
| `Recovery.DamagedPayload` | src/beacon_net/persistence_service.cpp:240-255 | damage of at most 32 neighbouring bits in one payload loses that entry and no other |
| `Recovery.ReplayFromSlots` | src/beacon_net/persistence_service.cpp:227-256 | on arbitrary bytes every replayed entry is the parse of a checksum-matching slice; the slices are disjoint, headers included, and in file order |
| `Recovery.RecordsFromSlots` | src/beacon_net/persistence_service.cpp:181-209 | the same of a snapshot that is not refused |
| `Recovery.RecoverInventsNothing` | src/beacon_net/persistence_service.cpp:163-263 | whatever the two files hold, recovery gives the snapshot's slices and then the log's and nothing else |
| `Recovery.SnapshotRoundTrip` | src/beacon_net/persistence_service.cpp:128-140 | a snapshot within the limits reads back as written |
| `Recovery.RotationIsCrashSafe` | src/beacon_net/persistence_service.cpp:109-158 | a crash before the rename, between rename and truncation or after truncation recovers the same newest entry of every agent, from any files that are not refused |
| `Recovery.FailedRenameLosesLog` | src/beacon_net/persistence_service.cpp:146-154 | after a failed rename and the truncation the recovered map is the old one if and only if the log had nothing to replay |
| `LogRuns.AppendIsDurable` | src/beacon_net/persistence_service.cpp:250-254 | an appended entry is recovered if and only if its timestamp exceeds every timestamp of the snapshot |
| `LogRuns.RunRecovers` | src/beacon_net/persistence_service.cpp:88-263 | over every run of appends and rotations the bytes on disk refine an abstract log, and recovery gives what that log keeps |
| `LogRuns.NothingLost` | src/beacon_net/persistence_service.cpp:88-263 | if every append was above the snapshot of its time, any run recovers the newest of everything ever appended |
| `LogRuns.NothingLostIff` | src/beacon_net/persistence_service.cpp:88-263 | at every moment of a run a crash recovers the newest of everything appended so far if and only if every append is above the snapshot of its time or not newer than what is kept for its agent |
| `TornTails.TornTailSwallows` | src/beacon_net/persistence_service.cpp:55-62 | behind a torn record with a whole header nothing comes back before the missing bytes are filled; then the filled record counts if its checksum matches and it is fresh, and reading goes on after the fill |
| `TornTails.ShortTailSwallows` | src/beacon_net/persistence_service.cpp:227-238 | a tail of less than eight bytes takes the bytes that complete its header, and the header so made up decides whether it is skipped, is a record, or is a longer tail |
| `TornTails.TornEndFilled` | src/beacon_net/persistence_service.cpp:240-246 | a record torn in its last four bytes comes back if and only if the bytes written later are the missing ones; otherwise the checksum always drops it |
| `Registry.AgentRegistry.Upsert` | src/beacon/agent_registry.cpp:9-35 | accepts exactly when the id is new, or the revision is not lower and no other key is pinned; the vector and the callback's calls change accordingly |
| `Registry.AgentRegistry.RefreshHeartbeat` | src/beacon/agent_registry.cpp:37-50 | sets expiry and revision of a known agent whose revision does not fall, and nothing else |
| `Registry.AgentRegistry.Merge` | src/beacon/agent_registry.cpp:52-67 | the loop with the optional identity check equals the fold over the list; counts the accepted records and calls back once for each, in order |
| `Registry.AgentRegistry.EntriesAfterRevision` | src/beacon/agent_registry.cpp:69-88 | an ascending arrangement of exactly the records above the revision, cut to the limit unless it is 0 |
| `Registry.AgentRegistry.PurgeExpired` | src/beacon/agent_registry.cpp:108-117 | a record stays if and only if its expiry lies after the given time, the order of those that stay is kept, ids stay unique, and the count is the difference in size |
| `Registry.AgentRegistry.LoadFromPersistence` | src/beacon/agent_registry.cpp:124-140 | the loop equals the fold of the strict load rule, with a far future of 365 days |
| `Registry.AgentRegistry.Stats` | src/beacon/agent_registry.cpp:142-152 | the number of records and the highest revision, 0 when empty |
| `Registry.UpsertRefines` | src/beacon/agent_registry.cpp:9-35 | on the map view an upsert is one conditional update by last writer wins with pinned keys |
| `Registry.RefreshRefines` | src/beacon/agent_registry.cpp:37-50 | on the map view a heartbeat is one conditional update |
| `Registry.PurgeRefines` | src/beacon/agent_registry.cpp:108-117 | on the map view a purge is a filter by expiry |
| `Registry.UpsertLookup` | src/beacon/agent_registry.cpp:9-35 | after an upsert every other agent is as before and the agent has the winner of the two records |
| `RegistryRuns.RunKeepsUnique` | src/beacon/agent_registry.cpp:9-140 | ids are unique after every run of upserts, heartbeats, purges and loads |
| `RegistryRuns.RevisionNeverFalls` | src/beacon/agent_registry.cpp:9-140 | over every run the revision of an agent that stays present never falls |
| `RegistryRuns.KeyKeptIff` | src/beacon/agent_registry.cpp:22-26 | over every run in which an agent stays present its stored key stays if and only if no accepted upsert came without a key and no load brought a newer record with another |
| `RegistryRuns.UnkeyedLetsGo` | src/beacon/agent_registry.cpp:22-26 | a second key is refused after the first, and accepted after the first and an unkeyed record |
| `RegistryRuns.TrustOverRuns` | src/beacon/identity_service.cpp:8-34 | over every run of checked merges, heartbeats and purges a trusted key never changes and every stored record with key and signature carries the trusted key of its agent |
| `RegistryRuns.HeartbeatChangesPayload` | src/beacon/agent_registry.cpp:47-48 | after an accepted heartbeat the stored signature still refers to the payload of the stored record if and only if the revision stayed the same, whatever the fields hold |
| `MergeCells.MergeIsFold` | src/beacon/agent_registry.cpp:52-67 | what a merge makes of an agent's record and trusted key is decided by these two and by its own records in the list, in order |
| `MergeOrder.MergeOrderFreeIff` | src/beacon/agent_registry.cpp:52-67 | from any registry and trust store, with or without an identity service and whatever keys the records show, all lists with the same set of records, in any order and with repeats, merge into the same map if and only if every agent is settled: one record is not replaced by any other admitted one, replaces all that can be held before it, and needs no key where signed keys compete |
| `MergeOrder.NewAgentSettledIff` | src/beacon/agent_registry.cpp:9-35 | without an identity service an agent that is not there yet is settled if and only if one of its records is newer than all its others and conflicts with none in key |
| `MergeOrder.MergeOrderIrrelevant` | src/beacon/agent_registry.cpp:52-67 | in particular the order does not matter where agent and revision fix the record and no agent shows two keys |
| `MergeFilter.MergeIsFiltered` | src/beacon/agent_registry.cpp:54-64 | unless two signed records of an agent that is not trusted yet bring different keys, a checked merge is the plain merge of the records that the trust store at the start admits |
| `MergeOrder.PairCommutesIff` | src/beacon/agent_registry.cpp:19-26 | two records of an agent that is not there yet give the same map in both orders if and only if they are equal, or differ in revision and have no conflicting keys |
| `Paging.PullsTerminate` | src/beacon/agent_registry.cpp:69-88 | repeating the pull with the last revision as cursor ends after at most as many pages as there are records above the start |
| `Paging.PagedPullExists` | src/beacon/agent_registry.cpp:69-88 | from every registry and cursor some sequence of pulls comes to its end |
| `Paging.PagedPullComplete` | src/beacon/agent_registry.cpp:69-88 | with distinct revisions the pages together are the one unlimited pull, each record once |
| `PageCuts.PagedPullCompleteIff` | src/beacon/agent_registry.cpp:69-88 | for every limit from 1 a paged pull delivers no record twice, and delivers all if and only if no page boundary of the sorted records falls between equal revisions |
| `Loading.LoadKeepsFirstMaximum` | src/beacon/agent_registry.cpp:124-140 | loading any list into an empty registry keeps the one record that first attains its agent's highest revision, with far-future expiry exactly when it is also the agent's first |
| `Loading.RecoveredSurvivesPurge` | src/beacon/agent_registry.cpp:131-138 | a recovered agent survives the next purge if and only if no later record raised its revision |
| `Restore.StartUp` | src/beacon_engine/main.cpp:111-158 | recover, map every entry to a record, load, and only then set the callback; an empty registry then holds the newest entry of each agent field by field, with keys that decode to its bytes and no metadata; the registry is left alone when recovery is refused |
| `Restore.LoggedThenRestarted` | src/beacon_engine/main.cpp:118-158 | a record that is logged alone and found again keeps agent, node, endpoint and revision, has its keys in lower case and has lost its metadata |
| `Restore.OnUpsert` | src/beacon_engine/main.cpp:143-158 | the callback appends an entry of agent, node as capability, endpoint, revision as timestamp, and the decoded key and signature |
| `Restore.EntryRoundTrip` | src/beacon_engine/main.cpp:118-158 | mapping an entry to a record and back gives the entry |
| `Restore.RestartHoldsNewest` | src/beacon_engine/main.cpp:111-141 | a restarted registry holds, in its persisted fields, exactly the newest recovered entry of every agent |
| `Restore.RotationThenRestart` | src/beacon_net/persistence_service.cpp:109-263 | a crash at any moment of a rotation restarts into the same persisted fields |
| `ConcurrentLog.RecoveredNeverAhead` | src/beacon/agent_registry.cpp:9-35 | for every interleaving of commits, appends and heartbeats and every surviving log prefix, a recovered agent is live at no lower revision |
| `ConcurrentLog.QuiescentLogAgrees` | src/beacon/agent_registry.cpp:9-35 | with no append pending and no heartbeat, an agent is recovered if and only if its revision is not 0, then at that revision, and with the same persisted fields if revisions fix them |
| `ConcurrentLog.TieRecoversTheEarlier` | src/beacon/agent_registry.cpp:19-26 | a run with equal revisions in which the registry keeps the later record and the log gives back the earlier |
| `QuiescentLog.NewestIsFirst` | src/beacon/agent_registry.cpp:131-138 | of the entries with an agent's highest timestamp, the first is the one that is kept |
| `QuiescentLog.QuiescentFieldsIff` | src/beacon/agent_registry.cpp:9-35 | for every run with no append pending and no heartbeat, an agent comes back with its live persisted fields if and only if those are the first that were appended at the live revision |
| `QuiescentLog.QuiescentRestart` | src/beacon_engine/main.cpp:111-158 | the registry loaded again after such a run holds exactly the live agents whose revision is not 0, at their live revisions, and with their live persisted fields under the same condition |
| `Identity.IdentityService.VerifyAndRegister` | src/beacon/identity_service.cpp:8-34 | pins the first key that comes with a valid signature and refuses any other from then on |
| `Identity.CheckPins` | src/beacon/identity_service.cpp:8-34 | a check never changes a trusted key; a valid record's key is the trusted one; any other result leaves the store alone |
| `Crypto.HexDigits` | src/beacon/crypto.cpp:13-24 | the value of each of the 22 hex digits, and the sixteen that are written |
| `Crypto.DecodeHex` | src/beacon/crypto.cpp:52-68 | the bytes of a well-formed string, nothing at all for an ill-formed one |
| `Crypto.EncodeHex` | src/beacon/crypto.cpp:74-81 | two lower-case digits per byte |
| `Crypto.HexRoundTrip` | src/beacon/crypto.cpp:52-81 | decoding undoes encoding |
| `Crypto.HexNormalises` | src/beacon/crypto.cpp:52-81 | encoding what was decoded lowers the case and changes nothing else |
| `Crypto.CanonicalAgentPayload` | src/beacon/crypto.cpp:28-38 | the loop writes the signed lines in map order |
| `Crypto.PayloadInjective` | src/beacon/crypto.cpp:28-38 | equal payloads mean equal agent, node, endpoint, revision and metadata, when no field holds a line feed and no metadata key an '=' |
| `Crypto.PayloadAmbiguous` | src/beacon/crypto.cpp:28-38 | a family of pairs of records with different node ids that share a payload |
| `PayloadSplits.EndpointAmbiguousIff` | src/beacon/crypto.cpp:31-32 | with all other fields fixed, a record shares its payload with another node id and endpoint if and only if the text between the two occurs in one of them |
| `PayloadSplits.NodeAmbiguousIff` | src/beacon/crypto.cpp:30-31 | the same of agent id and node id |
| `PayloadSplits.EntryAmbiguousIff` | src/beacon/crypto.cpp:34-36 | a single metadata entry can be read as another if and only if an '=' occurs in its key or its value |
| `Crypto.MetadataAmbiguous` | src/beacon/crypto.cpp:34-36 | a family of pairs of records with one metadata entry and different keys that share a payload |
| `Crypto.SignatureStatusOf` | src/beacon/crypto.cpp:90-119 | missing exactly when key or signature is empty; valid exactly when libsodium is there, both sizes are right and the check passes on the payload; unsupported exactly when it is not there and both decode; invalid otherwise |
| `Records.InsertionOrderIrrelevant` | src/beacon/crypto.cpp:34-36 | metadata, and with it the payload, depends only on the last value of each key and not on the order of insertion |
| `Layouts.KeyOrder` | src/beacon/crypto.cpp:34-36 | metadata keys are in dictionary order: a proper prefix first, and else by the first difference |
| `Layouts.PayloadLayout` | src/beacon/crypto.cpp:28-38 | the lines of the payload written out |
| `Framing.EncodeFrame` | src/beacon/framing.cpp:38-48 | the nine header bytes in plain numbers and the payload; what is written decodes to the frame if the payload is below 2^32 bytes, and is refused otherwise |
| `Framing.FrameRoundTrip` | src/beacon/framing.cpp:38-64 | a frame decodes to itself if and only if its payload is below 2^32 bytes |
| `Framing.AcceptedIsEncoded` | src/beacon/framing.cpp:50-64 | every accepted byte string is the encoding of the frame it decodes to |
| `Framing.PrefixFree` | src/beacon/framing.cpp:50-64 | no accepted byte string is a proper prefix of another |
| `Framing.StreamSplitsUniquely` | src/beacon/framing.cpp:38-64 | a concatenation of frames splits in one way only |
| `Text.SplitTokens` | src/beacon/control_protocol.cpp:12-22 | the maximal runs without white space, in order |
| `Text.TokensOfLine` | src/beacon/control_protocol.cpp:12-22 | tokens written with blanks between them split back into themselves |
| `Layouts.OneToken` | src/beacon/control_protocol.cpp:12-22 | text without the six white-space characters is one token |
| `Layouts.TwoTokens` | src/beacon/control_protocol.cpp:12-22 | each of the six separates two tokens |
| `Text.RevisionRoundTrip` | src/beacon/control_protocol.cpp:24-29 | every 64-bit revision written in decimal reads back |
| `Layouts.DigitValues` | src/beacon/control_protocol.cpp:226 | the ten digits |
| `Layouts.DigitOrder` | src/beacon/control_protocol.cpp:226 | decimal numbers are written high digits first |
| `ParseErrors.PartNumber` | src/beacon/control_protocol.cpp:24-29 | a number cut short by another character is stored and refused |
| `ParseErrors.NoNumber` | src/beacon/control_protocol.cpp:24-29 | no number, or one above 2^64 - 1, leaves the old value and is refused |
| `ControlProtocol.ParseCommand` | src/beacon/control_protocol.cpp:67-151 | the token loop equals the recursive parser, with every error and its early return |
| `ControlProtocol.EncodeAgentLine` | src/beacon/control_protocol.cpp:222-241 | the agent line: four main fields, key and signature if not empty, metadata in map order |
| `ControlProtocol.EncodeMergeCommand` | src/beacon/registry_sync.cpp:22-29 | the agent line with another word in front and without its line feed |
| `ControlProtocol.ParsedIsWireSafe` | src/beacon/control_protocol.cpp:67-151 | whatever line arrives, a registration or merge without error has non-empty ids and endpoint, no white space and no '=' in metadata keys |
| `ControlProtocol.ParsedExpiry` | src/beacon/control_protocol.cpp:76-81 | whatever the line says, a registration or merge gets the expiry of its arrival |
| `ParseErrors.BadRevision` | src/beacon/control_protocol.cpp:104-110 | a revision that is no 64-bit number refuses the command wherever it stands |
| `ParseErrors.BadAfterRevision` | src/beacon/control_protocol.cpp:111-117 | the same of the cursor of a pull |
| `ParseErrors.BadLimit` | src/beacon/control_protocol.cpp:118-124 | the same of its limit |
| `ParseErrors.MissingFields` | src/beacon/control_protocol.cpp:137-150 | without a bad number, a missing agent id, then a missing node id or endpoint, refuses the commands that need it, and nothing else does |
| `ParseErrors.EmptyLine` | src/beacon/control_protocol.cpp:71-74 | an empty line is refused as an empty command |
| `ParseErrors.UnknownWord` | src/beacon/control_protocol.cpp:90-93 | any other first word is an unknown command |
| `ControlProtocol.MergeRoundTrip` | src/beacon/registry_sync.cpp:22-29 | a merge command carries a wire-safe record over unchanged but for the expiry |
| `ControlProtocol.RegisterRoundTrip` | src/beacon/control_protocol.cpp:67-151 | so does a registration |
| `ControlProtocol.HeartbeatRoundTrip` | src/beacon/control_protocol.cpp:67-151 | a heartbeat names its agent and revision |
| `SyncClient.ReadingCommands` | src/beacon/control_protocol.cpp:84-89 | LIST, STATS and SYNC_PULL without options; a pull then starts at 0 and asks for 256 |
| `Layouts.RecordLineLayout` | src/beacon/control_protocol.cpp:222-241 | what stands behind the word of an agent line, a registration and a merge, written out |
| `Layouts.RecordWords` | src/beacon/registry_sync.cpp:22-29 | the words in front: AGENT, MERGE and REGISTER |
| `Layouts.PullLayout` | src/beacon/registry_sync.cpp:31-33 | the pull command written out |
| `Layouts.StatsLayout` | src/beacon/control_protocol.cpp:195-199 | the answer to STATS written out |
| `Layouts.ListLayout` | src/beacon/control_protocol.cpp:201-217 | the answer to LIST: its header, a line for each record, and END |
| `ControlProtocol.SyncPullRoundTrip` | src/beacon/registry_sync.cpp:31-33 | a pull command carries its cursor and limit over |
| `LineHandler.Handler.HandleLine` | src/beacon/control_protocol.cpp:153-220 | registry, trust store, callback and answer after any line: OK to a registration or merge means that the map has the record under its agent, with the expiry of its arrival, and that the callback was told; OK to a heartbeat means the given revision and a new expiry there and nothing else; anything else leaves the map alone |
| `LineHandler.WriteOkIff` | src/beacon/control_protocol.cpp:159-187 | a registration or merge is answered with OK if and only if its signature is good enough for the configuration and the agent is new, or the revision does not fall and no other key is stored |
| `LineHandler.RefusalWords` | src/beacon/control_protocol.cpp:160-171 | the words of each refusal, by configuration and signature |
| `LineHandler.HeartbeatOkIff` | src/beacon/control_protocol.cpp:189-193 | a heartbeat is answered with OK if and only if the agent is there and its revision does not fall |
| `LineHandler.AnswerWords` | src/beacon/control_protocol.cpp:153-208 | the words of the other answers |
| `LineHandler.RegisterLineStores` | src/beacon/control_protocol.cpp:153-172 | from the line to the map: a registration without a bad signature, of an agent that is not there, is stored and answered with OK |
| `SyncClient.ParseAgentLines` | src/beacon_net/sync_client.cpp:34-76 | the records of exactly the agent lines that name an agent |
| `SyncExpiry.ReadExpiry` | src/beacon_net/sync_client.cpp:47-72 | whatever an answer says, what is read from it names an agent and gets the given expiry |
| `SyncClient.ParseHighestRevision` | src/beacon_net/sync_client.cpp:78-91 | the number behind the first matching token, or 0 |
| `SyncClient.ListRoundTrip` | src/beacon/control_protocol.cpp:201-217 | an answer of wire-safe records behind any header that is no agent line reads back as the list but for the expiry |
| `SyncClient.AnswerRoundTrip` | src/beacon/control_protocol.cpp:201-217 | both the list answer and the pull answer read back |
| `SyncClient.StatsRoundTrip` | src/beacon/control_protocol.cpp:195-199 | the highest revision in a STATS answer reads back |
| `SyncClient.ListAnswerReads` | src/beacon/control_protocol.cpp:201-208 | the answer to LIST reads back as the whole registry but for the expiry |
| `LineHandler.AnswerTells` | src/beacon_net/sync_client.cpp:140-143 | the client's test for OK holds exactly when the command took effect |
| `SyncClient.PushEntries` | src/beacon_net/sync_client.cpp:137-147 | each entry is sent as one command; the peer's registry and trust store end where handling them in order ends, and the count is the number answered with OK |
| `SyncClient.MergeResponse` | src/beacon_net/sync_client.cpp:133-135 | the registry merges what the answer says |
| `SyncClient.SyncWithPeer` | src/beacon_net/sync_client.cpp:98-112 | pull above the local highest revision, merge, then push above the peer's highest revision, all by text; registries and trust stores of both sides |
| `SyncTheorems.TextCarriesSync` | src/beacon_net/sync_client.cpp:98-147 | between wire-safe registries the text sync is the sync on records |
| `SyncTheorems.SyncNeverLowers` | src/beacon_net/sync_client.cpp:98-112 | no sync, limited or not, rejected or not, drops an agent or lowers a revision on either side |
| `SyncTheorems.SyncMovesOneWay` | src/beacon_net/sync_client.cpp:98-112 | records travel in at most one direction, from the higher side to the lower |
| `SyncTheorems.SyncConverges` | src/beacon_net/sync_client.cpp:98-112 | after a sync without page limit reached or rejection both sides hold the same records but for the expiry above the lower of the two highest revisions, and have the same highest revision |
| `SyncTheorems.SecondSyncTransfersNothing` | src/beacon_net/sync_client.cpp:98-112 | the next sync, whatever its settings, transfers nothing and changes neither side |
| `SyncTheorems.EqualHighestTransfersNothing` | src/beacon_net/sync_client.cpp:99-110 | a sync offers nothing to either side if and only if the highest revisions are equal |
| `SyncEquality.SyncEqualisesIff` | src/beacon_net/sync_client.cpp:98-112 | an undisturbed sync leaves both sides with the same records at every revision, but for the expiry, if and only if the lower side had no record of its own that the higher side has no newer one for, and had everything the higher side holds at or below its highest revision |
| `SyncEquality.StayDifferent` | src/beacon_net/sync_client.cpp:98-112 | two nodes with one agent each at equal revisions keep what they have and stay different |
| `SyncEquality.UndisturbedIff` | src/beacon_net/sync_client.cpp:98-112 | a sync is undisturbed if and only if, before it starts, what the higher side has above the lower side's highest revision fits the page, passes the taker's signature check and conflicts with no stored key |
| `SyncEquality.TextSyncConverges` | src/beacon_net/sync_client.cpp:98-147 | from the text protocol and that condition on the inputs straight to convergence above the lower highest revision, and to equality under the condition of `SyncEqualisesIff` |
| `SyncEquality.SyncKeepsKeys` | src/beacon_net/sync_client.cpp:98-147 | no sync changes a key that either side trusts |
| `SyncExpiry.SyncedLives` | src/beacon_net/sync_client.cpp:48 | whatever the registries hold, a record new on the side that pulled expires 60,000 milliseconds after the sync, one new on the side it was pushed to after the heartbeat time, and a purge takes it from then on and not before |
| `SyncPages.ExchangesArePages` | src/beacon_net/sync_client.cpp:98-112 | repeated limited syncs with nothing rejected are a paged pull whose cursor is the local highest revision |
| `SyncPages.RepeatedSyncsCompleteIff` | src/beacon_net/sync_client.cpp:98-112 | repeated until nothing is left to pull, they bring over everything the peer had above the start if and only if no page boundary of it falls between equal revisions |
| `SyncTheorems.SyncExists` | src/beacon_net/sync_client.cpp:98-112 | any two registries can sync, whatever the settings |
| `SyncTheorems.NewNodeCatchesUp` | src/beacon_net/sync_client.cpp:98-112 | a node that starts empty, with neither identity checks nor a reached page limit, has every record above revision 0 after one sync, and the peer is unchanged |
| `Cluster.StepKeepsInv` | src/beacon/control_protocol.cpp:153-220 | every step of every node keeps stored records, answers in flight and commands in flight traceable to accepted registrations |
| `Cluster.RegisteredEarlier` | src/beacon/control_protocol.cpp:159-172 | every entry of the ghost list of registrations is a REGISTER line that a node accepted earlier in the run |
| `Cluster.EveryRecordWasRegistered` | src/beacon/control_protocol.cpp:67-151 | in every state of every run of n nodes every stored record is wire-safe, equals an accepted earlier registration in all fields but revision and expiry, and has no lower revision |
| `Churn.SimNode.Register` | tools/run_churn_simulation.py:24-27 | the agent is there afterwards at no lower revision than the given one, no revision falls, other agents are unchanged, and the given record is held unless the stored one is strictly newer |
| `Churn.SimNode.Tick` | tools/run_churn_simulation.py:29-37 | every agent is one tick older and exactly those without time left are gone |
| `Churn.SimNode.HighestRevision` | tools/run_churn_simulation.py:20-22 | the attained maximum, or 0 for an empty table |
| `Churn.GossipRound` | tools/run_churn_simulation.py:40-53 | each side registers the lowest `limit` agents of the other above its own highest revision, both chosen beforehand |
| `Churn.DeltaIsLowest` | tools/run_churn_simulation.py:41-48 | a delta is as long as the limit allows, ascending, and leaves out nothing lower than what it holds |
| `Churn.GossipDelivers` | tools/run_churn_simulation.py:50-53 | what travels in a gossip round is there afterwards at no lower revision |
| `Churn.GossipMovesOneWay` | tools/run_churn_simulation.py:40-53 | agents travel in at most one direction |
| `Churn.ChurnNameIsNew` | tools/run_churn_simulation.py:63-70 | a churned agent's name has never been used |
| `ChurnRuns.RunSimulation` | tools/run_churn_simulation.py:56-74 | a run starts with the seed agents dealt out in turn, each at its revision with 4 to 12 ticks left; each round every node ticks and may be joined by the agent of the next revision, and then exactly twice as many pairs as nodes gossip with limit 32; at every round boundary all copies of an agent agree on revision and positive time left, and an agent that expired on one node is on no node then or later |
| `ChurnRuns.ExpiredIsGone` | tools/run_churn_simulation.py:65-74 | expiry happens on all nodes in the same round and is final |
| `ChurnRuns.ExpiresOnTime` | tools/run_churn_simulation.py:34-37 | an agent that is on a node leaves it in a round if and only if the time left that any node showed for it at any boundary has then passed |
| `ChurnRuns.Report` | tools/run_churn_simulation.py:76-79 | the reported convergence lies between 0 and 1 and is 1 if and only if all nodes hold the same agents |

## Left out

- Sockets, timers, threads, mutexes and server loops (src/beacon_net/control_server.cpp, src/beacon_net/gossip_service.cpp, src/beacon_net/udp_handshake_responder.cpp): a connection is a call into the peer's handler, and locked regions are atomic steps.
- Connection failures in the middle of a sync: the sync theorems are about quiescent peers that answer; `Cluster` covers lost, late and repeated messages for its own property.
- Protobuf's wire format: any codec that parses what it serialised. libsodium: any predicate on signature, payload and key.
- File-system calls: rename and truncate are atomic and their success is an input; fsync has no counterpart. A write that fails half-way is covered as a torn log, not as an operation.
- The order that `std::sort` gives equal revisions: the model allows every order.
- The real clock: one sync uses a single time for all its expiries, and a parsed command the time it is handed.
- The binary control protocol (src/beacon/control_protobuf.cpp): it mirrors the line handler over generated classes and hands moved-from records to the identity service, so the trust claims are about the merge path.
- Identity store, path resolution, secure buffers (src/beacon/identity_store.cpp, src/beacon_net/secure_buffer.hpp): platform code; key comparison is equality of bytes.
- Handshake, reputation, gossip scheduling, configuration (src/beacon/peer_handshake.cpp, src/beacon/reputation.cpp, src/beacon/gossip_scheduler.cpp, src/beacon/config.cpp): they would only add easy members.
- The Python client and its sync (python/src/beaconnode/): the parser turns decimal-looking values into integers and is no inverse of the encoder; the sync repeats the C++ algorithm.
- `RegistrySync::merge_remote`, `AgentRegistry::list` and `find`, `IdentityService::check_key_consistency` and `trusted_agents`: easy members.
- `IdentityService::forget_key`: the trust claims are about runs without it, and it breaks them by design.
- The simulator's average registry size and its printing.
