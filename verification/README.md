# Verified model of the career coordination engine

A Dafny model of the parts of the engine that hold state, rewrite text or compute, with
machine-checked theorems about them.  `dafny verify dfyconfig.toml` checks everything.

What is modelled, in dependency order:

| files | component |
|---|---|
| Octets, Fips180, Sha256, Sha256Vector | SHA-256: the recursive definition of FIPS 180-4 with the published digest of "abc" computed from it, and the in-place program proved equal to it |
| AuditChain, AuditJson, AuditLog, SqliteAuditLog | the hash-chained audit log: hashing, a reader for the hashed text, verification, the in-memory log, and the SQLite log with its index cache, refused inserts and restarts |
| Interaction, InMemoryCoordinator, RedisCoordinator | the interaction state machine, the idempotent in-memory coordinator, and the Redis protocol as interleaved client steps |
| Strings, Normalization, Domain | byte-wise string order, tokens, tags, trimming, and the entities' normal forms |
| Hygiene, HygieneText | the four text-cleaning passes, and what they do to the characters of a text |
| Tokenization, Matching, MatchingLaws, MatchingWords, MatchingRun | tokenizers, and the matcher in both strategies |
| Constitution, ConstitutionLaws | the rules and the validation engine |
| StableHash, IndexBuild, IndexBuildLaws, IndexBuildCatalog, IndexBuildRun | the index build with drift detection over its run store |
| PdfText | text extraction from PDF content streams |

Objects that the program updates in place are classes whose methods state their whole new
state through a function on values; algorithms that run in loops are methods proved against
such a function; the theorems are about those functions, over every input, run, history or
interleaving.

Conventions.  A byte of text is one character of a `string`; hashing and auditing work on
`seq<byte>`.  Clock readings and completion times are numbers, later is greater.  Embedders are
arbitrary functions; the keys a vector index returns are an arbitrary list.  Scores are exact
fractions.  Hashes are never assumed injective: results say "or here are two texts with one
digest" and exhibit them.

## Where the code does less than its comments say

- A comment at include/ccmcp/interaction/redis_interaction_coordinator.h:30 promises a
  compare-and-set.  The script compares nothing: `SplitCallReopensClosed` is a run that moves a
  closed interaction to ready, `ScriptAgreesIff` is the exact condition under which the script
  does what the in-memory coordinator does, and the laws that hold under every interleaving are
  `ReceiptsCountTransitions` and `ReceiptsArePermanent`.
- include/ccmcp/indexing/index_build_pipeline.h:20 says a provider change forces full
  re-indexing.  `ReembedsIff` says, for any store, exactly which artifacts a build re-embeds;
  `OtherProviderUnseen` and `SwitchBackKeepsOtherVector` follow: switching back re-embeds nothing
  that is unchanged and leaves the other provider's vectors in place.
- include/ccmcp/storage/sqlite/sqlite_audit_log.h:19 calls appends thread-safe.  The lock does not
  cover the insert: `OverlappingAppendsBreakChain` in either order of insertion, with the exact
  condition for an insert made after its state was fetched in `LateInsertExtendsIff`.
- Text columns are bound as C strings, so an event with a NUL byte is hashed in full and stored
  cut short: `ChainSurvivesIffNulFree`.
- An event altered and resealed (hash recomputed, back link kept) is not reported at its own index:
  `AlterationReported` says exactly what is reported, `ResealedTipUnnoticed` that at the tip
  nothing is.
- Receipt keys join id and key with ':', so ids containing ':' can share keys: `IdsShareAKeyIff`,
  `ColonIdsInterfere`.  Theorems about runs of the coordinators assume ids without ':'.
- The last source hash is chosen by completion time alone.  `OneAnswerIff` says exactly when that
  leaves more than one answer, `DifferentTimesDecide` and `RisingTimesDecide` when it does not, and
  `EqualTimesLeaveStale` what the wrong answer does: a vector of a text that is no longer there.
- A Redis create checks and then writes; `LateCreateLosesCount` says when a transition in between
  is harmed.  In runs a create is one step.

## Model

| member | source | states |
|---|---|---|
| `Fips180.RotRRotates` | src/core/sha256.cpp:36-63 | the shift-and-or expression is rotation right by each of the ten distances the sigma functions use |
| `Fips180.ImagesOfOneBit` | src/core/sha256.cpp:48-63 | the image of a single bit under each of the four sigma functions, which tells their distances apart |
| `Fips180.SigmasAreLinear` | src/core/sha256.cpp:48-63 | the four functions are linear over exclusive or, so single bits determine them |
| `Fips180.ChSelectsMajVotes` | src/core/sha256.cpp:40-46 | the exclusive-or forms select bit by bit and take the bitwise majority |
| `Fips180.RoundConstantsAreCubeRoots` | src/core/sha256.cpp:21-34 | each of the 64 constants is the first 32 bits of the fractional part of the cube root of the prime of its place |
| `Fips180.InitialValueIsSquareRoots` | src/core/sha256.cpp:14-19 | the eight initial words are those bits of the square roots of the first eight primes |
| `Fips180.PadRoundTrip` | src/core/sha256.cpp:118-131 | the padding of FIPS 180-4 section 5.1.1 can be undone for every message below 2^61 bytes |
| `Fips180.PadInjective` | src/core/sha256.cpp:118-131 | so no two such messages share a padded form |
| `Fips180.PadLengthIsLeast` | src/core/sha256.cpp:119-122 | no smaller multiple of 64 holds the message and nine bytes, and the program's formula computes it |
| `Fips180.HexNibblesInjective` | src/core/sha256.cpp:139-145 | hex output loses nothing: equal digits, equal words |
| `Fips180.HashValueAppend` | src/core/sha256.cpp:133-137 | each further block is folded into the value of all the blocks before it |
| `Sha256Vector.DigestOfAbc` | src/core/sha256.cpp:65-146 | the digest published for abc, computed from the definitions word by word and round by round: it fixes every rotation, variable, constant and the order of the output |
| `Sha256.MessageSchedule` | src/core/sha256.cpp:67-78 | the array built by the two loops is the schedule of section 6.2.2, word by word |
| `Sha256.ProcessBlock` | src/core/sha256.cpp:66-113 | one block, updated in place, takes the state to the standard's next hash value |
| `Sha256.LengthBytesAreBigEndian` | src/core/sha256.cpp:121-131 | the eight shifted bytes, of a length kept modulo 2^64, are the big-endian length |
| `Sha256.PadMessage` | src/core/sha256.cpp:118-131 | the buffer filled in place is the standard's padded message |
| `Sha256.HashBlocks` | src/core/sha256.cpp:133-137 | the loop over offsets reaches the hash value of all blocks, from the initial constants |
| `Sha256.Sha256Hex` | src/core/sha256.cpp:117-146 | for every input, the digest of the recursive specification, 64 lower-case hex digits |
| `AuditChain.EscapeMeans` | src/storage/audit_chain.cpp:15-24 | every byte of a field is written as a JSON character denoting it (section 7 of RFC 8259) |
| `AuditChain.EscapeIsShortest` | src/storage/audit_chain.cpp:15-24 | no JSON character denoting a byte is shorter than the form chosen, and hex digits are lower-case |
| `AuditChain.EscapeIsOnlyForm` | src/storage/audit_chain.cpp:15-24 | among forms of that length with lower-case digits it is the only one, so the bytes hashed are fixed |
| `AuditChain.EscapePrefixFree` | src/storage/audit_chain.cpp:15-24 | escape sequences form a prefix-free code |
| `AuditChain.JsonStringPrefixFree` | src/storage/audit_chain.cpp:15-24 | a serialised string can be cut off what follows in one way only |
| `AuditChain.JsonElementsPrefixFree` | src/storage/audit_chain.cpp:20-24 | so can the array of references |
| `AuditChain.HashInputIsDumpThenHash` | src/storage/audit_chain.cpp:23-24 | the hashed text is the serialised event followed by the previous hash |
| `AuditChain.HashInputInjective` | src/storage/audit_chain.cpp:11-25 | the hashed text determines every hashed field and the previous hash |
| `AuditJson.ReadBodyOf` | src/storage/audit_chain.cpp:15-24 | reading a written text gives the text back, up to its closing quote |
| `AuditJson.ReadMembersOf` | src/storage/audit_chain.cpp:12-24 | reading a written object gives back its members in order, and what follows it |
| `AuditJson.ReadHashInput` | src/storage/audit_chain.cpp:12-24 | reading the hashed text gives back exactly the six fields, each under its own name and in the order of the names, and then the previous hash |
| `AuditChain.ComputeEventHash` | src/storage/audit_chain.cpp:11-25 | SHA-256, in hex, of that text |
| `AuditChain.VerifyAuditChain` | src/storage/audit_chain.cpp:27-50 | valid exactly when every link holds; otherwise the least failing index and which of the two checks fails there |
| `AuditChain.SealedEventPinned` | src/storage/audit_chain.cpp:11-25 | two sealed events with one hash are the same event or show two texts with one digest |
| `AuditChain.LastHashPinsChain` | src/storage/audit_chain.cpp:27-50 | valid chains with one tip hash agree entirely, or a collision or a preimage of the genesis hash is exhibited (the latter only when lengths differ) |
| `AuditChain.AlterationReported` | src/storage/audit_chain.cpp:27-50 | an altered event is reported at its own index exactly when it was not resealed; resealed, verification fails one later (or, at the tip, not at all), or a collision is exhibited |
| `AuditChain.AlterationCause` | src/storage/audit_chain.cpp:37-44 | the cause named: the back link when that was altered, the event hash when it was not, and the back link of the next event after resealing |
| `AuditChain.KeptHashAlterationCaught` | src/storage/audit_chain.cpp:37-44 | altering an event and keeping its stored hash is reported exactly there, or is a collision |
| `AuditChain.ResealedTipUnnoticed` | src/storage/audit_chain.cpp:27-50 | a resealed last event leaves a valid chain |
| `AuditLog.ChainExtends` | src/storage/audit_log.cpp:7-17 | a valid chain stays valid exactly when the new event links to its tip and carries its own hash |
| `AuditLog.AppendKeepsChains` | src/storage/audit_log.cpp:7-17 | an append keeps the chain of every trace valid, its own and the others |
| `AuditLog.LogVerifies` | src/storage/audit_log.cpp:7-32 | after any appends the events of every trace form a valid chain |
| `AuditLog.LogKeepsContent` | src/storage/audit_log.cpp:7-17 | appending changes the two hash fields only and keeps the order |
| `AuditLog.InMemoryAuditLog.constructor` | src/storage/audit_log.cpp:7-17 | an empty log whose hash map agrees with it |
| `AuditLog.InMemoryAuditLog.Append` | src/storage/audit_log.cpp:7-17 | adds the event linked to the last event of its trace; the hash map stays in step with the list |
| `AuditLog.InMemoryAuditLog.QueryTrace` | src/storage/audit_log.cpp:19-32 | the trace's events in order; everything for the empty id |
| `AuditLog.InMemoryAuditLog.ListTraceIds` | src/storage/audit_log.cpp:34-41 | every trace with an event, once |
| `SqliteAuditLog.SqliteDb.Insert` | src/storage/sqlite/sqlite_db.cpp:67-75 | refused for a repeated event_id or a storage fault, otherwise one row more |
| `SqliteAuditLog.SqliteAuditLog.constructor` | src/storage/sqlite/sqlite_audit_log.cpp:13 | a new log object sees the table and has an empty index cache |
| `SqliteAuditLog.SqliteAuditLog.GetAppendState` | src/storage/sqlite/sqlite_audit_log.cpp:107-151 | cached or queried index, last stored hash, and the cache advanced whatever happens next |
| `SqliteAuditLog.SqliteAuditLog.AppendEvent` | src/storage/sqlite/sqlite_audit_log.cpp:15-50 | the whole new table and cache, accepted or refused |
| `SqliteAuditLog.SqliteAuditLog.QueryTrace` | src/storage/sqlite/sqlite_audit_log.cpp:52-87 | the trace's rows in index order |
| `SqliteAuditLog.NextStateLinks` | src/storage/sqlite/sqlite_audit_log.cpp:107-151 | the hash found is that of the trace's last event and the index is beyond every stored one, also after refused inserts |
| `SqliteAuditLog.AppendRefines` | src/storage/sqlite/sqlite_audit_log.cpp:15-50 | one append keeps the invariant and is the in-memory append when accepted, nothing when refused |
| `SqliteAuditLog.RunRefines` | src/storage/sqlite/sqlite_audit_log.cpp:15-151 | over every run of appends, refusals and restarts the table holds the in-memory log of the accepted events |
| `SqliteAuditLog.SqliteRefinesInMemory` | src/storage/sqlite/sqlite_audit_log.cpp:15-151 | after every such run, for every trace: indices strictly rise, the query equals the in-memory query of the accepted events, and verification is valid over the whole length |
| `SqliteAuditLog.EmptyTraceQuery` | src/storage/sqlite/sqlite_audit_log.cpp:52-87 | the two logs agree on the empty trace id exactly when no event has another |
| `SqliteAuditLog.AppendTakesOneIndex` | src/storage/sqlite/sqlite_audit_log.cpp:107-151 | an append takes one index of its own trace, accepted or refused, and none of another trace |
| `SqliteAuditLog.RestartTakesGreatest` | src/storage/sqlite/sqlite_audit_log.cpp:118-133 | after a restart a trace goes on from its greatest stored index, so indices lost to refusals are handed out again |
| `SqliteAuditLog.UnrefusedRunsCount` | src/storage/sqlite/sqlite_audit_log.cpp:15-151 | in every run without a refused append the rows of each trace are numbered 0, 1, 2 and so on without a gap, restarts or not |
| `SqliteAuditLog.CStrIs` | src/storage/sqlite/sqlite_audit_log.cpp:35-43 | what is stored of a text is all of it before its first NUL |
| `SqliteAuditLog.ChainSurvivesIffNulFree` | src/storage/sqlite/sqlite_audit_log.cpp:35-43 | an accepted event leaves its chain valid exactly when its text fields have no NUL, or a collision is exhibited |
| `SqliteAuditLog.LateInsertExtendsIff` | src/storage/sqlite/sqlite_audit_log.cpp:15-50 | an insert made later than its state was fetched, at any unused index, keeps the chain valid exactly when the index is beyond every stored one and the trace's last hash is still the fetched one; below a stored row the only other outcome is a repeated hash |
| `SqliteAuditLog.LateInsertAtEndIff` | src/storage/sqlite/sqlite_audit_log.cpp:15-50 | at the end the condition is exact without exception |
| `SqliteAuditLog.LateInsertBelowBreaks` | src/storage/sqlite/sqlite_audit_log.cpp:52-87 | below a stored row the queried chain is broken, or a collision with an event of the chain or a preimage of the genesis hash is exhibited |
| `SqliteAuditLog.OverlappingAppendsBreakChain` | src/storage/sqlite/sqlite_audit_log.cpp:107-151 | on any verified store, two appends to one trace that both fetch their state before either inserts break the chain in both insertion orders, or a hash repeats |
| `Interaction.InteractionRecord.Apply` | src/domain/interaction.cpp:21-41 | applies exactly the permitted events, and a permitted event moves strictly forward |
| `Interaction.TransitionTable` | src/domain/interaction.cpp:5-41 | the exact table: an event is permitted exactly when the state is open and the event is Close or leads to the state of the next rank |
| `Interaction.EveryStateReached` | src/domain/interaction.cpp:5-41 | every state ends some legal history, each open one a history of exactly as many events as its rank |
| `Interaction.LegalRises` | src/domain/interaction.cpp:5-41 | along a legal history the state's rank rises with each event |
| `Interaction.LegalHistoryIsShort` | src/domain/interaction.cpp:5-41 | so a legal history has at most four events and no event twice |
| `Interaction.OpenStateTellsLength` | src/domain/interaction.cpp:5-41 | a legal history that ends in an open state has exactly as many events as the state's rank |
| `InMemoryCoordinator.InMemoryInteractionCoordinator.ApplyTransition` | src/interaction/inmemory_interaction_coordinator.cpp:7-85 | result and both maps, on every branch |
| `InMemoryCoordinator.AnswerReportsState` | src/interaction/inmemory_interaction_coordinator.cpp:15-84 | the answer tells the truth: which outcome for which store, the state before and after, the index, and for a replay the receipt |
| `InMemoryCoordinator.FreshKeyAppliesIff` | src/interaction/inmemory_interaction_coordinator.cpp:42-84 | with a fresh key an event is applied exactly when it closes an open interaction or takes it one rank further |
| `InMemoryCoordinator.CloseAlwaysApplies` | src/interaction/inmemory_interaction_coordinator.cpp:42-84 | in every run, closing an open interaction under a fresh key is applied and ends closed, one index further |
| `InMemoryCoordinator.InMemoryInteractionCoordinator.CreateInteraction` | src/interaction/inmemory_interaction_coordinator.cpp:103-129 | a draft at index 0 unless the id exists, then nothing |
| `InMemoryCoordinator.CreatesOnce` | src/interaction/inmemory_interaction_coordinator.cpp:103-129 | a creation succeeds exactly for an id not in use, and adds a draft at index 0 and nothing else |
| `InMemoryCoordinator.InMemoryInteractionCoordinator.GetState` | src/interaction/inmemory_interaction_coordinator.cpp:87-101 | the record of the id, if it has one |
| `InMemoryCoordinator.IdemKeyInjective` | src/interaction/inmemory_interaction_coordinator.cpp:12-13 | receipt keys of ids without ':' determine id and key |
| `InMemoryCoordinator.IdsShareAKeyIff` | src/interaction/inmemory_interaction_coordinator.cpp:12-13 | two ids can share a receipt key exactly when one followed by ':' begins the other followed by ':' |
| `InMemoryCoordinator.ColonIdsInterfere` | src/interaction/inmemory_interaction_coordinator.cpp:12-40 | ids "a" and "a:b": a call on one is answered from the other's receipt |
| `InMemoryCoordinator.AppliedExtends` | src/interaction/inmemory_interaction_coordinator.cpp:55-84 | an applied call extends the history its receipts record by its event |
| `InMemoryCoordinator.OthersUnaffected` | src/interaction/inmemory_interaction_coordinator.cpp:7-85 | and changes nothing of any other interaction |
| `InMemoryCoordinator.RunKeepsInv` | src/interaction/inmemory_interaction_coordinator.cpp:7-129 | every run keeps: each interaction's receipts are those of some legal history ending in its state |
| `InMemoryCoordinator.ReceiptsExplainState` | src/interaction/inmemory_interaction_coordinator.cpp:7-129 | in every run the receipts carry exactly the indices 1..n, folding their events is legal and gives the state, n is at most 4 and no event kind applies twice |
| `InMemoryCoordinator.ReplayIsStable` | src/interaction/inmemory_interaction_coordinator.cpp:29-40 | once a key has a receipt every later call with it, after any run, is answered from that receipt and changes nothing |
| `RedisCoordinator.KeysDistinct` | src/interaction/redis_interaction_coordinator.cpp:122-124 | state keys and receipt keys of ids without ':' never coincide across ids |
| `RedisCoordinator.CodesAndKeys` | src/interaction/redis_interaction_coordinator.cpp:11-24 | the integers states and events are stored as, the keys spelled out, and the outcome of every reply code |
| `RedisCoordinator.ScriptReplies` | src/interaction/redis_interaction_coordinator.cpp:65-94 | which reply the script gives for which keyspace, and that only the reply of an applied call goes with a write |
| `RedisCoordinator.RedisServer.EvalSha` | src/interaction/redis_interaction_coordinator.cpp:59-95 | reply and keyspace after the script, hash by hash |
| `RedisCoordinator.RedisInteractionCoordinator.ApplyTransition` | src/interaction/redis_interaction_coordinator.cpp:118-208 | a call without interference is the three protocol steps in a row |
| `RedisCoordinator.StepMovesIndexOnce` | src/interaction/redis_interaction_coordinator.cpp:118-208 | any client's step leaves an index alone or adds one together with one new receipt, and changes no receipt |
| `RedisCoordinator.RunKeepsInv` | src/interaction/redis_interaction_coordinator.cpp:118-257 | every interleaving, lost replies and aborted calls included, keeps the invariant of keyspace and clients |
| `RedisCoordinator.ReceiptsCountTransitions` | src/interaction/redis_interaction_coordinator.cpp:77-94 | under every interleaving: index equals number of receipts, receipt indices are a bijection with 1..n, the state is that of receipt n, draft if n = 0 |
| `RedisCoordinator.ReceiptsArePermanent` | src/interaction/redis_interaction_coordinator.cpp:70-94 | nothing later changes a receipt or lowers the index, so no key advances it twice |
| `RedisCoordinator.RetryAnswersFromReceipt` | src/interaction/redis_interaction_coordinator.cpp:70-75 | a retry of a recorded key is answered from the receipt and writes nothing |
| `RedisCoordinator.ScriptAgreesIff` | src/interaction/redis_interaction_coordinator.cpp:77-94 | the script does what the in-memory coordinator does exactly when the key is recorded or the state current at that moment allows the event |
| `RedisCoordinator.UnsplitStepAgrees` | src/interaction/redis_interaction_coordinator.cpp:118-208 | one step not split from its read keeps both stores equal and answers alike |
| `RedisCoordinator.UnsplitRunsAgree` | src/interaction/redis_interaction_coordinator.cpp:118-257 | every run whose transitions are not split holds the in-memory coordinator's states, indices and receipts |
| `RedisCoordinator.UnsplitAnswersAgree` | src/interaction/redis_interaction_coordinator.cpp:137-197 | and answers as it does, save a replay whose event is no longer enabled: invalid here, already applied there |
| `RedisCoordinator.UnsplitHistoryLegal` | src/interaction/redis_interaction_coordinator.cpp:118-208 | so there the state is the end of a legal history, one event per index |
| `RedisCoordinator.UninterruptedCallAgrees` | src/interaction/redis_interaction_coordinator.cpp:118-208 | one call without interference answers as the in-memory call exactly when it is not such a replay; the stores agree either way |
| `RedisCoordinator.CloseAppliesAlone` | src/interaction/redis_interaction_coordinator.cpp:118-208 | so an uninterrupted close of an open interaction under a fresh key is applied on the server too |
| `RedisCoordinator.SplitCallReopensClosed` | src/interaction/redis_interaction_coordinator.cpp:59-95 | a six-step run after which a closed interaction is moved to ready: the script compares nothing |
| `RedisCoordinator.LateCreateLosesCount` | src/interaction/redis_interaction_coordinator.cpp:240-250 | a create that writes after a transition was applied breaks the receipt count exactly when the index had moved |
| `Strings.SortedUnique` | include/ccmcp/core/normalization.h:108-113 | a strictly sorted list is determined by its members |
| `Strings.LessIff` | include/ccmcp/core/normalization.h:108-109 | the order compares byte by byte at the first difference, a proper prefix first |
| `Strings.Sort` | include/ccmcp/core/normalization.h:108-109 | a sorted permutation |
| `Strings.Unique` | include/ccmcp/core/normalization.h:111-113 | each member once, in strict order |
| `Normalization.NormalizeAsciiLower` | include/ccmcp/core/normalization.h:24-40 | lower case, same length |
| `Normalization.LowerLaw` | include/ccmcp/core/normalization.h:29-36 | capitals become the small letter of their place in the alphabet, every other character stays |
| `Normalization.LowerRises` | include/ccmcp/core/normalization.h:29-36 | so lower-casing rises strictly from the capitals into a to z |
| `Normalization.ScanIsTokens` | include/ccmcp/core/normalization.h:66-90 | the character loop with its buffer finds exactly the maximal alphanumeric runs |
| `Normalization.TokenizeAscii` | include/ccmcp/core/normalization.h:48-91 | the maximal alphanumeric runs, lower-cased, in order, those of at least the given length |
| `Normalization.TokensAreRuns` | include/ccmcp/core/normalization.h:48-91 | a word is a token exactly when some maximal run of ASCII letters and digits of at least the given length is that word in lower case |
| `Normalization.TokensSplit` | include/ccmcp/core/normalization.h:48-91 | a delimiter separates: the tokens of a text are those of its two sides |
| `Normalization.NormalizeTags` | include/ccmcp/core/normalization.h:98-116 | sorting and deduplicating the tokens of all tags gives the canonical list of that set |
| `Normalization.TagsOfAre` | include/ccmcp/core/normalization.h:98-116 | that list is strictly sorted and holds exactly the tokens occurring in the tags |
| `Normalization.TagsFixedIff` | include/ccmcp/core/normalization.h:98-116 | exactly the strictly sorted token lists are left unchanged |
| `Normalization.TagsIdempotent` | include/ccmcp/core/normalization.h:98-116 | normalising twice is normalising once |
| `Normalization.Trim` | include/ccmcp/core/normalization.h:119-144 | the two index loops compute the trimmed text, empty and all-blank input included |
| `Normalization.TrimIs` | include/ccmcp/core/normalization.h:119-144 | a blank prefix and a blank suffix are removed and no blank is left at either end |
| `Normalization.TrimIdempotent` | include/ccmcp/core/normalization.h:119-144 | exactly the texts without a blank at either end are fixed |
| `Domain.ValidateAtom` | src/domain/experience_atom.cpp:13-39 | the first of four complaints in the program's order, or none |
| `Domain.ValidAtomIff` | src/domain/experience_atom.cpp:13-39 | valid exactly with an id, a claim, strictly sorted tokens for tags and no capital in the domain |
| `Domain.AtomComplaint` | src/domain/experience_atom.cpp:13-39 | which of the four complaints an invalid atom draws, each exactly when the earlier ones do not apply |
| `Domain.ValidateRequirement` | src/domain/requirement.cpp:7-23 | the verdict on text and tags, empty tags passing |
| `Domain.RequirementComplaint` | src/domain/requirement.cpp:7-23 | which of the two complaints an invalid requirement draws |
| `Domain.ValidateOpportunity` | src/domain/opportunity.cpp:7-32 | the verdict of the first failing field or requirement |
| `Domain.OpportunityComplaint` | src/domain/opportunity.cpp:7-32 | which complaint an invalid opportunity draws; that of the first invalid requirement comes last |
| `Domain.NormalizeAtom` | src/domain/experience_atom.cpp:41-65 | the normal atom, its references trimmed and the empty ones dropped |
| `Domain.NormalizeRequirement` | src/domain/requirement.cpp:25-35 | the normal requirement |
| `Domain.NormalizeOpportunity` | src/domain/opportunity.cpp:34-50 | the normal opportunity, requirements in order |
| `Domain.TrimTextIs` | include/ccmcp/core/normalization.h:119-144 | trimming cuts exactly the spaces, tabs, line feeds and carriage returns at both ends |
| `Domain.NormalAtomIs` | src/domain/experience_atom.cpp:41-65 | each field of a normal atom from the original's: trimmed texts, the domain lower-cased, the tags as their sorted tokens, id and verification as they were |
| `Domain.RefsLaw` | src/domain/experience_atom.cpp:54-62 | references are trimmed one by one and in order, and those that trim to nothing are dropped |
| `Domain.NormalRequirementIs` | src/domain/requirement.cpp:25-35 | each field of a normal requirement from the original's |
| `Domain.NormalOpportunityIs` | src/domain/opportunity.cpp:34-50 | each field of a normal opportunity from the original's |
| `Domain.AtomNormalizationIdempotent` | src/domain/experience_atom.cpp:41-65 | normalising a normal atom changes nothing |
| `Domain.NormalAtomValidIff` | src/domain/experience_atom.cpp:13-65 | a normalised atom validates exactly when its id and trimmed claim are non-empty |
| `Domain.RequirementNormalizationIdempotent` | src/domain/requirement.cpp:7-35 | idempotent, and valid exactly when the trimmed text is non-empty |
| `Domain.OpportunityNormalizationIdempotent` | src/domain/opportunity.cpp:34-50 | normalising a normal opportunity changes nothing |
| `Domain.NormalOpportunityValidIff` | src/domain/opportunity.cpp:7-50 | a normalised opportunity validates exactly when its id and every trimmed mandatory text are non-empty |
| `Hygiene.GetLine` | src/ingest/hygiene.cpp:35-42 | reads off the first line of what is left of a stream |
| `Hygiene.NormalizeLineEndings` | src/ingest/hygiene.cpp:9-28 | every CR LF and CR becomes one LF |
| `Hygiene.TrimTrailingWhitespace` | src/ingest/hygiene.cpp:30-52 | each line without its trailing white space, final newline as the text had it |
| `Hygiene.CollapseBlankLines` | src/ingest/hygiene.cpp:54-81 | at most two of each run of empty lines |
| `Hygiene.NormalizeHeadings` | src/ingest/hygiene.cpp:83-125 | the heading form of every line |
| `Hygiene.NormalizeHeadingLine` | src/ingest/hygiene.cpp:91-113 | one space between hashes and text; headings without text and other lines as they are |
| `Hygiene.ApplyHygiene` | src/ingest/hygiene.cpp:127-134 | the four passes in order |
| `Hygiene.RebuildLines` | src/ingest/hygiene.cpp:35-49 | splitting into lines and writing them back is the identity, final newline included |
| `Hygiene.CleanIsClean` | src/ingest/hygiene.cpp:127-134 | the result has no CR, no trailing white space, no third empty line and only normal headings: no later pass undoes an earlier one |
| `Hygiene.CleanIsFixed` | src/ingest/hygiene.cpp:127-134 | a text with those properties is left alone by all four passes |
| `Hygiene.HygieneIdempotent` | src/ingest/hygiene.cpp:127-134 | cleaning twice is cleaning once, for every text |
| `Hygiene.FixedIffClean` | src/ingest/hygiene.cpp:127-134 | the texts left alone are exactly the clean ones |
| `Hygiene.HygienePreservesTokens` | src/ingest/hygiene.cpp:127-134 | the ordered token list of a text is unchanged by cleaning, for every text and every minimum length |
| `HygieneText.EndingsLaw` | src/ingest/hygiene.cpp:9-28 | CR LF is one break, a lone CR is one, every other character stays |
| `HygieneText.TrimLaw` | src/ingest/hygiene.cpp:36-41 | all trailing white space goes, the six characters listed, and nothing else |
| `HygieneText.CollapseLaw` | src/ingest/hygiene.cpp:60-71 | a run of n empty lines becomes min(n, 2) of them, every other line stays |
| `HygieneText.HeadingLaw` | src/ingest/hygiene.cpp:92-104 | any number of hashes, any spaces and tabs, and a text become the hashes, one space and the text |
| `HygieneText.NoHeadingLaw` | src/ingest/hygiene.cpp:105-113 | a line without a hash in front, or of hashes and blanks alone, stays as it is |
| `HygieneText.LinesOfClean` | src/ingest/hygiene.cpp:127-134 | the lines of a cleaned text are the original's, trimmed, with runs of empty ones cut to two, each in heading form |
| `HygieneText.CleanLine` | src/ingest/hygiene.cpp:127-134 | every line of every cleaned text, by its characters: no CR, no trailing white space, after hashes either nothing or one space and a text, and no third empty line |
| `HygieneText.FinalBreak` | src/ingest/hygiene.cpp:44-49 | a cleaned text lacks its final break exactly when the original did and its last line is not all white space |
| `Tokenization.TokenizeDeterministic` | src/tokenization/deterministic_lexical_tokenizer.cpp:47-56 | the set of tokens, in order |
| `Tokenization.WithoutStopWordsIs` | src/tokenization/deterministic_lexical_tokenizer.cpp:72-79 | exactly the tokens that are not stop words, still in strict order |
| `Tokenization.LexicalWordsAre` | src/tokenization/deterministic_lexical_tokenizer.cpp:47-79 | the words of a resume, and with the filter those not on the stop list, both ways |
| `Tokenization.DeterministicTokenize` | src/tokenization/deterministic_lexical_tokenizer.cpp:58-89 | one category with that list, filtered on demand |
| `Tokenization.OfKindIs` | src/tokenization/stub_inference_tokenizer.cpp:67-82 | a category holds exactly the tokens whose first word list is its own |
| `Tokenization.KindsByList` | src/tokenization/stub_inference_tokenizer.cpp:67-82 | skills before domains before roles, everything else an entity, by the word lists themselves |
| `Tokenization.StubTokenize` | src/tokenization/stub_inference_tokenizer.cpp:51-102 | the non-empty categories in key order |
| `Tokenization.StubCategoriesAre` | src/tokenization/stub_inference_tokenizer.cpp:84-96 | exactly the non-empty ones of the four categories, each under its name, names rising |
| `Tokenization.StubPartitionsTokens` | src/tokenization/stub_inference_tokenizer.cpp:64-96 | the four categories are disjoint, their union is the deterministic token set, and their sizes add up to its size |
| `Constitution.ValidateSchema` | src/constitution/rules/schema_001.cpp:8-88 | the findings of SCHEMA-001 in order, wrong or missing artifacts included |
| `Constitution.ValidateEvidence` | src/constitution/rules/evid_001.cpp:8-50 | the findings of EVID-001 in order |
| `Constitution.ValidateScore` | src/constitution/rules/score_001.cpp:8-31 | the finding of SCORE-001, if any |
| `Constitution.ValidateTok002` | src/constitution/rules/tok_002.cpp:10-73 | the findings of TOK-002 in category order |
| `Constitution.ValidateTok004` | src/constitution/rules/tok_004.cpp:12-67 | the findings of TOK-004 in category order |
| `ConstitutionLaws.SchemaFindingsAre` | src/constitution/rules/schema_001.cpp:40-88 | exactly the findings of SCHEMA-001 on a report: which defect at which position |
| `ConstitutionLaws.EvidenceFindingsAre` | src/constitution/rules/evid_001.cpp:24-47 | exactly those of EVID-001: matched entries without an atom, and without evidence |
| `ConstitutionLaws.ScoreFindingsAre` | src/constitution/rules/score_001.cpp:12-30 | exactly that of SCORE-001: nothing scored although something was asked |
| `ConstitutionLaws.Tok002FindingsAre` | src/constitution/rules/tok_002.cpp:42-70 | exactly those of TOK-002: short tokens, and longer ones with a character outside a-z and 0-9 |
| `ConstitutionLaws.Tok004FindingsAre` | src/constitution/rules/tok_004.cpp:42-64 | exactly those of TOK-004: tokens that do not occur in the canonical text |
| `ConstitutionLaws.OtherArtifacts` | src/constitution/rules/schema_001.cpp:12-36 | what each of the five rules says of a missing artifact and of one of another kind |
| `Constitution.Tok002SilentIff` | src/constitution/rules/tok_002.cpp:42-70 | silent exactly when every token is two or more lower-case ASCII alphanumerics |
| `Constitution.Tok004SilentIff` | src/constitution/rules/tok_004.cpp:45-64 | silent exactly when every token occurs in the canonical text |
| `Constitution.LexicalIRIsSilent` | src/tokenization/deterministic_lexical_tokenizer.cpp:58-89 | no finding of either rule on the lexical tokenizer's output against its own text, filtered or not |
| `Constitution.StubIRIsSilent` | src/tokenization/stub_inference_tokenizer.cpp:51-102 | nor on the stub tokenizer's |
| `Constitution.ComputeStatus` | src/constitution/validation_engine.cpp:24-47 | the status of the gravest finding |
| `Constitution.StatusReflectsGravest` | src/constitution/validation_engine.cpp:24-47 | which severities each status means, both ways |
| `Constitution.SortFindings` | src/constitution/validation_engine.cpp:77-85 | a permutation of the findings in which none precedes a graver one or, at equal severity, a lesser rule id |
| `ConstitutionLaws.ReportOrderMeans` | src/constitution/validation_engine.cpp:77-85 | the report order spelled out: block, fail, warn, pass, and rule ids rising within each |
| `Constitution.ValidationEngine.Validate` | src/constitution/validation_engine.cpp:54-112 | all findings of all rules, sorted, and their status, unless an override naming a blocking rule carries the right hash |
| `ConstitutionLaws.OverrideAppliesIff` | src/constitution/validation_engine.cpp:98-109 | an override takes effect exactly on a blocked artifact, for a rule that blocks it, with the hash of the artifact's id |
| `Constitution.DefaultVerdict` | src/constitution/validation_engine.cpp:114-125 | on any match report: blocked unless well-formed, else rejected when a match lacks evidence, else for review when nothing scored, else accepted |
| `ConstitutionLaws.DefaultVerdictOnAll` | src/constitution/validation_engine.cpp:54-125 | the default verdict on every artifact: any that is not a match report, or none at all, is blocked |
| `Constitution.MatchReportPasses` | src/constitution/validation_engine.cpp:54-125 | a report made from any candidates with ids, over non-empty requirement texts, is never blocked or rejected; accepted if there are no requirements or one matched, else for review |
| `Constitution.OwnReportPasses` | src/matching/matcher.cpp:198-308 | so is the matcher's own report, for both strategies and whatever the index returns |
| `Matching.IntersectIs` | src/matching/matcher.cpp:26-33 | exactly the common members, strictly sorted |
| `MatchingWords.FieldTokensAre` | src/matching/matcher.cpp:36-41 | a word is among a field's tokens exactly when it is a token of its text |
| `MatchingWords.AtomTokensAre` | src/matching/matcher.cpp:219-224 | a word is among an atom's tokens exactly when it is a token of its claim, a token of its title, or one of its tags |
| `MatchingRun.ExtractIntersection` | src/matching/matcher.cpp:26-33 | the one-pass merge computes it |
| `MatchingRun.TokenizeField` | src/matching/matcher.cpp:36-41 | the set of tokens of a field |
| `MatchingRun.CombineTokenSets` | src/matching/matcher.cpp:44-52 | the sorted union of three lists |
| `MatchingRun.SortScored` | src/matching/matcher.cpp:116-143 | sorting by score and id is the ranking by overlap count and id |
| `MatchingRun.Matcher.SelectCandidates` | src/matching/matcher.cpp:60-196 | candidates and retrieval counts of both strategies, the fallback for an empty query included |
| `MatchingRun.Matcher.FindBest` | src/matching/matcher.cpp:247-269 | the running best with its tie-break and evidence |
| `MatchingRun.Matcher.MatchRequirement` | src/matching/matcher.cpp:231-285 | one entry of the report |
| `MatchingRun.Matcher.Evaluate` | src/matching/matcher.cpp:198-308 | the whole report |
| `Matching.BestOfWins` | src/matching/matcher.cpp:247-269 | the loop's best is an atom with the greatest overlap and, among those, the least id |
| `Matching.WinnerUnique` | src/matching/matcher.cpp:261-268 | that atom does not depend on the order of the atoms |
| `Matching.MatchSound` | src/matching/matcher.cpp:231-285 | score in [0,1], positive exactly when matched, and evidence and atom exactly then; duplicate ids allowed |
| `Matching.MatchIsBest` | src/matching/matcher.cpp:231-285 | matched exactly when some candidate overlaps, then by the winner with its intersection as evidence |
| `Matching.MatchByMembers` | src/matching/matcher.cpp:231-285 | the entry is the same for every order of the candidates |
| `Matching.ReportSound` | src/matching/matcher.cpp:227-299 | one sound entry per requirement, overall score in [0,1] and positive exactly when something matched |
| `MatchingLaws.RankIs` | src/matching/matcher.cpp:136-143 | the ranking is a sorted permutation |
| `MatchingLaws.ReportByMembers` | src/matching/matcher.cpp:198-308 | the whole report is unchanged by any permutation of the atoms, in both strategies |
| `MatchingLaws.LexicalReportIsBest` | src/matching/matcher.cpp:227-299 | in lexical mode each entry is the best over the verified atoms |
| `MatchingWords.LexicalReportInWords` | src/matching/matcher.cpp:198-299 | in lexical mode, in words: matched exactly when some verified atom's claim, title or tags hold a word of the text; then by the atom with most such words, least id among equals, with exactly those words as evidence and their share as score |
| `MatchingWords.OverallIsMean` | src/matching/matcher.cpp:284-292 | the overall score is the mean: 0 for zeros, and each entry moves it by its share |
| `MatchingWords.ReportFields` | src/matching/matcher.cpp:203-308 | the remaining fields of every report |
| `MatchingLaws.ReportLists` | src/matching/matcher.cpp:239-299 | missing requirements are the texts of exactly the unmatched entries, in order; matched atoms are exactly the contributing ones, once each, by id |
| `MatchingLaws.QueryOverlapIff` | src/matching/matcher.cpp:91-133 | an atom overlaps the combined query exactly when it overlaps some requirement |
| `MatchingLaws.HybridCandidateIff` | src/matching/matcher.cpp:78-195 | with distinct ids, the hybrid candidates are exactly the atoms the lexical stage kept and those the hits name |
| `MatchingWords.HybridInWords` | src/matching/matcher.cpp:78-195 | in words: an atom is a hybrid candidate exactly when it is verified and fewer than k verified atoms share more of the query's words (or as many, under a lesser id), or a hit names it |
| `MatchingWords.AllVerifiedOtherwise` | src/matching/matcher.cpp:64-114 | in lexical mode, and without a word to ask for, the candidates and counts are those of all verified atoms |
| `MatchingWords.HybridCounts` | src/matching/matcher.cpp:145-178 | the three counts a hybrid retrieval reports |
| `MatchingLaws.HybridVerifiedIff` | src/matching/matcher.cpp:173-195 | every hybrid candidate is verified exactly when no hit names an unverified atom |
| `MatchingLaws.HybridMatchesIffLexical` | src/matching/matcher.cpp:78-196 | with k at least 1 and no unverified hit, hybrid matches something exactly when lexical does, whatever the embeddings return |
| `MatchingLaws.HybridScoreAtMostLexical` | src/matching/matcher.cpp:78-285 | no hybrid entry scores above the lexical one, and with k covering all atoms the entries are equal |
| `MatchingLaws.NoCandidatesNoMatch` | src/matching/matcher.cpp:145-151 | with k = 0 and no hits nothing matches: the bound on k is needed |
| `StableHash.StableHash64` | src/core/hashing.cpp:8-23 | the byte loop computes FNV-1a |
| `StableHash.PublishedValues` | src/core/hashing.cpp:8-23 | the published values of the empty text and "a" |
| `StableHash.PublishedValueInOrder` | src/core/hashing.cpp:8-21 | the published value of fo, which depends on the order of the bytes |
| `StableHash.MixInjective` | src/core/hashing.cpp:15-21 | one step forgets neither the hash so far nor the byte |
| `StableHash.OneByteEditChangesHash` | src/core/hashing.cpp:8-23 | changing one byte of a text always changes its hash, so drift of one byte is never missed |
| `IndexBuildRun.IndexRunStore.GetLastSourceHash` | src/storage/sqlite/sqlite_index_run_store.cpp:143-180 | a hash recorded by a completed run of that provider that no other such run completed after; none if there is no such run |
| `IndexBuild.LastSourceHashIs` | src/storage/sqlite/sqlite_index_run_store.cpp:147-159 | the scan over runs meets what the query promises |
| `IndexBuildRun.AtomCanonicalText` | src/indexing/index_build_pipeline.cpp:15-21 | title, claim and tags, space-joined |
| `IndexBuildRun.OpportunityCanonicalText` | src/indexing/index_build_pipeline.cpp:24-30 | role, company and requirement texts, space-joined |
| `IndexBuildCatalog.AtomTextTracks` | src/indexing/index_build_pipeline.cpp:15-21 | changing an atom's title, its claim or any one tag changes its canonical text |
| `IndexBuildCatalog.OpportunityTextTracks` | src/indexing/index_build_pipeline.cpp:24-30 | changing an opportunity's role title, its company or any one requirement's text changes its canonical text |
| `IndexBuildCatalog.CanonicalTexts` | src/indexing/index_build_pipeline.cpp:15-30 | both texts spelled out for two tags and two requirements |
| `IndexBuildCatalog.ScopeCovers` | src/indexing/index_build_pipeline.cpp:82-184 | what a scope covers: exactly the catalog's atoms, resumes and opportunities, each under the scopes that name its kind, with their ids and texts |
| `IndexBuildCatalog.ScopeOrder` | src/indexing/index_build_pipeline.cpp:82-184 | each once, in catalog order, atoms before resumes before opportunities |
| `IndexBuildRun.Pipeline.ProcessArtifact` | src/indexing/index_build_pipeline.cpp:84-129 | one artifact: counters, vector, entry and audit event together |
| `IndexBuildRun.Pipeline.RunIndexBuild` | src/indexing/index_build_pipeline.cpp:51-254 | store, index, audit log and result after the three loops |
| `IndexBuild.VectorKeyInjective` | src/indexing/index_build_pipeline.cpp:113-213 | no two artifacts share a vector key when no atom is named like a resume or opportunity key |
| `IndexBuild.UnplainIdCollides` | src/indexing/index_build_pipeline.cpp:113-213 | an atom so named shares its key with one |
| `IndexBuild.UnseenRun` | src/storage/sqlite/sqlite_index_run_store.cpp:147-159 | a further run changes an answer only if it is completed, of the same provider, and recorded the artifact |
| `IndexBuild.NewestRunAnswers` | src/storage/sqlite/sqlite_index_run_store.cpp:147-159 | such a run, completed after all others, is the answer |
| `IndexBuild.IndexOneKeepsMidBuild` | src/indexing/index_build_pipeline.cpp:84-129 | each artifact keeps: exactly the due artifacts so far were written, under this run, and no query sees the run yet |
| `IndexBuild.BuildWritesDue` | src/indexing/index_build_pipeline.cpp:51-254 | the whole effect of a build on any numbered store: the due artifacts in scope get their current hash and vector, every other entry and vector stays |
| `IndexBuild.ReembedsIff` | src/indexing/index_build_pipeline.cpp:84-129 | an artifact in scope is re-embedded exactly when it has an embedding and the query does not answer its current hash; then its vector is its embedding, otherwise the vector under its key is unchanged |
| `IndexBuild.AttemptsNumbered` | src/indexing/index_build_pipeline.cpp:51-254 | every history of builds, completed or stopped between artifacts, under any providers and catalogs, meets the one premise of these laws: entries belong to the runs numbered so far |
| `IndexBuild.BuildSettles` | src/indexing/index_build_pipeline.cpp:51-254 | with one provider and rising times, a build keeps every recorded hash that of a text whose embedding is the stored vector, and records the current hash of every in-scope artifact last |
| `IndexBuild.HistorySettles` | src/indexing/index_build_pipeline.cpp:51-254 | so over every such history of edits and builds |
| `IndexBuild.NoStaleVectors` | src/indexing/index_build_pipeline.cpp:82-230 | after every such history each in-scope artifact's vector embeds its current text, or a text with the same hash is exhibited |
| `IndexBuildCatalog.AtomsUpToDate` | src/indexing/index_build_pipeline.cpp:82-130 | the same for every atom of the catalog under its id, with no mention of the scope function |
| `IndexBuildCatalog.ResumesUpToDate` | src/indexing/index_build_pipeline.cpp:132-180 | for every resume, under resume: and its id |
| `IndexBuildCatalog.OpportunitiesUpToDate` | src/indexing/index_build_pipeline.cpp:182-230 | for every opportunity, under opp: and its id |
| `IndexBuildCatalog.AtomEditReembedded` | src/indexing/index_build_pipeline.cpp:84-129 | over catalogs: after a build and an edit of an atom's title, claim or one tag, the next build that covers it re-embeds it, or two texts with one hash are shown |
| `IndexBuildCatalog.ResumeEditReembedded` | src/indexing/index_build_pipeline.cpp:134-179 | the same for an edited resume |
| `IndexBuildCatalog.OpportunityEditReembedded` | src/indexing/index_build_pipeline.cpp:184-229 | the same for an opportunity whose role title, company or any one requirement was edited |
| `IndexBuildCatalog.BuildAudit` | src/indexing/index_build_pipeline.cpp:71-253 | the audit records of a build: its start, one per indexed artifact in order telling stale from new, its end with the counters |
| `IndexBuildLaws.CountsAddUp` | src/indexing/index_build_pipeline.cpp:83-230 | unchanged, without embedding, fresh and stale artifacts make up the scope |
| `IndexBuildLaws.BuildConserves` | src/indexing/index_build_pipeline.cpp:78-253 | on any numbered store: the counters are the numbers of artifacts with each verdict, indexed equals entries written and audit events of the run, and with those without embedding they add up to the scope |
| `IndexBuildLaws.OwnBuildAnswers` | src/indexing/index_build_pipeline.cpp:90-97 | after a build that completed last the query answers the current hash of each embedded artifact it covered |
| `IndexBuildLaws.OtherProviderUnseen` | src/storage/sqlite/sqlite_index_run_store.cpp:147-159 | a build under another provider changes no answer |
| `IndexBuildLaws.RebuildIsIdle` | src/indexing/index_build_pipeline.cpp:78-253 | on any numbered store a second build without edits changes no entry and no vector, indexes nothing and, with non-empty embeddings, skips everything |
| `IndexBuildLaws.UnknownScopeIndexesNothing` | src/indexing/index_build_pipeline.cpp:83-184 | any other scope string changes no vector |
| `IndexBuildLaws.OneAnswerIff` | src/storage/sqlite/sqlite_index_run_store.cpp:147-159 | the query has one answer exactly when no two latest completed runs of the provider recorded different hashes |
| `IndexBuildLaws.DifferentTimesDecide` | src/storage/sqlite/sqlite_index_run_store.cpp:147-159 | so pairwise different completion times among the runs it reads decide it, on any store |
| `IndexBuildLaws.RisingTimesDecide` | src/storage/sqlite/sqlite_index_run_store.cpp:147-159 | in every history with rising times the one answer is the hash of the last run that recorded the artifact |
| `IndexBuildLaws.EqualTimesLeaveStale` | src/indexing/index_build_pipeline.cpp:90-97 | on any numbered store: two builds at one time around an edit leave either hash an answer, and the older one, after the edit is undone, skips the artifact with the other text's vector in place |
| `IndexBuildLaws.StaleVectorAtOneTime` | src/indexing/index_build_pipeline.cpp:90-97 | that stale vector at a concrete input: claim "A", edited to "B" and back |
| `IndexBuildLaws.SwitchBackKeepsOtherVector` | src/indexing/index_build_pipeline.cpp:90-97 | on any numbered store: building under p, then q, then p again never re-embeds an unchanged artifact the third time and leaves q's vector under its key |
| `IndexBuildLaws.ProviderSwitchKeepsOtherVector` | src/indexing/index_build_pipeline.cpp:90-97 | an instance from the empty store: one atom skipped, q's vector the only one |
| `PdfText.UnescapeString` | src/ingest/format_adapter.cpp:71-95 | the escape loop against the recursive form |
| `PdfText.ExtractText` | src/ingest/format_adapter.cpp:41-105 | the nested scan, which ends on every input |
| `PdfText.MatchBody` | src/ingest/format_adapter.cpp:53-67 | the depth count stops at the parenthesis closing a body, nested and escaped parentheses inside included |
| `PdfText.MatchSucceedsIff` | src/ingest/format_adapter.cpp:53-69 | a string is found exactly when a body and its closing parenthesis follow |
| `PdfText.UnclosedParenthesisSkipped` | src/ingest/format_adapter.cpp:97-101 | an opening parenthesis never closed is passed over |
| `PdfText.ExtractsEveryString` | src/ingest/format_adapter.cpp:41-105 | from gaps and parenthesised bodies: the unescaped bodies in order, a space after each |
| `PdfText.EscapeRoundTrip` | src/ingest/format_adapter.cpp:75-95 | unescaping undoes the writing of a literal string (section 7.3.4.2 of ISO 32000-1) |
| `PdfText.OtherBackslashStays` | src/ingest/format_adapter.cpp:75-95 | a backslash before any other character stays, and so does one at the end |
| `PdfText.ExtractUndoesWriting` | src/ingest/format_adapter.cpp:41-105 | every list of strings, written with any gaps free of '(', is returned in order |

## Left out

- Sha256.ProcessBlock: words are integers below 2^32 with explicit reduction; the bit operations go through 32-bit vectors.
- SqliteAuditLog.SqliteAuditLog.AppendEvent: the 32-bit index column is unbounded, and the references column is kept as a list, not as JSON text written and parsed again.
- SqliteAuditLog.SqliteRefinesInMemory: one live log object, appends one after another; overlapping appends are the subject of LateInsertExtendsIff and OverlappingAppendsBreakChain only.
- SqliteAuditLog.LateInsertExtendsIff: an index already used in the trace, which one log object never hands out; the order of two rows with one index is left open by the SQL.
- AuditChain.ComputeEventHash: serialisation of text that is not valid UTF-8, on which the JSON library throws, is not modelled; every byte string is serialised.
- AuditLog.InMemoryAuditLog.ListTraceIds: the order of the keys of a hash map is not modelled; the contract fixes the set.
- InMemoryCoordinator.InMemoryInteractionCoordinator.CreateInteraction: contact and opportunity ids are not kept.
- RedisCoordinator.RedisInteractionCoordinator.ApplyTransition: connection handling, script loading, key expiry and error texts are not modelled; a failed or lost call is a backend error.
- RedisCoordinator.RunKeepsInv: a create is one step of the run (its two halves appear in LateCreateLosesCount).
- MatchingRun.Matcher.SelectCandidates: the query vector and the index search are a parameter (the keys returned), so k_embedding and similarity do not appear.
- MatchingRun.Matcher.Evaluate: floating-point rounding of scores; they are exact reals.
- MatchingLaws.HybridMatchesIffLexical: assumes that no hit names an unverified atom; the program lets such hits in (HybridVerifiedIff).
- Constitution.SortFindings: the order of findings with equal severity and rule id is not fixed, as std::sort leaves it open.
- Constitution.ValidationEngine.Validate: the two hash algorithms an override can name are a function parameter; report ids and versions are not modelled.
- Rules TOK-001, TOK-003 and TOK-005: the same shape as the rules modelled; they would add easy members.
- Tokenization.DeterministicTokenize: the schema version of the IR.
- Tokenization.StubTokenize: spans, schema version and tokenizer model fields of the IR.
- IndexBuildRun.Pipeline.RunIndexBuild: start times, entry times, vector hashes, metadata and JSON payloads are not kept.
- IndexBuild.AttemptsNumbered: an unfinished build stops between two artifacts, not inside one.
- IndexBuildRun.IndexRunStore.GetLastSourceHash: on equal completion times the SQL leaves the row open and the model takes the higher-numbered run; results about histories assume rising times, on which the answer is the only one.
- IndexBuildRun.Pipeline.ProcessArtifact: vector hash, metadata, entry time and event payload are not kept.
- "run-N" is the number N; the transaction around the counter is one step.
- IndexBuild.NoStaleVectors: one provider, one index, rising completion times, distinct ids, a non-empty embedding of the artifact's text, as stated in its premises.
- StableHash.StableHash64: the 16-digit hex rendering of the 64-bit hash.
- PdfText.ExtractText: octal, \b, \f and line-continuation escapes stay as they are in the program and in the model; stream location and decompression, DOCX and file reading are not modelled.
- Error and exception texts, SQL text, schema migrations, locks and threads.
- The repositories and decision store: map wrappers with only easy facts.
- JSON-RPC, tool handlers, command line, configuration, clocks and id generators: plumbing.
