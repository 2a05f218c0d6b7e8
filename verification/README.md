# Aivyx: verified models of its stateful cores

A Dafny model of the parts of Aivyx whose behaviour is decided by state,
arithmetic or interleaving, and proofs of what they promise. Each `.dfy` file
is one component:

- **The durable audit chain.** `HmacChain` is the in-memory MAC chain.
  `AuditStore` is the reopen pipeline over an ordered key-value table.
  `AuditProtocol` is the protocol between the appending caller, the drain task,
  the disk, kills and reopening, as a step relation over which every run is
  quantified; `AuditSafety` is what every run keeps, `AuditTruncation` what the
  reopen check can miss, and `PersistentLog` shows that the methods of the log
  object take exactly those steps.
- **The learning ledgers.** `DecayingLedger` is the decaying store both ledgers
  share, `CooccurrenceLedger` and `CorrectionLedger` are its two uses, `GraphWalk`
  is the multi-hop walk over the pair graph, `Siblings` the direct read it must
  agree with, and `CorrectionConsolidation` the selector and actuator that turn
  corrections into proposals.
- **Capability grants.** `ScopeUrl` is the URL matcher, `Capability` scopes, sets
  and their intersection, `Globs` the laws of the glob matcher, `Ceilings`
  which ceilings cap faithfully, `TrustTiers` the four tiers.
- **Windowed reads and text forms.** `Briefing`, `ConversationWindows` and
  `Display`.
- **Small interactive machines.** `ApprovalDesks`, `TeamChat` and
  `OperatorActivity`.
- `Bytes`, `Text`, `Numerals`, `Sorting` and `Wrappers` hold the shared vocabulary.

Objects that the program updates in place are classes whose methods are proved
against functions on values; the laws are lemmas about those functions, over
every input, every history or every run.

What is left to the environment is a parameter: the MAC and the canonical
bytes of an event (`HmacChain.Primitives`), the stored form of entries and
anchors (`AuditStore.Codec`, assumed to decode what it encodes), the half-life
curve (`DecayingLedger.Rates`, assumed to be multiplicative, in (0, 1] and one
half after a half-life), the glob matcher and the white-space table
(`Capability.Matcher`, of which the ceilings assume `Ceilings.GlobLike` and the
rest nothing), which characters disguise text (`Display.Screen`,
assumed to spare the ASCII that escapes are written with), which bytes are
UTF-8 text, the price list, the
clock readings, and how each write to the store comes out.

Six places where the code and its own documentation differ are results here:

- `persistent.rs` documents that at most one tail entry can be lost unnoticed.
  Reopening does not rewrite the anchor, so each kill between a row write and its
  anchor write adds one, and every lag is reached (`AuditTruncation.AnyTailCanGoUnnoticed`).
  The exact rule is `AuditTruncation.TruncationDetected`.
- `cooccurrence_ledger.rs` calls the walk a heuristic. Because affinity never grows
  along a walk and dominance survives extension, it is exact:
  `GraphWalk.NeighborsWithin`.
- The same file presents the sibling lookup as the walk's one-hop case. The lookup also
  lists what is not positive and the topic paired with itself, and the two agree exactly
  when it lists neither: `Siblings.OneHopReadsAgreeIff`.
- `activity.rs` says a restart loses at most a minute of precision. When that minute
  straddles the visit gap it can lose hours, for the whole visit that follows:
  `OperatorActivity.RestartLosesAMinuteIff`.
- `lib.rs` uses the intersection to cap an agent by a ceiling. With a qualified scope in
  the ceiling, the capped set can grant what the ceiling does not
  (`Capability.QualifiedCeilingLeaks`) or what the agent does not
  (`Capability.RedundantCeilingLeaks`). `Ceilings.FaithfulIffSafe` says exactly which
  ceilings are safe under the linked matcher; literal paths and URLs are.
- `conversation_window.rs` speaks of a budget in characters; the assembled text is
  measured in bytes, which can drop a turn that fits (`ConversationWindows.AccentIsDropped`).
  `ConversationWindows.KeepsLikeCharactersIff` says when it makes no difference.

## Model

| member | source | states |
|---|---|---|
| `HmacChain.HmacChainLog.Append` | crates/aivyx-audit/src/lib.rs:1005-1038 | the log grows by exactly one entry, with its position, the time and event given, the tag of the head before it and the tag over that and the event; or it stays as it was with a serialization error |
| `HmacChain.HmacChainLog.Verify` | crates/aivyx-audit/src/lib.rs:1051-1092 | the verdict is the first defect in chain order, or success when no entry has one |
| `HmacChain.HmacChainLog.EntriesRange` | crates/aivyx-audit/src/lib.rs:978-990 | a short read: the entries from a position on, at most `limit` of them, none past the end |
| `HmacChain.AcceptsIffReplayed` | crates/aivyx-audit/src/lib.rs:1005-1092 | a list verifies if and only if it is, but for its times, what appending its own events to a fresh log builds |
| `HmacChain.AppendKeepsAcceptance` | crates/aivyx-audit/src/lib.rs:1005-1038 | appending to a valid chain leaves a valid chain |
| `HmacChain.HeadDeterminesLog` | crates/aivyx-audit/src/lib.rs:992-1036 | two valid logs have the same head tag if they are the same log but for times; and only then, unless entries of theirs share a tag over different messages, have the genesis value for a tag, or share canonical bytes |
| `HmacChain.ReplacedEventReported` | crates/aivyx-audit/src/lib.rs:1051-1092 | replacing the event of entry i alone is reported at seq i, and goes unnoticed exactly when the new event's message has the old one's tag |
| `HmacChain.VerdictAtFirstDefect` | crates/aivyx-audit/src/lib.rs:1051-1092 | what is reported is the earliest entry that is not intact, whatever follows it |
| `HmacChain.OverwrittenFieldReported` | crates/aivyx-audit/src/lib.rs:1051-1092 | overwriting one field of a valid entry is reported at it as a wrong number, a broken link or a wrong tag; only its time is not covered |
| `HmacChain.RemovedEntryReported` | crates/aivyx-audit/src/lib.rs:1051-1092 | taking out an entry before the last is reported at its place, by the number of the entry that moved there |
| `HmacChain.GenesisIsItsText` | crates/aivyx-audit/src/lib.rs:1013-1020 | the tag before the first entry is the documented seed text, right-aligned in 32 bytes |
| `AuditStore.SeqFromAuditKey` | crates/aivyx-audit/src/persistent.rs:148-153 | reading the sequence number out of an entry key gives back the number it was made from |
| `AuditStore.AuditKeyFromSeq` | crates/aivyx-audit/src/persistent.rs:654-663 | and only keys made that way read as a number |
| `AuditStore.AuditKeyOrder` | crates/aivyx-audit/src/persistent.rs:143-153 | byte order of entry keys is numeric order of sequence numbers, which the reopen path relies on instead of sorting |
| `AuditStore.ScanRangeIsPrefix` | crates/aivyx-storage/src/lib.rs:414-423 | the half-open range a prefix scan reads holds exactly the keys with that prefix, for every prefix |
| `AuditStore.ScanUnique` | crates/aivyx-storage/src/lib.rs:944-1010 | a table has one scan: rows are determined by the table and the prefix |
| `AuditStore.ScanExists` | crates/aivyx-storage/src/lib.rs:944-1010 | and every table has one |
| `AuditStore.AnchorOutsideScan` | crates/aivyx-audit/src/persistent.rs:155-175 | the anchor key is outside the entry scan and is no entry key |
| `AuditStore.KeysAreTheirTexts` | crates/aivyx-audit/src/persistent.rs:143-175 | the two keys are their documented texts |
| `AuditStore.VerifyEntriesExternal` | crates/aivyx-audit/src/persistent.rs:671-729 | the external check reports exactly what the chain itself would report |
| `AuditStore.DecodeAndValidateRows` | crates/aivyx-audit/src/persistent.rs:604-652 | the decode loop reports the first row whose key, value or position is wrong, then the chain verdict |
| `AuditStore.DecodesExactly` | crates/aivyx-audit/src/persistent.rs:590-729 | rows decode to a chain if and only if the table holds entry i under key i for every i and nothing else under the prefix, and the chain is valid |
| `AuditStore.Open` | crates/aivyx-audit/src/persistent.rs:309-350 | opening returns the recovered chain or the first error of the pipeline; its second verification never fails |
| `AuditStore.OpensExactly` | crates/aivyx-audit/src/persistent.rs:240-326 | opening succeeds with a chain if and only if the store holds it, it is valid, and the anchor, if there is one, can be read and lies before the last entry or names it with its tag |
| `AuditStore.RefusedForItsAnchor` | crates/aivyx-audit/src/persistent.rs:216-264 | otherwise a valid chain is refused for an unreadable anchor with a storage error, and for a tail behind the anchor or with another tag with both sequence numbers |
| `AuditStore.FirstBadRowReported` | crates/aivyx-audit/src/persistent.rs:604-652 | before the chain or the anchor is looked at, the first row that is not entry i under key i is reported by its position |
| `AuditSafety.StepKeeps` | crates/aivyx-audit/src/persistent.rs:486-796 | every step of append, drain, failure, cancel, kill and reopen keeps the invariant of chain, channel, disk and anchor |
| `AuditSafety.CrashSafety` | crates/aivyx-audit/src/persistent.rs:486-796 | in every run the durable entries are a prefix of the chain in memory, and reopening recovers exactly them |
| `AuditSafety.HealthyAndDrainedIsDurable` | crates/aivyx-audit/src/persistent.rs:486-539 | while the log is healthy and its channel is drained, every chained entry is on disk |
| `AuditSafety.FirstFaultStands` | crates/aivyx-audit/src/persistent.rs:738-813 | a fault is for good: no step clears it, replaces the first one or restores health, and the first one names the step and the entry that failed |
| `AuditSafety.UnhealthyIffFault` | crates/aivyx-audit/src/persistent.rs:486-539 | in every run a session is unhealthy exactly when it has a first fault |
| `AuditSafety.ChannelIsBounded` | crates/aivyx-audit/src/persistent.rs:486-539 | in every run the channel holds at most 1024 entries, and a send is refused if and only if it is full or its reader has gone |
| `AuditSafety.UnhealthyIsQuiet` | crates/aivyx-audit/src/persistent.rs:486-796 | once unhealthy, and with no write or send under way, a session neither enqueues nor writes a row again |
| `AuditTruncation.TruncationDetected` | crates/aivyx-audit/src/persistent.rs:240-264 | after any run, deleting the last t rows passes the reopen check if and only if there is no anchor yet or t is at most its lag in row writes |
| `AuditTruncation.KillBetweenWritesGrowsLag` | crates/aivyx-audit/src/persistent.rs:72-83 | each kill between the row write and the anchor write adds one to the lag, because reopening does not rewrite the anchor |
| `AuditTruncation.EveryLagIsReached` | crates/aivyx-audit/src/persistent.rs:72-83 | from a store that has never been written, some run reaches every lag below 2^64 |
| `AuditTruncation.AnyTailCanGoUnnoticed` | crates/aivyx-audit/src/persistent.rs:72-83 | so the documented bound of one unnoticed tail entry fails: for every n below 2^64 there is a run after which deleting the last n rows reopens |
| `PersistentLog.PersistentAuditLog.Append` | crates/aivyx-audit/src/persistent.rs:486-539 | one call takes exactly the protocol steps chain, health check, send, and the health flip when the send is refused |
| `PersistentLog.PersistentAuditLog.DrainNext` | crates/aivyx-audit/src/persistent.rs:738-796 | one turn of the drain loop takes exactly the protocol steps take, begin, row put, anchor put, for every way the puts may come out, and calls the error handler once for each failure |
| `PersistentLog.FollowsExtendsRun` | crates/aivyx-audit/src/persistent.rs:486-796 | so whatever these methods do from a reachable state is a run of the protocol |
| `DecayingLedger.PersistentLedger.FoldOne` | crates/aivyx-channel/src/cooccurrence_ledger.rs:199-236 | a fold multiplies the stored score by the factor for its age, adds the net, counts the sample up to 2^32 - 1, stamps the time and touches no other row |
| `DecayingLedger.HalvedPerHalfLife` | crates/aivyx-channel/src/cooccurrence_ledger.rs:110-125 | what one fold leaves reads as its net at once and as half as much for every half-life after |
| `DecayingLedger.PersistentLedger.PruneStale` | crates/aivyx-channel/src/cooccurrence_ledger.rs:498-535 | prune removes exactly the rows that are both below the epsilon and untouched past the horizon, and counts them |
| `DecayingLedger.PruneDropsIff` | crates/aivyx-channel/src/cooccurrence_ledger.rs:498-535 | a row goes if and only if its stored score times the factor for its age is within the epsilon of zero and its age is past the horizon; every other row stays as it is |
| `DecayingLedger.PersistentLedger.Ranked` | crates/aivyx-channel/src/cooccurrence_ledger.rs:261-306 | the ranking holds every shown row once, decayed to now, in strict rank order |
| `DecayingLedger.FoldReads` | crates/aivyx-channel/src/cooccurrence_ledger.rs:113-125 | a fold adds its net, times the factor for its age, to every later reading and nothing else: decaying in steps is decaying once |
| `DecayingLedger.LossBound` | crates/aivyx-channel/src/cooccurrence_ledger.rs:498-535 | what prunes have taken from a reading is zero before any drop, and after one is bounded by the time since the last |
| `DecayingLedger.ReadingIsCloseToSum` | crates/aivyx-channel/src/cooccurrence_ledger.rs:498-535 | over every history in clock order a reading is the sum of all its nets, each times half(now - at), if no prune dropped the row, and misses it by less than epsilon/(1 - half(horizon)) otherwise |
| `CooccurrenceLedger.PairKeyOrderBlind` | crates/aivyx-channel/src/cooccurrence_ledger.rs:130-138 | a pair has one key whichever topic is named first |
| `CooccurrenceLedger.SplitUndoesPairKey` | crates/aivyx-channel/src/cooccurrence_ledger.rs:130-156 | splitting a key gives the ordered pair back if and only if both topics are text and the smaller one's length fits the 32-bit field |
| `CooccurrenceLedger.PairKeyInjective` | crates/aivyx-channel/src/cooccurrence_ledger.rs:130-138 | for pairs whose smaller topic is shorter than 2^32 bytes, two share a key if and only if they are the same unordered pair |
| `CooccurrenceLedger.WidePairsShareKeys` | crates/aivyx-channel/src/cooccurrence_ledger.rs:130-138 | at 2^32 bytes the length is cut to zero and the key is another pair's too |
| `CooccurrenceLedger.RecordWindow` | crates/aivyx-channel/src/cooccurrence_ledger.rs:199-236 | a window folds each of its nets, in order, under its pair's key |
| `CooccurrenceLedger.PairScore` | crates/aivyx-channel/src/cooccurrence_ledger.rs:239-257 | the point lookup finds the pair's row exactly when its key is stored, and shows its score times half(now - last) with its own samples and time |
| `CooccurrenceLedger.PairScoreLaw` | crates/aivyx-channel/src/cooccurrence_ledger.rs:199-257 | over every history the score of an unordered pair is the sum of its nets, each times half(now - at), if no prune dropped it, and is always less than twice the prune epsilon away |
| `CooccurrenceLedger.HistoryInSteps` | crates/aivyx-channel/src/cooccurrence_ledger.rs:199-236 | a history is its windows recorded and its prunes made one after the other |
| `CooccurrenceLedger.Ranked` | crates/aivyx-channel/src/cooccurrence_ledger.rs:261-308 | every pair whose key splits, once, decayed to now, strongest first, equal scores by the two topics |
| `CooccurrenceLedger.PairRankingUnique` | crates/aivyx-channel/src/cooccurrence_ledger.rs:261-308 | a ledger has one ranking |
| `CorrectionLedger.RecordWindow` | crates/aivyx-channel/src/correction_ledger.rs:139-172 | a window folds each topic's count, in order |
| `CorrectionLedger.WindowAddsItsCount` | crates/aivyx-channel/src/correction_ledger.rs:139-172 | a window adds to a topic's never-pruned sum all it counted for that topic, times the factor for its age |
| `CorrectionLedger.TopicCountLaw` | crates/aivyx-channel/src/correction_ledger.rs:88-295 | the same law for corrections, against nets times half(now - at), with the tighter bound of 4/3 epsilon from a horizon of two half-lives |
| `CorrectionLedger.Ranked` | crates/aivyx-channel/src/correction_ledger.rs:196-236 | every topic once, highest decayed count first, equal counts by topic |
| `GraphWalk.BuildAdjacency` | crates/aivyx-channel/src/cooccurrence_ledger.rs:421-430 | the adjacency lists hold exactly the positive edges, in both directions |
| `GraphWalk.Relax` | crates/aivyx-channel/src/cooccurrence_ledger.rs:51-69 | a record is replaced, and queued, only by an arrival it does not already dominate |
| `GraphWalk.NextHop` | crates/aivyx-channel/src/cooccurrence_ledger.rs:449-475 | after a hop the records are sound, complete and closed for walks one edge longer |
| `GraphWalk.CompleteNext` | crates/aivyx-channel/src/cooccurrence_ledger.rs:449-475 | keeping only the best arrival at each topic loses no best arrival one edge further: the step that makes the walk exact |
| `GraphWalk.RecordsAreStrongest` | crates/aivyx-channel/src/cooccurrence_ledger.rs:404-492 | the records are exactly the strongest arrivals over all walks of at most `hops` edges, with the fewest edges that attain them |
| `GraphWalk.NeighborsWithin` | crates/aivyx-channel/src/cooccurrence_ledger.rs:404-492 | the result is the first `cap` of the topics whose best walk reaches `min_affinity`, each with that affinity and its shortest length, in order, under the decay asked for if it is in [0, 1], else 0 below and 1 above or when it is no number |
| `GraphWalk.AffinityMeaning` | crates/aivyx-channel/src/cooccurrence_ledger.rs:380-402 | the affinity of a walk is its weakest weight times the decay once for each edge after the first |
| `Siblings.OneHopIsWalkedSiblings` | crates/aivyx-channel/src/cooccurrence_ledger.rs:341-492 | at one hop, whatever the floor, the walk lists exactly the siblings that are positive and not the topic itself, in the same order |
| `Siblings.OneHopIsSiblingsIff` | crates/aivyx-channel/src/cooccurrence_ledger.rs:341-492 | so the capped lists are equal if and only if all the lookup lists is of that kind |
| `Siblings.ReadSiblings` | crates/aivyx-channel/src/cooccurrence_ledger.rs:341-372 | the lookup on the stored ledger: the ranked pairs that hold the topic and reach the floor, with scores and samples, the first `top_n` of them |
| `Siblings.ScoresSplit` | crates/aivyx-channel/src/cooccurrence_ledger.rs:341-372 | the lookup treats each ranked row by itself, in rank order |
| `Siblings.ScoresOfOne` | crates/aivyx-channel/src/cooccurrence_ledger.rs:341-372 | a row is listed exactly when its pair holds the topic and its decayed score reaches the floor: the other side, that score and its own samples |
| `Siblings.ReadNeighbors` | crates/aivyx-channel/src/cooccurrence_ledger.rs:404-492 | the walk on the stored ledger: the first `cap` strongest arrivals over its ranked pairs, under the decay asked for if it is in [0, 1], else 0 below and 1 above or when it is no number |
| `Siblings.OneHopReadsAgreeIff` | crates/aivyx-channel/src/cooccurrence_ledger.rs:341-492 | after every history and for every floor, the walk at one hop and the sibling lookup agree if and only if all the lookup returns is positive and none of it is the topic itself |
| `Siblings.OneHopReadsAgree` | crates/aivyx-channel/src/cooccurrence_ledger.rs:341-492 | with a positive floor and a seed never paired with itself, they always agree |
| `Siblings.RankingIsCanonical` | crates/aivyx-channel/src/cooccurrence_ledger.rs:261-306 | the ledger's own ranking, read as edges, meets what the two reads assume of it |
| `Siblings.HistoryIsPairKeyed` | crates/aivyx-channel/src/cooccurrence_ledger.rs:199-236 | no history ever stores a key that is not a pair's key |
| `CorrectionConsolidation.SelectFrom` | crates/aivyx-channel/src/correction_consolidation.rs:106-159 | the selector's loop with its early break and final sort returns the first 64 ranked topics, filtered and cut to the cap |
| `CorrectionConsolidation.NothingBelowFloor` | crates/aivyx-channel/src/correction_consolidation.rs:120-128 | stopping at the first count below the floor loses nothing |
| `CorrectionConsolidation.KeptSorted` | crates/aivyx-channel/src/correction_consolidation.rs:149-157 | what the loop keeps is already in the order the final sort asks for |
| `CorrectionConsolidation.KeptSplits` | crates/aivyx-channel/src/correction_consolidation.rs:106-159 | the rows are judged one by one, in the order of the ranking |
| `CorrectionConsolidation.KeptOfOne` | crates/aivyx-channel/src/correction_consolidation.rs:120-147 | a topic is kept exactly when its count and its samples reach their floors and its proposal id is new |
| `CorrectionConsolidation.SelectionIsFirstKept` | crates/aivyx-channel/src/correction_consolidation.rs:106-159 | the selection is the first of the kept topics among the 64 highest ranked, as many as the cap allows, and nothing when switched off |
| `CorrectionConsolidation.SelectCorrections` | crates/aivyx-channel/src/correction_consolidation.rs:106-159 | the whole selector, from the stored ledger and the log, is that selection of the ledger's ranking |
| `CorrectionConsolidation.Consolidate` | crates/aivyx-channel/src/correction_consolidation.rs:175-250 | files the phrased candidates whose append was acknowledged; `llm_unavailable` if and only if there was a candidate and every phrasing failed |
| `CorrectionConsolidation.FiledIff` | crates/aivyx-channel/src/correction_consolidation.rs:175-250 | a topic is filed if and only if it was phrased and its append was acknowledged |
| `CorrectionConsolidation.KnownIff` | crates/aivyx-channel/src/correction_consolidation.rs:175-250 | an id is known afterwards if and only if it was before or its topic was phrased and its append was not refused |
| `CorrectionConsolidation.PhrasedIff` | crates/aivyx-channel/src/correction_consolidation.rs:190-198 | a phrasing counts if and only if something is left of it once trimmed |
| `CorrectionConsolidation.ProposalIdInjective` | crates/aivyx-channel/src/correction_consolidation.rs:93-95 | two topics share a proposal id if and only if they are equal |
| `CorrectionConsolidation.ProposalIdText` | crates/aivyx-channel/src/correction_consolidation.rs:93-95 | the id is the text `correction:` and then the topic |
| `CorrectionConsolidation.FiledAtMostOnce` | crates/aivyx-channel/src/correction_consolidation.rs:106-250 | over any sequence of cycles, with failures and other writers, each topic is filed at most once |
| `ScopeUrl.GrantsIffComponentPrefix` | crates/aivyx-capability/src/lib.rs:900-991 | a held URL grants a needed one if and only if both parse, their origins agree and the pieces of its path between slashes, but for the empty one after a trailing slash, are a list prefix of the needed ones |
| `ScopeUrl.GrantsPreorder` | crates/aivyx-capability/src/lib.rs:900-991 | it is reflexive exactly on URLs that parse, and transitive |
| `ScopeUrl.TrailingSlashIsIgnored` | crates/aivyx-capability/src/lib.rs:914-927 | a path and the same path with one slash added grant alike and are granted alike |
| `ScopeUrl.RootGrantsOrigin` | crates/aivyx-capability/src/lib.rs:914-927 | a URL with the path `/` grants every URL of its origin and no other |
| `ScopeUrl.UrlRoundTrip` | crates/aivyx-capability/src/lib.rs:936-991 | a URL put together from scheme, host, port number, path and query or fragment parses into the scheme, the host in lower case, the port if it fits 16 bits, and the path, `/` if there is none |
| `ScopeUrl.UrlWithoutPort` | crates/aivyx-capability/src/lib.rs:936-991 | without a port, http means 80 and https 443, and any other scheme is refused |
| `ScopeUrl.ParsedParts` | crates/aivyx-capability/src/lib.rs:936-991 | for every authority, path and tail the path ends where the query or fragment begins; an empty scheme, an empty authority and user information are refused |
| `ScopeUrl.HostCaseIsIgnored` | crates/aivyx-capability/src/lib.rs:936-983 | authorities that differ only in letter case are the same origin (section 3.2.2 of RFC 3986) |
| `ScopeUrl.SameHostIff` | crates/aivyx-capability/src/lib.rs:936-991 | without ports, two hosts are one if and only if they differ in nothing but the case of ASCII letters |
| `ScopeUrl.DefaultPortIsImplied` | crates/aivyx-capability/src/lib.rs:936-991 | writing the scheme's default port changes nothing, if and only if the host, an IPv6 literal or not, has no port already and leaves no bracket open (section 6.2.3 of RFC 3986) |
| `Capability.FromScopesLaw` | crates/aivyx-capability/src/lib.rs:1022-1027 | the stored vector is strictly sorted and holds exactly the scopes given |
| `Capability.FromScopesIsCanonical` | crates/aivyx-capability/src/lib.rs:1022-1027 | two inputs are stored alike if and only if they have the same members, and storing again changes nothing |
| `Capability.Intersect` | crates/aivyx-capability/src/lib.rs:1038-1051 | the intersection holds, in stored form, exactly the scopes of either side that the other side grants |
| `Capability.IntersectionCommutes` | crates/aivyx-capability/src/lib.rs:1038-1051 | it is the same vector whichever side is asked |
| `Capability.CeilingLaw` | crates/aivyx-capability/src/lib.rs:769-791 | for every agent set, every ceiling of unqualified scopes and every glob matcher, the capped set grants a scope if and only if both grant it |
| `Capability.QualifiedCeilingLeaks` | crates/aivyx-capability/src/lib.rs:842-856 | with a qualified ceiling it can fail: a pattern is granted as plain text and then grants what the ceiling does not |
| `Capability.RedundantCeilingLeaks` | crates/aivyx-capability/src/lib.rs:1038-1051 | listing the base beside the pattern does not mend it: the capped set can grant what the agent does not have |
| `Capability.PlainMatch` | crates/aivyx-capability/src/lib.rs:829-856 | how two qualifiers without URL or path characters are compared: as allowlists if either has a comma, else by the glob |
| `Capability.BasesCompared` | crates/aivyx-capability/src/lib.rs:769-782 | a bare base grants itself and all its qualified forms; a qualified scope never grants its base; nothing grants across bases |
| `Capability.QualifiersCompared` | crates/aivyx-capability/src/lib.rs:783-856 | two qualifiers of a base are compared as URLs if the needed one contains `://`, else as globs if either has a slash, else item by trimmed item if either has a comma, else as globs |
| `Capability.PaddedItemIsListed` | crates/aivyx-capability/src/lib.rs:842-853 | white space around an item of a held list does not matter |
| `Ceilings.FaithfulIffSafe` | crates/aivyx-capability/src/lib.rs:769-856 | under any matcher that obeys the glob laws, a ceiling caps every agent exactly if and only if each of its scopes is unqualified, a path that matches only itself, a URL that nothing matches as a text, or a URL that does not parse beside its base or beside all it matches |
| `Ceilings.SafeIsExact` | crates/aivyx-capability/src/lib.rs:769-791 | for every agent and every such ceiling the capped set grants a scope if and only if both grant it, whatever the matcher |
| `Ceilings.SafeBySightIsFaithful` | crates/aivyx-capability/src/lib.rs:813-840 | a ceiling of unqualified scopes, paths without metacharacters and URLs whose scheme has none caps every agent exactly |
| `Ceilings.SlashlessIsUnfaithful` | crates/aivyx-capability/src/lib.rs:829-856 | a ceiling with any qualifier that has no slash does not: the qualifier's own repetition gets through to agents that lack it |
| `Ceilings.PathLeaks` | crates/aivyx-capability/src/lib.rs:829-856 | nor does one with a path pattern that matches another text, for an agent that holds the pattern as literal text |
| `Ceilings.UrlLeaks` | crates/aivyx-capability/src/lib.rs:900-1001 | nor one with a URL that matches a text, for an agent that holds the URL in a form that does not compile as a glob |
| `Ceilings.FaithfulEchoes` | crates/aivyx-capability/src/lib.rs:1038-1051 | in a faithful ceiling, what an unparseable URL matches is itself a scope, or capping loses it |
| `Globs.StarGlobIsLawful` | crates/aivyx-capability/src/lib.rs:993-1001 | the glob laws hold together: a matcher with stars, escapes and a leading doubled star obeys them all |
| `Ceilings.GlobLikeExists` | crates/aivyx-capability/src/lib.rs:993-1001 | so what the ceilings assume of the matcher can be met |
| `TrustTiers.FaithfulTiers` | crates/aivyx-capability/src/lib.rs:1123-1457 | so, under the linked matcher's laws, three of the four tiers cap agents faithfully and Untrusted does not |
| `TrustTiers.UntrustedLeaks` | crates/aivyx-capability/src/lib.rs:1449-1457 | the input: an agent with `memory.read:scope:public:*,x`, capped by the Untrusted ceiling, gets `memory.read:scope:public:a`, which it does not have |
| `TrustTiers.ListingsNest` | crates/aivyx-capability/src/lib.rs:1123-1457 | the ceilings nest from SemiTrusted up to Kernel |
| `TrustTiers.CeilingIsUnqualified` | crates/aivyx-capability/src/lib.rs:1123-1457 | from SemiTrusted up they list unqualified scopes only |
| `TrustTiers.CeilingGrants` | crates/aivyx-capability/src/lib.rs:1084-1091 | such a ceiling grants a scope if and only if it lists the scope's base |
| `TrustTiers.CappedGrants` | crates/aivyx-capability/src/lib.rs:1038-1051 | capping by such a tier is exact, and the Kernel ceiling changes no grant of a scope that parses |
| `TrustTiers.ReachedFromThereUp` | crates/aivyx-capability/src/lib.rs:1102-1114 | a scope whose least tier is SemiTrusted or above is granted by exactly the tiers from that one up |
| `TrustTiers.LeastTier` | crates/aivyx-capability/src/lib.rs:1102-1114 | the least tier of a scope is the one that grants it while no lower one does, and Kernel when none does |
| `TrustTiers.ParsesIff` | crates/aivyx-capability/src/lib.rs:717-750 | a scope parses if and only if its base is known and it does not ask for every target of a role switch or a notification |
| `TrustTiers.UntrustedDoesNotNest` | crates/aivyx-capability/src/lib.rs:1449-1457 | `audit.read:public` is granted at Untrusted and not at SemiTrusted |
| `Display.Neutralise` | crates/aivyx-capability/src/display.rs:81-94 | the loop writes each character's escape in turn |
| `Display.RestoreUndoesNeutralise` | crates/aivyx-capability/src/display.rs:78-94 | what is shown can be read back, for every string |
| `Display.NeutraliseInjective` | crates/aivyx-capability/src/display.rs:78-94 | two texts that show alike are the same text: a typed escape cannot pass for a real one |
| `Display.NothingDisguised` | crates/aivyx-capability/src/display.rs:53-94 | no disguising character, line break or tab survives |
| `Display.NeutralisedSnoc` | crates/aivyx-capability/src/display.rs:81-94 | each further character adds its escape: a backslash and a letter, or the code point in at least four hexadecimal digits |
| `Display.PlainTextIsUnchanged` | crates/aivyx-capability/src/display.rs:81-94 | text without special characters is shown as it is |
| `Display.ClipLaw` | crates/aivyx-capability/src/display.rs:96-105 | read back, a clipped value is the first `max` characters, and shown plus hidden is the whole |
| `Display.HiddenNote` | crates/aivyx-capability/src/display.rs:107-118 | the left-to-right loop groups the digits in thousands from the right |
| `Display.NoteIsTrue` | crates/aivyx-capability/src/display.rs:107-118 | read back, the note says the number that is hidden |
| `Display.DescribeArgs` | crates/aivyx-capability/src/display.rs:151-193 | for an object: one line per argument, in the order of shown size and then key, each two spaces, the key, a colon and the value, which reads back as the whole text or its first `per_value` characters, with the true count of what is hidden; for any other value the same of its one text |
| `ConversationWindows.ConversationWindow.Push` | crates/aivyx-channel/src/conversation_window.rs:90-95 | the ring is the last `max_turns` of what it held and the new turn |
| `ConversationWindows.ConversationWindow.Assemble` | crates/aivyx-channel/src/conversation_window.rs:120-166 | the text is the longest fitting suffix of the turns asked for, then `current` |
| `ConversationWindows.AssembledLaw` | crates/aivyx-channel/src/conversation_window.rs:113-166 | it ends with `current` uncut, and is within the budget, in bytes and so in characters, unless it is `current` alone |
| `ConversationWindows.AssembledUnique` | crates/aivyx-channel/src/conversation_window.rs:113-166 | and is determined by what was asked for |
| `ConversationWindows.RenderedSnoc` | crates/aivyx-channel/src/conversation_window.rs:143-151 | turns are written a line each, with `user: ` or `assistant: ` before the text |
| `ConversationWindows.CurrentIsNextTurn` | crates/aivyx-channel/src/conversation_window.rs:120-166 | with turns before it, `current` is written and measured as the user's next turn |
| `ConversationWindows.KeepsLikeCharactersIff` | crates/aivyx-channel/src/conversation_window.rs:60-63 | the run of turns kept is the one a budget in characters would keep, if and only if that run is empty or also fits in bytes; otherwise it is shorter |
| `ConversationWindows.AccentIsDropped` | crates/aivyx-channel/src/conversation_window.rs:60-63 | a turn of one accented letter that fits the budget in characters and is dropped |
| `ConversationWindows.Utf8SizeIsLeast` | crates/aivyx-channel/src/conversation_window.rs:152-153 | the bytes of a character are the fewest of one to four whose free bits hold its number (section 3 of RFC 3629) |
| `ConversationWindows.SharedWindows.RecordTurn` | crates/aivyx-channel/src/conversation_window.rs:192-213 | each session's window is the last 16 of all the turns it ever recorded, and an exchange touches no other session |
| `ConversationWindows.ExchangeInOrder` | crates/aivyx-channel/src/conversation_window.rs:192-213 | an exchange is the user's turn and then the assistant's, an empty side left out |
| `ConversationWindows.SharedWindows.PriorTurns` | crates/aivyx-channel/src/conversation_window.rs:267-301 | the seed is the longest suffix of the latest turns asked for that fits 4000 characters, oldest first |
| `ConversationWindows.LongestFittingUnique` | crates/aivyx-channel/src/conversation_window.rs:267-301 | a longest fitting suffix is unique, so dropping from the old end and growing from the new end agree |
| `Briefing.PageBack` | crates/aivyx-channel/src/briefing.rs:538-559 | paging back returns exactly the entries at or after `since`, in order, or the error of a failed read |
| `Briefing.CollectFacts` | crates/aivyx-channel/src/briefing.rs:461-517 | the accumulating loop yields the contributions of the entries, in order |
| `Briefing.FactsOfEntry` | crates/aivyx-channel/src/briefing.rs:461-517 | what one entry contributes: a completed call that is no read and changed something, a memory written and a notification sent or failed if in the window, the cost of a model call if in the last day |
| `Briefing.FactsSplit` | crates/aivyx-channel/src/briefing.rs:461-517 | the facts of a chain read in two parts are the facts of the parts put together |
| `Briefing.SinceIsEnough` | crates/aivyx-channel/src/briefing.rs:461-517 | entries before the window and the last day add nothing |
| `Briefing.WalkChain` | crates/aivyx-channel/src/briefing.rs:673-683 | the paged walk yields the facts of the whole chain |
| `Briefing.AuditFactsCache.GetOrCompute` | crates/aivyx-channel/src/briefing.rs:426-441 | the cell is served on an equal key, replaced on a successful walk, and kept on a failed one |
| `Briefing.EveryAnswerIsTrue` | crates/aivyx-channel/src/briefing.rs:411-441 | over any interleaving of appends and polls, every answer is the fold of the whole chain at a length not below the one the poll's key saw |
| `Briefing.PollKey` | crates/aivyx-channel/src/briefing.rs:411-414 | a poll asks, to the minute, for what is new since the last visit, or the last day, and never for more than a week |
| `ApprovalDesks.ApprovalDesk.ResolveOne` | crates/aivyx-channel/src/approval_desk.rs:87-92 | an open prompt is answered and closed; any other id changes nothing |
| `ApprovalDesks.ApprovalDesk.DenyEach` | crates/aivyx-channel/src/approval_desk.rs:95-101 | every open prompt is answered no and closed, and no other answer changes |
| `ApprovalDesks.ApprovedWasResolved` | crates/aivyx-channel/src/approval_desk.rs:47-92 | in every interleaving, Approved comes only from a yes that took the entry while it was open |
| `ApprovalDesks.UndisturbedIsApprovedIff` | crates/aivyx-channel/src/approval_desk.rs:47-92 | without timeout, cancel or failed send an ask returns Approved if and only if its open prompt was resolved with yes |
| `ApprovalDesks.ReturnedSaysHow` | crates/aivyx-channel/src/approval_desk.rs:62-84 | in every interleaving, TimedOut is returned if and only if the timeout fired, a cancel or failed send returns Denied, and any other Denied was answered with no |
| `ApprovalDesks.AnsweredOnce` | crates/aivyx-channel/src/approval_desk.rs:87-101 | each prompt is answered at most once |
| `ApprovalDesks.ReturnedIsClosed` | crates/aivyx-channel/src/approval_desk.rs:80-92 | once an ask has returned, its id is out of the map and a late resolve changes nothing |
| `TeamChat.TeamChat.CheckAndRecordTrigger` | crates/aivyx-channel/src/team_trigger_state.rs:86-95 | prunes what is an hour old, admits below the limit, and records only what it admits |
| `TeamChat.TeamChat.HandleTeamCommand` | crates/aivyx-channel/src/channel_team_chain.rs:21-86 | the precedence chain of one message: its outcome and what stays pending |
| `TeamChat.StartsAreConfirmed` | crates/aivyx-channel/src/channel_team_chain.rs:32-85 | a mission starts only on a yes, less than 300 seconds after it, from the sender of the pending request, with its goal; that request was admitted, is the latest, and was not started, refused or found expired since |
| `TeamChat.StartsWithinRequests` | crates/aivyx-channel/src/channel_team_chain.rs:32-85 | starts, and the one request that may be pending, never exceed admitted requests |
| `TeamChat.HourlyLimit` | crates/aivyx-channel/src/team_trigger_state.rs:80-95 | in every run, no hour holds more admitted requests than the limit |
| `TeamChat.RefusedIffHourIsFull` | crates/aivyx-channel/src/team_trigger_state.rs:80-95 | and the limit refuses no more than that: after every run a request is turned away if and only if the limit is zero or the request admitted that many places back is less than an hour old |
| `TeamChat.OthersLeaveIt` | crates/aivyx-channel/src/channel_team_chain.rs:32-60 | another sender's reply, or a message that is no reply and no request, leaves the pending request as it is until its five minutes are over |
| `TeamChat.OwnReplySettlesIt` | crates/aivyx-channel/src/channel_team_chain.rs:32-60 | its own sender's no always cancels it, and a yes starts it in time and finds it expired later |
| `TeamChat.TurnedAwayUncounted` | crates/aivyx-channel/src/channel_team_chain.rs:32-66 | a command from someone not allowed changes nothing, and a request on a closed channel does not count |
| `OperatorActivity.LastHereIsLatestVisitEnd` | crates/aivyx-channel/src/activity.rs:35-50 | "last here" is the latest action of the whole history that more than a visit gap of quiet followed, none if there is none |
| `OperatorActivity.LastHereAfterMore` | crates/aivyx-channel/src/activity.rs:35-50 | after further actions "last here" is the latest visit they ended, or else what the clock read when first asked |
| `OperatorActivity.ActivityClock.Touch` | crates/aivyx-channel/src/activity.rs:89-111 | the second half of the state stays what is stored; a touch with the same anchor and less than 60 s after the stored action writes nothing, every other one writes the current state unless the write is refused |
| `OperatorActivity.StoredIsAPast` | crates/aivyx-channel/src/activity.rs:60-111 | after any touches with any write outcomes, what is stored is the state after some first part of them, and is not worth writing again unless the last due write was refused |
| `OperatorActivity.RestartLosesAMinuteIff` | crates/aivyx-channel/src/activity.rs:22-24 | over every history, restart point and further actions, "last here" is a minute off at most if and only if a visit has ended since, or the stored and the true last action lay on the same side of the visit gap when that was first asked |
| `OperatorActivity.RestartAfterTouches` | crates/aivyx-channel/src/activity.rs:22-111 | the same law for a restart after any touches of the clock whose last due write was not refused |
| `OperatorActivity.RestartCanLoseHours` | crates/aivyx-channel/src/activity.rs:22-24 | a concrete history where a restart moves "last here" by hours, and the next action keeps it there |

## Left out

- Capability.CeilingLaw: ceilings that hold qualified scopes, for which the law can be false; `Ceilings.FaithfulIffSafe` is the exact condition.
- Ceilings.FaithfulIffSafe: of the linked matcher it uses the laws of `Globs.Lawful`, which are read off the documented syntax of globset 0.4 where the separator is `/`, and that a star is no white space; which texts a given pattern matches is left to the matcher.
- AuditSafety.CrashSafety: one appender at a time, because `append` chains and sends without holding a lock across both; concurrent appenders can enqueue out of chain order.
- AuditSafety.StepKeeps: a write of an old session that lands after the store has been reopened, and an error handler that does not return.
- HmacChain.HeadDeterminesLog: HMAC (section 2 of RFC 2104) and canonical bytes (section 3.2 of RFC 8785) are any functions; how unlikely the named coincidences are is not modelled.
- HmacChain.HmacChainLog.EntriesRange: overflow of `start + limit` in the machine's word size.
- HmacChain.AuditEvent: the event kinds carry only the fields the briefing reads; the others are one opaque kind, and lock poisoning is not modelled.
- AuditStore.Open: the storage engine, encryption and JSON; a table is a map from keys to bytes, and read errors of the scan are not modelled.
- DecayingLedger.ReadingIsCloseToSum: rounding of 32-bit floats, and clocks that run backwards.
- DecayingLedger.PersistentLedger.FoldOne: storage and decoding errors of the ledgers.
- GraphWalk.NeighborsWithin: float rounding; a decay that is not finite is an absent one.
- CorrectionConsolidation.Consolidate: the language model's text and the proposal's wording; a phrasing is an optional string.
- Display.DescribeArgs: the JSON text of a value that is neither a string nor an array of strings, which is a parameter, and the Unicode tables behind `is_disguise`.
- Briefing.PageBack: needs entry times that never run backwards; a poisoned lock is a failed read.
- ApprovalDesks.ApprovedWasResolved: request ids are taken to be fresh, and writing the frame is one step that succeeds or fails.
- TeamChat.TeamChat.HandleTeamCommand: how a text reads as a command or a reply is part of the message, whether the daemon then managed to start the mission is not part of the outcome, and the count of admissions is not cut to 32 bits.
- OperatorActivity.ActivityClock.Touch: touches one after another; a write that fails leaves the store as it was.
- `top_affinities`, `accumulated`, `recipients`, `verify_from_disk`, `assemble_for` and the other read-only variants: they would only add easy members.
- `BudgetEnforcer`, the persona proposal log behind `correction_consolidation`, composing the briefing's sentences, and the daemon's I/O: not part of this model.
