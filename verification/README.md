# A DNS sinkhole's data structures and protocols, proved

The firmware answers DNS queries for a network, sinkholing listed names and forwarding the
rest. This project models the parts of it that are arithmetic, buffers and state machines,
in Dafny 4.11, and proves what they are for. `dafny verify dfyconfig.toml` checks everything.

The files follow the program:

- **The block table.** `Records`, `RadixSort`, `BlTable`, `BlImage`, `Exceptions`: one staging
  array with a sorted prefix, a raw chunk and scratch space in the same buffer. Sorting,
  deduplicating, the in-place fold and the compiled image all stand for one finite set of
  40-bit numbers.
- **Loading.** `Lines` splits a stream into lines, `Rules` parses a line, `BlLoad` stages and
  folds, `Flash` keeps two slots across a power cut. `Pipeline` is a whole reload, from feeds to
  tables, and `FeedToVerdict` goes from the bytes received to the verdict on a name.
- **The verdict.** `BlRank` is the pruned suffix walk against the exhaustive search it
  replaces; `Verdict` is its four sources and two entry points.
- **Names and packets.** `Domain`, `Wire`, `CaseScrub`, `ReplyScrub`, `Ttl`, `Replies`, `L2Reply`:
  the name walkers, the query printer, and the passes that rewrite a packet in place.
- **The forward cache.** `Cache` is the set-associative array, `CacheMap` proves that it
  refines a map, `Seqlock` adds the reader on the other core, field by field and byte by byte.
- **The DNS task.** `Upstream` is the table of flights. `Server` is the step machine: client
  queries over UDP and TCP, upstream replies, evictions, TCP connections, and configuration
  changes in between. `DnsTask` is the object the program keeps, each method proved equal to
  its step. `Generations`, `Delivery` and `Answers` prove what every run keeps: fresh verdicts,
  at most one answer a query, and each about its own question.
- **The two verdict paths.** `TwoPaths` proves that the L2 hook and the socket path agree, and
  `Interleaved` that they do so whatever the writer is doing while the hook reads the cache;
  `L2Hook` is the hook as the program runs it; `Splits` shows two moments at which they differ.

How things are modelled:

- Code that changes buffers is methods over arrays or objects, each proved against a function
  of the old contents; the theorems are about those functions.
- Hashes are functions nothing is known about. Where a result needs two names to be told
  apart, the hypothesis is that no reply in the run names a name that collides with the asked
  one in both the public and the secret hash (`Generations.NoCollision`,
  and for the clients of one flight `Answers.NoMixup`). The generation and delivery theorems do
  not need it.
- Atomics are sequentially consistent steps; a section under a mutex is one step. Counters
  and times do not wrap, except where the code computes in 32 bits (`Upstream.Age`).
- `auth` (which configuration a verdict was taken under), `rid`, `asked` and a requester's `qtype`
  (which query this is) are history: the program does not have them and no step reads them to decide anything.
- A configuration version stands for everything the verdict depends on; a change makes a new
  version at once and its bump comes later, possibly one bump for several changes.

Where the code does less than its documentation says, or something a reader may not expect:

- `bl_image_valid` reads only the index, so a flash write cut after the index is accepted
  with erased bytes behind it (`Flash.CutAfterSentinelIsAccepted`).
- Folding the case of a reply can move a byte pair inside a label that reads as a compression
  pointer, and with it a name that points there (`ReplyScrub.PointerInLabelIsMoved`; exactly
  when, in `ReplyScrub.PointersSurviveExactly`).
- Line splitting depends on the chunking for lines longer than the carry buffer; `Lines`
  says exactly for which.
- `rewrite_lookup` measures with `strlen`, its non-blocking twin by length, so the two paths
  differ on some names with a zero byte (`Splits.ZeroByteSplitsHere`; exactly which, in
  `TwoPaths.PathsAgreeExactly`).
- A busy bypass lock reads as "not bypassed" in the hook, so it can sinkhole a bypassed client
  that the socket path would forward for (`Splits.BusyBypassSplitsHere`).
- The header of `rule_parse_next` says a rejected rule is always the only one of its line;
  on hosts lines the code goes on to the next token after a rejected one, and so does `Rules`.

## Model

| member | source | states |
|---|---|---|
| Records.RecPutRoundTrip | main/bl_table.c:35-48 | a record read back from its five big-endian bytes is the number put |
| Records.RecGetRoundTrip | main/bl_table.c:35-48 | any five bytes are the put of the number read from them, so the two are inverse both ways |
| Records.MemcmpIsNumericOrder | main/bl_table.c:78-81 | comparing five stored bytes orders records exactly as their numbers |
| Records.AscendingIsUnique | main/bl_table.c:57-101 | an ascending arrangement of a multiset of records is unique, so any two correct sorts agree |
| Records.StrictIsUnique | main/bl_table.c:57-101 | a strictly ascending sequence is determined by its set of records |
| RadixSort.CountingPass | main/bl_table.c:57-76 | one counting pass over one byte leaves, in the other buffer, exactly the stable distribution by that byte |
| RadixSort.PassPermutes | main/bl_table.c:57-76 | a pass loses and repeats nothing |
| RadixSort.PassOrders | main/bl_table.c:57-76 | a pass orders by its byte and keeps the order of the passes before it: the stability the algorithm rests on |
| RadixSort.FivePassesSort | main/bl_table.c:57-76 | five passes from the last byte to the first give the ascending arrangement of the input |
| RadixSort.SortRecords | main/bl_table.c:57-76 | bl_sort_records: sorted, and landing in the scratch buffer exactly when there are two records or more |
| BlTable.DedupRecords | main/bl_table.c:90-101 | in-place dedup of an ascending run: a strict run of the same set |
| BlTable.SortDedup | main/bl_table.c:151-162 | sorts with a tail of the same buffer as scratch where it fits, else in place; the result back at the base, strict, the same set |
| BlTable.RecordsFind | main/bl_table.c:128-142 | binary search: an index holding the record, or -1 exactly when it is absent |
| BlTable.SortChunk | main/bl_table.c:178-190 | the chunk behind the prefix sorted and deduplicated without touching the prefix |
| BlTable.MergeBackward | main/bl_table.c:200-217 | the backward merge in one buffer: never overwrites an unread record, and yields the ascending merge |
| BlTable.MergeViaFarEnd | main/bl_table.c:191-217 | the chunk moved to the far end of the same buffer and merged back into place |
| BlTable.FoldSortedChunk | main/bl_table.c:178-217 | the whole fold, every branch: ascending, exactly the union of prefix and chunk, within capacity; strict when the chunk repeats nothing of the prefix |
| BlTable.FreshMergeIsStrict | main/bl_table.c:178-217 | a chunk disjoint from a strict prefix merges into a strict run of the union |
| BlImage.BuildImage | main/bl_table.c:220-241 | the index and remainders written encode the sorted records |
| BlImage.IndexCountsLowerBuckets | main/bl_table.c:220-241 | index entry b is the number of records in buckets below b |
| BlImage.ImageValid | main/bl_table.c:271-278 | accepts an index exactly when it starts at 0, never decreases and ends at the count |
| BlImage.BuiltIndexIsValid | main/bl_table.c:220-278 | every built image is accepted |
| BlImage.ImageContains | main/bl_table.c:248-269 | the bucket search finds a hash exactly when it is among the encoded records |
| BlImage.WalkRecovers | main/blocklist.c:709-722 | walking the buckets of an image gives back the records it was built from |
| BlImage.DiffAgainstSnapshot | main/blocklist.c:709-722 | the reload diff decodes the live image exactly, and its common count is the size of the intersection |
| BlImage.ImageDeterminesRecords | main/bl_table.c:220-241 | two record sets with the same image are the same |
| Exceptions.DedupExceptions | main/bl_table.c:104-126 | equal records merged in place, important by or, exact by and |
| Exceptions.SortedDistinctIsTable | main/blocklist.c:914-924 | sorting and deduplicating the collected exceptions gives their table: one entry a hash, merged flags |
| Exceptions.TableAnswers | main/blocklist.c:1132-1144 | looked up, the table excepts a hash exactly where some rule for it applies at that depth, with rank 3 exactly where some rule for it is important |
| Exceptions.TableIsOrderIndependent | main/blocklist.c:520-555 | the table does not depend on the order the rules arrived in |
| BlLoad.Loader.TakeBlock | main/blocklist.c:545-572 | one block rule: skipped if the prefix has it, dropped only if the buffer is full, else appended; each counted, nothing else touched |
| BlLoad.Loader.OnDomainLine | main/blocklist.c:478-572 | a line adds exactly its block hashes and its exceptions |
| BlLoad.Loader.FoldTail | main/blocklist.c:855-870 | folding keeps the staged set and makes the whole run the strict prefix |
| BlLoad.Loader.FetchExtras | main/blocklist.c:803-885 | after every extra feed the prefix is strict, the tail repeats nothing of it, and the staged set is that of the feeds read so far; failures count the refused, the broken and those a stop leaves unread |
| BlLoad.Loader.Load | main/blocklist.c:785-945 | with nothing dropped, the records to publish are strictly ascending and exactly the union of the feeds fetched; with drops, a subset; nothing is dropped while everything offered fits |
| BlLoad.Loader.FinishExceptions | main/blocklist.c:905-933 | the exception table published is that of the exceptions collected, and its rank bound is right |
| BlLoad.Loader.HighestRank | main/blocklist.c:924-932 | the bound of the exception table: 3 with an important entry, else 1, 0 for none |
| BlLoad.ReloadIsOrderIndependent | main/blocklist.c:785-964 | reloads that read the same rules in any order of lines and feeds publish the same set |
| Pipeline.Reload | main/blocklist.c:772-964 | feeds to live snapshot: the old list is kept exactly where the primary failed or stores nothing; the image encodes the union of the feeds wherever they fit, the exception table is that of the rules read wherever they fit it, and its bound holds |
| Pipeline.FeedBlockProbe | main/blocklist.c:1118-1128 | the probe on the live image answers membership of the published set |
| Pipeline.BlockedExactlyWhenListed | main/blocklist.c:1185-1212 | with feeds alone a name is blocked if and only if some rule of some feed read lists one of its suffixes, bare TLDs excepted |
| FeedToVerdict.ParseLine | main/blocklist.c:490-498 | the rules of one line are exactly those of the rule grammar, in order |
| FeedToVerdict.Receive | main/http_fetch.c:192-294 | a download, in any chunks, failed or stopped anywhere: the rules of exactly the lines before the end or the stop, and whether the feed counts as received |
| FeedToVerdict.TablesSayWhatWasRead | main/blocklist.c:1115-1212 | the verdict by the published tables is, for every name, the one the rules on the lines received call for: the highest rank any rule, exception, whitelist entry or custom rule gives one of its suffixes, an even rank blocking |
| FeedToVerdict.LoadAndJudge | main/blocklist.c:763-1212 | end to end: downloads received, loaded and published, the custom text parsed, a name judged; the tables are consistent with the bounds the resolver prunes by, and where what was read fits them the verdict is the one the bytes received call for |
| Lines.Splitter.OnData | main/http_fetch.c:136-190 | one received chunk, any length: carry, dispatch and truncation at 256 bytes as the buffer does them, up to the line at which the callback asks to stop |
| Lines.Splitter.Flush | main/http_fetch.c:288-292 | the unterminated last line is dispatched at the end, unless the callback asked to stop |
| Lines.FetchLines | main/http_fetch.c:192-294 | a whole fetch: the callback hears the lines of what arrived up to the one it stops at, the last one only after a good transfer; good exactly if neither failed nor stopped |
| Lines.ChunkingDoesNotMatter | main/http_fetch.c:65-190 | where every line is robust, every split of the stream into chunks dispatches the same lines |
| Lines.RobustIsExact | main/http_fetch.c:65-190 | a line is dispatched alike whole and cut to the carry buffer if and only if nothing but blanks and carriage returns is lost past byte 255, or the line is skipped anyway |
| Lines.ChunkIndependenceIsExact | main/http_fetch.c:65-190 | independence of the chunking holds if and only if every line is robust; an over-long line whose kept part differs breaks it |
| Flash.ProgramSlot | main/blocklist.c:1655-1700 | erase then ascending writes, cut after any number of bytes |
| Flash.SaveFlash | main/blocklist.c:1613-1706 | a save touches only the slot a load would not pick, and no slot for an empty snapshot or one too large |
| Flash.CutKeepsPreviousSnapshot | main/blocklist.c:1575-1706 | power lost at any byte before the index sentinel is complete: the next load returns what the last one would have |
| Flash.FinishedSaveLoads | main/blocklist.c:1501-1706 | a finished save is what the next load returns; its sequence number exceeds both; both slots are sound again |
| Flash.CutAfterSentinelIsAccepted | main/blocklist.c:1501-1520 | past the sentinel the cut slot is accepted with whatever lies behind the index: exactly where the guarantee ends |
| Flash.CutSlotIsWholeExactly | main/blocklist.c:1501-1706 | and it then loads as the finished snapshot if and only if every byte not written yet would have been 0xFF |
| Rules.RuleParseNext | main/domain.c:296-391 | every branch of the rule grammar, against the grammar written as functions of the line |
| Rules.FinishToken | main/domain.c:246-268 | the domain a token stands for, or the first reason it is refused |
| Rules.ParseModifiers | main/domain.c:210-228 | of all modifier lists exactly the single word is accepted |
| Rules.LineYieldsPlainRules | main/domain.h:94-113 | every accepted token is a plain domain; only hosts lines yield more than one rule, and those carry no flag |
| Rules.PrintedRuleReadsBack | main/domain.c:296-391 | a rule printed in canonical form parses back to exactly itself, for every kind, flag and plain domain |
| Rules.PrintedBlockIsLoaded | main/domain.c:394-409 | a printed block rule in a feed contributes exactly its own hash, unless important or a bare TLD |
| Rules.CustomValidate | main/blocklist.c:293-311 | counts the rules, or refuses |
| Rules.CustomParse | main/blocklist.c:244-280 | stores the rules that fit, at most 256, with the highest rank among them |
| Rules.ValidatedExactlyWhenLossless | main/blocklist.c:244-311 | the dry run accepts a text if and only if the parse stores every rule of it, in order |
| BlRank.Resolve | main/bl_rank.c:9-53 | the pruned walk returns what the exhaustive one does, for names up to 255 bytes, where the 8-bit depth cannot wrap |
| BlRank.ExhaustIsFirstMaximum | main/bl_rank.c:9-53 | the exhaustive result is the maximum rank over all suffixes and sources, at the first depth and source to attain it |
| BlRank.CannotImprove | main/bl_rank.c:20-45 | once the best possible rank is reached nothing further can change the result |
| Verdict.ProbesKeepBounds | main/blocklist.c:1101-1180 | none of the four probes answers above the bound it is registered with |
| Verdict.FeedExcProbe | main/blocklist.c:1128-1142 | the exception lookup over the sorted table |
| Verdict.CustomProbe | main/blocklist.c:1157-1180 | the best applicable rank among the custom rules |
| Verdict.BlocklistVerdict | main/blocklist.c:1185-1212 | the socket verdict: the exhaustive judgement, or open and marked unproven |
| Verdict.BlocklistVerdictNb | main/blocklist.c:1221-1250 | the hook verdict: the same judgement, or a defer |
| Verdict.VerdictIsHighest | main/blocklist.c:1115-1212 | with all four sources in force, the verdict is the highest rank any of them gives a suffix that is no bare TLD; an even rank blocks, an odd one allows, and nothing given is no match |
| Verdict.WhitelistOutranksFeeds | main/blocklist.c:1144-1155 | a whitelisted suffix outranks every feed block |
| Verdict.FeedsAloneBlockBySuffix | main/blocklist.c:1101-1125 | with feeds alone a name is blocked exactly when a listed suffix is no bare TLD |
| Domain.DomainNormalize | main/domain.c:13-28 | writes the lower-cased name without trailing dots, or reports 0 |
| Domain.NormalizeIsIdempotent | main/domain.c:13-28 | normalizing twice is normalizing once |
| Domain.ExtractQname | main/domain.c:30-60 | the normalized question name and the offset behind it, or malformed |
| Domain.QnameWireLen | main/domain.c:62-79 | the same walk, measuring |
| Domain.WireLenAgreesWithQuestion | main/domain.c:62-79 | the measure is the extractor offset difference less four, and never above 257 |
| Domain.QnameWireEq | main/domain.c:81-94 | equality of wire names up to ASCII case |
| Wire.DnsSkipName | main/dns_wire.c:9-26 | the offset past a name, without following pointers |
| Wire.DnsDecompressName | main/dns_wire.c:110-143 | the decompressed name and offset; halts on cyclic pointers and stays inside the packet |
| Wire.DecompressAdvancesLikeSkip | main/dns_wire.c:9-143 | a decompressed name ends exactly where skipping it ends |
| Wire.QuestionIsPlainDecompress | main/dns_wire.c:110-143 | the question parser is the decompressor on names without a pointer: same acceptance, name and offset |
| Wire.EncodeName | tools/dnsload/dnsload.c:84-99 | label encoding of a dotted name, or refusal |
| Wire.BuildQuery | tools/dnsload/dnsload.c:101-112 | the query packet for a name |
| Wire.QuestionRoundTrip | tools/dnsload/dnsload.c:84-112 | parsing a built query gives the normalized name, for every name the encoder accepts |
| Wire.AcceptedNamesRoundTrip | tools/dnsload/dnsload.c:84-112 | for non-empty names up to 255 bytes the parse always succeeds |
| CaseScrub.RandomizeQnameCase | main/dns_server.cpp:800-810 | flips the letters of the question name as the coins say |
| CaseScrub.NormalizeQnameCase | main/dns_server.cpp:822-829 | lower-cases the letters of the question name |
| CaseScrub.QuestionIgnoresCase | main/dns_server.cpp:788-829 | two packets equal up to letter case ask the same question |
| CaseScrub.RandomizedQueryAsksTheSame | main/dns_server.cpp:800-810 | whatever the coins, the question is unchanged and so is every byte outside it |
| CaseScrub.NormalizeErasesTheCoins | main/dns_server.cpp:822-829 | folding erases the coins |
| CaseScrub.NormalizeAnswerOwnerNames | main/dns_server.cpp:1198-1230 | the owner-name scrub over the three sections, stopping where the packet stops parsing |
| CaseScrub.ScrubStaysInOwnerLabels | main/dns_server.cpp:1198-1230 | on any packet only letters inside owner labels change |
| CaseScrub.ScrubKeepsRecords | main/dns_server.cpp:1198-1230 | on any packet every record keeps offset, type, class, TTL and RDATA |
| CaseScrub.ScrubKeepsNames | main/dns_server.cpp:1198-1230 | a name whose pointers lie outside owner labels decompresses to the same name |
| CaseScrub.ScrubKeepsPointersExactly | main/dns_server.cpp:1198-1230 | the owner scrub keeps the target of every byte pair that reads as a pointer if and only if no owner label it reaches has an upper-case letter behind a byte of 192 or more |
| ReplyScrub.QuestionByLabel | main/dns_server.cpp:822-829 | the flat scan of the question name lowers exactly what a walk label by label would |
| ReplyScrub.ScrubStaysInNames | main/dns_server.cpp:1440-1442 | both passes together, on any reply: only letters inside question and owner labels change, and the question asked is the same |
| ReplyScrub.ScrubKeepsEveryRecord | main/dns_server.cpp:1440-1442 | both passes, on any reply: every record keeps offset, type, class, TTL and RDATA, and the counts stand |
| ReplyScrub.ScrubKeepsName | main/dns_server.cpp:1440-1442 | a name whose pointers lie outside question and owner labels decompresses to the same name |
| ReplyScrub.NamesOnLabelStartsSurvive | main/dns_server.cpp:1185-1230 | where pointers land on label starts, every name of the reply does: in the question, in owners and in RDATA |
| ReplyScrub.PointersSurviveExactly | main/dns_server.cpp:1440-1442 | both passes keep every pointer's target if and only if no label folded has an upper-case letter behind a byte of 192 or more; the labels folded are question and owner labels |
| ReplyScrub.EveryNameSurvives | main/dns_server.cpp:1440-1442 | and then every name survives, at every offset, wherever its pointers land |
| ReplyScrub.PointerInLabelIsMoved | main/dns_server.cpp:1440-1442 | a well-formed reply of two records whose second owner name the scrub destroys |
| Ttl.DnsRespMinTtl | main/dns_wire.c:28-83 | how long a reply may be cached |
| Ttl.CachedForLeastGranted | main/dns_wire.c:28-88 | the default exactly where no record grants a time; else the least time granted, which some record grants, inside the bounds |
| Ttl.CachedNoLongerThanAnyAnswer | main/dns_wire.c:28-88 | with a TTL among the answers, never beyond the TTL of any answer, the floor excepted, and inside the bounds |
| Ttl.NegativeTtl | main/dns_wire.c:55-88 | without answers, as long as the SOA says: the lesser of its own TTL and its MINIMUM, inside the bounds |
| Ttl.DnsRewriteAnswerTtls | main/dns_wire.c:85-108 | overwrites the TTLs in place |
| Ttl.RewriteChangesOnlyTtls | main/dns_wire.c:85-108 | every record keeps all but its TTL, which becomes the given one |
| Replies.FlagsEchoTheQuery | main/dns_server.h:21-28 | response, authoritative, not truncated, recursion available; opcode and RD echoed |
| Replies.BuildBlockedAny | main/dns_server.cpp:1006-1066 | the blocked reply by type, or none where it does not fit |
| Replies.BuildRewriteA | main/dns_server.cpp:1070-1092 | the rewritten A reply |
| Replies.BuildBlockedFrame | main/dns_sink.cpp:1868-1893 | the blocked reply the hook builds in place is byte for byte that of the socket path |
| Replies.AnswerSaysWhatItMeans | main/dns_server.cpp:1006-1092 | a built answer repeats the question and holds one record owned by its name |
| Replies.BlockedSaysNowhere | main/dns_server.cpp:1006-1066 | every blocked reply: the question kept, and an address of zeros for ten seconds, or NXDOMAIN |
| L2Reply.ComplementMakesAllOnes | main/dns_sink.cpp:1707-1711 | the complement of a folded sum completes it to all ones |
| L2Reply.FinishReply | main/dns_sink.cpp:1693-1712 | addresses and ports exchanged, lengths set, checksum valid, payload untouched |
| L2Reply.TurnedTwiceRestores | main/dns_sink.cpp:1693-1700 | turning around twice restores the addresses |
| Cache.TypesLiveApart | main/dns_server.cpp:242-247 | types that share a set agree in their low eight bits, so A and AAAA never share one |
| Cache.ForwardCache.Lookup | main/dns_server.cpp:258-270 | the first fresh way of the key under the generation |
| Cache.ForwardCache.LookupStale | main/dns_server.cpp:342-358 | the first way of the key inside the stale window |
| Cache.ForwardCache.CacheVictim | main/dns_server.cpp:281-301 | own way first, else the way whose usefulness ends soonest; the eviction counter |
| Cache.ForwardCache.StoreBlockedName | main/dns_server.cpp:306-319 | the whole new array after a blocked store |
| Cache.ForwardCache.StoreResp | main/dns_server.cpp:320-337 | the whole new array after a reply store, with its refusals |
| CacheMap.RunRefines | main/dns_server.cpp:248-337 | over every run of stores: own set, no twin, and each way holds the last value stored under its key |
| CacheMap.FindIsGlobal | main/dns_server.cpp:248-270 | scanning one set finds an entry exactly where scanning the whole cache would |
| CacheMap.HitIsLastStored | main/dns_server.cpp:258-270 | a fresh hit is the last value stored for that exact name, never that of a colliding one |
| CacheMap.StaleHitIsLastStored | main/dns_server.cpp:342-358 | the same for the stale window |
| CacheMap.StoredReplyIsHit | main/dns_server.cpp:320-337 | a reply just stored is the next hit for its question until it expires |
| CacheMap.EvictionIsLeastUseful | main/dns_server.cpp:271-301 | a store evicts another key only when its own is nowhere cached and nothing in the set ends sooner |
| CacheMap.L2GetIsFreshAllowedHit | main/dns_server.cpp:365-400 | the fast path serves exactly the allowed fresh hits that fit its buffer |
| Seqlock.ProgramIsStore | main/dns_server.cpp:306-337 | the field and byte writes of a store, all done, are the store |
| Seqlock.PositiveReadIsOneStoredReply | main/dns_server.cpp:365-400 | in every interleaving a positive return is one complete stored reply, matching, unexpired, of the sampled generation |
| Seqlock.PositiveReadIsCommitted | main/dns_server.cpp:365-400 | in every interleaving a positive return comes with no store in progress and is what a scan of the committed cache finds |
| Seqlock.QuietMissIsMiss | main/dns_server.cpp:365-400 | a scan that ends empty with the counter unmoved misses only what is not there |
| Upstream.FreshTxidExists | main/dns_server.cpp:705-716 | some nonzero 16-bit id is always free, so the re-roll can end |
| Upstream.UpstreamTable.Alloc | main/dns_server.cpp:712-743 | the first free slot under a fresh id, with nothing of its predecessor |
| Upstream.UpstreamTable.Find | main/dns_server.cpp:745-751 | the live slot of an id |
| Upstream.UpstreamTable.FindToJoin | main/dns_server.cpp:868-881 | the first flight a duplicate may ride |
| Upstream.UpstreamTable.JoinFlight | main/dns_server.cpp:888-904 | one more waiter, or refused when full |
| Upstream.UpstreamTable.EvictExpired | main/dns_server.cpp:905-912 | every flight past its timeout, and no other |
| DnsTask.CnameChainIsBlocked | main/dns_server.cpp:1152-1180 | an owner or CNAME target in the answers is listed, as far as they parse |
| DnsTask.UpstreamQueryAsksTheSame | main/dns_server.cpp:2128-2163 | the datagram sent upstream carries our id and the client question |
| DnsTask.Task.FanOutLoop | main/dns_server.cpp:1498-1530 | primary and waiters, each under its own id, TCP only on the live connection that asked |
| DnsTask.Task.ProcessReply | main/dns_server.cpp:1401-1570 | process_reply end to end equals its step of the machine, on any packet |
| DnsTask.Task.LookFreshQuery | main/dns_server.cpp:1934-1985 | the cache probe of a query |
| DnsTask.Task.LookStaleQuery | main/dns_server.cpp:1987-2052 | serve-stale and its one refresh |
| DnsTask.Task.JudgeQuery | main/dns_server.cpp:2054-2125 | rewrite, verdict, and what the cache learns |
| DnsTask.Task.TakeUdpQuery | main/dns_server.cpp:1860-1935 | the head of the UDP loop on any datagram: dropped where it is no query, else taken with its name, type, class, bypass, rewrite address and generation |
| DnsTask.Task.TakeTcpQuery | main/dns_server.cpp:2221-2254 | the same for a message on the open connection, which is closed where the message is no query |
| DnsTask.Task.ForwardQuery | main/dns_server.cpp:2127-2187 | join, start a flight, or give up |
| Generations.CurrentStampIsUpToDate | main/blocklist.c:958-966 | a current stamp was authorised after every completed change |
| Generations.StepKeeps | main/dns_server.cpp:1401-2410 | every step of the machine keeps every stamp and every verdict behind it honest |
| Generations.NoStaleVerdictIsServed | main/dns_server.cpp:258-270 | in every reachable state, no fresh, stale or fast-path hit rests on a verdict older than a change whose bump has completed |
| Generations.SampledReadIsUpToDate | main/dns_server.cpp:365-400 | the same when the other core samples the generation first and reads later |
| Generations.SettledHitIsAllowedNow | main/dns_server.cpp:198-210 | with no change half applied, a hit rests on the current configuration, which does not block its name |
| Generations.RestoreKeeps | main/dns_server.cpp:439-506 | entries restored from the card keep the boot generation |
| Generations.StartHolds | main/dns_server.cpp:439-506 | a start from any restored cache satisfies the invariant |
| Delivery.FanOutKeeps | main/dns_server.cpp:1498-1530 | the fan-out delivers only what was owed, to whom it was owed |
| Delivery.StepKeeps | main/dns_server.cpp:1401-2410 | no step duplicates a query: it is in hand, owed, or answered, once |
| Delivery.EveryRunDelivers | main/dns_server.cpp:868-910 | in every run each query is answered at most once, to its client and under its own id; each TCP connection at most once; live ids nonzero and distinct |
| Delivery.LateDuplicateReachesNobody | main/dns_server.cpp:1404-1411 | however late a second copy comes and whatever happened in between, it changes nothing unless its id was given to a new flight |
| Answers.EveryAnswerIsToItsQuestion | main/dns_server.cpp:1401-2187 | in every run, every answer sent, from cache, verdict or upstream, to the first client or a waiter, is about the name and type its client asked |
| Answers.ReplayFits | main/dns_server.cpp:1934-2010 | an entry found for a query is replayed, fresh or stale, as a reply about that query |
| Answers.OutgoingAbout | main/dns_server.cpp:1440-1488 | scrubbed, cloaked or marked as truncated, a reply stays about its question |
| TwoPaths.SocketWhereHookAnswers | main/dns_server.cpp:1870-2106 | what the socket path sends wherever the hook answers: the rewrite, the hook's own bytes, or nothing for a bypassed client whose blocked name goes upstream |
| TwoPaths.PathsAgreeExactly | main/dns_sink.cpp:1730-1908 | where the hook answers, the two paths send the same bytes if and only if no rewrite rule catches the name as strlen measures it and the answer is cached or the client not bypassed (a rewritten name: only where the cached reply equals the rewrite) |
| TwoPaths.TwoPathsAgree | main/dns_sink.cpp:1730-1908 | so with the bypass lock free and no zero byte in the name, whatever the hook answers the socket path would have sent, byte for byte |
| TwoPaths.PathsAgreeInEveryRun | main/dns_sink.cpp:1730-1908 | the same in every state a run from boot can reach, once no change is half applied |
| Interleaved.RunIsStores | main/dns_server.cpp:306-358 | over every run of dns_task the cache is what a sequence of accepted stores and touched gates makes of it, the operations the seqlock's writer performs |
| Interleaved.InterleavedPathsAgree | main/dns_sink.cpp:1840-1908 | wherever dns_task is when the hook's cache read returns, even in the middle of a store: what the hook then answers, from the read or by a proven block, is byte for byte what the socket path sends |
| Interleaved.InterleavedPathsAgreeInEveryRun | main/dns_sink.cpp:1840-1908 | the same over every run of dns_task from boot and every interleaving of the read with the stores |
| TwoPaths.LookupRewrite | main/rewrite.c:137-158 | the rewrite lookup, by strlen; 0 where the wait for its lock runs out |
| TwoPaths.ZeroByteSplitsPaths | main/rewrite.c:137-177 | with a zero byte in the name the two rewrite lookups, and then the two replies, can differ |
| TwoPaths.ZeroByteHidesNameFromStrlen | main/rewrite.c:137-177 | a rule and a name with a dot on which the two lookups differ |
| Splits.ZeroByteSplitsHere | main/rewrite.c:137-177 | a freshly started device, a rule and an A query on which the hook sinkholes and the socket path answers the rewrite |
| TwoPaths.BusyBypassSplitsPaths | main/bypass.c:124-149 | with the bypass lock busy the hook blocks what the socket path forwards |
| Splits.BusyBypassSplitsHere | main/bypass.c:124-149 | the same query from a bypassed client, its list's lock held: the hook sinkholes it, the socket path forwards it |
| L2Hook.ClimbLadder | main/dns_sink.cpp:1749-1806 | exactly the frames that hold one well-formed DNS query to this device |
| L2Hook.RewriteNb | main/rewrite.c:160-182 | 0 only where no rule covers the name, by its length |
| L2Hook.L2Input | main/dns_sink.cpp:1730-1908 | the hook end to end, whatever its cache read comes back with: the payload specified, behind headers turned around, or no answer |

## Left out

- BlTable.SortDedup: the library `qsort` branch is a stand-in that writes back the sorted records; the library's own algorithm is not modelled.
- Cache.ForwardCache.StoreResp: `cache_store_*` is one step here; its field-by-field order is in module Seqlock.
- CaseScrub.RandomizeQnameCase: the hardware random bits are a stream of coins, one for each letter.
- Lines.FetchLines: the watchdog is a transfer that ends badly after some chunk; its timers and the HTTP client are not modelled.
- Flash.ProgramSlot: erasing clears bytes in ascending order, one at a time, and one power cut is considered, as the code promises no more.
- Seqlock.PositiveReadIsOneStoredReply: memory order is sequentially consistent; fences are not modelled.
- DnsTask.Task.ProcessReply: the source-address filter in front of it and the latency histograms are not modelled; any packet at all may arrive.
- DnsTask.Task.ForwardQuery: DNS over TLS, the hedged retransmit and the EDNS option appended for TCP queries are not modelled; a hedge shows up as a duplicate reply.
- TwoPaths.TwoPathsAgree: the verdict is one step; a reload published in the middle of a walk, and several reloads during one lookup, are not.
- Interleaved.InterleavedPathsAgree: a positive read is compared under the generation it sampled; for a bump between the sample and the return see `Generations.SampledReadIsUpToDate`.
- TCP framing, idle deadlines and the receive buffer: a query on the open connection is one step.
- Sockets, the select loop, the HTTP client and its watchdog, Wi-Fi and Ethernet bring-up, OTA: no algorithm to verify.
- NVS, FAT and SD file mechanics: only the flash slots, and the entries a restored cache file yields, are modelled.
- Hash quality and bucket occupancy: statistical.
- The access list, pause, bypass and rewrite tables as stores: their lookups are given, the rewrite lookup excepted.
- `domain_extract_token`: superseded by the rule parser; nothing on the modelled paths calls it.
- Metrics, query log, census, crash log and the web interface: bookkeeping with easy properties.
