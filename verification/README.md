# Algorandscout: verified model

Algorandscout is a read-only explorer API over an Algorand node (algod) and an indexer. This project
models the parts of it that hold state across calls, that run concurrently, or that must be exact, and
proves what they promise. `dafny verify dfyconfig.toml` checks everything.

| file | models |
|---|---|
| `Retry` | `_get` over an arbitrary script of upstream outcomes, and the status the exception handler makes of its error |
| `FanOut`, `Holdings` | the semaphore-bounded metadata lookups behind a token-balance page, under any scheduler, and the page merged from them |
| `Cache`, `CacheRecency`, `CacheFetches`, `CacheConcurrency` | the TTL + LRU cache: one call, whole logs of calls, and coroutines interleaving between read and store |
| `Positional`, `Amounts` | numbers in a base, and `decimal_string` with an independent reader of canonical decimals |
| `Transactions` | `map_transaction` over trees of inner transactions, closing sweeps, confirmations |
| `Base32`, `Validation` | CPython's base32 decoding written out, address and transaction id validation for any hash, query classification |
| `Exposition`, `Metrics`, `Scrape`, `Published` | counters and histograms updated in place, the rendered text, and a reader of that text |
| `Health` | the two-sample health report, and the statistics route over it |

Objects whose methods update their fields are classes with a ghost log of the calls made
(`Cache.TTLCache`, `Metrics.Counters`); the loops of the source are loops. Each is tied to a
specification on values, and the results over whole runs are lemmas about that specification. The two
concurrent parts are transition systems in which any enabled step may be taken at any time, with lemmas
over every legal schedule.

## What came out

- A single-character typo of an address is *not* always caught, although the validator's comment says so
  (`algorandscout/validation.py:62-63`). The exact condition, for every hash and position
  (`Validation.SingleTyposAreCaughtIff`): in the key (the first 51 characters) a typo is caught unless the
  checksums of the two keys, which differ, collide; in characters 52 to 56 (from 0) always; in the last one
  unless it stays within the two bits that base32 leaves unused and nothing checks. So every accepted address has
  three other last characters that are accepted too (`Validation.LastCharacterTyposPass`), and exactly four
  texts are accepted per key (`Validation.ExactlyFourPerKey`). Character 51 belongs to both: it follows the
  first rule if only its key bit changes and is always caught if only its checksum bits do; if both do, it passes
  exactly if the changed checksum happens to be that of the changed key.
- That a *transposed* character is detected with certainty (`algorandscout/validation.py:16-17`) is true behind
  the key and, within it, again unless the checksums collide (`Validation.TranspositionsAreCaughtIff`).
- A cached JSON null is counted as a hit and fetched again all the same, because null doubles as "not
  found" (`CacheFetches.NullIsRefetched`). In every interleaving, failing fetches included, the fetches started
  are the misses counted, plus the reads that met a null in time, plus the reads of kinds never cached
  (`CacheConcurrency.FetchesAccounted`), so the misses account for them if and only if no read met a null
  (`CacheConcurrency.FetchesAreMissesIff`).
- A cached transaction payload is final in everything but its current round, so a cached caller gets the
  uncached answer with confirmations that lag by at most what the indexer advanced in one time to live
  (`CacheConcurrency.CachedTransactionLags`).
- The statistics route reads the chain tip before the two rounds whose lag it reports, so tip minus indexer
  round falls short of the lag by exactly what the node advanced in between (`Health.TipPredatesLag`).
- Round zero is "absent" for a single transaction and a round like any other for a transaction page, so
  the two routes disagree on confirmations exactly when one of two known rounds is zero
  (`Transactions.RoutesAgreeIff`).
- Label escaping drops newlines: two labels share their time series exactly when they are equal without
  their newlines (`Exposition.EscAlikeIff`), and a label is recovered exactly when it has none
  (`Exposition.LabelRecoveredIff`). The service itself never writes such a label: routes are templates from
  the routing table or `<unmatched>` (`algorandscout/service.py:107-121`), and the upstream labels are
  constants. The law is about the renderer, whatever it is given.
- The alphabet pattern lets one trailing newline through; base32 decoding rejects it, so it never
  affects acceptance, only which error is raised (`Validation.AddressErrors`).
- A digit string of 52 or 58 digits between 2 and 7 is not classified as numeric
  (`Validation.DigitsAreNumericIff`); no number below 2^64 is affected, with any leading zeros
  (`Validation.Uint64IsNumeric`).
- The "unknown upstream failure" after the retry loop, and the wrong-length error of base32 decoding,
  cannot occur (`Retry.Get`, `Validation.DecodeSucceeds`, `Validation.AddressErrors`).

## Model

| member | source | states |
|---|---|---|
| Retry.ParseRetryAfter | algorandscout/client.py:61-77 | a server can never ask for a negative pause or for more than ten seconds |
| Retry.RetryAfterIsExact | algorandscout/client.py:69-77 | a header is honoured if and only if it is a number of seconds not below zero, as that many seconds up to ten |
| Retry.SettlingIsExact | algorandscout/client.py:198-234 | the settling attempt is the first of three that is answered with neither a 5xx nor a 429, else the third |
| Retry.AnswerIsExact | algorandscout/client.py:200-219 | the call returns the body if and only if the settling attempt is answered below 400; otherwise its error carries that status, or none without an answer, and is a NotFound if and only if it is 404 |
| Retry.PausesAreExact | algorandscout/client.py:221-231 | the pause after each attempt in numbers: the server's seconds up to ten, else 0.4 s per attempt and up to 0.25 s more |
| Retry.Get | algorandscout/client.py:191-234 | for every script of outcomes: returns or raises what the settling attempt alone would (the first of three that asks for no retry, else the third); one pause between attempts, a Retry-After counting only right after its own response; at most 20 s of pauses in all; the fallback error is never raised |
| Retry.DecidingUnique | algorandscout/client.py:198-234 | exactly one attempt settles a call, so the contract of the loop fixes its answer |
| Retry.BlameIsExact | algorandscout/service.py:154-172 | composed with the handler: 502 if and only if the settling outcome was a 5xx or no response, 429, 404 and 400 likewise, no other status, and the counter's label agrees |
| Retry.OnlyExhaustionIsPassedOn | algorandscout/client.py:88-98 | a caller sees 502 or 429 if and only if all three attempts asked for a retry |
| FanOut.NextInv | algorandscout/service.py:294-303 | every step keeps permits + running tasks = 8 and the per-task facts, and takes exactly one off the total work left |
| FanOut.Reachable | algorandscout/service.py:293-305 | the invariant holds after every schedule, and the steps taken plus the work left are a constant of the upstream |
| FanOut.ProgressIff | algorandscout/service.py:294-305 | no deadlock: nothing is enabled if and only if every task is done |
| FanOut.CanFinish | algorandscout/service.py:305-307 | every schedule, however it began, can be continued to the end |
| FanOut.FinishedStateIsUnique | algorandscout/service.py:296-307 | schedule independence: all finished schedules end in one state, permits returned, each id resolved as if looked up alone, and have the same length |
| FanOut.RequestsAreBounded | algorandscout/service.py:293-299 | at every moment at most three requests per distinct id so far, and at most eight lookups in flight |
| FanOut.LookedUpOnce | algorandscout/service.py:305-307 | each id is looked up at most once at every moment, exactly once when done, with as many attempts as its script calls for |
| Holdings.MergeResolved | algorandscout/service.py:305-307 | the merged map holds an entry if and only if some lookup succeeded with it, in whatever order the results come |
| Holdings.MapAccountAssets | algorandscout/mapping.py:133-193 | one item per holding, in order, with its token (kind included), and the cursor of the next page unless it is absent or empty |
| Holdings.MappedShows | algorandscout/mapping.py:143-193 | every field of an item from the holding and the upstream's own body: name, symbol, decimals, supply and kind of the declared parameters, the exact amount over 10^decimals if declared, and nothing of them if the lookup failed or declares none |
| Holdings.TokenBalances | algorandscout/service.py:287-309 | for every schedule of the lookups and order of the results, each holding is mapped with the metadata a lookup of its asset alone would find, shows exactly the upstream's parameters field by field, and the cursor is kept |
| Holdings.ItemIsExact | algorandscout/mapping.py:143-156 | the value is the exact amount; the decimal value is there if and only if the lookup succeeded and declares decimals, and then denotes the exact amount |
| Cache.TimesToLive | algorandscout/cache.py:27-40 | an entry is in time if and only if it is a block or transaction of at most 3600 s, or an asset or application of at most 300 s |
| Cache.ReadsByAge | algorandscout/cache.py:77-96 | a read by the age of its entry: what it returns, which counters move, and that a late entry alone is dropped, as an expiration and a miss |
| Cache.TTLCache.constructor | algorandscout/cache.py:67-71 | an empty cache with an empty log |
| Cache.TTLCache.Get | algorandscout/cache.py:77-96 | the fields follow the specification; returns the stored payload if and only if it is present and within its time to live |
| Cache.TTLCache.Put | algorandscout/cache.py:98-107 | `set`: the fields, eviction loop included, follow the specification |
| Cache.TTLCache.Clear | algorandscout/cache.py:109-111 | drops all entries and keeps the statistics |
| Cache.TTLCache.GetOrFetch | algorandscout/cache.py:117-131 | returns the cached payload, else what the fetch returns or raises; stores only what a fetch returned, at the time of the store |
| Cache.EvictKeepsLast | algorandscout/cache.py:105-107 | the eviction loop leaves exactly the most recent entries, unchanged, and counts the others |
| Cache.RunWellFormed | algorandscout/cache.py:98-107 | after every run of calls the size is within the bound, keys are distinct, and only kinds with a declared time to live are stored |
| Cache.ReadsLatestSet | algorandscout/cache.py:77-107 | anything a read returns is the payload of the latest `set` of its key since the last `clear`, at most 3600 s or 300 s old by its kind |
| Cache.Accounting | algorandscout/cache.py:83-111 | over every run: hits + misses = reads of cacheable kinds, expirations are misses, and inserts = entries + evictions + expirations + entries cleared |
| CacheRecency.RecentIsByLastUse | algorandscout/cache.py:94-104 | the reference order: each key used, once, by the position of its last use |
| CacheRecency.KeepsMostRecent | algorandscout/cache.py:117-131 | LRU refinement: after any calls whose fetches succeed, whatever the clock and the expiries did, the stored keys in order are the last `max` keys by most recent use |
| CacheRecency.SmallerIsSuffix | algorandscout/cache.py:105-107 | inclusion: on one trace a smaller cache holds the most recent keys of a larger one, in its order |
| CacheRecency.Drive | algorandscout/cache.py:117-131 | a cache object taken through any sequence of `get_or_fetch` calls, failing fetches included: its fields, its log and every answer or error are those of the call-by-call specification the lemmas below are about |
| CacheRecency.CallsAreLogged | algorandscout/cache.py:117-131 | the log that such an object leaves is a run of reads and stores with the same state |
| CacheFetches.FetchesAccounted | algorandscout/cache.py:77-96 | over every log of calls: reads that find nothing = misses counted + reads that meet a null within its time to live + reads of kinds never cached |
| CacheFetches.FetchesAreMissesIff | algorandscout/cache.py:77-96 | the misses and the kinds never cached account for all of them if and only if no read meets a null within its time to live |
| CacheFetches.FetchesAreMisses | algorandscout/cache.py:77-96 | in particular when no null is stored |
| CacheFetches.NullIsRefetched | algorandscout/cache.py:95-128 | a stored null counts as a hit but is reported as absent; nothing else is |
| CacheRecency.WorkingSetIsServed | algorandscout/cache.py:77-107 | for arbitrary reads and stores: if between any two uses of a key since its last `set` fewer than `max` other keys are stored or hit, that `set` is served for all of 3600 s, or 300 s, by its kind |
| CacheRecency.HitIsServedAgain | algorandscout/cache.py:94-107 | after a hit, fewer than `max` other keys stored or hit guarantee the next hit, with the same payload, until 3600 s, or 300 s, after the last `set` |
| CacheConcurrency.StepsOnTheCache | algorandscout/cache.py:126-131 | a caller returns what its read finds or awaits its fetch, and an arrival is returned and left stored for the others at its time |
| CacheConcurrency.CacheIsLog | algorandscout/cache.py:117-131 | in every interleaving the cache is in the state that the log of its reads, stores and clears leaves |
| CacheConcurrency.InterleavedAccounting | algorandscout/cache.py:77-131 | with any interleaving of callers the size is within the bound and reads, inserts, evictions and expirations are accounted for |
| CacheConcurrency.InterleavedWorkingSet | algorandscout/cache.py:77-131 | and a key with small gaps between its uses is served what was last stored for it, whoever stores and reads |
| CacheConcurrency.FetchesAccounted | algorandscout/cache.py:117-131 | in every interleaving, with failing fetches and clears: fetches started = misses counted + reads of fresh nulls + reads of kinds never cached |
| CacheConcurrency.FetchesAreMissesIff | algorandscout/cache.py:117-131 | fetches started = misses counted + reads of kinds never cached if and only if no read meets a fresh null |
| CacheConcurrency.FetchesAreMisses | algorandscout/cache.py:117-131 | in particular if no fetch brings a null |
| CacheConcurrency.StartsFetchIff | algorandscout/cache.py:126-129 | the fetches counted are exactly the steps after which a caller awaits one |
| CacheConcurrency.CacheHoldsLastArrival | algorandscout/cache.py:117-131 | in every interleaving, each entry of the cache is what the last fetch of its key to arrive brought, with the time it arrived and no clear since |
| CacheConcurrency.ReturnsAreOwnOrFresh | algorandscout/cache.py:117-131 | transparency: every call returns what its own fetch brought, or reads what the last fetch of the same key to arrive before that read brought, at most a time to live earlier |
| CacheConcurrency.ReturnsWereGenuine | algorandscout/cache.py:27-40 | bounded staleness against a changing upstream: what a call returns was a genuine answer at most one time to live before it returned, and at that very moment for kinds never cached |
| CacheConcurrency.SettledUpstreamIsTransparent | algorandscout/cache.py:27-40 | if the upstream's answer for a key did not change during the last time to live, the call returns what the upstream answers at that moment, cached or not |
| CacheConcurrency.ReturnsAreGenuine | algorandscout/cache.py:27-40 | whatever lasting property all fetched answers have at arrival, everything returned has to the end |
| CacheConcurrency.ConstantUpstreamIsTransparent | algorandscout/cache.py:27-31 | where the upstream's answer never changes (a settled block), every caller gets exactly the uncached answer |
| CacheConcurrency.CachedTransactionLags | algorandscout/service.py:316-332 | for a settled transaction, whose payload also carries the current round, the response equals the uncached one in every field but the confirmations, and these are computed at a round between those of one time to live ago and of now |
| CacheConcurrency.ConfirmationsAreNotOverstated | algorandscout/service.py:318-332 | confirmations computed from a payload that sat in the cache never exceed those at the indexer's latest round |
| Amounts.PrintedIsCanonical | algorandscout/mapping.py:65-79 | every printed amount is -?(0 or a numeral)(.digits not ending in 0)? and never "-0", checked by an independent reader |
| Amounts.PrintedValueIsExact | algorandscout/mapping.py:66-70 | reading a printed amount back gives amount / 10^decimals exactly, for unbounded amounts of either sign |
| Amounts.PrintedEqualIff | algorandscout/mapping.py:65-79 | two amounts print alike if and only if they are the same rational, whatever their decimals |
| Amounts.PrinterIsOnto | algorandscout/mapping.py:65-79 | every canonical string is printed by some amount, and reading finds it |
| Amounts.PrintedSum | algorandscout/mapping.py:466-468 | the strings of two amounts and of their sum add up with no rounding |
| Amounts.ReadShow | algorandscout/mapping.py:75-79 | the reader recovers every canonical decimal from its notation |
| Transactions.CommonFields | algorandscout/mapping.py:368-402 | sender, id, round, group and type as they are, the fee and its decimals exact, rekeying unless to the zero address, "ok" if and only if the round is known and not zero, and the inner transactions in order |
| Transactions.Labels | algorandscout/mapping.py:41-50 | the label of each known type, and of any other type itself |
| Transactions.PaymentIsMapped | algorandscout/mapping.py:413-470 | a payment, closing or not: receiver, amount and decimals exact, and the sweep, its target and both totals if and only if the target is neither unset, empty nor the zero address |
| Transactions.AssetTransferIsMapped | algorandscout/mapping.py:418-488 | an asset transfer: receiver, asset, amount, native value zero, clawback if and only if a holder is named, and the sweep of the holding likewise |
| Transactions.ApplicationCallIsMapped | algorandscout/mapping.py:431-433 | an application call points to its application unless that is absent or zero, and moves nothing |
| Transactions.AssetConfigurationIsMapped | algorandscout/mapping.py:435-437 | an asset configuration likewise to its asset |
| Transactions.AssetFreezeIsMapped | algorandscout/mapping.py:439-440 | an asset freeze points to the frozen address, and moves nothing |
| Transactions.OtherTypesAreMapped | algorandscout/mapping.py:442-490 | every other type, known or not, points nowhere and moves nothing |
| Transactions.PreorderIsMapped | algorandscout/mapping.py:350-410 | for a tree of any depth, the preorder of the result is the node-by-node image of the preorder of the raw tree |
| Transactions.PreorderIsMappedAll | algorandscout/mapping.py:343 | the same for the transactions of a block |
| Transactions.InternalCountsAddUp | algorandscout/mapping.py:401-402 | the inner-transaction counts of a mapped tree add up to its number of nodes less one, as many as the raw tree has |
| Transactions.PaymentFields | algorandscout/mapping.py:375-384 | `value` reads back as the named amount, `value_total` as that plus the sweep (`close-amount`, or `closing-amount` in its absence), and an account closes if and only if the close target is neither unset, empty nor the zero address |
| Transactions.AssetTransferFields | algorandscout/mapping.py:472-488 | an asset transfer's total is the named plus the swept units, and it never closes the account |
| Transactions.PaymentsConserved | algorandscout/mapping.py:445-470 | conservation over forests of any depth: the totals read from all mapped payments are the amounts named plus the remainders swept |
| Transactions.AssetsConserved | algorandscout/mapping.py:418-488 | the same for the units of each asset |
| Transactions.ClosingDecimalsAddUp | algorandscout/mapping.py:376-469 | for a closing payment the parsed decimal value plus the parsed decimal sweep is the parsed decimal total |
| Transactions.MapTransactionList | algorandscout/mapping.py:503-516 | every transaction mapped in order, with confirmations max(0, tip - round) when both are known, and the cursor of the next page unless it is absent or empty |
| Transactions.GetTransaction | algorandscout/service.py:325-332 | the single-transaction route after its payload is there: 404 without a transaction, confirmations unless a round is absent or zero |
| Transactions.PageConfirmations | algorandscout/mapping.py:507-510 | on a page confirmations plus round give the tip, none below zero, if and only if both rounds are known; all else is as mapped |
| Transactions.SingleConfirmations | algorandscout/service.py:328-332 | on the single route likewise, if and only if both are known and positive |
| Transactions.RoutesAgreeIff | algorandscout/service.py:329-331 | the two routes agree on a transaction unless both rounds are known and one of them is zero |
| Base32.AlphabetIsExact | algorandscout/validation.py:27 | values are positions in the alphabet, and nothing else is in it |
| Base32.DecodePadded | algorandscout/validation.py:42-43 | padding by length makes every text of a decodable length over the alphabet decode to its quanta |
| Base32.QuantaNumber | algorandscout/validation.py:43 | as numbers, the decoded bytes are the text with its spare bits dropped (RFC 4648 sections 6 and 3.5), for every length |
| Base32.DecodeAlikeIff | algorandscout/validation.py:41-46 | two texts decode alike if and only if they agree on all characters but the last and on the bits of the last that reach a byte |
| Base32.DecodeEncode | algorandscout/validation.py:41-46 | decoding inverts the canonical encoding on all byte strings |
| Base32.PrefixNumber | algorandscout/validation.py:85 | the first bytes are determined by the first characters that cover them |
| Validation.DecodeSucceeds | algorandscout/validation.py:41-46 | text over the alphabet of an identifier's length decodes to the expected number of bytes: no decoding error occurs |
| Validation.NewlineIsNotDecodable | algorandscout/validation.py:28-83 | the trailing newline that the pattern lets through is caught by the decoder, as a text that is not decodable |
| Validation.AcceptedIff | algorandscout/validation.py:57-90 | a text is accepted if and only if it is 58 characters of the alphabet and its key is followed by its key's checksum |
| Validation.AcceptedBytesIff | algorandscout/validation.py:78-90 | in bytes: accepted if and only if it is 58 characters of the alphabet and bytes 32 to 35 are bytes 28 to 31 of the digest of the first 32 |
| Validation.AddressErrors | algorandscout/validation.py:57-90 | which error is raised, for every text: the wrong-byte-count error never, and the not-decodable error exactly for 57 characters of the alphabet and a newline |
| Validation.TxidAcceptedIff | algorandscout/validation.py:93-111 | a transaction id is valid if and only if it is 52 characters of the alphabet; which error is raised otherwise |
| Validation.Uint64Iff | algorandscout/validation.py:114-122 | exactly the numbers from 0 to 2^64 - 1 pass, with the two errors on either side |
| Validation.AddressesAlikeIff | algorandscout/validation.py:78-83 | 58-character texts decode alike if and only if they agree on 57 characters and the top three bits of the last |
| Validation.TxidsAlikeIff | algorandscout/validation.py:104-109 | 52-character texts, on 51 characters and the top bit of the last |
| Validation.CanonicalIsAccepted | algorandscout/validation.py:61-63 | for every hash, the canonical encoding of every 32-byte key and its checksum is accepted |
| Validation.ExactlyFourPerKey | algorandscout/validation.py:78-90 | exactly four texts are accepted for a key, those that differ from its address in the two dropped bits only |
| Validation.ChecksumTyposAreCaughtIff | algorandscout/validation.py:85-88 | a change to an accepted address that leaves its key bits alone is accepted if and only if it is confined to the two dropped bits, for every hash |
| Validation.ChecksumsAlikeIff | algorandscout/validation.py:78-85 | two texts decode to the same four checksum bytes if and only if they agree on four bits of character 51, on the next five characters and on three bits of the last |
| Validation.KeyTyposAreCaughtIff | algorandscout/validation.py:85-88 | a change that leaves the checksum bits alone is accepted if and only if the checksums of the two keys collide, and the keys differ unless the change is in dropped bits |
| Validation.SingleTyposAreCaughtIff | algorandscout/validation.py:57-90 | the exact condition under which a typo of one character is accepted, for every hash and by position |
| Validation.TranspositionsAreCaughtIff | algorandscout/validation.py:16-90 | two different characters swapped behind the key are always rejected, swapped within it accepted if and only if the checksums of the two keys collide |
| Validation.LastCharacterTyposPass | algorandscout/validation.py:62-63 | the promised certainty fails: every accepted address has three accepted variants of its last character |
| Validation.StripIsTrim | algorandscout/validation.py:133 | stripping takes off exactly the white space at both ends |
| Validation.SpacesAreExact | algorandscout/validation.py:133 | white space is Unicode's, code point by code point |
| Validation.ClassifiedIff | algorandscout/validation.py:125-142 | each of the four classes by the length, the alphabet and the digits of the stripped text |
| Validation.TxidIffClassified | algorandscout/validation.py:93-142 | a string is a valid transaction id if and only if nothing needs stripping and it classifies as a transaction |
| Validation.AddressIsClassified | algorandscout/validation.py:125-137 | every valid address classifies as an address |
| Validation.DigitsAreNumericIff | algorandscout/validation.py:133-142 | a digit string is numeric unless it looks like an identifier |
| Validation.Uint64IsNumeric | algorandscout/validation.py:114-141 | every uint64, with any leading zeros, classifies as numeric and passes the range check |
| Exposition.EscIsOnePass | algorandscout/metrics.py:124-125 | the three successive replacements equal one pass that treats each character on its own |
| Exposition.ReadQuotedEsc | algorandscout/metrics.py:124-125 | an escaped value reads back, less its newlines, up to exactly the quote that closes it |
| Exposition.LabelRecoveredIff | algorandscout/metrics.py:124-125 | a label is recovered if and only if it has no newline |
| Exposition.EscAlikeIff | algorandscout/metrics.py:124-125 | two labels are escaped alike if and only if they are equal without their newlines |
| Exposition.ReadShow | algorandscout/metrics.py:72-118 | a rendered sample line, with labels or without, reads back as its name, labels and value |
| Exposition.LinesText | algorandscout/metrics.py:121 | the text splits back into its lines |
| Metrics.Counters.ObserveRequest | algorandscout/metrics.py:36-49 | the dictionaries hold exactly the counts of everything observed, per route and status, per route and bucket, and per route, and the sum of durations per route |
| Metrics.Counters.ObserveUpstream | algorandscout/metrics.py:51-54 | likewise per upstream and outcome |
| Metrics.CountIsCardinality | algorandscout/metrics.py:36-49 | the counts that all results are stated in are numbers of observations |
| Metrics.SumsAddUp | algorandscout/metrics.py:48 | the sums are those of the durations observed on the route: additive over any split of the log, and of one observation its duration |
| Metrics.AddToSlot | algorandscout/metrics.py:40-47 | the search adds one to the bucket of the first edge that bounds the duration, else to the last |
| Metrics.TallyOne | algorandscout/metrics.py:38-54 | counting one more entry under its only key keeps a dictionary equal to the counts of the log |
| Metrics.OneMore | algorandscout/metrics.py:39-47 | one more observation keeps the per-bucket counts of its route |
| Scrape.Accumulate | algorandscout/metrics.py:87-93 | adding a bucket to the running sum turns the count below it into the plain count of durations up to its edge |
| Scrape.RenderRoute | algorandscout/metrics.py:86-102 | the lines of a route read back as, for each edge, the number of its observations at most that edge, for +Inf and the count all of them, and the sum of their durations |
| Scrape.SumIsNearest | algorandscout/metrics.py:97-99 | a printed sum has six decimals and denotes a number within half a millionth of the exact one |
| Scrape.RenderCache | algorandscout/metrics.py:104-112 | the cache lines read back as the four statistics, in order, or are absent |
| Scrape.RenderGauges | algorandscout/metrics.py:114-119 | the gauge lines read back as their names and values |
| Scrape.Render | algorandscout/metrics.py:58-121 | the whole text reads back as the counters' entries, these histograms, the cache statistics and the gauges, in order, is a scrape of everything observed so far, and announces each metric with its help and type |
| Published.CacheIsRead | algorandscout/metrics.py:104-112 | the cache series of a text are exactly four samples, hit, miss, expired and evicted, each with its own statistic; none without statistics |
| Published.GaugesAreRead | algorandscout/metrics.py:114-119 | the text ends in the gauges, each under its full name with its value |
| Published.HistogramIsRead | algorandscout/metrics.py:22-102 | every observed route has its eleven samples in one piece: each printed edge with the number of its observations up to that number of seconds, then all of them, their sum and their count |
| Scrape.CountersAreRecovered | algorandscout/metrics.py:72-80 | for labels without newlines, a counter sample is in the text of a scrape if and only if its key was observed that many times |
| Scrape.BucketsAreMonotone | algorandscout/metrics.py:87-97 | the counts that the buckets read back as never fall along the edges, up to +Inf, nor as more is observed |
| Scrape.ScrapesNeverFall | algorandscout/metrics.py:61-102 | of two rendered texts, every counter, bucket and count sample of the earlier has in the later a sample of the same series with a value at least as large |
| Scrape.RequestsAddUpToCount | algorandscout/metrics.py:38-49 | a route's request counters over all statuses add up to its observation count, which is its latency count |
| Health.Health | algorandscout/client.py:248-285 | the report describes the two calls: healthy if and only if both succeed, the raw difference whenever both rounds are known, noted if and only if negative |
| Health.ReportedLag | algorandscout/client.py:253-273 | however many attempts the two calls took: a healthy report has a lag that, at every instant between the two settling attempts, is at most the true lag and short of it by at most what both chains moved in between, and it is noted as negative if and only if the indexer had passed the node's sample by its own, so only if the node advanced in between |
| Health.GetStats | algorandscout/service.py:224-229 | the statistics succeed if and only if the status call does, its error is passed on, and they combine its round with the health report |
| Health.TipPredatesLag | algorandscout/service.py:224-229 | the chain tip minus the indexer's round is the reported lag less exactly what the node advanced between its two samples |

## Left out

- HTTP, sessions, configuration, logging and routing: an upstream is an arbitrary script of outcomes, and
  the clock, the jitter and what a fetch returns are parameters. A 2xx body that is not the JSON expected
  is not modelled.
- Integer fields are absent or natural numbers; a JSON null in an amount and non-string identifiers are not
  modelled.
- Floating point: times, delays and durations are exact reals, which excludes a `Retry-After` or a
  duration that is not a number.
- SHA-512/256 is any function to 32 bytes: how likely the checksums of two keys are to collide is not modelled.
- Validation.ClassifyQuery: `isdigit` is modelled for the digits 0-9 only, not for other Unicode digits.
- Scrape.Render: lists the dictionaries in an arbitrary order, of which the sorted one is an instance, and
  takes a gauge's value as text, since how a float prints is not modelled. The lock is modelled by methods
  being atomic.
- Scrape.ScrapesNeverFall: leaves out the sums, which durations below zero would lower, and the cache
  statistics, which are the caller's.
- Cache.TTLCache: a negative bound is not modelled; locks are atomic methods, or steps in
  `CacheConcurrency`. The moment of an upstream's answer is the moment its fetch returns.
- FanOut: the semaphore may serve its waiters in any order, of which first-come is an instance.
- Transactions: timestamps, notes, logs, signatures, validity, position, created indexes, the copy of the
  detail object and the fields that are always null are left out. An asset transfer's `value` is native
  zero while a closing `value_total` is in asset units, so the two are not related.
- Health.Health: endpoint names and error texts are left out; a round that is not an
  integer is absent.
- Accounts, assets, applications, holders, statistics other than the rounds, block fields other than the
  transaction list, capabilities, the passthrough allowlist, probes, search wiring and the bounded page walk: easy case
  splits with little to prove.
