# BrandBlitz: verified models

Dafny models of the parts of BrandBlitz in which correctness spans a loop, a protocol or a
whole run, with proofs of what those parts promise. `dafny verify dfyconfig.toml` checks
everything.

- **Chat wire format** (`Streaming`, `WsFrame`, `ChatSocket`). The WebSocket codec of sections
  5.2 and 5.3 of RFC 6455 and the reader that feeds it chunk by chunk. Decoding does not depend
  on how the network cuts the bytes; encoding and decoding are inverse across all three length
  forms, masked or not. What the handler then *acts on* can depend on the cuts, because it
  returns at a close frame; the exact condition is proved. The sliding-window limiter is proved
  against the rule it stands for.
- **Stellar submission** (`Sequence`, `BatchSubmit`). Sequence reservation is a transition system
  with one step per store call, for any number of callers, processes and interleavings. The
  submission loops are methods over a mutable store and chain.
- **Prizes** (`Usdc`, `Scoring`, `Allocation`, `WhoGetsWhat`, `MixedTiers`, `Settlement`,
  `DirectPayout`). Amount strings, ranking, floor-divided shares with licence fee and tiers, who
  gets what, settlement over any run of payout jobs and re-openings, and the whole direct path:
  what the books say about a submission is what the chain did.
- **Smaller machines** (`CacheLock`, `DepositCursor`, `KeysetPaging`, `Questions`, `ClientIp`,
  `Streaks`). The stampede lock, the deposit cursor, keyset paging, question generation with
  Fisher-Yates, IPv6 rate-limit keys, daily streaks.
- **Shared** (`Options`, `Lists`, `Texts`, `Decimal`, `Hex`, `Ordering`). JavaScript string and
  array operations, number texts, sorting.

Objects and loops of the source are classes and methods here, each tied by its `ensures` to a
specification function; the lemmas are about those functions. Random draws, clocks, loader
values, network failures and the chain's answers are arbitrary inputs or arbitrary choices.
Every lemma turns automatic induction off: inductive proofs are written out.

Modelling choices:

- Bytes are the integers 0 to 255 and bit operations are written arithmetically (`TopBit`,
  `Low7`, `Low4`, `WithFlag`, `XorBits`). The 64-bit length field is read exactly; the source's
  `Number` rounds only from 2^53, more than a buffer can hold, so no buffer decodes differently.
- A text in the sequence store is `Blank`, `Decimal` or `Garbled`: all the code can tell apart.
- `localeCompare` is any strict total order on the user ids.
- A time is a whole number of milliseconds, and a UTC day is its quotient by a day.
- `toLowerCase` changes ASCII letters only. A few other letters also have lower-case forms, none
  of which is a hexadecimal digit, a colon or a dot, so the address tests answer the same.

Where the code does not keep a promise, the code is modelled as it is and the exact condition is
proved, with an input that shows the failure:

| what fails | shown by | exact condition |
|---|---|---|
| handling of frames is independent of the cuts | `CutAtClose` | nothing follows a close frame (`HandlingIgnoresCutsIffCloseIsLast`) |
| numbers stay distinct after a reset to n | `ResetRaceCollides` | no number above n was handed out, on the chain or not, and nobody in flight is bound to a base other than n (`ClearingIsSafeIff`, `ResetIsSafeIff`) |
| numbers stay distinct without `setIfAbsent` | `PlainSetCollides` | a non-empty base is stored from the start, or there are fewer than two callers (`PlainStoreIsSafeIff`) |
| submission heals any store | `SubmitBatchPayout` | the stored texts parse as integers |
| tiers never pay more than the pool, when every winner plays in a tier | `PoolsAreDrawn`, `UnfundedTiersOverpay` | the effective pools of the tiers played sum to at most the gross pool; a tier without a row or with an empty pool counts as the whole (`TiersAreSafeIff`) |
| the same with winners without a tier beside them | `CrowdTotal` | those effective pools sum to at most one stroop (`MixedTiersAreSafeIff`) |
| nobody is paid twice | `SharedAddressPaysTwice` | addresses are distinct, or at most fifty users are paid (`NobodyPaidTwiceIff`), over runs in which a submission that throws has moved no money |
| the same over all runs, submissions that throw after a paid batch included | `ThrownBatchIsPaidTwice` | at most fifty users are paid (`NeverPaidTwiceIff`); for one user already paid: the row says sent or confirmed (`NeverPaidAgainIffRecorded`) |
| whoever was paid has a row that says so, and "settled" means everyone is paid or refused | `AllRecordedIffDistinctAddresses` | addresses are distinct (`BooksAreTrueIff`); over all runs, and at most fifty users are paid (`BooksAreAlwaysTrueIff`) |
| one loader under the lock | `LateHolderIsJoined` | nobody asks for the lock while a holder's has run out (`OneHolderIff`) |
| a moved cursor leaves no deposit behind | `FailedLookupLoses` | every poll that moved the cursor had all unacknowledged deposits from the old cursor's ledger to below the new one on its page and found by its lookups (`NoneLostIff`) |
| the rounds are 1, 2, 3 | `RoundsAreInOrderIff` | no later material without the earlier |
| one option is right | `MakeQuestion` | no padding label spells the answer |
| an address has one rate-limit key | `MappedSpellingsDiffer` | both or neither spelling is an IPv4 address or `::ffff:` and a dotted quad (`KeysAgreeIff`) |
| a streak is the run of days | `NextUpdateIsRightIff` | the play is not on an earlier day whose eve was played |

Code and documentation differ in three places; the models follow the code. The comment of `poll`
moves the cursor "only if all events were processed"; these are the events of one page whose
lookups succeeded, not all events up to the latest ledger. The comment of `cached` says "up to WAIT_TOTAL_MS"; a caller
can wait up to one poll longer. The comment of `generateQuestionPreview` calls the generated
rounds deterministic; they are shuffled.

## Model

| member | source | states |
|---|---|---|
| WsFrame.EncodeWsFrame | apps/api/src/lib/ws-frame.ts:18-38 | writes a server frame of section 5.2: FIN set, no reserved bit, the opcode, no mask, the shortest length form with its octets most significant first, and the payload |
| WsFrame.Unmask | apps/api/src/lib/ws-frame.ts:103-110 | bit by bit, octet i of the payload is octet i of the data combined with octet i modulo four of the key |
| WsFrame.ReadHead | apps/api/src/lib/ws-frame.ts:76-94 | reads the head at an offset, or finds it incomplete, exactly as the head of the bytes from there on |
| WsFrame.DecodeWsFrames | apps/api/src/lib/ws-frame.ts:69-123 | the offset loop returns the frames and remainder of repeated parsing at the front |
| WsFrame.StreamingInvariance | apps/api/src/routes/challenges.chat.ts:436-439 | for every cut of the bytes into chunks, feeding them with the carried remainder gives the frames and remainder of decoding in one go |
| WsFrame.MaskTwice | apps/api/src/lib/ws-frame.ts:102-110 | masking is its own inverse, for any key |
| WsFrame.MaskedIsUnmasked | apps/api/src/lib/ws-frame.ts:103-110 | what a client hid by the rule of section 5.3, bit by bit, is what the decoder gives back |
| WsFrame.HeadRoundTrip | apps/api/src/lib/ws-frame.ts:76-94 | a head that says FIN, opcode, mask and length by section 5.2, in any of its three forms, is read as that, whatever follows |
| WsFrame.FrameRoundTrip | apps/api/src/lib/ws-frame.ts:76-120 | one frame of the standard, masked by any client or not, parses to what it means and its own size, whatever follows |
| WsFrame.EncodedIsLegal | apps/api/src/lib/ws-frame.ts:18-38 | what the encoder sends is a frame of the standard that means the payload |
| WsFrame.PrefixIsIncomplete | apps/api/src/lib/ws-frame.ts:76-100 | no proper front part of a frame is taken for a frame |
| WsFrame.RoundTrip | apps/api/src/lib/ws-frame.ts:18-123 | any list of such frames followed by an unfinished tail decodes to exactly those frames and that tail |
| ChatSocket.ChatReader.OnData | apps/api/src/routes/challenges.chat.ts:436-450 | keeps the undecoded remainder and acts on the frames up to the first close frame |
| ChatSocket.ActsUpToFirstClose | apps/api/src/routes/challenges.chat.ts:436-450 | an event acts on its frames up to and with the first close frame |
| ChatSocket.HandlingIgnoresCutsIffCloseIsLast | apps/api/src/routes/challenges.chat.ts:436-450 | the frames acted on are the same for all cuts if and only if nothing follows a close frame |
| ChatSocket.ChatClient.IsRateLimited | apps/api/src/routes/challenges.chat.ts:128-135 | refuses when five kept times are within the window; prunes, and adds the time unless refused |
| ChatSocket.KeptIsRecent | apps/api/src/routes/challenges.chat.ts:128-135 | the pruned list is the whole history of passed messages seen through the window |
| ChatSocket.RefusedExactlyWhenFiveRecent | apps/api/src/routes/challenges.chat.ts:128-135 | a message is refused exactly when five messages that passed are less than 5000 ms old |
| ChatSocket.LimiterKeepsTheRule | apps/api/src/routes/challenges.chat.ts:128-135 | over any run the limiter lets through the messages that the rule on full history does |
| ChatSocket.WindowBound | apps/api/src/routes/challenges.chat.ts:128-135 | no half-open window of 5000 ms holds more than five messages let through |
| Sequence.RunKeepsInv | packages/stellar/src/sequence.ts:48-105 | every interleaving of store calls keeps the reservation invariant |
| Sequence.ReservationsAreDistinct | packages/stellar/src/sequence.ts:48-105 | in every interleaving of reservations all of them share one base and no two transaction sequences agree; what a reset adds is decided by `ClearingIsSafeIff` |
| Sequence.ReservationsFillTheRange | packages/stellar/src/sequence.ts:90-105 | with an absent offset key the n-th completed increment is base + n and belongs to the caller that holds it |
| Sequence.BaseIsLoaded | packages/stellar/src/sequence.ts:64-76 | a stored base never changes, and one that appears is a sequence that a load of this run brought from the chain |
| Sequence.NumbersFollowTheChain | packages/stellar/src/sequence.ts:90-105 | from an empty store the numbers handed out are n + 1, n + 2, ... for a loaded n |
| Sequence.OneLoadPerProcess | packages/stellar/src/sequence.ts:59-83 | in every reset-free interleaving no process has two loads running at once |
| Sequence.EveryCallerCanReserve | packages/stellar/src/sequence.ts:48-105 | in every state reached, a caller that has not failed nor waits for a failed load can still get its number: no failure of others sticks |
| Sequence.ClearingIsSafeIff | packages/stellar/src/sequence.ts:114-115 | in any state with base n, deleting the offset keeps all numbers distinct, for any later callers and interleavings, if and only if they are distinct so far, none is above n, and nobody in flight is bound to another base |
| Sequence.ResetIsSafeIff | packages/stellar/src/sequence.ts:107-122 | after any reset-free run with nobody in flight, a reset to n is safe if and only if no number above n was handed out |
| Sequence.ResetRaceCollides | packages/stellar/src/sequence.ts:107-122 | a number handed out above n, or a caller bound to another base, always leads to a number handed out twice |
| Sequence.PlainStoreIsSafeIff | packages/stellar/src/sequence.ts:64-84 | without `setIfAbsent` reservations are distinct in every run if and only if a non-empty base is stored from the start or there are fewer than two callers |
| Sequence.PlainSetCollides | packages/stellar/src/sequence.ts:64-84 | from every other start some run hands out one number twice |
| BatchSubmit.ChunkArray | packages/stellar/src/payout.ts:239-245 | chunks of 1 to `size` that concatenate to the input |
| Lists.Filter | packages/stellar/src/payout.ts:72-83 | keeps the valid recipients, in order |
| BatchSubmit.SequenceStore.SetIfAbsent | packages/stellar/src/sequence.ts:67-74 | stores the base only where none is |
| BatchSubmit.SequenceStore.Incr | packages/stellar/src/sequence.ts:95 | adds one to the offset, or fails on a text that is no integer |
| BatchSubmit.EnsureBase | packages/stellar/src/sequence.ts:48-84 | an existing base is never replaced; an absent one becomes the chain's sequence |
| BatchSubmit.ReserveSequence | packages/stellar/src/sequence.ts:90-105 | succeeds exactly on a readable store and leaves it expecting the next number; from a store in step it gives the chain's own sequence |
| BatchSubmit.ResetSequence | packages/stellar/src/sequence.ts:107-122 | brings the store into step with the chain, or changes nothing when the load fails |
| BatchSubmit.SubmitBatch | packages/stellar/src/payout.ts:90-163 | the retry loop: it goes on exactly while the chain answers "bad sequence" and retries are left; money moves exactly when success is reported; one reset heals any readable store, none is needed in step |
| BatchSubmit.ChunksAreRegular | packages/stellar/src/payout.ts:239-245 | chunk k starts at item 50 k, and only the last may be short |
| BatchSubmit.ValidRecipientIff | packages/stellar/src/payout.ts:219-237 | a recipient is kept exactly with an address and a text for a positive amount of up to seven places |
| BatchSubmit.SubmitAll | packages/stellar/src/payout.ts:87-170 | result k is about batch k, and a call that throws has fewer results than batches; the ledger grows by the successful ones; only the first batch may need a reset |
| BatchSubmit.SubmitBatchPayout | packages/stellar/src/payout.ts:51-171 | one result per batch of fifty and a last one, concatenating in order to the valid recipients for every outcome pattern (a prefix of them, short of the last batch, when the call throws); self-healing from any readable store and total failure from an unreadable one |
| Usdc.PrintThenParse | apps/api/src/lib/usdc.ts:3-19 | parsing a printed amount returns it for exactly the non-negative amounts |
| Usdc.ParseThenPrint | apps/api/src/lib/usdc.ts:3-19 | printing a parsed string gives its canonical seven-place form |
| Usdc.WebhookAgrees | apps/api/src/routes/webhooks.ts:18-21 | the webhook's digit-concatenating parser agrees on every accepted string |
| Usdc.PrintedIsValidIffPositive | packages/stellar/src/payout.ts:231-237 | a printed amount is valid for submission exactly from one stroop up |
| Usdc.AcceptsIff | apps/api/src/lib/usdc.ts:4-7 | accepted is exactly one or more digits, then nothing, or a dot and up to seven digits |
| Usdc.WorthInStroops | apps/api/src/lib/usdc.ts:9-11 | an amount with k decimal places, times 10^k, is the number without its dot times ten million |
| Usdc.ValidIff | packages/stellar/src/payout.ts:231-237 | a submitted amount is valid exactly when it spells a number above zero and ends in a digit |
| Scoring.RankingIsSortedPermutation | apps/api/src/services/scoring.ts:231-243 | the ranking is a permutation of the sessions in order of score, finish and id |
| Scoring.CutKeepsBest | apps/api/src/services/scoring.ts:242 | a cut to n keeps the first n of the ranking, and zero cuts nothing |
| Scoring.RankingIgnoresInputOrder | apps/api/src/services/scoring.ts:231-243 | two arrangements of the same sessions rank the same, cut or not |
| Scoring.ShareGrowsWithScore | apps/api/src/lib/usdc.ts:21-28 | a higher score never earns less |
| Scoring.RankedSharesAreFair | apps/api/src/services/payout.ts:197-219 | along the ranking shares never increase, and equal scores earn equal shares |
| Allocation.ComputeTierPoints | apps/api/src/services/payout.ts:172-176 | the map built by the loop holds the score sum of each tier |
| Allocation.ComputeAllotments | apps/api/src/services/payout.ts:164-228 | the loops build, in order, one allotment per user with shares and licence fee merged |
| WhoGetsWhat.WinnerGets | apps/api/src/services/payout.ts:164-228 | with distinct ids every winner receives the share that the inequalities of the rule leave room for, from its tier's pool or the whole, and the licensor the fee on top |
| WhoGetsWhat.RuleHasValues | apps/api/src/services/payout.ts:164-228 | those inequalities always have a solution |
| WhoGetsWhat.OthersGet | apps/api/src/services/payout.ts:221-228 | a licensor who did not win receives the fee, and anybody else nothing |
| WhoGetsWhat.PaidToOwnAddress | apps/api/src/services/payout.ts:214-228 | money goes to the licensor's address where a fee is due and else to the winner's own |
| Allocation.PoolIsSplit | apps/api/src/lib/usdc.ts:21-28 | floor shares never exceed the pool and miss it by less than one stroop per winner |
| Allocation.Conservation | apps/api/src/services/payout.ts:164-228 | untiered: shares and fee never exceed the gross pool and leave at most winners - 1 stroops, even when the licensor wins |
| Allocation.DustBoundIsTight | apps/api/src/lib/usdc.ts:21-28 | for every number of winners some pool leaves exactly that many stroops less one |
| Allocation.AllotmentsArePayable | apps/api/src/services/payout.ts:210-228 | one allotment per user, of at least one stroop, to a known address |
| Allocation.TiersAreSafeIff | apps/api/src/services/payout.ts:172-228 | every scoring of winners who all play in the listed tiers pays at most the gross pool, under every licence that leaves a pool, if and only if the effective pools of those tiers sum to at most the gross pool |
| MixedTiers.MixedTiersAreSafeIff | apps/api/src/services/payout.ts:197-208 | with winners without a tier beside the tiers, every scoring pays at most the gross pool if and only if the effective pools of the tiers played sum to at most one stroop |
| MixedTiers.CrowdTotal | apps/api/src/services/payout.ts:197-208 | a heavy winner without a tier draws all but one stroop of the gross pool on top of every effective pool |
| Allocation.PoolsAreDrawn | apps/api/src/services/payout.ts:197-208 | one winner in each tier draws every effective pool to the last stroop |
| Allocation.UnfundedTiersOverpay | apps/api/src/services/payout.ts:197-208 | two winners in two unfunded tiers are paid twice the gross pool |
| Settlement.PayoutBook.OpenRows | apps/api/src/services/payout.ts:230-281 | opens a row per allotment, skipping those already sent and those refused, in order |
| Settlement.PayoutBook.RecordResults | apps/api/src/services/payout.ts:384-415 | marks the rows found by address batch by batch and says whether any batch failed |
| Settlement.PayoutBook.ProcessPayout | apps/api/src/services/payout.ts:108-421 | the whole job: rows, ledger, refusals and status after it, or nothing unless the challenge has ended |
| Settlement.JobDecidesStatus | apps/api/src/services/payout.ts:417-421 | a job whose submission returned has failed if some record travelled in a failed batch of fifty, and is settled if none did; it is never left "ended" |
| Settlement.StatusStays | apps/api/src/services/payout.ts:364-379 | a job that is not due changes nothing, and one whose submission throws keeps its status |
| Settlement.OpenedRow | apps/api/src/db/queries/payouts.ts:35-43 | opening keeps every row but makes a failed or missing one of an allotment pending |
| Settlement.OpenedInOrder | apps/api/src/services/payout.ts:230-281 | the records are the allotments neither refused nor done, in their order |
| Settlement.RowAfterJob | apps/api/src/services/payout.ts:384-401 | with distinct addresses a record's row says sent or failed as its batch of fifty did, and no other row changes |
| Settlement.OnlyPendingFails | apps/api/src/db/queries/payouts.ts:75-87 | failing a challenge's payouts fails the pending ones and nothing else |
| Settlement.JobIsHonest | apps/api/src/services/payout.ts:384-421 | "settled" after a job means every allotment is paid or was refused |
| Settlement.NobodyPaidTwiceIff | apps/api/src/services/payout.ts:230-421 | over all runs of jobs and re-openings with all-or-nothing submissions nobody receives a second transfer if and only if addresses are distinct or everybody fits in one batch |
| Settlement.SharedAddressPaysTwice | apps/api/src/services/payout.ts:392-401 | with a shared address and a second batch, some such run pays the later of the two users twice |
| Settlement.BooksAreTrueIff | apps/api/src/services/payout.ts:384-421 | over all such runs whoever was paid is recorded and "settled" is honest if and only if addresses are distinct |
| Settlement.RecordedIsFinal | apps/api/src/services/payout.ts:260-270 | over any run at all, a user whose row says sent or confirmed receives nothing more |
| Settlement.NeverPaidAgainIffRecorded | apps/api/src/services/payout.ts:260-270 | no later run whatever pays a paid user again if and only if the row says sent or confirmed |
| Settlement.ThrownResultsAreLost | packages/stellar/src/payout.ts:142-153 | with more than fifty allotments, a submission that throws after its first batch leaves that batch paid and unrecorded |
| Settlement.ThrownBatchIsPaidTwice | apps/api/src/services/payout.ts:364-379 | with more than fifty allotments some run with such a submission pays a user twice |
| Settlement.NeverPaidTwiceIff | apps/api/src/services/payout.ts:230-421 | over all runs, submissions that throw included, nobody receives a second transfer if and only if everybody fits in one batch |
| Settlement.BooksAreAlwaysTrueIff | apps/api/src/services/payout.ts:384-421 | over all runs whoever was paid is recorded and "settled" is honest if and only if addresses are distinct and everybody fits in one batch |
| Settlement.AllRecordedIffDistinctAddresses | apps/api/src/services/payout.ts:392-401 | a fully paid job records every row if and only if addresses are distinct, and settles either way |
| DirectPayout.BuiltRecipientsAreValid | apps/api/src/services/payout.ts:272-273 | no recipient a payout run builds is filtered out before submission |
| DirectPayout.ChainPaysAllotted | apps/api/src/services/payout.ts:272-273 | each record is sent to its address with exactly its amount, so the chain pays the total allotted |
| DirectPayout.SubmissionIsFaithful | apps/api/src/services/payout.ts:381-415 | the flags per batch of fifty that settlement works with pick out exactly the transfers that the batches made, returned or thrown |
| DirectPayout.SettledIffAllPaid | apps/api/src/services/payout.ts:384-421 | the challenge is settled exactly when every open record was paid, and stays "ended" exactly when the submission threw |
| DirectPayout.SubmitRecords | apps/api/src/services/payout.ts:344-379 | the chain grows by exactly the records that the submission's flags say, from any store; all of them on a reliable chain and a readable store |
| DirectPayout.PayChallenge | apps/api/src/services/payout.ts:230-421 | chain and books move together, and on any chain "settled" means that all that was open is paid; on a reliable chain safe books stay safe, and one job settles the challenge whatever numbers the store held |
| CacheLock.OneHolderIff | apps/api/src/lib/cache.ts:24-35 | a run from the start never has two callers loading under the lock if and only if nobody asks for the lock while a holder's has run out |
| CacheLock.AtMostOneHolder | apps/api/src/lib/cache.ts:24-35 | in particular, when no holder outlives its lock at most one caller loads under it |
| CacheLock.NextTakeJoinsIffLate | apps/api/src/lib/cache.ts:86-126 | in every state such a run reaches, asking for a held lock, at first or while waiting, succeeds if and only if the holder's time is up |
| CacheLock.LateHolderIsJoined | apps/api/src/lib/cache.ts:27-35 | for every configuration a late holder is joined by a second one |
| CacheLock.ReturnsAreGenuine | apps/api/src/lib/cache.ts:15-52 | every value returned came from a loader call for the key, and a hit was written within the time to live |
| CacheLock.GetHitsIffFresh | apps/api/src/lib/cache.ts:16-20 | a first look ends with the entry's value exactly when it is younger than its time to live, and then nothing is loaded or locked |
| CacheLock.PollHitsIffFresh | apps/api/src/lib/cache.ts:41-45 | so does a waiter's look |
| CacheLock.HitWithinSeconds | apps/api/src/lib/cache.ts:30 | both functions keep an entry for `ttlSec` seconds |
| CacheLock.StoredIsFound | apps/api/src/lib/cache.ts:29-31 | what one caller stores the next one finds, until another store or the end of its time to live |
| CacheLock.ReleasedIsTaken | apps/api/src/lib/cache.ts:32-34 | after a release the next caller to ask gets the lock |
| CacheLock.WaiterTakesOverIff | apps/api/src/lib/cache.ts:113-118 | a waiter takes the lock over exactly when no live one is there |
| CacheLock.NoLockIsLeft | apps/api/src/lib/cache.ts:32-34 | unless a caller crashes, a lock in the store always belongs to somebody at work under it |
| CacheLock.EndsForAReason | apps/api/src/lib/cache.ts:27-51 | a value loaded came from the caller's own loader and was stored; a call fails only by its own loader or a crash |
| CacheLock.EveryCallCanEnd | apps/api/src/lib/cache.ts:15-52 | in every state each call can still end, and with a value unless its own loader failed or it crashed |
| CacheLock.CachedTakeJoinsIff | apps/api/src/lib/cache.ts:24-25 | `cached`: a held lock can be taken exactly after ten seconds |
| CacheLock.CoalescedTakeJoinsIff | apps/api/src/lib/cache.ts:86-117 | `withCoalescing`: a held lock can be taken exactly after `lockTtlSec` seconds |
| CacheLock.RoundsAreBounded | apps/api/src/lib/cache.ts:37-46 | a caller polls fewer than wait / poll times before its last sleep, however late timers fire |
| CacheLock.WaitingEnds | apps/api/src/lib/cache.ts:37-46 | if no round of the run takes longer than a bound, nobody waits that long past the deadline, and whoever waits has looked at the cache once per bound but for the first and current rounds |
| CacheLock.CachedWait | apps/api/src/lib/cache.ts:37-46 | `cached`: with rounds of at most 100 ms nobody waits 600 ms, and nobody sleeps after ten polls |
| CacheLock.CoalescedWait | apps/api/src/lib/cache.ts:100-128 | `withCoalescing`: nobody waits longer than the life of a lock and one round |
| DepositCursor.DepositMonitor.Poll | apps/deposit-monitor/src/index.ts:86-140 | one poll, with RPC, webhook and store failures, changes cursor and acknowledgements as specified |
| DepositCursor.FirstPoll | apps/deposit-monitor/src/index.ts:101-108 | the first poll sets the cursor to the latest ledger and acknowledges nothing |
| DepositCursor.RefusalStops | apps/deposit-monitor/src/index.ts:110-125 | the deposits before a refused one are acknowledged, it and those after it are not, and the cursor stays |
| DepositCursor.CursorMovesIff | apps/deposit-monitor/src/index.ts:127-131 | the cursor moves, to the latest ledger, exactly when that is ahead, nothing fetched was refused and the save went through |
| DepositCursor.PageIsTwoHundred | packages/stellar/src/deposit.ts:53-131 | without refusals and failed lookups the first two hundred deposits of the range are acknowledged |
| DepositCursor.OnlyDepositsAreAcked | apps/deposit-monitor/src/index.ts:110-116 | nothing is acknowledged but deposits at or above the cursor whose lookup succeeded |
| DepositCursor.CursorNeverDecreases | apps/deposit-monitor/src/index.ts:127-131 | over any polls the persisted cursor never goes back and no acknowledgement is lost |
| DepositCursor.CursorSafety | apps/deposit-monitor/src/index.ts:86-140 | if each fetch returns what is new to the monitor, every deposit between the first and the current cursor was acknowledged |
| DepositCursor.LeftBehindForever | apps/deposit-monitor/src/index.ts:95-99 | a deposit below the cursor that was missed is never acknowledged later |
| DepositCursor.NoneLostIff | apps/deposit-monitor/src/index.ts:86-140 | over any run every deposit from the start to below the cursor is acknowledged if and only if each poll that moved the cursor had all it passed on its page and found by its lookups |
| DepositCursor.IncompletePollLoses | packages/stellar/src/deposit.ts:53-131 | a poll that moves the cursor and spares such a deposit loses it, whatever later polls do |
| DepositCursor.FailedLookupLoses | packages/stellar/src/deposit.ts:53-131 | one failed lookup at the cursor's own ledger loses that deposit |
| DepositCursor.AllAckedIffComplete | packages/stellar/src/deposit.ts:53-131 | a poll that moves the cursor has acknowledged at once everything above the old cursor up to the new one if and only if each new deposit was on the page and its lookup succeeded |
| KeysetPaging.PageFacts | apps/api/src/db/queries/challenge-comments.ts:16-39 | a page is the front of what lies ahead of the cursor, and its cursor is its last row exactly when more lies ahead |
| KeysetPaging.ClauseIsRowComparison | apps/api/src/db/pagination.ts:78-88 | the expanded OR predicate is the row comparison, in either direction |
| KeysetPaging.OnPageOrAfter | apps/api/src/db/queries/challenge-comments.ts:33-38 | a row ahead is on the page or after its cursor |
| KeysetPaging.AheadShrinks | apps/api/src/db/queries/challenge-comments.ts:33-38 | what lies after a page is the rest of what lay before it |
| KeysetPaging.ShownInOrder | apps/api/src/db/queries/challenge-comments.ts:16-39 | pages read while the table changes show rows newest first, none twice |
| KeysetPaging.LastingRowIsShown | apps/api/src/db/queries/challenge-comments.ts:16-39 | a row present throughout is shown, whatever else is inserted or deleted between pages |
| KeysetPaging.FollowCursors | apps/api/src/db/queries/challenge-comments.ts:16-39 | following the cursors shows every row of a fixed table once, in order, and ends |
| Questions.Shuffle | apps/api/src/services/questions.ts:153-160 | the in-place loop is the swaps of its draws and permutes the items |
| Questions.DrawsAreUnique | apps/api/src/services/questions.ts:153-160 | different draws give different arrangements of distinct items |
| Questions.DrawsExist | apps/api/src/services/questions.ts:153-160 | every arrangement that agrees above a position comes from draws below it |
| Questions.ShuffleIsBijective | apps/api/src/services/questions.ts:153-160 | each permutation of distinct items arises from exactly one vector of draws |
| Questions.PickDistractors | apps/api/src/services/questions.ts:139-151 | three distractors: entries of the pool other than the answer, none more often than it is there, then the labels of the places left over; the answer is among them exactly when a label spells it |
| Questions.MakeQuestion | apps/api/src/services/questions.ts:37-57 | the options are the answer and three such picks; the correct letter names the answer, and it is right exactly once unless a label spells it |
| Questions.AskMaterial | apps/api/src/services/questions.ts:33-109 | at most three good questions, with the rounds the brand's material calls for, the tagline asked first if there is one and the name otherwise |
| Questions.GenerateChallengeQuestions | apps/api/src/services/questions.ts:25-137 | for every draw exactly three questions, each with four options and a correct letter that names its answer: the tagline in the first if there is one, the name otherwise, with wrong options from the pool of its kind |
| Questions.RoundsAreInOrderIff | apps/api/src/services/questions.ts:111-113 | the rounds are 1, 2, 3, and are distinct, exactly when no later material is there without the earlier |
| Questions.PreviewQuestions | apps/api/src/services/questions.ts:180-200 | the preview cycles through three generated rounds, and its index always points at the answer, the brand's name or tagline |
| ClientIp.ExpandGroups | apps/api/src/middleware/rate-limit.ts:51-54 | a side of the gap, split at its colons, flattened and normalised, gives the hextets of its groups |
| ClientIp.EverySpellingExpands | apps/api/src/middleware/rate-limit.ts:46-64 | every legal spelling, in any case, with any gap, dotted tail and zone, expands to the eight hextets it means |
| ClientIp.KeyOfHeader | apps/api/src/middleware/rate-limit.ts:66-87 | blanks, brackets, port, zone and further hops do not matter: the key is a function of the IPv4 or IPv6 text |
| ClientIp.DottedIsMapped | apps/api/src/middleware/rate-limit.ts:78-79 | what the mapped pattern catches is an IPv4-mapped address, and the key is its dotted quad |
| ClientIp.DottedIff | apps/api/src/middleware/rate-limit.ts:78-79 | the pattern catches exactly `::ffff:` in any case and a dotted quad |
| ClientIp.KeysAgreeIff | apps/api/src/middleware/rate-limit.ts:66-87 | for any two headers that carry an IPv4 or IPv6 address, keys agree if and only if both are known by the same IPv4 address, plain or `::ffff:` dotted, or neither is and the top 64 bits agree |
| ClientIp.SameNetworkSameKey | apps/api/src/middleware/rate-limit.ts:83-86 | IPv6 addresses that are not IPv4-mapped have equal keys exactly when their top 64 bits agree |
| ClientIp.MappedSpellingsDiffer | apps/api/src/middleware/rate-limit.ts:78-86 | every IPv4-mapped address has two spellings with different keys |
| ClientIp.NormalizeIsIdempotent | apps/api/src/middleware/rate-limit.ts:66-87 | a key is its own key, for every input |
| ClientIp.NoAddressIsAnonymous | apps/api/src/middleware/rate-limit.ts:67-81 | a missing header, or a blank first hop, has the key "anonymous" |
| ClientIp.ForeignTextIsKey | apps/api/src/middleware/rate-limit.ts:81 | a first hop that is no address is its own key |
| Streaks.User.UpdateStreak | apps/api/src/services/streaks.ts:37-66 | the stored streak, day and repair flag after a play |
| Streaks.DayIs | apps/api/src/services/streaks.ts:144-157 | days are the UTC days of 24 hours |
| Streaks.RepairFromThree | apps/api/src/services/streaks.ts:50-55 | over any plays, repair is on offer exactly from a streak of three on |
| Streaks.StreakIsTheRun | apps/api/src/services/streaks.ts:37-66 | on a clock that never goes back the streak is the length of the maximal run of played days ending at the last |
| Streaks.StreakStep | apps/api/src/services/streaks.ts:41-55 | one more play on any day keeps the streak right exactly when the day is not earlier or its eve was not played |
| Streaks.NextUpdateIsRightIff | apps/api/src/services/streaks.ts:41-55 | after any history on a forward clock the next update is right under exactly that condition |

## Left out

- The escrow branch of `processPayout`: its try block also covers bookkeeping and falls through
  to the direct path, so at-most-once is not decided there; Soroban, Horizon, XDR and signing.
- Submissions that fail in doubt: a batch either reached the ledger or did not when its call
  returns, and transport retries below `submitBatchPayout` are not modelled.
- Settlement.PayoutBook.ProcessPayout: one job at a time for a challenge; `createPayout` returns
  the existing row and does not fail otherwise; allocations stay the same between jobs.
- Bookkeeping that fails: `updatePayoutStatus` or a later call throwing after a paid batch. A row
  left open that way is paid again, by `NeverPaidAgainIffRecorded`.
- Settlement.NobodyPaidTwiceIff: over runs with all-or-nothing submissions; `NeverPaidTwiceIff`
  decides it over all runs.
- BatchSubmit.SubmitBatchPayout: only with a sequence store; the memo, the fee bump and the pause
  between batches are not modelled, and a negative retry count is not.
- Sequence.ReservationsAreDistinct: reservations only; `ClearingIsSafeIff` says which resets keep it.
- Allocation.ComputeAllotments: a winner's tier is an input. The source drops `tier_id` when it
  maps sessions (apps/api/src/services/payout.ts:146-153), so its tier branch is reached only
  once that is kept. Team splitting comes after allocation and is not modelled.
- WsFrame.EncodeWsFrame: works on the serialised payload bytes; JSON serialisation, UTF-8 and the
  payloads of close and pong frames are not modelled.
- DepositCursor.CursorSafety: fetches return what is new; `NoneLostIff` decides it for any fetches.
- KeysetPaging.FollowCursors: the table is fixed; `ShownInOrder` and `LastingRowIsShown` cover a
  changing one. The text encoding of cursors and `buildCursorWhere` are not modelled.
  A page holds at least one row, as apps/api/src/routes/challenge-comments.ts:22 demands.
- Streaks.StreakIsTheRun: no streak repair in between; milestones and notifications are left out.
- Round scores and the speed bonus: floating-point rounding decides them.
- The bounded chat history, rooms, broadcasting, metrics and log lines: only easy members.
- `getApiRateLimit` and its cached setting; the choice between user id and address as a key.
