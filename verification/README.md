# The web-novel platform, verified

A model in Dafny of the parts of the platform whose correctness cannot be seen
from one function: the coin economy, the bundle arithmetic, the glossary
rendering and its cache, the rate limiters, refresh-token rotation with its
client, and the ordering and calendar code. `dafny verify dfyconfig.toml`
checks all of it.

**Coins.** Every movement of coins is a command applied by one write path.
`Spend` holds the planners and `Bundle` the discount arithmetic; `Store`
specifies the write path as a function on the tables and `WalletDb` is the
imperative path, statement by statement, proved equal to it. What every run
keeps is in `LedgerTotals` (the nightly reconciliation), `Conservation` and
`ExactlyOnce` (each debit accounted for, nothing paid or credited twice) and
`Earnings` (what writers get is part of what readers pay). `Postings` says what
an applied command means without its planner, and `Answers` which commands are
applied and with which error the others are refused. `Service` builds the
commands from possibly stale reads; `UseCases` says on the rows of the tables
what each use case offers and changes, `Purchases` what a completed purchase is
worth, and `Requests` proves both over every run in which the commands come from
the use cases: nobody buys early, and each purchase brings its pack.
`StaleReads` says what a caller can rely on meanwhile; `LazyExpiry` relates runs
with and without the nightly write-off and `ExpiryLoop` says when that job ends;
`Locks` shows that the lock order excludes deadlock, and `AutoUnlock` bounds the
automatic fan-out, tightly so by `AutoUnlockLimits`, with `AutoUnlockOutcomes`
for what each pair comes to. One `Apply` is one atomic step per wallet; a price
or a quote read outside the lock is an earlier step with its own state.

**Glossary.** `Render` gives the recursive meaning of a source text and proves
the scanning loop against it; `Markers` reads the output back as HTML, without
the renderer. `Rerender` is the versioned cache with publishers, editors and the
job interleaved statement by statement, `RenderTraces` traces each written body
back to what was read for it, and `Backlog` shows that the job catches up.

**Limits.** `TokenBucket` uses reals for the floating-point token counts,
`DistinctCounter` is exact. Both end in a rule that names no bucket and no
memory. Clock readings are non-decreasing in lock order.

**Sessions.** `Sessions` is the token table with each transaction one step and
family ids never drawn twice; `SessionLifetimes` tells a presentation row by row
and ends a session with its expiry; `SessionOverlap` takes rotation and
revocation one statement at a time under READ COMMITTED, where they can overlap,
and `RefreshClient` joins one browser tab to the table, and `SignOuts` lets the
two halves of its sign-out meet its refreshes in any order.

**Order and time.** `Reorder`, `Calendar`, `Schedules` and `LedgerPages`.

Several properties the code's comments suggest hold only on a condition. Each is
stated with its exact condition and with an input or a run that breaks it:

| property | condition | input |
|---|---|---|
| the allocation's documented postconditions | `DocumentedPostconditionsHoldIff` | `OversizedTotalBreaksThePriceCap` |
| the token bucket's retry time suffices | `WaitIsEnoughIff` | `ReturnedWaitCanBeTooShort` |
| the distinct counter's retry time suffices | `WaitIsOneTickShort` | `ReturnedWaitIsRefused` |
| a credited bonus is usable at once | `BonusIsUsableIff` | `CreditSeesALapsedBonus` |
| a single unlock charges the price at commit | `PriceIsGuaranteedIff` | `StalePriceIsCharged` |
| an automatic unlock keeps the subscriber's cap | `CapIsKeptIff` | `CapCanBeExceeded` |
| a bundle retry is answered for the arc asked for | `BundleRetryIgnoresTheArc` | `WrongArcIsAcknowledged` |
| corrections see a lapsed bonus as gone | `AdjustAgreesIff` | `AdjustSeesALapsedBonus` |
| credits do, with any lifetime the configuration accepts | `CreditAgreesIff` | `CreditSeesALapsedBonus` |
| the attempt limit | `LimitHoldsIff` | `OverlappingRunsReachTheBound` |
| a closed pair is not tried again | `NeverTriedAgainIff` | `OwnedPairIsTried` |
| a publish stays shown | `PublishIsKeptIff` | `PublishCanBeLost` |
| the order of the term query does not matter | `TextIgnoresOrderIff`, `EntriesIgnoreOrderIff` | `SharedKeysMakeOrderMatter`, `SharedKeysBindEither` |
| a token is presented once | `PresentedTwiceIff` | `LostResponseRepeatsTheToken` |
| a tab left alone is not taken for a thief | `TakenForTheftIff`, `SignOutIsSafeIff` | `SignOutOvertakesARefresh`, `GrantOutlivesTheSignOut`, `RefreshWhileLeaving` |
| a revoked family has no live token | `RevocationMissesIff`, `RevocationIsSureIff` | `TheftCanOutliveItsDetection` |
| both passes of a renumbering go through | `RenumberingIsSafeIff` | `OppositePositionsClash`, `NegativePositionClashes`, `LateMemberClashes` |
| the nightly write-off ends | `LoopEndsIff` | `OneStuckWallet` |

## Model

| member | source | states |
|---|---|---|
| Coins.NetCoins | backend/internal/domain/wallet/wallet.go:242-251 | the translator's share of a gross amount stays between zero and the gross and is the exact split rounded up: the platform's cut is what is rounded down |
| Spend.PlanSpend | backend/internal/domain/wallet/spend.go:24-92 | a debit succeeds exactly when the amount is positive and purchased coins plus unlapsed bonus cover it; it moves exactly that amount, bonus first, and writes a lapsed bonus off in its own row before the main row |
| Spend.PlanSpendPaidOnly | backend/internal/domain/wallet/spend.go:94-146 | a tip succeeds exactly when purchased coins alone cover it, never touches a live bonus, and writes a lapsed one off first |
| Spend.PlanCredit | backend/internal/domain/wallet/spend.go:148-204 | a credit needs non-negative parts with a positive sum, adds exactly them, writes a lapsed bonus off first, and sets the deadline: the lifetime from now when it brings a bonus and a lifetime, else the old one |
| Spend.PlanAdjust | backend/internal/domain/wallet/spend.go:206-243 | a correction succeeds exactly when it is not empty and leaves neither stored balance negative, and moves exactly what it says |
| Spend.PlanBonusExpiry | backend/internal/domain/wallet/spend.go:245-272 | the nightly write-off exists exactly for a lapsed, non-empty bonus; it removes the whole bonus and its deadline and nothing else |
| Spend.SpendKeepsTheDeadline | backend/internal/domain/wallet/spend.go:24-92 | what a purchase leaves of a bonus stays usable exactly as long as before, at every later time |
| Spend.TipLeavesTheBonus | backend/internal/domain/wallet/spend.go:94-146 | the bonus usable at any later time is the same with and without a tip |
| Spend.CreditRenewsTheDeadline | backend/internal/domain/wallet/spend.go:148-204 | with a bonus and a lifetime, the old and the new bonus are usable until the lifetime from now is over, and nothing from then on, whatever deadline the old one had |
| Spend.CreditKeepsTheDeadline | backend/internal/domain/wallet/spend.go:148-204 | without a bonus the old one is usable as before; without a lifetime the new one shares its deadline |
| Postings.AppliedMoves | backend/internal/repository/wallet/apply.go:35-144 | the same through the whole write path, for every kind of operation: the coins moved, the bonus usable at every later time, nobody else's wallet, and the balance on the receipt |
| Postings.AppliedRecords | backend/internal/repository/wallet/apply.go:67-144 | an applied command leaves a write-off row exactly when a lapsed bonus stood in the way, and one row that records it in full: who, what for, why, by whom, when, and both changes and balances |
| Bundle.AllocateIsLargestRemainder | backend/internal/domain/wallet/bundle.go:80-124 | for non-negative weights and a total between 0 and their sum, the shares are quotas rounded down or up, add up to the total, and whoever is rounded up comes before whoever is not in (remainder, index) order |
| Bundle.LargestRemainderIsUnique | backend/internal/domain/wallet/bundle.go:80-124 | that law has only one solution, so it determines the shares |
| Bundle.BestExists | backend/internal/domain/wallet/bundle.go:107-119 | while coins are left to hand out the scan finds a position, and it is the first in rank order: the `best < 0` exit is dead code |
| Bundle.SharesFitThePrices | backend/internal/domain/wallet/bundle.go:73-79 | the shares sum to exactly the total and each is between zero and its list price |
| Bundle.DearerChaptersGetMore | backend/internal/domain/wallet/bundle.go:80-124 | a dearer chapter never gets the smaller share; between equal prices the earlier one is favoured |
| Bundle.DocumentedPostconditionsHoldIff | backend/internal/domain/wallet/bundle.go:73-79 | the two postconditions in the code's comment hold if and only if the total is between zero and the sum of the weights |
| Bundle.OversizedTotalBreaksThePriceCap | backend/internal/domain/wallet/bundle.go:80-124 | an input outside that range for which the price cap fails |
| Bundle.QuoteIsExact | backend/internal/domain/wallet/bundle.go:38-71 | a quote is the exact discounted price rounded up to a coin, split without loss and without exceeding any list price, and positive below a full discount |
| Bundle.QuoteIsRefusedIff | backend/internal/domain/wallet/bundle.go:38-71 | which lists of prices are refused, each with its error, and that all others are quoted |
| Bundle.AllocateProportional | backend/internal/domain/wallet/bundle.go:80-124 | the nested loop over mutable arrays computes the specified shares for any input |
| Bundle.FindBest | backend/internal/domain/wallet/bundle.go:108-116 | the inner scan finds the specified position, the first with the largest remainder that still has room |
| Bundle.FloorInto | backend/internal/domain/wallet/bundle.go:94-103 | the floor pass fills both arrays with the specified floors and remainders and returns the sum of the floors |
| Bundle.HandOutInto | backend/internal/domain/wallet/bundle.go:105-122 | the hand-out loop with its early exit leaves the specified shares |
| Bundle.QuoteBundle | backend/internal/domain/wallet/bundle.go:38-71 | the imperative quote returns the specified quote or error |
| WalletDb.Database.Apply | backend/internal/repository/wallet/apply.go:35-144 | the write path as a transaction on mutable tables equals the specified outcome: new state and receipt, or an error with every table rolled back |
| WalletDb.Database.CheckBundle | backend/internal/repository/wallet/apply.go:273-315 | the loops of the bundle re-check decide exactly: no items, an owned chapter, a missing row, or an item no longer published at its quoted price |
| WalletDb.Database.CheckChildPreconditions | backend/internal/repository/wallet/apply.go:241-321 | the preconditions of every child kind, in the code's order and with its errors |
| WalletDb.Database.AllocatedCoins | backend/internal/repository/wallet/apply.go:119-126 | the loop adds up exactly the coins of the items, which are then compared with the debit |
| WalletDb.Database.PostPlan | backend/internal/repository/wallet/apply.go:67-113 | ledger rows and balance are written expiry row first, and the unique index on (user, key) cannot object at that point |
| WalletDb.Database.WriteBundle | backend/internal/repository/wallet/apply.go:399-436 | the accumulating loop writes one unlock per item and one earning per item with a translator |
| WalletDb.Database.WriteChildRows | backend/internal/repository/wallet/apply.go:351-457 | every child kind writes exactly its specified rows, or reports its specified error |
| WalletDb.Database.Fail | backend/internal/repository/wallet/repository.go:177-198 | a purchase fails only if it is the caller's and pending |
| LedgerTotals.ApplyReconciles | backend/internal/jobs/jobs.go:408-422 | one coin operation of any kind, shaped by the service or not, keeps the reconciliation invariant |
| LedgerTotals.EveryRunReconciles | backend/internal/jobs/jobs.go:402-422 | after every run over any users and kinds: each wallet equals the sums of its ledger deltas, every row's recorded balances equal the sums up to it (the expiry row included), nothing is negative, an empty bonus has no deadline |
| LedgerTotals.LedgerOnlyGrows | backend/internal/repository/wallet/apply.go:67-113 | every run leaves the earlier ledger as a prefix of the later one |
| Conservation.UnlockBackstopIsDead | backend/internal/repository/wallet/apply.go:361-366 | once the checks have passed under the wallet lock no unlock insert violates the primary key, for any command over any state, so the two handlers of that violation are unreachable |
| ExactlyOnce.KeysStayUnique | backend/internal/repository/wallet/apply.go:86-101 | after every run of any commands, no two keyed rows of a user share their key: the look-up under the wallet lock keeps the unique index, so the handler of its violation is unreachable |
| Conservation.BundleItemsDistinct | backend/internal/repository/wallet/apply.go:287-315 | comparing row count with id count is enough to rule out a chapter listed twice |
| Conservation.CoinsForItems | backend/internal/repository/wallet/apply.go:403-410 | the 16-bit narrowing of shares loses no coin when each share is at most a stored price |
| Conservation.AppendsConserves | backend/internal/repository/wallet/apply.go:351-457 | one posted command of the service keeps: every unlock debit equals the coins on the unlock rows naming it, every tip debit equals its earning's gross, every child row is explained by a debit |
| ExactlyOnce.EveryRunConserves | backend/internal/service/wallet/service.go:74-296 | the same over every interleaving of the service's commands, purchases and catalogue edits, together with one credit per completed purchase |
| ExactlyOnce.SingleDebitPaysForItsChapter | backend/internal/repository/wallet/apply.go:351-377 | a single-chapter debit pays for the chapter it refers to and for no other |
| ExactlyOnce.PaidAtMostOnce | backend/internal/service/wallet/service.go:116-145 | in any interleaving of unlocks, bundles, automatic unlocks and retries, at most one ledger row pays for a given reader and chapter |
| ExactlyOnce.RunAdvancesPurchases | backend/internal/repository/wallet/repository.go:123-198 | a purchase never changes owner, pack or key, never leaves a final status, and is never removed |
| ExactlyOnce.PurchaseCreditedAtMostOnce | backend/internal/service/wallet/service.go:74-114 | a purchase is credited at most once, never once it has failed, and a credit given stays the only one; with how much is in the rows of `Purchases` and `Requests` |
| Purchases.CompletionCreditsThePack | backend/internal/service/wallet/service.go:74-109 | a completion built in any earlier state and applied now: the paid coins rise by the pack's coins, the bonus usable at every later time is the pack's with its lifetime, the pack being the one the purchase's row names in the catalogue that was read, and nobody else's wallet changes |
| Purchases.BonusIsUsableIff | backend/internal/domain/wallet/spend.go:148-204 | the usable bonus rises at once by exactly the pack's bonus coins if and only if there are none, the lifetime is positive, or no lapsed bonus is on the books |
| Purchases.BonusOutlivesTheOldDeadline | backend/internal/domain/wallet/spend.go:177-184 | twenty bonus coins bought at 5 for ninety ticks, on top of ten that lapse at 6: thirty until 95 |
| Requests.PurchasesBringTheirPacks | backend/internal/service/wallet/service.go:74-109 | over every run in which each command is built by a use case from some earlier moment: the ledger rows that credit a purchase sum to its pack as some moment listed it when it has succeeded, to nothing otherwise, and are its owner's |
| Requests.FixedPacksAreBrought | backend/internal/service/wallet/service.go:74-109 | with packs that are never edited, to exactly the pack's coins and bonus coins |
| Answers.CompletionIsAnswered | backend/internal/repository/wallet/apply.go:254-271 | a completion with a new key goes through if and only if its purchase is there, the caller's, pending and worth something, and each other case has its error and changes nothing |
| Answers.OpeningIsExact | backend/internal/repository/wallet/repository.go:123-162 | opening a purchase appends one pending row with what was asked for, or finds the one its key names |
| Earnings.EveryRunIsFair | backend/internal/repository/wallet/apply.go:351-457 | over every run of the service, no two earnings are for one ledger row and chapter, each net amount is between zero and its gross, and the gross amounts naming a row come to at most what it took from the reader |
| Earnings.WritersGetAtMostWhatReadersPay | backend/internal/repository/wallet/apply.go:351-457 | so what writers receive for a ledger row never exceeds what the reader paid, and a row that is neither a purchase of chapters nor a tip earns nobody anything |
| Earnings.CreditedAtMostOnce | backend/internal/repository/wallet/apply.go:351-457 | an unlocked chapter is credited to a writer at most once |
| Earnings.UseCasesAreFair | backend/internal/service/wallet/service.go:116-296 | the writers' shares in every single unlock, automatic unlock and tip are part of its price, whatever the platform's fee |
| Earnings.BundlesAreFair | backend/internal/service/wallet/service.go:189-206 | so are those of every bundle quoted in any state |
| ExactlyOnce.RetryIsReplay | backend/internal/repository/wallet/apply.go:184-231 | re-sending an applied key after any run returns the stored row and changes nothing for the same target, and is refused without effect for another |
| ExactlyOnce.ReopeningIsReplay | backend/internal/repository/wallet/repository.go:123-162 | opening a purchase again under its key, after any run, returns the same row |
| Service.NamespacedKeysNeverCollide | backend/internal/service/wallet/service.go:480-485 | two operations never share a stored key: equal namespaced keys mean equal operation and equal client key |
| Service.DerivedKeysNeverCollide | backend/internal/service/wallet/service.go:408-442 | the keys of automatic unlocks and write-offs keep apart what they are derived from: equal keys mean the same user and chapter, or user and date |
| Service.QuoteArcBundle | backend/internal/service/wallet/service.go:148-218 | the quoting use case with its loops returns the specified quote or error |
| Service.SelectWanted | backend/internal/service/wallet/service.go:166-187 | the selection loop keeps exactly the priced, published, unowned chapters the reader may buy now |
| Service.MakeItems | backend/internal/service/wallet/service.go:194-206 | the loop makes one item per chapter with its share, the translator credited unless the reader is the translator |
| Service.HasEarlyChapters | backend/internal/service/wallet/service.go:314-323 | the loop reports an early chapter exactly when there is one |
| Service.QuotedItemsFit | backend/internal/service/wallet/service.go:189-206 | a quote's items cost exactly what the quote charges, each within its stored 16-bit price |
| Service.UseCasesAreServiceShaped | backend/internal/service/wallet/service.go:74-296 | every command a use case builds, from any state it may have read, has the shape the accounts rely on; what each use case offers and changes is in the rows of `UseCases` |
| Service.BundlesAreServiceShaped | backend/internal/service/wallet/service.go:220-251 | so does every bundle command, whenever it was quoted |
| UseCases.UnlockIsOfferedIff | backend/internal/service/wallet/service.go:116-145 | a chapter is sold by hand if and only if it is published in an existing novel at a price and public by now or its novel is one the signed-in reader subscribes to; otherwise the error is the first that applies |
| UseCases.EarlyAccessIsReserved | backend/internal/service/wallet/service.go:298-312 | public at 100 and asked for at 50: refused to a reader without a subscription, sold to a subscriber, and sold to both at 100 |
| UseCases.AutoUnlockIsOfferedIff | backend/internal/service/wallet/service.go:408-430 | the fan-out buys any published, priced chapter, inside the window too |
| UseCases.TipIsOfferedIff | backend/internal/service/wallet/service.go:258-296 | a tip is offered if and only if it is between one and a thousand coins, for a published chapter of a novel that takes tips, whose writer is known and is not the tipper; each other case has its error |
| UseCases.ArcIsQuotedIff | backend/internal/service/wallet/service.go:148-192 | an arc is quoted if and only if it is known, sold as a whole, and holds a chapter the reader still needs and may buy; each other case has its error |
| UseCases.ArcQuoteIsExact | backend/internal/service/wallet/service.go:148-218 | a quote holds exactly the arc's published, priced, unowned chapters that are public or subscribed to, each once and in order, at fifteen percent off rounded up to a whole coin, with the writer to credit and the writer's part |
| UseCases.UnlockSells | backend/internal/service/wallet/service.go:116-145 | an accepted unlock, built from any catalogue: usable coins fall by the price read, one unlock row and, unless the buyer wrote it or nobody did, one earning of the writer are added |
| UseCases.AutoUnlockSells | backend/internal/service/wallet/service.go:408-430 | so does an automatic one |
| UseCases.TipPays | backend/internal/service/wallet/service.go:258-296 | an accepted tip takes purchased coins only, leaves the bonus usable at any later time, unlocks nothing, and credits the chapter's writer |
| UseCases.AdjustCorrects | backend/internal/service/wallet/service.go:348-362 | an accepted correction moves both sides by what was entered, in one row with actor and reason |
| UseCases.ExpireWritesOff | backend/internal/service/wallet/service.go:434-442 | a write-off under a new key takes the whole bonus if it has lapsed and is refused without effect otherwise |
| UseCases.BundleSells | backend/internal/service/wallet/service.go:220-251 | a bundle quoted in any earlier state and accepted: usable coins fall by the quoted total, every item is unlocked for its share, and exactly the items with a writer to credit earn, once each |
| UseCases.CommandsAreFiled | backend/internal/service/wallet/service.go:74-362 | every use case files its command under the caller, the client's key with the endpoint's name before it or none, and what it is for |
| Requests.EarlyAccessIsKept | backend/internal/service/wallet/service.go:298-312 | over every run of the use cases, the catalogue edited at any time: every chapter bought was published at a price when it was read, and one bought by hand or in a bundle was public by its unlock or its reader subscribed |
| Requests.NothingIsBoughtEarly | backend/internal/service/wallet/service.go:298-312 | while chapters and subscriptions stay as they are, a reader without a subscription never buys a chapter before it is public |
| Answers.UnlockIsAnswered | backend/internal/repository/wallet/apply.go:241-253 | a single unlock with a new key is refused if it is owned, else if the wallet does not cover it, and goes through otherwise |
| Answers.BundleIsAnswered | backend/internal/repository/wallet/apply.go:273-315 | a bundle with a new key is stale if and only if one item is repeated, gone, unpublished, repriced or owned; else it is refused only for want of coins |
| Service.StaleQuotesAreNeverHonoured | backend/internal/service/wallet/service.go:148-251 | a bundle quoted in any earlier state is accepted only if every item is published, unowned, listed once and at its quoted price in the commit state, and the debit is what a fresh quote over the same chapters charges |
| StaleReads.SpendGoesThroughIff | backend/internal/repository/wallet/apply.go:35-144 | a new spend goes through if and only if its key is new, its checks pass and the wallet covers it: no later stage of the write path can refuse it |
| StaleReads.PriceIsGuaranteedIff | backend/internal/service/wallet/service.go:116-145 | a single unlock has no such check: whatever catalogues are possible at commit, it charges the commit price in all states with one of them if and only if each that lists the chapter keeps the price that was read |
| StaleReads.StalePriceIsCharged | backend/internal/service/wallet/service.go:116-145 | read at five coins and raised to seven before the lock, a chapter costs five |
| StaleReads.CapIsKeptIff | backend/internal/jobs/autounlock.go:97-136 | whatever catalogues are possible at the debit, a claimed candidate within its cap never costs more than the cap if and only if none of them sells the chapter above it |
| StaleReads.CapCanBeExceeded | backend/internal/jobs/autounlock.go:97-136 | claimed at two coins under a cap of three, a chapter raised to five costs five |
| Service.BundleRetryIgnoresTheArc | backend/internal/service/wallet/service.go:220-232 | a bundle retry is recognised by key alone: the receipt is for the arc asked for if and only if the key was first used for that arc, and the write path would refuse exactly the other case |
| StaleReads.WrongArcIsAcknowledged | backend/internal/service/wallet/service.go:220-232 | a key first used for arc 1 and sent again for arc 2 is answered with the receipt of arc 1 |
| LazyExpiry.AgreementIsVisible | backend/internal/domain/wallet/wallet.go:70-77 | related wallets show the same balance and usable bonus at every later time |
| LazyExpiry.PlansAgree | backend/internal/domain/wallet/spend.go:24-204 | a wallet whose lapsed bonus is still stored and one where it was written off accept and refuse the same spends, tips and top-ups and end up equal |
| LazyExpiry.CommandAgrees | backend/internal/repository/wallet/apply.go:35-144 | the same through the whole write path: the same failure, or the same ledger row but for its number, the same coins and the same usable bonus; and related stores |
| LazyExpiry.NightlyIsInvisible | backend/internal/jobs/jobs.go:61-88 | a nightly write-off on one side only keeps the stores related |
| LazyExpiry.RunsAgree | backend/internal/jobs/jobs.go:53-91 | simulation over whole runs: inserting write-offs anywhere keeps the two stores related at every moment |
| LazyExpiry.LazyAndEagerExpiryAgree | backend/internal/domain/wallet/spend.go:24-272 | lazy and eager expiry agree: after any such run the next command is answered alike and every wallet shows the same balance and usable bonus at every later time |
| LazyExpiry.AdjustAgreesIff | backend/internal/domain/wallet/spend.go:206-243 | an administrative correction reads the stored bonus: the two sides agree if and only if it leaves the bonus alone, fails on the paid side, or takes more bonus than was stored |
| LazyExpiry.AdjustSeesALapsedBonus | backend/internal/domain/wallet/spend.go:206-243 | a correction that succeeds before the nightly write-off and fails after it |
| LazyExpiry.CreditAgreesIff | backend/internal/domain/wallet/spend.go:148-204 | a top-up keeps the two sides alike if and only if it brings no bonus or the bonus lifetime is positive |
| LazyExpiry.CreditSeesALapsedBonus | backend/internal/domain/wallet/spend.go:148-204 | a bonus without a lifetime that is gone at once before the nightly write-off and kept after it |
| ExpiryLoop.LoopEndsIff | backend/internal/jobs/jobs.go:61-88 | the number of full batches the job can go through is bounded if and only if fewer wallets than a batch are lapsed with their key for the day already used |
| ExpiryLoop.StuckPagesAreFull | backend/internal/jobs/jobs.go:61-88 | otherwise every batch from then on is full, so the loop goes on |
| ExpiryLoop.OneStuckWallet | backend/internal/jobs/jobs.go:61-88 | a store and a batch size for which the loop never ends |
| ExpiryLoop.BonusExpiryJob.Candidates | backend/internal/repository/wallet/repository.go:321-330 | the first lapsed wallets by user id, as many as the limit allows |
| ExpiryLoop.BonusExpiryJob.Run | backend/internal/jobs/jobs.go:61-88 | the loop, which ends on that condition and then leaves lapsed exactly the wallets whose key was used, having counted at least those written off |
| Locks.ReachableIsDisciplined | backend/internal/repository/wallet/apply.go:16-50 | in every reachable state each transaction's next lock lies behind those it holds in the global order, wallets of the exclusive expiry job included |
| Locks.NoDeadlock | backend/internal/repository/wallet/apply.go:16-50 | no reachable state of any number of coin transactions, purchase failures and the many-wallet expiry transaction has a cycle of waits |
| Locks.WaitingShortensDistance | backend/internal/jobs/jobs.go:25-39 | each wait leads to a transaction strictly closer to its end |
| Locks.SomeoneCanMove | backend/internal/jobs/jobs.go:61-88 | following the waits from any transaction ends at one that can take its next lock or finish |
| AutoUnlock.TriesAreBounded | backend/internal/repository/wallet/sales.go:197-271 | over unbounded runs mixed with manual unlocks and edits, a pair is tried at most `maxAttempts` times by one scheduler, and one more for each further run that may be open at once |
| AutoUnlockLimits.LimitHoldsIff | backend/internal/repository/wallet/sales.go:197-271 | for every limit and every number of runs that may overlap: all legal runs keep the attempt limit if and only if one run is open at a time |
| AutoUnlockLimits.OverlappingRunsReachTheBound | backend/internal/repository/wallet/sales.go:197-271 | for every limit and width a legal run reaches the bound, `maxAttempts` tries and one more for each further run |
| AutoUnlock.ExcludedForGood | backend/internal/repository/wallet/sales.go:197-251 | after any outcome other than "insufficient", or once owned, a pair no run holds is never tried again |
| AutoUnlockLimits.NeverTriedAgainIff | backend/internal/repository/wallet/sales.go:197-251 | a pair that is owned or closed is never tried again, in any legal run from there, if and only if no open run still holds it |
| AutoUnlockLimits.OwnedPairIsTried | backend/internal/jobs/autounlock.go:47-95 | a legal run in which a claimed chapter is bought by hand and tried all the same |
| AutoUnlock.LeftOnlyFalls | backend/internal/repository/wallet/sales.go:197-271 | however many runs may be open, no step gives a pair tries back, and a claim uses one up for each pair it takes |
| AutoUnlock.FanOutFallsSilent | backend/internal/jobs/autounlock.go:47-95 | with a fixed set of pairs and any number of runs open at once, the number of non-empty runs plus the tries left over never exceeds the tries at the start |
| AutoUnlock.NonEmptyRunsAreBounded | backend/internal/jobs/autounlock.go:47-95 | so with n pairs there are at most n times (maximum attempts plus width minus one) non-empty runs |
| AutoUnlockOutcomes.OutcomeIff | backend/internal/jobs/autounlock.go:97-136 | the outcome of a pair debited for the first time, read off the rows: over the cap, skipped, short of coins, or unlocked and sold at the price of that moment |
| AutoUnlockOutcomes.SecondTimeIsReplayed | backend/internal/service/wallet/service.go:408-430 | a pair whose key is in use is never bought again |
| AutoUnlockOutcomes.FreshCandidateIsNotSkipped | backend/internal/jobs/autounlock.go:97-136 | a pair debited as soon as it is claimed is never skipped, is over the cap exactly when its price is, and costs what it was claimed at |
| AutoUnlockOutcomes.OpenClaimsWereDue | backend/internal/repository/wallet/sales.go:197-249 | over every legal run, whatever an open run has still to debit it claimed while the subscription was active, the chapter published since, at a price and unowned, and a retry due |
| AutoUnlockOutcomes.RowsAreTheNotes | backend/internal/repository/wallet/sales.go:253-271 | a pair's row counts its notes over any run and holds the last outcome and time |
| AutoUnlockOutcomes.NotedIsDebited | backend/internal/jobs/autounlock.go:75-95 | what is noted is what the run's own debit came to, whatever others did in between |
| AutoUnlock.Job.Debit | backend/internal/jobs/autounlock.go:97-136 | one candidate is debited through the write path and its outcome named as the code names it |
| AutoUnlock.Job.Run | backend/internal/jobs/autounlock.go:60-95 | the loop over a claimed batch debits, records and counts as specified, with a clock reading of its own for each debit |
| Render.ParseIsLossless | backend/internal/glossaryrender/render.go:38-100 | the segmentation the scanner makes concatenates back to the source, every marker is the first there is, and the tail holds none |
| Render.ParseIsUnique | backend/internal/glossaryrender/render.go:38-100 | only one decomposition of a source satisfies that, so the specification is not tied to the scan |
| Render.SpansBackToMarkers | backend/internal/glossaryrender/render.go:30-37 | the output is the source with bound markers replaced; putting each marker back for its span gives the source; with no terms the output is the source |
| Render.BoundIdsAreExact | backend/internal/glossaryrender/render.go:80-98 | the bound entries are exactly those of the markers that bind |
| Render.UnknownIsExact | backend/internal/glossaryrender/render.go:71-79 | each valid key without a term is reported exactly once, and nothing else is |
| Render.UnknownIsInOrder | backend/internal/glossaryrender/render.go:71-79 | and they are reported in the order in which the source first mentions them |
| Render.EscapeIsInjective | backend/internal/glossaryrender/render.go:84-88 | different titles never escape to the same text |
| Render.TextIgnoresOrderIff | backend/internal/jobs/jobs.go:424-444 | for every list of terms: every source renders to the same text in every order of the rows, if and only if terms that share a usable key have the same title |
| Render.EntriesIgnoreOrderIff | backend/internal/jobs/jobs.go:424-444 | for every list of terms: every source binds the same entries in every order of the rows, if and only if terms that share a usable key are one entry |
| Render.UnknownIgnoresOrder | backend/internal/glossaryrender/render.go:71-79 | the unknown keys of every source are the same in every order of the rows |
| Render.EscapedIsInert | backend/internal/glossaryrender/render.go:84-88 | no character that could open a tag or end an attribute survives escaping |
| Render.ValidKeysAreTheirOwnEscape | backend/internal/glossaryrender/render.go:110-125 | a valid key is left unchanged by escaping |
| Markers.MarkerReadsIff | backend/internal/glossaryrender/render.go:104-107 | there is one way to read a marker, a key and a text after the first bar, each without the white space around it, and it is the renderer's |
| Markers.ShownIff | backend/internal/glossaryrender/render.go:40-87 | a marker binds if and only if its key is well formed and some term has it; it shows its own text, or without one the title of the last such term |
| Markers.OwnTextsHideTitles | backend/internal/glossaryrender/render.go:81-83 | two term lists with the same keys render a document alike, whatever the titles, when every bound marker has a text of its own |
| Markers.RenderAlikeIff | backend/internal/glossaryrender/render.go:81-87 | two markers of one bound key render alike if and only if they show the same |
| Markers.OutputReadsBack | backend/internal/glossaryrender/render.go:38-100 | taken apart as HTML, the output is the source's own tags and text with, in the place of each bound marker, a span naming its key around exactly what it shows |
| Markers.OutputShows | backend/internal/glossaryrender/render.go:38-100 | what is seen of a plain text's rendering is the source with each bound marker replaced by what it shows |
| Markers.TheBladeIsShown | backend/internal/glossaryrender/render.go:30-31 | a marker of key k with the text "the blade" shows the blade, whatever the title of k |
| Render.SharedKeysMakeOrderMatter | backend/internal/glossaryrender/render.go:40-46 | two terms and a source whose rendered text depends on the order in which the terms come back |
| Render.SharedKeysBindEither | backend/internal/glossaryrender/render.go:40-46 | two entries with one key and one title, for which the order decides which entry is bound |
| Render.Scan | backend/internal/glossaryrender/render.go:51-92 | the index loop equals the recursive specification in output, bound set and unknown list |
| Render.RenderMarker | backend/internal/glossaryrender/render.go:68-90 | one marker: verbatim when malformed or unknown, a span when bound, with its bookkeeping; what a span shows is in the rows of `Markers` |
| Render.SortIds | backend/internal/glossaryrender/render.go:94-98 | the entry ids are exactly the bound set, strictly increasing |
| Render.Render | backend/internal/glossaryrender/render.go:38-102 | the whole renderer meets the specification, which determines its result; what is seen of that result is in the rows of `Markers` |
| Rerender.RunStaysFresh | backend/internal/repository/writer/repository.go:523-588 | every interleaving of edits, saves, publishes and sweeps keeps each body, and each half-done writer, within the revisions it has read |
| Rerender.StampsNeverOverstate | backend/internal/jobs/jobs.go:128-150 | a rendered body's stamp never exceeds the revision of the terms it was rendered with; stamped current, it is the rendering of the source its writer read with exactly the current terms, provided terms sharing a usable key have the same title |
| RenderTraces.PublishWrites | backend/internal/repository/writer/repository.go:523-588 | whatever is committed between its statements, a publish leaves the rendering of the source saved when it read the source with the terms current when it read those, stamped with the revision current when it began, and changes nothing else |
| RenderTraces.SweepWrites | backend/internal/jobs/jobs.go:124-153 | a sweep leaves the rendering of the source its scan saw, with the terms current when it read them and the scan's revision, over an older stamp, and nothing over a stamp as new |
| RenderTraces.StaleIffBehind | backend/internal/jobs/jobs.go:100-123 | in every reachable state a chapter waits for the job if and only if its stamp is not the current revision |
| Backlog.ScansPayOff | backend/internal/jobs/jobs.go:100-155 | from any reachable state, over every run without a further edit, publishes, saves, new chapters and sweeps interleaved: the stale bodies no sweep has in hand, the outdated publishers and all rows scanned come to at most those at the start, the chapters added and the rows given up |
| Backlog.SweepsCatchUp | backend/internal/jobs/jobs.go:100-155 | in such a run, once full batches cover what was waiting, the stale bodies are no more than the publishers outdated at the start and the chapters added since: none, if there were neither |
| Backlog.SweepIsARun | backend/internal/jobs/jobs.go:100-155 | a job with nothing in between is a run of the interleaved machine |
| Backlog.SweepOnItsOwn | backend/internal/jobs/jobs.go:100-155 | the undisturbed case: it takes its whole batch off the stale bodies |
| Backlog.Sweeper.Sweep | backend/internal/jobs/jobs.go:124-153 | the job's loop on its own leaves every row of its batch rendered and stamped, touches nothing else, and counts it |
| Rerender.PublishIsKeptIff | backend/internal/repository/writer/repository.go:523-588 | after a publish is written in any reachable state, every continuation without another save or publish of the chapter keeps showing its source, if and only if at that moment the source is still the saved one and no sweep in flight holds the chapter, with another source, from a scan newer than the revision the publisher read |
| Rerender.PublishCanBeLost | backend/internal/repository/writer/repository.go:523-588 | a reachable run in which a publish is overwritten by older source and stamped current |
| TokenBucket.SweepIsInvisible | backend/internal/ratelimit/limiter.go:58-94 | over any run at non-decreasing times the sweeping limiter answers exactly like one that never sweeps |
| TokenBucket.TokensPayForCalls | backend/internal/ratelimit/limiter.go:58-81 | over any run of calls, the tokens at the end plus the calls allowed never exceed the tokens at the start plus the inflow |
| TokenBucket.AllowedIsBounded | backend/internal/ratelimit/limiter.go:25-34 | in every interval of every run the calls allowed for a key number at most the burst plus the inflow |
| TokenBucket.AllowedIff | backend/internal/ratelimit/limiter.go:25-81 | the rule in whole numbers, over every run of the sweeping limiter: a call is let through if and only if no interval that ends with it gets more calls on its key than the rate plus the rate for each period it lasts |
| TokenBucket.WaitIsEnoughIff | backend/internal/ratelimit/limiter.go:75-78 | the sweeping limiter from its empty start: after any calls and a refusal, with no other call on the key, the returned wait suffices if and only if the truncation to ticks cut nothing; one tick more always does |
| TokenBucket.ReturnedWaitCanBeTooShort | backend/internal/ratelimit/limiter.go:75-78 | a run of calls from the empty limiter whose refusal returns a wait that does not suffice |
| TokenBucket.Limiter.Allow | backend/internal/ratelimit/limiter.go:58-81 | the method on mutable buckets equals the specified decision after the specified sweep |
| TokenBucket.Limiter.SweepIdle | backend/internal/ratelimit/limiter.go:83-94 | below 1024 buckets nothing happens; from there the deleting loop leaves exactly the buckets not idle for two periods |
| DistinctCounter.LiveIsExact | backend/internal/ratelimit/limiter.go:132-168 | the values the rule counts are exactly those whose last allowed touch is inside the closed window |
| DistinctCounter.CounterFollowsTheRule | backend/internal/ratelimit/limiter.go:132-184 | over any run at non-decreasing times the counter's answers are exactly the rule's — repeat inside the closed window, or fewer than `limit` live values — so neither pruning nor sweeping shows |
| DistinctCounter.AllowedIff | backend/internal/ratelimit/limiter.go:132-168 | the rule in plain terms, over every run: a touch is let through if and only if its value, or fewer than the limit of values, were let through for the key within the window |
| DistinctCounter.WindowsAreLimited | backend/internal/ratelimit/limiter.go:96-101 | no closed window of the configured length holds more than `limit` distinct allowed values |
| DistinctCounter.WaitIsOneTickShort | backend/internal/ratelimit/limiter.go:161-163 | whatever is refused or goes on under other keys in between, the same touch is allowed again if and only if strictly more than the returned wait has passed |
| DistinctCounter.ReturnedWaitIsRefused | backend/internal/ratelimit/limiter.go:161-163 | a touch told to wait seven ticks is refused after seven and allowed after eight |
| DistinctCounter.Counter.PruneValues | backend/internal/ratelimit/limiter.go:145-154 | the pruning loop keeps exactly what is not before the cutoff and finds its earliest time |
| DistinctCounter.SweepIsExact | backend/internal/ratelimit/limiter.go:170-184 | from 1024 keys on a sweep keeps exactly the times inside the window and the keys that have one; below it keeps everything |
| DistinctCounter.Counter.SweepAll | backend/internal/ratelimit/limiter.go:170-184 | the nested deleting loop prunes every key and drops the empty ones |
| DistinctCounter.Counter.Observe | backend/internal/ratelimit/limiter.go:132-168 | the method on mutable maps equals the specified observation, and a refusal's wait runs from the earliest live value |
| Sessions.OneOpenTokenPerFamily | backend/internal/repository/identity/sessions.go:47-120 | after any run of transactions a family has at most one unrevoked token, its newest |
| Sessions.LinksFormChains | backend/internal/repository/identity/sessions.go:100-102 | a `replaced_by` link leads to the next row of the same family, with a larger id, and no two rows share one |
| Sessions.ChainsAreWhole | backend/internal/repository/identity/sessions.go:87-102 | while nothing is deleted, every row but a family's newest has its link |
| Sessions.ReplayKillsTheFamily | backend/internal/repository/identity/sessions.go:79-113 | once a replay has been detected and, any transactions later, its revocation has run, no later run leaves a live token in the family or rotates one of its tokens |
| Sessions.LogoutEndsTheFamily | backend/internal/repository/identity/sessions.go:122-137 | after a sign-out with a token, spent or not, no run of later transactions leaves a live token in its family |
| Sessions.SignOutEverywhere | backend/internal/repository/identity/sessions.go:139-144 | after a user's sessions are revoked, and until that user signs in again, no run of transactions leaves a live token of the user or exchanges one |
| Sessions.ExchangedAtMostOnce | backend/internal/repository/identity/sessions.go:67-103 | a token exchanged once is never exchanged again: any later presentation is a reuse, or unknown after deletion |
| SessionLifetimes.ExchangedIff | backend/internal/repository/identity/sessions.go:67-103 | row by row: a presentation is exchanged if and only if the hash is stored, unrevoked and unexpired and the next hash unused; the successor has the same user and family and the requested expiry, the spent row its time and link, and nothing else changes |
| SessionLifetimes.RefusedIff | backend/internal/repository/identity/sessions.go:67-103 | each refusal exactly: a spent token is a reuse whatever its age, an unknown or expired one is invalid |
| SessionLifetimes.ExpiredIsOver | backend/internal/repository/identity/sessions.go:83-85 | over every run: once a family's open token has expired, no run of transactions with clock readings from then on issues a row in the family, changes an expiry in it or exchanges a token of it |
| SessionLifetimes.LiveUntilExpiry | backend/internal/repository/identity/sessions.go:83-85 | until then the open token is exchanged, at every moment before its expiry and at none after |
| SessionLifetimes.LateTokenIsRefused | backend/internal/repository/identity/sessions.go:83-85 | expired at 10 and presented at 50: refused, and nothing changes |
| SessionLifetimes.RevocationIsExact | backend/internal/repository/identity/sessions.go:122-158 | a revocation stamps exactly the open rows it concerns, with its time |
| SessionLifetimes.CleanUpIsExact | backend/internal/repository/identity/sessions.go:147-152 | the clean-up keeps exactly the rows that have not expired by the given time, and of links those to rows it keeps |
| Sessions.SessionStore.Exchange | backend/internal/repository/identity/sessions.go:67-103 | the rotating transaction on mutable rows, with all its refusals: exchanged if and only if stored, unrevoked, unexpired and the next hash unused |
| Sessions.SessionStore.Rotate | backend/internal/repository/identity/sessions.go:52-120 | rotation and the separate family revocation after a reuse, successful on the same condition |
| Sessions.SessionStore.DeleteExpired | backend/internal/repository/identity/sessions.go:147-152 | exactly the rows expired before the cutoff go, links to them become null, and their number is returned |
| Sessions.SessionStore.Commit | backend/internal/repository/identity/sessions.go:30-152 | every transaction of the runs above is the imperative method's |
| SessionOverlap.OneLiveTokenPerFamily | backend/internal/repository/identity/sessions.go:47-120 | also statement by statement, with rotations, revocations and clean-ups overlapping in any way, a family has at most one live token, its newest |
| SessionOverlap.UnrotatedRevocationIsFinal | backend/internal/repository/identity/sessions.go:154-158 | a family revocation during which no rotation of the family commits ends the family for good, whatever else runs during and after it |
| SessionOverlap.RevocationStatements | backend/internal/repository/identity/sessions.go:139-158 | a revocation notes exactly the rows live when it begins and, when it ends, stamps those still open with its time |
| SessionOverlap.RevocationMissesIff | backend/internal/repository/identity/sessions.go:106-113 | with nothing else ending or deleting rows meanwhile, the revocation leaves no live token in the family if and only if no rotation of the family commits while it is under way |
| SessionOverlap.RevocationIsSureIff | backend/internal/repository/identity/sessions.go:106-113 | every way the statements can fall leaves the family without a live token if and only if it had none before the call |
| SessionOverlap.TheftCanOutliveItsDetection | backend/internal/repository/identity/sessions.go:79-113 | a legal run in which a replay is detected and its revocation commits, and the thief's rotation under way meanwhile leaves a live token |
| RefreshClient.PresentedTwiceIff | frontend/src/shared/api/client.ts:99-138 | whatever the server and others do, a tab sends some refresh token twice if and only if it starts a refresh after a lost one with its store neither replaced nor cleared in between |
| RefreshClient.LostResponseRepeatsTheToken | frontend/src/shared/api/client.ts:114-138 | a run from the start in which the tab presents its first token twice, and the second time is taken for a theft |
| RefreshClient.PresentedAtMostOnce | frontend/src/shared/api/client.ts:114-138 | when every refresh gets a response, any number of concurrent 401s send each token at most once |
| SignOuts.TakenForTheftIff | frontend/src/features/identity/auth.tsx:62-70 | a tab left alone and always answered, its sign-outs landing at the server and clearing the store in any order with its refreshes: a reuse is detected if and only if the server sees one of its refreshes after the sign-out of the same session |
| SignOuts.SignOutIsSafeIff | frontend/src/features/identity/auth.tsx:62-70 | at any sign-out after an orderly run: no orderly continuation is taken for a theft if and only if no refresh of the session is running, or granted and not yet stored, at that moment |
| SignOuts.NeverTakenForTheft | frontend/src/features/identity/auth.tsx:62-70 | left alone, always answered, and with every sign-out finding no refresh pending and none starting before the store is cleared, a tab is never taken for a thief |
| SignOuts.SignOutOvertakesARefresh | frontend/src/features/identity/auth.tsx:62-70 | a run in which the sign-out lands while a refresh is on its way, which is then taken for a theft |
| SignOuts.GrantOutlivesTheSignOut | frontend/src/features/identity/auth.tsx:62-70 | a run in which a grant is delivered after the store was cleared: the tab holds a token again, and its next refresh is taken for a theft |
| SignOuts.RefreshWhileLeaving | frontend/src/features/identity/auth.tsx:62-70 | a run in which a 401 between landing and clearing starts a refresh that is taken for a theft |
| RefreshClient.LostResponseEndsTheSession | frontend/src/shared/api/client.ts:130-136 | from any signed-in state, a response lost after the exchange makes the retry a reuse: the family dies and the tab is signed out |
| RefreshClient.LostRequestIsHarmless | frontend/src/shared/api/client.ts:130-136 | a request lost before the exchange costs nothing |
| RefreshClient.Tab.On | frontend/src/shared/api/client.ts:99-138 | on every event of a run the mutable tab is the client the runs are about |
| Reorder.ArrangementIsUnique | backend/internal/service/writer/series.go:69-105 | a client list and the members determine every position |
| Reorder.NoGaps | backend/internal/domain/writer/series.go:157-173 | every slot from 1 to n is taken |
| Reorder.ReorderPositions | backend/internal/domain/writer/series.go:162-173 | the loop numbers ids from 1 in order of first mention |
| Reorder.ReorderSeries | backend/internal/service/writer/series.go:69-105 | for any list with strangers, repeats and omissions the positions are 1..n, one per member, named members in first-mention order and omitted ones behind in their old order |
| Reorder.PassIsSafeIff | backend/internal/repository/writer/series.go:168-177 | an update pass under a row-by-row unique index is safe in every row order if and only if it neither starts nor ends with a clash nor hands a position from one row to another |
| Reorder.FirstPassIsSafeIff | backend/internal/repository/writer/series.go:199-204 | negating every position is safe in every row order if and only if no two rows hold opposite positions |
| Reorder.SecondPassIsSafeIff | backend/internal/repository/writer/series.go:206-209 | the renumbering is then safe in every row order, whatever positions are stored, if and only if no uncovered row holds an assigned position or mirrors another, and no row is given the opposite of another's position |
| Reorder.RenumberingIsSafeIff | backend/internal/repository/writer/series.go:178-210 | the whole renumbering, whatever positions are stored and whichever rows the request covers: both passes are safe in every row order if and only if no two rows are opposite, no row is given the opposite of another's position, and no uncovered row holds an assigned position |
| Reorder.ReorderIsSafeIff | backend/internal/repository/writer/series.go:178-210 | with every member read, both passes are safe if and only if no two rows are opposite and no row is given the opposite of another's position |
| Reorder.NegativePositionClashes | backend/internal/handler/writer/handler.go:494 | one negative position, no two opposite, every member read: the first pass goes through and the second can clash |
| Reorder.LateMemberClashes | backend/internal/repository/writer/series.go:178-210 | a novel that joins between the read and the write holds an assigned position, and the second pass can clash |
| Reorder.ReorderNeverClashes | backend/internal/repository/writer/series.go:178-210 | from distinct non-negative positions with every member read, both passes go through in any row order and leave the arrangement |
| Reorder.OnePassClashes | backend/internal/repository/writer/series.go:168-173 | a single pass rotating three positions clashes |
| Reorder.OppositePositionsClash | backend/internal/handler/writer/handler.go:494 | positions are not validated on the way in, so opposite ones can be stored, and then the first pass can clash |
| Reorder.Series.Pass | backend/internal/repository/writer/series.go:198-210 | a row-by-row pass that reports success leaves the target, and reports failure only when some row order clashes |
| Reorder.Series.SetSeriesOrder | backend/internal/repository/writer/series.go:178-210 | both passes leave the final positions, uncovered rows as they were, or roll everything back |
| Calendar.TableIsExact | backend/internal/jobs/scheduler.go:180-184 | the closed form for year and month starts, leap years included, agrees with laying the months end to end |
| Calendar.DayZeroIsLast | backend/internal/jobs/scheduler.go:182-183 | the zeroth day of the next month is where the month ends, across year ends |
| Calendar.MonthIsUnique | backend/internal/jobs/scheduler.go:168-170 | a day lies in exactly one month |
| Calendar.FirstOfMonthIsExact | backend/internal/jobs/scheduler.go:163-184 | every month begins where the Gregorian rule puts it |
| Calendar.WeekdaysTurn | backend/internal/jobs/scheduler.go:153-159 | weekdays turn by one a day from a known Thursday |
| Schedules.ShowsIff | backend/internal/jobs/scheduler.go:139-149 | the clock shows its time exactly when that much of the zone's day is gone |
| Schedules.DailyIsNext | backend/internal/jobs/scheduler.go:139-149 | the daily rule gives the least instant strictly after the argument at which the zone's clock shows the time |
| Schedules.NextWeeklyAt | backend/internal/jobs/scheduler.go:153-159 | the stepping loop gives the least such instant on the weekday |
| Schedules.MonthlyIsNext | backend/internal/jobs/scheduler.go:163-184 | the monthly rule gives the least matching instant, short months clamped to their last day, leap years and year ends included |
| Schedules.ShowsMonthlyIff | backend/internal/jobs/scheduler.go:163-184 | an instant matches the monthly rule if and only if the clock shows the time on the day asked for, or on the month's last day when it has no such day |
| Schedules.Earliest | backend/internal/jobs/scheduler.go:119-127 | the scan gives the least due time and the first schedule that has it |
| Schedules.PartitionsMeet | backend/internal/jobs/jobs.go:370-376 | consecutive partition bounds meet exactly, and a partition holds exactly the instants of its UTC month |
| Schedules.RunsCover | backend/internal/jobs/jobs.go:343-368 | with no gap of more than two months between runs, every instant from the first run's month to the month after the last run's is in a partition |
| Schedules.MissedMonthIsUncovered | backend/internal/jobs/jobs.go:343-368 | a longer gap leaves an instant in no partition |
| Schedules.SameMonthInEveryZone | backend/internal/jobs/registry.go:50-51 | at the scheduled instant the calendar month is the same in every zone between UTC-12 and UTC+14 |
| Schedules.ScheduledRunsStayAhead | backend/internal/jobs/registry.go:50-51 | from one scheduled run to the next, every event lands in a partition the first of the two made, whatever zone the process runs in |
| LedgerPages.Normalize | backend/internal/domain/page/page.go:13-18 | a limit between one and the maximum is kept, any other becomes the fallback |
| LedgerPages.Repository.ListLedger | backend/internal/repository/wallet/repository.go:45-88 | fetching one row more, cutting and copying gives the specified page and cursor |
| LedgerPages.PageCuts | backend/internal/repository/wallet/repository.go:50-80 | a row the query selects is on the page if and only if it is not below the returned cursor |
| LedgerPages.PageIsExact | backend/internal/repository/wallet/repository.go:45-88 | one page told without the query: the newest eligible rows, newest first, as many as there are up to the limit, and a cursor at the last of them if and only if some are left |
| LedgerPages.FollowedDescends | backend/internal/repository/wallet/repository.go:64-80 | across all pages the rows descend strictly in (created_at, id), whatever is appended in between |
| LedgerPages.NothingIsSkipped | backend/internal/repository/wallet/repository.go:50-52 | following the cursors to the end shows every row that was there at the start |
| LedgerPages.NothingIsInvented | backend/internal/repository/wallet/repository.go:45-88 | only the user's own rows are shown, and only rows in the ledger by the last page |
| LedgerPages.FollowingEnds | backend/internal/repository/wallet/repository.go:70-80 | following the cursors ends once the pages could hold more rows than the ledger has |
| LedgerPages.EveryRowOnce | backend/internal/repository/wallet/repository.go:45-88 | put together: each of the user's rows of the first moment is shown exactly once, newest first |
| LedgerPages.PagesShowEveryRowOnce | backend/internal/repository/wallet/repository.go:45-88 | and that while any coin operations of any run are committed between the pages |

## Left out

- HTTP handlers, DTOs, routing, middleware, configuration, storage and the React pages other than the token transport: plumbing and user interface.
- SQL text and the database engine. Tables are maps and sequences, an index is a constraint, and a transaction is one step, or a sequence of lock-taking steps in `Locks`. `updated_at` columns, integer overflow of 32-bit columns and gaps in row ids after a rollback are not modelled: ledger rows are numbered in commit order.
- Statement-level isolation inside the session transactions other than rotation, revocation and clean-up, which `SessionOverlap` models: a sign-in is one step, and a rotation that is refused commits nothing and is left out there.
- Deleting a glossary group, which removes its entries without a revision of its own in the same statement: only edits that bump the revision with the edit are modelled.
- Payout requests: the balance is read and the payout inserted separately, so only a one-step version would hold.
- The date text in a bonus-expiry key is a parameter, and `ExpiryLoop` runs with nothing else committed between its batches.
- Which candidates an auto-unlock run claims (ordering and batch size): any claim the query's conditions allow is a possible step.
- Strings are sequences of Unicode code points, not UTF-8 bytes.
- Password hashing, access tokens, random ids, base64 and JSON. Random tokens, hashes and families are drawn fresh; a cursor is its pair of keys, and malformed cursors are not modelled.
- Several tabs sharing one stored token: the client is one tab.
- The scheduler's timer loop: the rules for the next run and the choice of the earliest due job are modelled, waiting and running are not.
- Daylight saving: zones are at fixed offsets, which Bangkok is.
- Ranking, statistics, search, comments, notifications, chapters' drafts and revisions, series relations: no harder property than those proved.
- TokenBucket.WaitIsEnoughIff: does not model the rounding of floating-point token counts or the whole-second rounding of the response header.
- DistinctCounter.Counter.Observe: the inner map of a key is a value stored back into the outer map, so the sharing of that inner map between the two is not captured.
- WalletDb.Database.Apply: the rows are values in sequences; nullable columns, other than those that matter here, and the order in which a table returns rows are not captured.
- Reorder.ReorderNeverClashes: positions are unbounded integers; the 16-bit range of the column is not modelled.
- Schedules.MonthlyIsNext: the day must be at least 1 and the time a time of day, as every registered schedule's are; arguments that roll over are not covered.
- Sessions.ExchangedAtMostOnce: assumes that the random hash is not inserted a second time after its row was deleted.
- Sessions.ReplayKillsTheFamily: holds of whole transactions; `SessionOverlap.RevocationMissesIff` says what an overlapping rotation does to it.
- Sessions.LogoutEndsTheFamily: holds of whole transactions, as above.
- LedgerPages.PagesShowEveryRowOnce: each page reads one committed state; a row whose timestamp is older than one already shown, committed between two pages, is not promised to be shown.
- Backlog.Sweeper.Sweep: one job on its own; what others commit in between is in `Backlog.SweepsCatchUp`. A sweep's writes are visible one by one and stay when it gives up, where the job commits them together: nobody but a reader of the page can tell, since the written rows are locked until then and the job's own lock keeps other sweeps out.
- AutoUnlock.TriesAreBounded: a try counts when it is recorded. When the record itself fails, which the job logs and passes over, the try is not counted.
- SignOuts.TakenForTheftIff: each response arrives; what a lost one does is in `RefreshClient`.
- Markers.OutputReadsBack: a tag or character reference of the writer's own that is left open before a bound marker is not covered; what is written there is in `Render.SpansBackToMarkers`.
- Requests.PurchasesBringTheirPacks: a purchase may be opened for any pack number; the look-up of the pack at that moment is not modelled, the one at completion is.
